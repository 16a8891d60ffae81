# jedec2bin core in Dafny

This project models the core of `jedec2bin`, a tool that reads a JEDEC fuse map
for a GAL16V8 and prints the logic equations the fuses program.

The model has three parts:

- **Field extraction and block parsing** (`fields.dfy`, `blocks.dfy`, `text.dfy`).
  After STX the input is a run of fields, each ended by `*` or by ETX (0x03).
  CR and LF bytes are dropped wherever they appear. Each field is classified by
  its first letter, and then by its second letter for `Q`:
  - `L<pos> <bits>`: a fuse run of at most 32 bits;
  - `F<c>`: the default fuse;
  - `G<c>`: the security fuse;
  - `C<hex>`: the checksum;
  - `QP<dec>`: the pin count;
  - `QF<dec>`: the fuse count.

  Anything else is `Unknown`. The bit-by-bit state machine of the fuse-list
  parser is a method, proved equal to a declarative reading of the record.
- **The `Jedec` accumulator** (`jedec.dfy`, `jedec_properties.dfy`). A class
  with a sparse fuse map (`map<nat, bool>`) and five scalar fields.
  - `AddInfoFromBlock` reads one field and updates the object.
  - ETX fills every missing fuse below the declared fuse count with the
    default fuse.
  - `GetFuseBit` falls back to the default fuse for an absent index.
  - `DecodeStream` is the loop of `main`: it keeps calling `AddInfoFromBlock`
    until a read exhausts the stream. ETX does not stop it.

  `JedecState` is the value of the object. `ApplyField` and `Decode` are the
  functions the methods are proved against. Lemmas give each record kind's
  effect, the gap fill, the 32-bit limit on a fuse run, and a complete small
  decode.
- **The GAL16V8 decompiler** (`gal16v8.dfy`, `gal16v8_listing.dfy`,
  `gal16v8_decompiler.dfy`). The `Gal16v8` constructor does the following:
  - reads the SYN and AC0 fuses and the 64-bit user signature;
  - for each of the eight output macrocells (OLMCs) not disabled by its AC1
    fuse, collects the product terms: rows whose PTD fuse is set, minus rows
    with every column included;
  - renders the line `pin<n>=` followed by the products, wrapped in `/{ … }`
    when the XOR fuse is clear.

  The loops are methods proved equal to recursive specifications. Lemmas cover:
  - the fuse layout (the AND array is injective and below 2048);
  - row and column selection (membership, order and length);
  - the closed forms of the two constant tables;
  - how a line reads back: its pin number, `!` on inverted columns, and
    negation wrapping.

The letter tests of the pin-count and fuse-count parsers (`src/jedec2bin.cpp`
lines 271-272 and 310-311) compare the first letter with `G`, not `Q`. They
join their four comparisons with `&&`. A field reaches those parsers only when
its first letter is `Q` and its second is `P` or `F`, so the test always passes.
The model keeps the test as written (`Blocks.ParsePinCount`,
`Blocks.ParseBitstreamSize`). `Blocks.PinCountLetterTest` and
`Blocks.BitstreamSizeLetterTest` prove that the second letter alone decides.

Pin and fuse counts are dispatched on `Q` (`src/jedec2bin.cpp:457-484`), so
the complete decode proved in `DecodeProperties.DecodeSmallDevice` declares its
fuse count with `QF4`.

## Model

| member | source | states |
|---|---|---|
| Text.DecimalText | src/jedec2bin.cpp:633 | `std::to_string` of a count is non-empty, all digits, with no leading zero |
| Text.DecimalTextRoundTrip | src/jedec2bin.cpp:633 | reading the printed digits back gives the number again |
| Text.LeadingDecimalOfDigits | src/jedec2bin.cpp:96 | `atol` on an all-digit text reads every digit |
| Text.LeadingDecimalStops | src/jedec2bin.cpp:277 | `atol` stops at the first non-digit: digits followed by other text read as the digits alone |
| Text.DecimalTextRead | src/jedec2bin.cpp:656-660 | printing a pin number and reading it back with `atol` is the identity |
| Text.LeadingDecimal | src/jedec2bin.cpp:277 | `std::atol` as the count parsers use it: the value of the leading decimal digits, and 0 when the text does not start with a digit |
| Text.HexValue | src/jedec2bin.cpp:238 | the value `std::stoi(…, 16)` gives an all-hex text; it is 0 exactly when every digit is `0` |
| Text.DigitPrefixLength | src/jedec2bin.cpp:316 | the digit run `atol` consumes is all digits and is followed by a non-digit or the end |
| Fields.ReadField | src/jedec2bin.cpp:356-371 | the extractor consumes input from `pos` on; it ends at end of input exactly when the stream is used up without a final terminator |
| Fields.ReadFieldContents | src/jedec2bin.cpp:356-371 | the field is the text before the first `*`/ETX with CR and LF removed; it holds no terminator, CR or LF; the consumed terminator is the one the result names |
| Fields.ExtractField | src/jedec2bin.cpp:353-371 | the byte loop returns exactly `ReadField`'s field, next position and terminator |
| Blocks.ParseSecurityFuse | src/jedec2bin.cpp:148-167 | accepted exactly for a two-character field starting with `G`/`g`; the flag is set exactly when the second character is `1` |
| Blocks.ParseDefaultFuse | src/jedec2bin.cpp:186-205 | accepted exactly for a two-character field starting with `F`/`f`; the default is `1` exactly when the second character is `1` |
| Blocks.ParseChecksum | src/jedec2bin.cpp:224-243 | accepted exactly for a field of at least three characters starting with `C`/`c`; the checksum is the hex value after the `C`, which fits an `int` |
| Blocks.ParsePinCount | src/jedec2bin.cpp:262-282 | accepted exactly when the field has at least three characters and its first letter is `G`/`g` or its second is `P`/`p` (the `&&`-joined rejection test); the count is `atol` from offset 2 |
| Blocks.ParseBitstreamSize | src/jedec2bin.cpp:301-321 | accepted exactly when the field has at least three characters and its first letter is `G`/`g` or its second is `F`/`f`; the size is `atol` from offset 2 |
| Blocks.IndexOfL | src/jedec2bin.cpp:84-91 | the state machine leaves its first state at the first `L`/`l`, and no earlier |
| Blocks.IndexOfSpace | src/jedec2bin.cpp:92-105 | the position text ends at the first space after the `L` |
| Blocks.Bitset | src/jedec2bin.cpp:106-119 | fuse character `t` of the run sets bit `31 - t` exactly when it is `1`; the bits below the run stay clear |
| Blocks.BitsetPush | src/jedec2bin.cpp:118 | one more fuse character writes the next bit down and nothing else |
| Blocks.ParseFuseList | src/jedec2bin.cpp:72-129 | an accepted run has a 32-bit set and at most 32 fuses |
| Blocks.TryParseFuseList | src/jedec2bin.cpp:72-129 | the state machine yields the declarative parse: position from the digits after `L`, one fuse per character after the space, failure past 32 |
| Blocks.PinCountLetterTest | src/jedec2bin.cpp:271-277 | with `P` second, the pin-count letter test passes whatever the first letter, and the count is `atol` at offset 2 |
| Blocks.BitstreamSizeLetterTest | src/jedec2bin.cpp:310-316 | with `F` second, the fuse-count letter test passes whatever the first letter, and the size is `atol` at offset 2 |
| JedecMap.JedecState.FuseBit | src/jedec2bin.cpp:332 | `get_fuse_bit` on the state's value: the stored entry, or the default fuse when the index is absent |
| JedecMap.Jedec.GetFuseBit | src/jedec2bin.cpp:332 | `get_fuse_bit` on the object: the same reading of its current fields |
| JedecMap.ApplyBlock | src/jedec2bin.cpp:388-500 | the dispatch on a field not ended by ETX: under two characters, unknown letters and failed parses give `Unknown` and no change; otherwise the parsed value overwrites its own part of the state |
| JedecMap.ApplyField | src/jedec2bin.cpp:351-501 | one `add_info_from_block` on an extracted field: ETX fills the gaps below the fuse count with the default and answers `Done`; any other field goes to `ApplyBlock` |
| JedecMap.DecodeFrom | src/jedec2bin.cpp:704-713 | the loop of `main` from a position: apply fields until a read exhausts the stream, going on past ETX |
| JedecMap.Decode | src/jedec2bin.cpp:704-713 | the state the loop of `main` leaves, starting from a new `Jedec` at the byte after STX |
| JedecMap.FillGapsContents | src/jedec2bin.cpp:376-383 | the gap fill keeps every existing entry, adds exactly the missing indices below the size, and sets each to the default |
| JedecMap.WritePrefixContents | src/jedec2bin.cpp:403-416 | copying `count` fuses writes fuse `pos + j` from bit `31 - j` for each `j < count` and leaves all other entries |
| JedecMap.Jedec.constructor | src/jedec2bin.cpp:341-347 | a new object has an empty map and every scalar zero or false |
| JedecMap.Jedec.FillMissingFuses | src/jedec2bin.cpp:376-383 | the loop leaves the gap-filled map and no other change |
| JedecMap.Jedec.StoreFuses | src/jedec2bin.cpp:403-416 | the copy loop leaves the map with the run written and no other change |
| JedecMap.Jedec.Dispatch | src/jedec2bin.cpp:388-500 | the letter dispatch leaves the state and returns the kind that `ApplyBlock` gives |
| JedecMap.Jedec.AddInfoFromBlock | src/jedec2bin.cpp:351-501 | one call is `ApplyField` on the extracted field; it returns the next position and whether the read hit end of input |
| JedecMap.DecodeStream | src/jedec2bin.cpp:704-713 | the loop of `main` leaves a fresh `Jedec` whose state is `Decode(stream)` |
| JedecProperties.EtxFinalizes | src/jedec2bin.cpp:374-386 | ETX ignores the pending text and answers `Done`; every index below the size is then present, old entries keep their values, new ones are the default, and `get_fuse_bit` is unchanged |
| JedecProperties.FinalizedReads | src/jedec2bin.cpp:332 | after ETX, a read below the size comes from a stored entry |
| JedecProperties.ShortField | src/jedec2bin.cpp:388-391 | a field under two characters is `Unknown` and changes nothing |
| JedecProperties.FuseListField | src/jedec2bin.cpp:395-418 | with at most 32 fuses, an `L` field writes `bits[i] == '1'` at `pos + i` and changes nothing else; with more, nothing changes and the kind is `Unknown` |
| JedecProperties.FuseListApply | src/jedec2bin.cpp:398-417 | an `L` field applies the run its parse yields, or nothing when the parse fails |
| JedecProperties.RunWrittenUnique | src/jedec2bin.cpp:409-416 | the run-written description fixes the new map completely |
| JedecProperties.WriteRunContents | src/jedec2bin.cpp:403-416 | copying a parsed run writes exactly that run |
| JedecProperties.IndexOfSpaceAt | src/jedec2bin.cpp:94 | the first space after a point is at `j` when none comes before it |
| JedecProperties.BitRunLimit | src/jedec2bin.cpp:106-116 | `L<digits> <run>` is accepted exactly when the run has at most 32 characters; a rejected field writes nothing; an accepted one writes the run at the decimal position |
| JedecProperties.FuseListLayout | src/jedec2bin.cpp:84-105 | in `L<digits> <run>` the parser finds the `L` at 0 and the space after the digits, and the position is their decimal value |
| JedecProperties.DefaultFuseField | src/jedec2bin.cpp:186-205 | `F<c>` sets the default fuse to `c == '1'`; any other length is `Unknown` and changes nothing |
| JedecProperties.SecurityFuseField | src/jedec2bin.cpp:148-167 | `G<c>` sets the security flag to `c == '1'`; any other length is `Unknown` and changes nothing |
| JedecProperties.ChecksumField | src/jedec2bin.cpp:224-243 | `C<hex>` sets the checksum to the hex value; a two-character `C` field changes nothing |
| JedecProperties.PinCountField | src/jedec2bin.cpp:262-282 | `QP<dec>` sets the pin count from offset 2; `QP` alone changes nothing |
| JedecProperties.FuseSizeField | src/jedec2bin.cpp:301-321 | `QF<dec>` sets the fuse count from offset 2; `QF` alone changes nothing |
| JedecProperties.UnknownLetterField | src/jedec2bin.cpp:494-500 | a field starting with any other letter is `Unknown` and changes nothing |
| JedecProperties.ExampleChecksum | src/jedec2bin.cpp:238 | `C1A2B` stores checksum 0x1A2B |
| JedecProperties.ExamplePinCount | src/jedec2bin.cpp:277 | `QP20` stores pin count 20 |
| JedecProperties.ExampleFuseCount | src/jedec2bin.cpp:316 | `QF2194` stores fuse count 2194 |
| JedecProperties.ExampleFlags | src/jedec2bin.cpp:420-442 | `GP20` is `Unknown`; `F1`, `F0` and `G1` set their flag |
| JedecProperties.EachBlockOverwritesOwnState | src/jedec2bin.cpp:351-501 | each kind changes only its own part of the state: the map for `FuseList` and `Done`, one scalar for the others, nothing for `Unknown`; comment, fuse-data, end-data, fuse-state, user-code and feature-row kinds never occur |
| DecodeProperties.SecurityFlagNeedsRecord | src/jedec2bin.cpp:432-442 | across a whole decode, the security flag changes only through a `G` field |
| DecodeProperties.ReadPlainField | src/jedec2bin.cpp:356-371 | plain bytes closed by `*` are read as one field |
| DecodeProperties.SmallDeviceReads | src/jedec2bin.cpp:356-371 | `QF4*L0 1010*` plus ETX reads as `QF4`, `L0 1010`, ETX, then end of input |
| DecodeProperties.SmallDeviceSize | src/jedec2bin.cpp:474-484 | `QF4` declares four fuses |
| DecodeProperties.SmallDeviceMap | src/jedec2bin.cpp:409-416 | the run `1010` at 0 gives the map `{0:1, 1:0, 2:1, 3:0}` |
| DecodeProperties.SmallDeviceRun | src/jedec2bin.cpp:395-418 | `L0 1010` on an empty map writes fuses 0 to 3 |
| DecodeProperties.DecodeStep | src/jedec2bin.cpp:705-713 | one turn of `main`'s loop applies one field and goes on from the next position |
| DecodeProperties.EtxDoesNotStop | src/jedec2bin.cpp:705-713 | ETX fills the gaps and decoding continues with the next field |
| DecodeProperties.DecodeFourFields | src/jedec2bin.cpp:704-713 | any stream whose fields read as `QF4`, `L0 1010`, ETX decodes to size 4 with fuses `{0:1, 1:0, 2:1, 3:0}` |
| DecodeProperties.DecodeSmallDevice | src/jedec2bin.cpp:704-713 | `QF4*L0 1010*` plus ETX decodes to size 4 with fuses `{0:1, 1:0, 2:1, 3:0}` and nothing else filled |
| Gal16v8Layout.ColumnGroup | src/jedec2bin.cpp:517-557 | each group of four columns reads low pin `2 + g` plain then inverted, then high pin `19 - g` plain then inverted |
| Gal16v8Layout.ColumnTableClosedForm | src/jedec2bin.cpp:517-557 | the column table has 32 entries; column `c` reads `ColumnPin(c)` and is inverted exactly when `c` is odd |
| Gal16v8Layout.OlmcTableClosedForm | src/jedec2bin.cpp:563-572 | there are 8 macrocells; macrocell `n` has XOR fuse `2048 + n`, AC1 fuse `2120 + n` and output pin `19 - n` |
| Gal16v8Layout.AndFuseBelow2048 | src/jedec2bin.cpp:614 | the AND fuse is `256n + 32r + c`, below 2048 |
| Gal16v8Layout.AndFuseInjective | src/jedec2bin.cpp:614 | different (macrocell, row, column) triples read different AND fuses |
| Gal16v8Layout.PtdFuseRange | src/jedec2bin.cpp:605 | the PTD fuses lie in `[2128, 2192)`, below the SYN fuse |
| Gal16v8Layout.BlownColumns | src/jedec2bin.cpp:610-619 | a row's included columns, those whose AND fuse reads 0, in increasing order |
| Gal16v8Layout.RowKept | src/jedec2bin.cpp:602-631 | a row becomes a product exactly when its PTD fuse reads 1 and not all 32 columns are included |
| Gal16v8Layout.Products | src/jedec2bin.cpp:600-631 | the column lists of the kept rows of a macrocell, in row order |
| Gal16v8Layout.BlownUpToMembers | src/jedec2bin.cpp:612-619 | a row's list holds exactly the columns whose fuse reads 0 |
| Gal16v8Layout.BlownUpToSorted | src/jedec2bin.cpp:612-619 | that list is strictly increasing |
| Gal16v8Layout.BlownUpToLength | src/jedec2bin.cpp:612-621 | the list has 32 entries exactly when every column's fuse reads 0 |
| Gal16v8Layout.RowSelection | src/jedec2bin.cpp:602-631 | the kept rows are exactly those with the PTD fuse set and not every column included, in increasing order; the products are their column lists, one per kept row |
| Gal16v8Layout.ProductsInRange | src/jedec2bin.cpp:610-619 | every listed column is below 32 |
| Gal16v8Layout.MacrocellEquation | src/jedec2bin.cpp:591-631 | an equation's products name only real columns |
| Gal16v8Layout.MacrocellEquationSpec | src/jedec2bin.cpp:591-636 | no equation exactly when fuse `2120 + n` is set; otherwise pin `19 - n`, negated exactly when fuse `2048 + n` is clear, over the kept rows' products |
| Gal16v8Layout.CollectBlownFuses | src/jedec2bin.cpp:610-619 | the column loop returns the row's included columns in order |
| Gal16v8Layout.CollectProducts | src/jedec2bin.cpp:600-631 | the row loop returns the macrocell's products |
| Gal16v8Listing.LiteralText | src/jedec2bin.cpp:654-661 | a column printed as `pin<n>`, or `!pin<n>` for an inverted column |
| Gal16v8Listing.TermText | src/jedec2bin.cpp:647-664 | a product's literals joined by ` * ` |
| Gal16v8Listing.EquationText | src/jedec2bin.cpp:633-672 | the whole line: `pin<n>=`, then each product as ` (…)`, wrapped in `/{` and ` }` when negated |
| Gal16v8Listing.TermTextStep | src/jedec2bin.cpp:647-664 | adding a literal to a product appends ` * ` (except first) and the literal |
| Gal16v8Listing.ProductsTextStep | src/jedec2bin.cpp:641-666 | adding a product appends ` (`, its literals and `)` |
| Gal16v8Listing.AppendTerm | src/jedec2bin.cpp:643-664 | the literal loop appends exactly the product's text |
| Gal16v8Listing.FullProduct | src/jedec2bin.cpp:633-672 | the string built is exactly `EquationText`: header, optional `/{`, products, optional ` }` |
| Gal16v8Listing.EmptyProductText | src/jedec2bin.cpp:645-665 | a kept row with no included column still prints, as ` ()` |
| Gal16v8Listing.ProductsTextShape | src/jedec2bin.cpp:641-666 | a non-empty sum starts with ` (` and ends with `)` |
| Gal16v8Listing.NegationWraps | src/jedec2bin.cpp:635-672 | the line starts with its header; `/{` follows it exactly when the equation is negated; a negated line ends in ` }`, and any other line is header plus products |
| Gal16v8Listing.LiteralTextReads | src/jedec2bin.cpp:654-661 | a literal starts with `!` exactly for an odd column, and its number reads back as the column's pin |
| Gal16v8Listing.HeaderReads | src/jedec2bin.cpp:633 | the line starts with `pin`, and the number after it reads back as the output pin |
| Gal16v8Decompiler.MacrocellLine | src/jedec2bin.cpp:591-672 | the line built for a macrocell, or none when its AC1 fuse marks the pin as an input |
| Gal16v8Decompiler.MacrocellLineSpec | src/jedec2bin.cpp:591-672 | macrocell `n` prints nothing exactly when fuse `2120 + n` is set; otherwise it prints the equation for pin `19 - n`, negated when fuse `2048 + n` is clear |
| Gal16v8Decompiler.ReadSignature | src/jedec2bin.cpp:582-586 | signature bit `k` is fuse `2056 + k`, for the 64 bits |
| Gal16v8Decompiler.DecompileMacrocell | src/jedec2bin.cpp:593-672 | one pass of the loop gives the macrocell's equation and line |
| Gal16v8Decompiler.EquationsUpToAt | src/jedec2bin.cpp:591 | entry `n` of the equations gathered so far is macrocell `n`'s |
| Gal16v8Decompiler.LinesUpToAt | src/jedec2bin.cpp:591 | entry `n` of the lines gathered so far is macrocell `n`'s |
| Gal16v8Decompiler.DecompileMacrocells | src/jedec2bin.cpp:591-675 | the macrocell loop yields eight equations and eight lines, each the macrocell's own |
| Gal16v8Decompiler.Gal16v8.constructor | src/jedec2bin.cpp:576-676 | SYN and AC0 are fuses 2192 and 2193; the signature is fuses 2056-2119; every macrocell's equation and line are stored |

## Left out

- Locating STX, the argument check and every console print. The model starts
  at the byte after STX. Each printed equation ends with the string the model
  returns (`EquationText`). A macrocell whose pin is an input prints a
  message and no equation; the model gives `None` for it. The model renders no
  bitset.
- Fields.ReadField: when the input ends inside a field, the source appends the
  failed read's value (EOF as a `char`, 0xFF) to that last field and parses the
  result (`src/jedec2bin.cpp:358-371`). The model parses the field without the
  extra byte. A field ended by `*` or ETX is unaffected. For an unterminated
  last field `T` the source therefore sees `T` + 0xFF, which changes the
  outcome as follows:
  - `F<c>` or `G<c>` (two characters) becomes three characters. The length
    tests (lines 152 and 190) reject it, so the source changes nothing. The
    model sets the default fuse or the security flag.
  - `F` or `G` alone becomes `F\xFF` or `G\xFF`. The source then clears the
    default fuse or the security flag (lines 200 and 162). The model reads a
    one-character field: `Unknown`, no change.
  - `C<h>` (two characters) becomes three characters. When `<h>` is a hex
    digit, the source stores its value as the checksum (line 238). For any
    other `<h>`, `std::stoi` throws and the program ends. The model reads a
    two-character `C` field: `Unknown`, no change.
  - `QP` or `QF` alone becomes three characters. The source stores a pin
    count or fuse count of 0, since `atol` of 0xFF is 0 (lines 277 and 316).
    The model reads `QP`/`QF` alone: `Unknown`, no change.
  - A fuse run of fewer than 32 characters gains one extra 0 fuse in the
    source. The model writes the run without it. An `L` field that ends in
    its space writes one 0 fuse at the position in the source, and nothing
    in the model.
  - A fuse run of exactly 32 characters becomes 33. The source's parse
    overflows (lines 108-116), and the whole record is `Unknown`, with no
    fuse written. The model writes all 32 fuses.
  - An `L` field that ends before its space leaves the source reading
    uninitialised variables (see `Blocks.FieldDefined`). The model excludes
    such fields, except `L` alone, which it reads as `Unknown`.
  - A longer `C`, `QP` or `QF` field reads the same value in both, since
    `stoi` and `atol` stop at the 0xFF. Fields with any other first letter are
    `Unknown` in both.
- Blocks.FieldDefined: `FieldDefined`/`StreamDefined` exclude two kinds of
  field that the model does not cover:
  - an `L` field with no space after the `L`, where the source reads the
    uninitialised position and length;
  - a `C` field whose text after the `C` is not all hex digits or exceeds
    `INT_MAX`.
- Blocks.ChecksumDefined: all-hex text of at most `INT_MAX` is a sufficient
  condition for `std::stoi(…, 16)` not to throw, not a necessary one.
  `std::stoi` also accepts checksum fields the model excludes: it skips
  leading whitespace, takes a sign and a `0x` prefix, and stops at the first
  non-hex character. For example, it reads `Cabbage` as 0xABBA, `C1A2B ` as
  0x1A2B and `C 1A` as 0x1A. On text it rejects, `std::stoi` throws an
  exception, which ends the program; the model has no such path.
- Text.LeadingDecimal: it does not skip the leading whitespace or accept the
  sign that `atol` allows. A negative count would wrap into the unsigned field.
- JedecMap.JedecState: the fields are `nat`, not 32-bit `uint`. Counts, the
  checksum and fuse positions above 2^32 - 1 do not wrap as they would in the
  source.
- The base `JedecBlock::try_parse`, which returns no value, is never called
  on the modelled paths, so it is not modelled.
- The GAL16V8 object's reference back to the `Jedec`: the constructor reads it
  through `GetFuseBit` and keeps the results, not the reference. `SYN` and
  `AC0` are read but, as in the source, used only for printing.
- C++ `std::map`, `std::list` and `std::bitset` are modelled as Dafny `map`,
  `seq` and `array<bool>`/`seq<bool>`.
