/**
 * The JEDEC block kinds and the per-kind parsers (`JedecBlock*::try_parse`).
 * The class hierarchy of the source becomes one tag type plus one parser per
 * kind; a parser that fails yields `None`.
 */
module Blocks {
  import opened Wrappers
  import opened Text

  /** `JedecBlock::JedecBlockType`. */
  datatype BlockType =
    | Comment | FuseChecksum | FuseData | EndData | FuseList | FuseState
    | SecurityFuse | FuseDefault | FuseSize | UserCode | PinCount | FeatureRow
    | Done | Unknown

  /** True when `c` is the letter `upper` or its lower-case form `lower`. */
  predicate Letter(c: char, upper: char, lower: char) { c == upper || c == lower }

  // ---------------------------------------------------------------------------
  // Straight-line parsers

  /** `JedecBlockSecurityFuse::try_parse`: exactly `G<c>`; set iff `c` is '1'. */
  function ParseSecurityFuse(raw: string): (r: Option<bool>)
    ensures r.Some? <==> |raw| == 2 && Letter(raw[0], 'G', 'g')
    ensures r == Some(true) ==> raw[1] == '1'
    ensures r == Some(false) ==> raw[1] != '1'
  {
    if |raw| != 2 then None
    else if !Letter(raw[0], 'G', 'g') then None
    else Some(raw[1] == '1')
  }

  /** `JedecBlockDefaultFuseValue::try_parse`: exactly `F<c>`; true iff `c` is '1'. */
  function ParseDefaultFuse(raw: string): (r: Option<bool>)
    ensures r.Some? <==> |raw| == 2 && Letter(raw[0], 'F', 'f')
    ensures r == Some(true) ==> raw[1] == '1'
    ensures r == Some(false) ==> raw[1] != '1'
  {
    if |raw| != 2 then None
    else if !Letter(raw[0], 'F', 'f') then None
    else Some(raw[1] == '1')
  }

  /** Largest value `std::stoi` returns without throwing (`INT_MAX`). */
  const IntMax: nat := 0x7FFF_FFFF

  /**
   * A sufficient condition for `std::stoi(text, nullptr, 16)` not to throw:
   * the checksum text is hex digits only and fits an `int`. `std::stoi` also
   * accepts texts this excludes (leading whitespace, a sign, a `0x` prefix,
   * or trailing characters after the hex digits).
   */
  predicate ChecksumDefined(raw: string)
  {
    |raw| >= 3 && Letter(raw[0], 'C', 'c') ==>
      AllHexDigits(raw[1..]) && HexValue(raw[1..]) <= IntMax
  }

  /** `JedecBlockFuseChecksum::try_parse`: `C<hex>`, at least three characters. */
  function ParseChecksum(raw: string): (r: Option<nat>)
    requires ChecksumDefined(raw)
    ensures r.Some? <==> |raw| >= 3 && Letter(raw[0], 'C', 'c')
    ensures r.Some? ==> r.value == HexValue(raw[1..]) <= IntMax
  {
    if |raw| < 3 then None
    else if !Letter(raw[0], 'C', 'c') then None
    else Some(HexValue(raw[1..]))
  }

  /**
   * `JedecBlockPinCount::try_parse`. The letter test joins its four
   * comparisons with `&&`, so it rejects only a field whose first letter is
   * not `G` AND whose second letter is not `P`.
   */
  function ParsePinCount(raw: string): (r: Option<nat>)
    ensures r.Some? <==> |raw| >= 3 && (Letter(raw[0], 'G', 'g') || Letter(raw[1], 'P', 'p'))
    ensures r.Some? ==> r.value == LeadingDecimal(raw[2..])
  {
    if |raw| < 3 then None
    else if !Letter(raw[0], 'G', 'g') && !Letter(raw[1], 'P', 'p') then None
    else Some(LeadingDecimal(raw[2..]))
  }

  /** `JedecBlockBitstreamSize::try_parse`, with the same `&&`-joined letter test. */
  function ParseBitstreamSize(raw: string): (r: Option<nat>)
    ensures r.Some? <==> |raw| >= 3 && (Letter(raw[0], 'G', 'g') || Letter(raw[1], 'F', 'f'))
    ensures r.Some? ==> r.value == LeadingDecimal(raw[2..])
  {
    if |raw| < 3 then None
    else if !Letter(raw[0], 'G', 'g') && !Letter(raw[1], 'F', 'f') then None
    else Some(LeadingDecimal(raw[2..]))
  }

  /** Whatever the first letter, a field with `P` second passes the pin-count letter test. */
  lemma PinCountLetterTest(raw: string)
    requires |raw| >= 3 && Letter(raw[1], 'P', 'p')
    ensures ParsePinCount(raw) == Some(LeadingDecimal(raw[2..]))
  {
  }

  /** Whatever the first letter, a field with `F` second passes the size letter test. */
  lemma BitstreamSizeLetterTest(raw: string)
    requires |raw| >= 3 && Letter(raw[1], 'F', 'f')
    ensures ParseBitstreamSize(raw) == Some(LeadingDecimal(raw[2..]))
  {
  }

  /**
   * A field whose parse the model covers: an `L` field holds a space (without
   * one the source reads uninitialised variables), and a `C` field's text
   * meets `ChecksumDefined`, so `std::stoi` does not throw.
   */
  predicate FieldDefined(block: string)
  {
    |block| >= 2 ==>
      && (Letter(block[0], 'L', 'l') ==> FuseListDefined(block))
      && ChecksumDefined(block)
  }

  // ---------------------------------------------------------------------------
  // Fuse list: `L<position> <bits>`

  /** Width of the `std::bitset<32>` that holds one fuse run. */
  const FuseCapacity: nat := 32

  /**
   * A parsed fuse list: the start position, the number of bit characters and
   * the 32-bit set; the i-th bit character sits at bit 31 - i.
   */
  datatype FuseListBlock = FuseListBlock(fusesPos: nat, fusesLength: nat, fuses: seq<bool>)

  /** States of `JedecBlockFuseList::ParserState`. */
  datatype ParserState = LookingForL | ReadingPos | Space | ReadingFuses

  /** Index of the first `L`/`l` at or after `from`, or `|s|` when there is none. */
  function IndexOfL(s: string, from: nat): (i: nat)
    requires from <= |s|
    ensures from <= i <= |s|
    ensures forall k | from <= k < i :: !Letter(s[k], 'L', 'l')
    ensures i < |s| ==> Letter(s[i], 'L', 'l')
    decreases |s| - from
  {
    if from == |s| || Letter(s[from], 'L', 'l') then from else IndexOfL(s, from + 1)
  }

  /** Index of the first space at or after `from`, or `|s|` when there is none. */
  function IndexOfSpace(s: string, from: nat): (i: nat)
    requires from <= |s|
    ensures from <= i <= |s|
    ensures forall k | from <= k < i :: s[k] != ' '
    ensures i < |s| ==> s[i] == ' '
    decreases |s| - from
  {
    if from == |s| || s[from] == ' ' then from else IndexOfSpace(s, from + 1)
  }

  /**
   * The parser leaves position and length uninitialised unless an `L` and a
   * later space both occur; only such fields have a defined outcome.
   */
  predicate FuseListDefined(raw: string)
  {
    var l := IndexOfL(raw, 0);
    l < |raw| && IndexOfSpace(raw, l + 1) < |raw|
  }

  /** The 32-bit set after writing `run` from the top bit down; '1' is a set bit. */
  function Bitset(run: string): (b: seq<bool>)
    requires |run| <= FuseCapacity
    ensures |b| == FuseCapacity
    ensures forall t | 0 <= t < |run| :: b[FuseCapacity - 1 - t] == (run[t] == '1')
    ensures forall i | 0 <= i < FuseCapacity - |run| :: !b[i]
  {
    seq(FuseCapacity, i requires 0 <= i < FuseCapacity =>
      FuseCapacity - 1 - i < |run| && run[FuseCapacity - 1 - i] == '1')
  }

  /** Writing one more bit character sets the next bit down. */
  lemma BitsetPush(run: string, x: char)
    requires |run| < FuseCapacity
    ensures Bitset(run + [x]) == Bitset(run)[FuseCapacity - 1 - |run| := x == '1']
  {
    var a, b := Bitset(run + [x]), Bitset(run)[FuseCapacity - 1 - |run| := x == '1'];
    forall i | 0 <= i < FuseCapacity ensures a[i] == b[i] {
      if FuseCapacity - 1 - i < |run| {
        assert (run + [x])[FuseCapacity - 1 - i] == run[FuseCapacity - 1 - i];
      }
    }
  }

  /**
   * What `JedecBlockFuseList::try_parse` computes: the digits between the
   * `L` and the first space give the position (read by `atol`); every
   * character after that space is one fuse; more than 32 of them fail.
   */
  function ParseFuseList(raw: string): (r: Option<FuseListBlock>)
    requires FuseListDefined(raw)
    ensures r.Some? ==> |r.value.fuses| == FuseCapacity && r.value.fusesLength <= FuseCapacity
  {
    var l := IndexOfL(raw, 0);
    var sp := IndexOfSpace(raw, l + 1);
    var run := raw[sp + 1..];
    if |run| > FuseCapacity then None
    else Some(FuseListBlock(LeadingDecimal(raw[l + 1..sp]), |run|, Bitset(run)))
  }

  /**
   * What the fuse-list state machine has established after reading the first
   * `k` characters of `raw`, in each of its states.
   */
  ghost predicate Scanned(raw: string, k: nat, state: ParserState, posText: string,
                          fusesPos: nat, fusesLength: nat, fuses: seq<bool>)
    requires FuseListDefined(raw)
  {
    var l := IndexOfL(raw, 0);
    var sp := IndexOfSpace(raw, l + 1);
    && k <= |raw|
    && match state
       case LookingForL => k <= l && posText == [] && fuses == Bitset([])
       case ReadingPos => l < k <= sp && posText == raw[l + 1..k] && fuses == Bitset([])
       case Space => false
       case ReadingFuses =>
         && sp < k && k - sp - 1 <= FuseCapacity
         && fusesPos == LeadingDecimal(raw[l + 1..sp]) && fusesLength == k - sp - 1
         && fuses == Bitset(raw[sp + 1..k])
  }

  lemma ScanLookingForL(raw: string, k: nat, fuses: seq<bool>)
    requires FuseListDefined(raw) && k < |raw|
    requires Scanned(raw, k, LookingForL, [], 0, 0, fuses)
    ensures Letter(raw[k], 'L', 'l') ==> Scanned(raw, k + 1, ReadingPos, [], 0, 0, fuses)
    ensures !Letter(raw[k], 'L', 'l') ==> Scanned(raw, k + 1, LookingForL, [], 0, 0, fuses)
  {
    if Letter(raw[k], 'L', 'l') {
      assert raw[k + 1..k + 1] == [];
    }
  }

  lemma ScanReadingPos(raw: string, k: nat, posText: string, fusesPos: nat, fusesLength: nat, fuses: seq<bool>)
    requires FuseListDefined(raw) && k < |raw|
    requires Scanned(raw, k, ReadingPos, posText, fusesPos, fusesLength, fuses)
    ensures raw[k] == ' ' ==>
      Scanned(raw, k + 1, ReadingFuses, posText, LeadingDecimal(posText), 0, fuses)
    ensures raw[k] != ' ' ==>
      Scanned(raw, k + 1, ReadingPos, posText + [raw[k]], fusesPos, fusesLength, fuses)
  {
    var l := IndexOfL(raw, 0);
    if raw[k] == ' ' {
      assert raw[k + 1..k + 1] == [];
    } else {
      assert raw[l + 1..k + 1] == raw[l + 1..k] + [raw[k]];
    }
  }

  lemma ScanFuse(raw: string, k: nat, posText: string, fusesPos: nat, fusesLength: nat, fuses: seq<bool>)
    requires FuseListDefined(raw) && k < |raw| && fusesLength < FuseCapacity
    requires Scanned(raw, k, ReadingFuses, posText, fusesPos, fusesLength, fuses)
    ensures Scanned(raw, k + 1, ReadingFuses, posText, fusesPos, fusesLength + 1,
                    fuses[FuseCapacity - 1 - fusesLength := raw[k] == '1'])
  {
    var sp := IndexOfSpace(raw, IndexOfL(raw, 0) + 1);
    assert raw[sp + 1..k + 1] == raw[sp + 1..k] + [raw[k]];
    BitsetPush(raw[sp + 1..k], raw[k]);
  }

  lemma ScanOverflow(raw: string, k: nat, posText: string, fusesPos: nat, fuses: seq<bool>)
    requires FuseListDefined(raw) && k < |raw|
    requires Scanned(raw, k, ReadingFuses, posText, fusesPos, FuseCapacity, fuses)
    ensures ParseFuseList(raw) == None
  {
  }

  lemma ScanComplete(raw: string, state: ParserState, posText: string, fusesPos: nat, fusesLength: nat, fuses: seq<bool>)
    requires FuseListDefined(raw)
    requires Scanned(raw, |raw|, state, posText, fusesPos, fusesLength, fuses)
    ensures state == ReadingFuses
    ensures ParseFuseList(raw) == Some(FuseListBlock(fusesPos, fusesLength, fuses))
  {
    var sp := IndexOfSpace(raw, IndexOfL(raw, 0) + 1);
    assert raw[sp + 1..|raw|] == raw[sp + 1..];
  }

  /**
   * `JedecBlockFuseList::try_parse`: the character-by-character state
   * machine writing the bitset from its top bit down.
   */
  method TryParseFuseList(raw: string) returns (r: Option<FuseListBlock>)
    requires FuseListDefined(raw)
    ensures r == ParseFuseList(raw)
  {
    var state := LookingForL;
    var posText: string := [];
    var fusePos: nat := 0;
    var fuses: seq<bool> := seq(FuseCapacity, _ => false);
    var fusesPos: nat := 0;
    var fusesLength: nat := 0;
    assert fuses == Bitset([]);
    for k := 0 to |raw|
      invariant Scanned(raw, k, state, posText, fusesPos, fusesLength, fuses)
      invariant state == LookingForL ==> fusesPos == fusesLength == 0
      invariant fusePos == if state == ReadingFuses then fusesLength else 0
    {
      match state
      case LookingForL =>
        ScanLookingForL(raw, k, fuses);
        if Letter(raw[k], 'L', 'l') {
          state := ReadingPos;
        }
      case ReadingPos =>
        ScanReadingPos(raw, k, posText, fusesPos, fusesLength, fuses);
        if raw[k] == ' ' {
          fusesPos := LeadingDecimal(posText);
          fusesLength := 0;
          state := ReadingFuses;
        } else {
          posText := posText + [raw[k]];
        }
      case Space =>
      case ReadingFuses =>
        fusePos := fusePos + 1;
        fusesLength := fusesLength + 1;
        if FuseCapacity < fusePos {
          // overflow
          ScanOverflow(raw, k, posText, fusesPos, fuses);
          return None;
        }
        ScanFuse(raw, k, posText, fusesPos, fusesLength - 1, fuses);
        fuses := fuses[FuseCapacity - fusePos := raw[k] == '1'];
    }
    ScanComplete(raw, state, posText, fusesPos, fusesLength, fuses);
    return Some(FuseListBlock(fusesPos, fusesLength, fuses));
  }
}
