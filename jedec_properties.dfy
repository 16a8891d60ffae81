/**
 * What one call of `add_info_from_block` does to the fuse map, field kind by
 * field kind, and what the loop of `main` does over a whole stream.
 */
module JedecProperties {
  import opened Wrappers
  import opened Text
  import opened Blocks
  import opened Fields
  import opened JedecMap

  /**
   * ETX answers `Done` whatever text preceded it, and fills the map: every
   * index below the declared size is present, entries already there keep
   * their values, and each new entry is the default fuse. Reads through
   * `get_fuse_bit` see no difference.
   */
  lemma EtxFinalizes(st: JedecState, e: Extracted)
    requires e.end == EndOfText
    ensures ApplyField(st, e) == ApplyField(st, e.(field := []))
    ensures var r := ApplyField(st, e);
      && r.1 == Done
      && r.0 == st.(bitmap := r.0.bitmap)
      && (forall i: nat | i < st.bitstreamSize :: i in r.0.bitmap)
      && (forall i | i in st.bitmap :: i in r.0.bitmap && r.0.bitmap[i] == st.bitmap[i])
      && (forall i | i in r.0.bitmap && i !in st.bitmap :: i < st.bitstreamSize && r.0.bitmap[i] == st.defaultFuse)
      && (forall i: nat :: r.0.FuseBit(i) == st.FuseBit(i))
  {
    FillGapsContents(st.bitmap, st.bitstreamSize, st.defaultFuse);
  }

  /** After finalisation `get_fuse_bit` reads a stored entry for every index below the size. */
  lemma FinalizedReads(st: JedecState, e: Extracted, i: nat)
    requires e.end == EndOfText && i < st.bitstreamSize
    ensures var st' := ApplyField(st, e).0;
      && i in st'.bitmap
      && st'.FuseBit(i) == st'.bitmap[i]
      && st'.FuseBit(i) == (if i in st.bitmap then st.bitmap[i] else st.defaultFuse)
  {
    FillGapsContents(st.bitmap, st.bitstreamSize, st.defaultFuse);
  }

  /** A field shorter than two characters is `Unknown` and changes nothing. */
  lemma ShortField(st: JedecState, block: string)
    requires |block| < 2
    ensures ApplyBlock(st, block) == (st, Unknown)
  {
  }

  /**
   * `L<pos> <bits>`: with at most 32 bit characters, fuse `pos + i` becomes
   * `bits[i] == '1'` and nothing else changes; with more, nothing changes.
   */
  lemma FuseListField(st: JedecState, block: string)
    requires |block| >= 2 && Letter(block[0], 'L', 'l') && FuseListDefined(block)
    ensures var sp := IndexOfSpace(block, 1);
      var run := block[sp + 1..];
      var r := ApplyBlock(st, block);
      && (|run| <= FuseCapacity ==>
            && r.1 == FuseList
            && r.0 == st.(bitmap := r.0.bitmap)
            && RunWritten(st.bitmap, r.0.bitmap, LeadingDecimal(block[1..sp]), run))
      && (|run| > FuseCapacity ==> r == (st, Unknown))
  {
    var sp := IndexOfSpace(block, 1);
    var run := block[sp + 1..];
    FuseListApply(st, block);
    if |run| <= FuseCapacity {
      WriteRunContents(st.bitmap, LeadingDecimal(block[1..sp]), run);
    }
  }

  /** An `L` field applies the run its parse yields, or nothing when the parse fails. */
  lemma FuseListApply(st: JedecState, block: string)
    requires |block| >= 2 && Letter(block[0], 'L', 'l') && FuseListDefined(block)
    ensures var sp := IndexOfSpace(block, 1);
      var run := block[sp + 1..];
      ApplyBlock(st, block) ==
        if |run| <= FuseCapacity then
          (st.(bitmap := WriteRun(st.bitmap, FuseListBlock(LeadingDecimal(block[1..sp]), |run|, Bitset(run)))), FuseList)
        else (st, Unknown)
  {
    var sp := IndexOfSpace(block, 1);
    var run := block[sp + 1..];
    assert IndexOfL(block, 0) == 0;
    if |run| <= FuseCapacity {
      assert ParseFuseList(block) == Some(FuseListBlock(LeadingDecimal(block[1..sp]), |run|, Bitset(run)));
    } else {
      assert ParseFuseList(block) == None;
    }
  }

  /** `m'` is `m` with `run[i] == '1'` written at `pos + i`, and nothing else changed. */
  ghost predicate RunWritten(m: map<nat, bool>, m': map<nat, bool>, pos: nat, run: string)
  {
    && (forall i | 0 <= i < |run| :: pos + i in m' && m'[pos + i] == (run[i] == '1'))
    && (forall k: nat :: k in m' <==> k in m || pos <= k < pos + |run|)
    && (forall k | k in m && !(pos <= k < pos + |run|) :: m'[k] == m[k])
  }

  /** `RunWritten` pins the new map down completely. */
  lemma RunWrittenUnique(m: map<nat, bool>, m1: map<nat, bool>, m2: map<nat, bool>, pos: nat, run: string)
    requires RunWritten(m, m1, pos, run) && RunWritten(m, m2, pos, run)
    ensures m1 == m2
  {
    forall k | k in m1
      ensures m1[k] == m2[k]
    {
      if pos <= k < pos + |run| {
        var i := k - pos;
        assert m1[pos + i] == (run[i] == '1') == m2[pos + i];
      }
    }
  }

  /** Copying a parsed run into the map writes exactly that run. */
  lemma WriteRunContents(m: map<nat, bool>, pos: nat, run: string)
    requires |run| <= FuseCapacity
    ensures RunWritten(m, WriteRun(m, FuseListBlock(pos, |run|, Bitset(run))), pos, run)
  {
    var b := FuseListBlock(pos, |run|, Bitset(run));
    WritePrefixContents(m, b, |run|);
    forall i | 0 <= i < |run|
      ensures WriteRun(m, b)[pos + i] == (run[i] == '1')
    {
      assert RunBit(b, pos + i) == Bitset(run)[FuseCapacity - 1 - i];
    }
  }

  /** The first space at or after `from` is the one at `j` when none precedes it. */
  lemma {:induction false} IndexOfSpaceAt(s: string, from: nat, j: nat)
    requires from <= j < |s| && s[j] == ' '
    requires forall k | from <= k < j :: s[k] != ' '
    ensures IndexOfSpace(s, from) == j
    decreases j - from
  {
    if from < j {
      IndexOfSpaceAt(s, from + 1, j);
    }
  }

  /**
   * The 32-character limit: `L<digits> <run>` is accepted exactly when the
   * run has at most 32 characters; a rejected record writes nothing.
   */
  lemma BitRunLimit(st: JedecState, digits: string, run: string)
    requires AllDigits(digits)
    ensures FieldDefined("L" + digits + " " + run)
    ensures var r := ApplyBlock(st, "L" + digits + " " + run);
      && (r.1 == FuseList <==> |run| <= FuseCapacity)
      && (r.1 != FuseList ==> r == (st, Unknown))
      && (r.1 == FuseList ==> RunWritten(st.bitmap, r.0.bitmap, DecimalValue(digits), run))
  {
    var block := "L" + digits + " " + run;
    FuseListLayout(block, digits, run);
    FuseListField(st, block);
  }

  /** Where the position and the bit run sit in `L<digits> <run>`. */
  lemma FuseListLayout(block: string, digits: string, run: string)
    requires AllDigits(digits) && block == "L" + digits + " " + run
    ensures IndexOfL(block, 0) == 0
    ensures IndexOfSpace(block, 1) == 1 + |digits| < |block|
    ensures block[1..1 + |digits|] == digits
    ensures block[2 + |digits|..] == run
    ensures LeadingDecimal(digits) == DecimalValue(digits)
  {
    assert block[0] == 'L';
    assert block[1..1 + |digits|] == digits;
    assert block[1 + |digits|] == ' ';
    assert block[2 + |digits|..] == run;
    forall k | 1 <= k < 1 + |digits|
      ensures block[k] != ' '
    {
      assert block[k] == block[1..1 + |digits|][k - 1] == digits[k - 1];
    }
    IndexOfSpaceAt(block, 1, 1 + |digits|);
    LeadingDecimalOfDigits(digits);
  }

  /** `F<c>` sets the default fuse to `c == '1'`; any other length changes nothing. */
  lemma DefaultFuseField(st: JedecState, block: string)
    requires |block| >= 2 && Letter(block[0], 'F', 'f')
    ensures |block| == 2 ==> ApplyBlock(st, block) == (st.(defaultFuse := block[1] == '1'), FuseDefault)
    ensures |block| != 2 ==> ApplyBlock(st, block) == (st, Unknown)
  {
  }

  /**
   * `G<c>` sets the security flag to `c == '1'`; any other length, `GP20`
   * included, changes nothing.
   */
  lemma SecurityFuseField(st: JedecState, block: string)
    requires |block| >= 2 && Letter(block[0], 'G', 'g')
    ensures |block| == 2 ==> ApplyBlock(st, block) == (st.(securitySet := block[1] == '1'), SecurityFuse)
    ensures |block| != 2 ==> ApplyBlock(st, block) == (st, Unknown)
  {
  }

  /** `C<hex>` sets the checksum to the hex value after the letter; `C<c>` changes nothing. */
  lemma ChecksumField(st: JedecState, block: string)
    requires |block| >= 2 && Letter(block[0], 'C', 'c') && ChecksumDefined(block)
    ensures |block| >= 3 ==> ApplyBlock(st, block) == (st.(checksum := HexValue(block[1..])), FuseChecksum)
    ensures |block| == 2 ==> ApplyBlock(st, block) == (st, Unknown)
  {
  }

  /** `QP<dec>` sets the pin count from the digits at offset 2; `QP` alone changes nothing. */
  lemma PinCountField(st: JedecState, block: string)
    requires |block| >= 2 && Letter(block[0], 'Q', 'q') && Letter(block[1], 'P', 'p')
    ensures |block| >= 3 ==> ApplyBlock(st, block) == (st.(pinCount := LeadingDecimal(block[2..])), PinCount)
    ensures |block| == 2 ==> ApplyBlock(st, block) == (st, Unknown)
  {
  }

  /** `QF<dec>` sets the fuse count from the digits at offset 2; `QF` alone changes nothing. */
  lemma FuseSizeField(st: JedecState, block: string)
    requires |block| >= 2 && Letter(block[0], 'Q', 'q') && Letter(block[1], 'F', 'f')
    ensures |block| >= 3 ==> ApplyBlock(st, block) == (st.(bitstreamSize := LeadingDecimal(block[2..])), FuseSize)
    ensures |block| == 2 ==> ApplyBlock(st, block) == (st, Unknown)
  {
  }

  /** A field whose first letter starts no known record is `Unknown` and changes nothing. */
  lemma UnknownLetterField(st: JedecState, block: string)
    requires |block| >= 2
    requires !Letter(block[0], 'L', 'l') && !Letter(block[0], 'F', 'f') && !Letter(block[0], 'G', 'g')
    requires !Letter(block[0], 'C', 'c') && !Letter(block[0], 'Q', 'q')
    ensures ApplyBlock(st, block) == (st, Unknown)
  {
  }

  /** `C1A2B` stores checksum 0x1A2B. */
  lemma ExampleChecksum(st: JedecState)
    ensures FieldDefined("C1A2B")
      && ApplyBlock(st, "C1A2B") == (st.(checksum := 0x1A2B), FuseChecksum)
  {
    var hex := "C1A2B"[1..];
    assert hex == "1A2B";
    assert hex[..3] == "1A2" && hex[..3][..2] == "1A" && hex[..3][..2][..1] == "1";
    assert HexValue("1") == 1;
    assert HexValue("1A") == 0x1A;
    assert HexValue("1A2") == 0x1A2;
    assert HexValue(hex) == 0x1A2B;
  }

  /** `QP20` stores pin count 20. */
  lemma ExamplePinCount(st: JedecState)
    ensures ApplyBlock(st, "QP20") == (st.(pinCount := 20), PinCount)
  {
    assert "QP20"[2..] == "20";
    LeadingDecimalOfDigits("20");
    assert "20"[..1] == "2";
  }

  /** `QF2194` stores fuse count 2194. */
  lemma ExampleFuseCount(st: JedecState)
    ensures ApplyBlock(st, "QF2194") == (st.(bitstreamSize := 2194), FuseSize)
  {
    assert "QF2194"[2..] == "2194";
    LeadingDecimalOfDigits("2194");
    assert "2194"[..3] == "219" && "219"[..2] == "21" && "21"[..1] == "2";
  }

  /** `GP20` is not a security record; `F1`, `F0` and `G1` are two-character records. */
  lemma ExampleFlags(st: JedecState)
    ensures ApplyBlock(st, "GP20") == (st, Unknown)
    ensures ApplyBlock(st, "F1") == (st.(defaultFuse := true), FuseDefault)
    ensures ApplyBlock(st, "F0") == (st.(defaultFuse := false), FuseDefault)
    ensures ApplyBlock(st, "G1") == (st.(securitySet := true), SecurityFuse)
  {
  }

  /**
   * Each record overwrites only its own part of the state: the map for a
   * fuse list or ETX, one scalar for the others, nothing for `Unknown`.
   */
  lemma EachBlockOverwritesOwnState(st: JedecState, e: Extracted)
    requires Applicable(e)
    ensures var r := ApplyField(st, e);
      && (r.1 == Unknown ==> r.0 == st)
      && (r.1 == FuseDefault ==> r.0 == st.(defaultFuse := r.0.defaultFuse))
      && (r.1 == SecurityFuse ==> r.0 == st.(securitySet := r.0.securitySet))
      && (r.1 == FuseChecksum ==> r.0 == st.(checksum := r.0.checksum))
      && (r.1 == PinCount ==> r.0 == st.(pinCount := r.0.pinCount))
      && (r.1 == FuseSize ==> r.0 == st.(bitstreamSize := r.0.bitstreamSize))
      && (r.1 == FuseList || r.1 == Done ==> r.0 == st.(bitmap := r.0.bitmap))
      && r.1 !in {Comment, FuseData, EndData, FuseState, UserCode, FeatureRow}
  {
  }
}

/**
 * What the loop of `main` builds over whole streams.
 */
module DecodeProperties {
  import opened Text
  import opened Blocks
  import opened Fields
  import opened JedecMap
  import opened JedecProperties

  /** No field read from `pos` on is a `G` record. */
  ghost predicate NoSecurityField(stream: seq<char>, pos: nat)
    requires pos <= |stream|
    decreases |stream| - pos
  {
    var e := ReadField(stream, pos);
    && !(|e.field| >= 1 && Letter(e.field[0], 'G', 'g'))
    && (e.end != EndOfInput ==> NoSecurityField(stream, e.next))
  }

  /** Only a `G` record changes the security flag, whatever else the stream holds. */
  lemma {:induction false} SecurityFlagNeedsRecord(st: JedecState, stream: seq<char>, pos: nat)
    requires pos <= |stream| && StreamDefined(stream, pos) && NoSecurityField(stream, pos)
    ensures DecodeFrom(st, stream, pos).securitySet == st.securitySet
    decreases |stream| - pos
  {
    var e := ReadField(stream, pos);
    var next := ApplyField(st, e).0;
    assert next.securitySet == st.securitySet;
    if e.end != EndOfInput {
      SecurityFlagNeedsRecord(next, stream, e.next);
    }
  }

  /** A run of plain bytes closed by `*` is read as one field. */
  lemma {:induction false} ReadPlainField(stream: seq<char>, start: nat, star: nat)
    requires start <= star < |stream| && stream[star] == '*'
    requires forall k | start <= k < star :: !IsDropped(stream[k])
    ensures ReadField(stream, start) == Extracted(stream[start..star], star + 1, Star)
    decreases star - start
  {
    if start < star {
      ReadPlainField(stream, start + 1, star);
      assert stream[start..star] == [stream[start]] + stream[start + 1..star];
    }
  }

  /** The fields of `QF4*L0 1010*` then ETX, as the extractor reads them. */
  lemma SmallDeviceReads(stream: seq<char>)
    requires stream == "QF4*L0 1010*" + [Etx]
    ensures ReadField(stream, 0) == Extracted("QF4", 4, Star)
    ensures ReadField(stream, 4) == Extracted("L0 1010", 12, Star)
    ensures ReadField(stream, 12) == Extracted([], 13, EndOfText)
    ensures ReadField(stream, 13) == Extracted([], 13, EndOfInput)
  {
    ReadPlainField(stream, 0, 3);
    assert stream[0..3] == "QF4";
    ReadPlainField(stream, 4, 11);
    assert stream[4..11] == "L0 1010";
  }

  /** `QF4` from the initial state declares four fuses. */
  lemma SmallDeviceSize()
    ensures FieldDefined("QF4")
      && ApplyBlock(Initial, "QF4") == (Initial.(bitstreamSize := 4), FuseSize)
  {
    assert "QF4"[2..] == "4";
    LeadingDecimalOfDigits("4");
  }

  /** The map `1010` written at 0 into an empty map. */
  lemma SmallDeviceMap()
    ensures RunWritten(map[], map[0 := true, 1 := false, 2 := true, 3 := false], 0, "1010")
  {
  }

  /** `L0 1010` writes fuses 0 to 3. */
  lemma SmallDeviceRun(st: JedecState)
    requires st.bitmap == map[]
    ensures FieldDefined("L0 1010")
    ensures ApplyBlock(st, "L0 1010")
         == (st.(bitmap := map[0 := true, 1 := false, 2 := true, 3 := false]), FuseList)
  {
    assert "L" + "0" + " " + "1010" == "L0 1010";
    BitRunLimit(st, "0", "1010");
    assert DecimalValue("0") == 0;
    SmallDeviceMap();
    RunWrittenUnique(map[], ApplyBlock(st, "L0 1010").0.bitmap, map[0 := true, 1 := false, 2 := true, 3 := false], 0, "1010");
  }

  /** One turn of the loop of `main` on a field that does not exhaust the stream. */
  lemma DecodeStep(st: JedecState, stream: seq<char>, pos: nat)
    requires pos <= |stream| && Applicable(ReadField(stream, pos))
    requires ReadField(stream, pos).end != EndOfInput
    requires StreamDefined(stream, ReadField(stream, pos).next)
    ensures StreamDefined(stream, pos)
    ensures DecodeFrom(st, stream, pos)
         == DecodeFrom(ApplyField(st, ReadField(stream, pos)).0, stream, ReadField(stream, pos).next)
  {
  }

  /**
   * ETX does not end the loop of `main`: the gaps are filled and reading
   * goes on with the next field, which still applies.
   */
  lemma EtxDoesNotStop(st: JedecState, stream: seq<char>, pos: nat)
    requires pos <= |stream| && ReadField(stream, pos).end == EndOfText
    requires StreamDefined(stream, ReadField(stream, pos).next)
    ensures StreamDefined(stream, pos)
    ensures DecodeFrom(st, stream, pos)
         == DecodeFrom(st.(bitmap := FillGaps(st.bitmap, st.bitstreamSize, st.defaultFuse)),
                       stream, ReadField(stream, pos).next)
  {
    DecodeStep(st, stream, pos);
  }

  /** A stream whose fields read as `QF4`, `L0 1010`, ETX, end of input. */
  lemma DecodeFourFields(stream: seq<char>)
    requires |stream| == 13
    requires ReadField(stream, 0) == Extracted("QF4", 4, Star)
    requires ReadField(stream, 4) == Extracted("L0 1010", 12, Star)
    requires ReadField(stream, 12) == Extracted([], 13, EndOfText)
    requires ReadField(stream, 13) == Extracted([], 13, EndOfInput)
    ensures StreamDefined(stream, 0)
    ensures Decode(stream) == Initial.(bitstreamSize := 4, bitmap := map[0 := true, 1 := false, 2 := true, 3 := false])
  {
    SmallDeviceSize();
    var st1 := Initial.(bitstreamSize := 4);
    SmallDeviceRun(st1);
    var want := map[0 := true, 1 := false, 2 := true, 3 := false];
    var st2 := st1.(bitmap := want);
    FillGapsContents(want, 4, false);
    assert FillGaps(want, 4, false) == want;
    assert DecodeFrom(st2, stream, 13) == st2;
    DecodeStep(st2, stream, 12);
    DecodeStep(st1, stream, 4);
    DecodeStep(Initial, stream, 0);
  }

  /**
   * `QF4*L0 1010*` then ETX: four fuses declared, all four written by one
   * fuse list, nothing left to fill.
   */
  lemma DecodeSmallDevice()
    ensures StreamDefined("QF4*L0 1010*" + [Etx], 0)
    ensures Decode("QF4*L0 1010*" + [Etx])
         == Initial.(bitstreamSize := 4, bitmap := map[0 := true, 1 := false, 2 := true, 3 := false])
  {
    SmallDeviceReads("QF4*L0 1010*" + [Etx]);
    DecodeFourFields("QF4*L0 1010*" + [Etx]);
  }
}
