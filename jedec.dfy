/**
 * The fuse-map accumulator: class `Jedec` with its sparse bitmap and five
 * scalar fields, `add_info_from_block`, `get_fuse_bit`, and the field loop
 * of `main` that feeds it until the stream is exhausted.
 */
module JedecMap {
  import opened Wrappers
  import opened Text
  import opened Blocks
  import opened Fields

  /** The value of a `Jedec` object. */
  datatype JedecState = JedecState(
    bitmap: map<nat, bool>,
    bitstreamSize: nat,
    pinCount: nat,
    checksum: nat,
    defaultFuse: bool,
    securitySet: bool)
  {
    /** `Jedec::get_fuse_bit`: the stored value, or the default fuse when absent. */
    function FuseBit(i: nat): bool
    {
      if i in bitmap then bitmap[i] else defaultFuse
    }
  }

  /** A freshly constructed `Jedec`: empty map, every scalar zero. */
  const Initial: JedecState := JedecState(map[], 0, 0, 0, false, false)

  /** `m` with the missing indices below `size` set to `d`, filled from 0 upward. */
  function FillGaps(m: map<nat, bool>, size: nat, d: bool): map<nat, bool>
  {
    if size == 0 then m
    else
      var f := FillGaps(m, size - 1, d);
      if size - 1 in f then f else f[size - 1 := d]
  }

  /** The bit a parsed fuse run holds for fuse `k`: bit 31 for its first fuse, and down. */
  function RunBit(b: FuseListBlock, k: nat): bool
    requires |b.fuses| == FuseCapacity && b.fusesPos <= k < b.fusesPos + FuseCapacity
  {
    b.fuses[FuseCapacity - 1 - (k - b.fusesPos)]
  }

  /** The first `count` fuses of the run `b` copied into `m`, one after the other. */
  function WritePrefix(m: map<nat, bool>, b: FuseListBlock, count: nat): map<nat, bool>
    requires |b.fuses| == FuseCapacity && count <= FuseCapacity
  {
    if count == 0 then m
    else WritePrefix(m, b, count - 1)[b.fusesPos + count - 1 := RunBit(b, b.fusesPos + count - 1)]
  }

  /** `m` after copying a parsed fuse run into it. */
  function WriteRun(m: map<nat, bool>, b: FuseListBlock): map<nat, bool>
    requires |b.fuses| == FuseCapacity && b.fusesLength <= FuseCapacity
  {
    WritePrefix(m, b, b.fusesLength)
  }

  /**
   * Filling keeps every entry of `m`, adds exactly the missing indices below
   * `size`, and gives each of them the value `d`.
   */
  lemma {:induction false} FillGapsContents(m: map<nat, bool>, size: nat, d: bool)
    ensures forall i: nat :: i in FillGaps(m, size, d) <==> i in m || i < size
    ensures forall i | i in m :: FillGaps(m, size, d)[i] == m[i]
    ensures forall i | i in FillGaps(m, size, d) && i !in m :: FillGaps(m, size, d)[i] == d
  {
    if size > 0 {
      FillGapsContents(m, size - 1, d);
    }
  }

  /**
   * Copying the first `count` fuses writes fuse `pos + j` for each `j` below
   * `count` and leaves every other entry of `m` as it was.
   */
  lemma {:induction false} WritePrefixContents(m: map<nat, bool>, b: FuseListBlock, count: nat)
    requires |b.fuses| == FuseCapacity && count <= FuseCapacity
    ensures forall k: nat :: k in WritePrefix(m, b, count) <==> k in m || b.fusesPos <= k < b.fusesPos + count
    ensures forall k | b.fusesPos <= k < b.fusesPos + count :: WritePrefix(m, b, count)[k] == RunBit(b, k)
    ensures forall k | k in m && !(b.fusesPos <= k < b.fusesPos + count) :: WritePrefix(m, b, count)[k] == m[k]
  {
    if count > 0 {
      WritePrefixContents(m, b, count - 1);
    }
  }

  /**
   * The dispatch of `add_info_from_block` on a field that did not end at
   * ETX: fields under two characters, unknown letters and failed parses give
   * `Unknown` and change nothing; otherwise the parsed value overwrites its
   * own part of the state.
   */
  function ApplyBlock(st: JedecState, block: string): (JedecState, BlockType)
    requires FieldDefined(block)
  {
    if |block| < 2 then (st, Unknown)
    else if Letter(block[0], 'L', 'l') then
      match ParseFuseList(block)
      case None => (st, Unknown)
      case Some(b) => (st.(bitmap := WriteRun(st.bitmap, b)), FuseList)
    else if Letter(block[0], 'F', 'f') then
      match ParseDefaultFuse(block)
      case None => (st, Unknown)
      case Some(d) => (st.(defaultFuse := d), FuseDefault)
    else if Letter(block[0], 'G', 'g') then
      match ParseSecurityFuse(block)
      case None => (st, Unknown)
      case Some(isSet) => (st.(securitySet := isSet), SecurityFuse)
    else if Letter(block[0], 'C', 'c') then
      match ParseChecksum(block)
      case None => (st, Unknown)
      case Some(sum) => (st.(checksum := sum), FuseChecksum)
    else if Letter(block[0], 'Q', 'q') then
      if Letter(block[1], 'P', 'p') then
        match ParsePinCount(block)
        case None => (st, Unknown)
        case Some(count) => (st.(pinCount := count), PinCount)
      else if Letter(block[1], 'F', 'f') then
        match ParseBitstreamSize(block)
        case None => (st, Unknown)
        case Some(size) => (st.(bitstreamSize := size), FuseSize)
      else (st, Unknown)
    else (st, Unknown)
  }

  /** A field `add_info_from_block` can process: ETX-terminated, or with a defined parse. */
  predicate Applicable(e: Extracted)
  {
    e.end == EndOfText || FieldDefined(e.field)
  }

  /**
   * One call of `add_info_from_block` on an extracted field: ETX fills the
   * gaps and answers `Done` without looking at the field; anything else is
   * dispatched.
   */
  function ApplyField(st: JedecState, e: Extracted): (JedecState, BlockType)
    requires Applicable(e)
  {
    if e.end == EndOfText then
      (st.(bitmap := FillGaps(st.bitmap, st.bitstreamSize, st.defaultFuse)), Done)
    else ApplyBlock(st, e.field)
  }

  /** Every field `main` hands to `add_info_from_block` from `pos` on is applicable. */
  predicate StreamDefined(stream: seq<char>, pos: nat)
    requires pos <= |stream|
    decreases |stream| - pos
  {
    var e := ReadField(stream, pos);
    Applicable(e) && (e.end != EndOfInput ==> StreamDefined(stream, e.next))
  }

  /**
   * The loop of `main`: apply fields until a read exhausts the stream. ETX
   * does not stop it, so fields after ETX still apply.
   */
  function DecodeFrom(st: JedecState, stream: seq<char>, pos: nat): JedecState
    requires pos <= |stream| && StreamDefined(stream, pos)
    decreases |stream| - pos
  {
    var e := ReadField(stream, pos);
    var next := ApplyField(st, e).0;
    if e.end == EndOfInput then next else DecodeFrom(next, stream, e.next)
  }

  /** The fuse map `main` builds from the bytes after STX. */
  function Decode(stream: seq<char>): JedecState
    requires StreamDefined(stream, 0)
  {
    DecodeFrom(Initial, stream, 0)
  }

  /** `class Jedec`. */
  class Jedec {
    var bitmap: map<nat, bool>
    var bitstreamSize: nat
    var pinCount: nat
    var checksum: nat
    var defaultFuse: bool
    var securitySet: bool

    function State(): JedecState
      reads this
    {
      JedecState(bitmap, bitstreamSize, pinCount, checksum, defaultFuse, securitySet)
    }

    /** `Jedec::get_fuse_bit`. */
    function GetFuseBit(i: nat): bool
      reads this
    {
      State().FuseBit(i)
    }

    constructor()
      ensures State() == Initial
    {
      bitmap := map[];
      bitstreamSize, pinCount, checksum := 0, 0, 0;
      defaultFuse, securitySet := false, false;
    }

    /** The gap fill of `add_info_from_block` on ETX. */
    method FillMissingFuses()
      modifies this
      ensures State() == old(State()).(bitmap := FillGaps(old(bitmap), bitstreamSize, defaultFuse))
    {
      ghost var m := bitmap;
      var bit := 0;
      while bit < bitstreamSize
        invariant bit <= bitstreamSize
        invariant bitmap == FillGaps(m, bit, defaultFuse)
        invariant unchanged(`bitstreamSize, `pinCount, `checksum, `defaultFuse, `securitySet)
      {
        if bit !in bitmap {
          bitmap := bitmap[bit := defaultFuse];
        }
        bit := bit + 1;
      }
    }

    /** The copy loop of `add_info_from_block` for a parsed fuse list. */
    method StoreFuses(b: FuseListBlock)
      requires |b.fuses| == FuseCapacity && b.fusesLength <= FuseCapacity
      modifies this
      ensures State() == old(State()).(bitmap := WriteRun(old(bitmap), b))
    {
      ghost var m := bitmap;
      var bitnum: int := FuseCapacity - 1;
      for i := 0 to b.fusesLength
        invariant bitnum == FuseCapacity - 1 - i
        invariant bitmap == WritePrefix(m, b, i)
        invariant unchanged(`bitstreamSize, `pinCount, `checksum, `defaultFuse, `securitySet)
      {
        bitmap := bitmap[b.fusesPos + i := b.fuses[bitnum]];
        bitnum := bitnum - 1;
      }
    }

    /**
     * `Jedec::add_info_from_block`: read one field from `stream` at `pos`,
     * apply it, and say where the next field starts and whether the read
     * exhausted the stream.
     */
    method AddInfoFromBlock(stream: seq<char>, pos: nat) returns (kind: BlockType, next: nat, eof: bool)
      requires pos <= |stream| && Applicable(ReadField(stream, pos))
      modifies this
      ensures (State(), kind) == ApplyField(old(State()), ReadField(stream, pos))
      ensures next == ReadField(stream, pos).next
      ensures eof == (ReadField(stream, pos).end == EndOfInput)
    {
      var block, end;
      block, next, end := ExtractField(stream, pos);
      eof := end == EndOfInput;

      if end == EndOfText {
        FillMissingFuses();
        return Done, next, eof;
      }
      kind := Dispatch(block);
    }

    /** The dispatch on the first letters of a field that did not end at ETX. */
    method Dispatch(block: string) returns (kind: BlockType)
      requires FieldDefined(block)
      modifies this
      ensures State() == ApplyBlock(old(State()), block).0
      ensures kind == ApplyBlock(old(State()), block).1
    {
      kind := Unknown;
      if |block| < 2 {
        return;
      }

      if Letter(block[0], 'L', 'l') {
        var ret := TryParseFuseList(block);
        if ret.Some? {
          StoreFuses(ret.value);
          kind := FuseList;
        }
      } else if Letter(block[0], 'F', 'f') {
        var ret := ParseDefaultFuse(block);
        if ret.Some? {
          defaultFuse := ret.value;
          kind := FuseDefault;
        }
      } else if Letter(block[0], 'G', 'g') {
        var ret := ParseSecurityFuse(block);
        if ret.Some? {
          securitySet := ret.value;
          kind := SecurityFuse;
        }
      } else if Letter(block[0], 'C', 'c') {
        var ret := ParseChecksum(block);
        if ret.Some? {
          checksum := ret.value;
          kind := FuseChecksum;
        }
      } else if Letter(block[0], 'Q', 'q') {
        if Letter(block[1], 'P', 'p') {
          var ret := ParsePinCount(block);
          if ret.Some? {
            pinCount := ret.value;
            kind := PinCount;
          }
        } else if Letter(block[1], 'F', 'f') {
          var ret := ParseBitstreamSize(block);
          if ret.Some? {
            bitstreamSize := ret.value;
            kind := FuseSize;
          }
        }
      }
    }
  }

  /**
   * The field loop of `main`: call `add_info_from_block` until a read
   * exhausts the stream.
   */
  method DecodeStream(stream: seq<char>) returns (jedec: Jedec)
    requires StreamDefined(stream, 0)
    ensures fresh(jedec) && jedec.State() == Decode(stream)
  {
    jedec := new Jedec();
    var pos: nat := 0;
    var eof := false;
    while !eof
      invariant pos <= |stream|
      invariant !eof ==> StreamDefined(stream, pos) && DecodeFrom(jedec.State(), stream, pos) == Decode(stream)
      invariant eof ==> jedec.State() == Decode(stream)
      decreases |stream| - pos, !eof
    {
      var kind;
      kind, pos, eof := jedec.AddInfoFromBlock(stream, pos);
    }
  }
}
