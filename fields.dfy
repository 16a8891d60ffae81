/**
 * The field extractor at the head of `Jedec::add_info_from_block`: it reads
 * one `*`-terminated field from the byte stream that follows STX, dropping
 * CR and LF, and notices ETX.
 */
module Fields {

  /** End of transmission, 0x03. */
  const Etx: char := 3 as char
  /** Carriage return, 0x0D. */
  const Cr: char := 13 as char
  /** Line feed, 0x0A. */
  const Lf: char := 10 as char

  /** How a field ended: at `*`, at ETX, or because the stream ran out. */
  datatype Terminator = Star | EndOfText | EndOfInput

  /** One field, the stream position after it, and what ended it. */
  datatype Extracted = Extracted(field: string, next: nat, end: Terminator)

  predicate IsTerminator(c: char) { c == '*' || c == Etx }

  /** Bytes that never reach a field's text. */
  predicate IsDropped(c: char) { c == Cr || c == Lf || IsTerminator(c) }

  /** `s` with every CR and LF removed, order kept. */
  function WithoutLineBreaks(s: string): string
  {
    if s == [] then []
    else (if s[0] == Cr || s[0] == Lf then [] else [s[0]]) + WithoutLineBreaks(s[1..])
  }

  /** The index one past the field's last byte: before the terminator, if any. */
  function ContentEnd(e: Extracted): int
  {
    if e.end == EndOfInput then e.next else e.next - 1
  }

  /**
   * The field that starts at `pos`: everything up to the first `*` or ETX
   * (or the end of the stream) with CR and LF removed; the terminator is
   * consumed and later bytes are left for the next call.
   */
  function ReadField(stream: seq<char>, pos: nat): (e: Extracted)
    requires pos <= |stream|
    ensures pos <= e.next <= |stream|
    ensures e.end == EndOfInput <==> e.next == |stream| && (pos == |stream| || !IsTerminator(stream[|stream| - 1]))
    decreases |stream| - pos
  {
    if pos == |stream| then Extracted([], pos, EndOfInput)
    else if stream[pos] == '*' then Extracted([], pos + 1, Star)
    else if stream[pos] == Etx then Extracted([], pos + 1, EndOfText)
    else
      var rest := ReadField(stream, pos + 1);
      if stream[pos] == Cr || stream[pos] == Lf then rest
      else rest.(field := [stream[pos]] + rest.field)
  }

  /**
   * The field read at `pos` is the text up to the first terminator (or the
   * end of the stream) with CR and LF removed; it holds no terminator, CR or
   * LF; the terminator it names is the byte just consumed.
   */
  lemma {:induction false} ReadFieldContents(stream: seq<char>, pos: nat)
    requires pos <= |stream|
    ensures var e := ReadField(stream, pos);
      && pos <= ContentEnd(e) <= e.next
      && (forall k | pos <= k < ContentEnd(e) :: !IsTerminator(stream[k]))
      && (e.end == Star ==> stream[e.next - 1] == '*')
      && (e.end == EndOfText ==> stream[e.next - 1] == Etx)
      && e.field == WithoutLineBreaks(stream[pos..ContentEnd(e)])
      && (forall i | 0 <= i < |e.field| :: !IsDropped(e.field[i]))
    decreases |stream| - pos
  {
    if pos < |stream| && !IsTerminator(stream[pos]) {
      var rest := ReadField(stream, pos + 1);
      ReadFieldContents(stream, pos + 1);
      assert stream[pos..ContentEnd(rest)][1..] == stream[pos + 1..ContentEnd(rest)];
    }
  }

  /** Reading from a kept or dropped byte that is not a terminator. */
  lemma ReadFieldStep(stream: seq<char>, k: nat)
    requires k < |stream| && !IsTerminator(stream[k])
    ensures var rest := ReadField(stream, k + 1);
      ReadField(stream, k) == if stream[k] == Cr || stream[k] == Lf then rest
                              else rest.(field := [stream[k]] + rest.field)
  {
  }

  /**
   * The byte loop of `Jedec::add_info_from_block`: read until `*` or ETX,
   * keeping every byte except CR, LF and the terminator itself.
   */
  method ExtractField(stream: seq<char>, pos: nat) returns (field: string, next: nat, end: Terminator)
    requires pos <= |stream|
    ensures Extracted(field, next, end) == ReadField(stream, pos)
  {
    ghost var target := ReadField(stream, pos);
    field, next := [], pos;
    while true
      invariant pos <= next <= |stream|
      invariant target.next == ReadField(stream, next).next
      invariant target.end == ReadField(stream, next).end
      invariant target.field == field + ReadField(stream, next).field
      decreases |stream| - next
    {
      if next == |stream| {
        // the read fails: the stream is exhausted
        end := EndOfInput;
        assert field + [] == field;
        return;
      }
      var x := stream[next];
      if x == '*' || x == Etx {
        end := if x == '*' then Star else EndOfText;
        next := next + 1;
        assert field + [] == field;
        return;
      }
      ReadFieldStep(stream, next);
      ghost var rest := ReadField(stream, next + 1);
      if x != Cr && x != Lf {
        assert field + ([x] + rest.field) == (field + [x]) + rest.field;
        field := field + [x];
      }
      next := next + 1;
    }
  }
}
