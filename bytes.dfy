/** Bytes of the memory-mapped input file and the span search the engine uses on them. */
module Bytes {

  /** One byte of the mapped file. */
  newtype byte = b: int | 0 <= b < 256

  /** The line terminator '\n'. */
  const NewLine: byte := 10

  /** The field delimiter ';'. */
  const Delimiter: byte := 59

  /** The largest C# `int`; the scanner casts a chunk length to `int` when it builds its span. */
  const Int32Max: int := 0x7FFF_FFFF

  /** Position `p` holds byte `b`. Positions outside the buffer hold no byte of the file. */
  predicate IsAt(buf: seq<byte>, p: int, b: byte)
  {
    0 <= p < |buf| && buf[p] == b
  }

  /** `new Span<byte>(filePointer + start, count).IndexOf(b)`: the index, relative to `start`,
      of the first `b` among the `count` bytes from `start`, or -1 when there is none. A window
      that runs past the end of the file finds nothing there (the mapping is zero-filled). */
  function IndexOf(buf: seq<byte>, start: int, count: int, b: byte): (r: int)
    ensures -1 <= r
    ensures r == -1 ==> forall p :: start <= p < start + count ==> !IsAt(buf, p, b)
    ensures r >= 0 ==> r < count && IsAt(buf, start + r, b)
    ensures r >= 0 ==> forall p :: start <= p < start + r ==> !IsAt(buf, p, b)
  {
    var i := FirstFrom(buf, start, start + count, b);
    FirstFromIsFirst(buf, start, start + count, b);
    if i == -1 then -1 else i - start
  }

  /** The first position in [p, end) holding `b`, or -1. */
  function FirstFrom(buf: seq<byte>, p: int, end: int, b: byte): (r: int)
    ensures r == -1 || (p <= r < end && IsAt(buf, r, b))
    decreases end - p
  {
    if p >= end then -1
    else if IsAt(buf, p, b) then p
    else FirstFrom(buf, p + 1, end, b)
  }

  /** No position before the one FirstFrom reports holds `b`; when it reports -1, none in the
      range does. */
  lemma {:induction false} FirstFromIsFirst(buf: seq<byte>, p: int, end: int, b: byte)
    ensures FirstFrom(buf, p, end, b) == -1 ==> forall q :: p <= q < end ==> !IsAt(buf, q, b)
    ensures FirstFrom(buf, p, end, b) != -1 ==> forall q :: p <= q < FirstFrom(buf, p, end, b) ==> !IsAt(buf, q, b)
    decreases end - p
  {
    if p < end && !IsAt(buf, p, b) {
      FirstFromIsFirst(buf, p + 1, end, b);
    }
  }

  /** The first match is unique: any position in the window holding `b`, with no `b` before it,
      is the one IndexOf reports. */
  lemma IndexOfIsFirst(buf: seq<byte>, start: int, count: int, b: byte, p: int)
    requires start <= p < start + count && IsAt(buf, p, b)
    requires forall q :: start <= q < p ==> !IsAt(buf, q, b)
    ensures IndexOf(buf, start, count, b) == p - start
  {
  }
}
