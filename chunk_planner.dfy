/** GetChunks: splitting the mapped file into one (offset, length) chunk per processor. */
module ChunkPlanner {
  import opened Bytes

  /** A chunk `(long offset, long length)` of the file. */
  datatype Chunk = Chunk(offset: int, length: int)

  /** How far past the tentative boundary the planner looks for a '\n'. */
  const Lookahead: int := 64

  /** One chunk as GetChunks builds it at `offset`: it tentatively spans `chunkSize` bytes,
      is extended to the first '\n' among the 64 bytes from there (or shortened by one byte
      when there is none), and is cut at the end of the file when it would reach it. Such a
      chunk never passes the end of the file and is shorter than its target size plus the
      lookahead. */
  predicate PlannedAt(buf: seq<byte>, chunkSize: int, c: Chunk)
    ensures PlannedAt(buf, chunkSize, c) ==> c.offset + c.length <= |buf| && c.length < chunkSize + Lookahead
  {
    var lastNewLineIndex := IndexOf(buf, c.offset + chunkSize, Lookahead, NewLine);
    if c.offset + chunkSize + lastNewLineIndex >= |buf| then c.length == |buf| - c.offset
    else c.length == chunkSize + lastNewLineIndex
  }

  /** Chunk `i` starts where chunk `i - 1` ends. */
  predicate StartsAtPreviousEnd(chunks: seq<Chunk>, i: int)
    requires 0 < i < |chunks|
  {
    chunks[i].offset == chunks[i - 1].offset + chunks[i - 1].length
  }

  /** The chunks built so far: the first starts at 0, each next one where the previous ended,
      and each extends or is cut as PlannedAt says. */
  predicate PlannedPrefix(buf: seq<byte>, chunkSize: int, chunks: seq<Chunk>)
  {
    (|chunks| > 0 ==> chunks[0].offset == 0) &&
    (forall i :: 0 < i < |chunks| ==> StartsAtPreviousEnd(chunks, i)) &&
    (forall i :: 0 <= i < |chunks| ==> PlannedAt(buf, chunkSize, chunks[i]))
  }

  /** The plan for `chunkCount` processors: exactly `chunkCount` chunks of target size
      `fileLength / chunkCount`. */
  predicate IsPlan(buf: seq<byte>, chunkCount: int, chunks: seq<Chunk>)
    requires chunkCount >= 1
  {
    |chunks| == chunkCount && PlannedPrefix(buf, |buf| / chunkCount, chunks)
  }

  /** GetChunks(): builds the plan with a loop that appends one chunk per processor. */
  method GetChunks(buf: seq<byte>, chunkCount: int) returns (chunks: seq<Chunk>)
    requires chunkCount >= 1
    ensures IsPlan(buf, chunkCount, chunks)
    ensures forall i :: 0 <= i < |chunks| ==> chunks[i].offset <= |buf| && chunks[i].offset + chunks[i].length <= |buf|
  {
    var fileLength := |buf|;
    var chunkSize := fileLength / chunkCount;
    var offset := 0;
    chunks := [];
    for i := 0 to chunkCount
      invariant |chunks| == i
      invariant PlannedPrefix(buf, chunkSize, chunks)
      invariant offset == if i == 0 then 0 else chunks[i - 1].offset + chunks[i - 1].length
    {
      var lineOffset := offset + chunkSize;
      var lastNewLineIndex := IndexOf(buf, lineOffset, Lookahead, NewLine);
      var length := chunkSize + lastNewLineIndex;
      if length + offset >= fileLength {
        length := fileLength - offset;
      }
      assert PlannedAt(buf, chunkSize, Chunk(offset, length));
      PlannedPrefixAppend(buf, chunkSize, chunks, Chunk(offset, length));
      chunks := chunks + [Chunk(offset, length)];
      offset := offset + length;
    }
    forall i | 0 <= i < |chunks|
      ensures chunks[i].offset <= |buf| && chunks[i].offset + chunks[i].length <= |buf|
    {
      PlanOffsets(buf, chunkSize, chunks, i);
    }
  }

  lemma PlannedPrefixAppend(buf: seq<byte>, chunkSize: int, chunks: seq<Chunk>, c: Chunk)
    requires PlannedPrefix(buf, chunkSize, chunks) && PlannedAt(buf, chunkSize, c)
    requires c.offset == if chunks == [] then 0 else chunks[|chunks| - 1].offset + chunks[|chunks| - 1].length
    ensures PlannedPrefix(buf, chunkSize, chunks + [c])
  {
    var cs := chunks + [c];
    forall i | 0 <= i < |cs|
      ensures PlannedAt(buf, chunkSize, cs[i])
      ensures i > 0 ==> StartsAtPreviousEnd(cs, i)
    {
      if i < |chunks| {
        assert cs[i] == chunks[i];
        if i > 0 {
          assert StartsAtPreviousEnd(chunks, i);
        }
      }
    }
  }

  /** The plan is determined by the file and the processor count. */
  lemma PlanIsUnique(buf: seq<byte>, chunkCount: int, c1: seq<Chunk>, c2: seq<Chunk>)
    requires chunkCount >= 1
    requires IsPlan(buf, chunkCount, c1) && IsPlan(buf, chunkCount, c2)
    ensures c1 == c2
  {
    forall i | 0 <= i < chunkCount
      ensures c1[i] == c2[i]
    {
      PlanAgreesUpTo(buf, |buf| / chunkCount, c1, c2, i);
    }
  }

  lemma {:induction false} PlanAgreesUpTo(buf: seq<byte>, chunkSize: int, c1: seq<Chunk>, c2: seq<Chunk>, i: int)
    requires PlannedPrefix(buf, chunkSize, c1) && PlannedPrefix(buf, chunkSize, c2)
    requires 0 <= i < |c1| && i < |c2|
    ensures c1[i] == c2[i]
    decreases i
  {
    if i > 0 {
      PlanAgreesUpTo(buf, chunkSize, c1, c2, i - 1);
      assert StartsAtPreviousEnd(c1, i);
      assert StartsAtPreviousEnd(c2, i);
    }
    PlannedAtOffset(buf, chunkSize, c1[i], c2[i]);
  }

  /** The chunk built at an offset is determined by the offset. */
  lemma PlannedAtOffset(buf: seq<byte>, chunkSize: int, a: Chunk, b: Chunk)
    requires PlannedAt(buf, chunkSize, a) && PlannedAt(buf, chunkSize, b) && a.offset == b.offset
    ensures a == b
  {
  }

  /** Chunks of a plan are contiguous and none reaches past the end of the file. */
  lemma {:induction false} PlanOffsets(buf: seq<byte>, chunkSize: int, chunks: seq<Chunk>, i: int)
    requires PlannedPrefix(buf, chunkSize, chunks)
    requires 0 <= i < |chunks|
    ensures chunks[i].offset <= |buf| && chunks[i].offset + chunks[i].length <= |buf|
    ensures chunkSize >= 1 ==> 0 <= chunks[i].offset && 0 <= chunks[i].length
    decreases i
  {
    if i > 0 {
      PlanOffsets(buf, chunkSize, chunks, i - 1);
      assert StartsAtPreviousEnd(chunks, i);
    }
    assert PlannedAt(buf, chunkSize, chunks[i]);
  }

  /** When the file has at least one byte per processor, every chunk lies inside the file:
      offsets and lengths are non-negative and no chunk passes the end. */
  lemma PlanInBounds(buf: seq<byte>, chunkCount: int, chunks: seq<Chunk>)
    requires 1 <= chunkCount <= |buf|
    requires IsPlan(buf, chunkCount, chunks)
    ensures forall i :: 0 <= i < |chunks| ==>
      0 <= chunks[i].offset && 0 <= chunks[i].length && chunks[i].offset + chunks[i].length <= |buf|
  {
    assert |buf| / chunkCount >= 1 by {
      DivAtLeastOne(|buf|, chunkCount);
    }
    forall i | 0 <= i < |chunks|
      ensures 0 <= chunks[i].offset && 0 <= chunks[i].length && chunks[i].offset + chunks[i].length <= |buf|
    {
      PlanOffsets(buf, |buf| / chunkCount, chunks, i);
    }
  }

  lemma DivSmall(n: int, d: int)
    requires 0 <= n < d
    ensures n / d == 0
  {
  }

  lemma DivAtLeastOne(n: int, d: int)
    requires 1 <= d <= n
    ensures n / d >= 1
  {
  }

  /** A chunk that is not cut at the end of the file either ends exactly at the first '\n' of
      its lookahead window, that '\n' not being part of the chunk, or, when the window holds no
      '\n', stops one byte short of the tentative boundary. The next chunk starts where it ends. */
  lemma UncutChunkEnd(buf: seq<byte>, chunkCount: int, chunks: seq<Chunk>, i: int)
    requires chunkCount >= 1 && IsPlan(buf, chunkCount, chunks) && 0 <= i < |chunks|
    requires chunks[i].offset + chunks[i].length < |buf|
    ensures var c, chunkSize := chunks[i], |buf| / chunkCount;
      var end := c.offset + c.length;
      (c.offset + chunkSize <= end < c.offset + chunkSize + Lookahead &&
       IsAt(buf, end, NewLine) &&
       (forall p :: c.offset + chunkSize <= p < end ==> !IsAt(buf, p, NewLine))) ||
      (end == c.offset + chunkSize - 1 &&
       (forall p :: c.offset + chunkSize <= p < c.offset + chunkSize + Lookahead ==> !IsAt(buf, p, NewLine)))
    ensures i + 1 < |chunks| ==> chunks[i + 1].offset == chunks[i].offset + chunks[i].length
  {
    assert PlannedAt(buf, |buf| / chunkCount, chunks[i]);
    if i + 1 < |chunks| {
      assert StartsAtPreviousEnd(chunks, i + 1);
    }
  }

  /** A chunk that the planner cuts ends exactly at the end of the file. */
  lemma CutChunkEndsAtEndOfFile(buf: seq<byte>, chunkCount: int, chunks: seq<Chunk>, i: int)
    requires chunkCount >= 1 && IsPlan(buf, chunkCount, chunks) && 0 <= i < |chunks|
    requires chunks[i].offset + |buf| / chunkCount + IndexOf(buf, chunks[i].offset + |buf| / chunkCount, Lookahead, NewLine) >= |buf|
    ensures chunks[i].offset + chunks[i].length == |buf|
  {
    assert PlannedAt(buf, |buf| / chunkCount, chunks[i]);
  }

  /** With one processor the window starts at the end of the file and finds nothing, so the
      single chunk stops one byte short: the file's last byte is in no chunk. */
  lemma SingleChunkMissesLastByte(buf: seq<byte>, chunks: seq<Chunk>)
    requires |buf| >= 1 && IsPlan(buf, 1, chunks)
    ensures chunks == [Chunk(0, |buf| - 1)]
  {
    assert PlannedAt(buf, |buf|, chunks[0]);
    assert IndexOf(buf, |buf|, Lookahead, NewLine) == -1;
  }

  /** A file shorter than the processor count with no '\n' in its first 64 bytes (an empty file
      included) gets a first chunk of length -1 and the next chunk starts before the file. */
  lemma ShortFileGivesNegativeLength(buf: seq<byte>, chunkCount: int, chunks: seq<Chunk>)
    requires 0 <= |buf| < chunkCount && IsPlan(buf, chunkCount, chunks)
    requires forall p :: 0 <= p < Lookahead ==> !IsAt(buf, p, NewLine)
    ensures chunks[0] == Chunk(0, -1)
    ensures chunkCount >= 2 ==> chunks[1].offset == -1
  {
    DivSmall(|buf|, chunkCount);
    assert PlannedAt(buf, 0, chunks[0]);
    if chunkCount >= 2 {
      assert StartsAtPreviousEnd(chunks, 1);
    }
  }

  /** A file shorter than the processor count with a '\n' among its first 64 bytes: the target
      size is 0, so the first chunk runs up to that '\n' (exclusive) and every later chunk is
      empty and starts on it. Every offset and length is non-negative. */
  lemma {:induction false} ShortFileWithNewLine(buf: seq<byte>, chunkCount: int, chunks: seq<Chunk>, i: int)
    requires 0 <= |buf| < chunkCount && IsPlan(buf, chunkCount, chunks)
    requires IndexOf(buf, 0, Lookahead, NewLine) != -1
    requires 0 <= i < |chunks|
    ensures var t := IndexOf(buf, 0, Lookahead, NewLine);
      chunks[i] == if i == 0 then Chunk(0, t) else Chunk(t, 0)
    decreases i
  {
    var t := IndexOf(buf, 0, Lookahead, NewLine);
    DivSmall(|buf|, chunkCount);
    assert PlannedAt(buf, 0, chunks[i]);
    if i > 0 {
      ShortFileWithNewLine(buf, chunkCount, chunks, i - 1);
      assert StartsAtPreviousEnd(chunks, i);
      IndexOfIsFirst(buf, t, Lookahead, NewLine, t);
    }
  }
}
