/** The chunks of a plan together visit the lines of the file: every line that holds a ';' is
    folded by exactly one chunk, in file order, under conditions on the plan stated below. */
module Coverage {
  import opened Bytes
  import opened Accumulators
  import opened Tables
  import opened ChunkPlanner
  import opened ChunkScanner
  import opened Merger
  import opened Pipeline

  /** The lines of the file from position `p` that start before position `e`. Each runs from
      its start to the first '\n' at or after it; a final fragment without '\n' is no line. */
  function FileLinesBefore(buf: seq<byte>, p: int, e: int): seq<Line>
    decreases |buf| - p
  {
    if p < 0 || p >= |buf| || p >= e then []
    else
      var t := FirstFrom(buf, p, |buf|, NewLine);
      if t == -1 then [] else [Line(p, t - p)] + FileLinesBefore(buf, t + 1, e)
  }

  /** The '\n'-terminated lines of the whole file, in order. */
  function FileLines(buf: seq<byte>): seq<Line>
  {
    FileLinesBefore(buf, 0, |buf|)
  }

  /** The lines the scanner folds, in order. */
  function FoldedOnly(buf: seq<byte>, lines: seq<Line>): seq<Line>
    decreases |lines|
  {
    if lines == [] then [] else (if Folded(buf, lines[0]) then [lines[0]] else []) + FoldedOnly(buf, lines[1..])
  }

  /** Where chunk `c` ends. */
  function End(c: Chunk): int
  {
    c.offset + c.length
  }

  lemma FoldedOnlyCons(buf: seq<byte>, l: Line, rest: seq<Line>)
    ensures FoldedOnly(buf, [l] + rest) == (if Folded(buf, l) then [l] else []) + FoldedOnly(buf, rest)
  {
    assert ([l] + rest)[1..] == rest;
  }

  /** Scanning a chunk from a line start (or from its offset, when its first line ends inside
      it) visits exactly the lines of the file that start before the chunk's end, provided the
      chunk ends at the end of the file or on a '\n'. The line that ends on that '\n' is the
      chunk's last line: the cursor's window reaches it although it lies past the chunk. */
  lemma {:induction false} ChunkLinesAreFileLines(buf: seq<byte>, v: Chunk, offset: int, fileOffset: int)
    requires 0 <= v.offset && 0 <= offset && End(v) <= |buf| && fileOffset == v.offset + offset
    requires End(v) == |buf| || IsAt(buf, End(v), NewLine)
    requires offset > 0 || offset >= v.length || End(v) == |buf| || IndexOf(buf, v.offset, v.length, NewLine) != -1
    ensures ChunkLines(buf, v, offset) == FileLinesBefore(buf, fileOffset, End(v))
    decreases v.length - offset
  {
    if offset < v.length {
      var t := FirstFrom(buf, fileOffset, |buf|, NewLine);
      if t != -1 {
        ChunkLinesAreFileLines(buf, v, t + 1 - v.offset, t + 1);
      }
      ChunkLineStep(buf, v, offset, fileOffset, t);
    }
  }

  /** One line of the chunk is one line of the file, or both have run out. */
  lemma ChunkLineStep(buf: seq<byte>, v: Chunk, offset: int, fileOffset: int, t: int)
    requires 0 <= v.offset && 0 <= offset < v.length && End(v) <= |buf| && fileOffset == v.offset + offset
    requires End(v) == |buf| || IsAt(buf, End(v), NewLine)
    requires offset > 0 || End(v) == |buf| || IndexOf(buf, v.offset, v.length, NewLine) != -1
    requires t == FirstFrom(buf, fileOffset, |buf|, NewLine)
    requires t != -1 ==> ChunkLines(buf, v, t + 1 - v.offset) == FileLinesBefore(buf, t + 1, End(v))
    ensures ChunkLines(buf, v, offset) == FileLinesBefore(buf, fileOffset, End(v))
  {
    var newLineIndex := IndexOf(buf, fileOffset, v.length, NewLine);
    WindowFindsLineEnd(buf, v, offset, t);
    if t != -1 {
      ChunkLinesHead(buf, v, offset, fileOffset, newLineIndex, t + 1 - v.offset);
      FileLinesHead(buf, fileOffset, End(v), t);
    }
  }

  /** The cursor's window from a position inside the chunk finds the same '\n' as a search to
      the end of the file: the chunk's end is a '\n' or the end of the file. */
  lemma WindowFindsLineEnd(buf: seq<byte>, v: Chunk, offset: int, t: int)
    requires 0 <= v.offset && 0 <= offset < v.length && End(v) <= |buf|
    requires End(v) == |buf| || IsAt(buf, End(v), NewLine)
    requires offset > 0 || End(v) == |buf| || IndexOf(buf, v.offset, v.length, NewLine) != -1
    requires t == FirstFrom(buf, v.offset + offset, |buf|, NewLine)
    ensures t == -1 ==> IndexOf(buf, v.offset + offset, v.length, NewLine) == -1
    ensures t != -1 ==> t <= End(v) && IndexOf(buf, v.offset + offset, v.length, NewLine) == t - (v.offset + offset)
  {
    var c, e := v.offset + offset, End(v);
    FirstFromIsFirst(buf, c, |buf|, NewLine);
    if t != -1 {
      assert t <= e;
      assert t < c + v.length by {
        if offset == 0 && e < |buf| {
          var r := IndexOf(buf, v.offset, v.length, NewLine);
          assert IsAt(buf, v.offset + r, NewLine);
        }
      }
      IndexOfIsFirst(buf, c, v.length, NewLine, t);
    }
  }

  /** The first file line from `p`, when it ends somewhere in the file. */
  lemma FileLinesHead(buf: seq<byte>, p: int, e: int, t: int)
    requires 0 <= p < |buf| && p < e
    requires t == FirstFrom(buf, p, |buf|, NewLine) && t != -1
    ensures FileLinesBefore(buf, p, e) == [Line(p, t - p)] + FileLinesBefore(buf, t + 1, e)
  {
  }

  /** A chunk that starts on a '\n' (the one its predecessor ended on) first visits that '\n'
      as an empty line, then exactly the file lines from just past it to its own end. */
  lemma NextChunkContinues(buf: seq<byte>, v: Chunk)
    requires 0 <= v.offset && 0 < v.length && End(v) <= |buf|
    requires IsAt(buf, v.offset, NewLine)
    requires End(v) == |buf| || IsAt(buf, End(v), NewLine)
    ensures ChunkLines(buf, v, 0) == [Line(v.offset, 0)] + FileLinesBefore(buf, v.offset + 1, End(v))
    ensures !Folded(buf, Line(v.offset, 0))
  {
    IndexOfIsFirst(buf, v.offset, v.length, NewLine, v.offset);
    ChunkLinesHead(buf, v, 0, v.offset, 0, 1);
    ChunkLinesAreFileLines(buf, v, 1, v.offset + 1);
  }

  /** Cutting the file's lines at a '\n' at `e`: the folded lines before `e`, then the folded
      lines from just past it. The line that ends on `e` belongs to the first part; when `e`
      itself starts an (empty) line, that line is folded by neither. */
  lemma {:induction false} FileLinesSplit(buf: seq<byte>, p: int, e: int, e2: int)
    requires 0 <= p <= e < e2 && IsAt(buf, e, NewLine)
    ensures FoldedOnly(buf, FileLinesBefore(buf, p, e2)) ==
      FoldedOnly(buf, FileLinesBefore(buf, p, e)) + FoldedOnly(buf, FileLinesBefore(buf, e + 1, e2))
    decreases e - p
  {
    var t := FirstFrom(buf, p, |buf|, NewLine);
    FirstFromIsFirst(buf, p, |buf|, NewLine);
    if p == e {
      SplitAtEmptyLine(buf, e, e2, t);
    } else {
      if t < e {
        FileLinesSplit(buf, t + 1, e, e2);
      }
      SplitAfterFirstLine(buf, p, e, e2, t);
    }
  }

  /** The line that starts on the cut '\n' is empty and folded by neither side. */
  lemma SplitAtEmptyLine(buf: seq<byte>, e: int, e2: int, t: int)
    requires 0 <= e < e2 && IsAt(buf, e, NewLine) && t == FirstFrom(buf, e, |buf|, NewLine)
    ensures FoldedOnly(buf, FileLinesBefore(buf, e, e2)) ==
      FoldedOnly(buf, FileLinesBefore(buf, e, e)) + FoldedOnly(buf, FileLinesBefore(buf, e + 1, e2))
  {
    assert t == e;
    var l := Line(e, 0);
    FileLinesHead(buf, e, e2, t);
    FoldedOnlyCons(buf, l, FileLinesBefore(buf, e + 1, e2));
    assert !Folded(buf, l);
  }

  /** The first line lies before the cut: it heads both the whole and the first part. */
  lemma SplitAfterFirstLine(buf: seq<byte>, p: int, e: int, e2: int, t: int)
    requires 0 <= p < e < e2 && IsAt(buf, e, NewLine) && t == FirstFrom(buf, p, |buf|, NewLine)
    requires t < e ==> (FoldedOnly(buf, FileLinesBefore(buf, t + 1, e2)) ==
      FoldedOnly(buf, FileLinesBefore(buf, t + 1, e)) + FoldedOnly(buf, FileLinesBefore(buf, e + 1, e2)))
    ensures FoldedOnly(buf, FileLinesBefore(buf, p, e2)) ==
      FoldedOnly(buf, FileLinesBefore(buf, p, e)) + FoldedOnly(buf, FileLinesBefore(buf, e + 1, e2))
  {
    FirstFromIsFirst(buf, p, |buf|, NewLine);
    assert t != -1 && t <= e;
    var l := Line(p, t - p);
    var head: seq<Line> := if Folded(buf, l) then [l] else [];
    FileLinesHead(buf, p, e2, t);
    FoldedOnlyCons(buf, l, FileLinesBefore(buf, t + 1, e2));
    FileLinesHead(buf, p, e, t);
    FoldedOnlyCons(buf, l, FileLinesBefore(buf, t + 1, e));
    if t == e {
      assert FoldedOnly(buf, FileLinesBefore(buf, t + 1, e)) == [];
    }
    ConcatSplit(FoldedOnly(buf, FileLinesBefore(buf, p, e2)), FoldedOnly(buf, FileLinesBefore(buf, p, e)), head,
      FoldedOnly(buf, FileLinesBefore(buf, t + 1, e2)), FoldedOnly(buf, FileLinesBefore(buf, t + 1, e)),
      FoldedOnly(buf, FileLinesBefore(buf, e + 1, e2)));
  }

  /** Regrouping a concatenation. */
  lemma ConcatSplit<T>(whole: seq<T>, part: seq<T>, head: seq<T>, rest: seq<T>, middle: seq<T>, tail: seq<T>)
    requires whole == head + rest && part == head + middle && rest == middle + tail
    ensures whole == part + tail
  {
  }

  /** The lines each chunk folds, chunk by chunk. */
  function ChunkFoldedLines(buf: seq<byte>, chunks: seq<Chunk>): seq<seq<Line>>
  {
    seq(|chunks|, i requires 0 <= i < |chunks| => FoldedOnly(buf, ChunkLines(buf, chunks[i], 0)))
  }

  /** The conditions under which the chunks split the file at line boundaries: every chunk
      ends on a '\n' or at the end of the file, no '\n' follows the end of the last chunk, and
      the first chunk holds a '\n' before its end (or is the whole file). */
  predicate SplitsAtLines(buf: seq<byte>, chunks: seq<Chunk>)
    requires |chunks| >= 1
  {
    (forall i :: 0 <= i < |chunks| ==> End(chunks[i]) == |buf| || IsAt(buf, End(chunks[i]), NewLine)) &&
    NoNewLineAfter(buf, End(chunks[|chunks| - 1])) &&
    (End(chunks[0]) == |buf| || IndexOf(buf, 0, chunks[0].length, NewLine) != -1)
  }

  /** No '\n' lies after position `e` in the file. */
  predicate NoNewLineAfter(buf: seq<byte>, e: int)
  {
    forall p :: e < p < |buf| ==> !IsAt(buf, p, NewLine)
  }

  /** Every chunk that stops short of the end of the file finding a '\n' in its lookahead
      window, and the last chunk reaching the end, is one way to split at line boundaries. */
  lemma WindowsFindNewLines(buf: seq<byte>, chunkCount: int, chunks: seq<Chunk>)
    requires 1 <= chunkCount <= |buf| && IsPlan(buf, chunkCount, chunks)
    requires forall i :: 0 <= i < |chunks| ==>
      End(chunks[i]) == |buf| || IndexOf(buf, chunks[i].offset + |buf| / chunkCount, Lookahead, NewLine) != -1
    requires End(chunks[|chunks| - 1]) == |buf|
    requires End(chunks[0]) == |buf| || IndexOf(buf, 0, chunks[0].length, NewLine) != -1
    ensures SplitsAtLines(buf, chunks)
  {
    forall i | 0 <= i < |chunks| && End(chunks[i]) < |buf|
      ensures IsAt(buf, End(chunks[i]), NewLine)
    {
      UncutChunkEnd(buf, chunkCount, chunks, i);
      var w := chunks[i].offset + |buf| / chunkCount;
      var r := IndexOf(buf, w, Lookahead, NewLine);
      assert IsAt(buf, w + r, NewLine);
    }
  }

  /** Under those conditions every chunk lies in the file and ends on a '\n' or at the end. */
  lemma ChunkEndsOnLine(buf: seq<byte>, chunkCount: int, chunks: seq<Chunk>, i: int)
    requires 1 <= chunkCount <= |buf| && IsPlan(buf, chunkCount, chunks) && SplitsAtLines(buf, chunks)
    requires 0 <= i < |chunks|
    ensures 0 <= chunks[i].offset && 0 <= chunks[i].length && End(chunks[i]) <= |buf|
    ensures End(chunks[i]) == |buf| || IsAt(buf, End(chunks[i]), NewLine)
    ensures i > 0 ==> chunks[i].offset == End(chunks[i - 1])
  {
    PlanInBounds(buf, chunkCount, chunks);
    if i > 0 {
      assert StartsAtPreviousEnd(chunks, i);
    }
  }

  /** A later chunk starts on the '\n' its predecessor ended on (or at the end of the file,
      and is then empty): it folds exactly the file's lines from just past that '\n'. */
  lemma LaterChunkFolds(buf: seq<byte>, v: Chunk)
    requires 0 <= v.offset && 0 <= v.length && End(v) <= |buf|
    requires v.offset == |buf| || IsAt(buf, v.offset, NewLine)
    requires End(v) == |buf| || IsAt(buf, End(v), NewLine)
    ensures v.length == 0 ==> FoldedOnly(buf, ChunkLines(buf, v, 0)) == []
    ensures v.length > 0 ==> FoldedOnly(buf, ChunkLines(buf, v, 0)) == FoldedOnly(buf, FileLinesBefore(buf, v.offset + 1, End(v)))
  {
    if v.length > 0 {
      NextChunkContinues(buf, v);
      FoldedOnlyCons(buf, Line(v.offset, 0), FileLinesBefore(buf, v.offset + 1, End(v)));
    }
  }

  /** Chunks that lie in the file one after the other from its start, each ending on a '\n'
      or at the end of the file, the first holding a '\n' before its end (or ending there). */
  predicate LineAligned(buf: seq<byte>, chunks: seq<Chunk>)
  {
    |chunks| >= 1 && chunks[0].offset == 0 &&
    (End(chunks[0]) == |buf| || IndexOf(buf, 0, chunks[0].length, NewLine) != -1) &&
    (forall i :: 0 <= i < |chunks| ==> 0 <= chunks[i].length && End(chunks[i]) <= |buf|) &&
    (forall i :: 0 <= i < |chunks| ==> End(chunks[i]) == |buf| || IsAt(buf, End(chunks[i]), NewLine)) &&
    (forall i :: 0 < i < |chunks| ==> chunks[i].offset == End(chunks[i - 1]))
  }

  /** A plan that splits the file at line boundaries is line-aligned. */
  lemma PlanIsLineAligned(buf: seq<byte>, chunkCount: int, chunks: seq<Chunk>)
    requires 1 <= chunkCount <= |buf| && IsPlan(buf, chunkCount, chunks) && SplitsAtLines(buf, chunks)
    ensures LineAligned(buf, chunks)
  {
    forall i | 0 <= i < |chunks|
      ensures 0 <= chunks[i].length && End(chunks[i]) <= |buf|
      ensures End(chunks[i]) == |buf| || IsAt(buf, End(chunks[i]), NewLine)
      ensures i > 0 ==> chunks[i].offset == End(chunks[i - 1])
    {
      ChunkEndsOnLine(buf, chunkCount, chunks, i);
    }
  }

  lemma FlattenSnoc<T>(xs: seq<seq<T>>, m: int)
    requires 1 <= m <= |xs|
    ensures Flatten(xs[..m]) == Flatten(xs[..m - 1]) + xs[m - 1]
  {
    assert xs[..m][..m - 1] == xs[..m - 1];
  }

  /** The first `m` chunks together fold exactly the file's lines up to the end of chunk
      `m - 1`, in file order. */
  lemma {:induction false} PrefixFolds(buf: seq<byte>, chunks: seq<Chunk>, m: int)
    requires LineAligned(buf, chunks) && 1 <= m <= |chunks|
    ensures Flatten(ChunkFoldedLines(buf, chunks)[..m]) == FoldedOnly(buf, FileLinesBefore(buf, 0, End(chunks[m - 1])))
    decreases m
  {
    var folded := ChunkFoldedLines(buf, chunks);
    FlattenSnoc(folded, m);
    if m == 1 {
      assert folded[..0] == [];
      ChunkLinesAreFileLines(buf, chunks[0], 0, 0);
    } else {
      PrefixFolds(buf, chunks, m - 1);
      PrefixStep(buf, chunks[m - 1], Flatten(folded[..m - 1]), folded[m - 1]);
    }
  }

  /** Appending a later chunk's folded lines to those up to its offset. */
  lemma PrefixStep(buf: seq<byte>, v: Chunk, before: seq<Line>, mine: seq<Line>)
    requires 0 <= v.offset && 0 <= v.length && End(v) <= |buf|
    requires v.offset == |buf| || IsAt(buf, v.offset, NewLine)
    requires End(v) == |buf| || IsAt(buf, End(v), NewLine)
    requires before == FoldedOnly(buf, FileLinesBefore(buf, 0, v.offset))
    requires mine == FoldedOnly(buf, ChunkLines(buf, v, 0))
    ensures before + mine == FoldedOnly(buf, FileLinesBefore(buf, 0, End(v)))
  {
    LaterChunkFolds(buf, v);
    if v.length > 0 {
      FileLinesSplit(buf, 0, v.offset, End(v));
    }
  }

  /** The chunks of the plan together fold every line of the file exactly once, in file
      order, when the plan splits the file at line boundaries. */
  lemma PlanCoversFile(buf: seq<byte>, chunkCount: int, chunks: seq<Chunk>)
    requires 1 <= chunkCount <= |buf| && IsPlan(buf, chunkCount, chunks) && SplitsAtLines(buf, chunks)
    ensures Flatten(ChunkFoldedLines(buf, chunks)) == FoldedOnly(buf, FileLines(buf))
  {
    PlanIsLineAligned(buf, chunkCount, chunks);
    PrefixFolds(buf, chunks, |chunks|);
    assert ChunkFoldedLines(buf, chunks)[..|chunks|] == ChunkFoldedLines(buf, chunks);
    var e := End(chunks[|chunks| - 1]);
    if e < |buf| {
      FileLinesSplit(buf, 0, e, |buf|);
      NoLinesAfter(buf, e);
    }
  }

  /** With no '\n' after position `e`, no line of the file starts after it. */
  lemma NoLinesAfter(buf: seq<byte>, e: int)
    requires NoNewLineAfter(buf, e)
    ensures FileLinesBefore(buf, e + 1, |buf|) == []
  {
  }

  /** Lines that are not folded contribute no observation. */
  lemma {:induction false} ObservationsOfFolded(buf: seq<byte>, lines: seq<Line>, k: Name, parse: seq<byte> -> int)
    ensures Observations(buf, lines, k, parse) == Observations(buf, FoldedOnly(buf, lines), k, parse)
    decreases |lines|
  {
    if lines != [] {
      ObservationsOfFolded(buf, lines[1..], k, parse);
      var head: seq<Line> := if Folded(buf, lines[0]) then [lines[0]] else [];
      ObservationsAppend(buf, head, FoldedOnly(buf, lines[1..]), k, parse);
      if head != [] {
        assert ([lines[0]] + FoldedOnly(buf, lines[1..]))[1..] == FoldedOnly(buf, lines[1..]);
        assert head[1..] == [];
      }
    }
  }

  lemma {:induction false} ObservationsAppend(buf: seq<byte>, a: seq<Line>, b: seq<Line>, k: Name, parse: seq<byte> -> int)
    ensures Observations(buf, a + b, k, parse) == Observations(buf, a, k, parse) + Observations(buf, b, k, parse)
    decreases |a|
  {
    if a == [] {
      assert a + b == b;
    } else {
      assert (a + b)[0] == a[0] && (a + b)[1..] == a[1..] + b;
      ObservationsAppend(buf, a[1..], b, k, parse);
    }
  }

  /** The folded count is the number of folded lines. */
  lemma {:induction false} FoldedCountIsLength(buf: seq<byte>, lines: seq<Line>)
    ensures FoldedCount(buf, lines) == |FoldedOnly(buf, lines)|
    decreases |lines|
  {
    if lines != [] {
      FoldedCountIsLength(buf, lines[1..]);
    }
  }

  /** Observing each run and concatenating is observing the concatenation. */
  lemma {:induction false} FlattenObservations(buf: seq<byte>, runs: seq<seq<Line>>, obs: seq<seq<int>>, k: Name, parse: seq<byte> -> int)
    requires |obs| == |runs|
    requires forall i :: 0 <= i < |runs| ==> obs[i] == Observations(buf, runs[i], k, parse)
    ensures Flatten(obs) == Observations(buf, Flatten(runs), k, parse)
    decreases |runs|
  {
    var n := |runs|;
    if n > 0 {
      FlattenObservations(buf, runs[..n - 1], obs[..n - 1], k, parse);
      ObservationsAppend(buf, Flatten(runs[..n - 1]), runs[n - 1], k, parse);
    }
  }

  /** Summing the run lengths is the length of the concatenation. */
  lemma {:induction false} FlattenLength<T>(runs: seq<seq<T>>, counts: seq<int>)
    requires |counts| == |runs|
    requires forall i :: 0 <= i < |runs| ==> counts[i] == |runs[i]|
    ensures Sum(counts) == |Flatten(runs)|
    decreases |runs|
  {
    var n := |runs|;
    if n > 0 {
      FlattenLength(runs[..n - 1], counts[..n - 1]);
      assert counts == counts[..n - 1] + [counts[n - 1]];
      SumAppend(counts[..n - 1], [counts[n - 1]]);
      assert Sum([counts[n - 1]]) == counts[n - 1] + Sum([]);
    }
  }

  /** When the plan splits the file at line boundaries, the merged result is the statistics of
      the whole file: each station's entry is the default with that station's readings folded
      in, in file order; a station has an entry exactly when some line of the file names it;
      and the table holds one reading per folded line of the file. */
  lemma ResultIsFileStatistics(buf: seq<byte>, chunkCount: int, chunks: seq<Chunk>, k: Name, parse: seq<byte> -> int)
    requires 1 <= chunkCount <= |buf| && IsPlan(buf, chunkCount, chunks) && SplitsAtLines(buf, chunks)
    ensures var result, obs := FoldTables(ScanAll(buf, chunks, parse)), Observations(buf, FileLines(buf), k, parse);
      Get(result, k) == Accumulate(Default, obs) && (k in result <==> |obs| > 0)
    ensures TotalCount(FoldTables(ScanAll(buf, chunks, parse))) == FoldedCount(buf, FileLines(buf))
  {
    var folded := ChunkFoldedLines(buf, chunks);
    PlanCoversFile(buf, chunkCount, chunks);
    forall i | 0 <= i < |chunks|
      ensures ChunkObservations(buf, chunks, k, parse)[i] == Observations(buf, folded[i], k, parse)
      ensures ChunkFoldedCounts(buf, chunks)[i] == |folded[i]|
    {
      ObservationsOfFolded(buf, ChunkLines(buf, chunks[i], 0), k, parse);
      FoldedCountIsLength(buf, ChunkLines(buf, chunks[i], 0));
    }
    AggregatePerKey(buf, chunks, k, parse);
    FlattenObservations(buf, folded, ChunkObservations(buf, chunks, k, parse), k, parse);
    ObservationsOfFolded(buf, FileLines(buf), k, parse);
    AggregateTotal(buf, chunks, parse);
    FlattenLength(folded, ChunkFoldedCounts(buf, chunks));
    FoldedCountIsLength(buf, FileLines(buf));
  }

  /** "a;1\nb;2\nc;3\n" on two processors: the plan is (0, 7), (7, 5) and it splits the file
      at line boundaries, so the result is the statistics of the whole file. */
  lemma ThreeLinesOnTwoProcessors()
    ensures var buf: seq<byte> := [97, 59, 49, 10, 98, 59, 50, 10, 99, 59, 51, 10];
      IsPlan(buf, 2, [Chunk(0, 7), Chunk(7, 5)]) && SplitsAtLines(buf, [Chunk(0, 7), Chunk(7, 5)])
  {
    var buf: seq<byte> := [97, 59, 49, 10, 98, 59, 50, 10, 99, 59, 51, 10];
    IndexOfIsFirst(buf, 6, Lookahead, NewLine, 7);
    IndexOfIsFirst(buf, 0, 7, NewLine, 3);
    assert IndexOf(buf, 13, Lookahead, NewLine) == -1 by {
      FirstFromIsFirst(buf, 13, 13 + Lookahead, NewLine);
    }
  }

  /** "a;1\nb;2\n" on one processor: the plan is the single chunk (0, 7), which ends on the
      final '\n' and holds the first one, so both lines are folded. */
  lemma TwoLinesOnOneProcessor()
    ensures var buf: seq<byte> := [97, 59, 49, 10, 98, 59, 50, 10];
      IsPlan(buf, 1, [Chunk(0, 7)]) && SplitsAtLines(buf, [Chunk(0, 7)])
  {
    var buf: seq<byte> := [97, 59, 49, 10, 98, 59, 50, 10];
    assert IndexOf(buf, 8, Lookahead, NewLine) == -1 by {
      FirstFromIsFirst(buf, 8, 8 + Lookahead, NewLine);
    }
    IndexOfIsFirst(buf, 0, 7, NewLine, 3);
  }

  /** "a;1\nbb\nc;3\n" on two processors: the plan is (0, 6), (6, 4). The last chunk is not
      cut: its window finds no '\n' and it ends on the final '\n', so every line is still
      visited. */
  lemma LastChunkEndsOnFinalNewLine()
    ensures var buf: seq<byte> := [97, 59, 49, 10, 98, 98, 10, 99, 59, 51, 10];
      IsPlan(buf, 2, [Chunk(0, 6), Chunk(6, 4)]) && SplitsAtLines(buf, [Chunk(0, 6), Chunk(6, 4)])
  {
    var buf: seq<byte> := [97, 59, 49, 10, 98, 98, 10, 99, 59, 51, 10];
    var chunks := [Chunk(0, 6), Chunk(6, 4)];
    IndexOfIsFirst(buf, 5, Lookahead, NewLine, 6);
    assert IndexOf(buf, 11, Lookahead, NewLine) == -1 by {
      FirstFromIsFirst(buf, 11, 11 + Lookahead, NewLine);
    }
    assert IsPlan(buf, 2, chunks) by {
      assert PlannedAt(buf, 5, chunks[0]) && PlannedAt(buf, 5, chunks[1]);
      assert StartsAtPreviousEnd(chunks, 1);
    }
    IndexOfIsFirst(buf, 0, 6, NewLine, 3);
  }

  /** "abc;1\nx;2\n" on two processors: the plan is (0, 5), (5, 4). The first line ends where
      the first chunk ends, so it is visited by neither chunk; the second chunk visits the
      boundary '\n' and "x;2". */
  lemma LongFirstLineExample()
    ensures var buf: seq<byte> := [97, 98, 99, 59, 49, 10, 120, 59, 50, 10];
      var chunks := [Chunk(0, 5), Chunk(5, 4)];
      IsPlan(buf, 2, chunks) && FileLines(buf) != [] && FileLines(buf)[0] == Line(0, 5) &&
      ChunkLines(buf, chunks[0], 0) == [] && ChunkLines(buf, chunks[1], 0) == [Line(5, 0), Line(6, 3)]
  {
    var buf: seq<byte> := [97, 98, 99, 59, 49, 10, 120, 59, 50, 10];
    var chunks := [Chunk(0, 5), Chunk(5, 4)];
    IndexOfIsFirst(buf, 5, Lookahead, NewLine, 5);
    assert IndexOf(buf, 10, Lookahead, NewLine) == -1 by {
      FirstFromIsFirst(buf, 10, 10 + Lookahead, NewLine);
    }
    assert IsPlan(buf, 2, chunks) by {
      assert PlannedAt(buf, 5, chunks[0]) && PlannedAt(buf, 5, chunks[1]);
      assert StartsAtPreviousEnd(chunks, 1);
    }
    LongFirstLineIsLost(buf, 2, chunks);
    assert IndexOf(buf, 0, 5, NewLine) == -1 by {
      FirstFromIsFirst(buf, 0, 5, NewLine);
    }
    IndexOfIsFirst(buf, 6, 4, NewLine, 9);
    assert IndexOf(buf, 10, 4, NewLine) == -1 by {
      FirstFromIsFirst(buf, 10, 14, NewLine);
    }
  }

  /** When the first chunk is not cut and holds no '\n' before its end, the first line of the
      file ends exactly where that chunk ends, and no chunk visits it: the first chunk's window
      stops one byte short of its '\n', and every later chunk starts after it. */
  lemma LongFirstLineIsLost(buf: seq<byte>, chunkCount: int, chunks: seq<Chunk>)
    requires 1 <= chunkCount <= |buf| && IsPlan(buf, chunkCount, chunks)
    requires End(chunks[0]) < |buf| && IndexOf(buf, 0, chunks[0].length, NewLine) == -1
    requires IndexOf(buf, |buf| / chunkCount, Lookahead, NewLine) != -1
    ensures FileLines(buf) != [] && FileLines(buf)[0] == Line(0, End(chunks[0]))
    ensures forall i, j :: 0 <= i < |chunks| && 0 <= j < |ChunkLines(buf, chunks[i], 0)| ==>
      ChunkLines(buf, chunks[i], 0)[j].start != 0
  {
    FirstLineEndsWithFirstChunk(buf, chunkCount, chunks);
    forall i, j | 0 <= i < |chunks| && 0 <= j < |ChunkLines(buf, chunks[i], 0)|
      ensures ChunkLines(buf, chunks[i], 0)[j].start != 0
    {
      NoChunkVisitsStart(buf, chunkCount, chunks, i);
    }
  }

  lemma FirstLineEndsWithFirstChunk(buf: seq<byte>, chunkCount: int, chunks: seq<Chunk>)
    requires 1 <= chunkCount <= |buf| && IsPlan(buf, chunkCount, chunks)
    requires End(chunks[0]) < |buf| && IndexOf(buf, 0, chunks[0].length, NewLine) == -1
    requires IndexOf(buf, |buf| / chunkCount, Lookahead, NewLine) != -1
    ensures FileLines(buf) != [] && FileLines(buf)[0] == Line(0, End(chunks[0]))
  {
    var e := FirstChunkEndsOnNewLine(buf, chunkCount, chunks);
    FirstNewLineAt(buf, e);
    FileLinesHead(buf, 0, |buf|, e);
  }

  /** Under the same conditions the first chunk ends on a '\n' and holds none. */
  lemma FirstChunkEndsOnNewLine(buf: seq<byte>, chunkCount: int, chunks: seq<Chunk>) returns (e: int)
    requires 1 <= chunkCount <= |buf| && IsPlan(buf, chunkCount, chunks)
    requires End(chunks[0]) < |buf| && IndexOf(buf, 0, chunks[0].length, NewLine) == -1
    requires IndexOf(buf, |buf| / chunkCount, Lookahead, NewLine) != -1
    ensures e == End(chunks[0]) && 0 <= e < |buf| && IsAt(buf, e, NewLine)
    ensures forall q :: 0 <= q < e ==> !IsAt(buf, q, NewLine)
  {
    e := End(chunks[0]);
    assert PlannedAt(buf, |buf| / chunkCount, chunks[0]);
    UncutChunkEnd(buf, chunkCount, chunks, 0);
  }

  /** A '\n' with none before it is the first one FirstFrom finds from the start of the file. */
  lemma FirstNewLineAt(buf: seq<byte>, e: int)
    requires 0 <= e < |buf| && IsAt(buf, e, NewLine)
    requires forall q :: 0 <= q < e ==> !IsAt(buf, q, NewLine)
    ensures FirstFrom(buf, 0, |buf|, NewLine) == e
  {
    FirstFromIsFirst(buf, 0, |buf|, NewLine);
  }

  lemma NoChunkVisitsStart(buf: seq<byte>, chunkCount: int, chunks: seq<Chunk>, i: int)
    requires 1 <= chunkCount <= |buf| && IsPlan(buf, chunkCount, chunks) && 0 <= i < |chunks|
    requires End(chunks[0]) < |buf| && IndexOf(buf, 0, chunks[0].length, NewLine) == -1
    requires IndexOf(buf, |buf| / chunkCount, Lookahead, NewLine) != -1
    ensures forall j :: 0 <= j < |ChunkLines(buf, chunks[i], 0)| ==> ChunkLines(buf, chunks[i], 0)[j].start != 0
  {
    if i == 0 {
      assert chunks[0].offset == 0;
      assert ChunkLines(buf, chunks[0], 0) == [];
    } else {
      LaterChunksStartAfterFirst(buf, chunkCount, chunks, i);
      assert End(chunks[0]) >= 1 by {
        DivAtLeastOne(|buf|, chunkCount);
        assert PlannedAt(buf, |buf| / chunkCount, chunks[0]);
      }
      LinesStartInChunk(buf, chunks[i]);
    }
  }

  lemma LinesStartInChunk(buf: seq<byte>, v: Chunk)
    ensures forall j :: 0 <= j < |ChunkLines(buf, v, 0)| ==> ChunkLines(buf, v, 0)[j].start >= v.offset
  {
    ChunkLinesOfChunk(buf, v, 0);
  }

  lemma {:induction false} LaterChunksStartAfterFirst(buf: seq<byte>, chunkCount: int, chunks: seq<Chunk>, i: int)
    requires 1 <= chunkCount <= |buf| && IsPlan(buf, chunkCount, chunks) && 1 <= i < |chunks|
    ensures chunks[i].offset >= End(chunks[0])
    decreases i
  {
    assert StartsAtPreviousEnd(chunks, i);
    if i > 1 {
      LaterChunksStartAfterFirst(buf, chunkCount, chunks, i - 1);
      PlanInBounds(buf, chunkCount, chunks);
    }
  }
}
