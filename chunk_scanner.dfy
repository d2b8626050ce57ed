/** GetResult: the line-by-line scan of one chunk into a per-chunk table. */
module ChunkScanner {
  import opened Bytes
  import opened Accumulators
  import opened Keys
  import opened Tables
  import opened ChunkPlanner

  /** A line the cursor finds: it starts at file position `start` and its '\n' is
      `newLineIndex` bytes on. */
  datatype Line = Line(start: int, newLineIndex: int)

  /** The bytes of the line lie inside the file and it ends with a '\n'. */
  predicate LineInBuffer(buf: seq<byte>, l: Line)
  {
    0 <= l.start && 0 <= l.newLineIndex && IsAt(buf, l.start + l.newLineIndex, NewLine)
  }

  /** A line found in chunk `v`: it starts inside the chunk and its '\n' is the first one of
      the `v.length`-byte window that starts with the line. */
  predicate LineOfChunk(buf: seq<byte>, v: Chunk, l: Line)
  {
    v.offset <= l.start && l.start - v.offset < v.length &&
    0 <= l.newLineIndex < v.length &&
    IsAt(buf, l.start + l.newLineIndex, NewLine) &&
    (forall p :: l.start <= p < l.start + l.newLineIndex ==> !IsAt(buf, p, NewLine))
  }

  /** Line `j` starts right after the '\n' of line `j - 1`. */
  predicate Follows(lines: seq<Line>, j: int)
    requires 0 < j < |lines|
  {
    lines[j].start == lines[j - 1].start + lines[j - 1].newLineIndex + 1
  }

  /** Where the cursor stands after the lines: just past the last '\n' found. */
  function CursorAfter(start: int, lines: seq<Line>): int
  {
    if lines == [] then start else lines[|lines| - 1].start + lines[|lines| - 1].newLineIndex + 1
  }

  /** The lines the cursor of GetResult visits in chunk `v` from relative position `offset`:
      it stops once it is `v.length` bytes into the chunk, or when the `v.length`-byte window
      from the cursor holds no '\n'. ChunkLinesShape states what the lines are. */
  function ChunkLines(buf: seq<byte>, v: Chunk, offset: int): seq<Line>
    decreases v.length - offset
  {
    var fileOffset := v.offset + offset;
    if fileOffset - v.offset >= v.length then []
    else
      var newLineIndex := IndexOf(buf, fileOffset, v.length, NewLine);
      if newLineIndex == -1 then []
      else [Line(fileOffset, newLineIndex)] + ChunkLines(buf, v, offset + newLineIndex + 1)
  }

  /** The visited lines start at the cursor and follow each other; each starts inside the
      chunk and ends at the first '\n' of its window; and where the cursor stops, either it
      has passed the chunk or its window holds no '\n', so the bytes from there on (a
      trailing fragment) are in no line. */
  lemma ChunkLinesShape(buf: seq<byte>, v: Chunk, offset: int)
    requires 0 <= offset
    ensures var lines := ChunkLines(buf, v, offset);
      (lines != [] ==> lines[0].start == v.offset + offset) &&
      (forall j :: 0 <= j < |lines| ==> LineOfChunk(buf, v, lines[j])) &&
      (forall j :: 0 < j < |lines| ==> Follows(lines, j)) &&
      var c := CursorAfter(v.offset + offset, lines);
      c - v.offset >= v.length || forall p :: c <= p < c + v.length ==> !IsAt(buf, p, NewLine)
  {
    ChunkLinesOfChunk(buf, v, offset);
    ChunkLinesFollow(buf, v, offset);
    ChunkLinesStop(buf, v, offset);
  }

  /** The first round: either there are no lines from `offset`, or the first one is at the
      cursor and the rest start at `next`. */
  lemma ChunkLinesHead(buf: seq<byte>, v: Chunk, offset: int, fileOffset: int, newLineIndex: int, next: int)
    requires fileOffset == v.offset + offset && fileOffset - v.offset < v.length
    requires newLineIndex == IndexOf(buf, fileOffset, v.length, NewLine) && newLineIndex != -1
    requires next == offset + newLineIndex + 1
    ensures ChunkLines(buf, v, offset) == [Line(fileOffset, newLineIndex)] + ChunkLines(buf, v, next)
  {
  }

  lemma {:induction false} ChunkLinesOfChunk(buf: seq<byte>, v: Chunk, offset: int)
    requires 0 <= offset
    ensures var lines := ChunkLines(buf, v, offset);
      (lines != [] ==> lines[0].start == v.offset + offset) &&
      forall j :: 0 <= j < |lines| ==> LineOfChunk(buf, v, lines[j])
    decreases v.length - offset
  {
    var fileOffset := v.offset + offset;
    if fileOffset - v.offset < v.length {
      var newLineIndex := IndexOf(buf, fileOffset, v.length, NewLine);
      if newLineIndex != -1 {
        var next := offset + newLineIndex + 1;
        ChunkLinesOfChunk(buf, v, next);
        ChunkLinesHead(buf, v, offset, fileOffset, newLineIndex, next);
        assert LineOfChunk(buf, v, Line(fileOffset, newLineIndex));
      }
    }
  }

  lemma {:induction false} ChunkLinesFollow(buf: seq<byte>, v: Chunk, offset: int)
    requires 0 <= offset
    ensures var lines := ChunkLines(buf, v, offset);
      (lines != [] ==> lines[0].start == v.offset + offset) &&
      forall j :: 0 < j < |lines| ==> Follows(lines, j)
    decreases v.length - offset
  {
    var fileOffset := v.offset + offset;
    if fileOffset - v.offset < v.length {
      var newLineIndex := IndexOf(buf, fileOffset, v.length, NewLine);
      if newLineIndex != -1 {
        var next := offset + newLineIndex + 1;
        ChunkLinesFollow(buf, v, next);
        ChunkLinesHead(buf, v, offset, fileOffset, newLineIndex, next);
        FollowsPrepend(Line(fileOffset, newLineIndex), ChunkLines(buf, v, next));
      }
    }
  }

  lemma {:induction false} ChunkLinesStop(buf: seq<byte>, v: Chunk, offset: int)
    requires 0 <= offset
    ensures var c := CursorAfter(v.offset + offset, ChunkLines(buf, v, offset));
      c - v.offset >= v.length || forall p :: c <= p < c + v.length ==> !IsAt(buf, p, NewLine)
    decreases v.length - offset
  {
    var fileOffset := v.offset + offset;
    if fileOffset - v.offset < v.length {
      var newLineIndex := IndexOf(buf, fileOffset, v.length, NewLine);
      if newLineIndex != -1 {
        var next := offset + newLineIndex + 1;
        ChunkLinesStop(buf, v, next);
        ChunkLinesHead(buf, v, offset, fileOffset, newLineIndex, next);
        var rest := ChunkLines(buf, v, next);
        assert CursorAfter(v.offset + offset, [Line(fileOffset, newLineIndex)] + rest) == CursorAfter(v.offset + next, rest);
      }
    }
  }

  lemma FollowsPrepend(l: Line, rest: seq<Line>)
    requires rest != [] ==> rest[0].start == l.start + l.newLineIndex + 1
    requires forall j :: 0 < j < |rest| ==> Follows(rest, j)
    ensures forall j :: 0 < j < |[l] + rest| ==> Follows([l] + rest, j)
  {
    var lines := [l] + rest;
    forall j | 0 < j < |lines|
      ensures Follows(lines, j)
    {
      if j > 1 {
        assert Follows(rest, j - 1);
      }
    }
  }

  /** The index of the first ';' in the line, its '\n' included (-1 when there is none). */
  function DelimiterIndex(buf: seq<byte>, l: Line): int
  {
    IndexOf(buf, l.start, l.newLineIndex + 1, Delimiter)
  }

  /** The scanner folds a line exactly when it is not empty and holds a ';'. (Every line the
      cursor visits lies in the file, see ChunkLinesShape; the first conjunct only makes
      the name and value bytes well defined.) */
  predicate Folded(buf: seq<byte>, l: Line)
  {
    LineInBuffer(buf, l) && l.newLineIndex > 0 && DelimiterIndex(buf, l) != -1
  }

  /** The key GetResult builds for a folded line: the bytes before the first ';', with the
      null pointer `fixed` gives for an empty name. */
  function LineKey(buf: seq<byte>, l: Line): (k: DictionaryKey)
    requires Folded(buf, l)
    ensures Valid(buf, k) && k.length == DelimiterIndex(buf, l)
    ensures k.pointer.Null? <==> k.length == 0
  {
    var d := DelimiterIndex(buf, l);
    DictionaryKey(if d == 0 then Null else At(l.start), d)
  }

  /** The station name of a folded line: what its key views. */
  function NameOf(buf: seq<byte>, l: Line): (name: Name)
    requires Folded(buf, l)
    ensures |name| < l.newLineIndex + 1
    ensures forall i :: 0 <= i < |name| ==> name[i] != Delimiter
    ensures name + [Delimiter] == buf[l.start .. l.start + |name| + 1]
  {
    var d := DelimiterIndex(buf, l);
    var name := buf[l.start .. l.start + d];
    assert forall i :: 0 <= i < |name| ==> name[i] == buf[l.start + i] && !IsAt(buf, l.start + i, Delimiter);
    name
  }

  /** The key GetResult builds views exactly the name. */
  lemma LineKeyViewsName(buf: seq<byte>, l: Line)
    requires Folded(buf, l)
    ensures Value(buf, LineKey(buf, l)) == NameOf(buf, l)
  {
  }

  /** The bytes handed to the parser: from after the ';' to the end of the line, '\n' included. */
  function ValueBytes(buf: seq<byte>, l: Line): (s: seq<byte>)
    requires Folded(buf, l)
    ensures |s| >= 1 && s[|s| - 1] == NewLine
    ensures buf[l.start .. l.start + l.newLineIndex + 1] == NameOf(buf, l) + [Delimiter] + s
  {
    var d := DelimiterIndex(buf, l);
    var s := buf[l.start + d + 1 .. l.start + l.newLineIndex + 1];
    assert buf[l.start .. l.start + l.newLineIndex + 1] == buf[l.start .. l.start + d + 1] + s;
    assert s[|s| - 1] == buf[l.start + l.newLineIndex];
    s
  }

  /** What one visited line does to the table. A skipped line leaves it as it is; otherwise only
      the entry of the line's name changes, arriving at Calculate(value) of its old value (or of
      the default for a new name), so its count goes up by exactly one. */
  function Step(buf: seq<byte>, entries: map<Name, ResultData>, l: Line, parse: seq<byte> -> int): (r: map<Name, ResultData>)
    ensures !Folded(buf, l) ==> r == entries
    ensures Folded(buf, l) ==>
      var name := NameOf(buf, l);
      r.Keys == entries.Keys + {name} &&
      Get(r, name) == Get(entries, name).CalculateValue(parse(ValueBytes(buf, l))) &&
      Get(r, name).count == Get(entries, name).count + 1 &&
      forall k :: k != name ==> Get(r, k) == Get(entries, k)
  {
    if Folded(buf, l) then
      var name := NameOf(buf, l);
      entries[name := Get(entries, name).CalculateValue(parse(ValueBytes(buf, l)))]
    else entries
  }

  /** The table after the visited lines, one Step each, in order. */
  function FoldLines(buf: seq<byte>, entries: map<Name, ResultData>, lines: seq<Line>, parse: seq<byte> -> int): map<Name, ResultData>
    decreases |lines|
  {
    if lines == [] then entries
    else FoldLines(buf, Step(buf, entries, lines[0], parse), lines[1..], parse)
  }

  /** The per-chunk table GetResult returns. */
  function ScanChunk(buf: seq<byte>, v: Chunk, parse: seq<byte> -> int): map<Name, ResultData>
  {
    FoldLines(buf, map[], ChunkLines(buf, v, 0), parse)
  }

  /** The value one line contributes to station `k`: its reading when it is folded and names
      `k`, nothing otherwise. */
  function Observed(buf: seq<byte>, l: Line, k: Name, parse: seq<byte> -> int): seq<int>
  {
    if Folded(buf, l) && NameOf(buf, l) == k then [parse(ValueBytes(buf, l))] else []
  }

  /** The values the lines contribute to station `k`, in order. */
  function Observations(buf: seq<byte>, lines: seq<Line>, k: Name, parse: seq<byte> -> int): seq<int>
    decreases |lines|
  {
    if lines == [] then [] else Observed(buf, lines[0], k, parse) + Observations(buf, lines[1..], k, parse)
  }

  /** The number of lines that are folded. */
  function FoldedCount(buf: seq<byte>, lines: seq<Line>): nat
    decreases |lines|
  {
    if lines == [] then 0 else (if Folded(buf, lines[0]) then 1 else 0) + FoldedCount(buf, lines[1..])
  }

  /** Folding lines into a table, station by station: the entry for `k` is the old entry (or
      the default) with the observations of `k` folded in, in order; and `k` has an entry
      exactly when it had one or some line is about `k`. */
  lemma {:induction false} FoldLinesPerKey(buf: seq<byte>, t: map<Name, ResultData>, lines: seq<Line>, k: Name, parse: seq<byte> -> int)
    ensures Get(FoldLines(buf, t, lines, parse), k) == Accumulate(Get(t, k), Observations(buf, lines, k, parse))
    ensures k in FoldLines(buf, t, lines, parse) <==> k in t || |Observations(buf, lines, k, parse)| > 0
    decreases |lines|
  {
    if lines != [] {
      var l := lines[0];
      var t' := Step(buf, t, l, parse);
      FoldLinesPerKey(buf, t', lines[1..], k, parse);
      var first := Observed(buf, l, k, parse);
      var rest := Observations(buf, lines[1..], k, parse);
      assert Observations(buf, lines, k, parse) == first + rest;
      assert Get(t', k) == Accumulate(Get(t, k), first) by {
        if first != [] {
          assert Accumulate(Get(t, k), first) == Accumulate(Get(t, k).CalculateValue(first[0]), first[1..]);
        }
      }
      AccumulateAppend(Get(t, k), first, rest);
    }
  }

  /** Every folded line adds exactly one observation to the table, and no other line adds any. */
  lemma {:induction false} FoldLinesCount(buf: seq<byte>, t: map<Name, ResultData>, lines: seq<Line>, parse: seq<byte> -> int)
    ensures TotalCount(FoldLines(buf, t, lines, parse)) == TotalCount(t) + FoldedCount(buf, lines)
    decreases |lines|
  {
    if lines != [] {
      var l := lines[0];
      if Folded(buf, l) {
        var name := NameOf(buf, l);
        CountAfterUpdate(t, name, Get(t, name).CalculateValue(parse(ValueBytes(buf, l))));
      }
      FoldLinesCount(buf, Step(buf, t, l, parse), lines[1..], parse);
    }
  }

  /** The per-chunk table, station by station: each entry is the default with the station's
      observations in the chunk folded in, and there is an entry exactly for the stations
      some folded line of the chunk names. */
  lemma ScanChunkPerKey(buf: seq<byte>, v: Chunk, k: Name, parse: seq<byte> -> int)
    ensures var obs := Observations(buf, ChunkLines(buf, v, 0), k, parse);
      Get(ScanChunk(buf, v, parse), k) == Accumulate(Default, obs) &&
      (k in ScanChunk(buf, v, parse) <==> |obs| > 0)
  {
    FoldLinesPerKey(buf, map[], ChunkLines(buf, v, 0), k, parse);
  }

  /** The per-chunk table holds one observation per folded line of the chunk. */
  lemma ScanChunkCount(buf: seq<byte>, v: Chunk, parse: seq<byte> -> int)
    ensures TotalCount(ScanChunk(buf, v, parse)) == FoldedCount(buf, ChunkLines(buf, v, 0))
  {
    FoldLinesCount(buf, map[], ChunkLines(buf, v, 0), parse);
    assert TotalCount(map[]) == 0;
  }

  /** A chunk that starts on a '\n' (every chunk after the first, see UncutChunkEnd) visits it
      as an empty line and skips it: the table is that of the lines after it. */
  lemma BoundaryNewLineSkipped(buf: seq<byte>, v: Chunk, parse: seq<byte> -> int)
    requires 0 < v.length && IsAt(buf, v.offset, NewLine)
    ensures ChunkLines(buf, v, 0) == [Line(v.offset, 0)] + ChunkLines(buf, v, 1)
    ensures !Folded(buf, Line(v.offset, 0))
    ensures ScanChunk(buf, v, parse) == FoldLines(buf, map[], ChunkLines(buf, v, 1), parse)
  {
    var newLineIndex := IndexOf(buf, v.offset, v.length, NewLine);
    IndexOfIsFirst(buf, v.offset, v.length, NewLine, v.offset);
    ChunkLinesHead(buf, v, 0, v.offset, newLineIndex, 1);
    assert ([Line(v.offset, 0)] + ChunkLines(buf, v, 1))[1..] == ChunkLines(buf, v, 1);
  }

  /** A chunk with no '\n' in its `v.length`-byte window folds nothing. */
  lemma NoNewLineFoldsNothing(buf: seq<byte>, v: Chunk, parse: seq<byte> -> int)
    requires forall p :: v.offset <= p < v.offset + v.length ==> !IsAt(buf, p, NewLine)
    ensures ChunkLines(buf, v, 0) == []
    ensures ScanChunk(buf, v, parse) == map[]
  {
  }

  /** One round of the cursor: the lines still to visit from `offset` are the one found at the
      cursor, then the lines from `next`, just past its '\n'; folding them is one Step, then
      the rest. */
  lemma ChunkLinesUnfold(buf: seq<byte>, v: Chunk, offset: int, fileOffset: int, newLineIndex: int, next: int,
                         entries: map<Name, ResultData>, parse: seq<byte> -> int)
    requires 0 <= v.offset && 0 <= offset < v.length && fileOffset == v.offset + offset
    requires newLineIndex == IndexOf(buf, fileOffset, v.length, NewLine) && newLineIndex != -1
    requires next == offset + newLineIndex + 1
    ensures FoldLines(buf, entries, ChunkLines(buf, v, offset), parse) ==
      FoldLines(buf, Step(buf, entries, Line(fileOffset, newLineIndex), parse), ChunkLines(buf, v, next), parse)
  {
    var l := Line(fileOffset, newLineIndex);
    var rest := ChunkLines(buf, v, next);
    assert ChunkLines(buf, v, offset) == [l] + rest;
    assert ([l] + rest)[1..] == rest;
  }

  /** A folded line, in the source's own terms: the key GetResult builds, the bytes it parses
      and the entry it writes back make exactly Step. */
  lemma StoreIsStep(buf: seq<byte>, entries: map<Name, ResultData>, fileOffset: int, newLineIndex: int,
                    delimiterIndex: int, name: DictionaryKey, value: int, parse: seq<byte> -> int)
    requires 0 <= fileOffset && 0 < newLineIndex && IsAt(buf, fileOffset + newLineIndex, NewLine)
    requires delimiterIndex == IndexOf(buf, fileOffset, newLineIndex + 1, Delimiter) && delimiterIndex != -1
    requires name == DictionaryKey(if delimiterIndex == 0 then Null else At(fileOffset), delimiterIndex)
    requires value == parse(buf[fileOffset + delimiterIndex + 1 .. fileOffset + newLineIndex + 1])
    ensures Valid(buf, name)
    ensures Step(buf, entries, Line(fileOffset, newLineIndex), parse) ==
      entries[Value(buf, name) := Get(entries, Value(buf, name)).CalculateValue(value)]
  {
    LineKeyViewsName(buf, Line(fileOffset, newLineIndex));
  }

  /** Storing through the ref overwrites the default GetValueRefOrAddDefault may have added. */
  lemma UpdateAfterDefault(m: map<Name, ResultData>, k: Name, x: ResultData, found: bool)
    ensures (if found then m else m[k := Default])[k := x] == m[k := x]
  {
  }

  /** GetResult((offset, length) v): the cursor loop over the chunk. The span it searches is
      `(int)v.length` bytes long, so the chunk length must fit an `int`. */
  method GetResult(buf: seq<byte>, v: Chunk, parse: seq<byte> -> int) returns (result: Table)
    requires 0 <= v.offset && v.length <= Int32Max
    ensures fresh(result)
    ensures result.entries == ScanChunk(buf, v, parse)
  {
    result := new Table();
    var offset := 0;
    while true
      invariant 0 <= offset
      invariant FoldLines(buf, result.entries, ChunkLines(buf, v, offset), parse) == ScanChunk(buf, v, parse)
      decreases v.length - offset
    {
      var fileOffset := v.offset + offset;
      if fileOffset - v.offset >= v.length {
        break;
      }
      var newLineIndex := IndexOf(buf, fileOffset, v.length, NewLine);
      if newLineIndex == -1 {
        break;
      }
      ghost var before := result.entries;
      FoldLine(buf, result, fileOffset, newLineIndex, parse);
      ghost var previous := offset;
      offset := offset + newLineIndex + 1;
      ChunkLinesUnfold(buf, v, previous, fileOffset, newLineIndex, offset, before, parse);
    }
  }

  /** The body of GetResult's loop for the line at `fileOffset` whose '\n' is `newLineIndex`
      bytes on: a line with a ';' adds its reading to the table. */
  method FoldLine(buf: seq<byte>, result: Table, fileOffset: int, newLineIndex: int, parse: seq<byte> -> int)
    requires 0 <= fileOffset && 0 <= newLineIndex && IsAt(buf, fileOffset + newLineIndex, NewLine)
    modifies result
    ensures result.entries == Step(buf, old(result.entries), Line(fileOffset, newLineIndex), parse)
  {
    ghost var before := result.entries;
    if newLineIndex > 0 {
      var delimiterIndex := IndexOf(buf, fileOffset, newLineIndex + 1, Delimiter);
      if delimiterIndex != -1 {
        var name := DictionaryKey(if delimiterIndex == 0 then Null else At(fileOffset), delimiterIndex);
        var value := parse(buf[fileOffset + delimiterIndex + 1 .. fileOffset + newLineIndex + 1]);
        var resultDict, found := result.GetValueRefOrAddDefault(Value(buf, name));
        result.Store(Value(buf, name), resultDict.CalculateValue(value));
        UpdateAfterDefault(before, Value(buf, name), resultDict.CalculateValue(value), found);
        StoreIsStep(buf, before, fileOffset, newLineIndex, delimiterIndex, name, value, parse);
      }
    }
  }
}
