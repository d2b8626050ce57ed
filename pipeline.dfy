/** The body of Main: plan the chunks, build one table per chunk, merge them with
    AggregateResult, order the merged table by name and print it. */
module Pipeline {
  import opened Bytes
  import opened Accumulators
  import opened Tables
  import opened ChunkPlanner
  import opened ChunkScanner
  import opened Merger
  import opened Formatter

  /** `chunks.AsParallel().Select(GetResult)`: the table of each chunk. */
  function ScanAll(buf: seq<byte>, chunks: seq<Chunk>, parse: seq<byte> -> int): seq<map<Name, ResultData>>
  {
    seq(|chunks|, i requires 0 <= i < |chunks| => ScanChunk(buf, chunks[i], parse))
  }

  /** `.Aggregate(AggregateResult)` with no seed: the first table is the accumulator and each
      later table is merged into it. */
  function FoldTables(ts: seq<map<Name, ResultData>>): map<Name, ResultData>
    requires |ts| >= 1
    decreases |ts|
  {
    if |ts| == 1 then ts[0] else MergeTables(FoldTables(ts[..|ts| - 1]), ts[|ts| - 1])
  }

  /** The tables with the one at index `j` taken out. */
  function RemoveAt(ts: seq<map<Name, ResultData>>, j: int): (r: seq<map<Name, ResultData>>)
    requires 0 <= j < |ts|
    ensures |r| == |ts| - 1
  {
    ts[..j] + ts[j + 1..]
  }

  /** Taking a table out removes one occurrence of it and nothing else. */
  lemma RemoveAtMultiset(ts: seq<map<Name, ResultData>>, j: int)
    requires 0 <= j < |ts|
    ensures multiset(ts) == multiset(RemoveAt(ts, j)) + multiset{ts[j]}
  {
    assert ts == ts[..j] + [ts[j]] + ts[j + 1..];
  }

  lemma MultisetCancel(a: multiset<map<Name, ResultData>>, b: multiset<map<Name, ResultData>>, x: map<Name, ResultData>)
    requires a + multiset{x} == b + multiset{x}
    ensures a == b
  {
    forall y
      ensures a[y] == b[y]
    {
      assert (a + multiset{x})[y] == a[y] + multiset{x}[y];
      assert (b + multiset{x})[y] == b[y] + multiset{x}[y];
    }
  }

  /** Any one table can be merged last. */
  lemma {:induction false} FoldTablesRemove(ts: seq<map<Name, ResultData>>, j: int)
    requires |ts| >= 2 && 0 <= j < |ts|
    ensures FoldTables(ts) == MergeTables(FoldTables(RemoveAt(ts, j)), ts[j])
    decreases |ts|
  {
    var n := |ts|;
    var last, tj := ts[n - 1], ts[j];
    if j == n - 1 {
      assert RemoveAt(ts, j) == ts[..n - 1];
    } else if n == 2 {
      assert ts[..1] == [ts[0]];
      assert RemoveAt(ts, 0) == [ts[1]];
      MergeCommutes(ts[0], ts[1]);
    } else {
      var init := ts[..n - 1];
      var rest := RemoveAt(init, j);
      FoldTablesRemove(init, j);
      assert RemoveAt(ts, j) == rest + [last];
      assert (rest + [last])[..|rest|] == rest;
      SwapLast(FoldTables(rest), tj, last);
    }
  }

  /** The last two merges can be swapped. */
  lemma SwapLast(f: map<Name, ResultData>, x: map<Name, ResultData>, y: map<Name, ResultData>)
    ensures MergeTables(MergeTables(f, x), y) == MergeTables(MergeTables(f, y), x)
  {
    MergeAssociates(f, x, y);
    MergeCommutes(x, y);
    MergeAssociates(f, y, x);
  }

  /** Folding two runs of tables separately and merging the two results is folding the whole
      run: a partitioned reduction gives the same table as the sequential one. */
  lemma {:induction false} FoldTablesConcat(a: seq<map<Name, ResultData>>, b: seq<map<Name, ResultData>>)
    requires |a| >= 1 && |b| >= 1
    ensures FoldTables(a + b) == MergeTables(FoldTables(a), FoldTables(b))
    decreases |b|
  {
    var ab := a + b;
    var m := |b|;
    assert ab[..|ab| - 1] == a + b[..m - 1];
    assert ab[|ab| - 1] == b[m - 1];
    if m == 1 {
      assert ab[..|ab| - 1] == a;
    } else {
      FoldTablesConcat(a, b[..m - 1]);
      MergeAssociates(FoldTables(a), FoldTables(b[..m - 1]), b[m - 1]);
    }
  }

  /** The merged table does not depend on the order in which the per-chunk tables arrive: any
      rearrangement gives the same table. Grouping does not matter either (FoldTablesConcat),
      so PLINQ's partitioned aggregation yields this table. */
  lemma {:induction false} FoldTablesPermutation(ts: seq<map<Name, ResultData>>, us: seq<map<Name, ResultData>>)
    requires |ts| >= 1 && multiset(ts) == multiset(us)
    ensures FoldTables(ts) == FoldTables(us)
    decreases |ts|
  {
    var n := |ts|;
    assert |us| == n by {
      assert |multiset(ts)| == |multiset(us)|;
    }
    var x := ts[n - 1];
    assert ts == ts[..n - 1] + [x];
    assert x in multiset(us) by {
      assert x in multiset(ts);
    }
    var j :| 0 <= j < |us| && us[j] == x;
    if n == 1 {
      assert us == [x];
    } else {
      RemoveAtMultiset(us, j);
      assert multiset(ts) == multiset(ts[..n - 1]) + multiset{x};
      MultisetCancel(multiset(ts[..n - 1]), multiset(RemoveAt(us, j)), x);
      FoldTablesPermutation(ts[..n - 1], RemoveAt(us, j));
      FoldTablesRemove(us, j);
    }
  }

  /** Concatenation of per-chunk runs, in chunk order. */
  function Flatten<T>(obs: seq<seq<T>>): seq<T>
    decreases |obs|
  {
    if |obs| == 0 then [] else Flatten(obs[..|obs| - 1]) + obs[|obs| - 1]
  }

  /** Merging tables station by station: when each table's entry for `k` is the default with a
      run of observations folded in, the merged entry is the default with all runs folded in,
      and `k` is present exactly when some run is non-empty. */
  lemma {:induction false} FoldTablesPerKey(ts: seq<map<Name, ResultData>>, k: Name, obs: seq<seq<int>>)
    requires |ts| >= 1 && |obs| == |ts|
    requires forall i :: 0 <= i < |ts| ==> Get(ts[i], k) == Accumulate(Default, obs[i])
    requires forall i :: 0 <= i < |ts| ==> (k in ts[i] <==> |obs[i]| > 0)
    ensures Get(FoldTables(ts), k) == Accumulate(Default, Flatten(obs))
    ensures k in FoldTables(ts) <==> |Flatten(obs)| > 0
    decreases |ts|
  {
    var n := |ts|;
    var pre := obs[..n - 1];
    if n == 1 {
      assert pre == [];
      assert Flatten(obs) == [] + obs[0];
      assert [] + obs[0] == obs[0];
    } else {
      FoldTablesPerKey(ts[..n - 1], k, pre);
      MergePerKey(FoldTables(ts[..n - 1]), ts[n - 1], k, Flatten(pre), obs[n - 1]);
      MergeTablesEntries(FoldTables(ts[..n - 1]), ts[n - 1]);
    }
  }

  /** The merged table holds the sum of the observation counts of the tables. */
  lemma {:induction false} FoldTablesTotal(ts: seq<map<Name, ResultData>>, counts: seq<int>)
    requires |ts| >= 1 && |counts| == |ts|
    requires forall i :: 0 <= i < |ts| ==> TotalCount(ts[i]) == counts[i]
    ensures TotalCount(FoldTables(ts)) == Sum(counts)
    decreases |ts|
  {
    var n := |ts|;
    assert counts == counts[..n - 1] + [counts[n - 1]];
    SumAppend(counts[..n - 1], [counts[n - 1]]);
    if n == 1 {
      assert Sum(counts[..0]) == 0;
    } else {
      FoldTablesTotal(ts[..n - 1], counts[..n - 1]);
      MergeTotalCount(FoldTables(ts[..n - 1]), ts[n - 1]);
    }
  }

  /** The observations of station `k` in each chunk. */
  function ChunkObservations(buf: seq<byte>, chunks: seq<Chunk>, k: Name, parse: seq<byte> -> int): seq<seq<int>>
  {
    seq(|chunks|, i requires 0 <= i < |chunks| => Observations(buf, ChunkLines(buf, chunks[i], 0), k, parse))
  }

  /** The number of folded lines in each chunk. */
  function ChunkFoldedCounts(buf: seq<byte>, chunks: seq<Chunk>): seq<int>
  {
    seq(|chunks|, i requires 0 <= i < |chunks| => FoldedCount(buf, ChunkLines(buf, chunks[i], 0)) as int)
  }

  /** The merged result, station by station: each entry is the default with every observation
      of that station, chunk after chunk, folded in; a station has an entry exactly when some
      folded line names it. */
  lemma AggregatePerKey(buf: seq<byte>, chunks: seq<Chunk>, k: Name, parse: seq<byte> -> int)
    requires |chunks| >= 1
    ensures var obs := Flatten(ChunkObservations(buf, chunks, k, parse));
      Get(FoldTables(ScanAll(buf, chunks, parse)), k) == Accumulate(Default, obs) &&
      (k in FoldTables(ScanAll(buf, chunks, parse)) <==> |obs| > 0)
  {
    forall i | 0 <= i < |chunks|
      ensures Get(ScanAll(buf, chunks, parse)[i], k) == Accumulate(Default, ChunkObservations(buf, chunks, k, parse)[i])
      ensures k in ScanAll(buf, chunks, parse)[i] <==> |ChunkObservations(buf, chunks, k, parse)[i]| > 0
    {
      ScanChunkPerKey(buf, chunks[i], k, parse);
    }
    FoldTablesPerKey(ScanAll(buf, chunks, parse), k, ChunkObservations(buf, chunks, k, parse));
  }

  /** The merged result holds exactly one observation per folded line of every chunk. */
  lemma AggregateTotal(buf: seq<byte>, chunks: seq<Chunk>, parse: seq<byte> -> int)
    requires |chunks| >= 1
    ensures TotalCount(FoldTables(ScanAll(buf, chunks, parse))) == Sum(ChunkFoldedCounts(buf, chunks))
  {
    forall i | 0 <= i < |chunks|
      ensures TotalCount(ScanAll(buf, chunks, parse)[i]) == ChunkFoldedCounts(buf, chunks)[i]
    {
      ScanChunkCount(buf, chunks[i], parse);
    }
    FoldTablesTotal(ScanAll(buf, chunks, parse), ChunkFoldedCounts(buf, chunks));
  }

  /** `.Select(GetResult)`: one fresh table per chunk, each holding that chunk's scan. The
      tables are distinct objects, so merging into the first leaves the others alone. */
  method SelectResults(buf: seq<byte>, chunks: seq<Chunk>, parse: seq<byte> -> int) returns (tables: seq<Table>)
    requires forall i :: 0 <= i < |chunks| ==> 0 <= chunks[i].offset && chunks[i].length <= Int32Max
    ensures |tables| == |chunks|
    ensures forall j :: 0 <= j < |tables| ==> fresh(tables[j])
    ensures forall j :: 0 <= j < |tables| ==> tables[j].entries == ScanAll(buf, chunks, parse)[j]
    ensures forall j, j' :: 0 <= j < j' < |tables| ==> tables[j] != tables[j']
  {
    tables := [];
    for i := 0 to |chunks|
      invariant |tables| == i
      invariant forall j :: 0 <= j < i ==> fresh(tables[j])
      invariant forall j :: 0 <= j < i ==> tables[j].entries == ScanChunk(buf, chunks[j], parse)
      invariant forall j, j' :: 0 <= j < j' < i ==> tables[j] != tables[j']
    {
      var t := GetResult(buf, chunks[i], parse);
      tables := tables + [t];
    }
  }

  /** `.Aggregate(AggregateResult)`: the first table is the accumulator, and every later table
      is merged into it in turn; `parts` are the tables' contents on entry. */
  method AggregateAll(tables: seq<Table>, ghost parts: seq<map<Name, ResultData>>) returns (acum: Table)
    requires |tables| >= 1 && |parts| == |tables|
    requires forall j :: 0 <= j < |tables| ==> tables[j].entries == parts[j]
    requires forall j :: 0 < j < |tables| ==> tables[j] != tables[0]
    modifies tables[0]
    ensures acum == tables[0]
    ensures acum.entries == FoldTables(parts)
  {
    acum := tables[0];
    assert parts[..1] == [parts[0]];
    for i := 1 to |tables|
      invariant acum == tables[0]
      invariant acum.entries == FoldTables(parts[..i])
      invariant forall j :: 0 < j < |tables| ==> tables[j].entries == parts[j]
    {
      acum := AggregateResult(acum, tables[i]);
      assert parts[..i + 1][..i] == parts[..i];
    }
    assert parts[..|tables|] == parts;
  }

  /** Every chunk of a plan fits GetResult's span when the file has at least one byte per
      processor, or when it is shorter but holds a '\n' among its first 64 bytes. */
  lemma PlanFitsSpans(buf: seq<byte>, chunkCount: int, chunks: seq<Chunk>)
    requires 1 <= chunkCount && (chunkCount <= |buf| || IndexOf(buf, 0, Lookahead, NewLine) != -1)
    requires IsPlan(buf, chunkCount, chunks)
    requires |buf| / chunkCount + Lookahead <= Int32Max
    ensures forall i :: 0 <= i < |chunks| ==> 0 <= chunks[i].offset && chunks[i].length <= Int32Max
  {
    if chunkCount <= |buf| {
      PlanInBounds(buf, chunkCount, chunks);
      forall i | 0 <= i < |chunks|
        ensures chunks[i].length <= Int32Max
      {
        assert PlannedAt(buf, |buf| / chunkCount, chunks[i]);
      }
    } else {
      forall i | 0 <= i < |chunks|
        ensures 0 <= chunks[i].offset && chunks[i].length <= Int32Max
      {
        ShortFileWithNewLine(buf, chunkCount, chunks, i);
      }
    }
  }

  /** Main: GetChunks, one GetResult per chunk into its own table, the tables merged into the
      first with AggregateResult, then ordered by name and printed. `chunkCount` stands for
      Environment.ProcessorCount, `parse` for the float parser and `render` for the entry
      format. Every chunk's offset must be non-negative, which holds when the file has at
      least one byte per chunk or a '\n' among its first 64 bytes, and its length must fit an
      `int`. */
  method Run(buf: seq<byte>, chunkCount: int, parse: seq<byte> -> int, render: (Name, ResultData) -> string)
    returns (chunks: seq<Chunk>, results: map<Name, ResultData>, output: string)
    requires 1 <= chunkCount && (chunkCount <= |buf| || IndexOf(buf, 0, Lookahead, NewLine) != -1)
    requires |buf| / chunkCount + Lookahead <= Int32Max
    ensures IsPlan(buf, chunkCount, chunks)
    ensures results == FoldTables(ScanAll(buf, chunks, parse))
    ensures output == Output(OrderByKey(results), render)
  {
    chunks := GetChunks(buf, chunkCount);
    PlanFitsSpans(buf, chunkCount, chunks);
    var tables := SelectResults(buf, chunks, parse);
    var acum := AggregateAll(tables, ScanAll(buf, chunks, parse));
    results := acum.entries;
    var items := OrderByKey(results);
    output := PrintResults(items, render);
  }

  /** With one processor, a file whose only '\n' is its last byte yields an empty result: the
      single chunk stops before that '\n', so its one line is never visited. */
  lemma OneProcessorLosesOnlyLine(buf: seq<byte>, chunks: seq<Chunk>, parse: seq<byte> -> int)
    requires |buf| >= 1 && IsPlan(buf, 1, chunks)
    requires forall p :: 0 <= p < |buf| - 1 ==> !IsAt(buf, p, NewLine)
    ensures FoldTables(ScanAll(buf, chunks, parse)) == map[]
  {
    SingleChunkMissesLastByte(buf, chunks);
    NoNewLineFoldsNothing(buf, chunks[0], parse);
  }

  /** A file shorter than the processor count whose first 64 bytes hold a '\n' yields an empty
      result: the first chunk (0, t) stops before its '\n' at t, and every other chunk is
      empty. */
  lemma ShortFileFoldsNothing(buf: seq<byte>, chunkCount: int, chunks: seq<Chunk>, parse: seq<byte> -> int)
    requires 1 <= chunkCount && |buf| < chunkCount && IsPlan(buf, chunkCount, chunks)
    requires IndexOf(buf, 0, Lookahead, NewLine) != -1
    ensures FoldTables(ScanAll(buf, chunks, parse)) == map[]
  {
    var scans := ScanAll(buf, chunks, parse);
    forall i | 0 <= i < |chunks|
      ensures scans[i] == map[]
    {
      ShortFileWithNewLine(buf, chunkCount, chunks, i);
      if i == 0 {
        NoNewLineFoldsNothing(buf, chunks[0], parse);
      }
    }
    FoldTablesOfEmpty(scans);
  }

  /** Merging only empty tables gives the empty table. */
  lemma {:induction false} FoldTablesOfEmpty(ts: seq<map<Name, ResultData>>)
    requires |ts| >= 1 && forall i :: 0 <= i < |ts| ==> ts[i] == map[]
    ensures FoldTables(ts) == map[]
    decreases |ts|
  {
    if |ts| > 1 {
      FoldTablesOfEmpty(ts[..|ts| - 1]);
      assert MergeTables(map[], map[]) == map[];
    }
  }

  /** The printed text lists every station of the merged result once, in ordinal order. */
  lemma OutputListsResults(results: map<Name, ResultData>)
    ensures var items := OrderByKey(results);
      |items| == |results| && ListsEntriesOf(items, results) &&
      CoversKeysOf(items, results) && StrictlyAscending(items)
  {
    OrderByKeyLength(results);
    OrderByKeyEntries(results);
    OrderByKeyCovers(results);
    OrderByKeySorted(results);
  }
}
