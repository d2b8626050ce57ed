/** AggregateResult: folding one per-chunk table into the accumulating one. */
module Merger {
  import opened Accumulators
  import opened Tables

  /** The table AggregateResult leaves in `acum`: every key of either table; a key of both is
      merged with Calculate(ResultData), a key of one table keeps its entry. */
  function MergeTables(acum: map<Name, ResultData>, current: map<Name, ResultData>): map<Name, ResultData>
  {
    map k | k in acum.Keys + current.Keys ::
      if k in acum && k in current then acum[k].CalculateData(current[k])
      else if k in current then current[k]
      else acum[k]
  }

  /** After the merge the key set is the union of both tables; a key only in `current` is
      copied unchanged, a key in both is merged with Calculate(ResultData), and a key only in
      `acum` is untouched. */
  lemma MergeTablesEntries(acum: map<Name, ResultData>, current: map<Name, ResultData>)
    ensures var r := MergeTables(acum, current);
      r.Keys == acum.Keys + current.Keys &&
      (forall k :: k in acum && k in current ==> r[k] == acum[k].CalculateData(current[k])) &&
      (forall k :: k in current && k !in acum ==> r[k] == current[k]) &&
      (forall k :: k in acum && k !in current ==> r[k] == acum[k])
  {
  }

  /** The entries of `m` for the keys in `keys`. */
  function Restrict(m: map<Name, ResultData>, keys: set<Name>): map<Name, ResultData>
  {
    map k | k in m.Keys * keys :: m[k]
  }

  /** One round of AggregateResult: the entry `x` for `k` merged into `m`. */
  function MergeEntry(m: map<Name, ResultData>, k: Name, x: ResultData): map<Name, ResultData>
  {
    m[k := if k in m then m[k].CalculateData(x) else x]
  }

  /** Merging the entry of one more key of `current`: the keys still to do lose `k`. */
  lemma MergeOneMore(acum: map<Name, ResultData>, current: map<Name, ResultData>, remaining: set<Name>, k: Name)
    requires remaining <= current.Keys && k in remaining
    ensures MergeTables(acum, Restrict(current, current.Keys - (remaining - {k}))) ==
      MergeEntry(MergeTables(acum, Restrict(current, current.Keys - remaining)), k, current[k])
  {
    assert current.Keys - (remaining - {k}) == (current.Keys - remaining) + {k};
  }

  /** AggregateResult(acum, current): for each entry of `current`, merges it into the entry of
      `acum` that GetValueRefOrAddDefault finds, or puts it in as it is when the key is new.
      The entries of `current` are read as the enumeration delivers them, so the result is
      stated with the entries `current` had on entry (which also covers `current == acum`).
      The enumeration order is not fixed: the loop takes the keys in any order. */
  method AggregateResult(acum: Table, current: Table) returns (r: Table)
    modifies acum
    ensures r == acum
    ensures acum.entries == MergeTables(old(acum.entries), old(current.entries))
  {
    ghost var acum0 := acum.entries;
    var items := current.entries;
    var remaining := items.Keys;
    while remaining != {}
      invariant remaining <= items.Keys
      invariant acum.entries == MergeTables(acum0, Restrict(items, items.Keys - remaining))
      decreases remaining
    {
      var key :| key in remaining;
      ghost var before := acum.entries;
      var value, found := acum.GetValueRefOrAddDefault(key);
      if found {
        acum.Store(key, value.CalculateData(items[key]));
        assert acum.entries == before[key := before[key].CalculateData(items[key])];
      } else {
        acum.Store(key, items[key]);
        assert acum.entries == before[key := items[key]];
      }
      assert acum.entries == MergeEntry(before, key, items[key]);
      MergeOneMore(acum0, items, remaining, key);
      remaining := remaining - {key};
    }
    assert items.Keys - remaining == items.Keys;
    assert Restrict(items, items.Keys) == items;
    r := acum;
  }

  /** Merging is commutative. */
  lemma MergeCommutes(a: map<Name, ResultData>, b: map<Name, ResultData>)
    ensures MergeTables(a, b) == MergeTables(b, a)
  {
    forall k | k in a && k in b
      ensures a[k].CalculateData(b[k]) == b[k].CalculateData(a[k])
    {
      CalculateDataCommutes(a[k], b[k]);
    }
  }

  /** Merging is associative, so merging per-chunk tables in any grouping gives one table. */
  lemma MergeAssociates(a: map<Name, ResultData>, b: map<Name, ResultData>, c: map<Name, ResultData>)
    ensures MergeTables(MergeTables(a, b), c) == MergeTables(a, MergeTables(b, c))
  {
    forall k | k in a && k in b && k in c
      ensures a[k].CalculateData(b[k]).CalculateData(c[k]) == a[k].CalculateData(b[k].CalculateData(c[k]))
    {
      CalculateDataAssociates(a[k], b[k], c[k]);
    }
  }

  /** Per key, the counts of the two tables add. */
  lemma MergeCountsAdd(a: map<Name, ResultData>, b: map<Name, ResultData>, k: Name)
    ensures Get(MergeTables(a, b), k).count == Get(a, k).count + Get(b, k).count
  {
  }

  /** The merged table holds every observation of both tables. */
  lemma MergeTotalCount(a: map<Name, ResultData>, b: map<Name, ResultData>)
    ensures TotalCount(MergeTables(a, b)) == TotalCount(a) + TotalCount(b)
  {
    var m := MergeTables(a, b);
    var keys := m.Keys;
    forall k | k in keys
      ensures Get(m, k).count == Get(a, k).count + Get(b, k).count
    {
      MergeCountsAdd(a, b, k);
    }
    CountOverAdds(a, b, m, keys);
    CountOverSuperset(a, keys);
    CountOverSuperset(b, keys);
  }

  /** Merging the tables of two runs of observations of a station gives the statistics of the
      concatenated run. */
  lemma MergePerKey(a: map<Name, ResultData>, b: map<Name, ResultData>, k: Name, xs: seq<int>, ys: seq<int>)
    requires Get(a, k) == Accumulate(Default, xs) && Get(b, k) == Accumulate(Default, ys)
    ensures Get(MergeTables(a, b), k) == Accumulate(Default, xs + ys)
  {
    if k !in b {
      assert ys == [];
      assert xs + ys == xs;
    } else if k !in a {
      assert xs == [];
      assert xs + ys == ys;
    } else {
      MergeOfAccumulations(xs, ys);
    }
  }
}
