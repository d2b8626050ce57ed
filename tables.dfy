/** The key -> ResultData tables (C# Dictionary<DictionaryKey, ResultData>) and the total
    number of observations a table holds. */
module Tables {
  import opened Bytes
  import opened Accumulators

  /** A station name, as the bytes its DictionaryKey views. With the typed Equals being byte
      equality (Keys.Equals), the dictionary is a map on these bytes. */
  type Name = seq<byte>

  /** A Dictionary<DictionaryKey, ResultData>: a mutable object shared by reference. */
  class Table {
    var entries: map<Name, ResultData>

    /** `new Dictionary<DictionaryKey, ResultData>(15000)`; the capacity is not modelled. */
    constructor ()
      ensures entries == map[]
    {
      entries := map[];
    }

    /** CollectionsMarshal.GetValueRefOrAddDefault: adds a default entry for a missing key and
        reports whether the key was there; `value` is what the returned ref points at. */
    method GetValueRefOrAddDefault(key: Name) returns (value: ResultData, found: bool)
      modifies this
      ensures found <==> key in old(entries)
      ensures entries == if found then old(entries) else old(entries)[key := Default]
      ensures key in entries && value == entries[key]
    {
      found := key in entries;
      if !found {
        entries := entries[key := Default];
      }
      value := entries[key];
    }

    /** A write through the ref GetValueRefOrAddDefault returned. */
    method Store(key: Name, value: ResultData)
      requires key in entries
      modifies this
      ensures entries == old(entries)[key := value]
    {
      entries := entries[key := value];
    }
  }

  /** The entry for `k`, or the default a missing key would be given. */
  function Get(m: map<Name, ResultData>, k: Name): ResultData
  {
    if k in m then m[k] else Default
  }

  /** The sum of the counts of the entries for `keys`. */
  ghost function CountOver(m: map<Name, ResultData>, keys: set<Name>): int
    decreases keys
  {
    if keys == {} then 0
    else
      var k :| k in keys;
      Get(m, k).count + CountOver(m, keys - {k})
  }

  /** The number of observations the table holds: the sum of its entries' counts. */
  ghost function TotalCount(m: map<Name, ResultData>): int
  {
    CountOver(m, m.Keys)
  }

  /** The sum does not depend on which key is taken out first. */
  lemma {:induction false} CountOverRemove(m: map<Name, ResultData>, keys: set<Name>, k: Name)
    requires k in keys
    ensures CountOver(m, keys) == Get(m, k).count + CountOver(m, keys - {k})
    decreases keys
  {
    var j :| j in keys && CountOver(m, keys) == Get(m, j).count + CountOver(m, keys - {j});
    if j != k {
      CountOverRemove(m, keys - {j}, k);
      CountOverRemove(m, keys - {k}, j);
      assert keys - {j} - {k} == keys - {k} - {j};
    }
  }

  /** Two tables whose counts agree on `keys` have the same sum over `keys`. */
  lemma {:induction false} CountOverAgree(m1: map<Name, ResultData>, m2: map<Name, ResultData>, keys: set<Name>)
    requires forall k :: k in keys ==> Get(m1, k).count == Get(m2, k).count
    ensures CountOver(m1, keys) == CountOver(m2, keys)
    decreases keys
  {
    if keys != {} {
      var k :| k in keys;
      CountOverRemove(m1, keys, k);
      CountOverRemove(m2, keys, k);
      CountOverAgree(m1, m2, keys - {k});
    }
  }

  /** Counts that add key by key add up over any set of keys. */
  lemma {:induction false} CountOverAdds(m1: map<Name, ResultData>, m2: map<Name, ResultData>, m3: map<Name, ResultData>, keys: set<Name>)
    requires forall k :: k in keys ==> Get(m3, k).count == Get(m1, k).count + Get(m2, k).count
    ensures CountOver(m3, keys) == CountOver(m1, keys) + CountOver(m2, keys)
    decreases keys
  {
    if keys != {} {
      var k :| k in keys;
      CountOverRemove(m1, keys, k);
      CountOverRemove(m2, keys, k);
      CountOverRemove(m3, keys, k);
      CountOverAdds(m1, m2, m3, keys - {k});
    }
  }

  /** Keys outside the table contribute nothing: any superset of the keys gives the total. */
  lemma {:induction false} CountOverSuperset(m: map<Name, ResultData>, keys: set<Name>)
    requires m.Keys <= keys
    ensures CountOver(m, keys) == TotalCount(m)
    decreases keys
  {
    if keys != m.Keys {
      var k :| k in keys && k !in m;
      CountOverRemove(m, keys, k);
      CountOverSuperset(m, keys - {k});
    }
  }

  /** Replacing one entry changes the total by the difference of the two counts. */
  lemma CountAfterUpdate(m: map<Name, ResultData>, k: Name, v: ResultData)
    ensures TotalCount(m[k := v]) == TotalCount(m) - Get(m, k).count + v.count
  {
    var m' := m[k := v];
    var keys := m'.Keys;
    CountOverRemove(m', keys, k);
    CountOverRemove(m, keys, k);
    CountOverAgree(m, m', keys - {k});
    CountOverSuperset(m, keys);
  }
}
