/** The ordinal ordering of the merged table and the text PrintResults builds from it. */
module Formatter {
  import opened Bytes
  import opened Accumulators
  import opened Tables

  /** StringComparer.Ordinal on the station names, compared byte by byte: `a` sorts no later
      than `b` (a proper prefix sorts first). */
  predicate Below(a: Name, b: Name)
    decreases |a|
  {
    a == [] || (b != [] && (a[0] < b[0] || (a[0] == b[0] && Below(a[1..], b[1..]))))
  }

  /** `a` sorts strictly before `b`. */
  predicate Less(a: Name, b: Name)
  {
    Below(a, b) && a != b
  }

  lemma {:induction false} BelowReflexive(a: Name)
    ensures Below(a, a)
    decreases |a|
  {
    if a != [] {
      BelowReflexive(a[1..]);
    }
  }

  lemma {:induction false} BelowAntisymmetric(a: Name, b: Name)
    requires Below(a, b) && Below(b, a)
    ensures a == b
    decreases |a|
  {
    if a != [] && b != [] {
      BelowAntisymmetric(a[1..], b[1..]);
      assert a == [a[0]] + a[1..] && b == [b[0]] + b[1..];
    }
  }

  lemma {:induction false} BelowTransitive(a: Name, b: Name, c: Name)
    requires Below(a, b) && Below(b, c)
    ensures Below(a, c)
    decreases |a|
  {
    if a != [] && b != [] && c != [] && a[0] == b[0] && b[0] == c[0] {
      BelowTransitive(a[1..], b[1..], c[1..]);
    }
  }

  lemma {:induction false} BelowTotal(a: Name, b: Name)
    ensures Below(a, b) || Below(b, a)
    decreases |a|
  {
    if a != [] && b != [] && a[0] == b[0] {
      BelowTotal(a[1..], b[1..]);
    }
  }

  /** `k` is the first of `keys` in ordinal order. */
  predicate IsLeast(k: Name, keys: set<Name>)
  {
    k in keys && forall j :: j in keys ==> Below(k, j)
  }

  lemma {:induction false} LeastExists(keys: set<Name>)
    requires keys != {}
    ensures exists k :: IsLeast(k, keys)
    decreases keys
  {
    var x :| x in keys;
    BelowReflexive(x);
    if keys != {x} {
      LeastExists(keys - {x});
      var m :| IsLeast(m, keys - {x});
      BelowTotal(x, m);
      if Below(x, m) {
        forall j | j in keys
          ensures Below(x, j)
        {
          if j != x {
            BelowTransitive(x, m, j);
          }
        }
        assert IsLeast(x, keys);
      } else {
        assert IsLeast(m, keys);
      }
    } else {
      assert IsLeast(x, keys);
    }
  }

  lemma LeastIsUnique(keys: set<Name>)
    ensures forall a, b :: IsLeast(a, keys) && IsLeast(b, keys) ==> a == b
  {
    forall a, b | IsLeast(a, keys) && IsLeast(b, keys)
      ensures a == b
    {
      BelowAntisymmetric(a, b);
    }
  }

  /** `OrderBy(v => v.Key.ToString(), StringComparer.Ordinal)`: the least name first, then the
      rest of the table in order. OrderByKeyEntries and OrderByKeySorted state what it gives. */
  function OrderByKey(m: map<Name, ResultData>): seq<(Name, ResultData)>
    decreases |m|
  {
    if |m| == 0 then []
    else
      LeastExists(m.Keys);
      LeastIsUnique(m.Keys);
      var k :| k in m.Keys && IsLeast(k, m.Keys);
      assert (m - {k}).Keys == m.Keys - {k};
      [(k, m[k])] + OrderByKey(m - {k})
  }

  /** The first step of OrderByKey on a non-empty table takes its least name. */
  lemma OrderByKeyHead(m: map<Name, ResultData>, k: Name)
    requires IsLeast(k, m.Keys)
    ensures (m - {k}).Keys == m.Keys - {k} && |m - {k}| == |m| - 1
    ensures OrderByKey(m) == [(k, m[k])] + OrderByKey(m - {k})
  {
    LeastIsUnique(m.Keys);
    assert (m - {k}).Keys == m.Keys - {k};
  }

  /** Every entry of the listing is an entry of the table. */
  predicate ListsEntriesOf(s: seq<(Name, ResultData)>, m: map<Name, ResultData>)
  {
    forall i :: 0 <= i < |s| ==> s[i].0 in m && m[s[i].0] == s[i].1
  }

  /** Every name of the table appears in the listing. */
  predicate CoversKeysOf(s: seq<(Name, ResultData)>, m: map<Name, ResultData>)
  {
    forall k :: k in m ==> exists i :: 0 <= i < |s| && s[i].0 == k
  }

  /** The names of the listing are strictly ascending in ordinal order. */
  predicate StrictlyAscending(s: seq<(Name, ResultData)>)
  {
    forall i, j :: 0 <= i < j < |s| ==> Less(s[i].0, s[j].0)
  }

  /** The listing has one element per entry of the table. */
  lemma {:induction false} OrderByKeyLength(m: map<Name, ResultData>)
    ensures |OrderByKey(m)| == |m|
    decreases |m|
  {
    if |m| > 0 {
      LeastExists(m.Keys);
      var k :| IsLeast(k, m.Keys);
      OrderByKeyHead(m, k);
      OrderByKeyLength(m - {k});
    }
  }

  /** Every element of the listing is an entry of the table, with its statistics. */
  lemma {:induction false} OrderByKeyEntries(m: map<Name, ResultData>)
    ensures ListsEntriesOf(OrderByKey(m), m)
    decreases |m|
  {
    if |m| > 0 {
      LeastExists(m.Keys);
      var k :| IsLeast(k, m.Keys);
      OrderByKeyHead(m, k);
      var m' := m - {k};
      var rest := OrderByKey(m');
      OrderByKeyEntries(m');
      var s := [(k, m[k])] + rest;
      forall i | 0 <= i < |s|
        ensures s[i].0 in m && m[s[i].0] == s[i].1
      {
        if i > 0 {
          assert s[i] == rest[i - 1];
          assert rest[i - 1].0 in m';
        }
      }
      assert ListsEntriesOf(s, m);
    }
  }

  /** Every name of the table appears in the listing. */
  lemma {:induction false} OrderByKeyCovers(m: map<Name, ResultData>)
    ensures CoversKeysOf(OrderByKey(m), m)
    decreases |m|
  {
    if |m| > 0 {
      LeastExists(m.Keys);
      var k :| IsLeast(k, m.Keys);
      OrderByKeyHead(m, k);
      var m' := m - {k};
      var rest := OrderByKey(m');
      OrderByKeyCovers(m');
      var s := [(k, m[k])] + rest;
      forall j | j in m
        ensures exists i :: 0 <= i < |s| && s[i].0 == j
      {
        if j == k {
          assert s[0].0 == j;
        } else {
          assert j in m';
          var i :| 0 <= i < |rest| && rest[i].0 == j;
          assert s[i + 1] == rest[i];
        }
      }
      assert CoversKeysOf(s, m);
    }
  }

  /** The listing is strictly ascending in ordinal order of the names. */
  lemma {:induction false} OrderByKeySorted(m: map<Name, ResultData>)
    ensures StrictlyAscending(OrderByKey(m))
    decreases |m|
  {
    if |m| > 0 {
      LeastExists(m.Keys);
      var k :| IsLeast(k, m.Keys);
      OrderByKeyHead(m, k);
      var m' := m - {k};
      var rest := OrderByKey(m');
      OrderByKeySorted(m');
      OrderByKeyEntries(m');
      var s := [(k, m[k])] + rest;
      forall i, j | 0 <= i < j < |s|
        ensures Less(s[i].0, s[j].0)
      {
        assert s[j] == rest[j - 1];
        if i > 0 {
          assert s[i] == rest[i - 1];
        } else {
          assert rest[j - 1].0 in m';
        }
      }
      assert StrictlyAscending(s);
    }
  }

  /** The rendering of the first `i` entries, each followed by ", " unless it is the last entry
      of all: the text the loop of PrintResults has appended after `i` rounds. */
  function Rendered(items: seq<(Name, ResultData)>, render: (Name, ResultData) -> string, i: int): string
    requires 0 <= i <= |items|
    decreases i
  {
    if i == 0 then ""
    else Rendered(items, render, i - 1) + render(items[i - 1].0, items[i - 1].1) + (if i < |items| then ", " else "")
  }

  /** Strings joined with ", " between neighbours. */
  function Join(parts: seq<string>): string
    decreases |parts|
  {
    if |parts| == 0 then "" else if |parts| == 1 then parts[0] else parts[0] + ", " + Join(parts[1..])
  }

  /** Each entry rendered as `name=min/mean/max`. */
  function RenderAll(items: seq<(Name, ResultData)>, render: (Name, ResultData) -> string): seq<string>
  {
    seq(|items|, i requires 0 <= i < |items| => render(items[i].0, items[i].1))
  }

  lemma {:induction false} JoinSnoc(parts: seq<string>, p: string)
    requires parts != []
    ensures Join(parts + [p]) == Join(parts) + ", " + p
    decreases |parts|
  {
    if |parts| == 1 {
      assert parts + [p] == [parts[0], p];
      assert Join([p]) == p;
    } else {
      assert (parts + [p])[1..] == parts[1..] + [p];
      JoinSnoc(parts[1..], p);
    }
  }

  lemma {:induction false} RenderedIsJoin(items: seq<(Name, ResultData)>, render: (Name, ResultData) -> string, i: int)
    requires 0 < i <= |items|
    ensures Rendered(items, render, i) == Join(RenderAll(items, render)[..i]) + (if i < |items| then ", " else "")
    decreases i
  {
    var parts := RenderAll(items, render);
    if i == 1 {
      assert parts[..1] == [parts[0]];
    } else {
      RenderedIsJoin(items, render, i - 1);
      assert parts[..i] == parts[..i - 1] + [parts[i - 1]];
      JoinSnoc(parts[..i - 1], parts[i - 1]);
    }
  }

  /** The output frame: "{", the entries joined by ", ", "}". */
  function Output(items: seq<(Name, ResultData)>, render: (Name, ResultData) -> string): string
  {
    "{" + Join(RenderAll(items, render)) + "}"
  }

  /** PrintResults(chunks): the StringBuilder loop, with ", " after every entry but the last.
      `render` stands for the `$"{key}={min:N1}/{mean:N1}/{max:N1}"` interpolation; writing the
      text to the console is not modelled. */
  method PrintResults(items: seq<(Name, ResultData)>, render: (Name, ResultData) -> string) returns (s: string)
    ensures s == Output(items, render)
  {
    var chunksCount := |items|;
    var sb := "{";
    var line := 0;
    for i := 0 to |items|
      invariant line == i
      invariant sb == "{" + Rendered(items, render, i)
    {
      sb := sb + render(items[i].0, items[i].1);
      line := line + 1;
      if line < chunksCount {
        sb := sb + ", ";
      }
    }
    sb := sb + "}";
    if |items| > 0 {
      RenderedIsJoin(items, render, |items|);
      assert RenderAll(items, render)[..|items|] == RenderAll(items, render);
    }
    s := sb;
  }

  /** An empty table prints as "{}". */
  lemma EmptyOutput(render: (Name, ResultData) -> string)
    ensures Output(OrderByKey(map[]), render) == "{}"
  {
  }

  /** The output of a single entry has no separator. */
  lemma SingleEntryOutput(k: Name, d: ResultData, render: (Name, ResultData) -> string)
    ensures Output([(k, d)], render) == "{" + render(k, d) + "}"
  {
  }

  /** Sorting is by name: for stations "Tokyo" and "Abu Dhabi", "Abu Dhabi" comes first. */
  lemma OrderExample(a: ResultData, b: ResultData)
    ensures var tokyo: Name := [84, 111, 107, 121, 111];
      var abuDhabi: Name := [65, 98, 117, 32, 68, 104, 97, 98, 105];
      OrderByKey(map[tokyo := a, abuDhabi := b]) == [(abuDhabi, b), (tokyo, a)]
  {
    var tokyo: Name := [84, 111, 107, 121, 111];
    var abuDhabi: Name := [65, 98, 117, 32, 68, 104, 97, 98, 105];
    var m := map[tokyo := a, abuDhabi := b];
    assert Below(abuDhabi, tokyo);
    BelowReflexive(abuDhabi);
    BelowReflexive(tokyo);
    assert m.Keys == {tokyo, abuDhabi};
    assert IsLeast(abuDhabi, m.Keys);
    OrderByKeyHead(m, abuDhabi);
    var m' := map[tokyo := a];
    assert m - {abuDhabi} == m';
    assert IsLeast(tokyo, m'.Keys);
    OrderByKeyHead(m', tokyo);
    assert m' - {tokyo} == map[];
  }
}
