/**
 * Text-keyed entries in an order: Python's string order, `sorted` on key/value pairs with
 * different keys, and `dict` of a list of pairs.
 */
module KeyOrder {
  import opened Wrappers

  /** Python's `a < b` on strings: compare code points from the left, a proper prefix is smaller. */
  predicate Less(a: string, b: string) {
    b != "" && (a == "" || a[0] < b[0] || (a[0] == b[0] && Less(a[1..], b[1..])))
  }

  /**
   * The order, place by place: at the first difference the smaller code point decides, and a proper prefix
   * is smaller.
   */
  lemma {:induction false} LessExactly(a: string, b: string)
    ensures Less(a, b) <==>
            exists i :: 0 <= i <= |a| && i < |b| && a[..i] == b[..i] && (i == |a| || a[i] < b[i])
  {
    if a == "" || b == "" || a[0] != b[0] {
      if Less(a, b) {
        assert a[..0] == b[..0];
      }
    } else {
      LessExactly(a[1..], b[1..]);
      var c, d := a[1..], b[1..];
      if i :| 0 <= i <= |c| && i < |d| && c[..i] == d[..i] && (i == |c| || c[i] < d[i]) {
        assert a[..i + 1] == [a[0]] + c[..i] && b[..i + 1] == [b[0]] + d[..i];
      }
      if i :| 0 <= i <= |a| && i < |b| && a[..i] == b[..i] && (i == |a| || a[i] < b[i]) {
        assert i > 0;
        assert a[1..][..i - 1] == a[..i][1..] && b[1..][..i - 1] == b[..i][1..];
      }
    }
  }

  lemma {:induction false} LessIrreflexive(a: string)
    ensures !Less(a, a)
  {
    if a != "" {
      LessIrreflexive(a[1..]);
    }
  }

  lemma {:induction false} LessTransitive(a: string, b: string, c: string)
    requires Less(a, b) && Less(b, c)
    ensures Less(a, c)
  {
    if a != "" && a[0] == b[0] && b[0] == c[0] {
      LessTransitive(a[1..], b[1..], c[1..]);
    }
  }

  lemma {:induction false} LessTotal(a: string, b: string)
    ensures Less(a, b) || a == b || Less(b, a)
  {
    if a != "" && b != "" && a[0] == b[0] {
      LessTotal(a[1..], b[1..]);
      assert a == [a[0]] + a[1..] && b == [b[0]] + b[1..];
    }
  }

  /** `dict(entries)`: on a repeated key the last entry wins. */
  function ToMap<V>(entries: seq<(string, V)>): map<string, V> {
    if entries == [] then map[]
    else ToMap(entries[..|entries| - 1])[entries[|entries| - 1].0 := entries[|entries| - 1].1]
  }

  /** The source's lookup loops: on a repeated key the first entry wins. */
  function FirstMatch<V>(entries: seq<(string, V)>, key: string): Option<V> {
    if entries == [] then None
    else if entries[0].0 == key then Some(entries[0].1)
    else FirstMatch(entries[1..], key)
  }

  function Lookup<V>(m: map<string, V>, key: string): Option<V> {
    if key in m then Some(m[key]) else None
  }

  ghost predicate Distinct<V>(entries: seq<(string, V)>) {
    forall i, j :: 0 <= i < j < |entries| ==> entries[i].0 != entries[j].0
  }

  ghost predicate Sorted<V>(entries: seq<(string, V)>) {
    forall i, j :: 0 <= i < j < |entries| ==> Less(entries[i].0, entries[j].0)
  }

  /** The lookup loops return the first binding of the key. */
  lemma {:induction false} FirstMatchExactly<V>(entries: seq<(string, V)>, key: string)
    ensures FirstMatch(entries, key).None? <==> forall i :: 0 <= i < |entries| ==> entries[i].0 != key
    ensures forall i :: 0 <= i < |entries| && entries[i].0 == key &&
                        (forall j :: 0 <= j < i ==> entries[j].0 != key) ==>
              FirstMatch(entries, key) == Some(entries[i].1)
  {
    if entries != [] && entries[0].0 != key {
      FirstMatchExactly(entries[1..], key);
      assert forall i :: 0 < i < |entries| ==> entries[i] == entries[1..][i - 1];
    }
  }

  lemma SortedIsDistinct<V>(entries: seq<(string, V)>)
    requires Sorted(entries)
    ensures Distinct(entries)
  {
    forall i, j | 0 <= i < j < |entries|
      ensures entries[i].0 != entries[j].0
    {
      LessIrreflexive(entries[i].0);
      assert Less(entries[i].0, entries[j].0);
    }
  }

  lemma {:induction false} ToMapKeys<V>(entries: seq<(string, V)>, key: string)
    ensures key in ToMap(entries) <==> exists i :: 0 <= i < |entries| && entries[i].0 == key
  {
    if entries != [] {
      var front := entries[..|entries| - 1];
      ToMapKeys(front, key);
      if i :| 0 <= i < |front| && front[i].0 == key {
        assert entries[i].0 == key;
      }
      if i :| 0 <= i < |entries| && entries[i].0 == key {
        assert i < |front| ==> front[i].0 == key;
      }
    }
  }

  lemma {:induction false} ToMapCons<V>(e: (string, V), entries: seq<(string, V)>)
    ensures ToMap([e] + entries) == map[e.0 := e.1] + ToMap(entries)
  {
    if entries == [] {
      assert [e] + entries == [e];
      assert [e][..0] == [];
    } else {
      var front := entries[..|entries| - 1];
      ToMapCons(e, front);
      assert ([e] + entries)[..|entries|] == [e] + front;
    }
  }

  /** On entries with different keys, `dict` and the lookup loop agree. */
  lemma {:induction false} FirstMatchIsLookup<V>(entries: seq<(string, V)>, key: string)
    requires Distinct(entries)
    ensures FirstMatch(entries, key) == Lookup(ToMap(entries), key)
  {
    if entries != [] {
      var tail := entries[1..];
      assert entries == [entries[0]] + tail;
      ToMapCons(entries[0], tail);
      ToMapKeys(tail, entries[0].0);
      FirstMatchIsLookup(tail, key);
    }
  }

  lemma DistinctLookup<V>(entries: seq<(string, V)>, i: nat)
    requires Distinct(entries) && i < |entries|
    ensures Lookup(ToMap(entries), entries[i].0) == Some(entries[i].1)
  {
    FirstMatchAt(entries, i);
    FirstMatchIsLookup(entries, entries[i].0);
  }

  lemma {:induction false} FirstMatchAt<V>(entries: seq<(string, V)>, i: nat)
    requires Distinct(entries) && i < |entries|
    ensures FirstMatch(entries, entries[i].0) == Some(entries[i].1)
  {
    if i > 0 {
      FirstMatchAt(entries[1..], i - 1);
    }
  }

  /* ---------- sorted(...) ---------- */

  function Insert<V>(e: (string, V), entries: seq<(string, V)>): seq<(string, V)> {
    if entries == [] then [e]
    else if Less(e.0, entries[0].0) then [e] + entries
    else [entries[0]] + Insert(e, entries[1..])
  }

  /** `sorted(entries)`; with different keys the values are never compared. */
  function Sort<V>(entries: seq<(string, V)>): seq<(string, V)> {
    if entries == [] then [] else Insert(entries[|entries| - 1], Sort(entries[..|entries| - 1]))
  }

  lemma {:induction false} InsertElements<V>(e: (string, V), entries: seq<(string, V)>, k: nat)
    requires k < |Insert(e, entries)|
    ensures Insert(e, entries)[k] == e || Insert(e, entries)[k] in entries
  {
    if entries != [] && !Less(e.0, entries[0].0) && k > 0 {
      InsertElements(e, entries[1..], k - 1);
    }
  }

  lemma {:induction false} InsertMap<V>(e: (string, V), entries: seq<(string, V)>)
    requires e.0 !in ToMap(entries)
    ensures ToMap(Insert(e, entries)) == ToMap(entries)[e.0 := e.1]
    ensures |Insert(e, entries)| == |entries| + 1
  {
    if entries == [] {
    } else if Less(e.0, entries[0].0) {
      ToMapCons(e, entries);
    } else {
      hide ToMap, Less;
      var tail := entries[1..];
      assert entries == [entries[0]] + tail;
      ToMapCons(entries[0], tail);
      InsertMap(e, tail);
      ToMapCons(entries[0], Insert(e, tail));
    }
  }

  /** Putting a smaller key in front of sorted entries. */
  lemma SortedCons<V>(e: (string, V), entries: seq<(string, V)>)
    requires Sorted(entries)
    requires entries != [] ==> Less(e.0, entries[0].0)
    ensures Sorted([e] + entries)
  {
    forall j | 0 <= j < |entries|
      ensures Less(e.0, entries[j].0)
    {
      if j > 0 {
        LessTransitive(e.0, entries[0].0, entries[j].0);
      }
    }
  }

  lemma {:induction false} InsertSorted<V>(e: (string, V), entries: seq<(string, V)>)
    requires Sorted(entries) && e.0 !in ToMap(entries)
    ensures Sorted(Insert(e, entries))
  {
    if entries == [] {
    } else if Less(e.0, entries[0].0) {
      SortedCons(e, entries);
    } else {
      var tail := entries[1..];
      assert entries == [entries[0]] + tail;
      ToMapCons(entries[0], tail);
      InsertSorted(e, tail);
      InsertMap(e, tail);
      InsertElements(e, tail, 0);
      LessTotal(e.0, entries[0].0);
      SortedCons(entries[0], Insert(e, tail));
    }
  }

  lemma {:induction false} SortSorts<V>(entries: seq<(string, V)>)
    requires Distinct(entries)
    ensures Sorted(Sort(entries)) && ToMap(Sort(entries)) == ToMap(entries) && |Sort(entries)| == |entries|
  {
    if entries != [] {
      var front, last := entries[..|entries| - 1], entries[|entries| - 1];
      SortSorts(front);
      ToMapKeys(front, last.0);
      InsertSorted(last, Sort(front));
      InsertMap(last, Sort(front));
    }
  }

  /** There is only one sorted list for a mapping. */
  lemma {:induction false} SortedUnique<V>(a: seq<(string, V)>, b: seq<(string, V)>)
    requires Sorted(a) && Sorted(b) && ToMap(a) == ToMap(b)
    ensures a == b
  {
    if a == [] || b == [] {
      if a != [] {
        ToMapKeys(a, a[0].0);
      }
      if b != [] {
        ToMapKeys(b, b[0].0);
      }
    } else {
      LeastFirst(a, b);
      LeastFirst(b, a);
      SortedIsDistinct(a);
      SortedIsDistinct(b);
      LessTotal(a[0].0, b[0].0);
      LessAsymmetric(a[0].0, b[0].0);
      DistinctLookup(a, 0);
      DistinctLookup(b, 0);
      TailMap(a);
      TailMap(b);
      SortedUnique(a[1..], b[1..]);
      assert a == [a[0]] + a[1..] && b == [b[0]] + b[1..];
    }
  }

  lemma LessAsymmetric(a: string, b: string)
    ensures !(Less(a, b) && Less(b, a))
  {
    if Less(a, b) && Less(b, a) {
      LessTransitive(a, b, a);
      LessIrreflexive(a);
    }
  }

  lemma LeastFirst<V>(a: seq<(string, V)>, b: seq<(string, V)>)
    requires Sorted(a) && Sorted(b) && ToMap(a) == ToMap(b) && a != [] && b != []
    ensures a[0].0 == b[0].0 || Less(b[0].0, a[0].0)
  {
    ToMapKeys(a, a[0].0);
    ToMapKeys(b, a[0].0);
  }

  lemma TailMap<V>(a: seq<(string, V)>)
    requires Sorted(a) && a != []
    ensures ToMap(a[1..]) == ToMap(a) - {a[0].0}
  {
    SortedIsDistinct(a);
    assert a == [a[0]] + a[1..];
    ToMapCons(a[0], a[1..]);
    ToMapKeys(a[1..], a[0].0);
  }

  /** Sorting forgets the order in which entries with different keys were written, and nothing else. */
  lemma SortCanonical<V>(a: seq<(string, V)>, b: seq<(string, V)>)
    requires Distinct(a) && Distinct(b)
    ensures Sort(a) == Sort(b) <==> ToMap(a) == ToMap(b)
  {
    SortSorts(a);
    SortSorts(b);
    if ToMap(a) == ToMap(b) {
      SortedUnique(Sort(a), Sort(b));
    }
  }

  /* ---------- sorted(m.items()) ---------- */

  ghost predicate IsLeast(keys: set<string>, k: string) {
    k in keys && forall other :: other in keys ==> other == k || Less(k, other)
  }

  lemma {:induction false} LeastExists(keys: set<string>)
    requires keys != {}
    ensures exists k :: IsLeast(keys, k)
  {
    var k :| k in keys;
    var rest := keys - {k};
    if rest == {} {
      assert keys == rest + {k};
      assert IsLeast(keys, k);
    } else {
      LeastExists(rest);
      var m :| IsLeast(rest, m);
      LessTotal(k, m);
      if Less(k, m) {
        LeastOver(keys, k, m);
      } else {
        assert IsLeast(keys, m);
      }
    }
  }

  lemma LeastOver(keys: set<string>, k: string, m: string)
    requires k in keys && IsLeast(keys - {k}, m) && Less(k, m)
    ensures IsLeast(keys, k)
  {
    forall other | other in keys - {k}
      ensures Less(k, other)
    {
      if other != m {
        LessTransitive(k, m, other);
      }
    }
  }

  ghost function Least(keys: set<string>): (k: string)
    requires keys != {}
    ensures IsLeast(keys, k)
  {
    LeastExists(keys);
    var k :| IsLeast(keys, k);
    k
  }

  /** `sorted(m.items())`. */
  ghost function SortedItems<V>(m: map<string, V>): (entries: seq<(string, V)>)
    decreases |m|
  {
    if m == map[] then []
    else
      var k := Least(m.Keys);
      assert |(m - {k}).Keys| < |m.Keys| by { assert (m - {k}).Keys == m.Keys - {k}; }
      [(k, m[k])] + SortedItems(m - {k})
  }

  lemma SortedItemsUnfold<V>(m: map<string, V>)
    ensures m == map[] ==> SortedItems(m) == []
    ensures m != map[] ==>
              var k := Least(m.Keys);
              SortedItems(m) == [(k, m[k])] + SortedItems(m - {k}) && (m - {k}).Keys == m.Keys - {k} &&
              m == map[k := m[k]] + (m - {k})
  {
  }

  lemma FewerKeys<V>(m: map<string, V>, k: string)
    requires k in m
    ensures |m - {k}| < |m|
  {
    assert (m - {k}).Keys == m.Keys - {k};
  }

  lemma {:induction false} SortedItemsSorted<V>(m: map<string, V>)
    ensures Sorted(SortedItems(m)) && ToMap(SortedItems(m)) == m
    decreases |m|
  {
    SortedItemsUnfold(m);
    if m != map[] {
      hide SortedItems, ToMap, Sorted, Less;
      var k := Least(m.Keys);
      FewerKeys(m, k);
      SortedItemsSorted(m - {k});
      var tail := SortedItems(m - {k});
      ToMapCons((k, m[k]), tail);
      if tail != [] {
        ToMapKeys(tail, tail[0].0);
      }
      SortedCons((k, m[k]), tail);
    }
  }
}
