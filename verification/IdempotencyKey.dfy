/**
 * The idempotency key: what it depends on, and which calls share one.
 *
 * SHA-256 and the text of the JSON dump are parameters; the key-sorting of the dump is modelled.
 */
module IdempotencyKey {
  import opened Wrappers
  import opened KeyOrder
  import EffectProtocol

  /** Tool arguments; the entries of an object are in insertion order. */
  datatype Json =
    | Null
    | Bool(flag: bool)
    | Integer(number: int)
    | Float(amount: real)
    | Text(text: string)
    | List(items: seq<Json>)
    | Object(entries: seq<(string, Json)>)

  /** No object has the same key twice, at any depth (Python dictionaries cannot). */
  ghost predicate WellFormed(j: Json) {
    match j
    case List(items) => forall i :: 0 <= i < |items| ==> WellFormed(items[i])
    case Object(entries) => Distinct(entries) && forall i :: 0 <= i < |entries| ==> WellFormed(entries[i].1)
    case _ => true
  }

  /** The same JSON value: objects are compared as mappings, and `1`, `1.0` and `true` are three values. */
  ghost predicate SameValue(a: Json, b: Json)
    decreases a, 0
  {
    match a
    case List(xs) =>
      b.List? && |xs| == |b.items| && forall i :: 0 <= i < |xs| ==> SameValue(xs[i], b.items[i])
    case Object(xs) =>
      b.Object? && |xs| == |b.entries| && forall i :: 0 <= i < |xs| ==> SameEntry(xs[i], b.entries)
    case _ => a == b
  }

  ghost predicate SameEntry(e: (string, Json), entries: seq<(string, Json)>)
    decreases e.1, 1
  {
    exists k :: 0 <= k < |entries| && entries[k].0 == e.0 && SameValue(e.1, entries[k].1)
  }

  /** What `json.dumps(args, sort_keys=True)` writes out: every object with its keys sorted. */
  function SortKeys(j: Json): Json
    decreases j, 1
  {
    match j
    case List(items) => List(SortEach(items))
    case Object(entries) => Object(Sort(SortEntries(entries)))
    case _ => j
  }

  function SortEach(items: seq<Json>): seq<Json>
    decreases List(items), 0
  {
    seq(|items|, i requires 0 <= i < |items| => SortKeys(items[i]))
  }

  function SortEntries(entries: seq<(string, Json)>): seq<(string, Json)>
    decreases Object(entries), 0
  {
    seq(|entries|, i requires 0 <= i < |entries| => (entries[i].0, SortKeys(entries[i].1)))
  }

  /** `compute_args_hash`: digest of the dump; `dump` writes an already sorted tree as text. */
  function ComputeArgsHash(sha256: string -> string, dump: Json -> string, args: Json): string {
    sha256(dump(SortKeys(args)))
  }

  /* ---------- Mappings as sets of entries ---------- */

  ghost function Keys<V>(entries: seq<(string, V)>): (keys: set<string>)
    ensures forall k :: k in keys <==> exists i :: 0 <= i < |entries| && entries[i].0 == k
  {
    set i | 0 <= i < |entries| :: entries[i].0
  }

  lemma {:induction false} DistinctSize<V>(entries: seq<(string, V)>)
    requires Distinct(entries)
    ensures |Keys(entries)| == |entries|
  {
    if entries != [] {
      var front, last := entries[..|entries| - 1], entries[|entries| - 1];
      DistinctSize(front);
      forall k
        ensures k in Keys(entries) <==> k in Keys(front) + {last.0}
      {
        if k in Keys(front) {
          var i :| 0 <= i < |front| && front[i].0 == k;
          assert entries[i].0 == k;
        }
        if k in Keys(entries) {
          var i :| 0 <= i < |entries| && entries[i].0 == k;
          assert i < |front| ==> front[i].0 == k;
        }
      }
      assert Keys(entries) == Keys(front) + {last.0};
    }
  }

  lemma SubsetOfSameSize(a: set<string>, b: set<string>)
    requires a <= b && |a| == |b|
    ensures a == b
  {
    assert b == a + (b - a) && a !! (b - a);
    assert |b| == |a| + |b - a|;
    assert b - a == {};
  }

  /** Distinct entries, equally many, each one of `a` found in `b`: the same mapping. */
  lemma SameMap<V>(a: seq<(string, V)>, b: seq<(string, V)>)
    requires Distinct(a) && Distinct(b) && |a| == |b|
    requires forall i :: 0 <= i < |a| ==> a[i] in b
    ensures ToMap(a) == ToMap(b)
  {
    DistinctSize(a);
    DistinctSize(b);
    forall k | k in Keys(a)
      ensures k in Keys(b)
    {
      var i :| 0 <= i < |a| && a[i].0 == k;
      var j :| 0 <= j < |b| && b[j] == a[i];
    }
    SubsetOfSameSize(Keys(a), Keys(b));
    forall k
      ensures Lookup(ToMap(a), k) == Lookup(ToMap(b), k)
    {
      ToMapKeys(a, k);
      ToMapKeys(b, k);
      if k in Keys(a) {
        var i :| 0 <= i < |a| && a[i].0 == k;
        var j :| 0 <= j < |b| && b[j] == a[i];
        DistinctLookup(a, i);
        DistinctLookup(b, j);
      }
    }
    MapsEqual(ToMap(a), ToMap(b));
  }

  lemma MapsEqual<V>(a: map<string, V>, b: map<string, V>)
    requires forall k :: Lookup(a, k) == Lookup(b, k)
    ensures a == b
  {
    forall k
      ensures k in a <==> k in b
      ensures k in a ==> a[k] == b[k]
    {
      assert Lookup(a, k) == Lookup(b, k);
    }
  }

  /** And back: the same mapping has each entry of `a` in `b`, and equally many. */
  lemma SameEntries<V>(a: seq<(string, V)>, b: seq<(string, V)>)
    requires Distinct(a) && Distinct(b) && ToMap(a) == ToMap(b)
    ensures |a| == |b| && forall i :: 0 <= i < |a| ==> a[i] in b
  {
    DistinctSize(a);
    DistinctSize(b);
    forall k
      ensures k in Keys(a) <==> k in Keys(b)
    {
      ToMapKeys(a, k);
      ToMapKeys(b, k);
    }
    assert Keys(a) == Keys(b);
    forall i | 0 <= i < |a|
      ensures a[i] in b
    {
      ToMapKeys(a, a[i].0);
      ToMapKeys(b, a[i].0);
      DistinctLookup(a, i);
      var j :| 0 <= j < |b| && b[j].0 == a[i].0;
      DistinctLookup(b, j);
      assert b[j] == a[i];
    }
  }

  /* ---------- The dump forgets insertion order, at every depth, and nothing else ---------- */

  lemma {:induction false} DumpIsCanonical(a: Json, b: Json)
    requires WellFormed(a) && WellFormed(b)
    ensures SortKeys(a) == SortKeys(b) <==> SameValue(a, b)
    decreases a, 2
  {
    match a
    case List(xs) =>
      if b.List? {
        forall i | 0 <= i < |xs| && i < |b.items|
          ensures SortKeys(xs[i]) == SortKeys(b.items[i]) <==> SameValue(xs[i], b.items[i])
        {
          DumpIsCanonical(xs[i], b.items[i]);
        }
        if SortKeys(a) == SortKeys(b) {
          assert |SortEach(xs)| == |xs| && |SortEach(b.items)| == |b.items|;
          assert forall i :: 0 <= i < |xs| ==> SortEach(xs)[i] == SortKeys(xs[i]);
          assert forall i :: 0 <= i < |xs| ==> SortEach(b.items)[i] == SortKeys(b.items[i]);
        }
        if SameValue(a, b) {
          assert SortEach(xs) == SortEach(b.items);
        }
      }
    case Object(xs) =>
      if b.Object? {
        ObjectsCanonical(xs, b.entries);
      }
    case _ =>
  }

  lemma {:induction false} ObjectsCanonical(xs: seq<(string, Json)>, ys: seq<(string, Json)>)
    requires Distinct(xs) && (forall i :: 0 <= i < |xs| ==> WellFormed(xs[i].1))
    requires Distinct(ys) && (forall i :: 0 <= i < |ys| ==> WellFormed(ys[i].1))
    ensures Sort(SortEntries(xs)) == Sort(SortEntries(ys))
            <==> |xs| == |ys| && forall i :: 0 <= i < |xs| ==> SameEntry(xs[i], ys)
    decreases Object(xs), 1
  {
    var sx, sy := SortEntries(xs), SortEntries(ys);
    assert Distinct(sx) && Distinct(sy);
    SortCanonical(sx, sy);
    forall i | 0 <= i < |xs|
      ensures sx[i] in sy <==> SameEntry(xs[i], ys)
    {
      EntryCanonical(xs, ys, i);
    }
    if ToMap(sx) == ToMap(sy) {
      SameEntries(sx, sy);
    }
    if |xs| == |ys| && forall i :: 0 <= i < |xs| ==> SameEntry(xs[i], ys) {
      SameMap(sx, sy);
    }
  }

  lemma {:induction false} EntryCanonical(xs: seq<(string, Json)>, ys: seq<(string, Json)>, i: nat)
    requires i < |xs| && WellFormed(xs[i].1) && (forall k :: 0 <= k < |ys| ==> WellFormed(ys[k].1))
    ensures SortEntries(xs)[i] in SortEntries(ys) <==> SameEntry(xs[i], ys)
    decreases Object(xs), 0
  {
    var e, sy := SortEntries(xs)[i], SortEntries(ys);
    forall k | 0 <= k < |ys|
      ensures SortKeys(xs[i].1) == SortKeys(ys[k].1) <==> SameValue(xs[i].1, ys[k].1)
    {
      DumpIsCanonical(xs[i].1, ys[k].1);
    }
    if e in sy {
      var k :| 0 <= k < |sy| && sy[k] == e;
      assert ys[k].0 == xs[i].0 && SameValue(xs[i].1, ys[k].1);
    }
    if SameEntry(xs[i], ys) {
      var k :| 0 <= k < |ys| && ys[k].0 == xs[i].0 && SameValue(xs[i].1, ys[k].1);
      assert sy[k] == e;
    }
  }

  /** Arguments that are the same JSON mapping have the same hash, whatever order they were written in. */
  lemma ArgsHashIgnoresOrder(sha256: string -> string, dump: Json -> string, a: Json, b: Json)
    requires WellFormed(a) && WellFormed(b) && SameValue(a, b)
    ensures ComputeArgsHash(sha256, dump, a) == ComputeArgsHash(sha256, dump, b)
  {
    DumpIsCanonical(a, b);
  }

  /** Arguments that differ as JSON mappings have different hashes unless dump or digest collide on this very pair. */
  lemma ArgsHashSeparates(sha256: string -> string, dump: Json -> string, a: Json, b: Json)
    requires WellFormed(a) && WellFormed(b)
    requires dump(SortKeys(a)) == dump(SortKeys(b)) ==> SortKeys(a) == SortKeys(b)
    requires sha256(dump(SortKeys(a))) == sha256(dump(SortKeys(b))) ==> dump(SortKeys(a)) == dump(SortKeys(b))
    ensures ComputeArgsHash(sha256, dump, a) == ComputeArgsHash(sha256, dump, b) <==> SameValue(a, b)
  {
    DumpIsCanonical(a, b);
  }

  /* ---------- Equality in Python, which does not see the kind of a number ---------- */

  /** What Python compares numbers and booleans by. */
  function NumberOf(j: Json): Option<real> {
    match j
    case Bool(flag) => Some(if flag then 1.0 else 0.0)
    case Integer(n) => Some(n as real)
    case Float(x) => Some(x)
    case _ => None
  }

  /** Python's `a == b`: `1`, `1.0` and `True` are equal, at every depth. */
  ghost predicate PyEqual(a: Json, b: Json)
    decreases a, 0
  {
    match a
    case List(xs) => b.List? && |xs| == |b.items| && forall i :: 0 <= i < |xs| ==> PyEqual(xs[i], b.items[i])
    case Object(xs) => b.Object? && |xs| == |b.entries| && forall i :: 0 <= i < |xs| ==> PyEntry(xs[i], b.entries)
    case _ => if NumberOf(a).Some? then NumberOf(b) == NumberOf(a) else a == b
  }

  ghost predicate PyEntry(e: (string, Json), entries: seq<(string, Json)>)
    decreases e.1, 1
  {
    exists k :: 0 <= k < |entries| && entries[k].0 == e.0 && PyEqual(e.1, entries[k].1)
  }

  /**
   * At corresponding places there are numbers and booleans of one kind: both integers, both floats or both
   * booleans.
   */
  ghost predicate SameKinds(a: Json, b: Json) {
    match a
    case List(xs) =>
      b.List? ==> forall i :: 0 <= i < |xs| && i < |b.items| ==> SameKinds(xs[i], b.items[i])
    case Object(xs) =>
      b.Object? ==> forall i, k :: 0 <= i < |xs| && 0 <= k < |b.entries| && xs[i].0 == b.entries[k].0 ==>
                      SameKinds(xs[i].1, b.entries[k].1)
    case Bool(_) => b.Bool?
    case Integer(_) => b.Integer?
    case Float(_) => b.Float?
    case _ => true
  }

  /** Two JSON values are the same exactly when Python finds them equal and their numbers are of the same kinds. */
  lemma {:induction false} ValueIsEqualOfKind(a: Json, b: Json)
    requires WellFormed(a) && WellFormed(b)
    ensures SameValue(a, b) <==> PyEqual(a, b) && SameKinds(a, b)
    decreases a, 1
  {
    match a
    case List(xs) =>
      if b.List? && |xs| == |b.items| {
        forall i | 0 <= i < |xs|
          ensures SameValue(xs[i], b.items[i]) <==> PyEqual(xs[i], b.items[i]) && SameKinds(xs[i], b.items[i])
        {
          ValueIsEqualOfKind(xs[i], b.items[i]);
        }
      }
    case Object(xs) =>
      if b.Object? && |xs| == |b.entries| {
        forall i | 0 <= i < |xs|
          ensures SameEntry(xs[i], b.entries) <==> PyEntry(xs[i], b.entries) && EntryKinds(xs[i], b.entries)
        {
          EntryIsEqualOfKind(xs, b.entries, i);
        }
        assert SameKinds(a, b) <==> forall i :: 0 <= i < |xs| ==> EntryKinds(xs[i], b.entries);
      }
    case _ =>
  }

  ghost predicate EntryKinds(e: (string, Json), entries: seq<(string, Json)>) {
    forall k :: 0 <= k < |entries| && e.0 == entries[k].0 ==> SameKinds(e.1, entries[k].1)
  }

  /** Distinct keys: what corresponds to an entry is one entry. */
  lemma {:induction false} EntryIsEqualOfKind(xs: seq<(string, Json)>, ys: seq<(string, Json)>, i: nat)
    requires i < |xs| && WellFormed(xs[i].1) && Distinct(ys) && (forall k :: 0 <= k < |ys| ==> WellFormed(ys[k].1))
    ensures SameEntry(xs[i], ys) <==> PyEntry(xs[i], ys) && EntryKinds(xs[i], ys)
    decreases Object(xs), 0
  {
    forall k | 0 <= k < |ys|
      ensures SameValue(xs[i].1, ys[k].1) <==> PyEqual(xs[i].1, ys[k].1) && SameKinds(xs[i].1, ys[k].1)
    {
      ValueIsEqualOfKind(xs[i].1, ys[k].1);
    }
    hide WellFormed, SameValue, PyEqual, SameKinds;
    if SameEntry(xs[i], ys) {
      var k :| 0 <= k < |ys| && ys[k].0 == xs[i].0 && SameValue(xs[i].1, ys[k].1);
      assert forall j :: 0 <= j < |ys| && ys[j].0 == xs[i].0 ==> j == k;
    }
    if PyEntry(xs[i], ys) && EntryKinds(xs[i], ys) {
      var k :| 0 <= k < |ys| && ys[k].0 == xs[i].0 && PyEqual(xs[i].1, ys[k].1);
      assert SameValue(xs[i].1, ys[k].1);
    }
  }

  /** Arguments that Python finds equal share their hash exactly when their numbers are of the same kinds. */
  lemma EqualArgsShareHash(sha256: string -> string, dump: Json -> string, a: Json, b: Json)
    requires WellFormed(a) && WellFormed(b) && PyEqual(a, b)
    requires dump(SortKeys(a)) == dump(SortKeys(b)) ==> SortKeys(a) == SortKeys(b)
    requires sha256(dump(SortKeys(a))) == sha256(dump(SortKeys(b))) ==> dump(SortKeys(a)) == dump(SortKeys(b))
    ensures ComputeArgsHash(sha256, dump, a) == ComputeArgsHash(sha256, dump, b) <==> SameKinds(a, b)
  {
    ArgsHashSeparates(sha256, dump, a, b);
    ValueIsEqualOfKind(a, b);
  }

  /** `{"n": 1}` and `{"n": 1.0}` are equal in Python and have different hashes. */
  lemma IntegerAndFloatDiffer(sha256: string -> string, dump: Json -> string, key: string, n: int)
    requires var a, b := SortKeys(Object([(key, Integer(n))])), SortKeys(Object([(key, Float(n as real))]));
             dump(a) != dump(b) && (sha256(dump(a)) == sha256(dump(b)) ==> dump(a) == dump(b))
    ensures var a, b := Object([(key, Integer(n))]), Object([(key, Float(n as real))]);
            && WellFormed(a) && WellFormed(b) && PyEqual(a, b)
            && ComputeArgsHash(sha256, dump, a) != ComputeArgsHash(sha256, dump, b)
  {
    var xs, ys := [(key, Integer(n))], [(key, Float(n as real))];
    assert PyEqual(xs[0].1, ys[0].1);
    assert PyEntry(xs[0], ys);
  }

  /* ---------- Which calls share a key ---------- */

  function Raw(runId: string, stepId: string, toolName: string, argsHash: string): string {
    runId + stepId + toolName + argsHash
  }

  /** Argument hashes have one length, so the digested texts are equal exactly when both parts are. */
  lemma RawSplits(r1: string, s1: string, t1: string, h1: string, r2: string, s2: string, t2: string, h2: string)
    requires |h1| == |h2|
    ensures Raw(r1, s1, t1, h1) == Raw(r2, s2, t2, h2) <==> r1 + s1 + t1 == r2 + s2 + t2 && h1 == h2
  {
    var a, b := r1 + s1 + t1, r2 + s2 + t2;
    if a + h1 == b + h2 {
      assert |a| == |b|;
      assert a == (a + h1)[..|a|] && b == (b + h2)[..|b|];
      assert h1 == (a + h1)[|a|..] && h2 == (b + h2)[|b|..];
    }
  }

  /** With run ids of one length and step ids of one length, equal texts are the same run, step, tool and arguments. */
  lemma FixedLengthsSeparate(r1: string, s1: string, t1: string, h1: string, r2: string, s2: string, t2: string,
                             h2: string)
    requires |h1| == |h2| && |r1| == |r2| && |s1| == |s2|
    ensures Raw(r1, s1, t1, h1) == Raw(r2, s2, t2, h2) <==> r1 == r2 && s1 == s2 && t1 == t2 && h1 == h2
  {
    RawSplits(r1, s1, t1, h1, r2, s2, t2, h2);
    var a, b := r1 + s1 + t1, r2 + s2 + t2;
    if a == b {
      assert r1 == a[..|r1|] && r2 == b[..|r2|];
      assert s1 == a[|r1|..|r1| + |s1|] && s2 == b[|r2|..|r2| + |s2|];
      assert t1 == a[|r1| + |s1|..] && t2 == b[|r2| + |s2|..];
    }
  }

  /**
   * The key of two calls is shared exactly when their digested texts are, as long as the digest does not
   * collide on them.
   */
  lemma KeysShared(sha256: string -> string, r1: string, s1: string, t1: string, h1: string,
                   r2: string, s2: string, t2: string, h2: string)
    requires |h1| == |h2|
    requires sha256(Raw(r1, s1, t1, h1)) == sha256(Raw(r2, s2, t2, h2)) ==> Raw(r1, s1, t1, h1) == Raw(r2, s2, t2, h2)
    ensures EffectProtocol.ComputeIdempotencyKey(sha256, r1, s1, t1, h1) ==
            EffectProtocol.ComputeIdempotencyKey(sha256, r2, s2, t2, h2)
            <==> r1 + s1 + t1 == r2 + s2 + t2 && h1 == h2
  {
    RawSplits(r1, s1, t1, h1, r2, s2, t2, h2);
  }

  /** Nothing separates the parts: two different runs share every key, under every digest. */
  lemma DifferentRunsShareKeys(sha256: string -> string, toolName: string, argsHash: string)
    ensures EffectProtocol.ComputeIdempotencyKey(sha256, "run1", "2", toolName, argsHash) ==
            EffectProtocol.ComputeIdempotencyKey(sha256, "run", "12", toolName, argsHash)
  {
    assert "run1" + "2" == "run12" == "run" + "12";
  }
}
