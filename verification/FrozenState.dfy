/** The immutable state container and the run context that carries it. */
module FrozenState {
  import opened Wrappers
  import opened KeyOrder

  /** What is stored; `VOther` stands for the objects that are none of the rest and to which 1 cannot be added. */
  datatype Value =
    | VNone
    | VBool(flag: bool)
    | VInt(number: int)
    | VReal(amount: real)
    | VText(text: string)
    | VOther(ident: int, truthy: bool)

  datatype StateError = ReservedKey

  const RESERVED := "_data"

  /** Key/value pairs in the order in which they are held. */
  type Pairs = seq<(string, Value)>

  datatype FrozenState = FrozenState(data: Pairs) {
    /** What every construction guarantees: sorted by key, no key twice, no reserved key. */
    ghost predicate Valid() {
      Sorted(data) && RESERVED !in ToMap(data)
    }

    /** The first pair with the key, or the default. */
    function Get(key: string, default: Value): Value {
      FirstMatch(data, key).GetOr(default)
    }

    function ToDict(): map<string, Value> {
      ToMap(data)
    }

    function Evolve(updates: Pairs): Result<FrozenState, StateError> {
      Make(Update(data, updates))
    }
  }

  /** `FrozenState(**kwargs)`; `kwargs` lists the arguments in the order given. */
  function Make(kwargs: Pairs): Result<FrozenState, StateError> {
    if RESERVED in ToMap(kwargs) then Err(ReservedKey) else Ok(FrozenState(Sort(kwargs)))
  }

  /** `d[key] = value` on a dictionary held as pairs: in place if the key is there, else at the end. */
  function SetItem(entries: Pairs, e: (string, Value)): Pairs {
    if entries == [] then [e]
    else if entries[0].0 == e.0 then [e] + entries[1..]
    else [entries[0]] + SetItem(entries[1..], e)
  }

  /** `d.update(updates)`. */
  function Update(entries: Pairs, updates: Pairs): Pairs
    decreases |updates|
  {
    if updates == [] then entries else Update(SetItem(entries, updates[0]), updates[1..])
  }

  lemma OverrideHead(m: map<string, Value>, k: string, before: Value, after: Value)
    requires k !in m
    ensures map[k := after] + m == (map[k := before] + m)[k := after]
  {
  }

  lemma OverrideTail(m: map<string, Value>, k: string, v: Value, key: string, after: Value)
    requires k != key
    ensures map[k := v] + m[key := after] == (map[k := v] + m)[key := after]
  {
  }

  lemma OverrideTwice(m: map<string, Value>, key: string, v: Value, n: map<string, Value>)
    ensures m[key := v] + n == m + (map[key := v] + n)
  {
  }

  lemma {:induction false} SetItemMap(entries: Pairs, e: (string, Value))
    requires Distinct(entries)
    ensures ToMap(SetItem(entries, e)) == ToMap(entries)[e.0 := e.1]
  {
    if entries != [] {
      hide ToMap;
      var head, tail := entries[0], entries[1..];
      assert entries == [head] + tail;
      ToMapCons(head, tail);
      if head.0 == e.0 {
        ToMapCons(e, tail);
        ToMapKeys(tail, e.0);
        OverrideHead(ToMap(tail), head.0, head.1, e.1);
      } else {
        SetItemMap(tail, e);
        ToMapCons(head, SetItem(tail, e));
        OverrideTail(ToMap(tail), head.0, head.1, e.0, e.1);
      }
    }
  }

  lemma {:induction false} SetItemElements(entries: Pairs, e: (string, Value), k: nat)
    requires k < |SetItem(entries, e)|
    ensures SetItem(entries, e)[k].0 == e.0 || SetItem(entries, e)[k] in entries
  {
    if entries != [] && entries[0].0 != e.0 && k > 0 {
      SetItemElements(entries[1..], e, k - 1);
    }
  }

  lemma {:induction false} SetItemDistinct(entries: Pairs, e: (string, Value))
    requires Distinct(entries)
    ensures Distinct(SetItem(entries, e))
  {
    if entries != [] && entries[0].0 != e.0 {
      var rest := SetItem(entries[1..], e);
      SetItemDistinct(entries[1..], e);
      forall k | 0 <= k < |rest|
        ensures rest[k].0 != entries[0].0
      {
        SetItemElements(entries[1..], e, k);
      }
    }
  }

  /** Updating is overriding, key by key. */
  lemma {:induction false} UpdateMap(entries: Pairs, updates: Pairs)
    requires Distinct(entries)
    ensures Distinct(Update(entries, updates))
    ensures ToMap(Update(entries, updates)) == ToMap(entries) + ToMap(updates)
    decreases |updates|
  {
    if updates != [] {
      hide ToMap, Distinct;
      SetItemMap(entries, updates[0]);
      SetItemDistinct(entries, updates[0]);
      UpdateMap(SetItem(entries, updates[0]), updates[1..]);
      ToMapCons(updates[0], updates[1..]);
      assert updates == [updates[0]] + updates[1..];
      OverrideTwice(ToMap(entries), updates[0].0, updates[0].1, ToMap(updates[1..]));
    }
  }

  /* ---------- Canonical form ---------- */

  /** A state is built exactly when the reserved key is absent; it is then valid and is the mapping it was given. */
  lemma {:induction false} MakeValid(kwargs: Pairs)
    requires Distinct(kwargs)
    ensures Make(kwargs).Ok? <==> forall i :: 0 <= i < |kwargs| ==> kwargs[i].0 != RESERVED
    ensures Make(kwargs).Ok? ==> Make(kwargs).value.Valid() && Make(kwargs).value.ToDict() == ToMap(kwargs)
  {
    ToMapKeys(kwargs, RESERVED);
    SortSorts(kwargs);
  }

  /** Two states are equal exactly when they were built from the same mapping, in whatever order. */
  lemma EqualExactly(a: Pairs, b: Pairs)
    requires Distinct(a) && Distinct(b) && Make(a).Ok? && Make(b).Ok?
    ensures Make(a).value == Make(b).value <==> ToMap(a) == ToMap(b)
  {
    SortCanonical(a, b);
  }

  /** The lookup loop agrees with the dictionary view. */
  lemma GetAgrees(s: FrozenState, key: string, default: Value)
    requires s.Valid()
    ensures s.Get(key, default) == if key in s.ToDict() then s.ToDict()[key] else default
  {
    SortedIsDistinct(s.data);
    FirstMatchIsLookup(s.data, key);
  }

  lemma EvolveMap(s: FrozenState, updates: Pairs)
    requires s.Valid()
    ensures s.Evolve(updates).Err? <==> RESERVED in ToMap(updates)
    ensures s.Evolve(updates).Ok? ==>
              s.Evolve(updates).value.Valid() && s.Evolve(updates).value.ToDict() == s.ToDict() + ToMap(updates)
  {
    SortedIsDistinct(s.data);
    UpdateMap(s.data, updates);
    MakeValid(Update(s.data, updates));
  }

  /** Evolving by `a` and then by `b` is evolving once by `a` overridden by `b`. */
  lemma EvolveTwice(s: FrozenState, a: Pairs, b: Pairs)
    requires s.Valid() && Distinct(a)
    requires s.Evolve(a).Ok?
    ensures s.Evolve(a).value.Evolve(b) == s.Evolve(Update(a, b))
  {
    hide ToMap, Sorted, Distinct, Sort, Update, Less;
    EvolveMap(s, a);
    var s1 := s.Evolve(a).value;
    EvolveMap(s1, b);
    UpdateMap(a, b);
    EvolveMap(s, Update(a, b));
    OverrideAssociates(s.ToDict(), ToMap(a), ToMap(b));
    hide FrozenState.Evolve;
    if s1.Evolve(b).Ok? {
      SortedUnique(s1.Evolve(b).value.data, s.Evolve(Update(a, b)).value.data);
    }
  }

  lemma OverrideAssociates(m: map<string, Value>, n: map<string, Value>, o: map<string, Value>)
    ensures (m + n) + o == m + (n + o)
  {
  }

  /* ---------- Run context ---------- */

  datatype RunContext = RunContext(runId: string, state: FrozenState, inputPayload: Value, metadata: Pairs) {
    function WithState(updates: Pairs): Result<RunContext, StateError> {
      match state.Evolve(updates)
      case Ok(s) => Ok(this.(state := s))
      case Err(e) => Err(e)
    }

    function EvolveMetadata(updates: Pairs): RunContext {
      this.(metadata := Sort(Update(Update([], metadata), updates)))
    }

    function WithPreviousResult(result: Value): RunContext {
      EvolveMetadata([("previous_result", result)]).(inputPayload := result)
    }

    function GetMetadata(key: string, default: Value): Value {
      FirstMatch(metadata, key).GetOr(default)
    }
  }

  lemma MetadataMap(c: RunContext, updates: Pairs)
    ensures Sorted(c.EvolveMetadata(updates).metadata)
    ensures ToMap(c.EvolveMetadata(updates).metadata) == ToMap(c.metadata) + ToMap(updates)
  {
    UpdateMap([], c.metadata);
    UpdateMap(Update([], c.metadata), updates);
    SortSorts(Update(Update([], c.metadata), updates));
  }

  /** After evolving, a metadata lookup sees the update, else the last binding the context had. */
  lemma MetadataLookup(c: RunContext, updates: Pairs, key: string, default: Value)
    ensures c.EvolveMetadata(updates).GetMetadata(key, default) ==
            Lookup(ToMap(c.metadata) + ToMap(updates), key).GetOr(default)
  {
    MetadataMap(c, updates);
    SortedIsDistinct(c.EvolveMetadata(updates).metadata);
    FirstMatchIsLookup(c.EvolveMetadata(updates).metadata, key);
  }

  /**
   * A key that is not updated keeps its lookup exactly when its first and its last binding in the
   * old metadata are the same; this is so whenever no key was given twice.
   */
  lemma MetadataFrame(c: RunContext, updates: Pairs, key: string)
    requires key !in ToMap(updates)
    ensures FirstMatch(c.EvolveMetadata(updates).metadata, key) == FirstMatch(c.metadata, key)
            <==> FirstMatch(c.metadata, key) == Lookup(ToMap(c.metadata), key)
    ensures Distinct(c.metadata) ==> FirstMatch(c.metadata, key) == Lookup(ToMap(c.metadata), key)
  {
    MetadataMap(c, updates);
    SortedIsDistinct(c.EvolveMetadata(updates).metadata);
    FirstMatchIsLookup(c.EvolveMetadata(updates).metadata, key);
    if Distinct(c.metadata) {
      FirstMatchIsLookup(c.metadata, key);
    }
  }

  /** With a key given twice, an unrelated update changes what the lookup returns. */
  lemma RepeatedMetadataChanges(c: RunContext)
    requires c.metadata == [("k", VInt(1)), ("k", VInt(2))]
    ensures c.GetMetadata("k", VNone) == VInt(1)
    ensures c.EvolveMetadata([]).GetMetadata("k", VNone) == VInt(2)
  {
    MetadataLookup(c, [], "k", VNone);
    assert c.metadata[..1] == [("k", VInt(1))] && c.metadata[..1][..0] == [];
    assert ToMap(c.metadata)["k"] == VInt(2);
  }

  /**
   * The previous result becomes the input and is found under its key; another key keeps its lookup
   * exactly when its first and its last binding are the same.
   */
  lemma PreviousResultInjected(c: RunContext, result: Value, key: string, default: Value)
    ensures var next := c.WithPreviousResult(result);
            && next.inputPayload == result
            && next.GetMetadata("previous_result", VNone) == result
            && (key != "previous_result" ==>
                  (FirstMatch(next.metadata, key) == FirstMatch(c.metadata, key)
                   <==> FirstMatch(c.metadata, key) == Lookup(ToMap(c.metadata), key)))
            && (key != "previous_result" && Distinct(c.metadata) ==>
                  next.GetMetadata(key, default) == c.GetMetadata(key, default))
            && next.state == c.state && next.runId == c.runId
  {
    var updates := [("previous_result", result)];
    assert updates[..0] == [] && ToMap(updates) == map["previous_result" := result];
    MetadataLookup(c, updates, "previous_result", VNone);
    if key != "previous_result" {
      MetadataFrame(c, updates, key);
    }
  }

  /** `with_state` touches the state alone, and what it stores is what a lookup returns. */
  lemma WithStateLookup(c: RunContext, updates: Pairs, key: string, default: Value)
    requires c.state.Valid() && c.WithState(updates).Ok?
    ensures var next := c.WithState(updates).value;
            && next == c.(state := next.state)
            && next.state.Get(key, default) ==
               Lookup(ToMap(updates), key).GetOr(c.state.Get(key, default))
  {
    EvolveMap(c.state, updates);
    GetAgrees(c.state, key, default);
    GetAgrees(c.WithState(updates).value.state, key, default);
  }
}
