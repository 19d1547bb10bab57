/** Rebuilding the state of a run from its events: a left fold, its slices and its step index. */
module EventSourcedState {
  import opened Wrappers
  import opened KeyOrder
  import opened FrozenState

  datatype ExecutionEvent = ExecutionEvent(kind: string, runId: Option<string>, payload: Pairs)

  type State = map<string, Value>

  function GetPayload(e: ExecutionEvent, key: string): Value {
    FirstMatch(e.payload, key).GetOr(VNone)
  }

  /** Python's truth value. */
  predicate Truthy(v: Value) {
    match v
    case VNone => false
    case VBool(b) => b
    case VInt(n) => n != 0
    case VReal(x) => x != 0.0
    case VText(t) => t != ""
    case VOther(_, truthy) => truthy
  }

  /** The values to which Python can add a number. */
  predicate Numeric(v: Value) {
    v.VInt? || v.VBool? || v.VReal?
  }

  /** `v + n`: a float stays a float, a truth value becomes an integer. */
  function Plus(v: Value, n: nat): Value
    requires Numeric(v)
  {
    match v
    case VInt(k) => VInt(k + n)
    case VBool(b) => VInt((if b then 1 else 0) + n)
    case VReal(x) => VReal(x + n as real)
  }

  /** Nothing, `False`, zero and the empty text are false; other objects decide for themselves. */
  lemma TruthyExactly(v: Value)
    ensures !v.VOther? ==>
              (Truthy(v) <==> !(v in {VNone, VBool(false), VInt(0), VReal(0.0), VText("")}))
    ensures v.VOther? ==> Truthy(v) == v.truthy
  {
  }

  /** Adding keeps the kind of integers and floats, makes an integer of a truth value, and adds up. */
  lemma PlusExactly(v: Value, m: nat, n: nat)
    ensures Numeric(v) <==> v.VInt? || v.VBool? || v.VReal?
    ensures Numeric(v) ==> Plus(Plus(v, m), n) == Plus(v, m + n)
    ensures v.VInt? ==> Plus(v, n) == VInt(v.number + n)
    ensures v.VReal? ==> Plus(v, n) == VReal(v.amount + n as real)
    ensures Plus(VBool(true), n) == VInt(1 + n) && Plus(VBool(false), n) == VInt(n)
  {
  }

  function StepOf(s: State): Value {
    if "step_index" in s then s["step_index"] else VInt(0)
  }

  /** `step_index + 1`; `None` is the `TypeError` of adding to something that is no number. */
  function Advance(s: State): Option<State> {
    if Numeric(StepOf(s)) then Some(s["step_index" := Plus(StepOf(s), 1)]) else None
  }

  function ReduceRunStarted(s: State, e: ExecutionEvent): State {
    var started := s["status" := VText("started")];
    var fromPayload := GetPayload(e, "run_id");
    var runId := if Truthy(fromPayload) then fromPayload
                 else if e.runId.Some? then VText(e.runId.value) else VNone;
    if Truthy(runId) then started["run_id" := runId] else started
  }

  function ReduceRunFailed(s: State, e: ExecutionEvent): State {
    var failed := s["status" := VText("failed")];
    var error := GetPayload(e, "error");
    if error != VNone then failed["error" := error] else failed
  }

  function ReduceComponentStarted(s: State, e: ExecutionEvent): State {
    var component := GetPayload(e, "component");
    if Truthy(component) then s["active_component" := component] else s
  }

  function ReduceComponentFinished(s: State, e: ExecutionEvent): Option<State> {
    match Advance(s)
    case None => None
    case Some(next) =>
      var result := GetPayload(e, "result");
      Some((if result != VNone then next["last_result" := result] else next) - {"active_component"})
  }

  function ReduceCheckpoint(s: State, e: ExecutionEvent, key: string): State {
    var idx := GetPayload(e, "step_index");
    if idx != VNone then s[key := idx] else s
  }

  const REDUCED_KINDS: set<string> := {
    "run_started", "run_finished", "run_failed", "run_cancelled", "run_timed_out", "component_started",
    "component_finished", "component_skipped", "checkpoint_saved", "checkpoint_restored"}

  /** The reducer registered for the event's kind, or nothing for any other kind. */
  function Reduce(s: State, e: ExecutionEvent): Option<State> {
    if e.kind == "run_started" then Some(ReduceRunStarted(s, e))
    else if e.kind == "run_finished" then Some(s["status" := VText("finished")])
    else if e.kind == "run_failed" then Some(ReduceRunFailed(s, e))
    else if e.kind == "run_cancelled" then Some(s["status" := VText("cancelled")])
    else if e.kind == "run_timed_out" then Some(s["status" := VText("timed_out")])
    else if e.kind == "component_started" then Some(ReduceComponentStarted(s, e))
    else if e.kind == "component_finished" then ReduceComponentFinished(s, e)
    else if e.kind == "component_skipped" then Advance(s)
    else if e.kind == "checkpoint_saved" then Some(ReduceCheckpoint(s, e, "last_checkpoint_index"))
    else if e.kind == "checkpoint_restored" then Some(ReduceCheckpoint(s, e, "step_index"))
    else Some(s)
  }

  function Replay(s: Option<State>, events: seq<ExecutionEvent>): Option<State> {
    if events == [] then s
    else
      var front := Replay(s, events[..|events| - 1]);
      if front.None? then None else Reduce(front.value, events[|events| - 1])
  }

  const EMPTY: Option<State> := Some(map[])

  /** Python's `events[k:]`: a negative index counts from the end, an index past the end gives nothing. */
  function SliceStart(n: nat, k: int): nat {
    if k >= 0 then (if k <= n then k else n) else if n + k >= 0 then n + k else 0
  }

  function Fork(events: seq<ExecutionEvent>, fromIndex: int): seq<ExecutionEvent> {
    events[SliceStart(|events|, fromIndex)..]
  }

  /* ---------- The fold loop ---------- */

  /** `FrozenState(**state)`: the items come in some order and are sorted. */
  method Freeze(s: State) returns (frozen: FrozenState)
    ensures frozen.data == SortedItems(s)
  {
    var items: Pairs := [];
    var left := s.Keys;
    while left != {}
      invariant left <= s.Keys && Distinct(items)
      invariant ToMap(items) == s - left
      decreases left
    {
      hide ToMap;
      var key :| key in left;
      AppendItem(items, (key, s[key]));
      items := items + [(key, s[key])];
      left := left - {key};
    }
    SortSorts(items);
    SortedItemsSorted(s);
    SortedUnique(Sort(items), SortedItems(s));
    assert s - {} == s;
    frozen := FrozenState(Sort(items));
  }

  lemma AppendItem(items: Pairs, e: (string, Value))
    requires Distinct(items) && e.0 !in ToMap(items)
    ensures Distinct(items + [e]) && ToMap(items + [e]) == ToMap(items)[e.0 := e.1]
  {
    assert (items + [e])[..|items|] == items;
    ToMapKeys(items, e.0);
  }

  /** `fold`: the state of the whole log, frozen; it fails only where a step index is no number. */
  method Fold(events: seq<ExecutionEvent>) returns (result: Option<FrozenState>)
    ensures result == match Replay(EMPTY, events)
                      case None => None
                      case Some(s) => Some(FrozenState(SortedItems(s)))
    ensures result.Some? ==> result.value.Valid()
  {
    var state: State := map[];
    for i := 0 to |events|
      invariant Replay(EMPTY, events[..i]) == Some(state)
      invariant RESERVED !in state
    {
      assert events[..i + 1][..i] == events[..i];
      NoReservedKey(state, events[i]);
      var next := Reduce(state, events[i]);
      if next.None? {
        ReplaySplit(EMPTY, events[..i + 1], events[i + 1..]);
        ReplayFails(events[i + 1..]);
        assert events == events[..i + 1] + events[i + 1..];
        return None;
      }
      state := next.value;
    }
    assert events[..|events|] == events;
    SortedItemsSorted(state);
    var frozen := Freeze(state);
    result := Some(frozen);
  }

  lemma NoReservedKey(s: State, e: ExecutionEvent)
    requires RESERVED !in s
    ensures Reduce(s, e).Some? ==> RESERVED !in Reduce(s, e).value
  {
  }

  lemma {:induction false} ReplayFails(events: seq<ExecutionEvent>)
    ensures Replay(None, events) == None
  {
    if events != [] {
      ReplayFails(events[..|events| - 1]);
    }
  }

  /* ---------- Replay composes ---------- */

  /** Replaying a concatenation is replaying the second part from where the first one led. */
  lemma {:induction false} ReplaySplit(s: Option<State>, xs: seq<ExecutionEvent>, ys: seq<ExecutionEvent>)
    ensures Replay(s, xs + ys) == Replay(Replay(s, xs), ys)
  {
    if ys == [] {
      assert xs + ys == xs;
    } else {
      ReplaySplit(s, xs, ys[..|ys| - 1]);
      assert (xs + ys)[..|xs + ys| - 1] == xs + ys[..|ys| - 1];
    }
  }

  /** For every slice index, the full fold resumes from the fold of the events before the slice. */
  lemma {:induction false} ForkResumes(events: seq<ExecutionEvent>, k: int)
    ensures Replay(EMPTY, events) == Replay(Replay(EMPTY, events[..SliceStart(|events|, k)]), Fork(events, k))
    ensures 0 <= k <= |events| ==> Replay(EMPTY, events) == Replay(Replay(EMPTY, events[..k]), Fork(events, k))
    ensures k > |events| ==> Fork(events, k) == []
    ensures 0 <= k <= |events| ==> Fork(events, k) == events[k..]
    ensures -|events| <= k < 0 ==> |Fork(events, k)| == -k && Fork(events, k) == events[|events| + k..]
    ensures k < -|events| ==> Fork(events, k) == events
  {
    var cut := SliceStart(|events|, k);
    assert events == events[..cut] + events[cut..];
    ReplaySplit(EMPTY, events[..cut], events[cut..]);
  }

  function Known(events: seq<ExecutionEvent>): seq<ExecutionEvent> {
    if events == [] then []
    else Known(events[..|events| - 1]) +
         (if events[|events| - 1].kind in REDUCED_KINDS then [events[|events| - 1]] else [])
  }

  /** Events of unknown kinds can be deleted. */
  lemma {:induction false} UnknownKindsIgnored(s: Option<State>, events: seq<ExecutionEvent>)
    ensures Replay(s, Known(events)) == Replay(s, events)
  {
    if events != [] {
      var front, last := events[..|events| - 1], events[|events| - 1];
      UnknownKindsIgnored(s, front);
      if last.kind in REDUCED_KINDS {
        ReplaySplit(s, Known(front), [last]);
        assert [last][..0] == [];
      } else {
        assert Known(events) == Known(front);
        UnknownStutters(Replay(s, front), last);
      }
    }
  }

  lemma UnknownStutters(s: Option<State>, e: ExecutionEvent)
    requires e.kind !in REDUCED_KINDS
    ensures s.Some? ==> Reduce(s.value, e) == s
  {
  }

  /* ---------- The other keys: the last event that touches a key decides it ---------- */

  datatype Touch = Untouched | Removed | Written(value: Value)

  function WrittenUnless(v: Value, absent: bool): Touch {
    if absent then Untouched else Written(v)
  }

  /** What an event means for one key, key by key (the step index aside). */
  function Effect(e: ExecutionEvent, key: string): Touch {
    match key
    case "status" =>
      (match e.kind
       case "run_started" => Written(VText("started"))
       case "run_finished" => Written(VText("finished"))
       case "run_failed" => Written(VText("failed"))
       case "run_cancelled" => Written(VText("cancelled"))
       case "run_timed_out" => Written(VText("timed_out"))
       case _ => Untouched)
    case "run_id" =>
      if e.kind != "run_started" then Untouched
      else if Truthy(GetPayload(e, "run_id")) then Written(GetPayload(e, "run_id"))
      else if e.runId.Some? && e.runId.value != "" then Written(VText(e.runId.value))
      else Untouched
    case "error" => WrittenUnless(GetPayload(e, "error"), e.kind != "run_failed" || GetPayload(e, "error") == VNone)
    case "last_result" =>
      WrittenUnless(GetPayload(e, "result"), e.kind != "component_finished" || GetPayload(e, "result") == VNone)
    case "last_checkpoint_index" =>
      WrittenUnless(GetPayload(e, "step_index"), e.kind != "checkpoint_saved" || GetPayload(e, "step_index") == VNone)
    case "active_component" =>
      if e.kind == "component_finished" then Removed
      else WrittenUnless(GetPayload(e, "component"),
                         e.kind != "component_started" || !Truthy(GetPayload(e, "component")))
    case _ => Untouched
  }

  lemma ReduceEffect(s: State, e: ExecutionEvent, key: string)
    requires key != "step_index" && Reduce(s, e).Some?
    ensures Lookup(Reduce(s, e).value, key) ==
            match Effect(e, key)
            case Untouched => Lookup(s, key)
            case Removed => None
            case Written(v) => Some(v)
  {
    hide FirstMatch, Numeric, Plus, StepOf;
  }

  lemma {:induction false} LastTouchDecides(events: seq<ExecutionEvent>, key: string, k: nat)
    requires Replay(EMPTY, events).Some? && key != "step_index"
    requires k < |events| && Effect(events[k], key) != Untouched
    requires forall i :: k < i < |events| ==> Effect(events[i], key) == Untouched
    ensures Lookup(Replay(EMPTY, events).value, key) ==
            if Effect(events[k], key) == Removed then None else Some(Effect(events[k], key).value)
  {
    var n := |events| - 1;
    hide Reduce, Effect;
    ReduceEffect(Replay(EMPTY, events[..n]).value, events[n], key);
    if k < n {
      LastTouchDecides(events[..n], key, k);
    }
  }

  lemma {:induction false} NeverTouchedAbsent(events: seq<ExecutionEvent>, key: string)
    requires Replay(EMPTY, events).Some? && key != "step_index"
    requires forall i :: 0 <= i < |events| ==> Effect(events[i], key) == Untouched
    ensures key !in Replay(EMPTY, events).value
  {
    if events != [] {
      var n := |events| - 1;
      hide Reduce, Effect;
      NeverTouchedAbsent(events[..n], key);
      ReduceEffect(Replay(EMPTY, events[..n]).value, events[n], key);
    }
  }

  /* ---------- The step index ---------- */

  predicate Advances(e: ExecutionEvent) {
    e.kind == "component_finished" || e.kind == "component_skipped"
  }

  predicate Restores(e: ExecutionEvent) {
    e.kind == "checkpoint_restored" && GetPayload(e, "step_index") != VNone
  }

  function CountAdvances(events: seq<ExecutionEvent>): nat {
    if events == [] then 0
    else CountAdvances(events[..|events| - 1]) + (if Advances(events[|events| - 1]) then 1 else 0)
  }

  /** How many events there are up to and including the last effective restore; 0 if there is none. */
  function AfterLastRestore(events: seq<ExecutionEvent>): (n: nat)
    ensures n <= |events|
  {
    if events == [] then 0
    else if Restores(events[|events| - 1]) then |events|
    else AfterLastRestore(events[..|events| - 1])
  }

  lemma {:induction false} AfterLastRestoreMeans(events: seq<ExecutionEvent>)
    ensures var n := AfterLastRestore(events);
            && (n > 0 ==> Restores(events[n - 1]))
            && forall i :: n <= i < |events| ==> !Restores(events[i])
  {
    if events != [] {
      AfterLastRestoreMeans(events[..|events| - 1]);
    }
  }

  /** The index of the last restore, or 0. */
  function RestoredIndex(events: seq<ExecutionEvent>): Value {
    var n := AfterLastRestore(events);
    if n == 0 then VInt(0) else GetPayload(events[n - 1], "step_index")
  }

  /** `n` times `v + 1`. */
  function AddSteps(v: Value, n: nat): Value {
    if n > 0 && Numeric(v) then Plus(v, n) else v
  }

  lemma StepOfReduce(s: State, e: ExecutionEvent)
    ensures Reduce(s, e).None? <==> Advances(e) && !Numeric(StepOf(s))
    ensures Reduce(s, e).Some? ==>
              StepOf(Reduce(s, e).value) ==
              if Restores(e) then GetPayload(e, "step_index")
              else if Advances(e) then AddSteps(StepOf(s), 1)
              else StepOf(s)
  {
  }

  lemma CountSnoc(xs: seq<ExecutionEvent>, e: ExecutionEvent)
    ensures CountAdvances(xs + [e]) == CountAdvances(xs) + (if Advances(e) then 1 else 0)
  {
    assert (xs + [e])[..|xs|] == xs;
  }

  lemma AfterLastRestoreSnoc(front: seq<ExecutionEvent>, e: ExecutionEvent)
    ensures AfterLastRestore(front + [e]) == if Restores(e) then |front| + 1 else AfterLastRestore(front)
    ensures RestoredIndex(front + [e]) == if Restores(e) then GetPayload(e, "step_index") else RestoredIndex(front)
  {
    hide Restores, GetPayload;
    assert (front + [e])[..|front|] == front && (front + [e])[|front|] == e;
  }

  lemma StepsSnoc(front: seq<ExecutionEvent>, e: ExecutionEvent)
    ensures CountAdvances((front + [e])[AfterLastRestore(front + [e])..]) ==
            if Restores(e) then 0
            else CountAdvances(front[AfterLastRestore(front)..]) + (if Advances(e) then 1 else 0)
  {
    AfterLastRestoreSnoc(front, e);
    hide AfterLastRestore, Restores, Advances;
    var n := AfterLastRestore(front);
    if !Restores(e) {
      assert (front + [e])[n..] == front[n..] + [e];
      CountSnoc(front[n..], e);
    }
  }

  /** The folded step index is the last restored index, or 0, plus the finished and skipped components since. */
  lemma {:induction false} StepIndexIs(events: seq<ExecutionEvent>)
    requires Replay(EMPTY, events).Some?
    ensures StepOf(Replay(EMPTY, events).value) ==
            AddSteps(RestoredIndex(events), CountAdvances(events[AfterLastRestore(events)..]))
  {
    if events != [] {
      var front, last := events[..|events| - 1], events[|events| - 1];
      assert events == front + [last];
      StepIndexIs(front);
      hide Reduce, AfterLastRestore, RestoredIndex, CountAdvances;
      StepOfReduce(Replay(EMPTY, front).value, last);
      AfterLastRestoreSnoc(front, last);
      StepsSnoc(front, last);
    }
  }

  /** The event advances the step index while the last restored index is no number. */
  predicate BadAdvance(events: seq<ExecutionEvent>, i: nat)
    requires i < |events|
  {
    Advances(events[i]) && !Numeric(RestoredIndex(events[..i]))
  }

  lemma LastIsBad(events: seq<ExecutionEvent>, k: nat)
    requires |events| == k + 1 && Replay(EMPTY, events[..k]).Some?
    ensures Replay(EMPTY, events).None? <==> BadAdvance(events, k)
  {
    StepIndexIs(events[..k]);
    StepOfReduce(Replay(EMPTY, events[..k]).value, events[k]);
    var v, n := RestoredIndex(events[..k]), CountAdvances(events[..k][AfterLastRestore(events[..k])..]);
    assert Numeric(AddSteps(v, n)) <==> Numeric(v);
    hide Reduce, AfterLastRestore, RestoredIndex, CountAdvances, AddSteps, Numeric, StepOf, Advances;
  }

  lemma BadInPrefix(events: seq<ExecutionEvent>, k: nat, i: nat)
    requires i < k <= |events|
    ensures BadAdvance(events[..k], i) <==> BadAdvance(events, i)
  {
    assert events[..k][..i] == events[..i];
  }

  /** The fold fails exactly when some component finishes or is skipped while the last restored index is no number. */
  lemma {:induction false} FoldFailsExactly(events: seq<ExecutionEvent>)
    ensures Replay(EMPTY, events).None? <==> exists i :: 0 <= i < |events| && BadAdvance(events, i)
  {
    if events != [] {
      var k := |events| - 1;
      FoldFailsExactly(events[..k]);
      forall i | 0 <= i < k
        ensures BadAdvance(events[..k], i) <==> BadAdvance(events, i)
      {
        BadInPrefix(events, k, i);
      }
      if Replay(EMPTY, events[..k]).Some? {
        LastIsBad(events, k);
      }
      hide Reduce, BadAdvance;
    }
  }

  function RestoreTo(index: Value): ExecutionEvent {
    ExecutionEvent("checkpoint_restored", None, [("step_index", index)])
  }

  /**
   * A component that finishes right after a restore moves the step index on from a number, and fails on
   * anything else.
   */
  lemma AdvanceAfterRestore(index: Value)
    requires index != VNone
    ensures var log := [RestoreTo(index), ExecutionEvent("component_finished", None, [])];
            if Numeric(index) then Replay(EMPTY, log) == Some(map["step_index" := Plus(index, 1)])
            else Replay(EMPTY, log) == None
  {
    var restore, finish := RestoreTo(index), ExecutionEvent("component_finished", None, []);
    var log := [restore, finish];
    assert log[..1] == [restore] && [restore][..0] == [];
    assert Reduce(map[], restore) == Some(map["step_index" := index]);
    assert Replay(EMPTY, [restore]) == Some(map["step_index" := index]);
    assert Numeric(index) ==> map["step_index" := index]["step_index" := Plus(index, 1)] - {"active_component"} ==
                              map["step_index" := Plus(index, 1)];
  }

  /** A step index restored to a text: the next finished component cannot be folded. One restored to 2.0 becomes 3.0. */
  lemma RestoredTextFails()
    ensures Replay(EMPTY, [RestoreTo(VText("two")), ExecutionEvent("component_finished", None, [])]) == None
    ensures Replay(EMPTY, [RestoreTo(VReal(2.0)), ExecutionEvent("component_finished", None, [])]) ==
            Some(map["step_index" := VReal(3.0)])
  {
    AdvanceAfterRestore(VText("two"));
    AdvanceAfterRestore(VReal(2.0));
  }

  /** Without restores the step index moves by the same events from the same index, whatever else the states hold. */
  lemma {:induction false} StepMovesAlike(s: State, t: State, events: seq<ExecutionEvent>)
    requires StepOf(s) == StepOf(t) && forall i :: 0 <= i < |events| ==> !Restores(events[i])
    ensures Replay(Some(s), events).None? <==> Replay(Some(t), events).None?
    ensures Replay(Some(s), events).Some? ==>
              StepOf(Replay(Some(s), events).value) == StepOf(Replay(Some(t), events).value)
  {
    if events != [] {
      var front, last := events[..|events| - 1], events[|events| - 1];
      StepMovesAlike(s, t, front);
      hide Reduce;
      if Replay(Some(s), front).Some? {
        StepOfReduce(Replay(Some(s), front).value, last);
        StepOfReduce(Replay(Some(t), front).value, last);
      }
    }
  }

  /** The step index is never `None`: a restore without an index is ignored. */
  lemma {:induction false} StepIsSomething(events: seq<ExecutionEvent>)
    ensures Replay(EMPTY, events).Some? ==> StepOf(Replay(EMPTY, events).value) != VNone
  {
    if events != [] {
      var front, last := events[..|events| - 1], events[|events| - 1];
      StepIsSomething(front);
      hide Reduce;
      if Replay(EMPTY, front).Some? {
        StepOfReduce(Replay(EMPTY, front).value, last);
      }
    }
  }

  /**
   * Restoring the index held at a prefix and repeating the restore-free events after it ends at
   * the step index of the uninterrupted log.
   */
  lemma RepeatAfterRestore(before: seq<ExecutionEvent>, after: seq<ExecutionEvent>, restore: ExecutionEvent)
    requires Replay(EMPTY, before + after).Some?
    requires forall i :: 0 <= i < |after| ==> !Restores(after[i])
    requires restore.kind == "checkpoint_restored"
    requires Replay(EMPTY, before).Some? ==>
               GetPayload(restore, "step_index") == StepOf(Replay(EMPTY, before).value)
    ensures var again := Replay(EMPTY, before + after + [restore] + after);
            again.Some? && StepOf(again.value) == StepOf(Replay(EMPTY, before + after).value)
  {
    hide Reduce;
    ReplaySplit(EMPTY, before, after);
    if Replay(EMPTY, before).None? {
      ReplayFails(after);
    }
    var held := Replay(EMPTY, before).value;
    var full := Replay(EMPTY, before + after).value;
    StepIsSomething(before);
    ReplaySplit(EMPTY, before + after, [restore]);
    assert [restore][..0] == [];
    StepOfReduce(full, restore);
    var restored := Replay(EMPTY, before + after + [restore]).value;
    StepMovesAlike(held, restored, after);
    ReplaySplit(EMPTY, before + after + [restore], after);
  }
}
