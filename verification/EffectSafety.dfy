/**
 * What every run of the effect protocol keeps, and exactly when two callers can run one effect.
 */
module EffectSafety {
  import opened Wrappers
  import opened EffectProtocol

  /* ---------- Reading one more happening ---------- */

  lemma ReplayAppend(h: seq<Happening>, x: Happening, key: string)
    ensures Replay(h + [x], key) == ReplayOne(Replay(h, key), x, key)
    ensures LawfulHistory(h + [x], key) <==>
            LawfulHistory(h, key) && (x.Emit? && x.event.key == key ==> Lawful(Replay(h, key), x.event))
  {
    assert (h + [x])[..|h|] == h;
  }

  lemma RegistrationsAppend(h: seq<Happening>, x: Happening, stepKey: string)
    ensures Registrations(h + [x], stepKey) == Registrations(h, stepKey) + (if IsRegistration(x, stepKey) then 1 else 0)
  {
    assert (h + [x])[..|h|] == h;
  }

  /** The world's history grows by these happenings. */
  function NewHappenings(cfg: Config, w: World, a: Action): seq<Happening>
    requires Enabled(w, a)
  {
    match a
    case Call(id, d, checked, started) =>
      (match Decide(cfg, w, d, checked)
       case Running => OpeningEvents(cfg, w, d)
       case AlreadyCompleted => [Emit(Skipped(KeyOf(cfg, d), d.runId, d.toolName))]
       case _ => [])
    case ToolReturns(id, _, resultHash) =>
      var r := w.live[id];
      [Emit(Executed(r.idempotencyKey, r.descriptor.runId, r.descriptor.toolName, resultHash))]
    case ToolRaises(id, errorType) =>
      var r := w.live[id];
      [Emit(ToolFailed(r.idempotencyKey, r.descriptor.runId, r.descriptor.toolName, errorType))]
    case Cancelled(_) => []
    case DeleteByRun(runId) => [Erase(KeysOfRun(w.records, runId))]
  }

  lemma HistoryGrows(cfg: Config, w: World, a: Action)
    requires Enabled(w, a)
    ensures Apply(cfg, w, a).history == w.history + NewHappenings(cfg, w, a)
  {
  }

  /** The status that further happenings lead to from `s`, and whether each of them may follow. */
  function ReplayFrom(s: Option<EffectStatus>, xs: seq<Happening>, key: string): Option<EffectStatus>
    decreases |xs|
  {
    if xs == [] then s else ReplayFrom(ReplayOne(s, xs[0], key), xs[1..], key)
  }

  predicate LawfulFrom(s: Option<EffectStatus>, xs: seq<Happening>, key: string)
    decreases |xs|
  {
    xs == [] ||
    ((xs[0].Emit? && xs[0].event.key == key ==> Lawful(s, xs[0].event)) &&
     LawfulFrom(ReplayOne(s, xs[0], key), xs[1..], key))
  }

  lemma {:induction false} ReplayExtend(h: seq<Happening>, xs: seq<Happening>, key: string)
    ensures Replay(h + xs, key) == ReplayFrom(Replay(h, key), xs, key)
    ensures LawfulHistory(h + xs, key) <==> LawfulHistory(h, key) && LawfulFrom(Replay(h, key), xs, key)
    decreases |xs|
  {
    if xs == [] {
      assert h + xs == h;
    } else {
      ReplayAppend(h, xs[0], key);
      ReplayExtend(h + [xs[0]], xs[1..], key);
      assert h + xs == (h + [xs[0]]) + xs[1..];
    }
  }

  /* ---------- The journal is the replay of the events: every run, no assumption ---------- */

  ghost predicate JournalMatches(w: World) {
    forall key :: StatusOf(w.records, key) == Replay(w.history, key)
  }

  lemma NewStatus(cfg: Config, w: World, a: Action, key: string)
    requires Enabled(w, a)
    ensures StatusOf(Apply(cfg, w, a).records, key) ==
            ReplayFrom(StatusOf(w.records, key), NewHappenings(cfg, w, a), key)
  {
    var xs, s := NewHappenings(cfg, w, a), StatusOf(w.records, key);
    if |xs| == 1 {
      assert ReplayFrom(s, xs, key) == ReplayOne(s, xs[0], key);
    } else if |xs| == 2 {
      var s1 := ReplayOne(s, xs[0], key);
      assert xs[1..] == [xs[1]] && xs[1..][1..] == [];
      assert ReplayFrom(s1, xs[1..], key) == ReplayOne(s1, xs[1], key);
      assert ReplayFrom(s, xs, key) == ReplayOne(ReplayOne(s, xs[0], key), xs[1], key);
    }
  }

  lemma JournalMatchesStep(cfg: Config, w: World, a: Action)
    requires JournalMatches(w) && Enabled(w, a)
    ensures JournalMatches(Apply(cfg, w, a))
  {
    HistoryGrows(cfg, w, a);
    forall key
      ensures StatusOf(Apply(cfg, w, a).records, key) == Replay(Apply(cfg, w, a).history, key)
    {
      assert StatusOf(w.records, key) == Replay(w.history, key);
      ReplayExtend(w.history, NewHappenings(cfg, w, a), key);
      NewStatus(cfg, w, a, key);
    }
  }

  /** In every world of every run, a key's journal status is what its published events replay to. */
  lemma {:induction false} ReplayIsJournal(cfg: Config, ws: seq<World>, acts: seq<Action>, i: nat, key: string)
    requires IsRun(cfg, ws, acts) && i < |ws|
    ensures StatusOf(ws[i].records, key) == Replay(ws[i].history, key)
  {
    JournalMatchesAlong(cfg, ws, acts, i);
  }

  lemma {:induction false} JournalMatchesAlong(cfg: Config, ws: seq<World>, acts: seq<Action>, i: nat)
    requires IsRun(cfg, ws, acts) && i < |ws|
    ensures JournalMatches(ws[i])
  {
    if i > 0 {
      JournalMatchesAlong(cfg, ws, acts, i - 1);
      JournalMatchesStep(cfg, ws[i - 1], acts[i - 1]);
    }
  }

  /* ---------- The per-step counters: every run, no assumption ---------- */

  ghost predicate CountersMatch(cfg: Config, w: World) {
    && (forall stepKey :: CountOf(w.counts, stepKey) == Registrations(w.history, stepKey))
    && (forall stepKey :: stepKey in w.counts ==> 1 <= w.counts[stepKey] <= cfg.policy.maxEffectsPerStep)
  }

  lemma RegistrationsNew(cfg: Config, w: World, a: Action, stepKey: string)
    requires Enabled(w, a)
    ensures Registrations(w.history + NewHappenings(cfg, w, a), stepKey) ==
            Registrations(w.history, stepKey) +
            (if a.Call? && Decide(cfg, w, a.descriptor, a.checked) == Running &&
                StepKey(a.descriptor.runId, a.descriptor.stepId) == stepKey then 1 else 0)
  {
    var h, xs := w.history, NewHappenings(cfg, w, a);
    if |xs| == 0 {
      assert h + xs == h;
    } else if |xs| == 1 {
      RegistrationsAppend(h, xs[0], stepKey);
    } else {
      assert h + xs == (h + [xs[0]]) + [xs[1]];
      RegistrationsAppend(h, xs[0], stepKey);
      RegistrationsAppend(h + [xs[0]], xs[1], stepKey);
    }
  }

  lemma CountersMatchStep(cfg: Config, w: World, a: Action)
    requires CountersMatch(cfg, w) && Enabled(w, a)
    ensures CountersMatch(cfg, Apply(cfg, w, a))
  {
    HistoryGrows(cfg, w, a);
    forall stepKey
      ensures CountOf(Apply(cfg, w, a).counts, stepKey) == Registrations(Apply(cfg, w, a).history, stepKey)
    {
      assert CountOf(w.counts, stepKey) == Registrations(w.history, stepKey);
      RegistrationsNew(cfg, w, a, stepKey);
    }
  }

  lemma {:induction false} CountersMatchAlong(cfg: Config, ws: seq<World>, acts: seq<Action>, i: nat)
    requires IsRun(cfg, ws, acts) && i < |ws|
    ensures CountersMatch(cfg, ws[i])
  {
    if i > 0 {
      CountersMatchAlong(cfg, ws, acts, i - 1);
      CountersMatchStep(cfg, ws[i - 1], acts[i - 1]);
    }
  }

  /** The counter of a step counts the registrations under its step key and never passes the limit. */
  lemma CounterCountsRegistrations(cfg: Config, ws: seq<World>, acts: seq<Action>, i: nat, runId: string,
                                   stepId: string)
    requires IsRun(cfg, ws, acts) && i < |ws|
    ensures var n := CountOf(ws[i].counts, StepKey(runId, stepId));
            && n == Registrations(ws[i].history, StepKey(runId, stepId))
            && (n > 0 ==> n <= cfg.policy.maxEffectsPerStep)
  {
    CountersMatchAlong(cfg, ws, acts, i);
  }

  /** Some other run and step registered under the step key of this one. */
  ghost predicate Collides(h: seq<Happening>, runId: string, stepId: string) {
    exists i :: 0 <= i < |h| && IsRegistration(h[i], StepKey(runId, stepId)) && !IsRegistrationOf(h[i], runId, stepId)
  }

  lemma {:induction false} RegistrationsSplit(h: seq<Happening>, runId: string, stepId: string)
    ensures RegistrationsOf(h, runId, stepId) <= Registrations(h, StepKey(runId, stepId))
    ensures RegistrationsOf(h, runId, stepId) == Registrations(h, StepKey(runId, stepId))
            <==> !Collides(h, runId, stepId)
  {
    if h != [] {
      var front, k := h[..|h| - 1], |h| - 1;
      RegistrationsSplit(front, runId, stepId);
      if Collides(front, runId, stepId) {
        var i :| 0 <= i < |front| && IsRegistration(front[i], StepKey(runId, stepId)) &&
                 !IsRegistrationOf(front[i], runId, stepId);
        assert h[i] == front[i];
      } else if IsRegistration(h[k], StepKey(runId, stepId)) && !IsRegistrationOf(h[k], runId, stepId) {
        assert Collides(h, runId, stepId);
      } else {
        assert forall i :: 0 <= i < |front| ==> h[i] == front[i];
      }
    }
  }

  /**
   * The counter of a run and step is the number of its own registrations exactly when no other
   * run and step with the same colon-joined text registered.
   */
  lemma CounterIsPerStep(cfg: Config, ws: seq<World>, acts: seq<Action>, i: nat, runId: string, stepId: string)
    requires IsRun(cfg, ws, acts) && i < |ws|
    ensures CountOf(ws[i].counts, StepKey(runId, stepId)) == RegistrationsOf(ws[i].history, runId, stepId)
            <==> !Collides(ws[i].history, runId, stepId)
  {
    CountersMatchAlong(cfg, ws, acts, i);
    RegistrationsSplit(ws[i].history, runId, stepId);
  }

  lemma FirstColon(r: string, s: string, i: nat)
    requires ':' !in r && i <= |r|
    ensures StepKey(r, s)[i] == ':' <==> i == |r|
  {
    if i < |r| {
      assert StepKey(r, s)[i] == r[i];
    } else {
      assert StepKey(r, s)[i] == ":"[0];
    }
  }

  /** Without a colon in the run ids the joined text determines the pair. */
  lemma StepKeyInjective(r1: string, s1: string, r2: string, s2: string)
    requires StepKey(r1, s1) == StepKey(r2, s2)
    requires ':' !in r1 && ':' !in r2
    ensures r1 == r2 && s1 == s2
  {
    var k := StepKey(r1, s1);
    var shorter := if |r1| < |r2| then |r1| else |r2|;
    FirstColon(r1, s1, shorter);
    FirstColon(r2, s2, shorter);
    assert r1 == k[..|r1|] && r2 == k[..|r2|];
    assert s1 == k[|r1| + 1..] && s2 == k[|r2| + 1..];
  }

  /** A run and step share their counter with another pair exactly when a colon is in one of the two ids. */
  lemma StepKeyShared(r: string, s: string)
    ensures (exists r2, s2 :: StepKey(r2, s2) == StepKey(r, s) && (r2, s2) != (r, s)) <==> ':' in r || ':' in s
  {
    if ':' in r || ':' in s {
      var r2, s2 := Sibling(r, s);
      assert StepKey(r2, s2) == StepKey(r, s) && (r2, s2) != (r, s);
    } else {
      forall r2, s2 | StepKey(r2, s2) == StepKey(r, s)
        ensures (r2, s2) == (r, s)
      {
        OnlyColon(r, s, r2, s2);
      }
    }
  }

  /** The other way of splitting the joined text, at a colon inside one of the ids. */
  lemma Sibling(r: string, s: string) returns (r2: string, s2: string)
    requires ':' in r || ':' in s
    ensures StepKey(r2, s2) == StepKey(r, s) && (r2, s2) != (r, s)
  {
    if ':' in r {
      var i :| 0 <= i < |r| && r[i] == ':';
      r2, s2 := r[..i], r[i + 1..] + ":" + s;
      assert r == r2 + ":" + r[i + 1..];
      assert |r2| < |r|;
    } else {
      var i :| 0 <= i < |s| && s[i] == ':';
      r2, s2 := r + ":" + s[..i], s[i + 1..];
      assert s == s[..i] + ":" + s2;
      assert |r2| > |r|;
    }
  }

  lemma OnlyColon(r: string, s: string, r2: string, s2: string)
    requires ':' !in r && ':' !in s && StepKey(r2, s2) == StepKey(r, s)
    ensures r2 == r && s2 == s
  {
    var k := StepKey(r, s);
    forall i | 0 <= i < |k| && i != |r|
      ensures k[i] != ':'
    {
      if i < |r| {
        assert k[i] == r[i];
      } else {
        assert k[i] == s[i - |r| - 1];
      }
    }
    assert k[|r2|] == ":"[0];
    assert r2 == k[..|r2|] && r == k[..|r|];
    assert s2 == k[|r2| + 1..] && s == k[|r| + 1..];
  }

  /** A run and step whose ids have no colon never share a counter, whatever else is registered. */
  ghost predicate CountsAlone(cfg: Config, runId: string, stepId: string) {
    forall ws: seq<World>, acts: seq<Action>, i: nat :: IsRun(cfg, ws, acts) && i < |ws| ==>
      CountOf(ws[i].counts, StepKey(runId, stepId)) == RegistrationsOf(ws[i].history, runId, stepId)
  }

  /**
   * In all runs the counter of a run and step counts its own registrations, exactly when neither id
   * has a colon (under a policy that lets some effect be registered at all).
   */
  lemma CountsAloneExactly(cfg: Config, runId: string, stepId: string, effectType: string)
    requires cfg.policy.maxEffectsPerStep >= 1
    requires cfg.policy.allowedEffectTypes.Some? ==> effectType in cfg.policy.allowedEffectTypes.value
    ensures CountsAlone(cfg, runId, stepId) <==> ':' !in runId && ':' !in stepId
  {
    if ':' in runId || ':' in stepId {
      var r2, s2 := Sibling(runId, stepId);
      var d := EffectDescriptor(effectType, "", "", r2, s2);
      var acts := [Call(0, d, 0.0, 0.0)];
      var ws := [Start, Apply(cfg, Start, acts[0])];
      var h := ws[1].history;
      assert h == [Emit(Registered(KeyOf(cfg, d), r2, s2, "", effectType))];
      assert h[..0] == [] && !IsRegistrationOf(h[0], runId, stepId);
      assert RegistrationsOf(h, runId, stepId) == 0;
      assert CountOf(ws[1].counts, StepKey(runId, stepId)) == 1;
      assert IsRun(cfg, ws, acts);
      assert !CountsAlone(cfg, runId, stepId);
    } else {
      forall ws: seq<World>, acts: seq<Action>, i: nat | IsRun(cfg, ws, acts) && i < |ws|
        ensures CountOf(ws[i].counts, StepKey(runId, stepId)) == RegistrationsOf(ws[i].history, runId, stepId)
      {
        CounterIsPerStep(cfg, ws, acts, i, runId, stepId);
        StepKeyShared(runId, stepId);
      }
    }
  }

  /**
   * What the policy lets through in any run: an allowed type, and fewer registrations under the
   * step's key so far than the limit.
   */
  lemma PolicyAdmitsExactly(cfg: Config, ws: seq<World>, acts: seq<Action>, i: nat, d: EffectDescriptor)
    requires IsRun(cfg, ws, acts) && i < |ws|
    ensures CheckPolicy(cfg.policy, ws[i].counts, d).None? <==>
            && (cfg.policy.allowedEffectTypes.Some? ==> d.effectType in cfg.policy.allowedEffectTypes.value)
            && Registrations(ws[i].history, StepKey(d.runId, d.stepId)) < cfg.policy.maxEffectsPerStep
  {
    CountersMatchAlong(cfg, ws, acts, i);
  }

  /** With a colon it does not: these two steps share one counter. */
  lemma StepKeyCollision()
    ensures StepKey("a:b", "c") == StepKey("a", "b:c") && ("a:b", "c") != ("a", "b:c")
  {
    assert "a:b" + ":" + "c" == "a:b:c" == "a" + ":" + "b:c";
    assert |"a:b"| != |"a"|;
  }

  /** A counter moves only when a tool is about to run, and then by one, for that step alone. */
  lemma CounterMoves(cfg: Config, w: World, a: Action, stepKey: string)
    requires Enabled(w, a)
    ensures CountOf(Apply(cfg, w, a).counts, stepKey) ==
            CountOf(w.counts, stepKey) +
            if a.Call? && Apply(cfg, w, a).live != w.live && StepKey(a.descriptor.runId, a.descriptor.stepId) == stepKey
            then 1 else 0
  {
    if a.Call? {
      if Decide(cfg, w, a.descriptor, a.checked) == Running {
        assert a.id in Apply(cfg, w, a).live;
      }
    }
  }

  /* ---------- The order of the checks ---------- */

  /**
   * An exhausted step is denied even where the effect has completed: the call changes nothing and
   * publishes nothing.
   */
  lemma ExhaustedStepIsDenied(cfg: Config, w: World, id: nat, d: EffectDescriptor, checked: real, started: real)
    ensures Begin(cfg, w, id, d, checked, started) == w <==>
            (CountOf(w.counts, StepKey(d.runId, d.stepId)) >= cfg.policy.maxEffectsPerStep
             || (cfg.policy.allowedEffectTypes.Some? && d.effectType !in cfg.policy.allowedEffectTypes.value)
             || (StatusOf(w.records, KeyOf(cfg, d)) == Some(PENDING) &&
                 checked <= w.records[KeyOf(cfg, d)].createdAt + cfg.policy.stalePendingTimeoutSeconds))
  {
    if Decide(cfg, w, d, checked) == Running {
      assert |OpeningEvents(cfg, w, d)| > 0;
      assert |Begin(cfg, w, id, d, checked, started).history| > |w.history|;
    }
  }

  /* ---------- Exclusion ---------- */

  /**
   * Every caller inside its tool owns its key: the journal holds, unchanged, the PENDING record it
   * registered (with its start time), and no other caller has the key.
   */
  ghost predicate Exclusive(w: World) {
    && (forall id :: id in w.live ==>
          var r := w.live[id]; r.status == PENDING && r.idempotencyKey in w.records && w.records[r.idempotencyKey] == r)
    && (forall i, j :: i in w.live && j in w.live && w.live[i].idempotencyKey == w.live[j].idempotencyKey ==> i == j)
  }

  /**
   * The call reclaims a key whose executor is still running, or the deletion removes the record of a
   * running executor.
   */
  ghost predicate Overtakes(cfg: Config, w: World, a: Action) {
    match a
    case Call(_, d, checked, _) =>
      CheckPolicy(cfg.policy, w.counts, d) == None &&
      exists id :: id in w.live && w.live[id].idempotencyKey == KeyOf(cfg, d) &&
          IsStale(cfg.policy, w.live[id], checked)
    case DeleteByRun(runId) => exists id :: id in w.live && w.live[id].descriptor.runId == runId
    case _ => false
  }

  /** A step keeps exclusion exactly when it overtakes nobody. */
  lemma ExclusiveStep(cfg: Config, w: World, a: Action)
    requires Exclusive(w) && Enabled(w, a)
    ensures Exclusive(Apply(cfg, w, a)) <==> !Overtakes(cfg, w, a)
  {
    match a
    case Call(id, d, checked, started) => ExclusiveCall(cfg, w, id, d, checked, started);
    case DeleteByRun(runId) => ExclusiveErase(w, runId);
    case _ =>
  }

  lemma ExclusiveCall(cfg: Config, w: World, id: nat, d: EffectDescriptor, checked: real, started: real)
    requires Exclusive(w) && id !in w.live
    ensures Exclusive(Begin(cfg, w, id, d, checked, started)) <==> !Overtakes(cfg, w, Call(id, d, checked, started))
  {
    var key, after := KeyOf(cfg, d), Begin(cfg, w, id, d, checked, started);
    if Overtakes(cfg, w, Call(id, d, checked, started)) {
      var other :| other in w.live && w.live[other].idempotencyKey == key &&
          IsStale(cfg.policy, w.live[other], checked);
      assert Decide(cfg, w, d, checked) == Running;
      assert other in after.live && id in after.live && after.live[id].idempotencyKey == key;
    } else if Decide(cfg, w, d, checked) == Running {
      assert forall other :: other in w.live ==> w.live[other].idempotencyKey != key;
    } else {
      assert after.live == w.live && after.records == w.records;
    }
  }

  lemma ExclusiveErase(w: World, runId: string)
    requires Exclusive(w)
    ensures Exclusive(EraseRun(w, runId)) <==> !exists id :: id in w.live && w.live[id].descriptor.runId == runId
  {
    if id :| id in w.live && w.live[id].descriptor.runId == runId {
      assert w.live[id].idempotencyKey in KeysOfRun(w.records, runId);
      assert w.live[id].idempotencyKey !in EraseRun(w, runId).records;
    }
  }

  /* ---------- One executor per key ---------- */

  /** No two callers are inside the tool of one key. */
  ghost predicate Single(w: World) {
    forall i, j :: i in w.live && j in w.live && w.live[i].idempotencyKey == w.live[j].idempotencyKey ==> i == j
  }

  /** A caller's record that is still in the journal is as the caller registered it. */
  ghost predicate Owned(w: World) {
    forall id :: id in w.live ==>
      var r := w.live[id];
      r.status == PENDING && (r.idempotencyKey in w.records ==> w.records[r.idempotencyKey] == r)
  }

  /** An admitted call on the key of a live executor whose record has been deleted or has become stale. */
  ghost predicate SecondExecutor(cfg: Config, w: World, a: Action) {
    && a.Call? && CheckPolicy(cfg.policy, w.counts, a.descriptor) == None
    && var key := KeyOf(cfg, a.descriptor);
       (exists id :: id in w.live && w.live[id].idempotencyKey == key) &&
       (key !in w.records || IsStale(cfg.policy, w.records[key], a.checked))
  }

  /** A step keeps one executor per key exactly when it is not such a call. */
  lemma SingleStep(cfg: Config, w: World, a: Action)
    requires Single(w) && Owned(w) && Enabled(w, a)
    ensures Single(Apply(cfg, w, a)) <==> !SecondExecutor(cfg, w, a)
    ensures Single(Apply(cfg, w, a)) ==> Owned(Apply(cfg, w, a))
  {
    match a
    case Call(id, d, checked, started) => SingleCall(cfg, w, id, d, checked, started);
    case _ =>
  }

  lemma SingleCall(cfg: Config, w: World, id: nat, d: EffectDescriptor, checked: real, started: real)
    requires Single(w) && Owned(w) && id !in w.live
    ensures var a := Call(id, d, checked, started);
            && (Single(Apply(cfg, w, a)) <==> !SecondExecutor(cfg, w, a))
            && (Single(Apply(cfg, w, a)) ==> Owned(Apply(cfg, w, a)))
  {
    var key, after := KeyOf(cfg, d), Begin(cfg, w, id, d, checked, started);
    if Decide(cfg, w, d, checked) == Running {
      assert id in after.live && after.live[id].idempotencyKey == key;
      if other :| other in w.live && w.live[other].idempotencyKey == key {
        assert other in after.live && after.live[other].idempotencyKey == key;
        assert SecondExecutor(cfg, w, Call(id, d, checked, started));
      }
    } else {
      assert after.live == w.live && after.records == w.records;
    }
  }

  lemma {:induction false} SingleAlong(cfg: Config, ws: seq<World>, acts: seq<Action>, n: nat)
    requires IsRun(cfg, ws, acts) && n < |ws|
    requires forall i :: 0 <= i < n ==> !SecondExecutor(cfg, ws[i], acts[i])
    ensures Single(ws[n]) && Owned(ws[n])
  {
    if n > 0 {
      SingleAlong(cfg, ws, acts, n - 1);
      hide Apply, SecondExecutor;
      SingleStep(cfg, ws[n - 1], acts[n - 1]);
    }
  }

  /** Over a whole run: no key ever has two executors exactly when no step is a call of that kind. */
  lemma {:induction false} SingleExactly(cfg: Config, ws: seq<World>, acts: seq<Action>)
    requires IsRun(cfg, ws, acts)
    ensures (forall i :: 0 <= i < |ws| ==> Single(ws[i]))
            <==> (forall i :: 0 <= i < |acts| ==> !SecondExecutor(cfg, ws[i], acts[i]))
  {
    if forall i :: 0 <= i < |acts| ==> !SecondExecutor(cfg, ws[i], acts[i]) {
      forall i | 0 <= i < |ws|
        ensures Single(ws[i])
      {
        SingleAlong(cfg, ws, acts, i);
      }
    } else {
      hide Apply, SecondExecutor;
      var i := FirstSecond(cfg, ws, acts);
      SingleAlong(cfg, ws, acts, i);
      SingleStep(cfg, ws[i], acts[i]);
      assert !Single(ws[i + 1]);
    }
  }

  lemma FirstSecond(cfg: Config, ws: seq<World>, acts: seq<Action>) returns (i: nat)
    requires |ws| == |acts| + 1 && exists i :: 0 <= i < |acts| && SecondExecutor(cfg, ws[i], acts[i])
    ensures i < |acts| && SecondExecutor(cfg, ws[i], acts[i])
    ensures forall k :: 0 <= k < i ==> !SecondExecutor(cfg, ws[k], acts[k])
  {
    hide SecondExecutor;
    i := 0;
    while !SecondExecutor(cfg, ws[i], acts[i])
      invariant i < |acts| && forall k :: 0 <= k < i ==> !SecondExecutor(cfg, ws[k], acts[k])
      decreases |acts| - i
    {
      i := i + 1;
    }
  }

  /* ---------- COMPLETED, without the promise ---------- */

  /** A caller inside the tool of this key fails, or the run of its record is deleted. */
  ghost predicate Uncompletes(w: World, a: Action, key: string) {
    || (a.ToolRaises? && a.id in w.live && w.live[a.id].idempotencyKey == key)
    || (a.DeleteByRun? && key in KeysOfRun(w.records, a.runId))
  }

  /**
   * A step takes COMPLETED away exactly when it is such a failure, which leaves FAILED, or such a
   * deletion, which leaves nothing.
   */
  lemma CompletedStep(cfg: Config, w: World, a: Action, key: string)
    requires StatusOf(w.records, key) == Some(COMPLETED) && Enabled(w, a)
    ensures StatusOf(Apply(cfg, w, a).records, key) ==
            if !Uncompletes(w, a, key) then Some(COMPLETED) else if a.ToolRaises? then Some(FAILED) else None
  {
  }

  /**
   * Over a whole run from its completion on: a key stays COMPLETED exactly when no step fails under it or
   * deletes it.
   */
  lemma {:induction false} CompletedExactly(cfg: Config, ws: seq<World>, acts: seq<Action>, i: nat, j: nat, key: string)
    requires IsRun(cfg, ws, acts) && i <= j < |ws| && StatusOf(ws[i].records, key) == Some(COMPLETED)
    ensures (forall k :: i <= k <= j ==> StatusOf(ws[k].records, key) == Some(COMPLETED))
            <==> (forall k :: i <= k < j ==> !Uncompletes(ws[k], acts[k], key))
    decreases j
  {
    if i < j {
      CompletedExactly(cfg, ws, acts, i, j - 1, key);
      hide Apply, Uncompletes, StatusOf;
      if StatusOf(ws[j - 1].records, key) == Some(COMPLETED) {
        CompletedStep(cfg, ws[j - 1], acts[j - 1], key);
        assert ws[j] == Apply(cfg, ws[j - 1], acts[j - 1]);
        assert StatusOf(ws[j].records, key) == Some(COMPLETED) <==> !Uncompletes(ws[j - 1], acts[j - 1], key);
      }
    }
  }

  /* ---------- Ownership ---------- */

  /** Over a whole run: every caller owns its key in every world exactly when no step overtakes. */
  lemma {:induction false} ExclusionExactly(cfg: Config, ws: seq<World>, acts: seq<Action>)
    requires IsRun(cfg, ws, acts)
    ensures (forall i :: 0 <= i < |ws| ==> Exclusive(ws[i]))
            <==> (forall i :: 0 <= i < |acts| ==> !Overtakes(cfg, ws[i], acts[i]))
  {
    if forall i :: 0 <= i < |acts| ==> !Overtakes(cfg, ws[i], acts[i]) {
      forall i | 0 <= i < |ws|
        ensures Exclusive(ws[i])
      {
        ExclusiveAlong(cfg, ws, acts, i);
      }
    } else {
      var i :| 0 <= i < |acts| && Overtakes(cfg, ws[i], acts[i]);
      if Exclusive(ws[i]) {
        ExclusiveStep(cfg, ws[i], acts[i]);
        assert !Exclusive(ws[i + 1]);
      }
    }
  }

  lemma {:induction false} ExclusiveAlong(cfg: Config, ws: seq<World>, acts: seq<Action>, n: nat)
    requires IsRun(cfg, ws, acts) && n < |ws|
    requires forall i :: 0 <= i < n ==> !Overtakes(cfg, ws[i], acts[i])
    ensures Exclusive(ws[n])
  {
    if n > 0 {
      ExclusiveAlong(cfg, ws, acts, n - 1);
      ExclusiveStep(cfg, ws[n - 1], acts[n - 1]);
    }
  }

  /**
   * The operator's promise: no tool run is older than the stale timeout when a call looks at the
   * clock, and runs are deleted only when none of their calls is inside a tool.
   */
  ghost predicate Timely(cfg: Config, ws: seq<World>, acts: seq<Action>)
    requires |ws| == |acts| + 1
  {
    forall i, id :: 0 <= i < |acts| && id in ws[i].live ==>
      && (acts[i].Call? ==> acts[i].checked - ws[i].live[id].createdAt <= cfg.policy.stalePendingTimeoutSeconds)
      && (acts[i].DeleteByRun? ==> ws[i].live[id].descriptor.runId != acts[i].runId)
  }

  /** In a timely run every key has at most one executor, and its record is PENDING with that executor's start time. */
  lemma AtMostOneExecutor(cfg: Config, ws: seq<World>, acts: seq<Action>, i: nat, id: nat)
    requires IsRun(cfg, ws, acts) && Timely(cfg, ws, acts) && i < |ws| && id in ws[i].live
    ensures var key := ws[i].live[id].idempotencyKey;
            && StatusOf(ws[i].records, key) == Some(PENDING)
            && ws[i].records[key].createdAt == ws[i].live[id].createdAt
            && forall other :: other in ws[i].live && ws[i].live[other].idempotencyKey == key ==> other == id
  {
    ExclusiveAlong(cfg, ws, acts, i);
  }

  /* ---------- At most one success ---------- */

  lemma NewAreLawful(cfg: Config, w: World, a: Action, key: string)
    requires Exclusive(w) && Enabled(w, a)
    ensures LawfulFrom(StatusOf(w.records, key), NewHappenings(cfg, w, a), key)
  {
  }

  lemma LawfulStep(cfg: Config, w: World, a: Action, key: string)
    requires Exclusive(w) && JournalMatches(w) && Enabled(w, a)
    requires LawfulHistory(w.history, key)
    ensures LawfulHistory(Apply(cfg, w, a).history, key)
  {
    HistoryGrows(cfg, w, a);
    NewAreLawful(cfg, w, a, key);
    assert StatusOf(w.records, key) == Replay(w.history, key);
    ReplayExtend(w.history, NewHappenings(cfg, w, a), key);
  }

  /** While nobody is overtaken, every key's events follow the life cycle of its record. */
  lemma {:induction false} LawfulAlong(cfg: Config, ws: seq<World>, acts: seq<Action>, n: nat, key: string)
    requires IsRun(cfg, ws, acts) && n < |ws|
    requires forall i :: 0 <= i < n ==> !Overtakes(cfg, ws[i], acts[i])
    ensures LawfulHistory(ws[n].history, key)
  {
    if n > 0 {
      LawfulAlong(cfg, ws, acts, n - 1, key);
      ExclusiveAlong(cfg, ws, acts, n - 1);
      JournalMatchesAlong(cfg, ws, acts, n - 1);
      LawfulStep(cfg, ws[n - 1], acts[n - 1], key);
    }
  }

  predicate Succeeded(what: Happening, key: string) {
    what.Emit? && what.event.Executed? && what.event.key == key
  }

  predicate Erased(what: Happening, key: string) {
    what.Erase? && key in what.keys
  }

  lemma {:induction false} LawfulPrefix(h: seq<Happening>, key: string, n: nat)
    requires LawfulHistory(h, key) && n <= |h|
    ensures LawfulHistory(h[..n], key)
  {
    if n < |h| {
      LawfulPrefix(h[..|h| - 1], key, n);
      assert h[..|h| - 1][..n] == h[..n];
    } else {
      assert h[..n] == h;
    }
  }

  /** In a lawful history the status stays COMPLETED from a success until the record is deleted. */
  lemma {:induction false} CompletedStays(h: seq<Happening>, key: string, i: nat, j: nat)
    requires LawfulHistory(h, key) && i < j <= |h|
    requires Succeeded(h[i], key)
    requires forall k :: i < k < j ==> !Erased(h[k], key)
    ensures Replay(h[..j], key) == Some(COMPLETED)
  {
    LawfulPrefix(h, key, j);
    assert h[..j][..j - 1] == h[..j - 1];
    if i < j - 1 {
      CompletedStays(h, key, i, j - 1);
    }
  }

  /** After a success a key publishes nothing but skips, until its run is deleted. */
  lemma OnlySkipsFollow(h: seq<Happening>, key: string, i: nat, j: nat)
    requires LawfulHistory(h, key) && i < j < |h|
    requires Succeeded(h[i], key)
    requires forall k :: i < k < j ==> !Erased(h[k], key)
    requires h[j].Emit? && h[j].event.key == key
    ensures h[j].event.Skipped?
  {
    CompletedStays(h, key, i, j);
    LawfulPrefix(h, key, j + 1);
    assert h[..j + 1][..j] == h[..j];
  }

  /** The main result: in a timely run a tool succeeds at most once per key until `delete_by_run`. */
  lemma AtMostOneSuccess(cfg: Config, ws: seq<World>, acts: seq<Action>, n: nat, key: string, i: nat, j: nat)
    requires IsRun(cfg, ws, acts) && Timely(cfg, ws, acts) && n < |ws|
    requires i < j < |ws[n].history| && Succeeded(ws[n].history[i], key) && Succeeded(ws[n].history[j], key)
    ensures exists k :: i < k < j && Erased(ws[n].history[k], key)
  {
    if forall k :: i < k < j ==> !Erased(ws[n].history[k], key) {
      LawfulAlong(cfg, ws, acts, n, key);
      OnlySkipsFollow(ws[n].history, key, i, j);
    }
  }

  /** COMPLETED is absorbing: crashes, failures and retries included, only a deletion ends it. */
  lemma {:induction false} CompletedAbsorbing(cfg: Config, ws: seq<World>, acts: seq<Action>, i: nat, j: nat,
                                              key: string)
    requires IsRun(cfg, ws, acts) && Timely(cfg, ws, acts) && i <= j < |ws|
    requires StatusOf(ws[i].records, key) == Some(COMPLETED)
    requires forall k :: i <= k < j && acts[k].DeleteByRun? ==> key !in KeysOfRun(ws[k].records, acts[k].runId)
    ensures StatusOf(ws[j].records, key) == Some(COMPLETED)
    ensures ws[j].records[key] == ws[i].records[key]
    decreases j
  {
    if i < j {
      CompletedAbsorbing(cfg, ws, acts, i, j - 1, key);
      ExclusiveAlong(cfg, ws, acts, j - 1);
    }
  }

  /**
   * A crashed executor does not block its key for ever: a call runs the tool exactly when the record is
   * stale and the policy lets it.
   */
  lemma CrashedKeyIsReclaimed(cfg: Config, w: World, id: nat, d: EffectDescriptor, checked: real, started: real)
    requires StatusOf(w.records, KeyOf(cfg, d)) == Some(PENDING)
    ensures var after := Begin(cfg, w, id, d, checked, started);
            var key := KeyOf(cfg, d);
            if CheckPolicy(cfg.policy, w.counts, d) == None && IsStale(cfg.policy, w.records[key], checked)
            then id in after.live && after.live[id].createdAt == started && after.records[key] == after.live[id]
            else after == w
  {
  }

  /** The record of an executor as its end leaves it when nobody has touched it meanwhile. */
  function Finished(r: EffectRecord, a: Action): EffectRecord
    requires a.ToolReturns? || a.ToolRaises?
  {
    match a
    case ToolReturns(_, finished, resultHash) =>
      EffectRecord(r.idempotencyKey, r.descriptor, COMPLETED, r.createdAt, Some(finished), resultHash, None)
    case ToolRaises(_, errorType) =>
      EffectRecord(r.idempotencyKey, r.descriptor, FAILED, r.createdAt, None, None, Some(errorType))
  }

  /**
   * How a tool's end leaves the journal, in any run: a record that was deleted stays deleted, one
   * that is still the executor's own keeps its start and gets its end, and one that a later
   * executor put in its place takes the status and keeps that executor's start.
   */
  lemma FinishedRecord(cfg: Config, ws: seq<World>, acts: seq<Action>, i: nat)
    requires IsRun(cfg, ws, acts) && i < |acts|
    requires acts[i].ToolReturns? || acts[i].ToolRaises?
    ensures var r := ws[i].live[acts[i].id];
            var key, before, after := r.idempotencyKey, ws[i].records, ws[i + 1].records;
            && after.Keys == before.Keys && after - {key} == before - {key}
            && (key in before ==> StatusOf(after, key) == Some(if acts[i].ToolReturns? then COMPLETED else FAILED) &&
                                  after[key].descriptor == before[key].descriptor &&
                                  after[key].createdAt == before[key].createdAt)
            && (key in before && before[key] == r ==> after[key] == Finished(r, acts[i]))
    ensures Timely(cfg, ws, acts) ==>
              var r := ws[i].live[acts[i].id];
              r.idempotencyKey in ws[i].records && ws[i].records[r.idempotencyKey] == r
  {
    FreshAlong(cfg, ws, acts, i, acts[i].id);
    if Timely(cfg, ws, acts) {
      ExclusiveAlong(cfg, ws, acts, i);
    }
  }

  /** The record of a caller inside its tool has nothing but its start. */
  lemma {:induction false} FreshAlong(cfg: Config, ws: seq<World>, acts: seq<Action>, i: nat, id: nat)
    requires IsRun(cfg, ws, acts) && i < |ws| && id in ws[i].live
    ensures var r := ws[i].live[id]; r == FreshRecord(cfg, r.descriptor, r.createdAt)
  {
    if id in ws[i - 1].live && ws[i].live[id] == ws[i - 1].live[id] {
      FreshAlong(cfg, ws, acts, i - 1, id);
    }
  }

  /* ---------- Without the promise ---------- */

  /** A descriptor that the policy admits, with room for two registrations. */
  predicate Admits(cfg: Config, d: EffectDescriptor) {
    && (cfg.policy.allowedEffectTypes.Some? ==> d.effectType in cfg.policy.allowedEffectTypes.value)
    && cfg.policy.maxEffectsPerStep >= 2
  }

  /** Apply four actions in turn to the empty world. */
  ghost function FourSteps(cfg: Config, acts: seq<Action>): (ws: seq<World>)
    requires |acts| == 4
    requires Enabled(Start, acts[0])
    requires Enabled(Apply(cfg, Start, acts[0]), acts[1])
    requires Enabled(Apply(cfg, Apply(cfg, Start, acts[0]), acts[1]), acts[2])
    requires Enabled(Apply(cfg, Apply(cfg, Apply(cfg, Start, acts[0]), acts[1]), acts[2]), acts[3])
    ensures IsRun(cfg, ws, acts)
  {
    var w1 := Apply(cfg, Start, acts[0]);
    var w2 := Apply(cfg, w1, acts[1]);
    var w3 := Apply(cfg, w2, acts[2]);
    [Start, w1, w2, w3, Apply(cfg, w3, acts[3])]
  }

  /**
   * A tool that outlives the timeout is overtaken: under every policy that admits two registrations
   * there is a run, without any deletion, in which the tool of one key succeeds twice.
   */
  lemma LateToolSucceedsTwice(cfg: Config, d: EffectDescriptor, late: real)
    requires Admits(cfg, d) && late > cfg.policy.stalePendingTimeoutSeconds
    ensures exists ws: seq<World>, acts: seq<Action> ::
              && IsRun(cfg, ws, acts) && |acts| == 4 && !(exists a :: a in acts && a.DeleteByRun?)
              && var h := ws[4].history;
                 |h| == 5 && Succeeded(h[3], KeyOf(cfg, d)) && Succeeded(h[4], KeyOf(cfg, d))
  {
    var acts := [Call(0, d, 0.0, 0.0), Call(1, d, late, late), ToolReturns(0, late, None), ToolReturns(1, late, None)];
    var w1 := Apply(cfg, Start, acts[0]);
    assert w1.live == map[0 := FreshRecord(cfg, d, 0.0)];
    assert Decide(cfg, w1, d, late) == Running;
    var ws := FourSteps(cfg, acts);
    assert |ws[2].history| == 3;
    assert IsRun(cfg, ws, acts);
  }

  /** The same overlap can turn a COMPLETED record back into FAILED. */
  lemma LateToolUndoesCompletion(cfg: Config, d: EffectDescriptor, late: real)
    requires Admits(cfg, d) && late > cfg.policy.stalePendingTimeoutSeconds
    ensures exists ws: seq<World>, acts: seq<Action> ::
              && IsRun(cfg, ws, acts) && |acts| == 4 && !(exists a :: a in acts && a.DeleteByRun?)
              && StatusOf(ws[3].records, KeyOf(cfg, d)) == Some(COMPLETED)
              && StatusOf(ws[4].records, KeyOf(cfg, d)) == Some(FAILED)
  {
    var acts := [Call(0, d, 0.0, 0.0), Call(1, d, late, late),
                 ToolReturns(0, late, None), ToolRaises(1, "TimeoutError")];
    var w1 := Apply(cfg, Start, acts[0]);
    assert w1.live == map[0 := FreshRecord(cfg, d, 0.0)];
    assert Decide(cfg, w1, d, late) == Running;
    var ws := FourSteps(cfg, acts);
    assert IsRun(cfg, ws, acts);
  }

  /** Deleting a run under a running tool admits a second executor, however young the first one is. */
  lemma DeletionAdmitsSecondExecutor(cfg: Config, d: EffectDescriptor)
    requires Admits(cfg, d)
    ensures exists ws: seq<World>, acts: seq<Action> ::
              && IsRun(cfg, ws, acts) && |acts| == 4
              && (forall i :: 0 <= i < 4 && acts[i].Call? ==> acts[i].checked == 0.0)
              && 0 in ws[3].live && 1 in ws[3].live
              && ws[3].live[0].idempotencyKey == ws[3].live[1].idempotencyKey == KeyOf(cfg, d)
  {
    var acts := [Call(0, d, 0.0, 0.0), DeleteByRun(d.runId), Call(1, d, 0.0, 0.0), Cancelled(0)];
    var w1 := Apply(cfg, Start, acts[0]);
    assert w1.live == map[0 := FreshRecord(cfg, d, 0.0)];
    assert KeyOf(cfg, d) in KeysOfRun(w1.records, d.runId);
    var w2 := Apply(cfg, w1, acts[1]);
    assert Decide(cfg, w2, d, 0.0) == Running;
    var ws := FourSteps(cfg, acts);
    assert IsRun(cfg, ws, acts);
  }
}
