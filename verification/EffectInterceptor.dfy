/**
 * The interceptor and its in-memory journal as objects that are updated in place, each method
 * proved to perform the corresponding step of the protocol.
 */
module EffectInterceptor {
  import opened Wrappers
  import opened EffectProtocol

  class InMemoryEffectJournal {
    var records: map<string, EffectRecord>

    constructor ()
      ensures records == map[]
    {
      records := map[];
    }

    method Register(record: EffectRecord)
      modifies this
      ensures records == old(records)[record.idempotencyKey := record]
    {
      records := records[record.idempotencyKey := record];
    }

    method Get(key: string) returns (record: Option<EffectRecord>)
      ensures record == if key in records then Some(records[key]) else None
    {
      record := if key in records then Some(records[key]) else None;
    }

    /** Nothing happens to a key that is not recorded; the fields that are not given are kept. */
    method UpdateStatus(key: string, status: EffectStatus, completedAt: Option<real>,
                        resultHash: Option<string>, errorInfo: Option<string>)
      modifies this
      ensures records == EffectProtocol.UpdateStatus(old(records), key, status, completedAt, resultHash, errorInfo)
    {
      if key !in records {
        return;
      }
      var updated := records[key].(status := status);
      if completedAt.Some? {
        updated := updated.(completedAt := completedAt);
      }
      if resultHash.Some? {
        updated := updated.(resultHash := resultHash);
      }
      if errorInfo.Some? {
        updated := updated.(errorInfo := errorInfo);
      }
      records := records[key := updated];
    }

    method ListByRun(runId: string, status: Option<EffectStatus>) returns (found: set<EffectRecord>)
      ensures forall r :: r in found <==>
                (exists k :: k in records && records[k] == r) && r.descriptor.runId == runId &&
                (status.Some? ==> r.status == status.value)
    {
      found := set k | k in records && records[k].descriptor.runId == runId :: records[k];
      if status.Some? {
        found := set r | r in found && r.status == status.value;
      }
    }

    /** Removes exactly the records of the run and says how many they were. */
    method DeleteByRun(runId: string) returns (count: nat)
      modifies this
      ensures records == old(records) - KeysOfRun(old(records), runId)
      ensures forall k :: k in records <==> k in old(records) && old(records)[k].descriptor.runId != runId
      ensures count == |KeysOfRun(old(records), runId)|
    {
      var keysToDelete := KeysOfRun(records, runId);
      count := |keysToDelete|;
      var left := keysToDelete;
      while left != {}
        invariant left <= keysToDelete
        invariant records == old(records) - (keysToDelete - left)
        decreases left
      {
        var key :| key in left;
        records := records - {key};
        left := left - {key};
      }
    }
  }

  /** How the awaited tool ends; a returned value is given by its JSON dump, `None` for Python's `None`. */
  datatype ToolRun =
    | Returned(dump: Option<string>, finished: real)
    | Raised(errorType: string)
    | WasCancelled

  /** What `execute` raises. */
  datatype ExecuteError = EffectDenied | EffectDuplicate | ToolError(errorType: string) | CancelledError

  /** The events among the happenings: what the sink has received. */
  ghost function Published(h: seq<Happening>): seq<EffectEvent> {
    if h == [] then []
    else Published(h[..|h| - 1]) + (if h[|h| - 1].Emit? then [h[|h| - 1].event] else [])
  }

  lemma PublishedAppend(h: seq<Happening>, x: Happening)
    ensures Published(h + [x]) == Published(h) + (if x.Emit? then [x.event] else [])
  {
    assert (h + [x])[..|h|] == h;
  }

  lemma OverwriteForgets(m: map<string, EffectRecord>, n: map<string, EffectRecord>, key: string, record: EffectRecord)
    requires m - {key} == n - {key}
    ensures m[key := record] == n[key := record]
  {
    forall k | k != key
      ensures k in m <==> k in n
      ensures k in m ==> m[k] == n[k]
    {
      assert k in m <==> k in m - {key};
      assert k in n <==> k in n - {key};
      assert k in m ==> (m - {key})[k] == m[k] && (n - {key})[k] == n[k];
    }
  }

  lemma DecideInTwo(cfg: Config, w: World, d: EffectDescriptor, checked: real)
    ensures Decide(cfg, w, d, checked) ==
            if EffectProtocol.CheckPolicy(cfg.policy, w.counts, d).Some?
            then EffectProtocol.CheckPolicy(cfg.policy, w.counts, d).value
            else OnRecord(cfg.policy, Lookup(w.records, KeyOf(cfg, d)), checked)
    ensures EffectProtocol.CheckPolicy(cfg.policy, w.counts, d) in {None, Some(DeniedType), Some(DeniedLimit)}
    ensures OnRecord(cfg.policy, Lookup(w.records, KeyOf(cfg, d)), checked)
            in {Running, AlreadyCompleted, DuplicatePending}
  {
  }

  lemma NothingBegun(cfg: Config, w: World, id: nat, d: EffectDescriptor, checked: real, started: real)
    requires Decide(cfg, w, d, checked) != Running
    ensures Begin(cfg, w, id, d, checked, started) ==
            w.(history := w.history + if Decide(cfg, w, d, checked) == AlreadyCompleted
                                      then [Emit(Skipped(KeyOf(cfg, d), d.runId, d.toolName))] else [])
  {
    assert w.history + [] == w.history;
  }

  lemma RunningIsBegin(cfg: Config, w: World, id: nat, d: EffectDescriptor, checked: real, started: real,
                       records: map<string, EffectRecord>)
    requires Decide(cfg, w, d, checked) == Running && records - {KeyOf(cfg, d)} == w.records - {KeyOf(cfg, d)}
    ensures var key, record, step := KeyOf(cfg, d), FreshRecord(cfg, d, started), StepKey(d.runId, d.stepId);
            Begin(cfg, w, id, d, checked, started) ==
            World(records[record.idempotencyKey := record], w.counts[step := CountOf(w.counts, step) + 1],
                  (w.history + ReclaimEvents(Lookup(w.records, key), key, d)) +
                  [Emit(Registered(key, d.runId, d.stepId, d.toolName, d.effectType))],
                  w.live[id := record])
  {
    OverwriteForgets(w.records, records, KeyOf(cfg, d), FreshRecord(cfg, d, started));
    assert w.history + OpeningEvents(cfg, w, d) ==
           (w.history + ReclaimEvents(Lookup(w.records, KeyOf(cfg, d)), KeyOf(cfg, d), d)) +
           [Emit(Registered(KeyOf(cfg, d), d.runId, d.stepId, d.toolName, d.effectType))];
  }

  lemma LaunchedIsLive(cfg: Config, w: World, id: nat, d: EffectDescriptor, checked: real, started: real)
    requires Decide(cfg, w, d, checked) == Running
    ensures var live := Begin(cfg, w, id, d, checked, started).live;
            id in live && live[id].idempotencyKey == KeyOf(cfg, d) && live[id].descriptor == d
  {
  }

  /* ---------- What a caller may expect, from what it can see before the call ---------- */

  /** The type is allowed and the step's counter is below the limit. */
  ghost predicate Admitted(cfg: Config, w: World, d: EffectDescriptor) {
    var stepKey := d.runId + ":" + d.stepId;
    && (cfg.policy.allowedEffectTypes.Some? ==> d.effectType in cfg.policy.allowedEffectTypes.value)
    && (if stepKey in w.counts then w.counts[stepKey] else 0) < cfg.policy.maxEffectsPerStep
  }

  /** The call is admitted, and its key is new, failed, or pending for longer than the timeout. */
  ghost predicate GetsToTool(cfg: Config, w: World, d: EffectDescriptor, checked: real) {
    var key := cfg.sha256(d.runId + d.stepId + d.toolName + d.argsHash);
    && Admitted(cfg, w, d)
    && (key !in w.records || w.records[key].status == FAILED ||
        (w.records[key].status == PENDING &&
         checked > w.records[key].createdAt + cfg.policy.stalePendingTimeoutSeconds))
  }

  /** The answers of `execute`, each with the only circumstances in which it is given. */
  ghost predicate Answers(cfg: Config, w: World, d: EffectDescriptor, checked: real, tool: ToolRun,
                          result: Result<Option<string>, ExecuteError>)
  {
    var key := cfg.sha256(d.runId + d.stepId + d.toolName + d.argsHash);
    var runs := GetsToTool(cfg, w, d, checked);
    && (forall v :: result == Ok(v) <==>
          (runs && tool.Returned? && tool.dump == v) ||
          (Admitted(cfg, w, d) && key in w.records && w.records[key].status == COMPLETED && v == None))
    && (forall e :: result == Err(ToolError(e)) <==> runs && tool.Raised? && tool.errorType == e)
    && (result == Err(CancelledError) <==> runs && tool.WasCancelled?)
    && (result == Err(EffectDuplicate) <==>
        Admitted(cfg, w, d) && key in w.records && w.records[key].status == PENDING &&
        checked <= w.records[key].createdAt + cfg.policy.stalePendingTimeoutSeconds)
    && (result == Err(EffectDenied) <==> !Admitted(cfg, w, d))
  }

  /** A tool's result and its exception reach the caller, and no other answer looks like them. */
  lemma AnswersExactly(cfg: Config, w: World, d: EffectDescriptor, checked: real, tool: ToolRun)
    ensures Answers(cfg, w, d, checked, tool, Answer(Decide(cfg, w, d, checked), tool))
  {
    assert KeyOf(cfg, d) == cfg.sha256(d.runId + d.stepId + d.toolName + d.argsHash);
    assert StepKey(d.runId, d.stepId) == d.runId + ":" + d.stepId;
    hide KeyOf, StepKey;
  }

  lemma EntersExactly(cfg: Config, w: World, id: nat, d: EffectDescriptor, checked: real, started: real)
    requires id !in w.live
    ensures id in Begin(cfg, w, id, d, checked, started).live <==> GetsToTool(cfg, w, d, checked)
  {
    assert KeyOf(cfg, d) == cfg.sha256(d.runId + d.stepId + d.toolName + d.argsHash);
    assert StepKey(d.runId, d.stepId) == d.runId + ":" + d.stepId;
    hide KeyOf, StepKey;
  }

  /**
   * What an undisturbed call leaves when its tool returns: one COMPLETED record under its key, with
   * no digest for `None` and otherwise that of the result's dump.
   */
  lemma StoredDigest(cfg: Config, w: World, id: nat, d: EffectDescriptor, checked: real, started: real,
                     dump: Option<string>, finished: real)
    requires id !in w.live && GetsToTool(cfg, w, d, checked)
    ensures var key := cfg.sha256(d.runId + d.stepId + d.toolName + d.argsHash);
            var after := Executing(cfg, w, id, d, checked, started, Returned(dump, finished));
            && key in after.records
            && after.records[key] ==
               EffectRecord(key, d, COMPLETED, started, Some(finished),
                            if dump.None? then None else Some(cfg.sha256(dump.value)), None)
            && after.records - {key} == w.records - {key}
  {
    assert KeyOf(cfg, d) == cfg.sha256(d.runId + d.stepId + d.toolName + d.argsHash);
    EntersExactly(cfg, w, id, d, checked, started);
    AnswersExactly(cfg, w, d, checked, Returned(dump, finished));
    hide KeyOf, StepKey, GetsToTool, Answers;
  }

  class EffectInterceptor {
    const journal: InMemoryEffectJournal
    const cfg: Config
    var stepEffectCounts: map<string, nat>
    /** Everything the event sink has received. */
    var sink: seq<EffectEvent>
    /** The same events, interleaved with the deletions. */
    ghost var history: seq<Happening>
    /** The callers that are inside their tool. */
    ghost var live: map<nat, EffectRecord>

    ghost predicate Valid()
      reads this
    {
      sink == Published(history)
    }

    ghost function View(): World
      reads this, journal
    {
      World(journal.records, stepEffectCounts, history, live)
    }

    constructor (journal: InMemoryEffectJournal, cfg: Config)
      requires journal.records == map[]
      ensures Valid() && View() == Start && this.journal == journal && this.cfg == cfg
    {
      this.journal, this.cfg := journal, cfg;
      stepEffectCounts, sink, history, live := map[], [], [], map[];
    }

    method EmitEvent(event: EffectEvent)
      requires Valid()
      modifies this`sink, this`history
      ensures Valid() && history == old(history) + [Emit(event)] && sink == old(sink) + [event]
    {
      PublishedAppend(history, Emit(event));
      sink := sink + [event];
      history := history + [Emit(event)];
    }

    method CheckPolicy(d: EffectDescriptor) returns (denied: Option<Outcome>)
      ensures denied == EffectProtocol.CheckPolicy(cfg.policy, stepEffectCounts, d)
    {
      if cfg.policy.allowedEffectTypes.Some? && d.effectType !in cfg.policy.allowedEffectTypes.value {
        return Some(DeniedType);
      }
      var stepKey := StepKey(d.runId, d.stepId);
      var currentCount := if stepKey in stepEffectCounts then stepEffectCounts[stepKey] else 0;
      if currentCount >= cfg.policy.maxEffectsPerStep {
        return Some(DeniedLimit);
      }
      return None;
    }

    /** The journal lookup: publishes a skip, reclaims a stale record, or leaves things as they are. */
    method LookUp(d: EffectDescriptor, checked: real) returns (outcome: Outcome)
      requires Valid()
      modifies this`sink, this`history, journal
      ensures Valid()
      ensures outcome == OnRecord(cfg.policy, Lookup(old(journal.records), KeyOf(cfg, d)), checked)
      ensures journal.records - {KeyOf(cfg, d)} == old(journal.records) - {KeyOf(cfg, d)}
      ensures outcome != Running ==> journal.records == old(journal.records)
      ensures outcome == Running ==>
                history == old(history) + ReclaimEvents(Lookup(old(journal.records), KeyOf(cfg, d)), KeyOf(cfg, d), d)
      ensures outcome != Running ==>
                history == old(history) + if outcome == AlreadyCompleted
                                          then [Emit(Skipped(KeyOf(cfg, d), d.runId, d.toolName))] else []
    {
      var key := KeyOf(cfg, d);
      var existing := journal.Get(key);
      if existing.Some? {
        if existing.value.status == COMPLETED {
          EmitEvent(Skipped(key, d.runId, d.toolName));
          return AlreadyCompleted;
        }
        if existing.value.status == PENDING {
          if !IsStale(cfg.policy, existing.value, checked) {
            return DuplicatePending;
          }
          journal.UpdateStatus(key, FAILED, None, None, Some("stale PENDING reclaimed"));
          EmitEvent(StaleReclaimed(key, d.runId, d.toolName));
        }
      }
      return Running;
    }

    /** Register PENDING, count, publish; from here the caller is inside its tool. */
    method RegisterPending(ghost id: nat, d: EffectDescriptor, started: real)
      requires Valid()
      modifies this, journal
      ensures Valid()
      ensures var record := FreshRecord(cfg, d, started);
              var stepKey := StepKey(d.runId, d.stepId);
              && journal.records == old(journal.records)[record.idempotencyKey := record]
              && stepEffectCounts == old(stepEffectCounts)[stepKey := CountOf(old(stepEffectCounts), stepKey) + 1]
              && history ==
                 old(history) + [Emit(Registered(KeyOf(cfg, d), d.runId, d.stepId, d.toolName, d.effectType))]
              && live == old(live)[id := record]
    {
      var record := FreshRecord(cfg, d, started);
      journal.Register(record);
      var stepKey := StepKey(d.runId, d.stepId);
      stepEffectCounts := stepEffectCounts[stepKey := CountOf(stepEffectCounts, stepKey) + 1];
      EmitEvent(Registered(KeyOf(cfg, d), d.runId, d.stepId, d.toolName, d.effectType));
      live := live[id := record];
    }

    /** `execute` up to the `await` of the tool. */
    method Enter(ghost id: nat, d: EffectDescriptor, checked: real, started: real) returns (outcome: Outcome)
      requires Valid()
      modifies this, journal
      ensures Valid()
      ensures outcome == Decide(cfg, old(View()), d, checked)
      ensures View() == Begin(cfg, old(View()), id, d, checked, started)
    {
      hide Decide, Begin, OnRecord, ReclaimEvents, FreshRecord, Lookup, KeyOf, CountOf;
      ghost var w := View();
      var denied := CheckPolicy(d);
      DecideInTwo(cfg, w, d, checked);
      if denied.Some? {
        outcome := denied.value;
        NothingBegun(cfg, w, id, d, checked, started);
      } else {
        outcome := LookUp(d, checked);
        if outcome == Running {
          ghost var records := journal.records;
          RegisterPending(id, d, started);
          RunningIsBegin(cfg, w, id, d, checked, started, records);
        } else {
          NothingBegun(cfg, w, id, d, checked, started);
        }
      }
    }

    /** `execute` after a tool that returned. */
    method LeaveOk(ghost id: nat, d: EffectDescriptor, dump: Option<string>, finished: real)
      requires Valid() && id in live && live[id].idempotencyKey == KeyOf(cfg, d) && live[id].descriptor == d
      modifies this, journal
      ensures Valid()
      ensures View() == Succeed(old(View()), id, finished, ResultHash(cfg, dump))
    {
      var key := KeyOf(cfg, d);
      var resultHash := ResultHash(cfg, dump);
      journal.UpdateStatus(key, COMPLETED, Some(finished), resultHash, None);
      EmitEvent(Executed(key, d.runId, d.toolName, resultHash));
      live := live - {id};
    }

    /** `execute` after a tool that raised an `Exception`. */
    method LeaveError(ghost id: nat, d: EffectDescriptor, errorType: string)
      requires Valid() && id in live && live[id].idempotencyKey == KeyOf(cfg, d) && live[id].descriptor == d
      modifies this, journal
      ensures Valid()
      ensures View() == Fail(old(View()), id, errorType)
    {
      var key := KeyOf(cfg, d);
      journal.UpdateStatus(key, FAILED, None, None, Some(errorType));
      EmitEvent(ToolFailed(key, d.runId, d.toolName, errorType));
      live := live - {id};
    }

    /** The whole of `execute` when no other caller intervenes while the tool runs. */
    method Execute(ghost id: nat, d: EffectDescriptor, checked: real, started: real, tool: ToolRun)
      returns (result: Result<Option<string>, ExecuteError>)
      requires Valid() && id !in live
      modifies this, journal
      ensures Valid()
      ensures View() == Executing(cfg, old(View()), id, d, checked, started, tool)
      ensures result == Answer(Decide(cfg, old(View()), d, checked), tool)
      ensures Answers(cfg, old(View()), d, checked, tool, result)
      ensures (id in Apply(cfg, old(View()), Call(id, d, checked, started)).live) <==>
              GetsToTool(cfg, old(View()), d, checked)
    {
      AnswersExactly(cfg, View(), d, checked, tool);
      EntersExactly(cfg, View(), id, d, checked, started);
      hide Decide, Begin, Succeed, Fail, KeyOf, ResultHash, Answers, GetsToTool;
      ghost var w := View();
      var outcome := Enter(id, d, checked, started);
      if outcome == Running {
        LaunchedIsLive(cfg, w, id, d, checked, started);
      }
      match outcome {
        case DeniedType => return Err(EffectDenied);
        case DeniedLimit => return Err(EffectDenied);
        case AlreadyCompleted => return Ok(None);
        case DuplicatePending => return Err(EffectDuplicate);
        case Running =>
          match tool {
            case Returned(dump, finished) =>
              LeaveOk(id, d, dump, finished);
              return Ok(dump);
            case Raised(errorType) =>
              LeaveError(id, d, errorType);
              return Err(ToolError(errorType));
            case WasCancelled =>
              live := live - {id};
              return Err(CancelledError);
          }
      }
    }

    /** `delete_by_run` on the journal, as the interceptor's history sees it. */
    method DeleteRun(runId: string) returns (count: nat)
      requires Valid()
      modifies this`history, journal
      ensures Valid() && View() == EraseRun(old(View()), runId)
      ensures count == |KeysOfRun(old(journal.records), runId)|
    {
      ghost var keys := KeysOfRun(journal.records, runId);
      count := journal.DeleteByRun(runId);
      PublishedAppend(history, Erase(keys));
      history := history + [Erase(keys)];
    }
  }

  function ResultHash(cfg: Config, dump: Option<string>): Option<string> {
    if dump.Some? then Some(cfg.sha256(dump.value)) else None
  }

  /** The actions that one undisturbed call performs. */
  ghost function Executing(
    cfg: Config, w: World, id: nat, d: EffectDescriptor, checked: real, started: real, tool: ToolRun): World
    requires id !in w.live
  {
    var inside := Apply(cfg, w, Call(id, d, checked, started));
    if Decide(cfg, w, d, checked) != Running then inside
    else match tool
         case Returned(dump, finished) => Apply(cfg, inside, ToolReturns(id, finished, ResultHash(cfg, dump)))
         case Raised(errorType) => Apply(cfg, inside, ToolRaises(id, errorType))
         case WasCancelled => Apply(cfg, inside, Cancelled(id))
  }

  function Answer(outcome: Outcome, tool: ToolRun): Result<Option<string>, ExecuteError> {
    match outcome
    case DeniedType => Err(EffectDenied)
    case DeniedLimit => Err(EffectDenied)
    case DuplicatePending => Err(EffectDuplicate)
    case AlreadyCompleted => Ok(None)
    case Running =>
      match tool
      case Returned(dump, _) => Ok(dump)
      case Raised(errorType) => Err(ToolError(errorType))
      case WasCancelled => Err(CancelledError)
  }

  /**
   * Calling again after a call that returned never runs the tool a second time: the repeat is
   * skipped and answers `None` (not the first answer) when the step still has room, and is denied
   * when the first call used the step's last registration.
   */
  lemma RepeatIsNotExecuted(cfg: Config, w: World, id: nat, again: nat, d: EffectDescriptor,
                            checked: real, started: real,
                            dump: Option<string>, finished: real, checked2: real, started2: real, tool2: ToolRun)
    requires id !in w.live && again !in w.live && Decide(cfg, w, d, checked) == Running
    ensures var after := Executing(cfg, w, id, d, checked, started, Returned(dump, finished));
            var room := CountOf(w.counts, StepKey(d.runId, d.stepId)) + 1 < cfg.policy.maxEffectsPerStep;
            && Decide(cfg, after, d, checked2) == (if room then AlreadyCompleted else DeniedLimit)
            && Answer(Decide(cfg, after, d, checked2), tool2) == (if room then Ok(None) else Err(EffectDenied))
            && (Answer(Decide(cfg, after, d, checked2), tool2) == Answer(Running, Returned(dump, finished)) <==>
               room && dump == None)
            && Executing(cfg, after, again, d, checked2, started2, tool2).records == after.records
  {
    var inside := Apply(cfg, w, Call(id, d, checked, started));
    assert inside.records[KeyOf(cfg, d)] == FreshRecord(cfg, d, started);
  }

  /** A call whose tool raised can be retried at once; a call that was cancelled cannot, until its record is stale. */
  lemma RetryAfterFailure(cfg: Config, w: World, id: nat, d: EffectDescriptor, checked: real, started: real,
                          tool: ToolRun, checked2: real)
    requires id !in w.live && Decide(cfg, w, d, checked) == Running
    requires CountOf(w.counts, StepKey(d.runId, d.stepId)) + 1 < cfg.policy.maxEffectsPerStep
    ensures var again := Decide(cfg, Executing(cfg, w, id, d, checked, started, tool), d, checked2);
            match tool
            case Raised(_) => again == Running
            case WasCancelled => (again == Running <==> checked2 - started > cfg.policy.stalePendingTimeoutSeconds)
            case Returned(_, _) => again == AlreadyCompleted
  {
    var inside := Apply(cfg, w, Call(id, d, checked, started));
    assert inside.records[KeyOf(cfg, d)] == FreshRecord(cfg, d, started);
  }
}
