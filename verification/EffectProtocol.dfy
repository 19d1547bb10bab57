/**
 * The effect idempotency protocol as a step machine.
 *
 * A call to `execute` is cut where the source can be suspended: at the `await` of the tool.
 * Everything before it (policy check, journal lookup, optional reclaim, register, count) is one
 * step, and everything after it is another.  Any number of callers interleave these steps, and a
 * caller can disappear between them.
 */
module EffectProtocol {
  import opened Wrappers

  datatype EffectStatus = PENDING | COMPLETED | FAILED

  datatype EffectDescriptor = EffectDescriptor(
    effectType: string, toolName: string, argsHash: string, runId: string, stepId: string)

  datatype EffectRecord = EffectRecord(
    idempotencyKey: string, descriptor: EffectDescriptor, status: EffectStatus, createdAt: real,
    completedAt: Option<real>, resultHash: Option<string>, errorInfo: Option<string>)

  datatype EffectPolicy = EffectPolicy(
    maxEffectsPerStep: int, allowedEffectTypes: Option<set<string>>, stalePendingTimeoutSeconds: real)

  /** What the interceptor publishes; every event carries the idempotency key. */
  datatype EffectEvent =
    | Registered(key: string, runId: string, stepId: string, toolName: string, effectType: string)
    | Executed(key: string, runId: string, toolName: string, resultHash: Option<string>)
    | Skipped(key: string, runId: string, toolName: string)
    | ToolFailed(key: string, runId: string, toolName: string, errorType: string)
    | StaleReclaimed(key: string, runId: string, toolName: string)

  /** The published events, interleaved with the deletions of journal records (which publish nothing). */
  datatype Happening = Emit(event: EffectEvent) | Erase(keys: set<string>)

  /** The policy, and the digest function with which keys are computed. */
  datatype Config = Config(policy: EffectPolicy, sha256: string -> string)

  /**
   * The journal, the per-step counters, what has happened so far, and the callers that are
   * inside their tool, each with the record it registered.
   */
  datatype World = World(
    records: map<string, EffectRecord>, counts: map<string, nat>,
    history: seq<Happening>, live: map<nat, EffectRecord>)

  const Start := World(map[], map[], [], map[])

  /* ---------- Keys ---------- */

  function ComputeIdempotencyKey(
    sha256: string -> string, runId: string, stepId: string, toolName: string, argsHash: string): string
  {
    sha256(runId + stepId + toolName + argsHash)
  }

  function KeyOf(cfg: Config, d: EffectDescriptor): string {
    ComputeIdempotencyKey(cfg.sha256, d.runId, d.stepId, d.toolName, d.argsHash)
  }

  function StepKey(runId: string, stepId: string): string {
    runId + ":" + stepId
  }

  /* ---------- The journal ---------- */

  function Updated<T>(given: Option<T>, existing: Option<T>): Option<T> {
    if given.Some? then given else existing
  }

  function UpdateStatus(
    records: map<string, EffectRecord>, key: string, status: EffectStatus,
    completedAt: Option<real>, resultHash: Option<string>, errorInfo: Option<string>): map<string, EffectRecord>
  {
    if key !in records then records
    else
      var r := records[key];
      records[key := r.(status := status,
                        completedAt := Updated(completedAt, r.completedAt),
                        resultHash := Updated(resultHash, r.resultHash),
                        errorInfo := Updated(errorInfo, r.errorInfo))]
  }

  function KeysOfRun(records: map<string, EffectRecord>, runId: string): set<string> {
    set k | k in records && records[k].descriptor.runId == runId
  }

  function StatusOf(records: map<string, EffectRecord>, key: string): Option<EffectStatus> {
    if key in records then Some(records[key].status) else None
  }

  /* ---------- The section before the tool ---------- */

  datatype Outcome = DeniedType | DeniedLimit | AlreadyCompleted | DuplicatePending | Running

  function CheckPolicy(policy: EffectPolicy, counts: map<string, nat>, d: EffectDescriptor): Option<Outcome> {
    if policy.allowedEffectTypes.Some? && d.effectType !in policy.allowedEffectTypes.value then Some(DeniedType)
    else if CountOf(counts, StepKey(d.runId, d.stepId)) >= policy.maxEffectsPerStep then Some(DeniedLimit)
    else None
  }

  function CountOf(counts: map<string, nat>, stepKey: string): nat {
    if stepKey in counts then counts[stepKey] else 0
  }

  predicate IsStale(policy: EffectPolicy, r: EffectRecord, now: real) {
    now - r.createdAt > policy.stalePendingTimeoutSeconds
  }

  /** What the record found under the key means for a call, the clock showing `checked`. */
  function OnRecord(policy: EffectPolicy, existing: Option<EffectRecord>, checked: real): Outcome {
    match existing
    case None => Running
    case Some(r) =>
      match r.status
      case COMPLETED => AlreadyCompleted
      case FAILED => Running
      case PENDING => if IsStale(policy, r, checked) then Running else DuplicatePending
  }

  function Lookup(records: map<string, EffectRecord>, key: string): Option<EffectRecord> {
    if key in records then Some(records[key]) else None
  }

  /** What happens to a call that finds the world `w`: the policy speaks first, then the journal. */
  function Decide(cfg: Config, w: World, d: EffectDescriptor, checked: real): Outcome {
    match CheckPolicy(cfg.policy, w.counts, d)
    case Some(denied) => denied
    case None => OnRecord(cfg.policy, Lookup(w.records, KeyOf(cfg, d)), checked)
  }

  function FreshRecord(cfg: Config, d: EffectDescriptor, now: real): EffectRecord {
    EffectRecord(KeyOf(cfg, d), d, PENDING, now, None, None, None)
  }

  /** A PENDING record that is about to be replaced is reported as reclaimed. */
  function ReclaimEvents(existing: Option<EffectRecord>, key: string, d: EffectDescriptor): seq<Happening> {
    if existing.Some? && existing.value.status == PENDING
    then [Emit(StaleReclaimed(key, d.runId, d.toolName))]
    else []
  }

  /** The events of a call that gets as far as its tool. */
  function OpeningEvents(cfg: Config, w: World, d: EffectDescriptor): seq<Happening> {
    var key := KeyOf(cfg, d);
    ReclaimEvents(Lookup(w.records, key), key, d) +
    [Emit(Registered(key, d.runId, d.stepId, d.toolName, d.effectType))]
  }

  /** The world once caller `id` is inside its tool. */
  function Launch(cfg: Config, w: World, id: nat, d: EffectDescriptor, started: real): World {
    var entry := FreshRecord(cfg, d, started);
    var step := StepKey(d.runId, d.stepId);
    World(w.records[entry.idempotencyKey := entry],
          w.counts[step := CountOf(w.counts, step) + 1],
          w.history + OpeningEvents(cfg, w, d),
          w.live[id := entry])
  }

  function Begin(cfg: Config, w: World, id: nat, d: EffectDescriptor, checked: real, started: real): World {
    match Decide(cfg, w, d, checked)
    case Running => Launch(cfg, w, id, d, started)
    case AlreadyCompleted => w.(history := w.history + [Emit(Skipped(KeyOf(cfg, d), d.runId, d.toolName))])
    case _ => w
  }

  /* ---------- The sections after the tool ---------- */

  function Succeed(w: World, id: nat, finished: real, resultHash: Option<string>): World
    requires id in w.live
  {
    var r := w.live[id];
    World(UpdateStatus(w.records, r.idempotencyKey, COMPLETED, Some(finished), resultHash, None),
          w.counts,
          w.history + [Emit(Executed(r.idempotencyKey, r.descriptor.runId, r.descriptor.toolName, resultHash))],
          w.live - {id})
  }

  function Fail(w: World, id: nat, errorType: string): World
    requires id in w.live
  {
    var r := w.live[id];
    World(UpdateStatus(w.records, r.idempotencyKey, FAILED, None, None, Some(errorType)),
          w.counts,
          w.history + [Emit(ToolFailed(r.idempotencyKey, r.descriptor.runId, r.descriptor.toolName, errorType))],
          w.live - {id})
  }

  /** Cancellation inside the tool: no handler of `execute` runs. */
  function Vanish(w: World, id: nat): World {
    w.(live := w.live - {id})
  }

  function EraseRun(w: World, runId: string): World {
    var keys := KeysOfRun(w.records, runId);
    w.(records := w.records - keys, history := w.history + [Erase(keys)])
  }

  /* ---------- Runs ---------- */

  datatype Action =
    | Call(id: nat, descriptor: EffectDescriptor, checked: real, started: real)
    | ToolReturns(id: nat, finished: real, resultHash: Option<string>)
    | ToolRaises(id: nat, errorType: string)
    | Cancelled(id: nat)
    | DeleteByRun(runId: string)

  predicate Enabled(w: World, a: Action) {
    match a
    case Call(id, _, _, _) => id !in w.live
    case ToolReturns(id, _, _) => id in w.live
    case ToolRaises(id, _) => id in w.live
    case Cancelled(id) => id in w.live
    case DeleteByRun(_) => true
  }

  function Apply(cfg: Config, w: World, a: Action): World
    requires Enabled(w, a)
  {
    match a
    case Call(id, d, checked, started) => Begin(cfg, w, id, d, checked, started)
    case ToolReturns(id, finished, resultHash) => Succeed(w, id, finished, resultHash)
    case ToolRaises(id, errorType) => Fail(w, id, errorType)
    case Cancelled(id) => Vanish(w, id)
    case DeleteByRun(runId) => EraseRun(w, runId)
  }

  /** `ws` is a run: it starts empty, and each world follows from the one before by the action between them. */
  ghost predicate IsRun(cfg: Config, ws: seq<World>, acts: seq<Action>) {
    && |ws| == |acts| + 1
    && ws[0] == Start
    && forall i :: 0 <= i < |acts| ==> Enabled(ws[i], acts[i]) && ws[i + 1] == Apply(cfg, ws[i], acts[i])
  }

  /* ---------- Reading the history ---------- */

  /** The status that a key's events lead to, read one by one. */
  function Replay(h: seq<Happening>, key: string): Option<EffectStatus> {
    if h == [] then None else ReplayOne(Replay(h[..|h| - 1], key), h[|h| - 1], key)
  }

  function ReplayOne(s: Option<EffectStatus>, what: Happening, key: string): Option<EffectStatus> {
    match what
    case Erase(keys) => if key in keys then None else s
    case Emit(e) =>
      if e.key != key then s
      else if e.Registered? then Some(PENDING)
      else if s.None? || e.Skipped? then s
      else if e.Executed? then Some(COMPLETED)
      else Some(FAILED)
  }

  /** Whether a key's event may follow when the key has status `s`. */
  predicate Lawful(s: Option<EffectStatus>, e: EffectEvent) {
    match e
    case Registered(_, _, _, _, _) => s == None || s == Some(FAILED)
    case Executed(_, _, _, _) => s == Some(PENDING)
    case ToolFailed(_, _, _, _) => s == Some(PENDING)
    case StaleReclaimed(_, _, _) => s == Some(PENDING)
    case Skipped(_, _, _) => s == Some(COMPLETED)
  }

  predicate LawfulHistory(h: seq<Happening>, key: string) {
    h == [] ||
    (LawfulHistory(h[..|h| - 1], key) &&
     (h[|h| - 1].Emit? && h[|h| - 1].event.key == key
      ==> Lawful(Replay(h[..|h| - 1], key), h[|h| - 1].event)))
  }

  /** How often `stepKey` was registered. */
  function Registrations(h: seq<Happening>, stepKey: string): nat {
    if h == [] then 0
    else Registrations(h[..|h| - 1], stepKey) + (if IsRegistration(h[|h| - 1], stepKey) then 1 else 0)
  }

  predicate IsRegistration(what: Happening, stepKey: string) {
    what.Emit? && what.event.Registered? && StepKey(what.event.runId, what.event.stepId) == stepKey
  }

  /** How often this very run and step were registered. */
  function RegistrationsOf(h: seq<Happening>, runId: string, stepId: string): nat {
    if h == [] then 0
    else RegistrationsOf(h[..|h| - 1], runId, stepId) +
         (if IsRegistrationOf(h[|h| - 1], runId, stepId) then 1 else 0)
  }

  predicate IsRegistrationOf(what: Happening, runId: string, stepId: string) {
    what.Emit? && what.event.Registered? && what.event.runId == runId && what.event.stepId == stepId
  }
}
