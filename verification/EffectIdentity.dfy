/**
 * From arguments to effects: calls with the same arguments are one effect, and different effects
 * do not get in each other's way.
 */
module EffectIdentity {
  import opened Wrappers
  import opened EffectProtocol
  import opened EffectSafety
  import opened IdempotencyKey

  /** What a caller of `execute` asks for. */
  datatype Request = Request(effectType: string, runId: string, stepId: string, toolName: string, args: Json)

  function Describe(cfg: Config, dump: Json -> string, rq: Request): EffectDescriptor {
    EffectDescriptor(rq.effectType, rq.toolName, ComputeArgsHash(cfg.sha256, dump, rq.args), rq.runId, rq.stepId)
  }

  function RequestKey(cfg: Config, dump: Json -> string, rq: Request): string {
    KeyOf(cfg, Describe(cfg, dump, rq))
  }

  /** The same tool in the same step of the same run, with arguments that are the same JSON mapping. */
  ghost predicate SameEffect(p: Request, q: Request) {
    p.runId == q.runId && p.stepId == q.stepId && p.toolName == q.toolName && SameValue(p.args, q.args)
  }

  /** Neither digest nor dump takes these two requests for one another by accident. */
  ghost predicate NoCollision(cfg: Config, dump: Json -> string, p: Request, q: Request) {
    var sp, sq := SortKeys(p.args), SortKeys(q.args);
    var hp, hq := cfg.sha256(dump(sp)), cfg.sha256(dump(sq));
    var tp, tq := Raw(p.runId, p.stepId, p.toolName, hp), Raw(q.runId, q.stepId, q.toolName, hq);
    && |hp| == |hq|
    && (dump(sp) == dump(sq) ==> sp == sq)
    && (hp == hq ==> dump(sp) == dump(sq))
    && (cfg.sha256(tp) == cfg.sha256(tq) ==> tp == tq)
  }

  /** The same effect has one key, whatever digest and dump do. */
  lemma SameEffectSameKey(cfg: Config, dump: Json -> string, p: Request, q: Request)
    requires WellFormed(p.args) && WellFormed(q.args) && SameEffect(p, q)
    ensures RequestKey(cfg, dump, p) == RequestKey(cfg, dump, q)
  {
    ArgsHashIgnoresOrder(cfg.sha256, dump, p.args, q.args);
  }

  /** With run and step ids of fixed lengths, requests share a key exactly when they are the same effect. */
  lemma KeyIsEffect(cfg: Config, dump: Json -> string, p: Request, q: Request)
    requires WellFormed(p.args) && WellFormed(q.args) && NoCollision(cfg, dump, p, q)
    requires |p.runId| == |q.runId| && |p.stepId| == |q.stepId|
    ensures RequestKey(cfg, dump, p) == RequestKey(cfg, dump, q) <==> SameEffect(p, q)
  {
    var hp, hq := ComputeArgsHash(cfg.sha256, dump, p.args), ComputeArgsHash(cfg.sha256, dump, q.args);
    ArgsHashSeparates(cfg.sha256, dump, p.args, q.args);
    FixedLengthsSeparate(p.runId, p.stepId, p.toolName, hp, q.runId, q.stepId, q.toolName, hq);
  }

  /**
   * End to end: in a timely run, two successes of requests for the same effect, however their
   * arguments were ordered, have a deletion of the effect's record between them.
   */
  lemma OneSuccessPerEffect(cfg: Config, dump: Json -> string, ws: seq<World>, acts: seq<Action>, n: nat,
                            p: Request, q: Request, i: nat, j: nat)
    requires IsRun(cfg, ws, acts) && Timely(cfg, ws, acts) && n < |ws|
    requires WellFormed(p.args) && WellFormed(q.args) && SameEffect(p, q)
    requires i < j < |ws[n].history|
    requires Succeeded(ws[n].history[i], RequestKey(cfg, dump, p))
    requires Succeeded(ws[n].history[j], RequestKey(cfg, dump, q))
    ensures exists k :: i < k < j && Erased(ws[n].history[k], RequestKey(cfg, dump, p))
  {
    SameEffectSameKey(cfg, dump, p, q);
    AtMostOneSuccess(cfg, ws, acts, n, RequestKey(cfg, dump, p), i, j);
  }

  /** What a caller may take for the same effect: the arguments are equal in Python. */
  ghost predicate EqualEffect(p: Request, q: Request) {
    p.runId == q.runId && p.stepId == q.stepId && p.toolName == q.toolName && PyEqual(p.args, q.args)
  }

  /** Equal requests share a key exactly when the numbers in their arguments are of the same kinds. */
  lemma EqualEffectsShareKey(cfg: Config, dump: Json -> string, p: Request, q: Request)
    requires WellFormed(p.args) && WellFormed(q.args) && NoCollision(cfg, dump, p, q) && EqualEffect(p, q)
    ensures RequestKey(cfg, dump, p) == RequestKey(cfg, dump, q) <==> SameKinds(p.args, q.args)
  {
    KeyIsEffect(cfg, dump, p, q);
    ValueIsEqualOfKind(p.args, q.args);
  }

  /**
   * A retry that writes 1.0 where the first call wrote 1 is another effect: without any delay or
   * deletion, the tool succeeds for both.
   */
  lemma EqualArgsSucceedTwice(cfg: Config, dump: Json -> string, p: Request, q: Request)
    requires WellFormed(p.args) && WellFormed(q.args) && NoCollision(cfg, dump, p, q)
    requires EqualEffect(p, q) && !SameKinds(p.args, q.args)
    requires Admits(cfg, Describe(cfg, dump, p)) && Admits(cfg, Describe(cfg, dump, q))
    requires cfg.policy.stalePendingTimeoutSeconds >= 0.0
    ensures exists ws: seq<World>, acts: seq<Action> ::
              && IsRun(cfg, ws, acts) && Timely(cfg, ws, acts) && |acts| == 4
              && var h := ws[4].history;
                 |h| == 4 && Succeeded(h[1], RequestKey(cfg, dump, p)) && Succeeded(h[3], RequestKey(cfg, dump, q))
  {
    EqualEffectsShareKey(cfg, dump, p, q);
    var d, e := Describe(cfg, dump, p), Describe(cfg, dump, q);
    assert KeyOf(cfg, d) != KeyOf(cfg, e);
    hide PyEqual, SameKinds, WellFormed, NoCollision, Describe, KeyOf;
    TwoKeysSucceed(cfg, d, e);
  }

  lemma TwoKeysSucceed(cfg: Config, d: EffectDescriptor, e: EffectDescriptor)
    requires Admits(cfg, d) && Admits(cfg, e) && KeyOf(cfg, d) != KeyOf(cfg, e)
    requires cfg.policy.stalePendingTimeoutSeconds >= 0.0
    ensures exists ws: seq<World>, acts: seq<Action> ::
              && IsRun(cfg, ws, acts) && Timely(cfg, ws, acts) && |acts| == 4
              && var h := ws[4].history;
                 |h| == 4 && Succeeded(h[1], KeyOf(cfg, d)) && Succeeded(h[3], KeyOf(cfg, e))
  {
    var acts := [Call(0, d, 0.0, 0.0), ToolReturns(0, 0.0, None), Call(1, e, 0.0, 0.0), ToolReturns(1, 0.0, None)];
    hide KeyOf;
    var w1 := Apply(cfg, Start, acts[0]);
    assert w1.live == map[0 := FreshRecord(cfg, d, 0.0)];
    var w2 := Apply(cfg, w1, acts[1]);
    assert w2.live == map[] && KeyOf(cfg, e) !in w2.records && |w2.history| == 2;
    assert Decide(cfg, w2, e, 0.0) == Running;
    var w3 := Apply(cfg, w2, acts[2]);
    assert w3.live == map[1 := FreshRecord(cfg, e, 0.0)] && |w3.history| == 3;
    var ws := FourSteps(cfg, acts);
    assert Timely(cfg, ws, acts);
  }

  /* ---------- Nobody is blocked by another effect ---------- */

  /** The `k`-th action is the call that put this record under its key. */
  ghost predicate RegisteredBy(cfg: Config, acts: seq<Action>, k: int, r: EffectRecord) {
    && 0 <= k < |acts| && acts[k].Call?
    && r.descriptor == acts[k].descriptor && r.idempotencyKey == KeyOf(cfg, r.descriptor)
  }

  /** Every record, and every executor, comes from a call with its descriptor. */
  ghost predicate Sourced(cfg: Config, w: World, acts: seq<Action>, n: nat)
    requires n <= |acts|
  {
    && (forall key :: key in w.records ==>
          w.records[key].idempotencyKey == key && exists k :: k < n && RegisteredBy(cfg, acts, k, w.records[key]))
    && (forall id :: id in w.live ==> exists k :: k < n && RegisteredBy(cfg, acts, k, w.live[id]))
  }

  lemma RecordsChange(cfg: Config, w: World, a: Action, key: string)
    requires Enabled(w, a) && key in Apply(cfg, w, a).records
    requires forall k :: k in w.records ==> w.records[k].idempotencyKey == k
    ensures var r := Apply(cfg, w, a).records[key];
            && r.idempotencyKey == key
            && ((key in w.records && w.records[key].descriptor == r.descriptor) ||
                (a.Call? && r.descriptor == a.descriptor && key == KeyOf(cfg, a.descriptor)))
  {
    hide KeyOf;
  }

  lemma LiveChange(cfg: Config, w: World, a: Action, id: nat)
    requires Enabled(w, a) && id in Apply(cfg, w, a).live
    ensures var r := Apply(cfg, w, a).live[id];
            || (id in w.live && w.live[id] == r)
            || (a.Call? && r.descriptor == a.descriptor && r.idempotencyKey == KeyOf(cfg, a.descriptor))
  {
    hide KeyOf;
  }

  lemma {:induction false} SourcedAlong(cfg: Config, ws: seq<World>, acts: seq<Action>, n: nat)
    requires IsRun(cfg, ws, acts) && n < |ws|
    ensures Sourced(cfg, ws[n], acts, n)
  {
    if n > 0 {
      SourcedAlong(cfg, ws, acts, n - 1);
      hide Apply, KeyOf;
      forall key | key in ws[n].records
        ensures ws[n].records[key].idempotencyKey == key
        ensures exists k :: k < n && RegisteredBy(cfg, acts, k, ws[n].records[key])
      {
        RecordsChange(cfg, ws[n - 1], acts[n - 1], key);
        if key in ws[n - 1].records && ws[n - 1].records[key].descriptor == ws[n].records[key].descriptor {
          var k :| k < n - 1 && RegisteredBy(cfg, acts, k, ws[n - 1].records[key]);
          assert RegisteredBy(cfg, acts, k, ws[n].records[key]);
        } else {
          assert RegisteredBy(cfg, acts, n - 1, ws[n].records[key]);
        }
      }
      forall id | id in ws[n].live
        ensures exists k :: k < n && RegisteredBy(cfg, acts, k, ws[n].live[id])
      {
        LiveChange(cfg, ws[n - 1], acts[n - 1], id);
        if id in ws[n - 1].live && ws[n - 1].live[id] == ws[n].live[id] {
          var k :| k < n - 1 && RegisteredBy(cfg, acts, k, ws[n - 1].live[id]);
        } else {
          assert RegisteredBy(cfg, acts, n - 1, ws[n].live[id]);
        }
      }
    }
  }

  /** The calls of a run are these requests. */
  ghost predicate Requested(cfg: Config, dump: Json -> string, acts: seq<Action>, requests: seq<Request>) {
    |requests| == |acts| &&
    forall k :: 0 <= k < |acts| && acts[k].Call? ==>
      WellFormed(requests[k].args) && acts[k].descriptor == Describe(cfg, dump, requests[k])
  }

  /** Ids have fixed lengths, and nothing collides with the request `q`. */
  ghost predicate Separable(cfg: Config, dump: Json -> string, acts: seq<Action>, requests: seq<Request>, q: Request)
    requires |requests| == |acts|
  {
    forall k :: 0 <= k < |acts| && acts[k].Call? ==>
      && |requests[k].runId| == |q.runId| && |requests[k].stepId| == |q.stepId|
      && NoCollision(cfg, dump, requests[k], q)
  }

  /**
   * In any run, a call that is skipped as completed or refused as a duplicate has been preceded by
   * a call for the very same effect: different effects never block each other.
   */
  lemma BlockedOnlyByItself(cfg: Config, dump: Json -> string, ws: seq<World>, acts: seq<Action>,
                            requests: seq<Request>, i: nat, q: Request, checked: real)
    requires IsRun(cfg, ws, acts) && i < |ws| && WellFormed(q.args)
    requires Requested(cfg, dump, acts, requests) && Separable(cfg, dump, acts, requests, q)
    requires Decide(cfg, ws[i], Describe(cfg, dump, q), checked) in {AlreadyCompleted, DuplicatePending}
    ensures exists k :: 0 <= k < i && acts[k].Call? && SameEffect(requests[k], q)
  {
    var key := RequestKey(cfg, dump, q);
    assert key in ws[i].records;
    SourcedAlong(cfg, ws, acts, i);
    hide Apply, NoCollision, SameEffect, Describe;
    var k :| k < i && RegisteredBy(cfg, acts, k, ws[i].records[key]);
    assert RequestKey(cfg, dump, requests[k]) == key;
    KeyIsEffect(cfg, dump, requests[k], q);
  }

  /** As long as nobody has asked for an effect, only the policy stands between a call for it and its tool. */
  lemma NewEffectRuns(cfg: Config, dump: Json -> string, ws: seq<World>, acts: seq<Action>,
                      requests: seq<Request>, i: nat, q: Request, checked: real)
    requires IsRun(cfg, ws, acts) && i < |ws| && WellFormed(q.args)
    requires Requested(cfg, dump, acts, requests) && Separable(cfg, dump, acts, requests, q)
    requires forall k :: 0 <= k < i && acts[k].Call? ==> !SameEffect(requests[k], q)
    ensures Decide(cfg, ws[i], Describe(cfg, dump, q), checked) == Running <==>
            CheckPolicy(cfg.policy, ws[i].counts, Describe(cfg, dump, q)) == None
    ensures Decide(cfg, ws[i], Describe(cfg, dump, q), checked) == Running <==>
            && (cfg.policy.allowedEffectTypes.Some? ==> q.effectType in cfg.policy.allowedEffectTypes.value)
            && Registrations(ws[i].history, q.runId + ":" + q.stepId) < cfg.policy.maxEffectsPerStep
  {
    PolicyAdmitsExactly(cfg, ws, acts, i, Describe(cfg, dump, q));
    if Decide(cfg, ws[i], Describe(cfg, dump, q), checked) in {AlreadyCompleted, DuplicatePending} {
      BlockedOnlyByItself(cfg, dump, ws, acts, requests, i, q, checked);
    }
  }
}
