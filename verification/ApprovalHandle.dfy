/**
 * The approval handle: a write-once future that resolvers, waiters and timeouts race for.
 *
 * `wait` is cut at its only suspension, the await of the event; the steps of any number of waiters
 * and resolvers interleave.
 */
module ApprovalHandle {
  import opened Wrappers

  datatype ApprovalResponse = ApprovalResponse(requestId: string, decision: string, reason: Option<string>)

  datatype ResolveError = AlreadyResolved | InvalidDecision

  const DECISIONS := {"approved", "denied"}

  /** What a handle holds. */
  datatype Handle = Handle(requestId: string, timed: bool, response: Option<ApprovalResponse>, eventSet: bool)

  function NewHandle(requestId: string, timed: bool): Handle {
    Handle(requestId, timed, None, false)
  }

  function Answered(h: Handle, decision: string, reason: Option<string>): Handle {
    h.(response := Some(ApprovalResponse(h.requestId, decision, reason)), eventSet := true)
  }

  /** `resolve`: first come, first served; the check for an earlier answer precedes the check of the decision. */
  function ResolveOutcome(h: Handle, decision: string): Result<(), ResolveError> {
    if h.response.Some? then Err(AlreadyResolved)
    else if decision !in DECISIONS then Err(InvalidDecision)
    else Ok(())
  }

  function Resolved(h: Handle, decision: string, reason: Option<string>): Handle {
    if ResolveOutcome(h, decision).Ok? then Answered(h, decision, reason) else h
  }

  const TIMEOUT_REASON: Option<string> := Some("Approval timed out")

  /** The end of the timeout scope: an answer that has come meanwhile stands, otherwise the request is denied. */
  function TimedOut(h: Handle): Handle {
    if h.response.Some? then h else Answered(h, "denied", TIMEOUT_REASON)
  }

  /* ---------- The object ---------- */

  class ApprovalFuture {
    const requestId: string
    const timeoutSeconds: Option<real>
    var response: Option<ApprovalResponse>
    var eventSet: bool

    function View(): Handle
      reads this
    {
      Handle(requestId, timeoutSeconds.Some?, response, eventSet)
    }

    /** The event is set exactly when there is an answer, and it is an answer to this request. */
    predicate Valid()
      reads this
    {
      && (eventSet <==> response.Some?)
      && (response.Some? ==> response.value.requestId == requestId && response.value.decision in DECISIONS)
    }

    constructor (requestId: string, timeoutSeconds: Option<real>)
      ensures Valid()
      ensures View() == NewHandle(requestId, timeoutSeconds.Some?)
      ensures this.requestId == requestId && this.timeoutSeconds == timeoutSeconds
    {
      this.requestId, this.timeoutSeconds := requestId, timeoutSeconds;
      response, eventSet := None, false;
    }

    method Resolve(decision: string, reason: Option<string>) returns (r: Result<(), ResolveError>)
      requires Valid()
      modifies this
      ensures Valid()
      ensures r == ResolveOutcome(old(View()), decision)
      ensures View() == Resolved(old(View()), decision, reason)
    {
      if response.Some? {
        return Err(AlreadyResolved);
      }
      if decision !in DECISIONS {
        return Err(InvalidDecision);
      }
      response := Some(ApprovalResponse(requestId, decision, reason));
      eventSet := true;
      return Ok(());
    }

    /** `wait` up to the await: an answered handle returns at once. */
    method WaitEnter() returns (r: Option<ApprovalResponse>)
      requires Valid()
      ensures r == response && (r.Some? <==> eventSet)
      ensures r.Some? ==> r.value.requestId == requestId && r.value.decision in DECISIONS
    {
      return response;
    }

    /** `wait` after the timeout scope. */
    method WaitAfterScope() returns (r: ApprovalResponse)
      requires Valid() && timeoutSeconds.Some?
      modifies this
      ensures Valid()
      ensures View() == TimedOut(old(View())) && response == Some(r)
    {
      if response.Some? {
        return response.value;
      }
      response := Some(ApprovalResponse(requestId, "denied", TIMEOUT_REASON));
      eventSet := true;
      return response.value;
    }

    /** `wait` without a timeout, woken by the event; its assertion never fails. */
    method WaitAfterEvent() returns (r: ApprovalResponse)
      requires Valid() && eventSet
      ensures response == Some(r) && r.requestId == requestId && r.decision in DECISIONS
    {
      assert response.Some?;
      return response.value;
    }
  }

  /** Whoever decides first decides for everybody: a second decision is refused, and waiting gives the first one. */
  method FirstDecisionWins(handle: ApprovalFuture, first: string, second: string)
    returns (found: Option<ApprovalResponse>)
    requires handle.Valid() && first in DECISIONS
    modifies handle
    ensures handle.Valid() && found.Some? && found == handle.response
    ensures found == if old(handle.response).Some? then old(handle.response)
                     else Some(ApprovalResponse(handle.requestId, first, None))
  {
    var _ := handle.Resolve(first, None);
    var refused := handle.Resolve(second, None);
    assert refused == Err(AlreadyResolved);
    found := handle.WaitEnter();
  }

  /* ---------- Interleavings ---------- */

  datatype Waiter = Waiting | Returned(response: ApprovalResponse)

  /** One handle, its waiters, and the answers that were ever written into it. */
  datatype World = World(handle: Handle, waiters: map<nat, Waiter>, written: seq<ApprovalResponse>)

  datatype Action =
    | Resolve(decision: string, reason: Option<string>)
    | Enter(id: nat)
    | Wake(id: nat)
    | Expire(id: nat)
    | Abandon(id: nat)

  predicate IsWaiting(w: World, id: nat) {
    id in w.waiters && w.waiters[id] == Waiting
  }

  /** A waiter wakes when the event is set; a timed one also when its time is over. */
  predicate Enabled(w: World, a: Action) {
    match a
    case Resolve(_, _) => true
    case Enter(id) => id !in w.waiters
    case Wake(id) => IsWaiting(w, id) && w.handle.eventSet
    case Expire(id) => IsWaiting(w, id) && w.handle.timed
    case Abandon(id) => IsWaiting(w, id)
  }

  /** Writing an answer into the handle is recorded. */
  function Put(w: World, h: Handle): World {
    if h.response.Some? && w.handle.response != h.response
    then w.(handle := h, written := w.written + [h.response.value])
    else w.(handle := h)
  }

  /** The waiter leaves with the answer; an untimed one that was woken without an answer would fail its assertion. */
  function Leave(w: World, id: nat): World {
    if w.handle.response.Some? then w.(waiters := w.waiters[id := Returned(w.handle.response.value)]) else w
  }

  function Apply(w: World, a: Action): World
    requires Enabled(w, a)
  {
    match a
    case Resolve(decision, reason) => Put(w, Resolved(w.handle, decision, reason))
    case Enter(id) => if w.handle.response.Some? then Leave(w, id) else w.(waiters := w.waiters[id := Waiting])
    case Wake(id) => Leave(if w.handle.timed then Put(w, TimedOut(w.handle)) else w, id)
    case Expire(id) => Leave(Put(w, TimedOut(w.handle)), id)
    case Abandon(id) => w.(waiters := w.waiters - {id})
  }

  ghost predicate IsRun(ws: seq<World>, acts: seq<Action>) {
    && |ws| == |acts| + 1
    && ws[0].handle.response == None && !ws[0].handle.eventSet && ws[0].waiters == map[] && ws[0].written == []
    && forall i :: 0 <= i < |acts| ==> Enabled(ws[i], acts[i]) && ws[i + 1] == Apply(ws[i], acts[i])
  }

  /** At most one answer was ever written, it is the one held, the event says so, and whoever returned has it. */
  ghost predicate Consistent(w: World) {
    && (w.handle.response.Some? ==> w.written == [w.handle.response.value])
    && (w.handle.response.None? ==> w.written == [])
    && (w.handle.eventSet <==> w.handle.response.Some?)
    && (forall id :: id in w.waiters && w.waiters[id].Returned? ==> w.handle.response == Some(w.waiters[id].response))
    && (w.handle.response.Some? ==>
          w.handle.response.value.requestId == w.handle.requestId && w.handle.response.value.decision in DECISIONS)
  }

  lemma ConsistentStep(w: World, a: Action)
    requires Consistent(w) && Enabled(w, a)
    ensures Consistent(Apply(w, a))
    ensures w.handle.response.Some? ==> Apply(w, a).handle == w.handle
    ensures a.Wake? || a.Expire? ==> Apply(w, a).waiters[a.id].Returned?
  {
  }

  lemma {:induction false} ConsistentAlong(ws: seq<World>, acts: seq<Action>, i: nat)
    requires IsRun(ws, acts) && i < |ws|
    ensures Consistent(ws[i])
  {
    if i > 0 {
      ConsistentAlong(ws, acts, i - 1);
      ConsistentStep(ws[i - 1], acts[i - 1]);
    }
  }

  /** Write-once: once a handle has an answer, it keeps it through every later step. */
  lemma {:induction false} WriteOnce(ws: seq<World>, acts: seq<Action>, i: nat, j: nat)
    requires IsRun(ws, acts) && i <= j < |ws| && ws[i].handle.response.Some?
    ensures ws[j].handle == ws[i].handle && |ws[j].written| == 1
    decreases j
  {
    ConsistentAlong(ws, acts, j);
    if i < j {
      WriteOnce(ws, acts, i, j - 1);
      ConsistentAlong(ws, acts, j - 1);
      ConsistentStep(ws[j - 1], acts[j - 1]);
    }
  }

  /** All waiters that return, at whatever times, return the same answer. */
  lemma {:induction false} WaitersAgree(ws: seq<World>, acts: seq<Action>, i: nat, j: nat, a: nat, b: nat)
    requires IsRun(ws, acts) && i <= j < |ws|
    requires a in ws[i].waiters && ws[i].waiters[a].Returned?
    requires b in ws[j].waiters && ws[j].waiters[b].Returned?
    ensures ws[i].waiters[a] == ws[j].waiters[b] && ws[j].handle.response == Some(ws[j].waiters[b].response)
  {
    ConsistentAlong(ws, acts, i);
    ConsistentAlong(ws, acts, j);
    WriteOnce(ws, acts, i, j);
  }

  /**
   * A resolve is accepted exactly as the first answer; after a timeout, or any answer, it is rejected and
   * changes nothing.
   */
  lemma ResolveAcceptedExactly(ws: seq<World>, acts: seq<Action>, i: nat)
    requires IsRun(ws, acts) && i < |acts| && acts[i].Resolve?
    ensures ResolveOutcome(ws[i].handle, acts[i].decision).Ok?
            <==> ws[i].written == [] && acts[i].decision in DECISIONS
    ensures ResolveOutcome(ws[i].handle, acts[i].decision).Ok? <==> ws[i + 1] != ws[i]
    ensures ws[i].written != [] ==> ResolveOutcome(ws[i].handle, acts[i].decision) == Err(AlreadyResolved)
    ensures ws[i].written == [] && acts[i].decision !in DECISIONS ==>
              ResolveOutcome(ws[i].handle, acts[i].decision) == Err(InvalidDecision)
    ensures ws[i].written == [] && acts[i].decision in DECISIONS ==>
              ws[i + 1].handle.response ==
              Some(ApprovalResponse(ws[i].handle.requestId, acts[i].decision, acts[i].reason))
  {
    ConsistentAlong(ws, acts, i);
  }

  /** A waiter whose time is over always returns, with a denial unless an answer had come before. */
  lemma ExpiryAnswers(ws: seq<World>, acts: seq<Action>, i: nat)
    requires IsRun(ws, acts) && i < |acts| && acts[i].Expire?
    ensures var got := ws[i + 1].waiters[acts[i].id];
            got.Returned? &&
            got.response == (if ws[i].written != [] then ws[i].written[0]
                             else ApprovalResponse(ws[i].handle.requestId, "denied", TIMEOUT_REASON))
  {
    ConsistentAlong(ws, acts, i);
    ConsistentStep(ws[i], acts[i]);
  }

  /** Nobody is stranded: from the first answer on every remaining waiter can wake, and waking returns that answer. */
  lemma NobodyStranded(ws: seq<World>, acts: seq<Action>, i: nat, id: nat)
    requires IsRun(ws, acts) && i < |ws| && IsWaiting(ws[i], id) && ws[i].written != []
    ensures Enabled(ws[i], Wake(id)) && Apply(ws[i], Wake(id)).waiters[id] == Returned(ws[i].written[0])
    ensures Apply(ws[i], Wake(id)).handle == ws[i].handle
  {
    ConsistentAlong(ws, acts, i);
    ConsistentStep(ws[i], Wake(id));
  }
}
