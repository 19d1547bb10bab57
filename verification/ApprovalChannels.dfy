/** The approval channels: which handles they list as pending, and what a request is answered with. */
module ApprovalChannels {
  import opened Wrappers
  import opened ApprovalHandle

  datatype ApprovalRequest = ApprovalRequest(requestId: string, timeoutSeconds: Option<real>)

  /** `request.timeout_seconds or default`: a timeout of zero counts as none given. */
  function EffectiveTimeout(request: ApprovalRequest, default: Option<real>): Option<real> {
    if request.timeoutSeconds.Some? && request.timeoutSeconds.value != 0.0 then request.timeoutSeconds else default
  }

  /** A request's own timeout goes before the channel's, unless it is missing or zero. */
  lemma TimeoutExactly(request: ApprovalRequest, default: Option<real>, seconds: real)
    ensures EffectiveTimeout(request, default) == Some(seconds) <==>
            || (request.timeoutSeconds == Some(seconds) && seconds != 0.0)
            || ((request.timeoutSeconds == None || request.timeoutSeconds == Some(0.0)) && default == Some(seconds))
  {
  }

  class InMemoryApprovalChannel {
    const defaultTimeout: Option<real>
    const autoApprove: bool
    var handles: map<string, ApprovalFuture>

    constructor (defaultTimeout: Option<real>, autoApprove: bool)
      ensures handles == map[] && this.defaultTimeout == defaultTimeout && this.autoApprove == autoApprove
    {
      this.defaultTimeout, this.autoApprove := defaultTimeout, autoApprove;
      handles := map[];
    }

    /**
     * The handle is stored under the request id, replacing an earlier one; with auto-approval it is
     * answered at once.
     */
    method Submit(request: ApprovalRequest) returns (handle: ApprovalFuture)
      modifies this
      ensures fresh(handle) && handle.Valid() && handles == old(handles)[request.requestId := handle]
      ensures handle.requestId == request.requestId
      ensures handle.timeoutSeconds == EffectiveTimeout(request, defaultTimeout)
      ensures var pending := NewHandle(request.requestId, EffectiveTimeout(request, defaultTimeout).Some?);
              handle.View() ==
              if autoApprove then Answered(pending, "approved", Some("auto-approved (testing)")) else pending
    {
      handle := new ApprovalFuture(request.requestId, EffectiveTimeout(request, defaultTimeout));
      handles := handles[request.requestId := handle];
      if autoApprove {
        var _ := handle.Resolve("approved", Some("auto-approved (testing)"));
      }
    }

    /** Exactly the stored handles that have no answer. */
    method ListPending() returns (pending: set<ApprovalFuture>)
      ensures forall h :: h in pending <==> (exists k :: k in handles && handles[k] == h) && h.response.None?
    {
      pending := set k | k in handles && handles[k].response.None? :: handles[k];
    }
  }

  /** How the callback of a channel ends, and who answered the handle while it ran. */
  datatype Callback = Callback(meanwhile: Option<string>, outcome: Option<string>)

  /**
   * The decision a callback channel ends with: an earlier answer, else "approved" for exactly that text,
   * else a denial.
   */
  function CallbackDecision(c: Callback): string {
    if c.meanwhile.Some? && c.meanwhile.value in DECISIONS then c.meanwhile.value
    else if c.outcome == Some("approved") then "approved"
    else "denied"
  }

  class CallbackApprovalChannel {
    const defaultTimeout: Option<real>
    var pending: map<string, ApprovalFuture>

    constructor (defaultTimeout: Option<real>)
      ensures pending == map[] && this.defaultTimeout == defaultTimeout
    {
      this.defaultTimeout := defaultTimeout;
      pending := map[];
    }

    /** `submit` up to the await of the callback: from here on the handle is pending. */
    method Begin(request: ApprovalRequest) returns (handle: ApprovalFuture)
      modifies this
      ensures fresh(handle) && handle.Valid() && pending == old(pending)[request.requestId := handle]
      ensures handle.View() == NewHandle(request.requestId, EffectiveTimeout(request, defaultTimeout).Some?)
      ensures handle.timeoutSeconds == EffectiveTimeout(request, defaultTimeout)
    {
      handle := new ApprovalFuture(request.requestId, EffectiveTimeout(request, defaultTimeout));
      pending := pending[request.requestId := handle];
    }

    /**
     * `submit` after the callback, whatever has happened to the channel and the handle meanwhile: an
     * answer that has come stands, otherwise the handle gets the callback's. `None` is a callback
     * that raised.
     */
    method Finish(handle: ApprovalFuture, outcome: Option<string>)
      requires handle.Valid()
      modifies handle
      ensures handle.Valid() && handle.response.Some?
      ensures old(handle.response).Some? ==> handle.View() == old(handle.View())
      ensures old(handle.response).None? ==>
                var decision := if outcome == Some("approved") then "approved" else "denied";
                var reason := if outcome.None? then Some("Approval callback failed") else None;
                handle.response == Some(ApprovalResponse(handle.requestId, decision, reason))
    {
      if outcome.Some? {
        var decision := if outcome.value == "approved" then "approved" else "denied";
        if handle.response.None? {
          var _ := handle.Resolve(decision, None);
        }
      } else {
        if handle.response.None? {
          var _ := handle.Resolve("denied", Some("Approval callback failed"));
        }
      }
    }

    /**
     * `submit` when the channel is left alone while the callback runs. It awaits the callback, so
     * the handle it returns always has its answer.
     */
    method Submit(request: ApprovalRequest, callback: Callback) returns (handle: ApprovalFuture)
      modifies this
      ensures fresh(handle) && handle.Valid() && pending == old(pending)[request.requestId := handle]
      ensures handle.requestId == request.requestId
      ensures handle.response.Some? && handle.eventSet
      ensures handle.response.value.requestId == request.requestId
      ensures handle.response.value.decision == CallbackDecision(callback)
      ensures callback.meanwhile.Some? && callback.meanwhile.value in DECISIONS ==>
                handle.response.value.decision == callback.meanwhile.value
      ensures callback.meanwhile.None? || callback.meanwhile.value !in DECISIONS ==>
                (handle.response.value.decision == "approved" <==> callback.outcome == Some("approved"))
    {
      handle := Begin(request);
      if callback.meanwhile.Some? {
        var _ := handle.Resolve(callback.meanwhile.value, None);
      }
      Finish(handle, callback.outcome);
    }

    /** Drops the answered handles and lists the rest. */
    method ListPending() returns (listed: set<ApprovalFuture>)
      modifies this
      ensures pending == map k | k in old(pending) && old(pending[k]).response.None? :: old(pending[k])
      ensures forall h :: h in listed <==> (exists k :: k in old(pending) && old(pending[k]) == h) && h.response.None?
    {
      ghost var before := pending;
      pending := map k | k in pending && pending[k].response.None? :: pending[k];
      listed := set k | k in pending :: pending[k];
      forall h
        ensures h in listed <==> (exists k :: k in before && before[k] == h) && h.response.None?
      {
        if k :| k in before && before[k] == h && h.response.None? {
          assert k in pending && pending[k] == h;
        }
      }
    }
  }

  /**
   * Two requests whose callbacks overlap: while they run both are listed, the first one to finish is
   * listed no more, and each gets its own callback's decision.
   */
  method OverlappingSubmits(channel: CallbackApprovalChannel, first: ApprovalRequest, second: ApprovalRequest,
                            firstOutcome: Option<string>, secondOutcome: Option<string>)
    returns (a: ApprovalFuture, b: ApprovalFuture, during: set<ApprovalFuture>, between: set<ApprovalFuture>)
    requires first.requestId != second.requestId
    modifies channel
    ensures a in during && b in during && a !in between && b in between
    ensures a.response.Some? && a.response.value.decision == CallbackDecision(Callback(None, firstOutcome))
    ensures b.response.Some? && b.response.value.decision == CallbackDecision(Callback(None, secondOutcome))
  {
    a := channel.Begin(first);
    b := channel.Begin(second);
    assert channel.pending[first.requestId] == a && channel.pending[second.requestId] == b;
    during := channel.ListPending();
    assert channel.pending[second.requestId] == b;
    channel.Finish(a, firstOutcome);
    between := channel.ListPending();
    channel.Finish(b, secondOutcome);
  }

  /** The gate over a callback channel: `wait` finds the answer and returns it without suspending. */
  method RequestApproval(channel: CallbackApprovalChannel, request: ApprovalRequest, callback: Callback)
    returns (response: ApprovalResponse)
    modifies channel
    ensures response.requestId == request.requestId && response.decision == CallbackDecision(callback)
    ensures callback.meanwhile == None ==>
              (response.decision == "approved" <==> callback.outcome == Some("approved"))
  {
    var handle := channel.Submit(request, callback);
    var found := handle.WaitEnter();
    response := found.value;
  }

  /** What happens while the gate waits on a handle of the in-memory channel: somebody resolves it, or nobody does. */
  datatype Meanwhile = Nobody | Somebody(decision: string, reason: Option<string>)

  /**
   * The gate over the in-memory channel; `None` is a wait that goes on. It answers at once with
   * auto-approval, with the first proper decision when somebody gives one in time, and with a
   * denial when the time is over; only a request without a timeout that nobody decides waits on.
   */
  method RequestInMemory(channel: InMemoryApprovalChannel, request: ApprovalRequest, meanwhile: Meanwhile)
    returns (response: Option<ApprovalResponse>)
    modifies channel
    ensures response.Some? ==> response.value.requestId == request.requestId
    ensures var decided := meanwhile.Somebody? && meanwhile.decision in DECISIONS;
            && (response.Some? <==> channel.autoApprove || decided ||
                                    EffectiveTimeout(request, channel.defaultTimeout).Some?)
            && (response.Some? ==> response.value.decision ==
                                   if channel.autoApprove then "approved"
                                   else if decided then meanwhile.decision else "denied")
    ensures request.requestId in channel.handles && channel.handles[request.requestId].response == response
  {
    var handle := channel.Submit(request);
    response := handle.WaitEnter();
    if response.Some? {
      return;
    }
    if meanwhile.Somebody? {
      var _ := handle.Resolve(meanwhile.decision, meanwhile.reason);
    }
    if handle.eventSet && handle.timeoutSeconds.None? {
      var answer := handle.WaitAfterEvent();
      return Some(answer);
    }
    if handle.timeoutSeconds.Some? {
      var answer := handle.WaitAfterScope();
      return Some(answer);
    }
  }
}
