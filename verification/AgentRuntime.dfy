/**
 * One turn of an agent: hooks, memory, tool list, driver, tool calls, saving, and the events that
 * frame it; and how the stored memory grows over the turns of a run.
 */
module AgentRuntime {
  import opened Wrappers
  import opened AgentMemory

  datatype AgentEvent =
    | MemoryLoaded
    | AgentInitialized
    | TurnStarted
    | ToolInvoked(tool: string, success: bool)
    | TurnCompleted(text: string)
    | TurnCompletedInError
    | AgentClosed

  /** What a turn raises. */
  datatype TurnError = AgentClosedError | Failure(what: string)

  /** What the driver's event stream amounts to: its joined text and the tools it asks for, in order. */
  datatype Reply = Reply(text: string, requests: seq<string>)

  datatype ToolDefinition = ToolDefinition(name: string, description: string)

  /** The listed tools, and what running one of them does; `Err` is a raised exception. */
  datatype ToolRegistry = ToolRegistry(listing: seq<ToolDefinition>, run: string -> Result<bool, string>) {
    predicate HasTool(name: string) {
      exists i :: 0 <= i < |listing| && listing[i].name == name
    }
  }

  /** Everything a turn calls out to. */
  datatype Surroundings = Surroundings(
    beforeTurn: seq<seq<Message> -> Result<seq<Message>, string>>,
    registry: Option<ToolRegistry>,
    driver: seq<Message> -> Result<Reply, string>,
    afterEvent: seq<AgentEvent -> Result<AgentEvent, string>>)

  /** The hooks in waterfall order; the first one that raises ends it. */
  function Waterfall<T>(hooks: seq<T -> Result<T, string>>, x: T): Result<T, string> {
    if hooks == [] then Ok(x)
    else match hooks[0](x)
         case Ok(y) => Waterfall(hooks[1..], y)
         case Err(e) => Err(e)
  }

  lemma {:induction false} WaterfallPrefix<T>(hooks: seq<T -> Result<T, string>>, x: T, i: nat)
    requires i < |hooks|
    ensures Waterfall(hooks[..i], x).Ok? ==>
              Waterfall(hooks[..i + 1], x) == hooks[i](Waterfall(hooks[..i], x).value)
    ensures Waterfall(hooks[..i], x).Err? ==> Waterfall(hooks, x) == Waterfall(hooks[..i], x)
    ensures Waterfall(hooks[..i + 1], x).Err? ==> Waterfall(hooks, x) == Waterfall(hooks[..i + 1], x)
    decreases i
  {
    var first := hooks[0](x);
    if i > 0 {
      assert hooks[..i][0] == hooks[0] && hooks[..i][1..] == hooks[1..][..i - 1];
      assert hooks[..i + 1][0] == hooks[0] && hooks[..i + 1][1..] == hooks[1..][..i];
      if first.Ok? {
        WaterfallPrefix(hooks[1..], first.value, i - 1);
      }
    } else {
      assert hooks[..1] == [hooks[0]] && [hooks[0]][1..] == [];
    }
  }

  /** What the hooks make of `x`, one after another: each gets what the one before it has handed on. */
  ghost predicate Trace<T>(hooks: seq<T -> Result<T, string>>, x: T, xs: seq<T>) {
    && 0 < |xs| <= |hooks| + 1 && xs[0] == x
    && forall i :: 0 <= i < |xs| - 1 ==> hooks[i](xs[i]) == Ok(xs[i + 1])
  }

  /** The hooks end with the last of a full trace, or with the exception of the hook at which a trace stops. */
  lemma {:induction false} WaterfallExactly<T>(hooks: seq<T -> Result<T, string>>, x: T) returns (xs: seq<T>)
    ensures Trace(hooks, x, xs)
    ensures Waterfall(hooks, x).Ok? ==> |xs| == |hooks| + 1 && Waterfall(hooks, x).value == xs[|hooks|]
    ensures Waterfall(hooks, x).Err? ==>
              |xs| <= |hooks| && hooks[|xs| - 1](xs[|xs| - 1]) == Err(Waterfall(hooks, x).error)
  {
    if hooks == [] || hooks[0](x).Err? {
      xs := [x];
    } else {
      var rest := WaterfallExactly(hooks[1..], hooks[0](x).value);
      xs := [x] + rest;
      assert forall i :: 0 < i < |hooks| ==> hooks[1..][i - 1] == hooks[i];
      forall i | 0 <= i < |xs| - 1
        ensures hooks[i](xs[i]) == Ok(xs[i + 1])
      {
        if i > 0 {
          assert hooks[1..][i - 1](rest[i - 1]) == Ok(rest[i]);
        }
      }
    }
  }

  /** The message that lists the tools, if there are any. */
  function ToolMessages(registry: Option<ToolRegistry>): (ms: seq<Message>)
    ensures |ms| == if registry.Some? && registry.value.listing != [] then 1 else 0
  {
    if registry.Some? && registry.value.listing != []
    then [Message("system", "Available tools:\n" + Join(registry.value.listing))]
    else []
  }

  function Join(tools: seq<ToolDefinition>): string {
    if tools == [] then ""
    else
      var line := "- " + tools[0].name + ": " + tools[0].description;
      if |tools| == 1 then line else line + "\n" + Join(tools[1..])
  }

  function Line(tool: ToolDefinition): string {
    "- " + tool.name + ": " + tool.description
  }

  lemma JoinHead(tools: seq<ToolDefinition>)
    requires tools != []
    ensures Join(tools) == if |tools| == 1 then Line(tools[0]) else (Line(tools[0]) + "\n") + Join(tools[1..])
  {
  }

  lemma Regroup(p: string, q: string, r: string)
    ensures p + (q + r) == (p + q) + r
  {
  }

  /** The listing is the tools' lines with a line break between any two parts of it. */
  lemma {:induction false} JoinExactly(a: seq<ToolDefinition>, b: seq<ToolDefinition>)
    requires a != [] && b != []
    ensures Join(a + b) == (Join(a) + "\n") + Join(b)
    decreases |a|
  {
    assert (a + b)[0] == a[0] && (a + b)[1..] == a[1..] + b;
    JoinHead(a);
    JoinHead(a + b);
    hide Join, Line;
    if |a| > 1 {
      JoinExactly(a[1..], b);
      var head := Line(a[0]) + "\n";
      Regroup(head, Join(a[1..]) + "\n", Join(b));
      Regroup(head, Join(a[1..]), "\n");
    } else {
      assert a[1..] + b == b;
    }
  }

  /** One tool's line. */
  lemma JoinOne(tool: ToolDefinition)
    ensures Join([tool]) == "- " + tool.name + ": " + tool.description
  {
  }

  /** Tools are listed in one message exactly when there are any, under a fixed heading. */
  lemma ToolMessagesExactly(registry: Option<ToolRegistry>)
    ensures ToolMessages(registry) == [] <==> registry.None? || registry.value.listing == []
    ensures ToolMessages(registry) != [] ==>
              ToolMessages(registry) == [Message("system", "Available tools:\n" + Join(registry.value.listing))]
  {
  }

  /** The events of the tool calls, and the exception that ended them early, if any. */
  function ToolEvents(registry: Option<ToolRegistry>, requests: seq<string>): (seq<AgentEvent>, Option<string>) {
    if registry.None? || requests == [] then ([], None)
    else
      var front := ToolEvents(registry, requests[..|requests| - 1]);
      var tool := requests[|requests| - 1];
      if front.1.Some? || tool == "" || !registry.value.HasTool(tool) then front
      else match registry.value.run(tool)
           case Err(e) => (front.0, Some(e))
           case Ok(success) => (front.0 + [ToolInvoked(tool, success)], None)
  }

  /** The messages of a turn: the system prompt, if it is not empty, then the user's text. */
  function Asked(systemPrompt: Option<string>, text: string): seq<Message> {
    (if systemPrompt.Some? && systemPrompt.value != "" then [Message("system", systemPrompt.value)] else []) +
    [Message("user", text)]
  }

  /** What is stored for a run after a turn with these messages (after the hooks) and this reply. */
  function Remembered(stored: seq<Message>, tools: seq<Message>, input: seq<Message>, text: string): seq<Message> {
    stored + (tools + stored + input + [Message("assistant", text)])
  }

  /* ---------- The tool calls of a turn, request by request ---------- */

  /** The request names a listed tool. */
  ghost predicate IsCall(registry: ToolRegistry, request: string) {
    request != "" && exists i :: 0 <= i < |registry.listing| && registry.listing[i].name == request
  }

  /** The `k`-th request is the first one whose tool raises, and it raises `e`. */
  ghost predicate FirstRaise(registry: ToolRegistry, requests: seq<string>, k: nat, e: string) {
    && k < |requests| && IsCall(registry, requests[k]) && registry.run(requests[k]) == Err(e)
    && forall i :: 0 <= i < k && IsCall(registry, requests[i]) ==> registry.run(requests[i]).Ok?
  }

  ghost predicate FirstRaises(registry: ToolRegistry, requests: seq<string>, e: string) {
    exists k: nat :: FirstRaise(registry, requests, k, e)
  }

  ghost predicate NoRaise(registry: ToolRegistry, requests: seq<string>, bound: nat) {
    forall i :: 0 <= i < bound && i < |requests| && IsCall(registry, requests[i]) ==> registry.run(requests[i]).Ok?
  }

  /** Where the calls are among the first `bound` requests. */
  ghost function CallsAt(registry: ToolRegistry, requests: seq<string>, bound: nat): seq<nat>
    requires bound <= |requests|
  {
    if bound == 0 then []
    else CallsAt(registry, requests, bound - 1) + (if IsCall(registry, requests[bound - 1]) then [bound - 1] else [])
  }

  /** These are all of them, from the left. */
  lemma {:induction false} CallsAtExactly(registry: ToolRegistry, requests: seq<string>, bound: nat)
    requires bound <= |requests|
    ensures var at := CallsAt(registry, requests, bound);
            && (forall i, j :: 0 <= i < j < |at| ==> at[i] < at[j])
            && (forall i :: i in at <==> 0 <= i < bound && IsCall(registry, requests[i]))
  {
    hide IsCall;
    if bound > 0 {
      CallsAtExactly(registry, requests, bound - 1);
      var before := CallsAt(registry, requests, bound - 1);
      assert forall j :: 0 <= j < |before| ==> before[j] in before;
    }
  }

  /** The events are those of the calls among the first `bound` requests, in order, each with its tool's flag. */
  ghost predicate Invoked(registry: ToolRegistry, requests: seq<string>, bound: nat, events: seq<AgentEvent>) {
    && bound <= |requests|
    && var at := CallsAt(registry, requests, bound);
       |at| == |events| &&
       forall j :: 0 <= j < |at| ==>
         at[j] < |requests| && events[j].ToolInvoked? && events[j].tool == requests[at[j]] &&
         registry.run(requests[at[j]]) == Ok(events[j].success)
  }

  /** Up to the first exception every call has its event; the exception ends the calls. */
  lemma {:induction false} ToolsUpTo(registry: ToolRegistry, requests: seq<string>, n: nat)
    requires n <= |requests|
    ensures var (events, failed) := ToolEvents(Some(registry), requests[..n]);
            && (NoRaise(registry, requests, n) ==> failed == None && Invoked(registry, requests, n, events))
            && (forall k: nat, e :: k < n && FirstRaise(registry, requests, k, e) ==>
                  failed == Some(e) && Invoked(registry, requests, k, events))
  {
    if n > 0 {
      ToolsUpTo(registry, requests, n - 1);
      var tool := requests[n - 1];
      assert requests[..n][..n - 1] == requests[..n - 1] && requests[..n][n - 1] == tool;
      assert (registry.HasTool(tool) && tool != "") <==> IsCall(registry, tool);
      hide IsCall, ToolRegistry.HasTool;
      forall k: nat, e | k == n - 1 && FirstRaise(registry, requests, k, e)
        ensures NoRaise(registry, requests, k)
      {
      }
    }
  }

  /** The calls of a turn: all of them when none raises, and those before the first that does, with its exception. */
  lemma ToolsExactly(registry: ToolRegistry, requests: seq<string>)
    ensures var (events, failed) := ToolEvents(Some(registry), requests);
            && (NoRaise(registry, requests, |requests|) ==>
                  failed == None && Invoked(registry, requests, |requests|, events))
            && (forall k: nat, e :: FirstRaise(registry, requests, k, e) ==>
                  failed == Some(e) && Invoked(registry, requests, k, events))
            && (failed.None? <==> NoRaise(registry, requests, |requests|))
            && (failed.Some? ==> exists k: nat :: FirstRaise(registry, requests, k, failed.value))
    ensures ToolEvents(None, requests) == ([], None)
  {
    ToolsUpTo(registry, requests, |requests|);
    assert requests[..|requests|] == requests;
    hide ToolEvents, Invoked, IsCall;
    if !NoRaise(registry, requests, |requests|) {
      var k := FirstThatRaises(registry, requests);
      assert FirstRaise(registry, requests, k, registry.run(requests[k]).error);
    }
  }

  lemma FirstThatRaises(registry: ToolRegistry, requests: seq<string>) returns (k: nat)
    requires !NoRaise(registry, requests, |requests|)
    ensures k < |requests| && registry.run(requests[k]).Err?
    ensures FirstRaise(registry, requests, k, registry.run(requests[k]).error)
  {
    hide IsCall;
    k := 0;
    while !(IsCall(registry, requests[k]) && registry.run(requests[k]).Err?)
      invariant k < |requests| && NoRaise(registry, requests, k)
      decreases |requests| - k
    {
      k := k + 1;
    }
  }

  class AgentRuntime {
    const memory: InMemoryMemoryProvider?
    const runId: string
    const env: Surroundings
    const systemPrompt: Option<string>
    var sessionId: Option<string>
    var closed: bool
    /** Everything published to the event sink. */
    var events: seq<AgentEvent>

    constructor (memory: InMemoryMemoryProvider?, runId: string, env: Surroundings, systemPrompt: Option<string>)
      ensures this.memory == memory && this.runId == runId && this.env == env && this.systemPrompt == systemPrompt
      ensures sessionId == None && !closed && events == []
    {
      this.memory, this.runId, this.env, this.systemPrompt := memory, runId, env, systemPrompt;
      sessionId, closed, events := None, false, [];
    }

    function StoredMessages(): seq<Message>
      reads memory
    {
      if memory == null then [] else memory.Stored(runId)
    }

    /** `_build_messages`: the system prompt, if it is not empty, then the user's text. */
    method BuildMessages(userContent: string) returns (messages: seq<Message>)
      ensures messages == Asked(systemPrompt, userContent)
      ensures systemPrompt == None || systemPrompt == Some("") ==> messages == [Message("user", userContent)]
      ensures systemPrompt.Some? && systemPrompt.value != "" ==>
                messages == [Message("system", systemPrompt.value), Message("user", userContent)]
    {
      messages := [];
      if systemPrompt.Some? && systemPrompt.value != "" {
        messages := messages + [Message("system", systemPrompt.value)];
      }
      messages := messages + [Message("user", userContent)];
    }

    /** `initialize`: the driver's session, the memory hydration and their events; it does not reopen a closed agent. */
    method Initialize(driverSession: string)
      modifies this`sessionId, this`events
      ensures sessionId == Some(driverSession)
      ensures events == old(events) + (if memory != null then [MemoryLoaded] else []) + [AgentInitialized]
    {
      sessionId := Some(driverSession);
      if memory != null {
        events := events + [MemoryLoaded];
      }
      events := events + [AgentInitialized];
    }

    method Close()
      modifies this`closed, this`events
      ensures closed && events == old(events) + [AgentClosed]
    {
      closed := true;
      events := events + [AgentClosed];
    }

    method RunBeforeHooks(messages: seq<Message>) returns (r: Result<seq<Message>, string>)
      ensures r == Waterfall(env.beforeTurn, messages)
    {
      var current := messages;
      for i := 0 to |env.beforeTurn|
        invariant Waterfall(env.beforeTurn[..i], messages) == Ok(current)
      {
        WaterfallPrefix(env.beforeTurn, messages, i);
        var next := env.beforeTurn[i](current);
        match next {
          case Ok(ms) => current := ms;
          case Err(e) => return Err(e);
        }
      }
      assert env.beforeTurn[..|env.beforeTurn|] == env.beforeTurn;
      return Ok(current);
    }

    method RunAfterHooks(event: AgentEvent) returns (r: Result<AgentEvent, string>)
      ensures r == Waterfall(env.afterEvent, event)
    {
      var current := event;
      for i := 0 to |env.afterEvent|
        invariant Waterfall(env.afterEvent[..i], event) == Ok(current)
      {
        WaterfallPrefix(env.afterEvent, event, i);
        var next := env.afterEvent[i](current);
        match next {
          case Ok(e) => current := e;
          case Err(e) => return Err(e);
        }
      }
      assert env.afterEvent[..|env.afterEvent|] == env.afterEvent;
      return Ok(current);
    }

    method RunTools(requests: seq<string>) returns (failed: Option<string>)
      modifies this`events
      ensures events == old(events) + ToolEvents(env.registry, requests).0
      ensures failed == ToolEvents(env.registry, requests).1
      ensures env.registry.Some? ==>
                && (failed.None? <==> NoRaise(env.registry.value, requests, |requests|))
                && (failed.Some? ==> FirstRaises(env.registry.value, requests, failed.value))
    {
      failed := None;
      if env.registry.Some? {
        ToolsExactly(env.registry.value, requests);
        assert ToolEvents(env.registry, requests).1.Some? ==>
            FirstRaises(env.registry.value, requests, ToolEvents(env.registry, requests).1.value);
        hide FirstRaise, FirstRaises, NoRaise, Invoked;
        for i := 0 to |requests|
          invariant events == old(events) + ToolEvents(env.registry, requests[..i]).0
          invariant ToolEvents(env.registry, requests[..i]).1 == None
        {
          assert requests[..i + 1][..i] == requests[..i];
          if requests[i] != "" && env.registry.value.HasTool(requests[i]) {
            var outcome := env.registry.value.run(requests[i]);
            match outcome {
              case Ok(success) => events := events + [ToolInvoked(requests[i], success)];
              case Err(e) =>
                ToolsStop(env.registry, requests, i + 1);
                return Some(e);
            }
          }
        }
        assert requests[..|requests|] == requests;
      }
    }

    /** The messages for the driver: through the hooks, behind the memory, behind the tool list. */
    method Assemble(messages: seq<Message>) returns (r: Result<seq<Message>, string>)
      ensures r == Assembled(env, StoredMessages(), messages)
    {
      hide Waterfall, ToolMessages;
      var hooked := RunBeforeHooks(messages);
      if hooked.Err? {
        return hooked;
      }
      var current := hooked.value;
      if memory != null {
        var memoryMsgs := memory.GetContext(runId, None);
        current := memoryMsgs + current;
      }
      assert current == StoredMessages() + hooked.value by {
        assert memory == null ==> StoredMessages() + hooked.value == hooked.value;
      }
      current := ToolMessages(env.registry) + current;
      assert ToolMessages(env.registry) + StoredMessages() + hooked.value ==
             ToolMessages(env.registry) + (StoredMessages() + hooked.value);
      return Ok(current);
    }

    /** `_execute_turn`. */
    method ExecuteTurn(messages: seq<Message>) returns (r: Result<Reply, TurnError>)
      modifies this`events, memory
      ensures closed || sessionId.None? ==> r == Err(AgentClosedError) && events == old(events)
      ensures !closed && sessionId.Some? ==>
                events == old(events) + TurnEvents(env, old(StoredMessages()), messages)
                && r == TurnResult(env, old(StoredMessages()), messages)
      ensures memory != null ==>
                memory.store ==
                if !closed && sessionId.Some? && TurnReply(env, old(StoredMessages()), messages).Ok?
                then old(memory.store)[runId := StoredAfter(env, old(StoredMessages()), messages)]
                else old(memory.store)
      ensures !closed && sessionId.Some? && memory != null ==>
                StoredMessages() == StoredAfter(env, old(StoredMessages()), messages)
    {
      if closed || sessionId.None? {
        return Err(AgentClosedError);
      }
      hide Waterfall, ToolEvents, ToolMessages, Join, Assembled, FirstRaises, NoRaise;
      events := events + [TurnStarted];
      var assembled := Assemble(messages);
      if assembled.Err? {
        events := events + [TurnCompletedInError];
        return Err(Failure(assembled.error));
      }
      ghost var stored := StoredMessages();
      assert assembled == Assembled(env, stored, messages);
      var reply := env.driver(assembled.value);
      if reply.Err? {
        events := events + [TurnCompletedInError];
        return Err(Failure(reply.error));
      }
      var failed := RunTools(reply.value.requests);
      if failed.Some? {
        events := events + [TurnCompletedInError];
        return Err(Failure(failed.value));
      }
      assert TurnReply(env, stored, messages) == reply;
      hide TurnReply;
      r := Conclude(assembled.value, reply.value);
    }

    /** The end of `_execute_turn`: saving, the hooks after the turn, the closing event. */
    method Conclude(sent: seq<Message>, reply: Reply) returns (r: Result<Reply, TurnError>)
      modifies this`events, memory
      ensures memory != null ==>
                memory.store ==
                old(memory.store)[runId := old(StoredMessages()) + (sent + [Message("assistant", reply.text)])]
      ensures var ended := Waterfall(env.afterEvent, TurnCompleted(reply.text));
              && r == (if ended.Ok? then Ok(reply) else Err(Failure(ended.error)))
              && events == old(events) + [if ended.Ok? then ended.value else TurnCompletedInError]
    {
      hide Waterfall;
      if memory != null {
        memory.SaveTurn(sent + [Message("assistant", reply.text)], runId);
      }
      var completed := RunAfterHooks(TurnCompleted(reply.text));
      if completed.Err? {
        events := events + [TurnCompletedInError];
        return Err(Failure(completed.error));
      }
      events := events + [completed.value];
      return Ok(reply);
    }
  }

  /**
   * `process` and `execute`: one turn on the system prompt and the user's text. On a memory that
   * holds nothing yet, without hooks before the turn and without tools, the driver is given just these.
   */
  method Process(agent: AgentRuntime, text: string) returns (r: Result<string, TurnError>)
    modifies agent`events, agent.memory
    ensures r == Err(AgentClosedError) <==> agent.closed || agent.sessionId.None?
    ensures var stored, asked := old(agent.StoredMessages()), Asked(agent.systemPrompt, text);
            var result := TurnResult(agent.env, stored, asked);
            && (r.Ok? ==> result.Ok? && r.value == result.value.text)
            && (r.Ok? && agent.memory != null ==> agent.StoredMessages() == StoredAfter(agent.env, stored, asked))
            && (r.Ok? && stored == [] && agent.env.beforeTurn == [] && agent.env.registry.None? ==>
                  agent.env.driver(asked).Ok? && r.value == agent.env.driver(asked).value.text)
  {
    if agent.closed {
      return Err(AgentClosedError);
    }
    var messages := agent.BuildMessages(text);
    assert [] + [] + messages == messages;
    var reply := agent.ExecuteTurn(messages);
    match reply {
      case Ok(answer) => return Ok(answer.text);
      case Err(e) => return Err(e);
    }
  }

  /** Closing is final: starting a session again does not reopen the agent. */
  method ClosedForGood(agent: AgentRuntime, driverSession: string, messages: seq<Message>)
    returns (r: Result<Reply, TurnError>)
    modifies agent`sessionId, agent`closed, agent`events, agent.memory
    ensures r == Err(AgentClosedError) && agent.closed
    ensures agent.StoredMessages() == old(agent.StoredMessages())
    ensures forall i :: |old(agent.events)| <= i < |agent.events| ==>
              agent.events[i] in {MemoryLoaded, AgentInitialized, AgentClosed}
  {
    agent.Close();
    agent.Initialize(driverSession);
    r := agent.ExecuteTurn(messages);
  }

  lemma {:induction false} ToolsStop(registry: Option<ToolRegistry>, requests: seq<string>, i: nat)
    requires i <= |requests| && ToolEvents(registry, requests[..i]).1.Some?
    ensures ToolEvents(registry, requests) == ToolEvents(registry, requests[..i])
    decreases |requests| - i
  {
    if i < |requests| {
      assert requests[..i + 1][..i] == requests[..i];
      ToolsStop(registry, requests, i + 1);
    } else {
      assert requests[..i] == requests;
    }
  }

  /* ---------- A turn as a function of what it is given ---------- */

  /** The messages sent to the driver: tool list, memory, then the messages as the hooks leave them. */
  ghost function Assembled(env: Surroundings, stored: seq<Message>, messages: seq<Message>)
    : Result<seq<Message>, string>
  {
    match Waterfall(env.beforeTurn, messages)
    case Ok(ms) => Ok(ToolMessages(env.registry) + stored + ms)
    case Err(e) => Err(e)
  }

  /** The driver's reply, unless a hook, the driver or a tool raises; memory is saved exactly in this case. */
  ghost function TurnReply(env: Surroundings, stored: seq<Message>, messages: seq<Message>): Result<Reply, string> {
    match Assembled(env, stored, messages)
    case Err(e) => Err(e)
    case Ok(ms) =>
      match env.driver(ms)
      case Err(e) => Err(e)
      case Ok(reply) =>
        match ToolEvents(env.registry, reply.requests).1
        case Some(e) => Err(e)
        case None => Ok(reply)
  }

  ghost function Turned(env: Surroundings, stored: seq<Message>, messages: seq<Message>): seq<Message>
    requires TurnReply(env, stored, messages).Ok?
  {
    Assembled(env, stored, messages).value + [Message("assistant", TurnReply(env, stored, messages).value.text)]
  }

  /** What is stored for the run after the turn, whether it then succeeds or not. */
  ghost function StoredAfter(env: Surroundings, stored: seq<Message>, messages: seq<Message>): seq<Message> {
    if TurnReply(env, stored, messages).Ok? then stored + Turned(env, stored, messages) else stored
  }

  ghost function TurnResult(env: Surroundings, stored: seq<Message>, messages: seq<Message>): Result<Reply, TurnError> {
    match TurnReply(env, stored, messages)
    case Err(e) => Err(Failure(e))
    case Ok(reply) =>
      match Waterfall(env.afterEvent, TurnCompleted(reply.text))
      case Err(e) => Err(Failure(e))
      case Ok(_) => Ok(reply)
  }

  /** The closing event of a turn. */
  ghost function Closing(env: Surroundings, stored: seq<Message>, messages: seq<Message>): AgentEvent {
    match TurnReply(env, stored, messages)
    case Err(_) => TurnCompletedInError
    case Ok(reply) =>
      match Waterfall(env.afterEvent, TurnCompleted(reply.text))
      case Err(_) => TurnCompletedInError
      case Ok(event) => event
  }

  ghost function TurnEvents(env: Surroundings, stored: seq<Message>, messages: seq<Message>): seq<AgentEvent> {
    var invoked :=
      match Assembled(env, stored, messages)
      case Err(_) => []
      case Ok(ms) =>
        match env.driver(ms)
        case Err(_) => []
        case Ok(reply) => ToolEvents(env.registry, reply.requests).0;
    [TurnStarted] + invoked + [Closing(env, stored, messages)]
  }

  lemma {:induction false} OnlyToolEvents(registry: Option<ToolRegistry>, requests: seq<string>, i: nat)
    requires i < |ToolEvents(registry, requests).0|
    ensures ToolEvents(registry, requests).0[i].ToolInvoked?
  {
    if registry.Some? && requests != [] {
      var front := ToolEvents(registry, requests[..|requests| - 1]).0;
      if i < |front| {
        OnlyToolEvents(registry, requests[..|requests| - 1], i);
      }
    }
  }

  /* ---------- The whole turn, step by step ---------- */

  /** The events of a turn: a start, these calls, and this end. */
  ghost predicate Framed(events: seq<AgentEvent>, calls: seq<AgentEvent>, end: AgentEvent) {
    events == [TurnStarted] + calls + [end]
  }

  /** A hook or the driver that raises ends the turn before any tool is called; nothing is stored. */
  lemma TurnFailsEarly(env: Surroundings, stored: seq<Message>, messages: seq<Message>)
    ensures var hooked := Waterfall(env.beforeTurn, messages);
            hooked.Err? || env.driver(ToolMessages(env.registry) + stored + hooked.value).Err? ==>
              var e := if hooked.Err? then hooked.error
                       else env.driver(ToolMessages(env.registry) + stored + hooked.value).error;
              && TurnResult(env, stored, messages) == Err(Failure(e))
              && StoredAfter(env, stored, messages) == stored
              && Framed(TurnEvents(env, stored, messages), [], TurnCompletedInError)
  {
    hide Waterfall, ToolEvents, ToolMessages;
  }

  /** The driver has answered, and the first tool that raises ends the turn with its exception; nothing is stored. */
  lemma ToolEndsTurn(env: Surroundings, stored: seq<Message>, messages: seq<Message>, registry: ToolRegistry,
                     reply: Reply, k: nat, e: string)
    requires Waterfall(env.beforeTurn, messages).Ok? && env.registry == Some(registry)
    requires env.driver(ToolMessages(env.registry) + stored + Waterfall(env.beforeTurn, messages).value) == Ok(reply)
    requires FirstRaise(registry, reply.requests, k, e)
    ensures TurnResult(env, stored, messages) == Err(Failure(e))
    ensures StoredAfter(env, stored, messages) == stored
    ensures exists calls :: Framed(TurnEvents(env, stored, messages), calls, TurnCompletedInError) &&
                            Invoked(registry, reply.requests, k, calls)
  {
    ToolsExactly(registry, reply.requests);
    hide Waterfall, ToolEvents, ToolMessages, Invoked, FirstRaise;
    assert Framed(TurnEvents(env, stored, messages), ToolEvents(env.registry, reply.requests).0, TurnCompletedInError);
  }

  /**
   * The driver has answered, and no tool raises: what was sent and the answer are stored, all calls
   * are published, and it is the hooks after the turn that decide how it ends.
   */
  lemma TurnGoesThrough(env: Surroundings, stored: seq<Message>, messages: seq<Message>, reply: Reply)
    requires Waterfall(env.beforeTurn, messages).Ok?
    requires env.driver(ToolMessages(env.registry) + stored + Waterfall(env.beforeTurn, messages).value) == Ok(reply)
    requires env.registry.Some? ==> NoRaise(env.registry.value, reply.requests, |reply.requests|)
    ensures StoredAfter(env, stored, messages) ==
            stored + (ToolMessages(env.registry) + stored + Waterfall(env.beforeTurn, messages).value +
                      [Message("assistant", reply.text)])
    ensures var ended := Waterfall(env.afterEvent, TurnCompleted(reply.text));
            var result := if ended.Ok? then Ok(reply) else Err(Failure(ended.error));
            TurnResult(env, stored, messages) == result
    ensures var ended := Waterfall(env.afterEvent, TurnCompleted(reply.text));
            var es := TurnEvents(env, stored, messages);
            && |es| >= 2 && Framed(es, es[1..|es| - 1], if ended.Ok? then ended.value else TurnCompletedInError)
            && if env.registry.None? then |es| == 2
               else Invoked(env.registry.value, reply.requests, |reply.requests|, es[1..|es| - 1])
  {
    if env.registry.Some? {
      ToolsExactly(env.registry.value, reply.requests);
    }
    assert env.registry.None? ==> ToolEvents(env.registry, reply.requests) == ([], None);
    hide Waterfall, ToolEvents, ToolMessages, Invoked, NoRaise;
    var ended := Waterfall(env.afterEvent, TurnCompleted(reply.text));
    var calls := ToolEvents(env.registry, reply.requests).0;
    assert env.registry.Some? ==> env.registry == Some(env.registry.value);
    assert if env.registry.None? then calls == []
           else Invoked(env.registry.value, reply.requests, |reply.requests|, calls);
    var es := TurnEvents(env, stored, messages);
    assert es == [TurnStarted] + calls + [if ended.Ok? then ended.value else TurnCompletedInError];
    assert es[1..|es| - 1] == calls;
  }

  /** The event says that a turn has ended. */
  predicate IsCompletion(e: AgentEvent) {
    e.TurnCompleted? || e.TurnCompletedInError?
  }

  /** The hooks hand on a completion when they are given one. */
  ghost predicate KeepCompletions(hooks: seq<AgentEvent -> Result<AgentEvent, string>>) {
    forall i, e :: 0 <= i < |hooks| && IsCompletion(e) && hooks[i](e).Ok? ==> IsCompletion(hooks[i](e).value)
  }

  lemma {:induction false} CompletionsKept(hooks: seq<AgentEvent -> Result<AgentEvent, string>>, e: AgentEvent)
    requires KeepCompletions(hooks) && IsCompletion(e)
    ensures Waterfall(hooks, e).Ok? ==> IsCompletion(Waterfall(hooks, e).value)
  {
    if hooks != [] && hooks[0](e).Ok? {
      CompletionsKept(hooks[1..], hooks[0](e).value);
    }
  }

  /**
   * Every admitted turn publishes one start, then tool events alone, then one closing event. The
   * closing event is a completion exactly when the turn raises or its hooks made one of the
   * completion they were given; so always, when each hook keeps completions.
   */
  lemma TurnIsFramed(env: Surroundings, stored: seq<Message>, messages: seq<Message>)
    ensures var es, result := TurnEvents(env, stored, messages), TurnResult(env, stored, messages);
            && |es| >= 2 && es[0] == TurnStarted
            && (forall i :: 0 < i < |es| - 1 ==> es[i].ToolInvoked?)
            && (result.Err? ==> es[|es| - 1] == TurnCompletedInError)
            && (IsCompletion(es[|es| - 1]) <==>
                (result.Ok? ==> IsCompletion(Waterfall(env.afterEvent, TurnCompleted(result.value.text)).value)))
            && (KeepCompletions(env.afterEvent) ==> IsCompletion(es[|es| - 1]))
  {
    var es, result := TurnEvents(env, stored, messages), TurnResult(env, stored, messages);
    match Assembled(env, stored, messages) {
      case Err(_) =>
      case Ok(ms) =>
        if env.driver(ms).Ok? {
          var requests := env.driver(ms).value.requests;
          forall i | 0 <= i < |ToolEvents(env.registry, requests).0|
            ensures ToolEvents(env.registry, requests).0[i].ToolInvoked?
          {
            OnlyToolEvents(env.registry, requests, i);
          }
        }
    }
    if result.Ok? && KeepCompletions(env.afterEvent) {
      CompletionsKept(env.afterEvent, TurnCompleted(result.value.text));
    }
  }

  /** A hook may hand on any event: this turn succeeds and ends with a second start. */
  lemma HookReplacesCompletion(question: string, answer: string)
    ensures var driver := (ms: seq<Message>) => Ok(Reply(answer, []));
            var swaps := (e: AgentEvent) => Ok(TurnStarted);
            var env := Surroundings([], None, driver, [swaps]);
            var asked := [Message("user", question)];
            TurnResult(env, [], asked).Ok? && TurnEvents(env, [], asked) == [TurnStarted, TurnStarted]
  {
  }

  /* ---------- What a failed turn leaves behind ---------- */

  /** Hooks before the turn, driver and tools all went through. */
  ghost predicate GetsToSaving(env: Surroundings, stored: seq<Message>, messages: seq<Message>) {
    && Waterfall(env.beforeTurn, messages).Ok?
    && var ms := ToolMessages(env.registry) + stored + Waterfall(env.beforeTurn, messages).value;
       env.driver(ms).Ok? && ToolEvents(env.registry, env.driver(ms).value.requests).1.None?
  }

  /**
   * A turn that fails leaves its messages in the memory exactly when everything up to the saving
   * went through, that is, when it was a hook after the turn that raised.
   */
  lemma FailedTurnRemembered(env: Surroundings, stored: seq<Message>, messages: seq<Message>)
    requires TurnResult(env, stored, messages).Err?
    ensures StoredAfter(env, stored, messages) != stored <==> GetsToSaving(env, stored, messages)
    ensures GetsToSaving(env, stored, messages) ==>
              var text := TurnReply(env, stored, messages).value.text;
              && Waterfall(env.afterEvent, TurnCompleted(text)).Err?
              && StoredAfter(env, stored, messages) ==
                 Remembered(stored, ToolMessages(env.registry), Waterfall(env.beforeTurn, messages).value, text)
  {
    if GetsToSaving(env, stored, messages) {
      SavedTurnDoubles(env, stored, messages);
      assert |StoredAfter(env, stored, messages)| > |stored|;
    }
  }

  /** An agent whose only hook fails after the turn: the turn raises, and the exchange is remembered. */
  lemma LateHookFailureIsRemembered(question: string, answer: string)
    ensures var driver := (ms: seq<Message>) => Ok(Reply(answer, []));
            var fails := (e: AgentEvent) => Err("hook failed");
            var env := Surroundings([], None, driver, [fails]);
            var asked := [Message("user", question)];
            && TurnResult(env, [], asked) == Err(Failure("hook failed"))
            && StoredAfter(env, [], asked) == asked + [Message("assistant", answer)]
  {
  }

  /* ---------- Growth ---------- */

  /** A turn that is saved more than doubles what is stored, because it saves the memory it was prefixed with. */
  lemma SavedTurnDoubles(env: Surroundings, stored: seq<Message>, messages: seq<Message>)
    requires TurnReply(env, stored, messages).Ok?
    ensures var m := |Waterfall(env.beforeTurn, messages).value|;
            var t := |ToolMessages(env.registry)|;
            && |stored + Turned(env, stored, messages)| == 2 * |stored| + m + t + 1
            && stored + Turned(env, stored, messages) ==
               Remembered(stored, ToolMessages(env.registry), Waterfall(env.beforeTurn, messages).value,
                          TurnReply(env, stored, messages).value.text)
  {
  }

  function Pow2(n: nat): nat {
    if n == 0 then 1 else 2 * Pow2(n - 1)
  }

  /** What successive turns see and leave: each starts from what the turn before it stored. */
  ghost predicate IsConversation(env: Surroundings, inputs: seq<seq<Message>>, stores: seq<seq<Message>>) {
    && |stores| == |inputs| + 1
    && stores[0] == []
    && forall i :: 0 <= i < |inputs| ==>
         && TurnReply(env, stores[i], inputs[i]).Ok?
         && stores[i + 1] == StoredAfter(env, stores[i], inputs[i])
  }

  /** Messages that are new in the turns from `i` on, each turn's share doubled by every later one. */
  ghost function Weighted(env: Surroundings, inputs: seq<seq<Message>>): nat
    requires forall i :: 0 <= i < |inputs| ==> Waterfall(env.beforeTurn, inputs[i]).Ok?
  {
    if inputs == [] then 0
    else
      var last := |inputs| - 1;
      2 * Weighted(env, inputs[..last]) +
      |Waterfall(env.beforeTurn, inputs[last]).value| + |ToolMessages(env.registry)| + 1
  }

  lemma {:induction false} MemoryGrowth(env: Surroundings, inputs: seq<seq<Message>>, stores: seq<seq<Message>>, n: nat)
    requires IsConversation(env, inputs, stores) && n <= |inputs|
    ensures forall i :: 0 <= i < n ==> Waterfall(env.beforeTurn, inputs[i]).Ok?
    ensures |stores[n]| == Weighted(env, inputs[..n])
  {
    if n > 0 {
      MemoryGrowth(env, inputs, stores, n - 1);
      assert inputs[..n][..n - 1] == inputs[..n - 1];
      SavedTurnDoubles(env, stores[n - 1], inputs[n - 1]);
    }
  }

  lemma GrowthStep(p: nat, c: nat)
    requires p >= 1
    ensures 2 * ((p - 1) * c) + c == (2 * p - 1) * c
  {
  }

  /**
   * After `n` saved turns of one run, each with `m` messages after the hooks and `t` tool-list
   * messages, exactly (2^n - 1)(m + t + 1) messages are stored.
   */
  lemma {:induction false} MemoryDoubles(
    env: Surroundings, inputs: seq<seq<Message>>, stores: seq<seq<Message>>, m: nat, n: nat)
    requires IsConversation(env, inputs, stores) && n <= |inputs|
    requires forall i :: 0 <= i < |inputs| && Waterfall(env.beforeTurn, inputs[i]).Ok? ==>
               |Waterfall(env.beforeTurn, inputs[i]).value| == m
    ensures Pow2(n) >= 1 && |stores[n]| == (Pow2(n) - 1) * (m + |ToolMessages(env.registry)| + 1)
  {
    if n > 0 {
      MemoryDoubles(env, inputs, stores, m, n - 1);
      SavedTurnDoubles(env, stores[n - 1], inputs[n - 1]);
      GrowthStep(Pow2(n - 1), m + |ToolMessages(env.registry)| + 1);
    }
  }
}
