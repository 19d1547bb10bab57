/**
 * The workspace registry: engines, agents and flows with their create, update and delete
 * operations, as functions from one workspace to the next.
 *
 * The YAML files are maps; a schema check of the source is a parameter.
 */
module Workspace {
  import opened Wrappers

  /** `apiKeyEnv` is no field of the schema: it is a key that an update may leave in the section. */
  datatype Engine = Engine(kind: string, provider: string, model: string, temperature: real,
                           apiKey: Option<string>, endpoint: Option<string>, capabilities: seq<string>,
                           apiKeyEnv: Option<string>)

  datatype Agent = Agent(role: string, goal: string, engineProfile: string, temperature: Option<real>,
                         maxTokens: Option<int>, flow: Option<string>)

  datatype Flow = Flow(mode: string, target: string, participants: seq<string>, leader: Option<string>,
                       maxRounds: Option<int>, chain: seq<string>)

  datatype Workspace = Workspace(engines: map<string, Engine>, agents: map<string, Agent>, flows: map<string, Flow>,
                                 defaults: map<string, string>)

  datatype WorkspaceError =
    | InvalidName(name: string)
    | AlreadyExists(name: string)
    | NotFound(name: string)
    | EngineMissing(name: string)
    | AgentMissing(name: string)
    | FlowMissing(name: string)
    | ReferencedBy(names: set<string>)
    | IsDefaultEngine
    | PlainApiKey
    | SchemaRejected

  datatype Schemas = Schemas(engineOk: Engine -> bool, agentOk: Agent -> bool)

  /* ---------- Names ---------- */

  predicate Letter(c: char) {
    'a' <= c <= 'z' || 'A' <= c <= 'Z'
  }

  predicate NameChar(c: char) {
    Letter(c) || '0' <= c <= '9' || c == '_' || c == '-'
  }

  predicate Word(name: string) {
    name != "" && Letter(name[0]) && forall i :: 0 <= i < |name| ==> NameChar(name[i])
  }

  /** `validate_resource_name`: the pattern's `$` also accepts one line break at the end. */
  predicate ValidName(name: string) {
    Word(name) || (name != "" && name[|name| - 1] == '\n' && Word(name[..|name| - 1]))
  }

  /** An accepted name is letters, digits, hyphens and underscores after a letter exactly when it has no line break. */
  lemma NamesExactly(name: string)
    ensures Word(name) <==> ValidName(name) && '\n' !in name
    ensures ValidName(name) && !Word(name) ==> '\n' !in name[..|name| - 1] && name[|name| - 1] == '\n'
  {
    if ValidName(name) && !Word(name) {
      assert name[|name| - 1] in name;
    }
  }

  /** The accepted names, character by character. */
  lemma NamesSpelled(name: string)
    ensures ValidName(name) <==>
            && name != "" && ('a' <= name[0] <= 'z' || 'A' <= name[0] <= 'Z')
            && forall i :: 0 < i < |name| ==>
                 || 'a' <= name[i] <= 'z' || 'A' <= name[i] <= 'Z' || '0' <= name[i] <= '9'
                 || name[i] == '_' || name[i] == '-' || (name[i] == '\n' && i == |name| - 1)
  {
    if name != "" && name[|name| - 1] == '\n' {
      var front := name[..|name| - 1];
      assert forall i :: 0 <= i < |front| ==> front[i] == name[i];
      assert !NameChar('\n');
      assert !Word(name);
    }
  }

  lemma LineBreakAccepted()
    ensures ValidName("ab\n") && !Word("ab\n")
  {
    assert "ab\n"[..2] == "ab";
    assert "ab\n"[2] == '\n';
  }

  /* ---------- Engines ---------- */

  predicate EnvReference(key: string) {
    |key| >= 2 && key[..2] == "${" && key[|key| - 1] == '}'
  }

  datatype EngineArgs = EngineArgs(provider: string, model: string, kind: string, temperature: real,
                                   apiKeyEnv: Option<string>, endpoint: Option<string>, capabilities: seq<string>)

  function NonEmpty(s: Option<string>): Option<string> {
    if s.Some? && s.value != "" then s else None
  }

  function NewEngine(a: EngineArgs): Engine {
    Engine(a.kind, a.provider, a.model, a.temperature,
           match NonEmpty(a.apiKeyEnv) case Some(env) => Some("${" + env + "}") case None => None,
           NonEmpty(a.endpoint), a.capabilities, None)
  }

  function CreateEngine(sch: Schemas, w: Workspace, name: string, a: EngineArgs): Result<Workspace, WorkspaceError> {
    if !ValidName(name) then Err(InvalidName(name))
    else if name in w.engines then Err(AlreadyExists(name))
    else if !sch.engineOk(NewEngine(a)) then Err(SchemaRejected)
    else Ok(w.(engines := w.engines[name := NewEngine(a)]))
  }

  /** The keys that the command line and the server send, and the API key that `update_engine` itself checks. */
  datatype EngineUpdate = EngineUpdate(provider: Option<string>, model: Option<string>, kind: Option<string>,
                                       temperature: Option<real>, endpoint: Option<string>,
                                       apiKey: Option<string>, apiKeyEnv: Option<string>)

  function UpdatedEngine(e: Engine, u: EngineUpdate): Engine {
    e.(provider := u.provider.GetOr(e.provider), model := u.model.GetOr(e.model), kind := u.kind.GetOr(e.kind),
       temperature := u.temperature.GetOr(e.temperature),
       endpoint := if u.endpoint.Some? then u.endpoint else e.endpoint,
       apiKey := if u.apiKey.Some? then u.apiKey else e.apiKey,
       apiKeyEnv := if u.apiKeyEnv.Some? then u.apiKeyEnv else e.apiKeyEnv)
  }

  function UpdateEngine(sch: Schemas, w: Workspace, name: string, u: EngineUpdate, dryRun: bool)
    : Result<Workspace, WorkspaceError>
  {
    if !ValidName(name) then Err(InvalidName(name))
    else if name !in w.engines then Err(NotFound(name))
    else if u.apiKey.Some? && !EnvReference(u.apiKey.value) then Err(PlainApiKey)
    else if !sch.engineOk(UpdatedEngine(w.engines[name], u)) then Err(SchemaRejected)
    else if dryRun then Ok(w)
    else Ok(w.(engines := w.engines[name := UpdatedEngine(w.engines[name], u)]))
  }

  function AgentsUsing(w: Workspace, engine: string): set<string> {
    set a | a in w.agents && w.agents[a].engineProfile == engine
  }

  /** The default is looked for under its old key only. */
  predicate GuardedDefault(w: Workspace, name: string) {
    "engine_profile" in w.defaults && w.defaults["engine_profile"] == name
  }

  function DeleteEngine(w: Workspace, name: string): Result<Workspace, WorkspaceError> {
    if !ValidName(name) then Err(InvalidName(name))
    else if name !in w.engines then Err(NotFound(name))
    else if AgentsUsing(w, name) != {} then Err(ReferencedBy(AgentsUsing(w, name)))
    else if GuardedDefault(w, name) then Err(IsDefaultEngine)
    else Ok(w.(engines := w.engines - {name}))
  }

  /* ---------- Agents ---------- */

  datatype AgentArgs = AgentArgs(role: string, goal: string, engineProfile: string, temperature: Option<real>,
                                 maxTokens: Option<int>)

  function NewAgent(a: AgentArgs): Agent {
    Agent(a.role, a.goal, a.engineProfile, a.temperature, a.maxTokens, None)
  }

  function CreateAgent(sch: Schemas, w: Workspace, name: string, a: AgentArgs): Result<Workspace, WorkspaceError> {
    if !ValidName(name) then Err(InvalidName(name))
    else if name in w.agents then Err(AlreadyExists(name))
    else if a.engineProfile !in w.engines then Err(EngineMissing(a.engineProfile))
    else if !sch.agentOk(NewAgent(a)) then Err(SchemaRejected)
    else Ok(w.(agents := w.agents[name := NewAgent(a)]))
  }

  datatype AgentUpdate = AgentUpdate(role: Option<string>, goal: Option<string>, engineProfile: Option<string>,
                                     temperature: Option<real>)

  function UpdatedAgent(a: Agent, u: AgentUpdate): Agent {
    a.(role := u.role.GetOr(a.role), goal := u.goal.GetOr(a.goal),
       engineProfile := u.engineProfile.GetOr(a.engineProfile),
       temperature := if u.temperature.Some? then u.temperature else a.temperature)
  }

  function UpdateAgent(sch: Schemas, w: Workspace, name: string, u: AgentUpdate, dryRun: bool)
    : Result<Workspace, WorkspaceError>
  {
    if !ValidName(name) then Err(InvalidName(name))
    else if name !in w.agents then Err(NotFound(name))
    else if u.engineProfile.Some? && u.engineProfile.value !in w.engines then Err(EngineMissing(u.engineProfile.value))
    else if !sch.agentOk(UpdatedAgent(w.agents[name], u)) then Err(SchemaRejected)
    else if dryRun then Ok(w)
    else Ok(w.(agents := w.agents[name := UpdatedAgent(w.agents[name], u)]))
  }

  predicate FlowUses(f: Flow, agent: string) {
    agent in f.participants || f.leader == Some(agent)
  }

  function FlowsUsing(w: Workspace, agent: string): set<string> {
    set f | f in w.flows && FlowUses(w.flows[f], agent)
  }

  function DeleteAgent(w: Workspace, name: string): Result<Workspace, WorkspaceError> {
    if !ValidName(name) then Err(InvalidName(name))
    else if name !in w.agents then Err(NotFound(name))
    else if FlowsUsing(w, name) != {} then Err(ReferencedBy(FlowsUsing(w, name)))
    else Ok(w.(agents := w.agents - {name}))
  }

  /* ---------- Flows ---------- */

  datatype FlowArgs = FlowArgs(mode: string, participants: seq<string>, leader: Option<string>, target: Option<string>,
                               maxRounds: Option<int>, chain: seq<string>)

  function CheckAgent(agents: set<string>, name: string): Option<WorkspaceError> {
    if !ValidName(name) then Some(InvalidName(name))
    else if name !in agents then Some(AgentMissing(name))
    else None
  }

  /** The first complaint about the names, from the left. */
  function CheckAgents(agents: set<string>, names: seq<string>): Option<WorkspaceError> {
    if names == [] then None
    else if CheckAgent(agents, names[0]).Some? then CheckAgent(agents, names[0])
    else CheckAgents(agents, names[1..])
  }

  function CheckChain(flows: set<string>, names: seq<string>): Option<WorkspaceError> {
    if names == [] then None
    else if names[0] !in flows then Some(FlowMissing(names[0]))
    else CheckChain(flows, names[1..])
  }

  function NewFlow(name: string, a: FlowArgs): Flow {
    Flow(a.mode, NonEmpty(a.target).GetOr("pipelines." + name + ":build_pipeline"), a.participants, NonEmpty(a.leader),
         a.maxRounds, a.chain)
  }

  /** The first complaint about a new flow, in the order of the source's checks. */
  function FlowComplaint(w: Workspace, name: string, a: FlowArgs): Option<WorkspaceError> {
    if !ValidName(name) then Some(InvalidName(name))
    else if name in w.flows then Some(AlreadyExists(name))
    else if CheckAgents(w.agents.Keys, a.participants).Some? then CheckAgents(w.agents.Keys, a.participants)
    else if NonEmpty(a.leader).Some? && CheckAgent(w.agents.Keys, a.leader.value).Some?
    then CheckAgent(w.agents.Keys, a.leader.value)
    else CheckChain(w.flows.Keys, a.chain)
  }

  function CreateFlow(w: Workspace, name: string, a: FlowArgs): Result<Workspace, WorkspaceError> {
    match FlowComplaint(w, name, a)
    case Some(e) => Err(e)
    case None => Ok(w.(flows := w.flows[name := NewFlow(name, a)]))
  }

  /** The keys that the command line and the server send. */
  datatype FlowUpdate = FlowUpdate(mode: Option<string>, participants: Option<seq<string>>,
                                   addParticipant: Option<string>, removeParticipant: Option<string>,
                                   leader: Option<string>, maxRounds: Option<int>, target: Option<string>)

  function RemoveFirst(names: seq<string>, name: string): seq<string> {
    if names == [] then []
    else if names[0] == name then names[1..]
    else [names[0]] + RemoveFirst(names[1..], name)
  }

  function Added(names: seq<string>, extra: Option<string>): seq<string> {
    if extra.Some? && extra.value !in names then names + [extra.value] else names
  }

  function UpdatedFlow(f: Flow, u: FlowUpdate): Flow {
    var added := Added(f.participants, u.addParticipant);
    var edited := if u.removeParticipant.Some? then RemoveFirst(added, u.removeParticipant.value) else added;
    f.(mode := u.mode.GetOr(f.mode), participants := u.participants.GetOr(edited),
       leader := if u.leader.Some? then u.leader else f.leader,
       maxRounds := if u.maxRounds.Some? then u.maxRounds else f.maxRounds,
       target := u.target.GetOr(f.target))
  }

  function UpdateComplaint(w: Workspace, name: string, u: FlowUpdate): Option<WorkspaceError> {
    var agents := w.agents.Keys;
    if !ValidName(name) then Some(InvalidName(name))
    else if name !in w.flows then Some(NotFound(name))
    else if u.addParticipant.Some? && CheckAgent(agents, u.addParticipant.value).Some?
    then CheckAgent(agents, u.addParticipant.value)
    else if u.participants.Some? && CheckAgents(agents, u.participants.value).Some?
    then CheckAgents(agents, u.participants.value)
    else if u.leader.Some? then CheckAgent(agents, u.leader.value)
    else None
  }

  function UpdateFlow(w: Workspace, name: string, u: FlowUpdate, dryRun: bool): Result<Workspace, WorkspaceError> {
    match UpdateComplaint(w, name, u)
    case Some(e) => Err(e)
    case None => if dryRun then Ok(w) else Ok(w.(flows := w.flows[name := UpdatedFlow(w.flows[name], u)]))
  }

  function AgentsOfFlow(w: Workspace, flow: string): set<string> {
    set a | a in w.agents && w.agents[a].flow == Some(flow)
  }

  /** Other flows that chain this one. */
  function FlowsChaining(w: Workspace, flow: string): set<string> {
    set f | f in w.flows && f != flow && flow in w.flows[f].chain
  }

  function DeleteFlow(w: Workspace, name: string): Result<Workspace, WorkspaceError> {
    if !ValidName(name) then Err(InvalidName(name))
    else if name !in w.flows then Err(NotFound(name))
    else if AgentsOfFlow(w, name) != {} then Err(ReferencedBy(AgentsOfFlow(w, name)))
    else if FlowsChaining(w, name) != {} then Err(ReferencedBy(FlowsChaining(w, name)))
    else Ok(w.(flows := w.flows - {name}))
  }

  /* ---------- Sequences of operations ---------- */

  datatype Operation =
    | MakeEngine(name: string, engineArgs: EngineArgs)
    | ChangeEngine(name: string, engineUpdate: EngineUpdate, dryRun: bool)
    | RemoveEngine(name: string)
    | MakeAgent(name: string, agentArgs: AgentArgs)
    | ChangeAgent(name: string, agentUpdate: AgentUpdate, dryRun: bool)
    | RemoveAgent(name: string)
    | MakeFlow(name: string, flowArgs: FlowArgs)
    | ChangeFlow(name: string, flowUpdate: FlowUpdate, dryRun: bool)
    | RemoveFlow(name: string)

  function Attempt(sch: Schemas, w: Workspace, op: Operation): Result<Workspace, WorkspaceError> {
    match op
    case MakeEngine(name, a) => CreateEngine(sch, w, name, a)
    case ChangeEngine(name, u, dry) => UpdateEngine(sch, w, name, u, dry)
    case RemoveEngine(name) => DeleteEngine(w, name)
    case MakeAgent(name, a) => CreateAgent(sch, w, name, a)
    case ChangeAgent(name, u, dry) => UpdateAgent(sch, w, name, u, dry)
    case RemoveAgent(name) => DeleteAgent(w, name)
    case MakeFlow(name, a) => CreateFlow(w, name, a)
    case ChangeFlow(name, u, dry) => UpdateFlow(w, name, u, dry)
    case RemoveFlow(name) => DeleteFlow(w, name)
  }

  /** An operation that raises leaves the files as they are. */
  function Perform(sch: Schemas, w: Workspace, op: Operation): Workspace {
    match Attempt(sch, w, op)
    case Ok(next) => next
    case Err(_) => w
  }

  function PerformAll(sch: Schemas, w: Workspace, ops: seq<Operation>): Workspace {
    if ops == [] then w else Perform(sch, PerformAll(sch, w, ops[..|ops| - 1]), ops[|ops| - 1])
  }
}
