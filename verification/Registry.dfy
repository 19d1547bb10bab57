/** The registry as an object whose files are updated in place, each operation with its loops. */
module Registry {
  import opened Wrappers
  import opened Workspace
  import opened WorkspaceIntegrity

  /** What an operation has done: it left the new workspace, or raised over an unchanged one. */
  predicate Did(before: Workspace, outcome: Result<Workspace, WorkspaceError>, after: Workspace,
                r: Result<(), WorkspaceError>)
  {
    match outcome
    case Ok(next) => r == Ok(()) && after == next
    case Err(e) => r == Err(e) && after == before
  }

  lemma KeepsSound(sch: Schemas, w: Workspace, op: Operation)
    ensures Sound(w) ==> Sound(Perform(sch, w, op))
  {
    if Sound(w) {
      SoundKept(sch, w, op);
    }
  }

  lemma PerformOneMore(sch: Schemas, w: Workspace, ops: seq<Operation>)
    ensures PerformAll(sch, w, ops) ==
            if ops == [] then w else Perform(sch, PerformAll(sch, w, ops[..|ops| - 1]), ops[|ops| - 1])
  {
  }

  class WorkspaceRegistry {
    const schemas: Schemas
    const defaults: map<string, string>
    var engines: map<string, Engine>
    var agents: map<string, Agent>
    var flows: map<string, Flow>

    /** Nothing dangles, no chain is circular, keys are references, the guarded default exists. */
    ghost predicate Valid()
      reads this
    {
      Sound(View())
    }

    constructor (schemas: Schemas, w: Workspace)
      ensures this.schemas == schemas && View() == w
    {
      this.schemas, defaults, engines, agents, flows := schemas, w.defaults, w.engines, w.agents, w.flows;
    }

    function View(): Workspace
      reads this
    {
      Workspace(engines, agents, flows, defaults)
    }

    /* ---------- Engines ---------- */

    method MakeEngine(name: string, a: EngineArgs) returns (r: Result<(), WorkspaceError>)
      modifies this`engines
      ensures Did(old(View()), CreateEngine(schemas, old(View()), name, a), View(), r)
      ensures old(Valid()) ==> Valid()
    {
      KeepsSound(schemas, View(), Operation.MakeEngine(name, a));
      hide Sound;
      if !ValidName(name) {
        return Err(InvalidName(name));
      }
      if name in engines {
        return Err(AlreadyExists(name));
      }
      var engine := NewEngine(a);
      if !schemas.engineOk(engine) {
        return Err(SchemaRejected);
      }
      engines := engines[name := engine];
      return Ok(());
    }

    method ChangeEngine(name: string, u: EngineUpdate, dryRun: bool) returns (r: Result<(), WorkspaceError>)
      modifies this`engines
      ensures Did(old(View()), UpdateEngine(schemas, old(View()), name, u, dryRun), View(), r)
      ensures old(Valid()) ==> Valid()
    {
      KeepsSound(schemas, View(), Operation.ChangeEngine(name, u, dryRun));
      hide Sound;
      if !ValidName(name) {
        return Err(InvalidName(name));
      }
      if name !in engines {
        return Err(NotFound(name));
      }
      if u.apiKey.Some? && !EnvReference(u.apiKey.value) {
        return Err(PlainApiKey);
      }
      var after := engines[name];
      if u.provider.Some? {
        after := after.(provider := u.provider.value);
      }
      if u.model.Some? {
        after := after.(model := u.model.value);
      }
      if u.kind.Some? {
        after := after.(kind := u.kind.value);
      }
      if u.temperature.Some? {
        after := after.(temperature := u.temperature.value);
      }
      if u.endpoint.Some? {
        after := after.(endpoint := u.endpoint);
      }
      if u.apiKey.Some? {
        after := after.(apiKey := u.apiKey);
      }
      if u.apiKeyEnv.Some? {
        after := after.(apiKeyEnv := u.apiKeyEnv);
      }
      assert after == UpdatedEngine(engines[name], u);
      if !schemas.engineOk(after) {
        return Err(SchemaRejected);
      }
      if !dryRun {
        engines := engines[name := after];
      }
      return Ok(());
    }

    method RemoveEngine(name: string) returns (r: Result<(), WorkspaceError>)
      modifies this`engines
      ensures Did(old(View()), DeleteEngine(old(View()), name), View(), r)
      ensures old(Valid()) ==> Valid()
    {
      KeepsSound(schemas, View(), Operation.RemoveEngine(name));
      hide Sound;
      if !ValidName(name) {
        return Err(InvalidName(name));
      }
      if name !in engines {
        return Err(NotFound(name));
      }
      var referencing: set<string> := {};
      var left := agents.Keys;
      while left != {}
        invariant left <= agents.Keys
        invariant referencing == set a | a in agents && a !in left && agents[a].engineProfile == name
        decreases left
      {
        var a :| a in left;
        if agents[a].engineProfile == name {
          referencing := referencing + {a};
        }
        left := left - {a};
      }
      assert referencing == AgentsUsing(View(), name);
      var isDefault := "engine_profile" in defaults && defaults["engine_profile"] == name;
      if referencing != {} {
        return Err(ReferencedBy(referencing));
      }
      if isDefault {
        return Err(IsDefaultEngine);
      }
      engines := engines - {name};
      return Ok(());
    }

    /* ---------- Agents ---------- */

    method MakeAgent(name: string, a: AgentArgs) returns (r: Result<(), WorkspaceError>)
      modifies this`agents
      ensures Did(old(View()), CreateAgent(schemas, old(View()), name, a), View(), r)
      ensures old(Valid()) ==> Valid()
    {
      KeepsSound(schemas, View(), Operation.MakeAgent(name, a));
      hide Sound;
      if !ValidName(name) {
        return Err(InvalidName(name));
      }
      if name in agents {
        return Err(AlreadyExists(name));
      }
      if a.engineProfile !in engines {
        return Err(EngineMissing(a.engineProfile));
      }
      var agent := NewAgent(a);
      if !schemas.agentOk(agent) {
        return Err(SchemaRejected);
      }
      agents := agents[name := agent];
      return Ok(());
    }

    method ChangeAgent(name: string, u: AgentUpdate, dryRun: bool) returns (r: Result<(), WorkspaceError>)
      modifies this`agents
      ensures Did(old(View()), UpdateAgent(schemas, old(View()), name, u, dryRun), View(), r)
      ensures old(Valid()) ==> Valid()
    {
      KeepsSound(schemas, View(), Operation.ChangeAgent(name, u, dryRun));
      hide Sound;
      if !ValidName(name) {
        return Err(InvalidName(name));
      }
      if name !in agents {
        return Err(NotFound(name));
      }
      if u.engineProfile.Some? && u.engineProfile.value !in engines {
        return Err(EngineMissing(u.engineProfile.value));
      }
      var after := agents[name];
      if u.role.Some? {
        after := after.(role := u.role.value);
      }
      if u.goal.Some? {
        after := after.(goal := u.goal.value);
      }
      if u.engineProfile.Some? {
        after := after.(engineProfile := u.engineProfile.value);
      }
      if u.temperature.Some? {
        after := after.(temperature := u.temperature);
      }
      assert after == UpdatedAgent(agents[name], u);
      if !schemas.agentOk(after) {
        return Err(SchemaRejected);
      }
      if !dryRun {
        agents := agents[name := after];
      }
      return Ok(());
    }

    method RemoveAgent(name: string) returns (r: Result<(), WorkspaceError>)
      modifies this`agents
      ensures Did(old(View()), DeleteAgent(old(View()), name), View(), r)
      ensures old(Valid()) ==> Valid()
    {
      KeepsSound(schemas, View(), Operation.RemoveAgent(name));
      hide Sound;
      if !ValidName(name) {
        return Err(InvalidName(name));
      }
      if name !in agents {
        return Err(NotFound(name));
      }
      var referencing: set<string> := {};
      var left := flows.Keys;
      while left != {}
        invariant left <= flows.Keys
        invariant referencing == set f | f in flows && f !in left && FlowUses(flows[f], name)
        decreases left
      {
        var f :| f in left;
        if name in flows[f].participants || flows[f].leader == Some(name) {
          referencing := referencing + {f};
        }
        left := left - {f};
      }
      assert referencing == FlowsUsing(View(), name);
      if referencing != {} {
        return Err(ReferencedBy(referencing));
      }
      agents := agents - {name};
      return Ok(());
    }

    /* ---------- Flows ---------- */

    method CheckParticipants(names: seq<string>) returns (complaint: Option<WorkspaceError>)
      ensures complaint == CheckAgents(agents.Keys, names)
    {
      for i := 0 to |names|
        invariant CheckAgents(agents.Keys, names) == CheckAgents(agents.Keys, names[i..])
      {
        assert names[i..][0] == names[i] && names[i..][1..] == names[i + 1..];
        if !ValidName(names[i]) {
          return Some(InvalidName(names[i]));
        }
        if names[i] !in agents {
          return Some(AgentMissing(names[i]));
        }
      }
      return None;
    }

    method CheckChained(names: seq<string>) returns (complaint: Option<WorkspaceError>)
      ensures complaint == CheckChain(flows.Keys, names)
    {
      for i := 0 to |names|
        invariant CheckChain(flows.Keys, names) == CheckChain(flows.Keys, names[i..])
      {
        assert names[i..][0] == names[i] && names[i..][1..] == names[i + 1..];
        if names[i] !in flows {
          return Some(FlowMissing(names[i]));
        }
      }
      return None;
    }

    method MakeFlow(name: string, a: FlowArgs) returns (r: Result<(), WorkspaceError>)
      modifies this`flows
      ensures Did(old(View()), CreateFlow(old(View()), name, a), View(), r)
      ensures old(Valid()) ==> Valid()
    {
      KeepsSound(schemas, View(), Operation.MakeFlow(name, a));
      hide Sound;
      hide ValidName, CheckAgents, CheckChain, NewFlow;
      if !ValidName(name) {
        return Err(InvalidName(name));
      }
      if name in flows {
        return Err(AlreadyExists(name));
      }
      var complaint := CheckParticipants(a.participants);
      if complaint.Some? {
        return Err(complaint.value);
      }
      if a.leader.Some? && a.leader.value != "" {
        if !ValidName(a.leader.value) {
          return Err(InvalidName(a.leader.value));
        }
        if a.leader.value !in agents {
          return Err(AgentMissing(a.leader.value));
        }
      }
      complaint := CheckChained(a.chain);
      if complaint.Some? {
        return Err(complaint.value);
      }
      flows := flows[name := NewFlow(name, a)];
      return Ok(());
    }

    method ChangeFlow(name: string, u: FlowUpdate, dryRun: bool) returns (r: Result<(), WorkspaceError>)
      modifies this`flows
      ensures Did(old(View()), UpdateFlow(old(View()), name, u, dryRun), View(), r)
      ensures old(Valid()) ==> Valid()
    {
      KeepsSound(schemas, View(), Operation.ChangeFlow(name, u, dryRun));
      hide Sound;
      hide ValidName, CheckAgents, RemoveFirst;
      if !ValidName(name) {
        return Err(InvalidName(name));
      }
      if name !in flows {
        return Err(NotFound(name));
      }
      var before := flows[name];
      var current := before.participants;
      if u.addParticipant.Some? {
        if !ValidName(u.addParticipant.value) {
          return Err(InvalidName(u.addParticipant.value));
        }
        if u.addParticipant.value !in agents {
          return Err(AgentMissing(u.addParticipant.value));
        }
        if u.addParticipant.value !in current {
          current := current + [u.addParticipant.value];
        }
      }
      if u.removeParticipant.Some? {
        current := RemoveFirst(current, u.removeParticipant.value);
      }
      if u.participants.Some? {
        var complaint := CheckParticipants(u.participants.value);
        if complaint.Some? {
          return Err(complaint.value);
        }
        current := u.participants.value;
      }
      if u.leader.Some? {
        if !ValidName(u.leader.value) {
          return Err(InvalidName(u.leader.value));
        }
        if u.leader.value !in agents {
          return Err(AgentMissing(u.leader.value));
        }
      }
      var after := before.(participants := current);
      if u.mode.Some? {
        after := after.(mode := u.mode.value);
      }
      if u.leader.Some? {
        after := after.(leader := u.leader);
      }
      if u.maxRounds.Some? {
        after := after.(maxRounds := u.maxRounds);
      }
      if u.target.Some? {
        after := after.(target := u.target.value);
      }
      assert after == UpdatedFlow(before, u);
      if !dryRun {
        flows := flows[name := after];
      }
      return Ok(());
    }

    method RemoveFlow(name: string) returns (r: Result<(), WorkspaceError>)
      modifies this`flows
      ensures Did(old(View()), DeleteFlow(old(View()), name), View(), r)
      ensures old(Valid()) ==> Valid()
    {
      KeepsSound(schemas, View(), Operation.RemoveFlow(name));
      hide Sound;
      if !ValidName(name) {
        return Err(InvalidName(name));
      }
      if name !in flows {
        return Err(NotFound(name));
      }
      var referencingAgents: set<string> := {};
      var left := agents.Keys;
      while left != {}
        invariant left <= agents.Keys
        invariant referencingAgents == set a | a in agents && a !in left && agents[a].flow == Some(name)
        decreases left
      {
        var a :| a in left;
        if agents[a].flow == Some(name) {
          referencingAgents := referencingAgents + {a};
        }
        left := left - {a};
      }
      assert referencingAgents == AgentsOfFlow(View(), name);
      if referencingAgents != {} {
        return Err(ReferencedBy(referencingAgents));
      }
      var referencingFlows: set<string> := {};
      left := flows.Keys;
      while left != {}
        invariant left <= flows.Keys
        invariant referencingFlows == set f | f in flows && f !in left && f != name && name in flows[f].chain
        decreases left
      {
        var f :| f in left;
        if f != name && name in flows[f].chain {
          referencingFlows := referencingFlows + {f};
        }
        left := left - {f};
      }
      assert referencingFlows == FlowsChaining(View(), name);
      if referencingFlows != {} {
        return Err(ReferencedBy(referencingFlows));
      }
      flows := flows - {name};
      return Ok(());
    }

    /* ---------- Sessions ---------- */

    /** One request, handed to the operation it names. */
    method Handle(op: Operation) returns (r: Result<(), WorkspaceError>)
      modifies this`engines, this`agents, this`flows
      ensures Did(old(View()), Attempt(schemas, old(View()), op), View(), r)
      ensures old(Valid()) ==> Valid()
    {
      hide Sound, CreateEngine, UpdateEngine, DeleteEngine, CreateAgent, UpdateAgent, DeleteAgent, CreateFlow,
          UpdateFlow, DeleteFlow;
      match op {
        case MakeEngine(name, a) => r := MakeEngine(name, a);
        case ChangeEngine(name, u, dryRun) => r := ChangeEngine(name, u, dryRun);
        case RemoveEngine(name) => r := RemoveEngine(name);
        case MakeAgent(name, a) => r := MakeAgent(name, a);
        case ChangeAgent(name, u, dryRun) => r := ChangeAgent(name, u, dryRun);
        case RemoveAgent(name) => r := RemoveAgent(name);
        case MakeFlow(name, a) => r := MakeFlow(name, a);
        case ChangeFlow(name, u, dryRun) => r := ChangeFlow(name, u, dryRun);
        case RemoveFlow(name) => r := RemoveFlow(name);
      }
    }

    /** Any requests, one after another: the object follows the operations on values, and a sound one stays sound. */
    method Serve(ops: seq<Operation>) returns (refused: set<nat>)
      modifies this`engines, this`agents, this`flows
      ensures View() == PerformAll(schemas, old(View()), ops)
      ensures forall i :: i in refused <==>
                0 <= i < |ops| && Attempt(schemas, PerformAll(schemas, old(View()), ops[..i]), ops[i]).Err?
      ensures old(Valid()) ==> Valid()
    {
      hide Sound, Attempt, PerformAll;
      ghost var before, sound := View(), Valid();
      refused := {};
      assert PerformAll(schemas, before, []) == before by { PerformOneMore(schemas, before, []); }
      assert ops[..0] == [];
      for i := 0 to |ops|
        invariant View() == PerformAll(schemas, before, ops[..i])
        invariant forall k :: k in refused <==>
                    0 <= k < i && Attempt(schemas, PerformAll(schemas, before, ops[..k]), ops[k]).Err?
        invariant sound ==> Valid()
      {
        PerformOneMore(schemas, before, ops[..i + 1]);
        assert ops[..i + 1][..i] == ops[..i];
        var r := Handle(ops[i]);
        if r.Err? {
          refused := refused + {i};
        }
      }
      assert ops[..|ops|] == ops;
    }
  }

  /** A flow that was accepted can be removed at once, and the workspace is as it was before. */
  method TryFlow(registry: WorkspaceRegistry, name: string, a: FlowArgs) returns (accepted: bool)
    requires registry.Valid()
    modifies registry`flows
    ensures registry.View() == old(registry.View())
    ensures accepted <==> CreateFlow(old(registry.View()), name, a).Ok?
  {
    ghost var w := registry.View();
    hide CreateFlow, DeleteFlow;
    var r := registry.MakeFlow(name, a);
    accepted := r.Ok?;
    if accepted {
      DeleteUndoesCreate(w, name, a);
      var _ := registry.RemoveFlow(name);
    }
  }
}
