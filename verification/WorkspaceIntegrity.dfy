/** What every sequence of registry operations keeps. */
module WorkspaceIntegrity {
  import opened Wrappers
  import opened Workspace
  import opened TaskGraph

  /** Every name that is mentioned exists. */
  ghost predicate References(w: Workspace) {
    && (forall a :: a in w.agents ==> w.agents[a].engineProfile in w.engines)
    && (forall a :: a in w.agents && w.agents[a].flow.Some? ==> w.agents[a].flow.value in w.flows)
    && (forall f :: f in w.flows ==> FlowReferences(w.agents.Keys, w.flows.Keys, w.flows[f]))
  }

  ghost predicate FlowReferences(agents: set<string>, flows: set<string>, f: Flow) {
    && (forall p :: p in f.participants ==> p in agents)
    && (f.leader.Some? ==> f.leader.value in agents)
    && (forall c :: c in f.chain ==> c in flows)
  }

  /** Which flow chains which. */
  function Chains(w: Workspace): Graph {
    map f | f in w.flows :: w.flows[f].chain
  }

  /** No stored key is a plain-text secret. */
  ghost predicate KeysAreReferences(w: Workspace) {
    forall e :: e in w.engines && w.engines[e].apiKey.Some? ==> EnvReference(w.engines[e].apiKey.value)
  }

  /** The engine named under the guarded key exists. */
  ghost predicate GuardedDefaultExists(w: Workspace) {
    "engine_profile" in w.defaults ==> w.defaults["engine_profile"] in w.engines
  }

  ghost predicate Sound(w: Workspace) {
    References(w) && !Cyclic(Chains(w)) && KeysAreReferences(w) && GuardedDefaultExists(w)
  }

  /* ---------- The checks, without their order ---------- */

  lemma {:induction false} CheckAgentsExactly(agents: set<string>, names: seq<string>)
    ensures CheckAgents(agents, names).None? <==> forall n :: n in names ==> ValidName(n) && n in agents
  {
    if names != [] {
      CheckAgentsExactly(agents, names[1..]);
      hide ValidName;
      assert names == [names[0]] + names[1..];
    }
  }

  lemma {:induction false} CheckChainExactly(flows: set<string>, names: seq<string>)
    ensures CheckChain(flows, names).None? <==> forall n :: n in names ==> n in flows
  {
    if names != [] {
      CheckChainExactly(flows, names[1..]);
      assert names == [names[0]] + names[1..];
    }
  }

  /** A flow is created exactly when its name is new and proper and all it mentions exists. */
  lemma CreateFlowExactly(w: Workspace, name: string, a: FlowArgs)
    ensures CreateFlow(w, name, a).Ok? <==>
            && ValidName(name) && name !in w.flows
            && (forall p :: p in a.participants ==> ValidName(p) && p in w.agents)
            && (a.leader.Some? && a.leader.value != "" ==> ValidName(a.leader.value) && a.leader.value in w.agents)
            && (forall c :: c in a.chain ==> c in w.flows)
  {
    CheckAgentsExactly(w.agents.Keys, a.participants);
    CheckChainExactly(w.flows.Keys, a.chain);
    hide ValidName;
  }

  /** A flow is deleted exactly when it exists and no agent and no other flow mentions it. */
  lemma DeleteFlowExactly(w: Workspace, name: string)
    ensures DeleteFlow(w, name).Ok? <==>
            && ValidName(name) && name in w.flows
            && (forall a :: a in w.agents ==> w.agents[a].flow != Some(name))
            && (forall f :: f in w.flows && f != name ==> name !in w.flows[f].chain)
  {
    hide ValidName;
    assert forall a :: a in AgentsOfFlow(w, name) <==> a in w.agents && w.agents[a].flow == Some(name);
    assert forall f :: f in FlowsChaining(w, name) <==> f in w.flows && f != name && name in w.flows[f].chain;
  }

  /** A flow is updated exactly when it exists and every agent that the update names exists. */
  lemma UpdateFlowExactly(w: Workspace, name: string, u: FlowUpdate, dryRun: bool)
    ensures UpdateFlow(w, name, u, dryRun).Ok? <==>
            && ValidName(name) && name in w.flows
            && (u.addParticipant.Some? ==> ValidName(u.addParticipant.value) && u.addParticipant.value in w.agents)
            && (u.participants.Some? ==> forall p :: p in u.participants.value ==> ValidName(p) && p in w.agents)
            && (u.leader.Some? ==> ValidName(u.leader.value) && u.leader.value in w.agents)
  {
    if u.participants.Some? {
      CheckAgentsExactly(w.agents.Keys, u.participants.value);
    }
    hide ValidName, CheckAgents;
  }

  /** An agent is deleted exactly when it exists and no flow has it as a participant or leader. */
  lemma DeleteAgentExactly(w: Workspace, name: string)
    ensures DeleteAgent(w, name).Ok? <==>
            && ValidName(name) && name in w.agents
            && forall f :: f in w.flows ==> name !in w.flows[f].participants && w.flows[f].leader != Some(name)
  {
    hide ValidName;
    assert forall f :: f in FlowsUsing(w, name) <==> f in w.flows && FlowUses(w.flows[f], name);
  }

  /** An engine is deleted exactly when it exists, no agent uses it and it is not the guarded default. */
  lemma DeleteEngineExactly(w: Workspace, name: string)
    ensures DeleteEngine(w, name).Ok? <==>
            && ValidName(name) && name in w.engines
            && (forall a :: a in w.agents ==> w.agents[a].engineProfile != name)
            && !("engine_profile" in w.defaults && w.defaults["engine_profile"] == name)
  {
    hide ValidName;
    assert forall a :: a in AgentsUsing(w, name) <==> a in w.agents && w.agents[a].engineProfile == name;
  }

  /* ---------- What an accepted operation stores ---------- */

  /**
   * A created flow has what was given: mode, participants, chain and round limit as they are, the
   * leader and the target when they are not empty, and otherwise no leader and the default target.
   */
  lemma CreatedFlow(w: Workspace, name: string, a: FlowArgs)
    requires CreateFlow(w, name, a).Ok?
    ensures var after := CreateFlow(w, name, a).value;
            && name in after.flows && var f := after.flows[name];
               && f.mode == a.mode && f.participants == a.participants
               && f.chain == a.chain && f.maxRounds == a.maxRounds
               && f.leader == (if a.leader == Some("") then None else a.leader)
               && f.target == (if a.target.Some? && a.target.value != "" then a.target.value
                               else "pipelines." + name + ":build_pipeline")
  {
    hide ValidName, CheckAgents, CheckChain;
  }

  /** From then on no participant, no given leader and no chained flow can be deleted. */
  lemma CreatedFlowProtects(w: Workspace, name: string, a: FlowArgs)
    requires CreateFlow(w, name, a).Ok?
    ensures var after := CreateFlow(w, name, a).value;
            && (forall p :: p in a.participants ==> DeleteAgent(after, p).Err?)
            && (a.leader.Some? && a.leader.value != "" ==> DeleteAgent(after, a.leader.value).Err?)
            && (forall c :: c in a.chain ==> DeleteFlow(after, c).Err?)
  {
    CreatedFlow(w, name, a);
    CreateFlowExactly(w, name, a);
    var after := CreateFlow(w, name, a).value;
    hide CreateFlow, DeleteAgent, DeleteFlow, ValidName;
    forall p | p in a.participants || (a.leader == Some(p) && p != "")
      ensures DeleteAgent(after, p).Err?
    {
      DeleteAgentExactly(after, p);
      assert p in after.flows[name].participants || after.flows[name].leader == Some(p);
    }
    forall c | c in a.chain
      ensures DeleteFlow(after, c).Err?
    {
      DeleteFlowExactly(after, c);
      assert name in after.flows && c in after.flows[name].chain && name != c;
    }
  }

  /** A created agent has what was given, and no flow. */
  lemma CreatedAgent(sch: Schemas, w: Workspace, name: string, a: AgentArgs)
    requires CreateAgent(sch, w, name, a).Ok?
    ensures var after := CreateAgent(sch, w, name, a).value;
            name in after.agents && var g := after.agents[name];
              && g.role == a.role && g.goal == a.goal && g.engineProfile == a.engineProfile
              && g.temperature == a.temperature && g.maxTokens == a.maxTokens && g.flow == None
  {
    hide ValidName;
  }

  /** A created engine has what was given; an empty endpoint is none. */
  lemma CreatedEngine(sch: Schemas, w: Workspace, name: string, a: EngineArgs)
    requires CreateEngine(sch, w, name, a).Ok?
    ensures var after := CreateEngine(sch, w, name, a).value;
            name in after.engines && var e := after.engines[name];
              && e.kind == a.kind && e.provider == a.provider && e.model == a.model && e.temperature == a.temperature
              && e.endpoint == (if a.endpoint == Some("") then None else a.endpoint)
              && e.capabilities == a.capabilities && e.apiKeyEnv == None
  {
    hide ValidName;
  }

  /** The value after an update: the given one, or the one before. */
  ghost predicate Overrides<T>(given: Option<T>, before: T, after: T) {
    after == if given.Some? then given.value else before
  }

  /**
   * An update that is not a dry run overrides what it gives, field by field, and keeps the rest; a dry run
   * changes nothing.
   */
  lemma UpdatedAgentFields(sch: Schemas, w: Workspace, name: string, u: AgentUpdate, dryRun: bool)
    ensures UpdateAgent(sch, w, name, u, dryRun).Ok? ==>
              ValidName(name) && name in w.agents && (u.engineProfile.Some? ==> u.engineProfile.value in w.engines)
    ensures UpdateAgent(sch, w, name, u, dryRun).Ok? ==>
              var after := UpdateAgent(sch, w, name, u, dryRun).value;
              && (dryRun ==> after == w)
              && (!dryRun ==> name in after.agents && var (g, h) := (w.agents[name], after.agents[name]);
                    && Overrides(u.role, g.role, h.role) && Overrides(u.goal, g.goal, h.goal)
                    && Overrides(u.engineProfile, g.engineProfile, h.engineProfile)
                    && h.temperature == (if u.temperature.Some? then u.temperature else g.temperature)
                    && h.maxTokens == g.maxTokens && h.flow == g.flow)
  {
    hide ValidName;
  }

  lemma UpdatedEngineFields(sch: Schemas, w: Workspace, name: string, u: EngineUpdate, dryRun: bool)
    ensures UpdateEngine(sch, w, name, u, dryRun).Ok? ==>
              ValidName(name) && name in w.engines &&
              (u.apiKey.Some? ==> var k := u.apiKey.value; |k| >= 3 && k[..2] == "${" && k[|k| - 1] == '}')
    ensures UpdateEngine(sch, w, name, u, dryRun).Ok? ==>
              var after := UpdateEngine(sch, w, name, u, dryRun).value;
              && (dryRun ==> after == w)
              && (!dryRun ==> name in after.engines && var (e, f) := (w.engines[name], after.engines[name]);
                    && Overrides(u.provider, e.provider, f.provider) && Overrides(u.model, e.model, f.model)
                    && Overrides(u.kind, e.kind, f.kind) && Overrides(u.temperature, e.temperature, f.temperature)
                    && f.endpoint == (if u.endpoint.Some? then u.endpoint else e.endpoint)
                    && f.apiKey == (if u.apiKey.Some? then u.apiKey else e.apiKey)
                    && f.apiKeyEnv == (if u.apiKeyEnv.Some? then u.apiKeyEnv else e.apiKeyEnv)
                    && f.capabilities == e.capabilities)
  {
    hide ValidName;
  }

  /** `g` is the flow `f` after the update. */
  ghost predicate FlowFields(u: FlowUpdate, f: Flow, g: Flow) {
    && Overrides(u.mode, f.mode, g.mode) && Overrides(u.target, f.target, g.target)
    && g.leader == (if u.leader.Some? then u.leader else f.leader)
    && g.maxRounds == (if u.maxRounds.Some? then u.maxRounds else f.maxRounds)
    && (u.participants.Some? ==> g.participants == u.participants.value)
    && (u.participants.None? && u.addParticipant.None? && u.removeParticipant.None? ==>
          g.participants == f.participants)
    && (u.participants.None? && u.removeParticipant.None? && u.addParticipant.Some? ==>
          g.participants == if u.addParticipant.value in f.participants then f.participants
                            else f.participants + [u.addParticipant.value])
    && g.chain == f.chain
  }

  /** The same for a flow; a whole new list of participants overrides the single additions and removals. */
  lemma UpdatedFlowFields(w: Workspace, name: string, u: FlowUpdate, dryRun: bool)
    requires UpdateFlow(w, name, u, dryRun).Ok?
    ensures var after := UpdateFlow(w, name, u, dryRun).value;
            && (dryRun ==> after == w)
            && (!dryRun ==> name in w.flows && name in after.flows && FlowFields(u, w.flows[name], after.flows[name]))
  {
    hide ValidName, CheckAgents, RemoveFirst;
  }

  /** Removing a name takes out its first occurrence and keeps everything else in its order. */
  lemma {:induction false} RemoveFirstExactly(names: seq<string>, name: string, k: nat)
    requires k < |names| && names[k] == name && forall i :: 0 <= i < k ==> names[i] != name
    ensures RemoveFirst(names, name) == names[..k] + names[k + 1..]
  {
    if k > 0 {
      var rest := names[1..];
      RemoveFirstExactly(rest, name, k - 1);
      assert RemoveFirst(names, name) == [names[0]] + (rest[..k - 1] + rest[k..]);
      hide RemoveFirst;
      assert rest[k..] == names[k + 1..];
      assert [names[0]] + rest[..k - 1] == names[..k];
    }
  }

  lemma {:induction false} RemoveAbsent(names: seq<string>, name: string)
    requires name !in names
    ensures RemoveFirst(names, name) == names
  {
    if names != [] {
      RemoveAbsent(names[1..], name);
    }
  }

  /** A deletion takes the named entry away. */
  lemma DeletedIsGone(w: Workspace, name: string)
    ensures DeleteFlow(w, name).Ok? ==> name !in DeleteFlow(w, name).value.flows
    ensures DeleteAgent(w, name).Ok? ==> name !in DeleteAgent(w, name).value.agents
    ensures DeleteEngine(w, name).Ok? ==> name !in DeleteEngine(w, name).value.engines
  {
    hide ValidName;
  }

  /** What a refused deletion says: an improper name, a missing entry, or exactly those that refer to it. */
  lemma RefusedDeletion(w: Workspace, name: string)
    ensures DeleteAgent(w, name).Err? ==>
              DeleteAgent(w, name).error ==
              if !ValidName(name) then InvalidName(name) else if name !in w.agents then NotFound(name)
              else ReferencedBy(set f | f in w.flows &&
                                        (name in w.flows[f].participants || w.flows[f].leader == Some(name)))
    ensures DeleteFlow(w, name).Err? ==>
              var agents := set a | a in w.agents && w.agents[a].flow == Some(name);
              DeleteFlow(w, name).error ==
              if !ValidName(name) then InvalidName(name) else if name !in w.flows then NotFound(name)
              else if agents != {} then ReferencedBy(agents)
              else ReferencedBy(set f | f in w.flows && f != name && name in w.flows[f].chain)
    ensures DeleteEngine(w, name).Err? ==>
              var agents := set a | a in w.agents && w.agents[a].engineProfile == name;
              DeleteEngine(w, name).error ==
              if !ValidName(name) then InvalidName(name) else if name !in w.engines then NotFound(name)
              else if agents != {} then ReferencedBy(agents) else IsDefaultEngine
  {
    hide ValidName;
    assert FlowsUsing(w, name) ==
           set f | f in w.flows && (name in w.flows[f].participants || w.flows[f].leader == Some(name));
  }

  /** What a refused creation of an engine or agent says. */
  lemma RefusedCreation(sch: Schemas, w: Workspace, name: string, e: EngineArgs, a: AgentArgs)
    ensures CreateEngine(sch, w, name, e).Err? ==>
              CreateEngine(sch, w, name, e).error ==
              if !ValidName(name) then InvalidName(name)
              else if name in w.engines then AlreadyExists(name) else SchemaRejected
    ensures CreateAgent(sch, w, name, a).Err? ==>
              CreateAgent(sch, w, name, a).error ==
              if !ValidName(name) then InvalidName(name)
              else if name in w.agents then AlreadyExists(name)
              else if a.engineProfile !in w.engines then EngineMissing(a.engineProfile) else SchemaRejected
  {
    hide ValidName;
  }

  /** The participants' check names the first bad one: improper, or no agent. */
  lemma {:induction false} FirstBadAgent(agents: set<string>, names: seq<string>, k: nat)
    requires k < |names| && !(ValidName(names[k]) && names[k] in agents)
    requires forall i :: 0 <= i < k ==> ValidName(names[i]) && names[i] in agents
    ensures CheckAgents(agents, names) ==
            Some(if !ValidName(names[k]) then InvalidName(names[k]) else AgentMissing(names[k]))
  {
    hide ValidName;
    if k > 0 {
      FirstBadAgent(agents, names[1..], k - 1);
    }
  }

  /** The chain check names the first flow that does not exist. */
  lemma {:induction false} FirstMissingFlow(flows: set<string>, names: seq<string>, k: nat)
    requires k < |names| && names[k] !in flows && forall i :: 0 <= i < k ==> names[i] in flows
    ensures CheckChain(flows, names) == Some(FlowMissing(names[k]))
  {
    if k > 0 {
      FirstMissingFlow(flows, names[1..], k - 1);
    }
  }

  /** Complaints about a new flow come in this order: its name, its participants, its leader, its chain. */
  lemma RefusedFlow(w: Workspace, name: string, a: FlowArgs)
    requires CreateFlow(w, name, a).Err?
    ensures var e := CreateFlow(w, name, a).error;
            if !ValidName(name) then e == InvalidName(name)
            else if name in w.flows then e == AlreadyExists(name)
            else if CheckAgents(w.agents.Keys, a.participants).Some?
            then e == CheckAgents(w.agents.Keys, a.participants).value
            else if a.leader.Some? && a.leader.value != "" && !ValidName(a.leader.value)
            then e == InvalidName(a.leader.value)
            else if a.leader.Some? && a.leader.value != "" && a.leader.value !in w.agents
            then e == AgentMissing(a.leader.value)
            else Some(e) == CheckChain(w.flows.Keys, a.chain)
  {
    hide ValidName, CheckAgents, CheckChain;
  }

  /* ---------- What an update leaves alone ---------- */

  lemma TakeOne(first: string, others: multiset<string>, name: string)
    ensures (multiset{first} + others) - multiset{name} ==
            if first == name then others else multiset{first} + (others - multiset{name})
  {
  }

  lemma ConsCounts(first: string, rest: seq<string>)
    ensures multiset([first] + rest) == multiset{first} + multiset(rest)
  {
  }

  lemma {:induction false} RemoveFirstCounts(names: seq<string>, name: string)
    ensures multiset(RemoveFirst(names, name)) == multiset(names) - multiset{name}
  {
    if names == [] {
      assert multiset(names) == multiset{};
    } else {
      var first, rest := names[0], names[1..];
      RemoveFirstCounts(rest, name);
      assert names == [first] + rest;
      ConsCounts(first, rest);
      ConsCounts(first, RemoveFirst(rest, name));
      TakeOne(first, multiset(rest), name);
    }
  }

  lemma {:induction false} RemoveLast(names: seq<string>, name: string)
    requires name !in names
    ensures RemoveFirst(names + [name], name) == names
  {
    if names != [] {
      RemoveLast(names[1..], name);
      assert (names + [name])[1..] == names[1..] + [name];
    }
  }

  /**
   * Without a whole new list, an update adds at most the one participant it names (and never twice)
   * and takes off at most one occurrence of the other; the chain is not touched.
   */
  lemma ParticipantsAfterUpdate(f: Flow, u: FlowUpdate)
    requires u.participants.None?
    ensures var added := if u.addParticipant.Some? && u.addParticipant.value !in f.participants
                         then multiset{u.addParticipant.value} else multiset{};
            var removed := if u.removeParticipant.Some? then multiset{u.removeParticipant.value} else multiset{};
            && multiset(UpdatedFlow(f, u).participants) == multiset(f.participants) + added - removed
            && UpdatedFlow(f, u).chain == f.chain
  {
    if u.removeParticipant.Some? {
      RemoveFirstCounts(Added(f.participants, u.addParticipant), u.removeParticipant.value);
    }
  }

  /** Removing a participant undoes adding a new one: the flow is as before, order included. */
  lemma RemovingUndoesAdding(w: Workspace, name: string, agent: string)
    requires ValidName(name) && name in w.flows && ValidName(agent) && agent in w.agents
    requires agent !in w.flows[name].participants
    ensures var nothing := FlowUpdate(None, None, None, None, None, None, None);
            var added := UpdateFlow(w, name, nothing.(addParticipant := Some(agent)), false);
            && added.Ok? && agent in added.value.flows[name].participants
            && UpdateFlow(added.value, name, nothing.(removeParticipant := Some(agent)), false) == Ok(w)
  {
    hide ValidName;
    RemoveLast(w.flows[name].participants, agent);
    var f := w.flows[name];
    assert f.(participants := f.participants) == f;
    assert w.flows[name := f.(participants := f.participants + [agent])][name := f] == w.flows;
  }

  predicate OnEngines(op: Operation) {
    op.MakeEngine? || op.ChangeEngine? || op.RemoveEngine?
  }

  predicate OnAgents(op: Operation) {
    op.MakeAgent? || op.ChangeAgent? || op.RemoveAgent?
  }

  predicate OnFlows(op: Operation) {
    op.MakeFlow? || op.ChangeFlow? || op.RemoveFlow?
  }

  /**
   * Every operation leaves alone all sections but its own, entries of the same name included, and in
   * its own section every entry but the one that it names.
   */
  lemma OnlyTheNamedEntry(sch: Schemas, w: Workspace, op: Operation)
    ensures var after, name := Perform(sch, w, op), op.name;
            && (if OnEngines(op) then after.engines - {name} == w.engines - {name} else after.engines == w.engines)
            && (if OnAgents(op) then after.agents - {name} == w.agents - {name} else after.agents == w.agents)
            && (if OnFlows(op) then after.flows - {name} == w.flows - {name} else after.flows == w.flows)
            && after.defaults == w.defaults
  {
    hide ValidName, CheckAgents, CheckChain, UpdatedFlow, NewFlow, UpdatedEngine, NewEngine;
  }

  /**
   * An engine is created exactly when its name is new and proper and the schema takes it; a key is stored
   * as a reference only.
   */
  lemma CreateEngineExactly(sch: Schemas, w: Workspace, name: string, a: EngineArgs)
    ensures CreateEngine(sch, w, name, a).Ok? <==> ValidName(name) && name !in w.engines && sch.engineOk(NewEngine(a))
    ensures CreateEngine(sch, w, name, a).Ok? ==>
              var e := CreateEngine(sch, w, name, a).value.engines[name];
              && (e.apiKey.Some? <==> a.apiKeyEnv.Some? && a.apiKeyEnv.value != "")
              && (e.apiKey.Some? ==>
                    EnvReference(e.apiKey.value) && e.apiKey.value[2..|e.apiKey.value| - 1] == a.apiKeyEnv.value)
  {
    hide ValidName;
  }

  /**
   * A variable named in an update is not made a reference, as it is in a creation: it is kept beside
   * the API key, which changes exactly when the update also gives another one.
   */
  lemma UpdatedVariableIsNoKey(sch: Schemas, w: Workspace, name: string, u: EngineUpdate, env: string)
    requires u.apiKeyEnv == Some(env) && UpdateEngine(sch, w, name, u, false).Ok?
    ensures var before, after := w.engines[name], UpdateEngine(sch, w, name, u, false).value.engines[name];
            && after.apiKeyEnv == Some(env)
            && (after.apiKey != before.apiKey <==> u.apiKey.Some? && u.apiKey != before.apiKey)
  {
    hide ValidName;
  }

  /** An agent is created exactly when its name is new and proper, its engine exists and the schema takes it. */
  lemma CreateAgentExactly(sch: Schemas, w: Workspace, name: string, a: AgentArgs)
    ensures CreateAgent(sch, w, name, a).Ok? <==>
            ValidName(name) && name !in w.agents && a.engineProfile in w.engines && sch.agentOk(NewAgent(a))
    ensures CreateAgent(sch, w, name, a).Ok? ==> DeleteEngine(CreateAgent(sch, w, name, a).value, a.engineProfile).Err?
  {
    hide ValidName;
    if CreateAgent(sch, w, name, a).Ok? {
      assert name in AgentsUsing(CreateAgent(sch, w, name, a).value, a.engineProfile);
    }
  }

  /* ---------- References ---------- */

  lemma {:induction false} RemoveFirstSubset(names: seq<string>, name: string)
    ensures forall n :: n in RemoveFirst(names, name) ==> n in names
  {
    if names != [] {
      RemoveFirstSubset(names[1..], name);
      assert names == [names[0]] + names[1..];
    }
  }

  lemma CreateFlowReferences(w: Workspace, name: string, a: FlowArgs)
    requires References(w) && CreateFlow(w, name, a).Ok?
    ensures References(CreateFlow(w, name, a).value)
  {
    CreateFlowExactly(w, name, a);
    hide ValidName, FlowComplaint;
    var next := CreateFlow(w, name, a).value;
    assert next.flows == w.flows[name := NewFlow(name, a)];
    forall f | f in next.flows
      ensures FlowReferences(next.agents.Keys, next.flows.Keys, next.flows[f])
    {
      if f != name {
        assert FlowReferences(w.agents.Keys, w.flows.Keys, w.flows[f]);
      }
    }
  }

  lemma UpdatedFlowReferences(w: Workspace, name: string, u: FlowUpdate)
    requires References(w) && name in w.flows && UpdateComplaint(w, name, u).None?
    ensures FlowReferences(w.agents.Keys, w.flows.Keys, UpdatedFlow(w.flows[name], u))
    ensures UpdatedFlow(w.flows[name], u).chain == w.flows[name].chain
  {
    var f := w.flows[name];
    assert FlowReferences(w.agents.Keys, w.flows.Keys, f);
    if u.removeParticipant.Some? {
      RemoveFirstSubset(Added(f.participants, u.addParticipant), u.removeParticipant.value);
    }
    if u.participants.Some? {
      CheckAgentsExactly(w.agents.Keys, u.participants.value);
    }
    hide ValidName, RemoveFirst;
  }

  lemma UpdateFlowReferences(w: Workspace, name: string, u: FlowUpdate, dryRun: bool)
    requires References(w) && UpdateFlow(w, name, u, dryRun).Ok?
    ensures References(UpdateFlow(w, name, u, dryRun).value)
  {
    var next := UpdateFlow(w, name, u, dryRun).value;
    if next != w {
      UpdatedFlowReferences(w, name, u);
      hide ValidName, UpdateComplaint, UpdatedFlow;
      assert next.flows.Keys == w.flows.Keys;
      forall f | f in next.flows
        ensures FlowReferences(next.agents.Keys, next.flows.Keys, next.flows[f])
      {
        assert FlowReferences(w.agents.Keys, w.flows.Keys, w.flows[f]);
      }
    }
  }

  lemma DeleteFlowReferences(w: Workspace, name: string)
    requires References(w) && DeleteFlow(w, name).Ok?
    ensures References(DeleteFlow(w, name).value)
  {
    DeleteFlowExactly(w, name);
    hide ValidName;
    var next := DeleteFlow(w, name).value;
    forall f | f in next.flows
      ensures FlowReferences(next.agents.Keys, next.flows.Keys, next.flows[f])
    {
      assert FlowReferences(w.agents.Keys, w.flows.Keys, w.flows[f]);
    }
  }

  lemma DeleteAgentReferences(w: Workspace, name: string)
    requires References(w) && DeleteAgent(w, name).Ok?
    ensures References(DeleteAgent(w, name).value)
  {
    hide ValidName;
    var next := DeleteAgent(w, name).value;
    forall f | f in next.flows
      ensures FlowReferences(next.agents.Keys, next.flows.Keys, next.flows[f])
    {
      assert FlowReferences(w.agents.Keys, w.flows.Keys, w.flows[f]);
      assert f !in FlowsUsing(w, name);
    }
  }

  lemma DeleteEngineReferences(w: Workspace, name: string)
    requires References(w) && DeleteEngine(w, name).Ok?
    ensures References(DeleteEngine(w, name).value)
  {
    hide ValidName;
    forall a | a in w.agents
      ensures w.agents[a].engineProfile in w.engines - {name}
    {
      assert a !in AgentsUsing(w, name);
    }
  }

  lemma OtherReferences(sch: Schemas, w: Workspace, op: Operation)
    requires References(w) && Attempt(sch, w, op).Ok?
    requires op.MakeEngine? || op.ChangeEngine? || op.MakeAgent? || op.ChangeAgent?
    ensures References(Attempt(sch, w, op).value)
  {
    hide ValidName, EnvReference;
    var next := Attempt(sch, w, op).value;
    assert next.flows == w.flows && w.agents.Keys <= next.agents.Keys;
    forall f | f in next.flows
      ensures FlowReferences(next.agents.Keys, next.flows.Keys, next.flows[f])
    {
      assert FlowReferences(w.agents.Keys, w.flows.Keys, w.flows[f]);
    }
  }

  lemma ReferencesKept(sch: Schemas, w: Workspace, op: Operation)
    requires References(w)
    ensures References(Perform(sch, w, op))
  {
    if Attempt(sch, w, op).Ok? {
      match op {
        case MakeFlow(name, a) => CreateFlowReferences(w, name, a);
        case ChangeFlow(name, u, dry) => UpdateFlowReferences(w, name, u, dry);
        case RemoveFlow(name) => DeleteFlowReferences(w, name);
        case RemoveAgent(name) => DeleteAgentReferences(w, name);
        case RemoveEngine(name) => DeleteEngineReferences(w, name);
        case _ => OtherReferences(sch, w, op);
      }
    }
    hide References, CreateFlow, UpdateFlow, DeleteFlow, DeleteAgent, DeleteEngine, CreateEngine, UpdateEngine,
         CreateAgent, UpdateAgent;
  }

  /* ---------- Chains ---------- */

  /** A cycle of `g` whose steps are all steps of `h` is a cycle of `h`. */
  lemma CycleCarries(g: Graph, h: Graph, c: seq<string>)
    requires IsCycle(g, c)
    requires forall i :: 0 <= i < |c| - 1 ==> DependsOn(h, c[i], c[i + 1])
    ensures IsCycle(h, c)
  {
    assert DependsOn(h, c[0], c[1]);
  }

  /** A new flow is chained by nobody, so it closes no cycle. */
  lemma CreateKeepsAcyclic(w: Workspace, name: string, a: FlowArgs)
    requires References(w) && !Cyclic(Chains(w)) && CreateFlow(w, name, a).Ok?
    ensures !Cyclic(Chains(CreateFlow(w, name, a).value))
  {
    var g, h := Chains(w), Chains(CreateFlow(w, name, a).value);
    CreateFlowExactly(w, name, a);
    hide ValidName, FlowComplaint;
    forall c | IsCycle(h, c)
      ensures IsCycle(g, c)
    {
      forall i | 0 <= i < |c| - 1
        ensures DependsOn(g, c[i], c[i + 1])
      {
        NobodyChainsNew(w, name, a, h, c, i);
      }
      CycleCarries(h, g, c);
    }
  }

  lemma NobodyChainsNew(w: Workspace, name: string, a: FlowArgs, h: Graph, c: seq<string>, i: nat)
    requires References(w) && name !in w.flows && (forall x :: x in a.chain ==> x in w.flows)
    requires h == Chains(w.(flows := w.flows[name := NewFlow(name, a)])) && IsCycle(h, c) && i < |c| - 1
    ensures DependsOn(Chains(w), c[i], c[i + 1])
  {
    assert DependsOn(h, c[i], c[i + 1]);
    var before := if i == 0 then c[|c| - 2] else c[i - 1];
    assert DependsOn(h, before, c[i]);
    assert before in w.flows ==> FlowReferences(w.agents.Keys, w.flows.Keys, w.flows[before]);
    assert c[i] in w.flows;
    assert FlowReferences(w.agents.Keys, w.flows.Keys, w.flows[c[i]]);
  }

  lemma DeleteKeepsAcyclic(w: Workspace, name: string)
    requires !Cyclic(Chains(w)) && DeleteFlow(w, name).Ok?
    ensures !Cyclic(Chains(DeleteFlow(w, name).value))
  {
    hide ValidName;
    var g, h := Chains(w), Chains(DeleteFlow(w, name).value);
    forall c | IsCycle(h, c)
      ensures IsCycle(g, c)
    {
      forall i | 0 <= i < |c| - 1
        ensures DependsOn(g, c[i], c[i + 1])
      {
        assert DependsOn(h, c[i], c[i + 1]);
      }
      CycleCarries(h, g, c);
    }
  }

  lemma UpdateKeepsChains(w: Workspace, name: string, u: FlowUpdate, dryRun: bool)
    requires References(w) && UpdateFlow(w, name, u, dryRun).Ok?
    ensures Chains(UpdateFlow(w, name, u, dryRun).value) == Chains(w)
  {
    if name in w.flows {
      UpdatedFlowReferences(w, name, u);
    }
    hide ValidName, UpdateComplaint, UpdatedFlow;
  }

  lemma OthersKeepFlows(sch: Schemas, w: Workspace, op: Operation)
    requires !op.MakeFlow? && !op.ChangeFlow? && !op.RemoveFlow?
    ensures Perform(sch, w, op).flows == w.flows
  {
    hide ValidName, EnvReference;
  }

  lemma AcyclicKept(sch: Schemas, w: Workspace, op: Operation)
    requires References(w) && !Cyclic(Chains(w))
    ensures !Cyclic(Chains(Perform(sch, w, op)))
  {
    if op.MakeFlow? || op.ChangeFlow? || op.RemoveFlow? {
      if Attempt(sch, w, op).Ok? {
        match op {
          case MakeFlow(name, a) => CreateKeepsAcyclic(w, name, a);
          case ChangeFlow(name, u, dry) => UpdateKeepsChains(w, name, u, dry);
          case RemoveFlow(name) => DeleteKeepsAcyclic(w, name);
        }
      }
    } else {
      OthersKeepFlows(sch, w, op);
      assert Chains(Perform(sch, w, op)) == Chains(w);
    }
    hide Cyclic, Chains, CreateFlow, UpdateFlow, DeleteFlow;
  }

  /* ---------- Keys and the default engine ---------- */

  lemma KeysKept(sch: Schemas, w: Workspace, op: Operation)
    requires KeysAreReferences(w) && GuardedDefaultExists(w)
    ensures KeysAreReferences(Perform(sch, w, op)) && GuardedDefaultExists(Perform(sch, w, op))
    ensures Perform(sch, w, op).defaults == w.defaults
  {
    hide ValidName;
    if op.MakeEngine? {
      match NonEmpty(op.engineArgs.apiKeyEnv) {
        case Some(env) =>
          var key := "${" + env + "}";
          assert key[..2] == "${" && key[|key| - 1] == '}';
        case None =>
      }
    }
  }

  lemma SoundKept(sch: Schemas, w: Workspace, op: Operation)
    requires Sound(w)
    ensures Sound(Perform(sch, w, op))
  {
    ReferencesKept(sch, w, op);
    AcyclicKept(sch, w, op);
    KeysKept(sch, w, op);
    hide Perform, References, Cyclic, KeysAreReferences, GuardedDefaultExists;
  }

  /**
   * The main result: whatever operations are attempted, in whatever order, every mentioned engine,
   * agent and flow exists, no flow chains itself through others, no key is stored in plain text,
   * and the engine named under `defaults.engine_profile` is there.
   */
  lemma {:induction false} SoundAlways(sch: Schemas, w: Workspace, ops: seq<Operation>)
    requires Sound(w)
    ensures Sound(PerformAll(sch, w, ops))
  {
    if ops != [] {
      SoundAlways(sch, w, ops[..|ops| - 1]);
      hide Sound, Perform;
      SoundKept(sch, PerformAll(sch, w, ops[..|ops| - 1]), ops[|ops| - 1]);
    }
  }

  /**
   * The premise is met at the start: an empty workspace is sound, if its defaults name nothing under the
   * guarded key.
   */
  lemma EmptyIsSound(defaults: map<string, string>)
    requires "engine_profile" !in defaults
    ensures Sound(Workspace(map[], map[], map[], defaults))
  {
    forall c
      ensures !IsCycle(Chains(Workspace(map[], map[], map[], defaults)), c)
    {
    }
  }

  /* ---------- Undoing ---------- */

  /** Deleting a flow right after creating it gives back the workspace as it was. */
  lemma DeleteUndoesCreate(w: Workspace, name: string, a: FlowArgs)
    requires References(w) && CreateFlow(w, name, a).Ok?
    ensures DeleteFlow(CreateFlow(w, name, a).value, name) == Ok(w)
  {
    CreateFlowExactly(w, name, a);
    var next := CreateFlow(w, name, a).value;
    DeleteFlowExactly(next, name);
    forall f | f in next.flows && f != name
      ensures name !in next.flows[f].chain
    {
      assert FlowReferences(w.agents.Keys, w.flows.Keys, w.flows[f]);
    }
    assert next.flows - {name} == w.flows;
    hide ValidName, FlowComplaint, AgentsOfFlow, FlowsChaining;
  }

  /** The same for an agent. */
  lemma DeleteUndoesCreateAgent(sch: Schemas, w: Workspace, name: string, a: AgentArgs)
    requires References(w) && CreateAgent(sch, w, name, a).Ok?
    ensures DeleteAgent(CreateAgent(sch, w, name, a).value, name) == Ok(w)
  {
    hide ValidName;
    var next := CreateAgent(sch, w, name, a).value;
    forall f | f in w.flows
      ensures !FlowUses(w.flows[f], name)
    {
      assert FlowReferences(w.agents.Keys, w.flows.Keys, w.flows[f]);
    }
    assert FlowsUsing(next, name) == {};
    assert next.agents - {name} == w.agents;
  }

  /* ---------- The default engine under its new key ---------- */

  /** The engine that is used by default: the new key first, then the old one, then a fixed name. */
  function DefaultEngine(w: Workspace): string {
    if "engine" in w.defaults then w.defaults["engine"]
    else if "engine_profile" in w.defaults then w.defaults["engine_profile"]
    else "default_api"
  }

  /** Deleting the engine that is used by default is refused exactly while the old key names it or an agent uses it. */
  lemma DefaultEngineRemoved(w: Workspace)
    requires ValidName(DefaultEngine(w)) && DefaultEngine(w) in w.engines
    ensures var name := DefaultEngine(w);
            DeleteEngine(w, name).Ok? <==>
            !("engine_profile" in w.defaults && w.defaults["engine_profile"] == name) &&
            forall a :: a in w.agents ==> w.agents[a].engineProfile != name
    ensures DeleteEngine(w, DefaultEngine(w)).Ok? ==>
              DefaultEngine(DeleteEngine(w, DefaultEngine(w)).value) !in DeleteEngine(w, DefaultEngine(w)).value.engines
  {
    hide ValidName;
    assert forall a :: a in AgentsUsing(w, DefaultEngine(w)) <==>
                         a in w.agents && w.agents[a].engineProfile == DefaultEngine(w);
  }

  /** The project templates write the new key only: there the default engine can be deleted. */
  lemma TemplateDefaultIsUnguarded(e: Engine)
    ensures var w := Workspace(map["default_api" := e], map[], map[], map["engine" := "default_api"]);
            DefaultEngine(w) == "default_api" && DeleteEngine(w, "default_api") == Ok(w.(engines := map[]))
  {
    var w := Workspace(map["default_api" := e], map[], map[], map["engine" := "default_api"]);
    assert Word("default_api");
    assert AgentsUsing(w, "default_api") == {};
    assert w.engines - {"default_api"} == map[];
  }
}
