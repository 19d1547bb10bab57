/**
 * The queue loop that looks for a cycle among task specifications, proved to find exactly the
 * tasks that depend on none.
 *
 * Dictionaries and sets are visited in an arbitrary order, so the results hold for every order.
 */
module CycleCheck {
  import opened Wrappers
  import opened TaskGraph

  /* ---------- Counting multi-edges ---------- */

  /** How many entries of `deps` name a known task outside `done`. */
  function Open(deps: seq<string>, known: set<string>, done: set<string>): nat {
    if deps == [] then 0
    else Open(deps[..|deps| - 1], known, done) +
         (if deps[|deps| - 1] in known && deps[|deps| - 1] !in done then 1 else 0)
  }

  lemma {:induction false} OpenZero(deps: seq<string>, known: set<string>, done: set<string>)
    ensures Open(deps, known, done) == 0 <==> forall d :: d in deps && d in known ==> d in done
  {
    if deps != [] {
      var front, last := deps[..|deps| - 1], deps[|deps| - 1];
      OpenZero(front, known, done);
      assert deps == front + [last];
    }
  }

  lemma {:induction false} OpenWithout(deps: seq<string>, known: set<string>, done: set<string>, n: string)
    requires n in known && n !in done
    ensures Open(deps, known, done) == Open(deps, known, done + {n}) + multiset(deps)[n]
  {
    if deps != [] {
      var front, last := deps[..|deps| - 1], deps[|deps| - 1];
      OpenWithout(front, known, done, n);
      assert deps == front + [last];
    }
  }

  lemma OpenTake(deps: seq<string>, j: nat, known: set<string>, done: set<string>)
    requires j < |deps|
    ensures Open(deps[..j + 1], known, done) ==
            Open(deps[..j], known, done) + (if deps[j] in known && deps[j] !in done then 1 else 0)
    ensures multiset(deps[..j + 1]) == multiset(deps[..j]) + multiset{deps[j]}
  {
    assert deps[..j + 1][..j] == deps[..j];
    assert deps[..j + 1] == deps[..j] + [deps[j]];
  }

  /* ---------- The tables before the queue ---------- */

  /** `adj[d]` lists `s` as often as the specification of `s` lists `d`. */
  ghost predicate Reversed(g: Graph, adj: map<string, seq<string>>) {
    && adj.Keys == g.Keys
    && (forall d, s :: d in g && s in g ==> multiset(adj[d])[s] == multiset(g[s])[d])
    && (forall d, s :: d in g && s in adj[d] ==> s in g)
  }

  /** `in_degree[s]` counts the multi-edges from known tasks that are not done. */
  ghost predicate Degrees(g: Graph, inDegree: map<string, int>, done: set<string>) {
    inDegree.Keys == g.Keys && forall s :: s in g ==> inDegree[s] == Open(g[s], g.Keys, done)
  }

  method BuildIdMap(specs: seq<TaskEntrySpec>) returns (idMap: Graph)
    ensures idMap == GraphOf(specs)
    ensures forall name :: name in idMap <==> exists k :: 0 <= k < |specs| && NameOf(specs[k], k) == name
    ensures forall k :: IsLast(specs, k) ==>
              NameOf(specs[k], k) in idMap && idMap[NameOf(specs[k], k)] == specs[k].dependsOn
  {
    idMap := map[];
    for i := 0 to |specs|
      invariant idMap == GraphOf(specs[..i])
    {
      idMap := idMap[NameOf(specs[i], i) := specs[i].dependsOn];
      assert specs[..i + 1][..i] == specs[..i];
    }
    assert specs[..|specs|] == specs;
    forall name
      ensures name in idMap <==> exists k :: 0 <= k < |specs| && NameOf(specs[k], k) == name
      ensures forall k :: IsLast(specs, k) && NameOf(specs[k], k) == name ==>
                name in idMap && idMap[name] == specs[k].dependsOn
    {
      GraphExactly(specs, name);
    }
  }

  /** The edges into `sid` are those `listed`, all others are as in `adj0`. */
  ghost predicate EdgesInto(g: Graph, adj0: map<string, seq<string>>, adj: map<string, seq<string>>,
                            sid: string, listed: multiset<string>)
  {
    && adj.Keys == adj0.Keys == g.Keys
    && forall d :: d in g ==>
         && multiset(adj[d])[sid] == listed[d]
         && (forall s :: s != sid ==> multiset(adj[d])[s] == multiset(adj0[d])[s])
  }

  /** The tables once the first `j` dependencies of `sid` have been read. */
  ghost predicate Listing(g: Graph, adj0: map<string, seq<string>>, inDegree0: map<string, int>,
                          adj: map<string, seq<string>>, inDegree: map<string, int>, sid: string, j: int)
  {
    && sid in g && 0 <= j <= |g[sid]|
    && EdgesInto(g, adj0, adj, sid, multiset(g[sid][..j]))
    && inDegree.Keys == inDegree0.Keys == g.Keys && inDegree[sid] == Open(g[sid][..j], g.Keys, {})
    && forall s :: s in g && s != sid ==> inDegree[s] == inDegree0[s]
  }

  lemma EdgesIntoStep(g: Graph, adj0: map<string, seq<string>>, adj: map<string, seq<string>>,
                      sid: string, listed: multiset<string>, dep: string)
    requires EdgesInto(g, adj0, adj, sid, listed)
    ensures EdgesInto(g, adj0, if dep in g then adj[dep := adj[dep] + [sid]] else adj, sid, listed + multiset{dep})
  {
    if dep in g {
      assert multiset(adj[dep] + [sid]) == multiset(adj[dep]) + multiset{sid};
    }
  }

  lemma ListingStep(g: Graph, adj0: map<string, seq<string>>, inDegree0: map<string, int>,
                    adj: map<string, seq<string>>, inDegree: map<string, int>, sid: string, j: nat)
    requires Listing(g, adj0, inDegree0, adj, inDegree, sid, j) && j < |g[sid]|
    ensures var dep := g[sid][j];
            Listing(g, adj0, inDegree0,
                    if dep in g then adj[dep := adj[dep] + [sid]] else adj,
                    if dep in g then inDegree[sid := inDegree[sid] + 1] else inDegree, sid, j + 1)
  {
    OpenTake(g[sid], j, g.Keys, {});
    EdgesIntoStep(g, adj0, adj, sid, multiset(g[sid][..j]), g[sid][j]);
  }

  /** Which edges are in the table while the tasks `todo` are still to come. */
  ghost predicate Reversing(g: Graph, adj: map<string, seq<string>>, todo: set<string>) {
    && adj.Keys == g.Keys && todo <= g.Keys
    && forall d :: d in g ==> forall s :: multiset(adj[d])[s] == if s in g && s !in todo then multiset(g[s])[d] else 0
  }

  lemma ReversingStep(g: Graph, adj0: map<string, seq<string>>, adj: map<string, seq<string>>, todo: set<string>,
                      sid: string)
    requires Reversing(g, adj0, todo) && sid in todo && EdgesInto(g, adj0, adj, sid, multiset(g[sid]))
    ensures Reversing(g, adj, todo - {sid})
  {
  }

  lemma ReversingDone(g: Graph, adj: map<string, seq<string>>)
    requires Reversing(g, adj, {})
    ensures Reversed(g, adj)
  {
    forall d, s | d in g && s in adj[d]
      ensures s in g
    {
      assert multiset(adj[d])[s] > 0;
    }
  }

  ghost predicate Counting(g: Graph, inDegree: map<string, int>, todo: set<string>) {
    inDegree.Keys == g.Keys && forall s :: s in g ==> inDegree[s] == if s in todo then 0 else Open(g[s], g.Keys, {})
  }

  lemma TablesStep(g: Graph, adj0: map<string, seq<string>>, inDegree0: map<string, int>,
                   adj: map<string, seq<string>>, inDegree: map<string, int>, todo: set<string>, sid: string)
    requires Reversing(g, adj0, todo) && Counting(g, inDegree0, todo) && sid in todo
    requires Listing(g, adj0, inDegree0, adj, inDegree, sid, |g[sid]|)
    ensures Reversing(g, adj, todo - {sid}) && Counting(g, inDegree, todo - {sid})
  {
    assert g[sid][..|g[sid]|] == g[sid];
    ReversingStep(g, adj0, adj, todo, sid);
  }

  /** The edges of one task: its name is appended to each known dependency's list. */
  method AddEdges(g: Graph, sid: string, adj0: map<string, seq<string>>, inDegree0: map<string, int>)
    returns (adj: map<string, seq<string>>, inDegree: map<string, int>)
    requires sid in g && Listing(g, adj0, inDegree0, adj0, inDegree0, sid, 0)
    ensures Listing(g, adj0, inDegree0, adj, inDegree, sid, |g[sid]|)
  {
    adj, inDegree := adj0, inDegree0;
    var deps := g[sid];
    for j := 0 to |deps|
      invariant Listing(g, adj0, inDegree0, adj, inDegree, sid, j)
    {
      ListingStep(g, adj0, inDegree0, adj, inDegree, sid, j);
      var dep := deps[j];
      if dep in g {
        adj := adj[dep := adj[dep] + [sid]];
        inDegree := inDegree[sid := inDegree[sid] + 1];
      }
    }
  }

  method BuildTables(g: Graph) returns (adj: map<string, seq<string>>, inDegree: map<string, int>)
    ensures Reversed(g, adj) && Degrees(g, inDegree, {})
  {
    adj := map s | s in g :: [];
    inDegree := map s | s in g :: 0;
    var todo := g.Keys;
    while todo != {}
      invariant Reversing(g, adj, todo) && Counting(g, inDegree, todo)
      decreases todo
    {
      var sid :| sid in todo;
      ghost var adj0, inDegree0 := adj, inDegree;
      assert g[sid][..0] == [] && multiset(g[sid][..0]) == multiset{};
      adj, inDegree := AddEdges(g, sid, adj, inDegree);
      TablesStep(g, adj0, inDegree0, adj, inDegree, todo, sid);
      todo := todo - {sid};
    }
    ReversingDone(g, adj);
  }

  /* ---------- The queue ---------- */

  ghost function Elements(q: seq<string>): set<string> {
    set x | x in q
  }

  /** What holds whenever the queue is inspected. */
  ghost predicate QueueInv(g: Graph, inDegree: map<string, int>, queue: seq<string>, dequeued: seq<string>) {
    && Degrees(g, inDegree, Elements(dequeued))
    && Ordered(g, dequeued)
    && Waiting(g, inDegree, queue, dequeued)
  }

  /** Dequeued and queued are different tasks, and they are those without an open dependency. */
  ghost predicate Waiting(g: Graph, inDegree: map<string, int>, queue: seq<string>, dequeued: seq<string>) {
    && inDegree.Keys == g.Keys
    && NoRepeats(dequeued + queue)
    && forall s :: s in dequeued + queue <==> s in g && inDegree[s] == 0
  }

  method InitialQueue(g: Graph, inDegree: map<string, int>) returns (queue: seq<string>)
    requires inDegree.Keys == g.Keys
    ensures Waiting(g, inDegree, queue, [])
  {
    queue := [];
    var todo := inDegree.Keys;
    while todo != {}
      invariant todo <= g.Keys && NoRepeats(queue)
      invariant forall s :: s in queue <==> s in g && s !in todo && inDegree[s] == 0
      decreases todo
    {
      var sid :| sid in todo;
      if inDegree[sid] == 0 {
        queue := queue + [sid];
      }
      todo := todo - {sid};
    }
    assert [] + queue == queue;
  }

  lemma PrefixCounts(xs: seq<string>, k: nat)
    requires k < |xs|
    ensures multiset(xs[..k + 1]) == multiset(xs[..k]) + multiset{xs[k]}
    ensures multiset(xs)[xs[k]] > multiset(xs[..k])[xs[k]]
  {
    assert xs[..k + 1] == xs[..k] + [xs[k]];
    assert xs == xs[..k + 1] + xs[k + 1..];
    assert multiset(xs) == multiset(xs[..k + 1]) + multiset(xs[k + 1..]);
  }

  /** One edge into `n` is taken off: `n` joins the queue exactly when it was the last one. */
  lemma ReleaseStep(g: Graph, inDegree: map<string, int>, queue: seq<string>, dequeued: seq<string>, n: string)
    requires Waiting(g, inDegree, queue, dequeued) && n in g && inDegree[n] >= 1
    ensures Waiting(g, inDegree[n := inDegree[n] - 1], if inDegree[n] == 1 then queue + [n] else queue, dequeued)
  {
    assert n !in dequeued + queue;
    assert dequeued + (queue + [n]) == (dequeued + queue) + [n];
  }

  /** The inner loop: every edge out of `node` is taken off, and a task whose last edge goes is queued. */
  method Release(g: Graph, neighbors: seq<string>, inDegree0: map<string, int>, queue0: seq<string>,
                 ghost dequeued: seq<string>)
    returns (inDegree: map<string, int>, queue: seq<string>)
    requires Waiting(g, inDegree0, queue0, dequeued)
    requires forall s :: s in neighbors ==> s in g
    requires forall s :: s in g ==> inDegree0[s] >= multiset(neighbors)[s]
    ensures Waiting(g, inDegree, queue, dequeued)
    ensures forall s :: s in g ==> inDegree[s] == inDegree0[s] - multiset(neighbors)[s]
  {
    inDegree, queue := inDegree0, queue0;
    for k := 0 to |neighbors|
      invariant Waiting(g, inDegree, queue, dequeued)
      invariant forall s :: s in g ==> inDegree[s] == inDegree0[s] - multiset(neighbors[..k])[s]
    {
      PrefixCounts(neighbors, k);
      var neighbor := neighbors[k];
      ReleaseStep(g, inDegree, queue, dequeued, neighbor);
      inDegree := inDegree[neighbor := inDegree[neighbor] - 1];
      if inDegree[neighbor] == 0 {
        queue := queue + [neighbor];
      }
    }
    assert neighbors[..|neighbors|] == neighbors;
  }

  /** Taking the first of the queue: all its known dependencies are done. */
  lemma DequeueStep(g: Graph, inDegree: map<string, int>, queue: seq<string>, dequeued: seq<string>)
    requires QueueInv(g, inDegree, queue, dequeued) && queue != []
    ensures Ordered(g, dequeued + [queue[0]])
    ensures Waiting(g, inDegree, queue[1..], dequeued + [queue[0]])
    ensures Elements(dequeued + [queue[0]]) == Elements(dequeued) + {queue[0]}
    ensures queue[0] in g && queue[0] !in Elements(dequeued)
  {
    var node, all := queue[0], dequeued + queue;
    assert (dequeued + [node]) + queue[1..] == all;
    assert all[|dequeued|] == node && node in all;
    assert forall i :: 0 <= i < |dequeued| ==> all[i] == dequeued[i];
    OpenZero(g[node], g.Keys, Elements(dequeued));
    var longer := dequeued + [node];
    forall i | 0 <= i < |longer|
      ensures longer[i] in g && forall d :: DependsOn(g, longer[i], d) ==> d in longer[..i]
    {
      assert longer[..i] == if i < |dequeued| then dequeued[..i] else dequeued;
      if i < |dequeued| {
        assert longer[i] == dequeued[i];
      }
    }
    assert NoRepeats(longer) by {
      assert longer == all[..|dequeued| + 1];
    }
  }

  /** After its edges are released the degrees are those for one more done task. */
  lemma ReleasedDegrees(g: Graph, adj: map<string, seq<string>>, before: map<string, int>, after: map<string, int>,
                        done: set<string>, node: string)
    requires Reversed(g, adj) && Degrees(g, before, done) && node in g && node !in done
    requires after.Keys == g.Keys && forall s :: s in g ==> after[s] == before[s] - multiset(adj[node])[s]
    ensures Degrees(g, after, done + {node})
  {
    forall s | s in g
      ensures after[s] == Open(g[s], g.Keys, done + {node})
    {
      OpenWithout(g[s], g.Keys, done, node);
    }
  }

  /** The `while queue` loop: `visited` counts the tasks that were dequeued. */
  method Drain(g: Graph, adj: map<string, seq<string>>, inDegree0: map<string, int>)
    returns (visited: nat, ghost dequeued: seq<string>)
    requires Reversed(g, adj) && Degrees(g, inDegree0, {})
    ensures visited == |dequeued| && Ordered(g, dequeued) && Stuck(g, dequeued)
  {
    var inDegree := inDegree0;
    var queue := InitialQueue(g, inDegree);
    visited, dequeued := 0, [];
    assert Elements([]) == {};
    while queue != []
      invariant QueueInv(g, inDegree, queue, dequeued) && visited == |dequeued|
      decreases g.Keys - Elements(dequeued)
    {
      DequeueStep(g, inDegree, queue, dequeued);
      var node := queue[0];
      queue := queue[1..];
      visited := visited + 1;
      ghost var done := Elements(dequeued);
      ghost var before := inDegree;
      dequeued := dequeued + [node];
      forall s | s in g
        ensures inDegree[s] >= multiset(adj[node])[s]
      {
        OpenWithout(g[s], g.Keys, done, node);
      }
      inDegree, queue := Release(g, adj[node], inDegree, queue, dequeued);
      ReleasedDegrees(g, adj, before, inDegree, done, node);
    }
    forall s | Left(g, dequeued, s)
      ensures exists d :: DependsOn(g, s, d) && d !in dequeued
    {
      assert s !in dequeued + queue;
      OpenZero(g[s], g.Keys, Elements(dequeued));
      var d :| d in g[s] && d in g.Keys && d !in Elements(dequeued);
      assert DependsOn(g, s, d);
    }
  }

  /**
   * `_has_cycle`: true exactly when the known dependencies contain a cycle, false exactly when the
   * tasks can be ordered; the tasks it dequeued are those that do not depend on a cycle, each once.
   */
  method HasCycle(specs: seq<TaskEntrySpec>) returns (cycle: bool, ghost dequeued: seq<string>)
    ensures cycle <==> exists c :: SpecCycle(specs, c)
    ensures cycle <==> Cyclic(GraphOf(specs))
    ensures !cycle <==> exists order :: TopologicalOrder(GraphOf(specs), order)
    ensures Ordered(GraphOf(specs), dequeued)
    ensures forall s :: s in GraphOf(specs) ==> (s in dequeued <==> !DependsOnCycle(GraphOf(specs), s))
  {
    var ids := set i | 0 <= i < |specs| :: NameOf(specs[i], i);
    var idMap := BuildIdMap(specs);
    GraphKeys(specs);
    var adj, inDegree := BuildTables(idMap);
    var visited;
    visited, dequeued := Drain(idMap, adj, inDegree);
    CompleteExactly(idMap, dequeued);
    CyclicExactly(specs);
    cycle := visited != |ids|;
    forall s | s in idMap
      ensures s in dequeued <==> !DependsOnCycle(idMap, s)
    {
      DequeuedExactly(idMap, dequeued, s);
    }
    forall order | TopologicalOrder(idMap, order)
      ensures !cycle
    {
      OrderExcludesCycle(idMap, order);
    }
  }

  lemma {:induction false} GraphKeys(specs: seq<TaskEntrySpec>)
    ensures GraphOf(specs).Keys == set i | 0 <= i < |specs| :: NameOf(specs[i], i)
  {
    if specs != [] {
      var last := |specs| - 1;
      GraphKeys(specs[..last]);
      var names := set i | 0 <= i < |specs| :: NameOf(specs[i], i);
      var fewer := set i | 0 <= i < last :: NameOf(specs[..last][i], i);
      forall x
        ensures x in names <==> x in fewer + {NameOf(specs[last], last)}
      {
        if x in names {
          var i :| 0 <= i < |specs| && NameOf(specs[i], i) == x;
          assert i < last ==> specs[..last][i] == specs[i];
        }
        if x in fewer {
          var i :| 0 <= i < last && NameOf(specs[..last][i], i) == x;
          assert specs[i] == specs[..last][i];
        }
      }
      assert names == fewer + {NameOf(specs[last], last)};
    }
  }

  datatype TaskListConfig = TaskListConfig(enabled: bool, initialTasks: seq<TaskEntrySpec>)

  /** The task-list part of `validate_flow_config`: an enabled list is accepted exactly when it can be ordered. */
  method ValidateTaskList(taskList: Option<TaskListConfig>) returns (accepted: bool)
    ensures accepted <==> (taskList.Some? && taskList.value.enabled ==>
                             exists order :: TopologicalOrder(GraphOf(taskList.value.initialTasks), order))
    ensures accepted <==> (taskList.Some? && taskList.value.enabled ==>
                             !exists c :: SpecCycle(taskList.value.initialTasks, c))
  {
    if taskList.Some? && taskList.value.enabled {
      var cycle, _ := HasCycle(taskList.value.initialTasks);
      return !cycle;
    }
    return true;
  }
}
