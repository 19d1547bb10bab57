/**
 * The `chain` of a flow under an update with arbitrary keys.
 *
 * The update service writes any key it is given.  The command line and the server never send
 * `chain`; this is exactly what a caller that does would have to check.
 */
module WorkspaceChains {
  import opened Wrappers
  import opened Workspace
  import opened WorkspaceIntegrity
  import opened TaskGraph

  /** `update_pipeline(name, chain=...)`: no check is made of the new chain. */
  function SetChain(w: Workspace, name: string, chain: seq<string>): Workspace
    requires name in w.flows
  {
    w.(flows := w.flows[name := w.flows[name].(chain := chain)])
  }

  ghost predicate Reaches(g: Graph, x: string, y: string) {
    exists p :: Walk(g, p) && p[0] == x && p[|p| - 1] == y
  }

  /** What a caller can check before the update. */
  ghost predicate SafeChain(w: Workspace, name: string, chain: seq<string>) {
    forall x :: x in chain ==> x in w.flows && !Reaches(Chains(w), x, name)
  }

  /** The part of a walk before its first visit of `name`. */
  ghost function UpTo(p: seq<string>, name: string): (n: nat)
    requires exists i :: 0 <= i < |p| && p[i] == name
    ensures n < |p| && p[n] == name && forall i :: 0 <= i < n ==> p[i] != name
  {
    if p[0] == name then 0 else 1 + UpTo(p[1..], name)
  }

  /** Only the edges out of `name` differ. */
  ghost predicate SameElsewhere(g: Graph, h: Graph, name: string) {
    g.Keys == h.Keys && forall f :: f in g && f != name ==> g[f] == h[f]
  }

  lemma EdgeElsewhere(g: Graph, h: Graph, name: string, f: string, d: string)
    requires SameElsewhere(g, h, name) && DependsOn(g, f, d) && f != name
    ensures DependsOn(h, f, d)
  {
  }

  /** A walk that leaves `name` at no point but its end is a walk of both graphs. */
  lemma WalkElsewhere(g: Graph, h: Graph, name: string, p: seq<string>)
    requires SameElsewhere(g, h, name) && Walk(g, p) && forall i :: 0 <= i < |p| - 1 ==> p[i] != name
    ensures Walk(h, p)
  {
    forall i | 0 <= i < |p| - 1
      ensures DependsOn(h, p[i], p[i + 1])
    {
      EdgeElsewhere(g, h, name, p[i], p[i + 1]);
    }
  }

  /** Going once more around a cycle. */
  lemma Doubled(g: Graph, c: seq<string>)
    requires IsCycle(g, c)
    ensures Walk(g, c + c[1..])
  {
    var d := c + c[1..];
    forall i | 0 <= i < |d| - 1
      ensures DependsOn(g, d[i], d[i + 1])
    {
      if i < |c| - 1 {
        assert d[i] == c[i] && d[i + 1] == c[i + 1];
      } else {
        var k := i - (|c| - 1);
        assert d[i] == c[k] && d[i + 1] == c[k + 1];
      }
    }
  }

  /** A cycle through `name`: some successor of `name` leads back to it along edges that leave other flows. */
  lemma CycleThrough(g: Graph, h: Graph, name: string, c: seq<string>, k: nat)
    requires SameElsewhere(g, h, name) && IsCycle(g, c) && k < |c| - 1 && c[k] == name
    ensures exists x :: DependsOn(g, name, x) && Reaches(h, x, name)
  {
    Doubled(g, c);
    var d := c + c[1..];
    var rest := d[k + 1..];
    assert rest[|c| - 2] == d[k + |c| - 1] == c[k];
    var n := UpTo(rest, name);
    assert forall i :: k + 1 <= i < k + 1 + n ==> d[i] == rest[i - (k + 1)];
    FromTo(g, h, name, d, k, n);
    assert DependsOn(g, d[k], d[k + 1]);
  }

  /** From the flow after `name` to the next visit of `name`. */
  lemma FromTo(g: Graph, h: Graph, name: string, d: seq<string>, k: nat, n: nat)
    requires SameElsewhere(g, h, name) && Walk(g, d) && k + 1 + n < |d| && d[k + 1 + n] == name
    requires forall i :: k + 1 <= i < k + 1 + n ==> d[i] != name
    ensures Reaches(h, d[k + 1], name)
  {
    WalkSlice(g, d, k + 1, k + 1 + n + 1);
    var p := d[k + 1..k + 1 + n + 1];
    hide DependsOn, Walk;
    assert forall i :: 0 <= i < n ==> p[i] == d[k + 1 + i];
    WalkElsewhere(g, h, name, p);
    assert p[0] == d[k + 1] && p[|p| - 1] == name;
  }

  lemma CycleElsewhere(g: Graph, h: Graph, name: string, c: seq<string>)
    requires SameElsewhere(g, h, name) && IsCycle(g, c) && forall k :: 0 <= k < |c| - 1 ==> c[k] != name
    ensures IsCycle(h, c)
  {
    WalkElsewhere(g, h, name, c);
  }

  /** A cycle after the update was there before, or shows that the new chain was not safe. */
  lemma CycleExplained(w: Workspace, name: string, chain: seq<string>, c: seq<string>)
    requires name in w.flows && IsCycle(Chains(SetChain(w, name, chain)), c)
    ensures IsCycle(Chains(w), c) || !SafeChain(w, name, chain)
  {
    var h, g := Chains(w), Chains(SetChain(w, name, chain));
    assert SameElsewhere(g, h, name);
    if k :| 0 <= k < |c| - 1 && c[k] == name {
      CycleThrough(g, h, name, c, k);
      var x :| DependsOn(g, name, x) && Reaches(h, x, name);
      assert x in chain;
    } else {
      CycleElsewhere(g, h, name, c);
    }
  }

  lemma SafeStaysAcyclic(w: Workspace, name: string, chain: seq<string>)
    requires !Cyclic(Chains(w)) && name in w.flows && SafeChain(w, name, chain)
    ensures !Cyclic(Chains(SetChain(w, name, chain)))
  {
    forall c | IsCycle(Chains(SetChain(w, name, chain)), c)
      ensures IsCycle(Chains(w), c)
    {
      CycleExplained(w, name, chain, c);
    }
  }

  lemma UnsafeClosesCycle(w: Workspace, name: string, chain: seq<string>, x: string)
    requires name in w.flows && x in chain && x in w.flows && Reaches(Chains(w), x, name)
    ensures Cyclic(Chains(SetChain(w, name, chain)))
  {
    var h, g := Chains(w), Chains(SetChain(w, name, chain));
    var p :| Walk(h, p) && p[0] == x && p[|p| - 1] == name;
    var n := UpTo(p, name);
    WalkSlice(h, p, 0, n + 1);
    var q := p[0..n + 1];
    assert SameElsewhere(h, g, name);
    WalkElsewhere(h, g, name, q);
    assert DependsOn(g, name, x);
    var c := [name] + q;
    forall i | 0 <= i < |c| - 1
      ensures DependsOn(g, c[i], c[i + 1])
    {
      assert i > 0 ==> DependsOn(g, q[i - 1], q[i]);
    }
    assert IsCycle(g, c);
  }

  /**
   * Writing a chain keeps all references and keeps the chains free of cycles exactly when every
   * chained flow exists and none of them leads back to the flow itself.
   */
  lemma ChainUpdateExactly(w: Workspace, name: string, chain: seq<string>)
    requires References(w) && !Cyclic(Chains(w)) && name in w.flows
    ensures References(SetChain(w, name, chain)) && !Cyclic(Chains(SetChain(w, name, chain)))
            <==> SafeChain(w, name, chain)
  {
    var next := SetChain(w, name, chain);
    assert FlowReferences(w.agents.Keys, w.flows.Keys, w.flows[name]);
    assert next.flows.Keys == w.flows.Keys;
    if SafeChain(w, name, chain) {
      SafeStaysAcyclic(w, name, chain);
      forall f | f in next.flows
        ensures FlowReferences(next.agents.Keys, next.flows.Keys, next.flows[f])
      {
        assert FlowReferences(w.agents.Keys, w.flows.Keys, w.flows[f]);
      }
    } else {
      var x :| x in chain && !(x in w.flows && !Reaches(Chains(w), x, name));
      if x in w.flows {
        UnsafeClosesCycle(w, name, chain, x);
      } else {
        assert !FlowReferences(next.agents.Keys, next.flows.Keys, next.flows[name]);
      }
    }
  }

  /** A flow that is given itself as its chain: the update goes through unchecked, and the chains have a cycle. */
  lemma SelfChainCloses(w: Workspace, name: string)
    requires name in w.flows
    ensures Cyclic(Chains(SetChain(w, name, [name])))
  {
    assert Walk(Chains(w), [name]);
    UnsafeClosesCycle(w, name, [name], name);
  }
}
