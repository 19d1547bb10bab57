/** Task specifications as a dependency graph: names, cycles, orders, and what Kahn's loop establishes. */
module TaskGraph {
  import opened Wrappers

  datatype TaskEntrySpec = TaskEntrySpec(id: Option<string>, dependsOn: seq<string>)

  function Digit(n: nat): string
    requires n < 10
  {
    ["0123456789"[n]]
  }

  function Decimal(n: nat): string {
    if n < 10 then Digit(n) else Decimal(n / 10) + Digit(n % 10)
  }

  /** `spec.id or f"task[{i}]"`: a missing or empty id gets a name from its position. */
  function NameOf(spec: TaskEntrySpec, i: nat): string {
    if spec.id.Some? && spec.id.value != "" then spec.id.value else "task[" + Decimal(i) + "]"
  }

  /** Each name with its listed dependencies; on a repeated name the last specification wins. */
  type Graph = map<string, seq<string>>

  function GraphOf(specs: seq<TaskEntrySpec>): Graph {
    if specs == [] then map[]
    else
      var last := |specs| - 1;
      GraphOf(specs[..last])[NameOf(specs[last], last) := specs[last].dependsOn]
  }

  /** The `k`-th specification is the last one of its name. */
  ghost predicate IsLast(specs: seq<TaskEntrySpec>, k: int) {
    0 <= k < |specs| && forall j :: k < j < |specs| ==> NameOf(specs[j], j) != NameOf(specs[k], k)
  }

  /** The graph has exactly the names of the specifications, each with what the last one of that name lists. */
  lemma {:induction false} GraphExactly(specs: seq<TaskEntrySpec>, name: string)
    ensures name in GraphOf(specs) <==> exists k :: 0 <= k < |specs| && NameOf(specs[k], k) == name
    ensures forall k :: IsLast(specs, k) && NameOf(specs[k], k) == name ==>
              name in GraphOf(specs) && GraphOf(specs)[name] == specs[k].dependsOn
    ensures name in GraphOf(specs) ==> exists k :: IsLast(specs, k) && NameOf(specs[k], k) == name
  {
    hide NameOf;
    if specs != [] {
      var n := |specs| - 1;
      var front := specs[..n];
      GraphExactly(front, name);
      assert forall k :: 0 <= k < n ==> front[k] == specs[k];
      assert IsLast(specs, n);
      if NameOf(specs[n], n) != name {
        forall k
          ensures IsLast(specs, k) && NameOf(specs[k], k) == name <==>
                  IsLast(front, k) && NameOf(front[k], k) == name
        {
          if IsLast(front, k) && NameOf(front[k], k) == name {
            assert IsLast(specs, k);
          }
        }
      }
    }
  }

  /** What a specification is called: its own id if it has one, and otherwise its position in decimal digits. */
  lemma NameExactly(spec: TaskEntrySpec, i: nat)
    ensures spec.id.Some? && spec.id.value != "" ==> NameOf(spec, i) == spec.id.value
    ensures spec.id.None? || spec.id.value == "" ==>
              exists digits :: NameOf(spec, i) == "task[" + digits + "]" && IsDecimal(digits) && ValueOf(digits) == i
  {
    DecimalExactly(i);
  }

  /** Digits without a leading zero, unless it is the only one. */
  ghost predicate IsDecimal(digits: string) {
    && digits != "" && (forall k :: 0 <= k < |digits| ==> '0' <= digits[k] <= '9')
    && (digits[0] == '0' ==> |digits| == 1)
  }

  function ValueOf(digits: string): int {
    if digits == "" then 0 else 10 * ValueOf(digits[..|digits| - 1]) + (digits[|digits| - 1] as int - '0' as int)
  }

  lemma {:induction false} DecimalExactly(n: nat)
    ensures IsDecimal(Decimal(n)) && ValueOf(Decimal(n)) == n && (n > 0 ==> Decimal(n)[0] != '0')
  {
    if n < 10 {
      assert Decimal(n) == ["0123456789"[n]] && Decimal(n)[..0] == "";
    } else {
      DecimalExactly(n / 10);
      OneMoreDigit(Decimal(n / 10), n % 10);
      hide ValueOf, IsDecimal, Digit;
      assert Decimal(n) == Decimal(n / 10) + Digit(n % 10);
      assert n == 10 * (n / 10) + n % 10;
    }
  }

  lemma OneMoreDigit(digits: string, d: nat)
    requires IsDecimal(digits) && digits[0] != '0' && d < 10
    ensures var longer := digits + Digit(d);
            IsDecimal(longer) && longer[0] != '0' && ValueOf(longer) == 10 * ValueOf(digits) + d
  {
    var longer := digits + Digit(d);
    assert longer[..|longer| - 1] == digits && longer[|longer| - 1] == "0123456789"[d];
    assert "0123456789"[d] as int == '0' as int + d;
  }

  /**
   * A cycle in terms of the specifications: a closed sequence of positions, each the last of its
   * name, in which each specification lists the name of the next one.
   */
  ghost predicate SpecCycle(specs: seq<TaskEntrySpec>, c: seq<nat>) {
    && |c| >= 2 && c[0] == c[|c| - 1]
    && (forall i :: 0 <= i < |c| ==> IsLast(specs, c[i]))
    && (forall i :: 0 <= i < |c| - 1 ==> NameOf(specs[c[i + 1]], c[i + 1]) in specs[c[i]].dependsOn)
  }

  ghost function LastOf(specs: seq<TaskEntrySpec>, name: string): (k: nat)
    requires name in GraphOf(specs)
    ensures IsLast(specs, k) && NameOf(specs[k], k) == name && GraphOf(specs)[name] == specs[k].dependsOn
  {
    GraphExactly(specs, name);
    var k :| IsLast(specs, k) && NameOf(specs[k], k) == name;
    k
  }

  /** The graph has a cycle exactly when the specifications have. */
  lemma CyclicExactly(specs: seq<TaskEntrySpec>)
    ensures Cyclic(GraphOf(specs)) <==> exists c :: SpecCycle(specs, c)
  {
    hide NameOf, GraphOf;
    var g := GraphOf(specs);
    if w :| IsCycle(g, w) {
      forall i | 0 <= i < |w|
        ensures w[i] in g
      {
        if i < |w| - 1 {
          assert DependsOn(g, w[i], w[i + 1]);
        } else {
          assert DependsOn(g, w[i - 1], w[i]);
        }
      }
      var c: seq<nat> := seq(|w|, i requires 0 <= i < |w| => LastOf(specs, w[i]));
      forall i | 0 <= i < |c| - 1
        ensures NameOf(specs[c[i + 1]], c[i + 1]) in specs[c[i]].dependsOn
      {
        assert DependsOn(g, w[i], w[i + 1]);
      }
      assert SpecCycle(specs, c);
    }
    if c :| SpecCycle(specs, c) {
      var w: seq<string> := seq(|c|, i requires 0 <= i < |c| => NameOf(specs[c[i]], c[i]));
      forall i | 0 <= i < |c|
        ensures w[i] in g && g[w[i]] == specs[c[i]].dependsOn
      {
        GraphExactly(specs, w[i]);
      }
      forall i | 0 <= i < |w| - 1
        ensures DependsOn(g, w[i], w[i + 1])
      {
        assert w[i + 1] in specs[c[i]].dependsOn;
      }
      assert IsCycle(g, w);
    }
  }

  /** Task `s` lists the known task `d`; names that no task has are ignored. */
  predicate DependsOn(g: Graph, s: string, d: string) {
    s in g && d in g && d in g[s]
  }

  ghost predicate Walk(g: Graph, w: seq<string>) {
    && w != [] && w[0] in g
    && forall i :: 0 <= i < |w| - 1 ==> DependsOn(g, w[i], w[i + 1])
  }

  /** A walk of at least one step back to where it started. */
  ghost predicate IsCycle(g: Graph, w: seq<string>) {
    Walk(g, w) && |w| >= 2 && w[0] == w[|w| - 1]
  }

  ghost predicate Cyclic(g: Graph) {
    exists w :: IsCycle(g, w)
  }

  /** Some chain of dependencies leads from `s` into a cycle. */
  ghost predicate DependsOnCycle(g: Graph, s: string) {
    exists w, c :: Walk(g, w) && w[0] == s && IsCycle(g, c) && c[0] == w[|w| - 1]
  }

  ghost predicate NoRepeats(q: seq<string>) {
    forall i, j :: 0 <= i < j < |q| ==> q[i] != q[j]
  }

  /** Different known tasks, each after all of its known dependencies. */
  ghost predicate Ordered(g: Graph, q: seq<string>) {
    && NoRepeats(q)
    && forall i :: 0 <= i < |q| ==> q[i] in g && forall d :: DependsOn(g, q[i], d) ==> d in q[..i]
  }

  /** A total order of all tasks that puts every known dependency before its dependent. */
  ghost predicate TopologicalOrder(g: Graph, q: seq<string>) {
    Ordered(g, q) && forall s :: s in g ==> s in q
  }

  ghost predicate Left(g: Graph, q: seq<string>, s: string) {
    s in g && s !in q
  }

  /** Every task that is left waits for a task that is left. */
  ghost predicate Stuck(g: Graph, q: seq<string>) {
    forall s :: Left(g, q, s) ==> exists d :: DependsOn(g, s, d) && d !in q
  }

  /* ---------- An ordered task is on no way into a cycle ---------- */

  lemma {:induction false} WalkDescends(g: Graph, q: seq<string>, w: seq<string>, i: nat, k: nat)
    requires Ordered(g, q) && Walk(g, w) && i < |q| && w[0] == q[i] && 0 < k < |w|
    ensures w[k] in q[..i]
  {
    assert DependsOn(g, w[k - 1], w[k]);
    if k > 1 {
      WalkDescends(g, q, w, i, k - 1);
      var j :| 0 <= j < i && q[j] == w[k - 1];
      assert w[k] in q[..j];
      var m :| 0 <= m < j && q[m] == w[k];
      assert q[..i][m] == w[k];
    }
  }

  lemma CycleOutside(g: Graph, q: seq<string>, c: seq<string>)
    requires Ordered(g, q) && IsCycle(g, c)
    ensures c[0] !in q
  {
    if c[0] in q {
      var j :| 0 <= j < |q| && q[j] == c[0];
      WalkDescends(g, q, c, j, |c| - 1);
    }
  }

  lemma OrderedAvoidsCycles(g: Graph, q: seq<string>, s: string)
    requires Ordered(g, q) && s in q
    ensures !DependsOnCycle(g, s)
  {
    forall w, c | Walk(g, w) && w[0] == s && IsCycle(g, c)
      ensures c[0] != w[|w| - 1]
    {
      var i :| 0 <= i < |q| && q[i] == s;
      if |w| > 1 {
        WalkDescends(g, q, w, i, |w| - 1);
      }
      assert w[|w| - 1] in q;
      CycleOutside(g, q, c);
    }
  }

  /* ---------- A task that is left reaches a cycle ---------- */

  lemma {:induction false} NoRepeatsSize(q: seq<string>, names: set<string>)
    requires NoRepeats(q) && forall x :: x in q ==> x in names
    ensures |q| <= |names|
    ensures |q| == |names| ==> forall x :: x in names ==> x in q
  {
    if q == [] {
    } else {
      var front, last := q[..|q| - 1], q[|q| - 1];
      forall x | x in front
        ensures x in names - {last}
      {
        var i :| 0 <= i < |front| && front[i] == x;
      }
      NoRepeatsSize(front, names - {last});
      assert q == front + [last];
    }
  }

  ghost predicate Repeats(w: seq<string>, i: int, j: int) {
    0 <= i < j < |w| && w[i] == w[j]
  }

  lemma Pigeonhole(w: seq<string>, names: set<string>)
    requires |w| > |names| && forall x :: x in w ==> x in names
    ensures exists i, j :: Repeats(w, i, j)
  {
    if forall i, j :: !Repeats(w, i, j) {
      assert NoRepeats(w) by {
        forall i, j | 0 <= i < j < |w|
          ensures w[i] != w[j]
        {
          assert !Repeats(w, i, j);
        }
      }
      NoRepeatsSize(w, names);
    }
  }

  lemma WalkAppend(g: Graph, w: seq<string>, d: string)
    requires Walk(g, w) && DependsOn(g, w[|w| - 1], d)
    ensures Walk(g, w + [d])
  {
  }

  lemma WalkSlice(g: Graph, w: seq<string>, i: nat, j: nat)
    requires Walk(g, w) && i < j <= |w|
    ensures Walk(g, w[i..j])
  {
    assert i > 0 ==> DependsOn(g, w[i - 1], w[i]);
  }

  lemma {:induction false} LongWalk(g: Graph, q: seq<string>, s: string, n: nat)
    returns (w: seq<string>)
    requires Stuck(g, q) && Left(g, q, s)
    ensures Walk(g, w) && w[0] == s && |w| == n + 1 && forall i :: 0 <= i < |w| ==> Left(g, q, w[i])
  {
    if n == 0 {
      w := [s];
    } else {
      var before := LongWalk(g, q, s, n - 1);
      assert Left(g, q, before[n - 1]);
      var d :| DependsOn(g, before[n - 1], d) && d !in q;
      WalkAppend(g, before, d);
      w := before + [d];
    }
  }

  /** Between two visits of one task lies a cycle. */
  lemma RoundTrip(g: Graph, w: seq<string>, i: nat, j: nat)
    requires Walk(g, w) && Repeats(w, i, j)
    ensures IsCycle(g, w[i..j + 1]) && w[i..j + 1][0] == w[i]
  {
    WalkSlice(g, w, i, j + 1);
    hide Walk;
    assert w[i..j + 1][j - i] == w[j];
  }

  lemma InGraph(g: Graph, q: seq<string>, w: seq<string>)
    requires forall i :: 0 <= i < |w| ==> Left(g, q, w[i])
    ensures forall x :: x in w ==> x in g.Keys
  {
  }

  lemma StuckReachesCycle(g: Graph, q: seq<string>, s: string)
    requires Stuck(g, q) && Left(g, q, s)
    ensures DependsOnCycle(g, s)
  {
    var w := LongWalk(g, q, s, |g.Keys|);
    InGraph(g, q, w);
    hide Stuck, Left, DependsOn;
    Pigeonhole(w, g.Keys);
    var i, j :| Repeats(w, i, j);
    WalkSlice(g, w, 0, i + 1);
    RoundTrip(g, w, i, j);
    assert w[0..i + 1][0] == s && w[0..i + 1][i] == w[i];
  }

  /* ---------- What an ordered, stuck list says about the whole graph ---------- */

  /** It holds exactly the tasks that do not depend on a cycle. */
  lemma DequeuedExactly(g: Graph, q: seq<string>, s: string)
    requires Ordered(g, q) && Stuck(g, q) && s in g
    ensures s in q <==> !DependsOnCycle(g, s)
  {
    if s in q {
      OrderedAvoidsCycles(g, q, s);
    } else {
      StuckReachesCycle(g, q, s);
    }
  }

  /** The two classical notions exclude each other: where an order exists there is no cycle. */
  lemma OrderExcludesCycle(g: Graph, q: seq<string>)
    requires TopologicalOrder(g, q)
    ensures !Cyclic(g)
  {
    forall c | IsCycle(g, c)
      ensures c[0] !in g
    {
      CycleOutside(g, q, c);
    }
  }

  /** It has as many entries as there are tasks exactly when the graph has no cycle. */
  lemma CompleteExactly(g: Graph, q: seq<string>)
    requires Ordered(g, q) && Stuck(g, q)
    ensures |q| == |g.Keys| <==> !Cyclic(g)
    ensures |q| == |g.Keys| ==> TopologicalOrder(g, q)
  {
    assert forall x :: x in q ==> x in g.Keys;
    NoRepeatsSize(q, g.Keys);
    if |q| == |g.Keys| {
      OrderExcludesCycle(g, q);
    } else {
      assert exists s :: Left(g, q, s) by {
        if forall s :: s in g.Keys ==> s in q {
          AllIn(g.Keys, q);
        } else {
          var s :| s in g.Keys && s !in q;
          assert Left(g, q, s);
        }
      }
      var s :| Left(g, q, s);
      StuckReachesCycle(g, q, s);
    }
  }

  lemma {:induction false} AllIn(names: set<string>, q: seq<string>)
    requires forall s :: s in names ==> s in q
    ensures |names| <= |q|
  {
    if q != [] {
      var front, last := q[..|q| - 1], q[|q| - 1];
      assert q == front + [last];
      AllIn(names - {last}, front);
    } else {
      assert names == {};
    }
  }
}
