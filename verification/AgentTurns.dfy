/**
 * Turns of one run that overlap: how the stored memory grows when a turn is suspended between
 * reading the memory and saving to it.
 *
 * A turn is cut where it has read the memory; its driver and its tools run between the two pieces,
 * and any number of turns interleave.
 */
module AgentTurns {
  import opened Wrappers
  import opened AgentMemory
  import opened AgentRuntime

  /** A turn that has read the memory and has not ended: what it was asked, and what it read. */
  datatype OpenTurn = OpenTurn(input: seq<Message>, seen: seq<Message>)

  datatype World = World(stored: seq<Message>, open: map<nat, OpenTurn>)

  datatype Action =
    | ReadMemory(id: nat, input: seq<Message>)
    | SaveTurn(id: nat)
    | EndUnsaved(id: nat)

  /** A turn saves when nothing before the saving raised; a turn may also end without saving. */
  ghost predicate Enabled(env: Surroundings, w: World, a: Action) {
    match a
    case ReadMemory(id, input) => id !in w.open && Waterfall(env.beforeTurn, input).Ok?
    case SaveTurn(id) => id in w.open && TurnReply(env, w.open[id].seen, w.open[id].input).Ok?
    case EndUnsaved(id) => id in w.open
  }

  ghost function Apply(env: Surroundings, w: World, a: Action): World
    requires Enabled(env, w, a)
  {
    match a
    case ReadMemory(id, input) => w.(open := w.open[id := OpenTurn(input, w.stored)])
    case SaveTurn(id) =>
      World(w.stored + Turned(env, w.open[id].seen, w.open[id].input), w.open - {id})
    case EndUnsaved(id) => w.(open := w.open - {id})
  }

  ghost predicate IsRun(env: Surroundings, ws: seq<World>, acts: seq<Action>) {
    && |ws| == |acts| + 1
    && ws[0] == World([], map[])
    && forall i :: 0 <= i < |acts| ==> Enabled(env, ws[i], acts[i]) && ws[i + 1] == Apply(env, ws[i], acts[i])
  }

  /** What a turn adds of its own: its messages after the hooks, the tool list and the answer. */
  ghost function Own(env: Surroundings, input: seq<Message>): nat
    requires Waterfall(env.beforeTurn, input).Ok?
  {
    |Waterfall(env.beforeTurn, input).value| + |ToolMessages(env.registry)| + 1
  }

  /** What the saved turn adds is what it read and what is its own. */
  lemma SavedSize(env: Surroundings, seen: seq<Message>, input: seq<Message>)
    requires TurnReply(env, seen, input).Ok?
    ensures Waterfall(env.beforeTurn, input).Ok?
    ensures |Turned(env, seen, input)| == |seen| + Own(env, input)
  {
  }

  /** The turn has read what the save before it left. */
  ghost predicate ReadLast(w: World, a: Action) {
    a.SaveTurn? && a.id in w.open ==> w.open[a.id].seen == w.stored
  }

  /** Every open turn has read an earlier state of the memory: a part of it from its beginning. */
  ghost predicate ReadEarlier(env: Surroundings, w: World) {
    forall id :: id in w.open ==>
      && |w.open[id].seen| <= |w.stored| && w.open[id].seen == w.stored[..|w.open[id].seen|]
      && Waterfall(env.beforeTurn, w.open[id].input).Ok?
  }

  lemma ReadEarlierStep(env: Surroundings, w: World, a: Action)
    requires ReadEarlier(env, w) && Enabled(env, w, a)
    ensures ReadEarlier(env, Apply(env, w, a))
  {
    hide Waterfall, TurnReply, Turned;
    var next := Apply(env, w, a);
    forall id | id in next.open
      ensures |next.open[id].seen| <= |next.stored| && next.open[id].seen == next.stored[..|next.open[id].seen|]
    {
      if id in w.open {
        assert w.stored == next.stored[..|w.stored|];
      }
    }
  }

  lemma {:induction false} ReadEarlierAlong(env: Surroundings, ws: seq<World>, acts: seq<Action>, i: nat)
    requires IsRun(env, ws, acts) && i < |ws|
    ensures ReadEarlier(env, ws[i])
  {
    if i > 0 {
      ReadEarlierAlong(env, ws, acts, i - 1);
      hide Apply, Enabled, ReadEarlier;
      ReadEarlierStep(env, ws[i - 1], acts[i - 1]);
    }
  }

  /* ---------- Bounds ---------- */

  /** The sizes that the saved turns add of their own. */
  ghost function OwnSum(env: Surroundings, ws: seq<World>, acts: seq<Action>, n: nat): nat
    requires IsRun(env, ws, acts) && n <= |acts|
  {
    if n == 0 then 0
    else OwnSum(env, ws, acts, n - 1) + OwnOf(env, ws[n - 1], acts[n - 1])
  }

  /** The same sizes, doubled by every save that follows. */
  ghost function Doubled(env: Surroundings, ws: seq<World>, acts: seq<Action>, n: nat): nat
    requires IsRun(env, ws, acts) && n <= |acts|
  {
    if n == 0 then 0
    else if !acts[n - 1].SaveTurn? then Doubled(env, ws, acts, n - 1)
    else 2 * Doubled(env, ws, acts, n - 1) + OwnOf(env, ws[n - 1], acts[n - 1])
  }

  ghost function OwnOf(env: Surroundings, w: World, a: Action): nat
    requires Enabled(env, w, a)
  {
    if a.SaveTurn? then SavedSize(env, w.open[a.id].seen, w.open[a.id].input); Own(env, w.open[a.id].input) else 0
  }

  lemma SizeOfStep(env: Surroundings, w: World, a: Action)
    requires Enabled(env, w, a)
    ensures |Apply(env, w, a).stored| ==
            |w.stored| + (if a.SaveTurn? then |w.open[a.id].seen| + OwnOf(env, w, a) else 0)
  {
    if a.SaveTurn? {
      SavedSize(env, w.open[a.id].seen, w.open[a.id].input);
    }
    hide TurnReply, Turned, Waterfall, Own;
  }

  /**
   * Over every interleaving of turns, the memory holds at least what the saved turns add of their
   * own, and at most that doubled by every later save; the most exactly when every turn that was
   * saved had read what the save before it left.
   */
  lemma {:induction false} OverlapBounds(env: Surroundings, ws: seq<World>, acts: seq<Action>, n: nat)
    requires IsRun(env, ws, acts) && n <= |acts|
    ensures OwnSum(env, ws, acts, n) <= |ws[n].stored| <= Doubled(env, ws, acts, n)
    ensures |ws[n].stored| == Doubled(env, ws, acts, n) <==> forall k :: 0 <= k < n ==> ReadLast(ws[k], acts[k])
  {
    if n > 0 {
      OverlapBounds(env, ws, acts, n - 1);
      ReadEarlierAlong(env, ws, acts, n - 1);
      var w, a := ws[n - 1], acts[n - 1];
      assert ws[n] == Apply(env, w, a);
      SizeOfStep(env, w, a);
      hide Apply, OwnOf, Waterfall, TurnReply;
      if a.SaveTurn? {
        var seen := w.open[a.id].seen;
        assert ReadLast(w, a) <==> |seen| == |w.stored| by {
          assert w.stored[..|w.stored|] == w.stored;
        }
      }
    }
  }

  function Saves(acts: seq<Action>): nat {
    if acts == [] then 0 else Saves(acts[..|acts| - 1]) + (if acts[|acts| - 1].SaveTurn? then 1 else 0)
  }

  /** Every turn brings as many messages through the hooks. */
  ghost predicate Uniform(env: Surroundings, acts: seq<Action>, m: nat) {
    forall k :: 0 <= k < |acts| && acts[k].ReadMemory? && Waterfall(env.beforeTurn, acts[k].input).Ok? ==>
      |Waterfall(env.beforeTurn, acts[k].input).value| == m
  }

  ghost predicate OpenUniform(env: Surroundings, w: World, m: nat) {
    forall id :: id in w.open ==>
      Waterfall(env.beforeTurn, w.open[id].input).Ok? && |Waterfall(env.beforeTurn, w.open[id].input).value| == m
  }

  lemma {:induction false} OpenUniformAlong(env: Surroundings, ws: seq<World>, acts: seq<Action>, m: nat, i: nat)
    requires IsRun(env, ws, acts) && Uniform(env, acts, m) && i < |ws|
    ensures OpenUniform(env, ws[i], m)
  {
    if i > 0 {
      OpenUniformAlong(env, ws, acts, m, i - 1);
      hide Waterfall, TurnReply, Turned;
    }
  }

  lemma {:induction false} UniformSums(env: Surroundings, ws: seq<World>, acts: seq<Action>, m: nat, n: nat)
    requires IsRun(env, ws, acts) && Uniform(env, acts, m) && n <= |acts|
    ensures var c, k := m + |ToolMessages(env.registry)| + 1, Saves(acts[..n]);
            && Pow2(k) >= 1
            && OwnSum(env, ws, acts, n) == k * c && Doubled(env, ws, acts, n) == (Pow2(k) - 1) * c
  {
    if n > 0 {
      UniformSums(env, ws, acts, m, n - 1);
      OpenUniformAlong(env, ws, acts, m, n - 1);
      assert acts[..n][..n - 1] == acts[..n - 1];
      var c, k := m + |ToolMessages(env.registry)| + 1, Saves(acts[..n - 1]);
      if acts[n - 1].SaveTurn? {
        assert OwnOf(env, ws[n - 1], acts[n - 1]) == c;
        assert Saves(acts[..n]) == k + 1 && Pow2(k + 1) == 2 * Pow2(k);
        OneMoreShare(k, Pow2(k), c);
      } else {
        assert Saves(acts[..n]) == k;
      }
      hide OwnOf, Apply, Waterfall, Saves, Pow2;
    }
  }

  lemma OneMoreShare(k: nat, p: nat, c: nat)
    requires p >= 1
    ensures (k + 1) * c == k * c + c
    ensures 2 * ((p - 1) * c) + c == (2 * p - 1) * c
  {
    GrowthStep(p, c);
  }

  /**
   * With `k` saved turns of `m` messages each and `t` tool-list messages, between k(m + t + 1) and
   * (2^k - 1)(m + t + 1) messages are stored; the latter exactly when no saved turn overlapped a save.
   */
  lemma OverlapDoubles(env: Surroundings, ws: seq<World>, acts: seq<Action>, m: nat, n: nat)
    requires IsRun(env, ws, acts) && Uniform(env, acts, m) && n <= |acts|
    ensures var c, k := m + |ToolMessages(env.registry)| + 1, Saves(acts[..n]);
            && Pow2(k) >= 1
            && k * c <= |ws[n].stored| <= (Pow2(k) - 1) * c
            && (|ws[n].stored| == (Pow2(k) - 1) * c <==> forall j :: 0 <= j < n ==> ReadLast(ws[j], acts[j]))
  {
    OverlapBounds(env, ws, acts, n);
    UniformSums(env, ws, acts, m, n);
  }

  /** Two turns that both read before either saves store 2c messages, where one after the other they store 3c. */
  lemma OverlapLosesContext(env: Surroundings, first: seq<Message>, second: seq<Message>)
    requires TurnReply(env, [], first).Ok? && TurnReply(env, [], second).Ok?
    ensures exists ws: seq<World>, acts: seq<Action> ::
              && IsRun(env, ws, acts) && |acts| == 4
              && Waterfall(env.beforeTurn, first).Ok? && Waterfall(env.beforeTurn, second).Ok?
              && |ws[4].stored| == Own(env, first) + Own(env, second)
  {
    SavedSize(env, [], first);
    SavedSize(env, [], second);
    var acts := [ReadMemory(0, first), ReadMemory(1, second), SaveTurn(0), SaveTurn(1)];
    hide TurnReply, Turned, Waterfall, Own;
    var w0 := World([], map[]);
    var w1 := Apply(env, w0, acts[0]);
    var w2 := Apply(env, w1, acts[1]);
    var w3 := Apply(env, w2, acts[2]);
    var w4 := Apply(env, w3, acts[3]);
    var ws := [w0, w1, w2, w3, w4];
    assert IsRun(env, ws, acts);
  }
}
