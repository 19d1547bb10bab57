/**
 * Transparency of the hash-keyed cache: interleaved runs that use it get what the uncached step
 * would have given them.
 */
module ExactCacheProtocol {
  import opened Wrappers
  import opened CacheTypes
  import opened ExactCache

  /** A run between its `before_step` and the end of its step: its input, and what `before_step` passed on. */
  datatype OpenStep = OpenStep(input: Obj, passed: Passed)

  /** The cache, and each run that is inside a step. */
  datatype World = World(cache: Cache, open: map<string, OpenStep>)

  const Start := World(EMPTY, map[])

  datatype Action =
    | BeforeStep(runId: string, input: Obj, now: real)
    | AfterStep(runId: string, now: real, victim: string)
    | StepFails(runId: string)
    | InvalidateInput(input: Obj)
    | ClearCache

  /** Each run alternates before and after-or-error; an entry that is evicted to store a result is an oldest one. */
  ghost predicate Enabled(w: World, a: Action) {
    match a
    case BeforeStep(runId, _, _) => runId !in w.open
    case AfterStep(runId, _, victim) =>
      runId in w.open &&
      (w.open[runId].passed.Plain? && w.cache.entries != map[] ==> Oldest(w.cache.entries, victim))
    case StepFails(runId) => runId in w.open
    case _ => true
  }

  /** The step itself: a sentinel is handed on, anything else is computed. */
  function Computed(step: Obj -> Obj, o: OpenStep): Passed {
    if o.passed.Sentinel? then o.passed else Plain(step(o.input))
  }

  function Apply(cfg: Settings, step: Obj -> Obj, w: World, a: Action): World
    requires a.AfterStep? || a.StepFails? ==> a.runId in w.open
  {
    match a
    case BeforeStep(runId, input, now) =>
      var (cache, passed) := Before(cfg, w.cache, runId, input, now);
      World(cache, w.open[runId := OpenStep(input, passed)])
    case AfterStep(runId, now, victim) =>
      World(After(cfg, w.cache, runId, Computed(step, w.open[runId]), now, victim).0, w.open - {runId})
    case StepFails(runId) => World(OnError(w.cache, runId), w.open - {runId})
    case InvalidateInput(input) => World(Invalidate(cfg, w.cache, input), w.open)
    case ClearCache => World(Clear(w.cache), w.open)
  }

  ghost predicate IsRun(cfg: Settings, step: Obj -> Obj, ws: seq<World>, acts: seq<Action>) {
    && |ws| == |acts| + 1
    && ws[0] == Start
    && forall i :: 0 <= i < |acts| ==> Enabled(ws[i], acts[i]) && ws[i + 1] == Apply(cfg, step, ws[i], acts[i])
  }

  /** What an entry was stored for. */
  ghost predicate StoredFor(cfg: Settings, step: Obj -> Obj, h: string, result: Obj) {
    exists x :: cfg.hash(x) == h && result == step(x)
  }

  /** Every entry was computed from an input with its hash, and the hash kept for an open run is that of its input. */
  ghost predicate Filed(cfg: Settings, step: Obj -> Obj, w: World) {
    && (forall h :: h in w.cache.entries ==> StoredFor(cfg, step, h, w.cache.entries[h].result))
    && (forall r :: r in w.open ==> r in w.cache.pending && w.cache.pending[r] == cfg.hash(w.open[r].input))
    && (forall r :: r in w.open && w.open[r].passed.Sentinel? ==>
          StoredFor(cfg, step, cfg.hash(w.open[r].input), w.open[r].passed.value))
    && (forall r :: r in w.open && w.open[r].passed.Plain? ==> w.open[r].passed.value == w.open[r].input)
  }

  lemma FiledBefore(cfg: Settings, step: Obj -> Obj, w: World, runId: string, input: Obj, now: real)
    requires Filed(cfg, step, w) && runId !in w.open
    ensures Filed(cfg, step, Apply(cfg, step, w, BeforeStep(runId, input, now)))
  {
    hide StoredFor;
  }

  lemma FiledAfter(cfg: Settings, step: Obj -> Obj, w: World, runId: string, now: real, victim: string)
    requires Filed(cfg, step, w) && runId in w.open
    ensures Filed(cfg, step, Apply(cfg, step, w, AfterStep(runId, now, victim)))
  {
    assert StoredFor(cfg, step, cfg.hash(w.open[runId].input), step(w.open[runId].input));
    hide StoredFor;
  }

  lemma FiledStep(cfg: Settings, step: Obj -> Obj, w: World, a: Action)
    requires Filed(cfg, step, w) && Enabled(w, a)
    ensures Filed(cfg, step, Apply(cfg, step, w, a))
  {
    match a
    case BeforeStep(runId, input, now) =>
      FiledBefore(cfg, step, w, runId, input, now);
    case AfterStep(runId, now, victim) =>
      FiledAfter(cfg, step, w, runId, now, victim);
    case _ =>
      hide StoredFor;
  }

  lemma {:induction false} FiledAlong(cfg: Settings, step: Obj -> Obj, ws: seq<World>, acts: seq<Action>, i: nat)
    requires IsRun(cfg, step, ws, acts) && i < |ws|
    ensures Filed(cfg, step, ws[i])
  {
    if i > 0 {
      FiledAlong(cfg, step, ws, acts, i - 1);
      FiledStep(cfg, step, ws[i - 1], acts[i - 1]);
    }
  }

  /** The stored key is always the hash of that run's open input. */
  lemma PendingIsOpenInput(cfg: Settings, step: Obj -> Obj, ws: seq<World>, acts: seq<Action>, i: nat, runId: string)
    requires IsRun(cfg, step, ws, acts) && i < |ws| && runId in ws[i].open
    ensures runId in ws[i].cache.pending && ws[i].cache.pending[runId] == cfg.hash(ws[i].open[runId].input)
  {
    FiledAlong(cfg, step, ws, acts, i);
  }

  /** Inputs with one hash have one result. */
  ghost predicate HashDecides(cfg: Settings, step: Obj -> Obj) {
    forall x, y :: cfg.hash(x) == cfg.hash(y) ==> step(x) == step(y)
  }

  /** In this world every cached result under way is what the step gives for the run's input. */
  ghost predicate Truthful(step: Obj -> Obj, w: World) {
    forall r :: r in w.open && w.open[r].passed.Sentinel? ==> w.open[r].passed.value == step(w.open[r].input)
  }

  ghost predicate Transparent(cfg: Settings, step: Obj -> Obj) {
    forall ws: seq<World>, acts: seq<Action>, i: nat ::
      IsRun(cfg, step, ws, acts) && i < |ws| ==> Truthful(step, ws[i])
  }

  lemma HitsAreResults(cfg: Settings, step: Obj -> Obj, ws: seq<World>, acts: seq<Action>, i: nat)
    requires HashDecides(cfg, step) && IsRun(cfg, step, ws, acts) && i < |ws|
    ensures Truthful(step, ws[i])
  {
    FiledAlong(cfg, step, ws, acts, i);
    forall r | r in ws[i].open && ws[i].open[r].passed.Sentinel?
      ensures ws[i].open[r].passed.value == step(ws[i].open[r].input)
    {
      var x :| cfg.hash(x) == cfg.hash(ws[i].open[r].input) && ws[i].open[r].passed.value == step(x);
    }
  }

  /** Two inputs that share a hash and not a result: the second one is answered with the first one's result. */
  lemma SharedHashMisleads(cfg: Settings, step: Obj -> Obj, x: Obj, y: Obj)
    requires cfg.maxSize >= 1 && cfg.ttlSeconds >= 0.0
    requires cfg.hash(x) == cfg.hash(y) && step(x) != step(y)
    ensures exists ws: seq<World>, acts: seq<Action> ::
              IsRun(cfg, step, ws, acts) && |ws| == 4 && !Truthful(step, ws[3])
  {
    var acts := [BeforeStep("r", x, 0.0), AfterStep("r", 0.0, ""), BeforeStep("r", y, 0.0)];
    var w1 := Apply(cfg, step, Start, acts[0]);
    var w2 := Apply(cfg, step, w1, acts[1]);
    var w3 := Apply(cfg, step, w2, acts[2]);
    assert w2.cache.entries == map[cfg.hash(x) := CacheEntry(step(x), 0.0)];
    assert w3.open["r"] == OpenStep(y, Sentinel(step(x)));
    assert !Truthful(step, w3);
    var ws := [Start, w1, w2, w3];
    assert IsRun(cfg, step, ws, acts);
  }

  /**
   * The main result: a cache that can hold something is transparent, over every interleaving of
   * runs, exactly when inputs with the same hash have the same result.
   */
  lemma TransparentExactly(cfg: Settings, step: Obj -> Obj)
    requires cfg.maxSize >= 1 && cfg.ttlSeconds >= 0.0
    ensures Transparent(cfg, step) <==> HashDecides(cfg, step)
  {
    if HashDecides(cfg, step) {
      forall ws: seq<World>, acts: seq<Action>, i: nat | IsRun(cfg, step, ws, acts) && i < |ws|
        ensures Truthful(step, ws[i])
      {
        HitsAreResults(cfg, step, ws, acts, i);
      }
    } else {
      var x, y :| cfg.hash(x) == cfg.hash(y) && step(x) != step(y);
      SharedHashMisleads(cfg, step, x, y);
      var ws: seq<World>, acts: seq<Action> :| IsRun(cfg, step, ws, acts) && |ws| == 4 && !Truthful(step, ws[3]);
      assert !Transparent(cfg, step);
    }
  }

  /**
   * With the source's digest of namespace and dump, and no two dumps of one digest: the cache is
   * transparent exactly when the step depends on the dump of its input alone.
   */
  lemma TransparentOverDumps(cfg: Settings, step: Obj -> Obj, sha256: string -> string, dump: Obj -> string,
                             namespace: string)
    requires cfg.maxSize >= 1 && cfg.ttlSeconds >= 0.0
    requires forall x :: cfg.hash(x) == ComputeHash(sha256, dump, namespace, x)
    requires forall x, y :: ComputeHash(sha256, dump, namespace, x) == ComputeHash(sha256, dump, namespace, y) ==>
               dump(x) == dump(y)
    ensures Transparent(cfg, step) <==> forall x, y :: dump(x) == dump(y) ==> step(x) == step(y)
  {
    TransparentExactly(cfg, step);
    forall x, y
      ensures cfg.hash(x) == cfg.hash(y) <==> dump(x) == dump(y)
    {
      assert cfg.hash(x) == ComputeHash(sha256, dump, namespace, x) &&
          cfg.hash(y) == ComputeHash(sha256, dump, namespace, y);
    }
  }

  /** What a run gets from its step, cached or not. */
  lemma AnswerIsResult(cfg: Settings, step: Obj -> Obj, ws: seq<World>, acts: seq<Action>, i: nat)
    requires HashDecides(cfg, step) && IsRun(cfg, step, ws, acts) && i < |acts| && acts[i].AfterStep?
    ensures var o := ws[i].open[acts[i].runId];
            var answer := After(cfg, ws[i].cache, acts[i].runId, Computed(step, o), acts[i].now, acts[i].victim).1;
            answer == Some(step(o.input)) ||
            (answer == None && cfg.maxSize <= 0 && o.passed.Plain?)
  {
    HitsAreResults(cfg, step, ws, acts, i);
  }

  /* ---------- Where a hit comes from ---------- */

  /** The entry under `h` was stored by the `k`-th action, for an input with this hash, at the entry's time. */
  ghost predicate StoredAt(cfg: Settings, step: Obj -> Obj, ws: seq<World>, acts: seq<Action>, k: int, h: string,
                           e: CacheEntry)
    requires |ws| == |acts| + 1
  {
    && 0 <= k < |acts| && acts[k].AfterStep? && acts[k].runId in ws[k].open
    && ws[k].open[acts[k].runId].passed.Plain?
    && cfg.hash(ws[k].open[acts[k].runId].input) == h
    && e == CacheEntry(step(ws[k].open[acts[k].runId].input), acts[k].now)
  }

  lemma EntriesAfter(cfg: Settings, step: Obj -> Obj, w: World, a: Action, h: string)
    requires Filed(cfg, step, w) && Enabled(w, a) && h in Apply(cfg, step, w, a).cache.entries
    ensures var e := Apply(cfg, step, w, a).cache.entries[h];
            || (h in w.cache.entries && e == w.cache.entries[h])
            || (a.AfterStep? && w.open[a.runId].passed.Plain? && cfg.hash(w.open[a.runId].input) == h &&
                e == CacheEntry(step(w.open[a.runId].input), a.now))
  {
    hide StoredFor, Oldest;
  }

  lemma {:induction false} EntryProvenance(
    cfg: Settings, step: Obj -> Obj, ws: seq<World>, acts: seq<Action>, i: nat, h: string) returns (k: nat)
    requires IsRun(cfg, step, ws, acts) && i < |ws| && h in ws[i].cache.entries
    ensures k < i && StoredAt(cfg, step, ws, acts, k, h, ws[i].cache.entries[h])
  {
    FiledAlong(cfg, step, ws, acts, i - 1);
    hide Filed, Apply, StoredFor, Oldest;
    assert ws[i] == Apply(cfg, step, ws[i - 1], acts[i - 1]);
    EntriesAfter(cfg, step, ws[i - 1], acts[i - 1], h);
    var before, e := ws[i - 1], ws[i].cache.entries[h];
    if h in before.cache.entries && e == before.cache.entries[h] {
      k := EntryProvenance(cfg, step, ws, acts, i - 1, h);
      hide StoredAt;
    } else {
      k := i - 1;
      assert acts[k].AfterStep? && acts[k].runId in before.open by { hide StoredAt; }
      assert StoredAt(cfg, step, ws, acts, k, h, e);
    }
  }

  /**
   * A lookup hits exactly when an unexpired entry has its hash, and then an earlier step, of this or
   * another run, computed and stored that very result, no longer ago than the time to live.
   */
  lemma HitsAreFresh(cfg: Settings, step: Obj -> Obj, ws: seq<World>, acts: seq<Action>, i: nat)
    requires IsRun(cfg, step, ws, acts) && i < |acts| && acts[i].BeforeStep?
    ensures var got := ws[i + 1].open[acts[i].runId].passed;
            var h := cfg.hash(acts[i].input);
            && (got.Sentinel? <==> h in ws[i].cache.entries &&
                                   acts[i].now <= ws[i].cache.entries[h].createdAt + cfg.ttlSeconds)
            && (got.Sentinel? ==>
                  exists k, e :: 0 <= k < i && StoredAt(cfg, step, ws, acts, k, h, e) &&
                                 got.value == e.result && acts[i].now <= acts[k].now + cfg.ttlSeconds)
            && (got.Plain? ==> got.value == acts[i].input)
  {
    var h := cfg.hash(acts[i].input);
    if h in ws[i].cache.entries {
      var k := EntryProvenance(cfg, step, ws, acts, i, h);
      assert StoredAt(cfg, step, ws, acts, k, h, ws[i].cache.entries[h]);
    }
  }

  /* ---------- What each step leaves of the entries and the counters ---------- */

  /** A lookup counts a hit or a miss; it removes nothing but an expired entry of its own hash, and counts that. */
  lemma LookupCounted(cfg: Settings, c: Cache, runId: string, input: Obj, now: real)
    ensures var (after, passed) := Before(cfg, c, runId, input, now);
            var h := cfg.hash(input);
            var expired := h in c.entries && now > c.entries[h].createdAt + cfg.ttlSeconds;
            && after.entries == (if expired then c.entries - {h} else c.entries)
            && after.stats.hits == c.stats.hits + (if passed.Sentinel? then 1 else 0)
            && after.stats.misses == c.stats.misses + (if passed.Plain? then 1 else 0)
            && after.stats.evictions == c.stats.evictions + (if expired then 1 else 0)
            && after.pending == c.pending[runId := h]
  {
  }

  /**
   * Storing: the result is filed under the pending hash at the current time, every other entry stays
   * except the victim of a full cache, whose eviction is counted.
   */
  lemma StoringExactly(cfg: Settings, c: Cache, runId: string, v: Obj, now: real, victim: string)
    requires runId in c.pending && cfg.maxSize >= 1 && (c.entries != map[] ==> victim in c.entries)
    ensures var after := After(cfg, c, runId, Plain(v), now, victim).0;
            var h, full := c.pending[runId], |c.entries| >= cfg.maxSize;
            && h in after.entries && after.entries[h] == CacheEntry(v, now)
            && (forall k :: k != h ==>
                  && (k in after.entries <==> k in c.entries && !(full && k == victim))
                  && (k in after.entries ==> after.entries[k] == c.entries[k]))
            && after.stats == c.stats.(evictions := c.stats.evictions + if full then 1 else 0)
            && after.pending == c.pending - {runId}
  {
  }

  /** Invalidating removes the entry of the input's hash, and nothing else. */
  lemma InvalidateExactly(cfg: Settings, c: Cache, input: Obj)
    ensures var after, h := Invalidate(cfg, c, input), cfg.hash(input);
            && h !in after.entries && after.pending == c.pending && after.stats == c.stats
            && (forall k :: k != h ==> (k in after.entries <==> k in c.entries))
            && (forall k :: k in after.entries ==> after.entries[k] == c.entries[k])
  {
  }

  lemma AbsentMisses(cfg: Settings, step: Obj -> Obj, w: World, a: Action)
    requires Enabled(w, a) && a.BeforeStep? && cfg.hash(a.input) !in w.cache.entries
    ensures Apply(cfg, step, w, a).open[a.runId].passed == Plain(a.input)
  {
  }

  /** The action ends a step of an input with this hash. */
  ghost predicate EndsWithHash(cfg: Settings, w: World, a: Action, h: string) {
    a.AfterStep? && a.runId in w.open && cfg.hash(w.open[a.runId].input) == h
  }

  lemma StaysAbsent(cfg: Settings, step: Obj -> Obj, w: World, a: Action, h: string)
    requires Filed(cfg, step, w) && Enabled(w, a) && h !in w.cache.entries && !EndsWithHash(cfg, w, a, h)
    ensures h !in Apply(cfg, step, w, a).cache.entries
  {
    if h in Apply(cfg, step, w, a).cache.entries {
      EntriesAfter(cfg, step, w, a, h);
    }
  }

  lemma {:induction false} AbsentAlong(cfg: Settings, step: Obj -> Obj, ws: seq<World>, acts: seq<Action>,
                                       i: nat, j: nat, h: string)
    requires IsRun(cfg, step, ws, acts) && i <= j < |ws| && h !in ws[i].cache.entries
    requires forall k :: i <= k < j ==> !EndsWithHash(cfg, ws[k], acts[k], h)
    ensures h !in ws[j].cache.entries
    decreases j
  {
    if i < j {
      hide Apply, Filed, Enabled, EndsWithHash;
      AbsentAlong(cfg, step, ws, acts, i, j - 1, h);
      FiledAlong(cfg, step, ws, acts, j - 1);
      StaysAbsent(cfg, step, ws[j - 1], acts[j - 1], h);
    }
  }

  /** An invalidated input misses, whoever asks, until a step with its hash ends. */
  lemma InvalidatedMisses(cfg: Settings, step: Obj -> Obj, ws: seq<World>, acts: seq<Action>, i: nat, j: nat)
    requires IsRun(cfg, step, ws, acts) && i < j < |acts| && acts[i].InvalidateInput? && acts[j].BeforeStep?
    requires cfg.hash(acts[j].input) == cfg.hash(acts[i].input)
    requires forall k :: i < k < j ==> !EndsWithHash(cfg, ws[k], acts[k], cfg.hash(acts[i].input))
    ensures ws[j + 1].open[acts[j].runId].passed == Plain(acts[j].input)
  {
    var h := cfg.hash(acts[i].input);
    assert h !in ws[i + 1].cache.entries by {
      assert ws[i + 1] == Apply(cfg, step, ws[i], acts[i]);
      InvalidateExactly(cfg, ws[i].cache, acts[i].input);
    }
    hide Apply, EndsWithHash;
    AbsentAlong(cfg, step, ws, acts, i + 1, j, h);
    assert ws[j + 1] == Apply(cfg, step, ws[j], acts[j]);
    AbsentMisses(cfg, step, ws[j], acts[j]);
  }

  /** Namespaces without a colon keep their caches apart, and within one it is the dump that counts. */
  lemma NamespacesSeparate(sha256: string -> string, dump: Obj -> string, n1: string, n2: string, x: Obj, y: Obj)
    requires ':' !in n1 && ':' !in n2
    requires sha256(n1 + ":" + dump(x)) == sha256(n2 + ":" + dump(y)) ==> n1 + ":" + dump(x) == n2 + ":" + dump(y)
    ensures ComputeHash(sha256, dump, n1, x) == ComputeHash(sha256, dump, n2, y) <==> n1 == n2 && dump(x) == dump(y)
  {
    if n1 + ":" + dump(x) == n2 + ":" + dump(y) {
      var t := n1 + ":" + dump(x);
      assert t[|n1|] == ':' && t[|n2|] == ':';
      assert forall i :: 0 <= i < |n1| ==> t[i] == n1[i];
      assert forall i :: 0 <= i < |n2| ==> t[i] == n2[i];
      assert |n1| == |n2|;
      assert n1 == t[..|n1|] && n2 == t[..|n2|];
      assert dump(x) == t[|n1| + 1..] && dump(y) == t[|n2| + 1..];
    }
  }

  /* ---------- Failing and clearing ---------- */

  /** A failed step stores nothing, neither at once nor when a result for its run comes in late. */
  lemma FailedStepStoresNothing(cfg: Settings, step: Obj -> Obj, ws: seq<World>, acts: seq<Action>, i: nat,
                                late: Obj, now: real, victim: string)
    requires IsRun(cfg, step, ws, acts) && i < |acts| && acts[i].StepFails?
    ensures ws[i + 1].cache.entries == ws[i].cache.entries
    ensures After(cfg, ws[i + 1].cache, acts[i].runId, Plain(late), now, victim) == (ws[i + 1].cache, Some(late))
  {
  }

  /** From a clearing on every lookup misses, until the next step ends. */
  lemma {:induction false} ClearedCacheMisses(cfg: Settings, step: Obj -> Obj, ws: seq<World>, acts: seq<Action>,
                                              i: nat, j: nat)
    requires IsRun(cfg, step, ws, acts) && i < j < |ws| && acts[i].ClearCache?
    requires forall k :: i < k < j ==> !acts[k].AfterStep?
    ensures ws[j].cache.entries == map[]
    ensures j < |acts| && acts[j].BeforeStep? ==> ws[j + 1].open[acts[j].runId].passed == Plain(acts[j].input)
    decreases j
  {
    if i + 1 < j {
      ClearedCacheMisses(cfg, step, ws, acts, i, j - 1);
    }
  }

  /* ---------- Size ---------- */

  lemma SizeStep(cfg: Settings, step: Obj -> Obj, w: World, a: Action)
    requires Enabled(w, a) && |w.cache.entries| <= Bound(cfg)
    ensures |Apply(cfg, step, w, a).cache.entries| <= Bound(cfg)
  {
    match a
    case BeforeStep(_, input, _) => FewerOrEqual(w.cache.entries, cfg.hash(input));
    case AfterStep(runId, now, victim) => SizeAfter(cfg, w.cache, runId, Computed(step, w.open[runId]), now, victim);
    case InvalidateInput(input) => FewerOrEqual(w.cache.entries, cfg.hash(input));
    case _ =>
  }

  /** The cache never holds more than its maximum, nor anything at all if that is not positive. */
  lemma {:induction false} SizeBounded(cfg: Settings, step: Obj -> Obj, ws: seq<World>, acts: seq<Action>, i: nat)
    requires IsRun(cfg, step, ws, acts) && i < |ws|
    ensures |ws[i].cache.entries| <= Bound(cfg)
  {
    if i > 0 {
      SizeBounded(cfg, step, ws, acts, i - 1);
      SizeStep(cfg, step, ws[i - 1], acts[i - 1]);
    }
  }

  /** Storing raises exactly in a cache whose maximum is not positive. */
  lemma StoringFailsExactly(cfg: Settings, step: Obj -> Obj, ws: seq<World>, acts: seq<Action>, i: nat)
    requires IsRun(cfg, step, ws, acts) && i < |acts| && acts[i].AfterStep?
    requires ws[i].open[acts[i].runId].passed.Plain?
    ensures var o := ws[i].open[acts[i].runId];
            After(cfg, ws[i].cache, acts[i].runId, Computed(step, o), acts[i].now, acts[i].victim).1 == None
            <==> cfg.maxSize <= 0
  {
    FiledAlong(cfg, step, ws, acts, i);
    SizeBounded(cfg, step, ws, acts, i);
  }

  /* ---------- Counters ---------- */

  function CountBefore(acts: seq<Action>): nat {
    if acts == [] then 0 else CountBefore(acts[..|acts| - 1]) + (if acts[|acts| - 1].BeforeStep? then 1 else 0)
  }

  /** Hits and misses together count the lookups. */
  lemma {:induction false} TotalCountsLookups(cfg: Settings, step: Obj -> Obj, ws: seq<World>, acts: seq<Action>,
                                              i: nat)
    requires IsRun(cfg, step, ws, acts) && i < |ws|
    ensures ws[i].cache.stats.Total() == CountBefore(acts[..i])
  {
    if i > 0 {
      TotalCountsLookups(cfg, step, ws, acts, i - 1);
      assert acts[..i][..i - 1] == acts[..i - 1];
    }
  }

  /* ---------- The object in use ---------- */

  lemma RunExtends(cfg: Settings, step: Obj -> Obj, ws: seq<World>, acts: seq<Action>, a: Action)
    requires IsRun(cfg, step, ws, acts) && Enabled(ws[|acts|], a)
    ensures IsRun(cfg, step, ws + [Apply(cfg, step, ws[|acts|], a)], acts + [a])
  {
    hide Apply, Enabled;
  }

  lemma AnswerNow(cfg: Settings, step: Obj -> Obj, ws: seq<World>, acts: seq<Action>, a: Action)
    requires IsRun(cfg, step, ws, acts) && Enabled(ws[|acts|], a) && a.AfterStep?
    requires HashDecides(cfg, step) && cfg.maxSize >= 1
    ensures var o := ws[|acts|].open[a.runId];
            After(cfg, ws[|acts|].cache, a.runId, Computed(step, o), a.now, a.victim).1 == Some(step(o.input))
  {
    RunExtends(cfg, step, ws, acts, a);
    hide Apply, Enabled, HashDecides;
    AnswerIsResult(cfg, step, ws + [Apply(cfg, step, ws[|acts|], a)], acts + [a], |acts|);
  }

  /**
   * Serves a cache to any number of runs, in the order of the requests; one that comes out of turn
   * (a second lookup of an open run, an end of one that is not open) is passed over. What the
   * object does is a run of the protocol, so everything proved of runs holds of the object; and
   * where the hash decides the result, every answer is the uncached one.
   */
  method Serve(cache: ExactCacheObject, step: Obj -> Obj, requests: seq<Action>)
    returns (answers: seq<(Obj, Option<Obj>)>, ghost ws: seq<World>, ghost acts: seq<Action>)
    requires cache.Valid() && cache.View() == EMPTY
    modifies cache
    ensures cache.Valid() && IsRun(cache.settings, step, ws, acts) && ws[|acts|].cache == cache.View()
    ensures HashDecides(cache.settings, step) && cache.settings.maxSize >= 1 ==>
              forall k :: 0 <= k < |answers| ==> answers[k].1 == Some(step(answers[k].0))
  {
    hide HashDecides, Before, After, OnError, Invalidate, Clear;
    var open: map<string, OpenStep> := map[];
    answers, ws, acts := [], [Start], [];
    for i := 0 to |requests|
      invariant cache.Valid() && IsRun(cache.settings, step, ws, acts)
      invariant ws[|acts|] == World(cache.View(), open)
      invariant HashDecides(cache.settings, step) && cache.settings.maxSize >= 1 ==>
                  forall k :: 0 <= k < |answers| ==> answers[k].1 == Some(step(answers[k].0))
    {
      ghost var w, done := ws[|acts|], requests[i];
      ghost var moved := true;
      match requests[i] {
        case BeforeStep(runId, input, now) =>
          if runId in open {
            moved := false;
          } else {
            var passed := cache.BeforeStep(input, runId, now);
            open := open[runId := OpenStep(input, passed)];
          }
        case AfterStep(runId, now, _) =>
          if runId !in open {
            moved := false;
          } else {
            var o := open[runId];
            PendingIsOpenInput(cache.settings, step, ws, acts, |acts|, runId);
            var result, victim := cache.AfterStep(Computed(step, o), runId, now);
            done := AfterStep(runId, now, victim);
            open := open - {runId};
            answers := answers + [(o.input, result)];
            if HashDecides(cache.settings, step) && cache.settings.maxSize >= 1 {
              AnswerNow(cache.settings, step, ws, acts, done);
            }
          }
        case StepFails(runId) =>
          if runId !in open {
            moved := false;
          } else {
            cache.OnErrorStep(runId);
            open := open - {runId};
          }
        case InvalidateInput(input) =>
          var _ := cache.InvalidateEntry(input);
        case ClearCache =>
          cache.ClearAll();
      }
      if moved {
        RunExtends(cache.settings, step, ws, acts, done);
        assert Apply(cache.settings, step, w, done) == World(cache.View(), open);
        ws, acts := ws + [World(cache.View(), open)], acts + [done];
      }
    }
  }
}
