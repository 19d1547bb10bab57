/**
 * What interleaved runs get from the similarity cache, and the one way in which a result is filed
 * under a text it does not belong to.
 */
module SemanticCacheProtocol {
  import opened Wrappers
  import opened CacheTypes
  import opened CosineSimilarity
  import opened SemanticCache

  /** The cached step and the embedding, as functions of the input text, and the cache's settings. */
  datatype Setup = Setup(cfg: SemanticSettings, step: string -> Obj, embed: string -> seq<real>)

  /** A run between its `before_step` and the end of its step: its text, and the result that was found. */
  datatype OpenStep = OpenStep(text: string, hit: Option<Obj>)

  datatype World = World(store: Store, open: map<string, OpenStep>, clock: real)

  /** `embeds` says whether the embedding call succeeds. */
  datatype Action =
    | BeforeStep(runId: string, text: string, embeds: bool, now: real)
    | AfterStep(runId: string, now: real)
    | StepFails(runId: string)
    | ClearCache

  /** Each run alternates before and after-or-error, and the monotonic clock does not go back. */
  predicate Enabled(w: World, a: Action) {
    match a
    case BeforeStep(runId, _, _, now) => runId !in w.open && now >= w.clock
    case AfterStep(runId, now) => runId in w.open && now >= w.clock
    case StepFails(runId) => runId in w.open
    case ClearCache => true
  }

  function Apply(s: Setup, w: World, a: Action): World
    requires Enabled(w, a)
  {
    match a
    case BeforeStep(runId, text, embeds, now) =>
      var (store, hit) := Before(s.cfg, w.store, runId, text, if embeds then Some(s.embed(text)) else None, now);
      World(store, w.open[runId := OpenStep(text, hit)], now)
    case AfterStep(runId, now) =>
      var o := w.open[runId];
      World(if o.hit.Some? then w.store else After(s.cfg, w.store, runId, s.step(o.text), now).0, w.open - {runId}, now)
    case StepFails(runId) =>
      w.(store := w.store.(pending := w.store.pending - {runId}), open := w.open - {runId})
    case ClearCache => w.(store := w.store.(entries := []))
  }

  ghost predicate IsRun(s: Setup, ws: seq<World>, acts: seq<Action>) {
    && |ws| == |acts| + 1
    && ws[0].store == NOTHING && ws[0].open == map[]
    && forall i :: 0 <= i < |acts| ==> Enabled(ws[i], acts[i]) && ws[i + 1] == Apply(s, ws[i], acts[i])
  }

  /* ---------- Filing ---------- */

  /** The entry holds its text's own result and embedding. */
  ghost predicate Belongs(s: Setup, e: Entry) {
    e.result == s.step(e.inputText) && e.embedding == s.embed(e.inputText)
  }

  /** A cached result that similarity may return for `text`: the result of a text that scores at least the threshold. */
  ghost predicate Similar(s: Setup, text: string, result: Obj) {
    exists y :: result == s.step(y) && Cosine(s.cfg.sqrt, s.embed(text), s.embed(y)) >= s.cfg.threshold
  }

  ghost predicate EntriesBelong(s: Setup, w: World) {
    forall e :: e in w.store.entries ==> Belongs(s, e)
  }

  /** A run whose step is being executed will file its result, if at all, under its own text. */
  ghost predicate PendingFits(s: Setup, w: World) {
    && (forall r :: r in w.store.pending ==> w.store.pending[r].embedding == s.embed(w.store.pending[r].inputText))
    && (forall r :: r in w.open && w.open[r].hit.None? && r in w.store.pending ==>
          w.store.pending[r].inputText == w.open[r].text)
  }

  ghost predicate HitsSimilar(s: Setup, w: World) {
    forall r :: r in w.open && w.open[r].hit.Some? ==> Similar(s, w.open[r].text, w.open[r].hit.value)
  }

  ghost predicate Filed(s: Setup, w: World) {
    EntriesBelong(s, w) && PendingFits(s, w) && HitsSimilar(s, w)
  }

  /**
   * The embedding fails while the run still has the text of an earlier step pending. Nothing is
   * stored yet, but what is pending no longer fits.
   */
  ghost predicate Misfiles(w: World, a: Action) {
    a.BeforeStep? && !a.embeds && a.runId in w.store.pending && w.store.pending[a.runId].inputText != a.text
  }

  lemma HitIsSimilar(s: Setup, w: World, text: string, entries: seq<Entry>)
    requires 0.0 <= s.cfg.threshold && forall e :: e in entries ==> Belongs(s, e)
    ensures var hit := Match(s.cfg, s.embed(text), entries);
            hit.Some? ==> hit.value < |entries| && Similar(s, text, entries[hit.value].result)
  {
    MatchExactly(s.cfg, s.embed(text), entries);
    var hit := Match(s.cfg, s.embed(text), entries);
    hide Match, Cosine;
    if hit.Some? {
      var e := entries[hit.value];
      assert e in entries && Belongs(s, e);
      assert Score(s.cfg, s.embed(text), e) == Cosine(s.cfg.sqrt, s.embed(text), s.embed(e.inputText));
    }
  }

  lemma FiledBefore(s: Setup, w: World, runId: string, text: string, embeds: bool, now: real)
    requires 0.0 <= s.cfg.threshold && Filed(s, w) && runId !in w.open && now >= w.clock
    ensures var a := BeforeStep(runId, text, embeds, now);
            Filed(s, Apply(s, w, a)) <==> !Misfiles(w, a)
  {
    var next := Apply(s, w, BeforeStep(runId, text, embeds, now));
    var kept := Unexpired(s.cfg, w.store.entries, now);
    forall e
      ensures e in kept <==> e in w.store.entries && Live(s.cfg, e, now)
    {
      UnexpiredExactly(s.cfg, w.store.entries, now, e);
    }
    HitIsSimilar(s, w, text, kept);
    MatchInRange(s.cfg, s.embed(text), kept);
    hide Belongs, Similar, Match, Unexpired, Live;
  }

  /** On chronological entries, making room drops the first entry of a full cache. */
  lemma EvictShape(cfg: SemanticSettings, c: Store)
    requires Chronological(c.entries)
    ensures |c.entries| < cfg.maxSize ==> Evict(cfg, c) == Some(c)
    ensures |c.entries| >= cfg.maxSize && c.entries == [] ==> Evict(cfg, c) == None
    ensures |c.entries| >= cfg.maxSize && c.entries != [] ==>
              Evict(cfg, c) ==
              Some(c.(entries := c.entries[1..], stats := c.stats.(evictions := c.stats.evictions + 1)))
  {
    SortOfChronological(c.entries);
    hide SortByAge, Chronological;
  }

  /** On chronological entries, storing drops the first entry of a full cache, counts that, and appends the new one. */
  lemma AfterShape(cfg: SemanticSettings, c: Store, runId: string, result: Obj, now: real)
    requires Chronological(c.entries)
    ensures var d := After(cfg, c, runId, result, now).0;
            && d.pending == c.pending - {runId}
            && (runId !in c.pending ==> d.entries == c.entries && d.stats == c.stats)
    ensures runId in c.pending ==>
              var d := After(cfg, c, runId, result, now).0;
              var e := Entry(c.pending[runId].inputText, c.pending[runId].embedding, result, now);
              && (|c.entries| < cfg.maxSize ==> d.entries == c.entries + [e] && d.stats == c.stats)
              && (|c.entries| >= cfg.maxSize && c.entries == [] ==> d.entries == [] && d.stats == c.stats)
              && (|c.entries| >= cfg.maxSize && c.entries != [] ==>
                    d.entries == c.entries[1..] + [e] && d.stats == c.stats.(evictions := c.stats.evictions + 1))
  {
    EvictShape(cfg, c.(pending := c.pending - {runId}));
    hide Evict, Chronological;
  }

  lemma FiledAfter(s: Setup, w: World, runId: string, now: real)
    requires Filed(s, w) && runId in w.open && now >= w.clock && Chronological(w.store.entries)
    ensures Filed(s, Apply(s, w, AfterStep(runId, now)))
  {
    var o := w.open[runId];
    AfterShape(s.cfg, w.store, runId, s.step(o.text), now);
    hide After, Similar, Chronological;
    if o.hit.None? && runId in w.store.pending {
      assert Belongs(s, Entry(w.store.pending[runId].inputText, w.store.pending[runId].embedding, s.step(o.text), now));
    }
    hide Belongs;
  }

  /** A step keeps entries, pending texts and hits fitting exactly when it is not that one kind of step. */
  lemma FiledStep(s: Setup, w: World, a: Action)
    requires 0.0 <= s.cfg.threshold && Filed(s, w) && Enabled(w, a) && Chronological(w.store.entries)
    ensures Filed(s, Apply(s, w, a)) <==> !Misfiles(w, a)
  {
    match a
    case BeforeStep(runId, text, embeds, now) => FiledBefore(s, w, runId, text, embeds, now);
    case AfterStep(runId, now) => FiledAfter(s, w, runId, now);
    case _ => hide Belongs, Similar;
  }

  /* ---------- Order and size ---------- */

  /** Entries are in the order of their times, none later than the clock, and not more than the maximum. */
  ghost predicate InOrder(s: Setup, w: World) {
    && Chronological(w.store.entries)
    && (forall i :: 0 <= i < |w.store.entries| ==> w.store.entries[i].createdAt <= w.clock)
    && |w.store.entries| <= if s.cfg.maxSize >= 0 then s.cfg.maxSize else 0
  }

  lemma {:induction false} UnexpiredKeepsOrder(cfg: SemanticSettings, entries: seq<Entry>, now: real, clock: real)
    requires Chronological(entries) && forall i :: 0 <= i < |entries| ==> entries[i].createdAt <= clock
    ensures Chronological(Unexpired(cfg, entries, now)) && |Unexpired(cfg, entries, now)| <= |entries|
    ensures forall i :: 0 <= i < |Unexpired(cfg, entries, now)| ==> Unexpired(cfg, entries, now)[i].createdAt <= clock
  {
    if entries != [] {
      var front, last := entries[..|entries| - 1], entries[|entries| - 1];
      UnexpiredKeepsOrder(cfg, front, now, last.createdAt);
      UnexpiredKeepsOrder(cfg, front, now, clock);
    }
  }

  lemma InOrderAfter(s: Setup, w: World, runId: string, now: real)
    requires InOrder(s, w) && runId in w.open && now >= w.clock
    ensures InOrder(s, Apply(s, w, AfterStep(runId, now)))
  {
    AfterShape(s.cfg, w.store, runId, s.step(w.open[runId].text), now);
    hide After;
  }

  lemma InOrderBefore(s: Setup, w: World, runId: string, text: string, embeds: bool, now: real)
    requires InOrder(s, w) && runId !in w.open && now >= w.clock
    ensures InOrder(s, Apply(s, w, BeforeStep(runId, text, embeds, now)))
  {
    UnexpiredKeepsOrder(s.cfg, w.store.entries, now, w.clock);
    hide Match, Unexpired;
  }

  lemma InOrderStep(s: Setup, w: World, a: Action)
    requires InOrder(s, w) && Enabled(w, a)
    ensures InOrder(s, Apply(s, w, a))
  {
    match a
    case BeforeStep(runId, text, embeds, now) => InOrderBefore(s, w, runId, text, embeds, now);
    case AfterStep(runId, now) => InOrderAfter(s, w, runId, now);
    case _ =>
  }

  lemma {:induction false} InOrderAlong(s: Setup, ws: seq<World>, acts: seq<Action>, i: nat)
    requires IsRun(s, ws, acts) && i < |ws|
    ensures InOrder(s, ws[i])
  {
    if i > 0 {
      InOrderAlong(s, ws, acts, i - 1);
      InOrderStep(s, ws[i - 1], acts[i - 1]);
    }
  }

  /** In every run the cache stays within its maximum, and what an eviction removes is an oldest entry. */
  lemma EvictsOldest(s: Setup, ws: seq<World>, acts: seq<Action>, i: nat)
    requires IsRun(s, ws, acts) && i < |ws|
    ensures var entries := ws[i].store.entries;
            && |entries| <= (if s.cfg.maxSize >= 0 then s.cfg.maxSize else 0)
            && (Evict(s.cfg, ws[i].store).None? <==> s.cfg.maxSize <= 0)
            && (|entries| == s.cfg.maxSize > 0 ==>
                  && Evict(s.cfg, ws[i].store).value.entries == entries[1..]
                  && forall k :: 0 <= k < |entries| ==> entries[0].createdAt <= entries[k].createdAt)
  {
    InOrderAlong(s, ws, acts, i);
    SortOfChronological(ws[i].store.entries);
  }

  /* ---------- Over whole runs ---------- */

  /** Entries, pending texts and hits fit in every world of a run exactly when no step misfiles. */
  lemma {:induction false} FiledExactly(s: Setup, ws: seq<World>, acts: seq<Action>)
    requires 0.0 <= s.cfg.threshold && IsRun(s, ws, acts)
    ensures (forall i :: 0 <= i < |ws| ==> Filed(s, ws[i])) <==>
            (forall i :: 0 <= i < |acts| ==> !Misfiles(ws[i], acts[i]))
  {
    hide Filed, Misfiles, Apply, InOrder;
    if forall i :: 0 <= i < |acts| ==> !Misfiles(ws[i], acts[i]) {
      forall i | 0 <= i < |ws|
        ensures Filed(s, ws[i])
      {
        FiledAlong(s, ws, acts, i);
      }
    } else {
      var i :| 0 <= i < |acts| && Misfiles(ws[i], acts[i]);
      OrderAt(s, ws, acts, i);
      if Filed(s, ws[i]) {
        FiledStep(s, ws[i], acts[i]);
        assert !Filed(s, ws[i + 1]);
      }
    }
  }

  lemma OrderAt(s: Setup, ws: seq<World>, acts: seq<Action>, i: nat)
    requires IsRun(s, ws, acts) && i < |ws|
    ensures Chronological(ws[i].store.entries)
  {
    InOrderAlong(s, ws, acts, i);
  }

  lemma {:induction false} FiledAlong(s: Setup, ws: seq<World>, acts: seq<Action>, n: nat)
    requires 0.0 <= s.cfg.threshold && IsRun(s, ws, acts) && n < |ws|
    requires forall i :: 0 <= i < n ==> !Misfiles(ws[i], acts[i])
    ensures Filed(s, ws[n])
  {
    if n > 0 {
      FiledAlong(s, ws, acts, n - 1);
      OrderAt(s, ws, acts, n - 1);
      hide Filed, Misfiles, Apply;
      FiledStep(s, ws[n - 1], acts[n - 1]);
    }
  }

  /* ---------- What is stored ---------- */

  /** The step that ends is stored, under another text, whose result differs. */
  predicate StoresForeign(s: Setup, w: World, a: Action) {
    && a.AfterStep? && a.runId in w.open && w.open[a.runId].hit.None? && a.runId in w.store.pending
    && s.cfg.maxSize >= 1
    && s.step(w.store.pending[a.runId].inputText) != s.step(w.open[a.runId].text)
  }

  /** A pending embedding is that of the pending text. */
  ghost predicate PendingEmbeds(s: Setup, w: World) {
    forall r :: r in w.store.pending ==> w.store.pending[r].embedding == s.embed(w.store.pending[r].inputText)
  }

  lemma StoredAfter(s: Setup, w: World, runId: string, now: real)
    requires EntriesBelong(s, w) && PendingEmbeds(s, w) && InOrder(s, w) && runId in w.open && now >= w.clock
    ensures EntriesBelong(s, Apply(s, w, AfterStep(runId, now))) <==> !StoresForeign(s, w, AfterStep(runId, now))
  {
    var o, next := w.open[runId], Apply(s, w, AfterStep(runId, now));
    AfterShape(s.cfg, w.store, runId, s.step(o.text), now);
    hide After, Chronological;
    if o.hit.None? && runId in w.store.pending {
      var p := w.store.pending[runId];
      var e := Entry(p.inputText, p.embedding, s.step(o.text), now);
      assert Belongs(s, e) <==> s.step(p.inputText) == s.step(o.text);
      assert s.cfg.maxSize >= 1 ==> next.store.entries[|next.store.entries| - 1] == e;
      hide Belongs;
    }
  }

  /** A step leaves every stored result that of its own text exactly when it does not store a foreign one. */
  lemma StoredStep(s: Setup, w: World, a: Action)
    requires EntriesBelong(s, w) && PendingEmbeds(s, w) && InOrder(s, w) && Enabled(w, a)
    ensures EntriesBelong(s, Apply(s, w, a)) <==> !StoresForeign(s, w, a)
  {
    match a
    case BeforeStep(runId, text, embeds, now) =>
      forall e
        ensures e in Unexpired(s.cfg, w.store.entries, now) ==> e in w.store.entries
      {
        UnexpiredExactly(s.cfg, w.store.entries, now, e);
      }
      hide Match, Unexpired, Belongs;
    case AfterStep(runId, now) => StoredAfter(s, w, runId, now);
    case _ => hide Belongs;
  }

  lemma PendingEmbedsStep(s: Setup, w: World, a: Action)
    requires PendingEmbeds(s, w) && Enabled(w, a)
    ensures PendingEmbeds(s, Apply(s, w, a))
  {
    hide Match, Unexpired, SortByAge;
  }

  lemma {:induction false} PendingEmbedsAlong(s: Setup, ws: seq<World>, acts: seq<Action>, i: nat)
    requires IsRun(s, ws, acts) && i < |ws|
    ensures PendingEmbeds(s, ws[i])
  {
    if i > 0 {
      PendingEmbedsAlong(s, ws, acts, i - 1);
      hide Apply;
      PendingEmbedsStep(s, ws[i - 1], acts[i - 1]);
    }
  }

  lemma {:induction false} StoredAlong(s: Setup, ws: seq<World>, acts: seq<Action>, n: nat)
    requires IsRun(s, ws, acts) && n < |ws|
    requires forall i :: 0 <= i < n ==> !StoresForeign(s, ws[i], acts[i])
    ensures EntriesBelong(s, ws[n])
  {
    if n > 0 {
      StoredAlong(s, ws, acts, n - 1);
      PendingEmbedsAlong(s, ws, acts, n - 1);
      InOrderAlong(s, ws, acts, n - 1);
      hide Apply, StoresForeign, PendingEmbeds, InOrder;
      StoredStep(s, ws[n - 1], acts[n - 1]);
    }
  }

  /**
   * Every stored result is that of its text, in every world of a run, exactly when no step that
   * ends finds another text pending whose result differs.
   */
  lemma StoredExactly(s: Setup, ws: seq<World>, acts: seq<Action>)
    requires IsRun(s, ws, acts)
    ensures (forall i :: 0 <= i < |ws| ==> EntriesBelong(s, ws[i]))
            <==> (forall i :: 0 <= i < |acts| ==> !StoresForeign(s, ws[i], acts[i]))
  {
    if forall i :: 0 <= i < |acts| ==> !StoresForeign(s, ws[i], acts[i]) {
      forall i | 0 <= i < |ws|
        ensures EntriesBelong(s, ws[i])
      {
        StoredAlong(s, ws, acts, i);
      }
    } else {
      hide Apply, StoresForeign, PendingEmbeds, InOrder, EntriesBelong;
      var i :| 0 <= i < |acts| && StoresForeign(s, ws[i], acts[i]);
      PendingEmbedsAlong(s, ws, acts, i);
      InOrderAlong(s, ws, acts, i);
      if EntriesBelong(s, ws[i]) {
        StoredStep(s, ws[i], acts[i]);
        assert !EntriesBelong(s, ws[i + 1]);
      }
    }
  }

  /** A foreign result is stored only after an embedding has failed over a pending text. */
  lemma ForeignNeedsFailure(s: Setup, ws: seq<World>, acts: seq<Action>, i: nat)
    requires 0.0 <= s.cfg.threshold && IsRun(s, ws, acts) && i < |acts| && StoresForeign(s, ws[i], acts[i])
    ensures exists k :: 0 <= k < i && Misfiles(ws[k], acts[k])
  {
    if forall k :: 0 <= k < i ==> !Misfiles(ws[k], acts[k]) {
      FiledAlong(s, ws, acts, i);
    }
  }

  lemma SimilarStep(s: Setup, w: World, a: Action)
    requires 0.0 <= s.cfg.threshold && EntriesBelong(s, w) && HitsSimilar(s, w) && Enabled(w, a)
    ensures HitsSimilar(s, Apply(s, w, a))
  {
    if a.BeforeStep? && a.embeds {
      var kept := Unexpired(s.cfg, w.store.entries, a.now);
      forall e
        ensures e in kept ==> e in w.store.entries
      {
        UnexpiredExactly(s.cfg, w.store.entries, a.now, e);
      }
      HitIsSimilar(s, w, a.text, kept);
      MatchInRange(s.cfg, s.embed(a.text), kept);
    }
    hide Belongs, Similar, Match, Unexpired, After;
  }

  lemma {:induction false} SimilarAlong(s: Setup, ws: seq<World>, acts: seq<Action>, n: nat)
    requires 0.0 <= s.cfg.threshold && IsRun(s, ws, acts) && n < |ws|
    requires forall i :: 0 <= i < n ==> !StoresForeign(s, ws[i], acts[i])
    ensures HitsSimilar(s, ws[n])
  {
    if n > 0 {
      SimilarAlong(s, ws, acts, n - 1);
      StoredAlong(s, ws, acts, n - 1);
      hide Apply, StoresForeign, HitsSimilar, EntriesBelong;
      SimilarStep(s, ws[n - 1], acts[n - 1]);
    }
  }

  /** As long as no foreign result is stored, hits are results of texts that are similar enough. */
  lemma HitsAreSimilar(s: Setup, ws: seq<World>, acts: seq<Action>, i: nat, r: string)
    requires 0.0 <= s.cfg.threshold && IsRun(s, ws, acts) && i < |ws|
    requires forall k :: 0 <= k < i ==> !StoresForeign(s, ws[k], acts[k])
    requires r in ws[i].open && ws[i].open[r].hit.Some?
    ensures Similar(s, ws[i].open[r].text, ws[i].open[r].hit.value)
  {
    SimilarAlong(s, ws, acts, i);
  }

  /* ---------- Where a hit comes from ---------- */

  /** The entry was stored by the `k`-th action, with the result of the step that it ended, at the entry's time. */
  ghost predicate StoredAt(s: Setup, ws: seq<World>, acts: seq<Action>, k: int, e: Entry)
    requires |ws| == |acts| + 1
  {
    && 0 <= k < |acts| && acts[k].AfterStep? && acts[k].runId in ws[k].open
    && ws[k].open[acts[k].runId].hit.None? && acts[k].runId in ws[k].store.pending
    && var p := ws[k].store.pending[acts[k].runId];
       e == Entry(p.inputText, p.embedding, s.step(ws[k].open[acts[k].runId].text), acts[k].now)
  }

  lemma EntriesAfter(s: Setup, w: World, a: Action, e: Entry)
    requires InOrder(s, w) && Enabled(w, a) && e in Apply(s, w, a).store.entries
    ensures || e in w.store.entries
            || (a.AfterStep? && w.open[a.runId].hit.None? && a.runId in w.store.pending &&
                e == Entry(w.store.pending[a.runId].inputText, w.store.pending[a.runId].embedding,
                           s.step(w.open[a.runId].text), a.now))
  {
    match a
    case BeforeStep(_, _, _, now) =>
      UnexpiredExactly(s.cfg, w.store.entries, now, e);
      hide Match, Unexpired;
    case AfterStep(runId, now) =>
      AfterShape(s.cfg, w.store, runId, s.step(w.open[runId].text), now);
      hide After;
    case _ =>
  }

  lemma {:induction false} EntryProvenance(s: Setup, ws: seq<World>, acts: seq<Action>, i: nat, e: Entry)
    returns (k: nat)
    requires IsRun(s, ws, acts) && i < |ws| && e in ws[i].store.entries
    ensures k < i && StoredAt(s, ws, acts, k, e)
  {
    InOrderAlong(s, ws, acts, i - 1);
    EntriesAfter(s, ws[i - 1], acts[i - 1], e);
    hide Apply, InOrder;
    if e in ws[i - 1].store.entries {
      k := EntryProvenance(s, ws, acts, i - 1, e);
    } else {
      k := i - 1;
    }
  }

  /**
   * A lookup hits exactly when its text is embedded and some entry that is not older than the time
   * to live scores at least the threshold; its result was then computed and stored by an earlier
   * step, of this or another run, no longer ago than that.
   */
  lemma HitsAreFresh(s: Setup, ws: seq<World>, acts: seq<Action>, i: nat)
    requires 0.0 <= s.cfg.threshold && IsRun(s, ws, acts) && i < |acts| && acts[i].BeforeStep?
    ensures var hit, entries, now := ws[i + 1].open[acts[i].runId].hit, ws[i].store.entries, acts[i].now;
            && (hit.Some? <==> acts[i].embeds &&
                               exists k :: 0 <= k < |entries| && now <= entries[k].createdAt + s.cfg.ttlSeconds &&
                                           Cosine(s.cfg.sqrt, s.embed(acts[i].text), entries[k].embedding)
                                           >= s.cfg.threshold)
            && (hit.Some? ==> exists k, e :: 0 <= k < i && StoredAt(s, ws, acts, k, e) && hit.value == e.result &&
                                             now <= acts[k].now + s.cfg.ttlSeconds)
  {
    var w, a := ws[i], acts[i];
    var embedding := if a.embeds then Some(s.embed(a.text)) else None;
    BeforeExactly(s.cfg, w.store, a.runId, a.text, embedding, a.now);
    var hit := ws[i + 1].open[a.runId].hit;
    assert hit == Before(s.cfg, w.store, a.runId, a.text, embedding, a.now).1;
    assert a.embeds ==> forall k :: 0 <= k < |w.store.entries| ==>
      Score(s.cfg, s.embed(a.text), w.store.entries[k]) ==
      Cosine(s.cfg.sqrt, s.embed(a.text), w.store.entries[k].embedding);
    hide Before, Score, Cosine, Apply;
    if hit.Some? {
      var j :| IsEarliestBestLive(s.cfg, embedding.value, w.store.entries, a.now, j) &&
               hit.value == w.store.entries[j].result;
      var k := EntryProvenance(s, ws, acts, i, w.store.entries[j]);
      assert StoredAt(s, ws, acts, k, w.store.entries[j]);
    }
  }

  /* ---------- Transparency ---------- */

  /** Texts that score at least the threshold against one another have one result. */
  ghost predicate SimilarityDecides(s: Setup) {
    forall x, y :: Cosine(s.cfg.sqrt, s.embed(x), s.embed(y)) >= s.cfg.threshold ==> s.step(x) == s.step(y)
  }

  /** In this world every cached result under way is what the step gives for the run's text. */
  ghost predicate Truthful(s: Setup, w: World) {
    forall r :: r in w.open && w.open[r].hit.Some? ==> w.open[r].hit.value == s.step(w.open[r].text)
  }

  /** In every run, as long as no foreign result has been stored, cached results are the uncached ones. */
  ghost predicate Transparent(s: Setup) {
    forall ws: seq<World>, acts: seq<Action>, i: nat ::
      IsRun(s, ws, acts) && i < |ws| && (forall k :: 0 <= k < i ==> !StoresForeign(s, ws[k], acts[k])) ==>
        Truthful(s, ws[i])
  }

  lemma DecidedHitsAreTruthful(s: Setup, ws: seq<World>, acts: seq<Action>, i: nat)
    requires 0.0 <= s.cfg.threshold && SimilarityDecides(s) && IsRun(s, ws, acts) && i < |ws|
    requires forall k :: 0 <= k < i ==> !StoresForeign(s, ws[k], acts[k])
    ensures Truthful(s, ws[i])
  {
    forall r | r in ws[i].open && ws[i].open[r].hit.Some?
      ensures ws[i].open[r].hit.value == s.step(ws[i].open[r].text)
    {
      HitsAreSimilar(s, ws, acts, i, r);
      hide Cosine;
      var x := ws[i].open[r].text;
      var y :| ws[i].open[r].hit.value == s.step(y) &&
               Cosine(s.cfg.sqrt, s.embed(x), s.embed(y)) >= s.cfg.threshold;
      assert s.step(x) == s.step(y);
    }
  }

  /** Two texts that are similar enough and do not share their result: the one is answered with the other's result. */
  lemma SimilarTextMisleads(s: Setup, x: string, y: string)
    requires 0.0 <= s.cfg.threshold && s.cfg.maxSize >= 1 && s.cfg.ttlSeconds >= 0.0
    requires Cosine(s.cfg.sqrt, s.embed(x), s.embed(y)) >= s.cfg.threshold && s.step(x) != s.step(y)
    ensures exists ws: seq<World>, acts: seq<Action> ::
              && IsRun(s, ws, acts) && |ws| == 4
              && (forall k :: 0 <= k < 3 ==> !StoresForeign(s, ws[k], acts[k])) && !Truthful(s, ws[3])
  {
    var p, e := Pending(y, s.embed(y)), Entry(y, s.embed(y), s.step(y), 0.0);
    assert Match(s.cfg, s.embed(x), [e]) == Some(0) by {
      MatchExactly(s.cfg, s.embed(x), [e]);
      assert Score(s.cfg, s.embed(x), [e][0]) >= s.cfg.threshold;
    }
    hide Cosine;
    assert Unexpired(s.cfg, [e], 0.0) == [e] by {
      assert [e][..0] == [];
    }
    var acts := [BeforeStep("r", y, true, 0.0), AfterStep("r", 0.0), BeforeStep("r", x, true, 0.0)];
    var w0 := World(NOTHING, map[], 0.0);
    var w1 := Apply(s, w0, acts[0]);
    assert w1 == World(Store([], map["r" := p], CacheStats(0, 1, 0)), map["r" := OpenStep(y, None)], 0.0);
    hide Match, Unexpired;
    var w2 := Apply(s, w1, acts[1]);
    assert w2 == World(Store([e], map[], CacheStats(0, 1, 0)), map[], 0.0);
    var w3 := Apply(s, w2, acts[2]);
    assert w3.open["r"] == OpenStep(x, Some(s.step(y)));
    var ws := [w0, w1, w2, w3];
    assert IsRun(s, ws, acts);
    assert !Truthful(s, w3);
  }

  /**
   * The main result: at every threshold that is not negative, a cache with room agrees with the
   * uncached step, over every interleaving of runs, exactly when similar texts share their result.
   */
  lemma TransparentExactly(s: Setup)
    requires 0.0 <= s.cfg.threshold
    ensures SimilarityDecides(s) ==> Transparent(s)
    ensures s.cfg.maxSize >= 1 && s.cfg.ttlSeconds >= 0.0 ==> (Transparent(s) <==> SimilarityDecides(s))
  {
    hide Cosine, Truthful, StoresForeign, Apply;
    if SimilarityDecides(s) {
      forall ws: seq<World>, acts: seq<Action>, i: nat
        | IsRun(s, ws, acts) && i < |ws| && (forall k :: 0 <= k < i ==> !StoresForeign(s, ws[k], acts[k]))
        ensures Truthful(s, ws[i])
      {
        DecidedHitsAreTruthful(s, ws, acts, i);
      }
    } else if s.cfg.maxSize >= 1 && s.cfg.ttlSeconds >= 0.0 {
      var x, y :| Cosine(s.cfg.sqrt, s.embed(x), s.embed(y)) >= s.cfg.threshold && s.step(x) != s.step(y);
      SimilarTextMisleads(s, x, y);
      var ws: seq<World>, acts: seq<Action> :|
        && IsRun(s, ws, acts) && |ws| == 4
        && (forall k :: 0 <= k < 3 ==> !StoresForeign(s, ws[k], acts[k])) && !Truthful(s, ws[3]);
      assert !Transparent(s);
    }
  }

  ghost predicate ParallelsAgree(s: Setup) {
    forall x, y, t :: t > 0.0 && !IsZero(s.embed(y)) && Scaled(s.embed(x), t, s.embed(y)) ==> s.step(x) == s.step(y)
  }

  /** At threshold 1 it is texts with parallel embeddings that have to share their result. */
  lemma StrictCacheIsTransparent(s: Setup)
    requires s.cfg.threshold == 1.0 && IsSqrt(s.cfg.sqrt)
    ensures ParallelsAgree(s) ==> Transparent(s)
    ensures s.cfg.maxSize >= 1 && s.cfg.ttlSeconds >= 0.0 ==> (Transparent(s) <==> ParallelsAgree(s))
  {
    TransparentExactly(s);
    hide Cosine, IsSqrt, Transparent, IsZero, Scaled;
    forall x, y
      ensures Cosine(s.cfg.sqrt, s.embed(x), s.embed(y)) >= 1.0 <==>
              !IsZero(s.embed(y)) && exists t :: t > 0.0 && Scaled(s.embed(x), t, s.embed(y))
    {
      CosineBounded(s.cfg.sqrt, s.embed(x), s.embed(y));
      CosineOneExactly(s.cfg.sqrt, s.embed(x), s.embed(y));
    }
  }

  /* ---------- Failing and clearing ---------- */

  /** A failed step forgets its text: the run's next lookup cannot misfile, whether it is embedded or not. */
  lemma FailedStepForgets(s: Setup, ws: seq<World>, acts: seq<Action>, i: nat, text: string, embeds: bool, now: real)
    requires IsRun(s, ws, acts) && i < |acts| && acts[i].StepFails?
    ensures ws[i + 1].store.entries == ws[i].store.entries
    ensures !Misfiles(ws[i + 1], BeforeStep(acts[i].runId, text, embeds, now))
  {
  }

  /** From a clearing on every lookup misses, until the next step ends. */
  lemma {:induction false} ClearedCacheMisses(s: Setup, ws: seq<World>, acts: seq<Action>, i: nat, j: nat)
    requires IsRun(s, ws, acts) && i < j < |ws| && acts[i].ClearCache?
    requires forall k :: i < k < j ==> !acts[k].AfterStep?
    ensures ws[j].store.entries == []
    ensures j < |acts| && acts[j].BeforeStep? ==> ws[j + 1].open[acts[j].runId].hit == None
    decreases j
  {
    hide Cosine;
    if i + 1 < j {
      ClearedCacheMisses(s, ws, acts, i, j - 1);
    }
  }

  /* ---------- A misfiled result ---------- */

  /** Searching a single entry for its own embedding finds it. */
  lemma OneEntryHits(s: Setup, e: Entry)
    requires 0.0 <= s.cfg.threshold <= 1.0 && IsSqrt(s.cfg.sqrt) && !IsZero(e.embedding)
    ensures Match(s.cfg, e.embedding, [e]) == Some(0)
  {
    SameEmbeddingHits(s.cfg, e.embedding, [e], 0);
  }

  /** Stored once and found once, a text is left pending when its run's second step ends. */
  lemma HitLeavesPending(s: Setup, x: string, ws: seq<World>)
    requires 0.0 <= s.cfg.threshold <= 1.0 && IsSqrt(s.cfg.sqrt) && s.cfg.maxSize >= 2 && s.cfg.ttlSeconds >= 0.0
    requires !IsZero(s.embed(x))
    requires var p, e := Pending(x, s.embed(x)), Entry(x, s.embed(x), s.step(x), 0.0);
             ws == [World(NOTHING, map[], 0.0),
                    World(Store([], map["r" := p], CacheStats(0, 1, 0)), map["r" := OpenStep(x, None)], 0.0),
                    World(Store([e], map[], CacheStats(0, 1, 0)), map[], 0.0),
                    World(Store([e], map["r" := p], CacheStats(1, 1, 0)),
                          map["r" := OpenStep(x, Some(s.step(x)))], 0.0),
                    World(Store([e], map["r" := p], CacheStats(1, 1, 0)), map[], 0.0)]
    ensures IsRun(s, ws, [BeforeStep("r", x, true, 0.0), AfterStep("r", 0.0),
                          BeforeStep("r", x, true, 0.0), AfterStep("r", 0.0)])
  {
    var e := Entry(x, s.embed(x), s.step(x), 0.0);
    OneEntryHits(s, e);
    hide Cosine, IsSqrt, IsZero;
    assert ws[1] == Apply(s, ws[0], BeforeStep("r", x, true, 0.0)) by { hide Score; }
    assert ws[2] == Apply(s, ws[1], AfterStep("r", 0.0)) by { hide Match; }
    assert [e][..0] == [] && Unexpired(s.cfg, [e], 0.0) == [e] by { hide Match; }
    hide Match, Unexpired;
    assert ws[3] == Apply(s, ws[2], BeforeStep("r", x, true, 0.0));
    assert ws[4] == Apply(s, ws[3], AfterStep("r", 0.0));
  }

  /**
   * One run alone can file a result under a foreign text: a hit leaves the text pending, the next
   * embedding fails, and the result of the next text is stored under the first one.
   */
  lemma FailedEmbeddingMisfiles(s: Setup, x: string, y: string)
    requires 0.0 <= s.cfg.threshold <= 1.0 && IsSqrt(s.cfg.sqrt) && s.cfg.maxSize >= 2 && s.cfg.ttlSeconds >= 0.0
    requires !IsZero(s.embed(x)) && x != y
    ensures exists ws: seq<World>, acts: seq<Action> ::
              && IsRun(s, ws, acts) && |ws| == 7
              && |ws[6].store.entries| == 2
              && ws[6].store.entries[1] == Entry(x, s.embed(x), s.step(y), 0.0)
  {
    var p, e := Pending(x, s.embed(x)), Entry(x, s.embed(x), s.step(x), 0.0);
    var begun := [World(NOTHING, map[], 0.0),
                  World(Store([], map["r" := p], CacheStats(0, 1, 0)), map["r" := OpenStep(x, None)], 0.0),
                  World(Store([e], map[], CacheStats(0, 1, 0)), map[], 0.0),
                  World(Store([e], map["r" := p], CacheStats(1, 1, 0)), map["r" := OpenStep(x, Some(s.step(x)))], 0.0),
                  World(Store([e], map["r" := p], CacheStats(1, 1, 0)), map[], 0.0)];
    HitLeavesPending(s, x, begun);
    hide IsSqrt, IsZero, Match, Unexpired;
    var acts := [
      BeforeStep("r", x, true, 0.0), AfterStep("r", 0.0),
      BeforeStep("r", x, true, 0.0), AfterStep("r", 0.0)];
    var failing, last := BeforeStep("r", y, false, 0.0), AfterStep("r", 0.0);
    var w5 := Apply(s, begun[4], failing);
    assert w5.store.entries == [e] && w5.store.pending == map["r" := p] && w5.open == map["r" := OpenStep(y, None)];
    var w6 := Apply(s, w5, last);
    assert w6.store.entries == [e, Entry(x, s.embed(x), s.step(y), 0.0)];
    hide Apply;
    RunExtends(s, begun, acts, failing);
    RunExtends(s, begun + [w5], acts + [failing], last);
    var ws := begun + [w5] + [w6];
    assert |ws| == 7 && ws[6] == w6;
  }

  lemma RunExtends(s: Setup, ws: seq<World>, acts: seq<Action>, a: Action)
    requires IsRun(s, ws, acts) && Enabled(ws[|acts|], a)
    ensures IsRun(s, ws + [Apply(s, ws[|acts|], a)], acts + [a])
  {
    hide Apply, Enabled;
  }

  /* ---------- The object in use ---------- */

  /** No step of the run stores a foreign result. */
  ghost predicate NothingForeign(s: Setup, ws: seq<World>, acts: seq<Action>)
    requires |ws| == |acts| + 1
  {
    forall k :: 0 <= k < |acts| ==> !StoresForeign(s, ws[k], acts[k])
  }

  lemma NothingForeignPrefix(s: Setup, ws: seq<World>, acts: seq<Action>, w: World, a: Action)
    requires |ws| == |acts| + 1 && NothingForeign(s, ws + [w], acts + [a])
    ensures NothingForeign(s, ws, acts)
  {
    hide StoresForeign;
    forall k | 0 <= k < |acts|
      ensures !StoresForeign(s, ws[k], acts[k])
    {
      assert (ws + [w])[k] == ws[k] && (acts + [a])[k] == acts[k];
    }
  }

  lemma StoringSucceeds(cfg: SemanticSettings, c: Store, runId: string, result: Obj, now: real)
    requires cfg.maxSize >= 1
    ensures After(cfg, c, runId, result, now).1
  {
    hide SortByAge;
  }

  /** All answers are the uncached ones. */
  ghost predicate AllTrue(s: Setup, answers: seq<(string, Option<Obj>)>) {
    forall k :: 0 <= k < |answers| ==> answers[k].1 == Some(s.step(answers[k].0))
  }

  ghost predicate Reliable(s: Setup) {
    0.0 <= s.cfg.threshold && s.cfg.maxSize >= 1 && SimilarityDecides(s)
  }

  /**
   * Serves a cache to any number of runs, in the order of the requests; one that comes out of turn,
   * or with a time that has passed, is passed over. What the object does is a run of the protocol;
   * and where similar texts share their result, every answer is the uncached one as long as no
   * foreign result is stored.
   */
  method Serve(cache: SemanticCacheObject, s: Setup, requests: seq<Action>)
    returns (answers: seq<(string, Option<Obj>)>, ghost ws: seq<World>, ghost acts: seq<Action>)
    requires cache.settings == s.cfg && cache.View() == NOTHING
    modifies cache
    ensures IsRun(s, ws, acts) && ws[|acts|].store == cache.View()
    ensures Reliable(s) && NothingForeign(s, ws, acts) ==> AllTrue(s, answers)
  {
    hide Before, After, SimilarityDecides, StoresForeign, NothingForeign;
    var open: map<string, OpenStep>, clock := map[], 0.0;
    answers, ws, acts := [], [World(cache.View(), open, clock)], [];
    for i := 0 to |requests|
      invariant IsRun(s, ws, acts) && ws[|acts|] == World(cache.View(), open, clock)
      invariant Reliable(s) && NothingForeign(s, ws, acts) ==> AllTrue(s, answers)
    {
      ghost var w, before := ws[|acts|], answers;
      var moved := true;
      match requests[i] {
        case BeforeStep(runId, text, embeds, now) =>
          if runId in open || now < clock {
            moved := false;
          } else {
            var hit := cache.BeforeStep(text, if embeds then Some(s.embed(text)) else None, runId, now);
            open, clock := open[runId := OpenStep(text, hit)], now;
          }
        case AfterStep(runId, now) =>
          if runId !in open || now < clock {
            moved := false;
          } else {
            var o := open[runId];
            if o.hit.Some? {
              answers := answers + [(o.text, o.hit)];
            } else {
              var stored := cache.AfterStep(s.step(o.text), runId, now);
              answers := answers + [(o.text, if stored then Some(s.step(o.text)) else None)];
            }
            open, clock := open - {runId}, now;
            if Reliable(s) && NothingForeign(s, ws, acts) {
              TrueAnswer(s, ws, acts, runId, now);
              assert AllTrue(s, answers);
            }
          }
        case StepFails(runId) =>
          if runId !in open {
            moved := false;
          } else {
            cache.OnErrorStep(runId);
            open := open - {runId};
          }
        case ClearCache =>
          cache.ClearAll();
      }
      if moved {
        ghost var next := World(cache.View(), open, clock);
        RunExtends(s, ws, acts, requests[i]);
        assert Apply(s, w, requests[i]) == next;
        if NothingForeign(s, ws + [next], acts + [requests[i]]) {
          NothingForeignPrefix(s, ws, acts, next, requests[i]);
        }
        ws, acts := ws + [next], acts + [requests[i]];
      }
    }
  }

  /** What a run gets when its step ends, from a reliable cache that holds nothing foreign. */
  lemma TrueAnswer(s: Setup, ws: seq<World>, acts: seq<Action>, runId: string, now: real)
    requires IsRun(s, ws, acts) && Reliable(s) && NothingForeign(s, ws, acts) && runId in ws[|acts|].open
    ensures var o := ws[|acts|].open[runId];
            if o.hit.Some? then o.hit.value == s.step(o.text)
            else After(s.cfg, ws[|acts|].store, runId, s.step(o.text), now).1
  {
    DecidedHitsAreTruthful(s, ws, acts, |acts|);
    StoringSucceeds(s.cfg, ws[|acts|].store, runId, s.step(ws[|acts|].open[runId].text), now);
    hide After, SimilarityDecides;
  }
}
