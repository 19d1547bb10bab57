/** The similarity cache: expiry, the search for the best entry, eviction, and the object. */
module SemanticCache {
  import opened Wrappers
  import opened CosineSimilarity
  import opened CacheTypes

  datatype Entry = Entry(inputText: string, embedding: seq<real>, result: Obj, createdAt: real)

  datatype Pending = Pending(inputText: string, embedding: seq<real>)

  datatype SemanticSettings = SemanticSettings(threshold: real, maxSize: int, ttlSeconds: real, sqrt: real -> real)

  datatype Store = Store(entries: seq<Entry>, pending: map<string, Pending>, stats: CacheStats)

  const NOTHING := Store([], map[], CacheStats(0, 0, 0))

  function Score(cfg: SemanticSettings, embedding: seq<real>, e: Entry): real {
    Cosine(cfg.sqrt, embedding, e.embedding)
  }

  predicate Live(cfg: SemanticSettings, e: Entry, now: real) {
    now - e.createdAt <= cfg.ttlSeconds
  }

  function Unexpired(cfg: SemanticSettings, entries: seq<Entry>, now: real): seq<Entry> {
    if entries == [] then []
    else Unexpired(cfg, entries[..|entries| - 1], now) +
         (if Live(cfg, entries[|entries| - 1], now) then [entries[|entries| - 1]] else [])
  }

  lemma {:induction false} UnexpiredExactly(cfg: SemanticSettings, entries: seq<Entry>, now: real, e: Entry)
    ensures e in Unexpired(cfg, entries, now) <==> e in entries && Live(cfg, e, now)
    ensures e in Unexpired(cfg, entries, now) <==> e in entries && now <= e.createdAt + cfg.ttlSeconds
  {
    if entries != [] {
      var front, last := entries[..|entries| - 1], entries[|entries| - 1];
      UnexpiredExactly(cfg, front, now, e);
      assert entries == front + [last];
    }
  }

  /** Where the unexpired entries stood. */
  ghost function Positions(cfg: SemanticSettings, entries: seq<Entry>, now: real): seq<nat> {
    if entries == [] then []
    else
      var n := |entries| - 1;
      Positions(cfg, entries[..n], now) + (if Live(cfg, entries[n], now) then [n] else [])
  }

  ghost predicate Increasing(positions: seq<nat>) {
    forall i, j :: 0 <= i < j < |positions| ==> positions[i] < positions[j]
  }

  /** Expiry keeps the live entries, all of them, in their order. */
  lemma {:induction false} UnexpiredInOrder(cfg: SemanticSettings, entries: seq<Entry>, now: real)
    ensures var kept, at := Unexpired(cfg, entries, now), Positions(cfg, entries, now);
            && |kept| == |at| && Increasing(at)
            && (forall j :: 0 <= j < |at| ==> at[j] < |entries| && kept[j] == entries[at[j]])
            && (forall k :: 0 <= k < |entries| && Live(cfg, entries[k], now) <==> k in at)
            && (forall k :: 0 <= k < |entries| && now <= entries[k].createdAt + cfg.ttlSeconds <==> k in at)
  {
    if entries != [] {
      var n := |entries| - 1;
      UnexpiredInOrder(cfg, entries[..n], now);
      assert Live(cfg, entries[n], now) <==> now <= entries[n].createdAt + cfg.ttlSeconds;
      hide Live;
    }
  }

  /* ---------- The search ---------- */

  /** The index the search loop ends with and its score; it starts from no entry and the score -1. */
  function Search(cfg: SemanticSettings, embedding: seq<real>, entries: seq<Entry>): (Option<nat>, real) {
    if entries == [] then (None, -1.0)
    else
      var n := |entries| - 1;
      var before := Search(cfg, embedding, entries[..n]);
      var score := Score(cfg, embedding, entries[n]);
      if score > before.1 then (Some(n), score) else before
  }

  /** Entry `i` has the highest score, and no earlier entry has it. */
  ghost predicate IsEarliestBest(cfg: SemanticSettings, embedding: seq<real>, entries: seq<Entry>, i: int) {
    && 0 <= i < |entries|
    && (forall k :: 0 <= k < |entries| ==> Score(cfg, embedding, entries[k]) <= Score(cfg, embedding, entries[i]))
    && (forall k :: 0 <= k < i ==> Score(cfg, embedding, entries[k]) < Score(cfg, embedding, entries[i]))
  }

  /** The loop finds the earliest entry of the highest score, unless no score is above -1. */
  lemma {:induction false} SearchFindsBest(cfg: SemanticSettings, embedding: seq<real>, entries: seq<Entry>)
    ensures var found := Search(cfg, embedding, entries);
            && found.1 >= -1.0
            && (found.0.Some? <==> exists k :: 0 <= k < |entries| && Score(cfg, embedding, entries[k]) > -1.0)
            && (found.0.None? ==> found.1 == -1.0)
            && (found.0.Some? ==> IsEarliestBest(cfg, embedding, entries, found.0.value) &&
                                  found.1 == Score(cfg, embedding, entries[found.0.value]))
  {
    if entries != [] {
      var n := |entries| - 1;
      SearchFindsBest(cfg, embedding, entries[..n]);
      hide Score;
      assert forall k :: 0 <= k < n ==> entries[..n][k] == entries[k];
    }
  }

  /** `before_step` of an embedded input finds a cached result in `entries`. */
  function Match(cfg: SemanticSettings, embedding: seq<real>, entries: seq<Entry>): Option<nat> {
    var found := Search(cfg, embedding, entries);
    if found.0.Some? && found.1 >= cfg.threshold then found.0 else None
  }

  /**
   * The search hits exactly when some entry scores at least the threshold, and it then gives the
   * earliest entry of the highest score.
   */
  lemma MatchExactly(cfg: SemanticSettings, embedding: seq<real>, entries: seq<Entry>)
    requires cfg.threshold >= 0.0
    ensures Match(cfg, embedding, entries).Some? <==>
            exists k :: 0 <= k < |entries| && Score(cfg, embedding, entries[k]) >= cfg.threshold
    ensures Match(cfg, embedding, entries).Some? ==>
              var i := Match(cfg, embedding, entries).value;
              IsEarliestBest(cfg, embedding, entries, i) && Score(cfg, embedding, entries[i]) >= cfg.threshold
  {
    SearchFindsBest(cfg, embedding, entries);
    hide Score, Search;
  }

  /**
   * Among the entries that are not older than the time to live, entry `i` has the highest score, and no
   * earlier one has it.
   */
  ghost predicate IsEarliestBestLive(cfg: SemanticSettings, embedding: seq<real>, entries: seq<Entry>, now: real,
                                     i: int) {
    && 0 <= i < |entries| && now <= entries[i].createdAt + cfg.ttlSeconds
    && (forall k :: 0 <= k < |entries| && now <= entries[k].createdAt + cfg.ttlSeconds ==>
          Score(cfg, embedding, entries[k]) <= Score(cfg, embedding, entries[i]))
    && (forall k :: 0 <= k < i && now <= entries[k].createdAt + cfg.ttlSeconds ==>
          Score(cfg, embedding, entries[k]) < Score(cfg, embedding, entries[i]))
  }

  /** The earliest best of the unexpired entries is, where it stood, the earliest best live one. */
  lemma {:induction false} EarliestBestStood(cfg: SemanticSettings, embedding: seq<real>, entries: seq<Entry>,
                                             now: real, j: nat)
    requires IsEarliestBest(cfg, embedding, Unexpired(cfg, entries, now), j)
    ensures j < |Positions(cfg, entries, now)|
    ensures IsEarliestBestLive(cfg, embedding, entries, now, Positions(cfg, entries, now)[j])
  {
    UnexpiredInOrder(cfg, entries, now);
    hide Score, Live, Unexpired, Positions;
    var kept, at := Unexpired(cfg, entries, now), Positions(cfg, entries, now);
    assert at[j] in at;
    forall k | 0 <= k < |entries| && now <= entries[k].createdAt + cfg.ttlSeconds
      ensures Score(cfg, embedding, entries[k]) <= Score(cfg, embedding, entries[at[j]])
      ensures k < at[j] ==> Score(cfg, embedding, entries[k]) < Score(cfg, embedding, entries[at[j]])
    {
      var m :| 0 <= m < |at| && at[m] == k;
      assert kept[m] == entries[k] && kept[j] == entries[at[j]];
    }
  }

  /** Asking again with the embedding of a stored entry always hits, under every admissible threshold. */
  lemma SameEmbeddingHits(cfg: SemanticSettings, embedding: seq<real>, entries: seq<Entry>, k: nat)
    requires 0.0 <= cfg.threshold <= 1.0 && IsSqrt(cfg.sqrt) && !IsZero(embedding)
    requires k < |entries| && entries[k].embedding == embedding
    ensures var hit := Match(cfg, embedding, entries);
            && hit.Some? && hit.value <= k
            && exists t :: t > 0.0 && Scaled(embedding, t, entries[hit.value].embedding)
  {
    assert Score(cfg, embedding, entries[k]) == 1.0 by {
      CosineSelf(cfg.sqrt, embedding);
    }
    MatchExactly(cfg, embedding, entries);
    var i := Match(cfg, embedding, entries).value;
    assert Score(cfg, embedding, entries[i]) == Cosine(cfg.sqrt, embedding, entries[i].embedding);
    hide Match, Score, Cosine, IsSqrt;
    CosineBounded(cfg.sqrt, embedding, entries[i].embedding);
    CosineOneExactly(cfg.sqrt, embedding, entries[i].embedding);
  }

  /* ---------- The steps ---------- */

  /** `before_step`; `None` for an embedding that could not be computed. */
  function Before(cfg: SemanticSettings, c: Store, runId: string, text: string, embedding: Option<seq<real>>, now: real)
    : (Store, Option<Obj>)
  {
    var missed := c.stats.(misses := c.stats.misses + 1);
    match embedding
    case None => (c.(stats := missed), None)
    case Some(v) =>
      var entries := Unexpired(cfg, c.entries, now);
      var pending := c.pending[runId := Pending(text, v)];
      match Match(cfg, v, entries)
      case None => (Store(entries, pending, missed), None)
      case Some(i) =>
        MatchInRange(cfg, v, entries);
        (Store(entries, pending, c.stats.(hits := c.stats.hits + 1)), Some(entries[i].result))
  }

  /**
   * `before_step` hits exactly when some unexpired entry scores at least the threshold, and the
   * result is then that of the earliest unexpired entry of the highest score; without an embedding
   * it misses. A hit or a miss is counted accordingly.
   */
  lemma {:induction false} BeforeExactly(cfg: SemanticSettings, c: Store, runId: string, text: string,
                                         embedding: Option<seq<real>>, now: real)
    requires cfg.threshold >= 0.0
    ensures var (after, hit) := Before(cfg, c, runId, text, embedding, now);
            && (hit.Some? <==> embedding.Some? &&
                               exists k :: 0 <= k < |c.entries| && now <= c.entries[k].createdAt + cfg.ttlSeconds &&
                                           Score(cfg, embedding.value, c.entries[k]) >= cfg.threshold)
            && (hit.Some? ==> exists i :: IsEarliestBestLive(cfg, embedding.value, c.entries, now, i) &&
                                          Score(cfg, embedding.value, c.entries[i]) >= cfg.threshold &&
                                          hit.value == c.entries[i].result)
            && after.stats.hits == c.stats.hits + (if hit.Some? then 1 else 0)
            && after.stats.misses == c.stats.misses + (if hit.Some? then 0 else 1)
            && after.stats.evictions == c.stats.evictions
  {
    if embedding.Some? {
      var v, kept := embedding.value, Unexpired(cfg, c.entries, now);
      UnexpiredInOrder(cfg, c.entries, now);
      MatchExactly(cfg, v, kept);
      var found := Match(cfg, v, kept);
      if found.Some? {
        EarliestBestStood(cfg, v, c.entries, now, found.value);
      }
      hide Score, Live, Unexpired, Positions, Match, IsEarliestBest;
      var at := Positions(cfg, c.entries, now);
      forall k | 0 <= k < |c.entries| && now <= c.entries[k].createdAt + cfg.ttlSeconds
        ensures exists m :: 0 <= m < |kept| && kept[m] == c.entries[k]
      {
        var m :| 0 <= m < |at| && at[m] == k;
        assert kept[m] == c.entries[k];
      }
      if found.Some? {
        assert at[found.value] in at;
        assert kept[found.value] == c.entries[at[found.value]];
      }
    }
  }

  /**
   * Without an embedding a lookup leaves entries and pending texts alone; otherwise expiry and the new
   * pending text are all.
   */
  lemma BeforeLeaves(cfg: SemanticSettings, c: Store, runId: string, text: string, embedding: Option<seq<real>>,
                     now: real)
    ensures var after := Before(cfg, c, runId, text, embedding, now).0;
            && (embedding.None? ==> after.entries == c.entries && after.pending == c.pending)
            && (embedding.Some? ==>
                  && after.pending == c.pending[runId := Pending(text, embedding.value)]
                  && forall e :: e in after.entries <==> e in c.entries && now <= e.createdAt + cfg.ttlSeconds)
  {
    forall e
      ensures e in Unexpired(cfg, c.entries, now) <==> e in c.entries && now <= e.createdAt + cfg.ttlSeconds
    {
      UnexpiredExactly(cfg, c.entries, now, e);
    }
    hide Match, Unexpired;
  }

  lemma MatchInRange(cfg: SemanticSettings, embedding: seq<real>, entries: seq<Entry>)
    ensures Match(cfg, embedding, entries).Some? ==> Match(cfg, embedding, entries).value < |entries|
  {
    SearchFindsBest(cfg, embedding, entries);
  }

  /** `sort(key=created_at)`: stable insertion from the left. */
  function SortByAge(entries: seq<Entry>): (sorted: seq<Entry>)
    ensures |sorted| == |entries|
  {
    if entries == [] then [] else InsertByAge(SortByAge(entries[..|entries| - 1]), entries[|entries| - 1])
  }

  function InsertByAge(sorted: seq<Entry>, e: Entry): (r: seq<Entry>)
    ensures |r| == |sorted| + 1
  {
    if sorted == [] || sorted[|sorted| - 1].createdAt <= e.createdAt then sorted + [e]
    else InsertByAge(sorted[..|sorted| - 1], e) + [sorted[|sorted| - 1]]
  }

  ghost predicate Chronological(entries: seq<Entry>) {
    forall i, j :: 0 <= i < j < |entries| ==> entries[i].createdAt <= entries[j].createdAt
  }

  lemma SnocCounts(front: seq<Entry>, last: Entry)
    ensures multiset(front + [last]) == multiset(front) + multiset{last}
  {
  }

  lemma {:induction false} InsertCounts(sorted: seq<Entry>, e: Entry)
    ensures multiset(InsertByAge(sorted, e)) == multiset(sorted) + multiset{e}
  {
    SnocCounts(sorted, e);
    if sorted != [] && sorted[|sorted| - 1].createdAt > e.createdAt {
      var front, last := sorted[..|sorted| - 1], sorted[|sorted| - 1];
      InsertCounts(front, e);
      assert sorted == front + [last];
      SnocCounts(front, last);
      SnocCounts(InsertByAge(front, e), last);
      assert InsertByAge(sorted, e) == InsertByAge(front, e) + [last];
      hide InsertByAge;
    }
  }

  /** Inserting an entry that is not younger than `t` into such entries leaves such entries. */
  lemma {:induction false} InsertBounded(sorted: seq<Entry>, e: Entry, t: real)
    requires e.createdAt <= t && forall i :: 0 <= i < |sorted| ==> sorted[i].createdAt <= t
    ensures forall i :: 0 <= i < |InsertByAge(sorted, e)| ==> InsertByAge(sorted, e)[i].createdAt <= t
  {
    if sorted != [] && sorted[|sorted| - 1].createdAt > e.createdAt {
      InsertBounded(sorted[..|sorted| - 1], e, t);
    }
  }

  lemma {:induction false} InsertSorts(sorted: seq<Entry>, e: Entry)
    requires Chronological(sorted)
    ensures Chronological(InsertByAge(sorted, e))
  {
    if sorted != [] && sorted[|sorted| - 1].createdAt > e.createdAt {
      var front, last := sorted[..|sorted| - 1], sorted[|sorted| - 1];
      InsertSorts(front, e);
      InsertBounded(front, e, last.createdAt);
      assert InsertByAge(sorted, e) == InsertByAge(front, e) + [last];
      hide InsertByAge;
    }
  }

  /** Sorting by age orders the entries by their times and keeps each of them. */
  lemma {:induction false} SortByAgeSorts(entries: seq<Entry>)
    ensures Chronological(SortByAge(entries)) && multiset(SortByAge(entries)) == multiset(entries)
  {
    if entries != [] {
      var front, last := entries[..|entries| - 1], entries[|entries| - 1];
      SortByAgeSorts(front);
      InsertSorts(SortByAge(front), last);
      InsertCounts(SortByAge(front), last);
      assert entries == front + [last];
      SnocCounts(front, last);
      hide InsertByAge, Chronological;
    }
  }

  /** Entries are appended as time goes on, so sorting them changes nothing. */
  lemma {:induction false} SortOfChronological(entries: seq<Entry>)
    requires Chronological(entries)
    ensures SortByAge(entries) == entries
  {
    if entries != [] {
      SortOfChronological(entries[..|entries| - 1]);
    }
  }

  /** `_evict_if_full`; `None` is the `IndexError` of removing from an empty list. */
  function Evict(cfg: SemanticSettings, c: Store): Option<Store> {
    if |c.entries| < cfg.maxSize then Some(c)
    else if c.entries == [] then None
    else Some(c.(entries := SortByAge(c.entries)[1..], stats := c.stats.(evictions := c.stats.evictions + 1)))
  }

  /** `after_step` with the result of a step that was executed. */
  function After(cfg: SemanticSettings, c: Store, runId: string, result: Obj, now: real): (Store, bool) {
    if runId !in c.pending then (c, true)
    else
      var p := c.pending[runId];
      var closed := c.(pending := c.pending - {runId});
      match Evict(cfg, closed)
      case None => (closed, false)
      case Some(room) => (room.(entries := room.entries + [Entry(p.inputText, p.embedding, result, now)]), true)
  }

  class SemanticCacheObject {
    const settings: SemanticSettings
    var entries: seq<Entry>
    var pending: map<string, Pending>
    var stats: CacheStats

    function View(): Store
      reads this
    {
      Store(entries, pending, stats)
    }

    constructor (settings: SemanticSettings)
      ensures this.settings == settings && View() == NOTHING
    {
      this.settings := settings;
      entries, pending, stats := [], map[], CacheStats(0, 0, 0);
    }

    method RemoveExpired(now: real)
      modifies this`entries
      ensures entries == Unexpired(settings, old(entries), now)
      ensures forall e :: e in entries <==> e in old(entries) && now <= e.createdAt + settings.ttlSeconds
    {
      forall e
        ensures e in Unexpired(settings, entries, now) <==> e in entries && now <= e.createdAt + settings.ttlSeconds
      {
        UnexpiredExactly(settings, entries, now, e);
      }
      var kept: seq<Entry> := [];
      for i := 0 to |entries|
        invariant kept == Unexpired(settings, entries[..i], now)
      {
        assert entries[..i + 1][..i] == entries[..i];
        if now - entries[i].createdAt <= settings.ttlSeconds {
          kept := kept + [entries[i]];
        }
      }
      assert entries[..|entries|] == entries;
      entries := kept;
    }

    method FindBest(embedding: seq<real>) returns (bestEntry: Option<nat>, bestScore: real)
      ensures (bestEntry, bestScore) == Search(settings, embedding, entries)
    {
      bestEntry, bestScore := None, -1.0;
      for i := 0 to |entries|
        invariant (bestEntry, bestScore) == Search(settings, embedding, entries[..i])
      {
        assert entries[..i + 1][..i] == entries[..i];
        var score := Score(settings, embedding, entries[i]);
        if score > bestScore {
          bestScore, bestEntry := score, Some(i);
        }
      }
      assert entries[..|entries|] == entries;
    }

    /** The sentinel's value, or `None` for a miss. */
    method BeforeStep(text: string, embedding: Option<seq<real>>, runId: string, now: real) returns (hit: Option<Obj>)
      modifies this
      ensures (View(), hit) == Before(settings, old(View()), runId, text, embedding, now)
    {
      hide Search, Score, Unexpired;
      if embedding.None? {
        stats := stats.(misses := stats.misses + 1);
        return None;
      }
      pending := pending[runId := Pending(text, embedding.value)];
      RemoveExpired(now);
      var bestEntry, bestScore := FindBest(embedding.value);
      MatchInRange(settings, embedding.value, entries);
      if bestEntry.Some? && bestScore >= settings.threshold {
        stats := stats.(hits := stats.hits + 1);
        return Some(entries[bestEntry.value].result);
      }
      stats := stats.(misses := stats.misses + 1);
      return None;
    }

    method AfterStep(result: Obj, runId: string, now: real) returns (stored: bool)
      modifies this
      ensures (View(), stored) == After(settings, old(View()), runId, result, now)
    {
      if runId in pending {
        var p := pending[runId];
        pending := pending - {runId};
        if |entries| >= settings.maxSize {
          if entries == [] {
            return false;
          }
          entries := SortByAge(entries)[1..];
          stats := stats.(evictions := stats.evictions + 1);
        }
        entries := entries + [Entry(p.inputText, p.embedding, result, now)];
      }
      return true;
    }

    method OnErrorStep(runId: string)
      modifies this
      ensures View() == old(View()).(pending := old(View()).pending - {runId})
    {
      pending := pending - {runId};
    }

    method ClearAll()
      modifies this
      ensures View() == old(View()).(entries := [])
    {
      entries := [];
    }
  }

  /** The constructor's check of the threshold. */
  method NewSemanticCache(settings: SemanticSettings) returns (r: Option<SemanticCacheObject>)
    ensures r.Some? <==> 0.0 <= settings.threshold <= 1.0
    ensures r.Some? ==> fresh(r.value) && r.value.settings == settings && r.value.View() == NOTHING
  {
    if !(0.0 <= settings.threshold <= 1.0) {
      return None;
    }
    var cache := new SemanticCacheObject(settings);
    return Some(cache);
  }
}
