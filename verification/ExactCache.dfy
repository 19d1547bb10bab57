/** The hash-keyed response cache as an object, and its two interceptor steps as functions. */
module ExactCache {
  import opened Wrappers
  import opened CacheTypes

  datatype CacheEntry = CacheEntry(result: Obj, createdAt: real)

  datatype Settings = Settings(maxSize: int, ttlSeconds: real, hash: Obj -> string)

  /** What the cache holds: entries by input hash, each run's open hash, and the counters. */
  datatype Cache = Cache(entries: map<string, CacheEntry>, pending: map<string, string>, stats: CacheStats)

  const EMPTY := Cache(map[], map[], CacheStats(0, 0, 0))

  /** `_compute_hash`: digest of the namespace and the key-sorted dump. */
  function ComputeHash(sha256: string -> string, dump: Obj -> string, namespace: string, input: Obj): string {
    sha256(namespace + ":" + dump(input))
  }

  /** What `before_step` and `after_step` pass along: an ordinary object, or a cached result under way. */
  datatype Passed = Plain(value: Obj) | Sentinel(value: Obj)

  predicate Expired(cfg: Settings, e: CacheEntry, now: real) {
    now - e.createdAt > cfg.ttlSeconds
  }

  function Before(cfg: Settings, c: Cache, runId: string, input: Obj, now: real): (Cache, Passed) {
    var h := cfg.hash(input);
    var noted := c.(pending := c.pending[runId := h]);
    if h !in c.entries then (noted.(stats := c.stats.(misses := c.stats.misses + 1)), Plain(input))
    else if Expired(cfg, c.entries[h], now) then
      (noted.(entries := c.entries - {h},
               stats := c.stats.(misses := c.stats.misses + 1, evictions := c.stats.evictions + 1)), Plain(input))
    else (noted.(stats := c.stats.(hits := c.stats.hits + 1)), Sentinel(c.entries[h].result))
  }

  ghost predicate Oldest(entries: map<string, CacheEntry>, key: string) {
    key in entries && forall k :: k in entries ==> entries[key].createdAt <= entries[k].createdAt
  }

  /** `_evict_if_full` fails on an empty cache that is full, i.e. of size zero or less. */
  predicate CannotEvict(cfg: Settings, c: Cache) {
    |c.entries| >= cfg.maxSize && c.entries == map[]
  }

  function Evicted(cfg: Settings, c: Cache, victim: string): Cache {
    if |c.entries| >= cfg.maxSize
    then c.(entries := c.entries - {victim}, stats := c.stats.(evictions := c.stats.evictions + 1))
    else c
  }

  /** `after_step`; `victim` is an oldest entry, used only when the cache is full. `None` is the `ValueError`. */
  function After(cfg: Settings, c: Cache, runId: string, passed: Passed, now: real, victim: string)
    : (Cache, Option<Obj>)
  {
    match passed
    case Sentinel(v) => (c, Some(v))
    case Plain(v) =>
      if runId !in c.pending then (c, Some(v))
      else
        var closed := c.(pending := c.pending - {runId});
        if CannotEvict(cfg, closed) then (closed, None)
        else
          var room := Evicted(cfg, closed, victim);
          (room.(entries := room.entries[c.pending[runId] := CacheEntry(v, now)]), Some(v))
  }

  function Bound(cfg: Settings): nat {
    if cfg.maxSize >= 0 then cfg.maxSize else 0
  }

  /* ---------- Size ---------- */

  lemma RemoveKey(entries: map<string, CacheEntry>, k: string)
    requires k in entries
    ensures |entries - {k}| == |entries| - 1
  {
    assert (entries - {k}).Keys == entries.Keys - {k};
  }

  lemma FewerOrEqual(entries: map<string, CacheEntry>, k: string)
    ensures |entries - {k}| <= |entries|
  {
    if k in entries {
      RemoveKey(entries, k);
    } else {
      assert entries - {k} == entries;
    }
  }

  lemma AddKey(entries: map<string, CacheEntry>, k: string, e: CacheEntry)
    ensures |entries[k := e]| <= |entries| + 1
  {
    assert entries[k := e].Keys == entries.Keys + {k};
  }

  /** Storing keeps the bound, because the victim of an eviction is an entry. */
  lemma SizeAfter(cfg: Settings, c: Cache, runId: string, passed: Passed, now: real, victim: string)
    requires |c.entries| <= Bound(cfg) && (passed.Plain? && c.entries != map[] ==> victim in c.entries)
    ensures |After(cfg, c, runId, passed, now, victim).0.entries| <= Bound(cfg)
  {
    if passed.Plain? && runId in c.pending && c.entries != map[] {
      RemoveKey(c.entries, victim);
      AddKey(c.entries - {victim}, c.pending[runId], CacheEntry(passed.value, now));
      AddKey(c.entries, c.pending[runId], CacheEntry(passed.value, now));
    }
  }

  function OnError(c: Cache, runId: string): Cache {
    c.(pending := c.pending - {runId})
  }

  function Invalidate(cfg: Settings, c: Cache, input: Obj): Cache {
    c.(entries := c.entries - {cfg.hash(input)})
  }

  function Clear(c: Cache): Cache {
    c.(entries := map[])
  }

  class ExactCacheObject {
    const settings: Settings
    var cache: map<string, CacheEntry>
    var pendingHashes: map<string, string>
    var stats: CacheStats

    function View(): Cache
      reads this
    {
      Cache(cache, pendingHashes, stats)
    }

    /** Never more entries than the maximum. */
    predicate Valid()
      reads this
    {
      |cache| <= Bound(settings)
    }

    constructor (settings: Settings)
      ensures Valid() && this.settings == settings && View() == EMPTY
    {
      this.settings := settings;
      cache, pendingHashes, stats := map[], map[], CacheStats(0, 0, 0);
    }

    method BeforeStep(input: Obj, runId: string, now: real) returns (passed: Passed)
      requires Valid()
      modifies this
      ensures Valid()
      ensures (View(), passed) == Before(settings, old(View()), runId, input, now)
    {
      var inputHash := settings.hash(input);
      pendingHashes := pendingHashes[runId := inputHash];
      if inputHash in cache {
        var entry := cache[inputHash];
        if now - entry.createdAt <= settings.ttlSeconds {
          stats := stats.(hits := stats.hits + 1);
          return Sentinel(entry.result);
        }
        RemoveKey(cache, inputHash);
        cache := cache - {inputHash};
        stats := stats.(evictions := stats.evictions + 1);
      }
      stats := stats.(misses := stats.misses + 1);
      return Plain(input);
    }

    /** `min(self._cache, key=created_at)`, over the entries in any order. */
    method OldestKey() returns (key: string)
      requires cache != map[]
      ensures Oldest(cache, key)
    {
      key :| key in cache;
      var left := cache.Keys - {key};
      while left != {}
        invariant left <= cache.Keys && key in cache
        invariant forall k :: k in cache && k !in left ==> cache[key].createdAt <= cache[k].createdAt
        decreases left
      {
        var k :| k in left;
        if cache[k].createdAt < cache[key].createdAt {
          key := k;
        }
        left := left - {k};
      }
    }

    /** Makes room if the cache is full; fails where there is nothing to remove. */
    method EvictIfFull() returns (possible: bool, ghost victim: string)
      modifies this`cache, this`stats
      ensures possible <==> !CannotEvict(settings, old(View()))
      ensures possible ==> View() == Evicted(settings, old(View()), victim)
      ensures !possible ==> View() == old(View())
      ensures old(cache) != map[] ==> Oldest(old(cache), victim)
    {
      victim := "";
      if cache != map[] {
        victim := OldestKey();
      }
      if |cache| >= settings.maxSize {
        if cache == map[] {
          return false, victim;
        }
        var oldestKey := OldestKey();
        victim := oldestKey;
        cache := cache - {oldestKey};
        stats := stats.(evictions := stats.evictions + 1);
      }
      return true, victim;
    }

    method AfterStep(passed: Passed, runId: string, now: real) returns (result: Option<Obj>, ghost victim: string)
      requires Valid()
      modifies this
      ensures Valid()
      ensures (View(), result) == After(settings, old(View()), runId, passed, now, victim)
      ensures passed.Plain? && runId in old(pendingHashes) && old(cache) != map[] ==> Oldest(old(cache), victim)
    {
      victim := "";
      if passed.Sentinel? {
        return Some(passed.value), victim;
      }
      if runId in pendingHashes {
        var inputHash := pendingHashes[runId];
        pendingHashes := pendingHashes - {runId};
        ghost var before := View().(pending := View().pending[runId := inputHash]);
        var possible;
        possible, victim := EvictIfFull();
        if !possible {
          return None, victim;
        }
        SizeAfter(settings, before, runId, passed, now, victim);
        cache := cache[inputHash := CacheEntry(passed.value, now)];
      }
      return Some(passed.value), victim;
    }

    method OnErrorStep(runId: string)
      requires Valid()
      modifies this
      ensures Valid()
      ensures View() == OnError(old(View()), runId)
    {
      pendingHashes := pendingHashes - {runId};
    }

    method InvalidateEntry(input: Obj) returns (found: bool)
      requires Valid()
      modifies this
      ensures Valid()
      ensures View() == Invalidate(settings, old(View()), input)
      ensures found <==> settings.hash(input) in old(cache)
    {
      var inputHash := settings.hash(input);
      found := inputHash in cache;
      FewerOrEqual(cache, inputHash);
      cache := cache - {inputHash};
    }

    method ClearAll()
      requires Valid()
      modifies this
      ensures Valid()
      ensures View() == Clear(old(View()))
    {
      cache := map[];
    }
  }
}
