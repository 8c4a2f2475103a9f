/**
 * The in-process cache of the application: hit/miss metrics, entries with
 * an optional expiry time, a size-bounded store that drops expired entries
 * and evicts the least recently accessed one, pattern invalidation, and the
 * caching decorator. The clock is the `now` argument (whole seconds); the
 * pickled size of a value is passed in as `size`.
 */
module SmartCache {
  import opened Wrappers
  import opened PyText
  import Tables
  import Seqs

  // ---------------------------------------------------------------- metrics

  datatype Metrics = Metrics(hits: nat, misses: nat, totalRequests: nat, totalSize: nat, startTime: int)

  /** Every request is counted once, as a hit or as a miss. */
  predicate MetricsValid(m: Metrics) {
    m.hits + m.misses == m.totalRequests
  }

  function NewMetrics(now: int): (r: Metrics)
    ensures MetricsValid(r) && r.totalRequests == 0
  {
    Metrics(0, 0, 0, 0, now)
  }

  function RecordHit(m: Metrics): (r: Metrics)
    ensures MetricsValid(m) ==> MetricsValid(r)
    ensures r.hits == m.hits + 1 && r.misses == m.misses && r.totalSize == m.totalSize
  {
    m.(hits := m.hits + 1, totalRequests := m.totalRequests + 1)
  }

  function RecordMiss(m: Metrics, size: nat): (r: Metrics)
    ensures MetricsValid(m) ==> MetricsValid(r)
    ensures r.misses == m.misses + 1 && r.hits == m.hits && r.totalSize == m.totalSize + size
  {
    m.(misses := m.misses + 1, totalRequests := m.totalRequests + 1, totalSize := m.totalSize + size)
  }

  /** `reset`: all counters back to zero and the clock restarted. */
  function Reset(now: int): (r: Metrics)
    ensures MetricsValid(r) && r.hits == 0 && r.misses == 0 && r.totalRequests == 0 && r.totalSize == 0
  {
    NewMetrics(now)
  }

  /** `get_hit_rate`: the fraction of requests that hit, 0 before the first request. */
  function HitRate(m: Metrics): (r: real)
    ensures m.totalRequests == 0 ==> r == 0.0
    ensures MetricsValid(m) ==> 0.0 <= r <= 1.0
  {
    if m.totalRequests > 0 then m.hits as real / m.totalRequests as real else 0.0
  }

  datatype Event = Hit | Miss(size: nat)

  function Replay(m: Metrics, evs: seq<Event>): Metrics
    decreases |evs|
  {
    if |evs| == 0 then m
    else Replay(match evs[0] case Hit => RecordHit(m) case Miss(sz) => RecordMiss(m, sz), evs[1..])
  }

  function HitCount(evs: seq<Event>): nat {
    if |evs| == 0 then 0 else (if evs[0].Hit? then 1 else 0) + HitCount(evs[1..])
  }

  /**
   * After any sequence of recorded hits and misses, the counters say how
   * many of each there were, and hits plus misses is the request count.
   */
  lemma {:induction false} ReplayCounts(m: Metrics, evs: seq<Event>)
    ensures Replay(m, evs).hits == m.hits + HitCount(evs)
    ensures Replay(m, evs).misses == m.misses + |evs| - HitCount(evs)
    ensures Replay(m, evs).totalRequests == m.totalRequests + |evs|
    ensures MetricsValid(m) ==> MetricsValid(Replay(m, evs))
    decreases |evs|
  {
    if |evs| > 0 {
      var m1 := match evs[0] case Hit => RecordHit(m) case Miss(sz) => RecordMiss(m, sz);
      ReplayCounts(m1, evs[1..]);
    }
  }

  // ------------------------------------------------------------------ items

  datatype Item<V> = Item(value: V, createdAt: int, expiresAt: Option<int>, accessCount: nat, lastAccessed: int)

  /** `CacheItem(value, ttl)`: a falsy ttl (none or zero) means the item never expires. */
  function NewItem<V>(value: V, ttl: Option<int>, now: int): (r: Item<V>)
    ensures r.expiresAt.Some? <==> TruthyInt(ttl)
    ensures r.expiresAt.Some? ==> r.expiresAt.value == now + ttl.value
    ensures r.value == value && r.accessCount == 0 && r.lastAccessed == now
  {
    Item(value, now, if TruthyInt(ttl) then Some(now + ttl.value) else None, 0, now)
  }

  /** `is_expired`: only strictly after the expiry time, so an item is still valid at that instant. */
  predicate IsExpired<V>(it: Item<V>, now: int) {
    it.expiresAt.Some? && now > it.expiresAt.value
  }

  lemma ExpiryBoundary<V>(value: V, ttl: int, now: int)
    requires ttl > 0
    ensures !IsExpired(NewItem(value, Some(ttl), now), now + ttl)
    ensures IsExpired(NewItem(value, Some(ttl), now), now + ttl + 1)
    ensures forall t :: !IsExpired(NewItem(value, None, now), t)
  {
  }

  /** `access`: counts the access and remembers when it happened. */
  function Access<V>(it: Item<V>, now: int): (r: Item<V>)
    ensures r.value == it.value && r.expiresAt == it.expiresAt && r.createdAt == it.createdAt
    ensures r.accessCount == it.accessCount + 1 && r.lastAccessed == now
  {
    it.(accessCount := it.accessCount + 1, lastAccessed := now)
  }

  // ------------------------------------------------------------------ store

  /**
   * The store: the entries, and their keys in the dictionary's iteration
   * order (insertion order; re-setting a key keeps its place).
   */
  datatype Cache<V> = Cache(entries: map<string, Item<V>>, order: seq<string>, maxSize: int, defaultTtl: int, metrics: Metrics)

  /** The iteration order lists every key exactly once. */
  ghost predicate Wf<V>(c: Cache<V>) {
    Seqs.Distinct(c.order) && forall k :: k in c.order <==> k in c.entries
  }

  lemma WfSize<V>(c: Cache<V>)
    requires Wf(c)
    ensures |c.entries| == |c.order|
  {
    Seqs.DistinctCard(c.order);
    assert (set k | k in c.order) == c.entries.Keys;
  }

  const DefaultMaxSize := 1000
  const DefaultTtl := 3600

  function NewCache<V>(maxSize: int, defaultTtl: int, now: int): (r: Cache<V>)
    ensures Wf(r) && |r.entries| == 0 && MetricsValid(r.metrics)
  {
    Cache(map[], [], maxSize, defaultTtl, NewMetrics(now))
  }

  /** Keeps the entries whose key satisfies `keep`, in the same order. */
  function Keep<V>(c: Cache<V>, keep: string -> bool): (r: Cache<V>)
    requires Wf(c)
    ensures Wf(r)
    ensures forall k :: k in r.entries <==> k in c.entries && keep(k)
    ensures forall k :: k in r.entries ==> r.entries[k] == c.entries[k]
    ensures r.order == Seqs.Filter(c.order, keep)
    ensures r.metrics == c.metrics && r.maxSize == c.maxSize && r.defaultTtl == c.defaultTtl
  {
    var order := Seqs.Filter(c.order, keep);
    Seqs.FilterDistinct(c.order, keep);
    forall k ensures k in order <==> k in c.order && keep(k) {
      Seqs.FilterMembership(c.order, keep, k);
    }
    c.(entries := map k | k in c.entries && keep(k) :: c.entries[k], order := order)
  }

  /** `_cleanup_expired`: drops exactly the entries that have expired. */
  function CleanupExpired<V>(c: Cache<V>, now: int): (r: Cache<V>)
    requires Wf(c)
    ensures Wf(r)
    ensures forall k :: k in r.entries <==> k in c.entries && !IsExpired(c.entries[k], now)
    ensures forall k :: k in r.entries ==> r.entries[k] == c.entries[k]
    ensures r.metrics == c.metrics && r.maxSize == c.maxSize && r.defaultTtl == c.defaultTtl
  {
    Keep(c, k => k in c.entries && !IsExpired(c.entries[k], now))
  }

  /** The position in `order` of the first key whose entry was accessed least recently. */
  function FirstLru<V>(entries: map<string, Item<V>>, order: seq<string>): (i: nat)
    requires |order| > 0 && forall j :: 0 <= j < |order| ==> order[j] in entries
    ensures i < |order|
    ensures forall j :: 0 <= j < |order| ==> entries[order[i]].lastAccessed <= entries[order[j]].lastAccessed
    ensures forall j :: 0 <= j < i ==> entries[order[j]].lastAccessed > entries[order[i]].lastAccessed
  {
    if |order| == 1 then 0
    else
      var i := FirstLru(entries, order[1..]);
      assert forall j :: 1 <= j < |order| ==> order[j] == order[1..][j - 1];
      if entries[order[0]].lastAccessed <= entries[order[1..][i]].lastAccessed then 0 else i + 1
  }

  datatype CacheError = EmptyMin

  /** The key `_evict_lru` removes: the first, in iteration order, among the least recently accessed. */
  function Victim<V>(c: Cache<V>): (k: string)
    requires Wf(c) && |c.order| > 0
    ensures k in c.entries
    ensures forall j :: j in c.entries ==> c.entries[k].lastAccessed <= c.entries[j].lastAccessed
  {
    var i := FirstLru(c.entries, c.order);
    assert forall j :: j in c.entries ==> exists m :: 0 <= m < |c.order| && c.order[m] == j;
    c.order[i]
  }

  /**
   * `_evict_lru`: once the store holds `max_size` entries or more, the victim
   * goes. On an empty store with a `max_size` of zero or less, `min` of no
   * keys raises.
   */
  function EvictLru<V>(c: Cache<V>): (r: Result<Cache<V>, CacheError>)
    requires Wf(c)
    ensures r.Err? <==> |c.entries| == 0 && c.maxSize <= 0
    ensures r.Ok? ==> Wf(r.value) && r.value.metrics == c.metrics && r.value.maxSize == c.maxSize && r.value.defaultTtl == c.defaultTtl
    ensures r.Ok? && |c.entries| < c.maxSize ==> r.value == c
    ensures r.Ok? && |c.entries| >= c.maxSize ==> |c.order| > 0 && r.value.entries == c.entries - {Victim(c)}
  {
    WfSize(c);
    if |c.entries| < c.maxSize then Ok(c)
    else if |c.entries| == 0 then Err(EmptyMin)
    else
      var k := Victim(c);
      var r := Keep(c, j => j != k);
      assert r.entries == c.entries - {k};
      Ok(r)
  }

  /** Eviction removes exactly one entry when the store is full, and none otherwise. */
  lemma EvictLruSize<V>(c: Cache<V>)
    requires Wf(c) && EvictLru(c).Ok?
    ensures |EvictLru(c).value.entries| == if |c.entries| >= c.maxSize then |c.entries| - 1 else |c.entries|
  {
  }

  /**
   * `get`: after dropping expired entries, a present key is a hit that
   * returns the value and counts the access; otherwise a miss returning the
   * default.
   */
  function Get<V>(c: Cache<V>, key: string, default: V, now: int): (r: (Cache<V>, V))
    requires Wf(c)
    ensures Wf(r.0)
    ensures var live := CleanupExpired(c, now);
      && (key in live.entries ==> r.1 == live.entries[key].value && r.0.metrics == RecordHit(c.metrics)
                                  && r.0.entries == live.entries[key := Access(live.entries[key], now)])
      && (key !in live.entries ==> r.1 == default && r.0.metrics == RecordMiss(c.metrics, 0) && r.0.entries == live.entries)
    ensures forall k :: k in r.0.entries ==> !IsExpired(r.0.entries[k], now)
    ensures key in c.entries && !IsExpired(c.entries[key], now) ==> r.1 == c.entries[key].value
    ensures r.0.maxSize == c.maxSize && r.0.defaultTtl == c.defaultTtl
  {
    var live := CleanupExpired(c, now);
    if key in live.entries then
      (live.(entries := live.entries[key := Access(live.entries[key], now)], metrics := RecordHit(c.metrics)),
       live.entries[key].value)
    else
      (live.(metrics := RecordMiss(c.metrics, 0)), default)
  }

  /** `cache[key] = item`: a new key goes to the end of the iteration order, an existing one keeps its place. */
  function Put<V>(c: Cache<V>, key: string, item: Item<V>): (r: Cache<V>)
    requires Wf(c)
    ensures Wf(r)
    ensures r.entries == c.entries[key := item]
    ensures r.metrics == c.metrics && r.maxSize == c.maxSize && r.defaultTtl == c.defaultTtl
  {
    if key in c.entries then c.(entries := c.entries[key := item])
    else
      var order := c.order + [key];
      assert forall i :: 0 <= i < |c.order| ==> order[i] == c.order[i];
      c.(entries := c.entries[key := item], order := order)
  }

  /** The key `set` evicts: the LRU victim among the live entries when they fill the store. */
  function SetVictim<V>(c: Cache<V>, now: int): (v: Option<string>)
    requires Wf(c)
    ensures v.Some? ==> v.value in c.entries && !IsExpired(c.entries[v.value], now)
    ensures v.Some? <==> |CleanupExpired(c, now).entries| >= c.maxSize && |CleanupExpired(c, now).entries| > 0
  {
    var live := CleanupExpired(c, now);
    WfSize(live);
    if |live.entries| >= c.maxSize && |live.order| > 0 then Some(Victim(live)) else None
  }

  /**
   * `set`: drops expired entries, evicts if full, stores the value with the
   * given ttl or, when that is falsy, the default ttl, and counts a miss of
   * the value's size.
   */
  function Set<V>(c: Cache<V>, key: string, value: V, ttl: Option<int>, size: nat, now: int): (r: Result<Cache<V>, CacheError>)
    requires Wf(c)
    ensures r.Err? <==> |CleanupExpired(c, now).entries| == 0 && c.maxSize <= 0
    ensures r.Ok? ==> Wf(r.value)
    ensures r.Ok? ==>
      && key in r.value.entries
      && r.value.entries[key] == NewItem(value, Some(if TruthyInt(ttl) then ttl.value else c.defaultTtl), now)
    ensures r.Ok? ==> r.value.metrics == RecordMiss(c.metrics, size)
    ensures r.Ok? ==> r.value.maxSize == c.maxSize && r.value.defaultTtl == c.defaultTtl
    ensures r.Ok? ==> forall k :: k in r.value.entries && k != key ==> k in c.entries && r.value.entries[k] == c.entries[k]
    ensures r.Ok? ==> forall k :: k in c.entries && !IsExpired(c.entries[k], now) && k != key && SetVictim(c, now) != Some(k) ==>
      k in r.value.entries && r.value.entries[k] == c.entries[k]
    ensures r.Ok? && SetVictim(c, now).Some? && SetVictim(c, now).value != key ==> SetVictim(c, now).value !in r.value.entries
  {
    var live := CleanupExpired(c, now);
    var room :- EvictLru(live);
    var t := if TruthyInt(ttl) then ttl.value else c.defaultTtl;
    var stored := Put(room, key, NewItem(value, Some(t), now));
    Ok(stored.(metrics := RecordMiss(c.metrics, size)))
  }

  /** With a positive bound, a store within the bound stays within it after `set`. */
  lemma SetKeepsBound<V>(c: Cache<V>, key: string, value: V, ttl: Option<int>, size: nat, now: int)
    requires Wf(c)
    requires c.maxSize >= 1 && |c.entries| <= c.maxSize
    ensures Set(c, key, value, ttl, size, now).Ok?
    ensures |Set(c, key, value, ttl, size, now).value.entries| <= c.maxSize
  {
    var live := CleanupExpired(c, now);
    assert live.entries.Keys <= c.entries.Keys;
    Tables.SubsetCard(live.entries.Keys, c.entries.Keys);
    EvictLruSize(live);
    var room := EvictLru(live).value;
    var e := Set(c, key, value, ttl, size, now).value.entries;
    assert e.Keys <= room.entries.Keys + {key};
    Tables.SubsetCard(e.Keys, room.entries.Keys + {key});
  }

  /** `get` never lets an expired entry survive. */
  lemma GetDropsExpired<V>(c: Cache<V>, key: string, default: V, now: int)
    requires Wf(c)
    ensures forall k :: k in c.entries && IsExpired(c.entries[k], now) ==> k !in Get(c, key, default, now).0.entries
  {
  }

  /** Reading a key back at the instant it was set returns the value and counts a hit. */
  lemma SetThenGet<V>(c: Cache<V>, key: string, value: V, default: V, ttl: Option<int>, size: nat, now: int)
    requires Wf(c)
    requires Set(c, key, value, ttl, size, now).Ok?
    requires TruthyInt(ttl) ==> ttl.value > 0
    requires !TruthyInt(ttl) ==> c.defaultTtl >= 0
    ensures var c1 := Set(c, key, value, ttl, size, now).value;
      Get(c1, key, default, now).1 == value && Get(c1, key, default, now).0.metrics == RecordHit(c1.metrics)
  {
    var c1 := Set(c, key, value, ttl, size, now).value;
    assert !IsExpired(c1.entries[key], now);
  }

  /** `delete`: reports whether the key was present; afterwards it is absent and nothing else changed. */
  function Delete<V>(c: Cache<V>, key: string): (r: (Cache<V>, bool))
    requires Wf(c)
    ensures Wf(r.0)
    ensures r.1 <==> key in c.entries
    ensures r.0.entries == c.entries - {key}
    ensures r.0.metrics == c.metrics && r.0.maxSize == c.maxSize && r.0.defaultTtl == c.defaultTtl
  {
    var r := Keep(c, k => k != key);
    assert r.entries == c.entries - {key};
    (r, key in c.entries)
  }

  /** `clear`: no entries and fresh metrics. */
  function Clear<V>(c: Cache<V>, now: int): (r: Cache<V>)
    ensures Wf(r)
    ensures |r.entries| == 0
    ensures r.metrics == Reset(now)
    ensures r.maxSize == c.maxSize && r.defaultTtl == c.defaultTtl
  {
    c.(entries := map[], order := [], metrics := Reset(now))
  }

  /** The keys `invalidate_cache_pattern` deletes: those containing the pattern. */
  function MatchingKeys<V>(entries: map<string, Item<V>>, pattern: string): set<string> {
    set k | k in entries && Contains(k, pattern)
  }

  /** `invalidate_cache_pattern`: deletes every key containing the pattern and returns how many. */
  function InvalidatePattern<V>(c: Cache<V>, pattern: string): (r: (Cache<V>, nat))
    requires Wf(c)
    ensures Wf(r.0)
    ensures forall k :: k in r.0.entries <==> k in c.entries && !Contains(k, pattern)
    ensures forall k :: k in r.0.entries ==> r.0.entries[k] == c.entries[k]
    ensures r.1 == |MatchingKeys(c.entries, pattern)|
    ensures r.1 == |c.entries| - |r.0.entries|
    ensures r.0.metrics == c.metrics
  {
    var gone := MatchingKeys(c.entries, pattern);
    var r := Keep(c, k => !Contains(k, pattern));
    assert c.entries.Keys == r.entries.Keys + gone;
    assert r.entries.Keys * gone == {};
    (r, |gone|)
  }

  /** The empty pattern is contained in every key, so it empties the cache. */
  lemma EmptyPatternClearsAll<V>(c: Cache<V>)
    requires Wf(c)
    ensures |InvalidatePattern(c, "").0.entries| == 0
  {
    forall k | k in c.entries ensures Contains(k, "") {
      assert OccursAt("", k, 0);
    }
    assert InvalidatePattern(c, "").0.entries.Keys == {};
  }

  /** The key the decorator uses without a key function: `module.name:digest`. */
  function DecoratorKey(module_: string, name: string, digest: string): string {
    module_ + "." + name + ":" + digest
  }

  /**
   * The `smart_cache` decorator around one call: a cached value other than
   * `None` is returned as is; otherwise `computed` (the wrapped function's
   * result) is stored and returned.
   */
  function Cached<V>(c: Cache<Option<V>>, key: string, computed: Option<V>, ttl: Option<int>, size: nat, now: int)
    : (r: Result<(Cache<Option<V>>, Option<V>), CacheError>)
    requires Wf(c)
    ensures var (c1, hit) := Get(c, key, None, now);
      && (hit.Some? ==> r == Ok((c1, hit)))
      && (hit.None? ==> (r.Ok? <==> Set(c1, key, computed, ttl, size, now).Ok?))
      && (hit.None? && r.Ok? ==> r.value == (Set(c1, key, computed, ttl, size, now).value, computed))
  {
    var (c1, hit) := Get(c, key, None, now);
    if hit.Some? then Ok((c1, hit))
    else
      var c2 :- Set(c1, key, computed, ttl, size, now);
      Ok((c2, computed))
  }

  /** A stored `None` counts as a miss: the wrapped function runs again and its result replaces it. */
  lemma CachedNoneRecomputes<V>(c: Cache<Option<V>>, key: string, computed: Option<V>, ttl: Option<int>, size: nat, now: int)
    requires Wf(c)
    requires key in c.entries && !IsExpired(c.entries[key], now)
    requires c.entries[key].value.None?
    requires c.maxSize >= 1
    ensures Cached(c, key, computed, ttl, size, now).Ok?
    ensures Cached(c, key, computed, ttl, size, now).value.1 == computed
  {
    var (c1, hit) := Get(c, key, None, now);
    assert hit == None;
  }
}
