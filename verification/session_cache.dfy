/**
 * The prefix-keyed query cache kept in session state. A cached result for
 * key `k` lives under `cache_k` and the moment it was stored under
 * `cache_time_k`; an entry is fresh while its age is below the caller's ttl.
 * The clock reading `now` is a parameter, and so is the MD5 digest of the
 * call's arguments.
 */
module SessionCache {
  import opened Wrappers
  import opened PyText
  import opened Session
  import Seqs

  const CachePrefix := "cache_"
  const TimePrefix := "cache_time_"

  /** The `ttl` that `get`, `cleanup_expired_cache` and `cache_query` default to. */
  const DefaultTtl := 300

  function ValueKey(k: string): string {
    CachePrefix + k
  }

  function TimeKey(k: string): string {
    TimePrefix + k
  }

  /** The two keys of one entry never coincide, and each determines the cache key. */
  lemma EntryKeys(k: string, k': string)
    ensures ValueKey(k) != TimeKey(k)
    ensures ValueKey(k) == ValueKey(k') <==> k == k'
    ensures TimeKey(k) == TimeKey(k') <==> k == k'
  {
    assert |ValueKey(k)| != |TimeKey(k)|;
    if ValueKey(k) == ValueKey(k') {
      assert k == ValueKey(k)[|CachePrefix|..] && k' == ValueKey(k')[|CachePrefix|..];
    }
    if TimeKey(k) == TimeKey(k') {
      assert k == TimeKey(k)[|TimePrefix|..] && k' == TimeKey(k')[|TimePrefix|..];
    }
  }

  /** Every timestamp key also starts with the value prefix. */
  lemma TimePrefixIsCachePrefix(key: string)
    requires StartsWith(key, TimePrefix)
    ensures StartsWith(key, CachePrefix)
  {
    assert key[..|CachePrefix|] == key[..|TimePrefix|][..|CachePrefix|];
  }

  // ---------------------------------------------------------------------
  // Keys

  /** The key before any argument suffix: `{prefix}_{func}`, or the function name alone. */
  function KeyBase(funcName: string, keyPrefix: string): string {
    if |keyPrefix| > 0 then keyPrefix + "_" + funcName else funcName
  }

  /**
   * `generate_cache_key`. `hasArgs` says whether the call had positional or
   * keyword arguments and `digest` is the MD5 hex digest of their text.
   */
  function GenerateCacheKey(funcName: string, keyPrefix: string, hasArgs: bool, digest: string): (r: string)
    ensures StartsWith(r, KeyBase(funcName, keyPrefix))
    ensures |keyPrefix| > 0 ==> StartsWith(r, keyPrefix + "_") && r[|keyPrefix| + 1..][..|funcName|] == funcName
    ensures !hasArgs <==> r == KeyBase(funcName, keyPrefix)
    ensures hasArgs ==> r[|KeyBase(funcName, keyPrefix)|..] == "_" + Seqs.SliceTo(digest, 8)
  {
    var base := KeyBase(funcName, keyPrefix);
    var r := if hasArgs then base + "_" + Seqs.SliceTo(digest, 8) else base;
    assert r[..|base|] == base;
    assert |keyPrefix| > 0 ==> r[..|keyPrefix| + 1] == base[..|keyPrefix| + 1];
    r
  }

  /** Calls without arguments of different functions under one prefix get different keys; so do calls whose digests differ in their first eight characters. */
  lemma GenerateCacheKeyDistinguishes(f: string, f': string, p: string, d: string, d': string)
    ensures f != f' ==> GenerateCacheKey(f, p, false, d) != GenerateCacheKey(f', p, false, d')
    ensures Seqs.SliceTo(d, 8) != Seqs.SliceTo(d', 8) ==> GenerateCacheKey(f, p, true, d) != GenerateCacheKey(f, p, true, d')
  {
    var b := KeyBase(f, p);
    if f != f' && |p| > 0 {
      assert f == KeyBase(f, p)[|p| + 1..] && f' == KeyBase(f', p)[|p| + 1..];
    }
    if GenerateCacheKey(f, p, true, d) == GenerateCacheKey(f, p, true, d') {
      var x, y := "_" + Seqs.SliceTo(d, 8), "_" + Seqs.SliceTo(d', 8);
      assert x == GenerateCacheKey(f, p, true, d)[|b|..] == y;
      assert Seqs.SliceTo(d, 8) == x[1..] && Seqs.SliceTo(d', 8) == y[1..];
    }
  }

  // ---------------------------------------------------------------------
  // get / set / _remove_cache_item

  /**
   * `session_state.get(key, 0)` used as a number: a missing key reads as 0,
   * and any non-number raises (`None` means the `TypeError`).
   */
  function StampOr0<D>(s: State<D>, key: string): (r: Option<int>)
    ensures key !in s ==> r == Some(0)
    ensures key in s ==> r == AsNumber(s[key])
  {
    if key !in s then Some(0) else AsNumber(s[key])
  }

  /** The entry under `k` holds a non-`None` value whose timestamp reads as a number less than `ttl` old. */
  predicate Fresh<D>(s: State<D>, k: string, ttl: int, now: int) {
    Holds(s, ValueKey(k)) && StampOr0(s, TimeKey(k)).Some? && now - StampOr0(s, TimeKey(k)).value < ttl
  }

  /** The entry under `k` holds a non-`None` value whose timestamp reads as a number at least `ttl` old. */
  predicate Stale<D>(s: State<D>, k: string, ttl: int, now: int) {
    Holds(s, ValueKey(k)) && StampOr0(s, TimeKey(k)).Some? && now - StampOr0(s, TimeKey(k)).value >= ttl
  }

  /** `_remove_cache_item`: drops both keys of the entry, whether or not they exist. */
  function RemoveItem<D>(s: State<D>, k: string): (r: State<D>)
    ensures ValueKey(k) !in r && TimeKey(k) !in r
    ensures forall key :: key != ValueKey(k) && key != TimeKey(k) ==> (key in r <==> key in s)
    ensures forall key :: key in r ==> r[key] == s[key]
  {
    DeleteKeys(s, {ValueKey(k), TimeKey(k)})
  }

  /**
   * `get`: the cached value while it is fresh. A stale entry is removed and
   * reads as `None`; so does a missing or `None` value and an unreadable
   * timestamp, which leave the state alone.
   */
  function Get<D>(s: State<D>, k: string, ttl: int, now: int): (r: (State<D>, Option<Val<D>>))
    ensures r.1.Some? <==> Fresh(s, k, ttl, now)
    ensures r.1.Some? ==> r.1.value == s[ValueKey(k)] && !r.1.value.PyNone?
    ensures Stale(s, k, ttl, now) ==> r.0 == RemoveItem(s, k)
    ensures !Stale(s, k, ttl, now) ==> r.0 == s
  {
    var v := Lookup(s, ValueKey(k));
    if v.PyNone? then (s, None)
    else match StampOr0(s, TimeKey(k))
      case None => (s, None)
      case Some(t) => if now - t < ttl then (s, Some(v)) else (RemoveItem(s, k), None)
  }

  /** `set`: stores the value and the current time; it always reports success. */
  function Set<D>(s: State<D>, k: string, v: Val<D>, now: int): (r: (State<D>, bool))
    ensures r.1
    ensures ValueKey(k) in r.0 && r.0[ValueKey(k)] == v
    ensures TimeKey(k) in r.0 && r.0[TimeKey(k)] == Num(now)
    ensures forall key :: key != ValueKey(k) && key != TimeKey(k) ==> (key in r.0 <==> key in s)
    ensures forall key :: key in s && key != ValueKey(k) && key != TimeKey(k) ==> r.0[key] == s[key]
  {
    EntryKeys(k, k);
    (s[ValueKey(k) := v][TimeKey(k) := Num(now)], true)
  }

  /** Reading back a non-`None` value before `ttl` has passed returns it and changes nothing. */
  lemma SetThenGet<D>(s: State<D>, k: string, v: Val<D>, stored: int, ttl: int, now: int)
    requires !v.PyNone?
    requires now - stored < ttl
    ensures Get(Set(s, k, v, stored).0, k, ttl, now) == (Set(s, k, v, stored).0, Some(v))
  {
  }

  /** A cached `None` is always a miss. */
  lemma SetNoneMisses<D>(s: State<D>, k: string, stored: int, ttl: int, now: int)
    ensures Get(Set(s, k, PyNone, stored).0, k, ttl, now).1 == None
  {
  }

  /** Once `ttl` has passed, `get` misses and neither key of the entry remains. */
  lemma GetAfterExpiry<D>(s: State<D>, k: string, v: Val<D>, stored: int, ttl: int, now: int)
    requires !v.PyNone?
    requires now - stored >= ttl
    ensures Get(Set(s, k, v, stored).0, k, ttl, now).1 == None
    ensures ValueKey(k) !in Get(Set(s, k, v, stored).0, k, ttl, now).0
    ensures TimeKey(k) !in Get(Set(s, k, v, stored).0, k, ttl, now).0
  {
    var s1 := Set(s, k, v, stored).0;
    assert Stale(s1, k, ttl, now);
  }

  // ---------------------------------------------------------------------
  // clear

  /** The two prefixes `clear` removes: those of the entries whose cache key starts with the given prefix, or every entry. */
  predicate Cleared(key: string, prefix: Option<string>) {
    if TruthyStr(prefix) then StartsWith(key, CachePrefix + prefix.value) || StartsWith(key, TimePrefix + prefix.value)
    else StartsWith(key, CachePrefix) || StartsWith(key, TimePrefix)
  }

  /** `clear(prefix)`: removes the matching keys and returns how many there were. */
  function Clear<D>(s: State<D>, prefix: Option<string>): (r: (State<D>, nat))
    ensures forall key :: key in r.0 <==> key in s && !Cleared(key, prefix)
    ensures forall key :: key in r.0 ==> r.0[key] == s[key]
    ensures r.1 == |s.Keys| - |r.0.Keys|
  {
    var gone := set key | key in s && Cleared(key, prefix);
    var r := DeleteKeys(s, gone);
    assert r.Keys == s.Keys - gone;
    (r, |gone|)
  }

  /** Clearing with a prefix removes both keys of every entry whose cache key starts with it. */
  lemma ClearPrefixRemovesEntry<D>(s: State<D>, p: string, k: string)
    requires |p| > 0 && StartsWith(k, p)
    ensures ValueKey(k) !in Clear(s, Some(p)).0 && TimeKey(k) !in Clear(s, Some(p)).0
  {
    assert ValueKey(k)[..|CachePrefix + p|] == CachePrefix + p;
    assert TimeKey(k)[..|TimePrefix + p|] == TimePrefix + p;
  }

  /** Clearing without a prefix keeps exactly the keys that do not start with `cache_`. */
  lemma ClearAllKeepsOthers<D>(s: State<D>, key: string)
    ensures key in Clear(s, None).0 <==> key in s && !StartsWith(key, CachePrefix)
  {
    if StartsWith(key, TimePrefix) {
      TimePrefixIsCachePrefix(key);
    }
  }

  // ---------------------------------------------------------------------
  // get_cache_stats

  datatype Stats = Stats(cacheItems: nat, timeItems: nat, totalItems: nat)

  function CacheKeys<D>(s: State<D>): set<string> {
    set key | key in s && StartsWith(key, CachePrefix)
  }

  function TimeKeys<D>(s: State<D>): set<string> {
    set key | key in s && StartsWith(key, TimePrefix)
  }

  /**
   * `get_cache_stats` as written: a key is matched against `cache_` first, so
   * the `cache_time_` branch is never reached.
   */
  function CacheStatsAsWritten<D>(s: State<D>): (r: Stats)
    ensures r.cacheItems == |CacheKeys(s)|
    ensures r.totalItems == r.cacheItems + r.timeItems
  {
    var c := CacheKeys(s);
    var t := set key | key in s && !StartsWith(key, CachePrefix) && StartsWith(key, TimePrefix);
    Stats(|c|, |t|, |c| + |t|)
  }

  /** As written, timestamps are counted as cached items and `time_items` is always 0. */
  lemma StatsTimeItemsAlwaysZero<D>(s: State<D>)
    ensures CacheStatsAsWritten(s).timeItems == 0
    ensures TimeKeys(s) <= CacheKeys(s)
  {
    var t := set key | key in s && !StartsWith(key, CachePrefix) && StartsWith(key, TimePrefix);
    forall key | key in s && StartsWith(key, TimePrefix) ensures StartsWith(key, CachePrefix) {
      TimePrefixIsCachePrefix(key);
    }
    assert t == {};
  }

  /** The statistics with the timestamp test first, as the two counters intend. */
  function CacheStats<D>(s: State<D>): (r: Stats)
    ensures r.timeItems == |TimeKeys(s)|
    ensures r.cacheItems + r.timeItems == |CacheKeys(s)| == r.totalItems
  {
    var t := TimeKeys(s);
    var c := set key | key in s && StartsWith(key, CachePrefix) && !StartsWith(key, TimePrefix);
    assert CacheKeys(s) == c + t && c !! t by {
      forall key | key in t ensures StartsWith(key, CachePrefix) {
        TimePrefixIsCachePrefix(key);
      }
    }
    Stats(|c|, |t|, |c| + |t|)
  }

  /** One stored entry: as written it counts two cached items and no timestamp; the corrected count is one of each. */
  lemma StatsOfOneEntry<D>(v: Val<D>, now: int)
    ensures CacheStatsAsWritten(Set(map[], "a", v, now).0) == Stats(2, 0, 2)
    ensures CacheStats(Set(map[], "a", v, now).0) == Stats(1, 1, 2)
  {
    var s := Set(map[], "a", v, now).0;
    assert ValueKey("a") == "cache_a" && TimeKey("a") == "cache_time_a";
    assert s.Keys == {"cache_a", "cache_time_a"};
    assert StartsWith("cache_time_a", TimePrefix) && !StartsWith("cache_a", TimePrefix);
    assert CacheKeys(s) == {"cache_a", "cache_time_a"};
    assert TimeKeys(s) == {"cache_time_a"};
    StatsTimeItemsAlwaysZero(s);
    var c := set key | key in s && StartsWith(key, CachePrefix) && !StartsWith(key, TimePrefix);
    assert c == {"cache_a"};
  }

  // ---------------------------------------------------------------------
  // cleanup_expired_cache

  /** Some timestamp key holds a non-number, so the scan raises and the cleanup reports 0. */
  predicate BadStamp<D>(s: State<D>) {
    exists key | key in s :: StartsWith(key, TimePrefix) && AsNumber(s[key]).None?
  }

  /** The timestamp keys at least `ttl` old. */
  function ExpiredStamps<D>(s: State<D>, ttl: int, now: int): set<string> {
    set key | key in s && StartsWith(key, TimePrefix) && AsNumber(s[key]).Some? && now - AsNumber(s[key]).value >= ttl
  }

  /** Every entry named in `ks` removed, both keys. */
  function RemoveItems<D>(s: State<D>, ks: set<string>): (r: State<D>)
    ensures forall k :: k in ks ==> ValueKey(k) !in r && TimeKey(k) !in r
    ensures forall key :: key in r ==> key in s && r[key] == s[key]
    ensures forall key :: key in s && (forall k :: k in ks ==> key != ValueKey(k) && key != TimeKey(k)) ==> key in r
  {
    DeleteKeys(s, (set k | k in ks :: ValueKey(k)) + (set k | k in ks :: TimeKey(k)))
  }

  /**
   * `cleanup_expired_cache` as written: the cache key of a timestamp key is
   * recovered with `str.replace`, which deletes every occurrence of
   * `cache_time_` and not just the leading one.
   */
  function CleanupAsWritten<D>(s: State<D>, ttl: int, now: int): (r: (State<D>, nat))
    ensures BadStamp(s) ==> r == (s, 0)
    ensures !BadStamp(s) ==> r.1 == |ExpiredStamps(s, ttl, now)|
  {
    if BadStamp(s) then (s, 0)
    else
      var expired := ExpiredStamps(s, ttl, now);
      (RemoveItems(s, set key | key in expired :: ReplaceAll(key, TimePrefix, "")), |expired|)
  }

  /** The cache key a timestamp key belongs to: what follows the leading prefix. */
  function StampOwner(key: string): (k: string)
    requires StartsWith(key, TimePrefix)
    ensures TimeKey(k) == key
  {
    key[|TimePrefix|..]
  }

  /** `cleanup_expired_cache` recovering each cache key by stripping the prefix once. */
  function Cleanup<D>(s: State<D>, ttl: int, now: int): (r: (State<D>, nat))
    ensures BadStamp(s) ==> r == (s, 0)
    ensures !BadStamp(s) ==> r.1 == |ExpiredStamps(s, ttl, now)|
  {
    if BadStamp(s) then (s, 0)
    else
      var expired := ExpiredStamps(s, ttl, now);
      (RemoveItems(s, set key | key in expired :: StampOwner(key)), |expired|)
  }

  /**
   * The corrected cleanup removes every expired timestamp together with its
   * value, leaves no expired timestamp behind, and keeps every key that does
   * not belong to an expired entry.
   */
  lemma CleanupRemovesExpired<D>(s: State<D>, ttl: int, now: int)
    requires !BadStamp(s)
    ensures forall key :: key in ExpiredStamps(s, ttl, now) ==>
      key !in Cleanup(s, ttl, now).0 && ValueKey(StampOwner(key)) !in Cleanup(s, ttl, now).0
    ensures ExpiredStamps(Cleanup(s, ttl, now).0, ttl, now) == {}
    ensures forall key ::
      (key in s && key !in ExpiredStamps(s, ttl, now) && (forall t :: t in ExpiredStamps(s, ttl, now) ==> key != ValueKey(StampOwner(t))))
      ==> (key in Cleanup(s, ttl, now).0 && Cleanup(s, ttl, now).0[key] == s[key])
  {
    var expired := ExpiredStamps(s, ttl, now);
    var owners := set key | key in expired :: StampOwner(key);
    var r := Cleanup(s, ttl, now).0;
    assert r == RemoveItems(s, owners);
    forall key | key in expired
      ensures key !in r && ValueKey(StampOwner(key)) !in r
    {
      assert StampOwner(key) in owners;
    }
    forall key | key in s && key !in expired && (forall t :: t in expired ==> key != ValueKey(StampOwner(t)))
      ensures key in r
    {
      forall k | k in owners ensures key != ValueKey(k) && key != TimeKey(k) {
        var t :| t in expired && k == StampOwner(t);
        assert TimeKey(k) == t;
      }
    }
    assert forall key :: key in ExpiredStamps(r, ttl, now) ==> key in expired;
  }

  /** `str.replace` deletes the inner occurrence of the prefix as well as the leading one. */
  lemma ReplaceDropsBothPrefixes()
    ensures ReplaceAll("cache_time_xcache_time_", TimePrefix, "") == "x"
  {
    var tk := "cache_time_xcache_time_";
    assert StartsWith(tk, TimePrefix);
    assert tk[|TimePrefix|..] == "xcache_time_";
    assert "xcache_time_"[0] == 'x' != TimePrefix[0];
    assert !StartsWith("xcache_time_", TimePrefix);
    assert "xcache_time_"[1..] == TimePrefix;
    assert StartsWith(TimePrefix, TimePrefix);
    assert TimePrefix[|TimePrefix|..] == "";
    assert ReplaceAll("", TimePrefix, "") == "";
    assert ReplaceAll(TimePrefix, TimePrefix, "") == "";
    assert ReplaceAll("xcache_time_", TimePrefix, "") == "x";
  }

  /**
   * A state holding an expired entry whose cache key contains `cache_time_`
   * (`xcache_time_`) next to a live entry under `x`.
   */
  function Tricky(d: int): State<int> {
    map["cache_time_xcache_time_" := Num(0), "cache_xcache_time_" := Obj(d), "cache_x" := Obj(d)]
  }

  lemma TrickyExpired(d: int)
    ensures !BadStamp(Tricky(d))
    ensures ExpiredStamps(Tricky(d), 300, 1000) == {"cache_time_xcache_time_"}
  {
    var s := Tricky(d);
    assert StartsWith("cache_time_xcache_time_", TimePrefix);
    assert "cache_xcache_time_"[6] == 'x' != TimePrefix[6];
    assert !StartsWith("cache_xcache_time_", TimePrefix);
    assert !StartsWith("cache_x", TimePrefix);
  }

  /** Removing one entry keeps exactly the keys that are not its two keys. */
  lemma RemoveOne<D>(s: State<D>, k: string, key: string)
    ensures key in RemoveItems(s, {k}) <==> key in s && key != ValueKey(k) && key != TimeKey(k)
  {
    assert k in {k};
  }

  /** With a single expired timestamp, both cleanups remove one entry and report 1; they differ in which entry. */
  lemma CleanupOneExpired<D>(s: State<D>, ttl: int, now: int, tk: string)
    requires !BadStamp(s) && ExpiredStamps(s, ttl, now) == {tk}
    ensures CleanupAsWritten(s, ttl, now) == (RemoveItems(s, {ReplaceAll(tk, TimePrefix, "")}), 1)
    ensures Cleanup(s, ttl, now) == (RemoveItems(s, {StampOwner(tk)}), 1)
  {
    var e := ExpiredStamps(s, ttl, now);
    assert tk in e;
    assert StartsWith(tk, TimePrefix);
    var owners := set key | key in e :: StampOwner(key);
    assert owners == {StampOwner(tk)};
    assert Cleanup(s, ttl, now) == (RemoveItems(s, owners), |e|);
    var replaced := set key | key in e :: ReplaceAll(key, TimePrefix, "");
    assert replaced == {ReplaceAll(tk, TimePrefix, "")};
    assert CleanupAsWritten(s, ttl, now) == (RemoveItems(s, replaced), |e|);
  }

  /** As written, the expired timestamp of `Tricky` is taken for the entry `x`, whose keys are not that timestamp. */
  lemma TrickyReplaced()
    ensures ReplaceAll("cache_time_xcache_time_", TimePrefix, "") == "x"
    ensures ValueKey("x") == "cache_x"
    ensures ValueKey("x") != "cache_time_xcache_time_" && TimeKey("x") != "cache_time_xcache_time_"
  {
    ReplaceDropsBothPrefixes();
    assert |TimeKey("x")| != |"cache_time_xcache_time_"|;
  }

  /**
   * As written, the cleanup of `Tricky` reports one expired entry, keeps it,
   * and deletes the live entry under `x` instead.
   */
  lemma CleanupAsWrittenHitsWrongEntry(d: int)
    ensures CleanupAsWritten(Tricky(d), 300, 1000).1 == 1
    ensures "cache_time_xcache_time_" in CleanupAsWritten(Tricky(d), 300, 1000).0
    ensures "cache_x" !in CleanupAsWritten(Tricky(d), 300, 1000).0
  {
    var tk := "cache_time_xcache_time_";
    var s := Tricky(d);
    TrickyExpired(d);
    CleanupOneExpired(s, 300, 1000, tk);
    TrickyReplaced();
    RemoveOne(s, "x", tk);
    RemoveOne(s, "x", "cache_x");
  }

  /** The expired timestamp of `Tricky` belongs to the entry `xcache_time_`, whose keys are not `cache_x`. */
  lemma TrickyOwner()
    ensures StartsWith("cache_time_xcache_time_", TimePrefix)
    ensures StampOwner("cache_time_xcache_time_") == "xcache_time_"
    ensures TimeKey("xcache_time_") == "cache_time_xcache_time_"
    ensures ValueKey("xcache_time_") != "cache_x" && TimeKey("xcache_time_") != "cache_x"
  {
    assert StartsWith("cache_time_xcache_time_", TimePrefix);
    assert |"cache_x"| != |ValueKey("xcache_time_")|;
  }

  /** The corrected cleanup of `Tricky` removes the expired entry and keeps the live one. */
  lemma CleanupRemovesRightEntry(d: int)
    ensures Cleanup(Tricky(d), 300, 1000).1 == 1
    ensures "cache_time_xcache_time_" !in Cleanup(Tricky(d), 300, 1000).0
    ensures "cache_x" in Cleanup(Tricky(d), 300, 1000).0
  {
    var tk := "cache_time_xcache_time_";
    var s := Tricky(d);
    TrickyExpired(d);
    CleanupOneExpired(s, 300, 1000, tk);
    var k := "xcache_time_";
    TrickyOwner();
    RemoveOne(s, k, tk);
    RemoveOne(s, k, "cache_x");
  }

  // ---------------------------------------------------------------------
  // cache_query

  /**
   * The `cache_query` decorator around one call: a fresh cached result is
   * returned as is; otherwise `computed`, the wrapped function's outcome, is
   * stored and returned when it returned, and passed on with nothing stored
   * when it raised. The lookup's removal of a stale entry happens either way.
   */
  function CacheQuery<D>(s: State<D>, funcName: string, keyPrefix: string, hasArgs: bool, digest: string,
                         ttl: int, now: int, computed: Outcome<D>): (r: (State<D>, Outcome<D>))
    ensures var k := GenerateCacheKey(funcName, keyPrefix, hasArgs, digest);
      && (Fresh(s, k, ttl, now) ==> r == (s, Returned(s[ValueKey(k)])))
      && (!Fresh(s, k, ttl, now) ==> r.1 == computed)
      && (!Fresh(s, k, ttl, now) && computed.Returned? ==>
            ValueKey(k) in r.0 && TimeKey(k) in r.0 && r.0[ValueKey(k)] == computed.v && r.0[TimeKey(k)] == Num(now))
      && (computed.Raised? && Stale(s, k, ttl, now) ==> r.0 == RemoveItem(s, k))
      && (computed.Raised? && !Stale(s, k, ttl, now) ==> r.0 == s)
      && (forall x :: x != ValueKey(k) && x != TimeKey(k) ==> (x in r.0 <==> x in s) && (x in s ==> r.0[x] == s[x]))
  {
    var k := GenerateCacheKey(funcName, keyPrefix, hasArgs, digest);
    var (s1, hit) := Get(s, k, ttl, now);
    if hit.Some? then (s1, Returned(hit.value))
    else match computed
      case Raised(_) => (s1, computed)
      case Returned(v) => (Set(s1, k, v, now).0, computed)
  }

  /** After a call that missed, a second call before `ttl` has passed returns the first call's non-`None` result without recomputing. */
  lemma CacheQueryTwice<D>(s: State<D>, f: string, p: string, a: bool, d: string, ttl: int, t1: int, t2: int, c1: Val<D>, c2: Outcome<D>)
    requires !Fresh(s, GenerateCacheKey(f, p, a, d), ttl, t1)
    requires !c1.PyNone?
    requires t2 - t1 < ttl
    ensures var s1 := CacheQuery(s, f, p, a, d, ttl, t1, Returned(c1)).0;
      CacheQuery(s1, f, p, a, d, ttl, t2, c2).1 == Returned(c1)
  {
    var k := GenerateCacheKey(f, p, a, d);
    var s1 := CacheQuery(s, f, p, a, d, ttl, t1, Returned(c1)).0;
    assert Fresh(s1, k, ttl, t2);
  }

  /** A call that raised leaves nothing cached: the next call runs the function again. */
  lemma CacheQueryRaisedRecomputes<D>(s: State<D>, f: string, p: string, a: bool, d: string, ttl: int, t1: int, t2: int,
                                      msg: string, c2: Outcome<D>)
    requires !Fresh(s, GenerateCacheKey(f, p, a, d), ttl, t1)
    ensures var s1 := CacheQuery(s, f, p, a, d, ttl, t1, Raised(msg)).0;
      CacheQuery(s1, f, p, a, d, ttl, t2, c2).1 == c2
  {
    var k := GenerateCacheKey(f, p, a, d);
    var s1 := CacheQuery(s, f, p, a, d, ttl, t1, Raised(msg)).0;
    assert !Fresh(s1, k, ttl, t2);
  }

  /** A function that returned `None` is called again every time. */
  lemma CacheQueryNoneRecomputes<D>(s: State<D>, f: string, p: string, a: bool, d: string, ttl: int, t1: int, t2: int, c2: Outcome<D>)
    ensures var s1 := CacheQuery(s, f, p, a, d, ttl, t1, Returned(PyNone)).0;
      CacheQuery(s1, f, p, a, d, ttl, t2, c2).1 == c2 || Fresh(s, GenerateCacheKey(f, p, a, d), ttl, t1)
  {
  }
}
