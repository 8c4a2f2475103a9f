/**
 * The state manager behind the CRUD pages: which session keys hold cached
 * data for each kind of record, which UI keys belong to each page, and the
 * decorators that clear them after a write, cache a call's result, or turn
 * an exception into a failure return. Session state is a map; the clock
 * reading `now` and Python's `hash` of the call arguments are parameters.
 */
module StateManager {
  import opened Wrappers
  import opened PyText
  import opened Session
  import opened Seqs

  /** The kinds of record the manager knows, in the order of its dependency table. */
  const DataTypes: seq<string> := ["customers", "orders", "fabrics", "inventory", "processing", "bag_types"]

  /** The session keys each kind of record starts out depending on. */
  const InitialDependencies: map<string, seq<string>> := map[
    "customers" := ["customer_cache_data", "customer_cache_key"],
    "orders" := ["order_cache_data", "order_cache_key"],
    "fabrics" := ["fabric_cache_data", "fabric_cache_key"],
    "inventory" := ["inventory_cache_data", "inventory_cache_key"],
    "processing" := ["processing_cache_data", "processing_cache_key"],
    "bag_types" := ["bag_type_cache_data", "bag_type_cache_key"]]

  /** The prefixes of the UI keys each page keeps; bag types have none. */
  const UiPatterns: map<string, seq<string>> := map[
    "customers" := ["edit_customer_", "show_customer_", "customer_search"],
    "orders" := ["edit_order_", "show_details_", "order_search", "selected_orders"],
    "fabrics" := ["edit_fabric_", "show_fabric_", "fabric_search"],
    "inventory" := ["edit_inventory_", "show_inventory_", "inventory_search"],
    "processing" := ["edit_processing_", "show_processing_", "processing_search"]]

  /** The manager's own state; `C` stands for the registered callbacks. */
  datatype Manager<C> = Manager(cacheKeys: set<string>, dependencies: map<string, seq<string>>, callbacks: map<string, seq<C>>)

  /** The dependency table lists exactly the known kinds, each without repeated keys. */
  ghost predicate Valid<C>(m: Manager<C>) {
    && m.dependencies.Keys == set t | t in DataTypes
    && forall t :: t in m.dependencies ==> Distinct(m.dependencies[t])
  }

  function NewManager<C>(): (m: Manager<C>)
    ensures Valid(m)
    ensures m.cacheKeys == {} && m.callbacks == map[]
  {
    var m := Manager({}, InitialDependencies, map[]);
    assert m.dependencies.Keys == set t | t in DataTypes by {
      assert forall t :: t in DataTypes <==> t in InitialDependencies;
    }
    forall t | t in m.dependencies ensures Distinct(m.dependencies[t]) {
      var d := m.dependencies[t];
      assert |d| == 2 && d[0] != d[1];
    }
    m
  }

  /** The dependency keys of a kind, empty for a kind the table does not list. */
  function Deps<C>(m: Manager<C>, t: string): seq<string> {
    if t in m.dependencies then m.dependencies[t] else []
  }

  /**
   * `register_cache_key`: the key is always remembered; it joins the
   * dependency list of a known kind unless it is already there.
   */
  function RegisterCacheKey<C>(m: Manager<C>, key: string, dataType: Option<string>): (r: Manager<C>)
    ensures r.cacheKeys == m.cacheKeys + {key}
    ensures r.callbacks == m.callbacks
    ensures r.dependencies.Keys == m.dependencies.Keys
    ensures forall t :: t in m.dependencies && !(dataType == Some(t) && TruthyStr(dataType)) ==>
      r.dependencies[t] == m.dependencies[t]
    ensures TruthyStr(dataType) && dataType.value in m.dependencies ==>
      var t := dataType.value;
      && key in r.dependencies[t]
      && (key in m.dependencies[t] ==> r.dependencies[t] == m.dependencies[t])
      && (key !in m.dependencies[t] ==> r.dependencies[t] == m.dependencies[t] + [key])
  {
    var m1 := m.(cacheKeys := m.cacheKeys + {key});
    if TruthyStr(dataType) && dataType.value in m.dependencies && key !in m.dependencies[dataType.value] then
      m1.(dependencies := m.dependencies[dataType.value := m.dependencies[dataType.value] + [key]])
    else m1
  }

  /** Registering keeps the table valid: no kind ever lists a key twice. */
  lemma RegisterCacheKeyKeepsValid<C>(m: Manager<C>, key: string, dataType: Option<string>)
    requires Valid(m)
    ensures Valid(RegisterCacheKey(m, key, dataType))
  {
    var r := RegisterCacheKey(m, key, dataType);
    forall t | t in r.dependencies ensures Distinct(r.dependencies[t]) {
      if TruthyStr(dataType) && dataType.value == t && key !in m.dependencies[t] {
        var d := m.dependencies[t];
        assert r.dependencies[t] == d + [key];
        forall i, j | 0 <= i < |d| + 1 && 0 <= j < |d| + 1 && i != j ensures (d + [key])[i] != (d + [key])[j] {
          if i < |d| && j < |d| {
          } else if i == |d| {
            assert (d + [key])[j] == d[j];
          } else {
            assert (d + [key])[i] == d[i];
          }
        }
      }
    }
  }

  /** `register_refresh_callback`: the callback joins the end of its kind's list. */
  function RegisterRefreshCallback<C>(m: Manager<C>, t: string, cb: C): (r: Manager<C>)
    ensures t in r.callbacks && r.callbacks[t] == (if t in m.callbacks then m.callbacks[t] else []) + [cb]
    ensures forall u :: u != t ==> (u in r.callbacks <==> u in m.callbacks)
    ensures forall u :: u in m.callbacks && u != t ==> r.callbacks[u] == m.callbacks[u]
    ensures r.cacheKeys == m.cacheKeys && r.dependencies == m.dependencies
  {
    var prior := if t in m.callbacks then m.callbacks[t] else [];
    m.(callbacks := m.callbacks[t := prior + [cb]])
  }

  /** Registers each callback in turn. */
  function RegisterAll<C>(m: Manager<C>, t: string, cbs: seq<C>): Manager<C>
    decreases |cbs|
  {
    if |cbs| == 0 then m else RegisterAll(RegisterRefreshCallback(m, t, cbs[0]), t, cbs[1..])
  }

  /** Callbacks are kept in registration order. */
  lemma {:induction false} RegisterAllInOrder<C>(m: Manager<C>, t: string, cbs: seq<C>)
    ensures var r := RegisterAll(m, t, cbs);
      && (|cbs| > 0 || t in m.callbacks ==> t in r.callbacks)
      && (t in r.callbacks ==> r.callbacks[t] == (if t in m.callbacks then m.callbacks[t] else []) + cbs)
    decreases |cbs|
  {
    if |cbs| > 0 {
      var m1 := RegisterRefreshCallback(m, t, cbs[0]);
      RegisterAllInOrder(m1, t, cbs[1..]);
      var prior := if t in m.callbacks then m.callbacks[t] else [];
      assert prior + [cbs[0]] + cbs[1..] == prior + cbs;
    } else {
      assert (if t in m.callbacks then m.callbacks[t] else []) + cbs == (if t in m.callbacks then m.callbacks[t] else []);
    }
  }

  // ---------------------------------------------------------------------
  // Invalidation

  /** The key starts with one of the kind's UI prefixes. */
  predicate UiMatch(key: string, t: string) {
    t in UiPatterns && exists i | 0 <= i < |UiPatterns[t]| :: StartsWith(key, UiPatterns[t][i])
  }

  /** `clear_cache_by_type` removes the key. */
  predicate ClearedBy<C>(m: Manager<C>, t: string, key: string) {
    key in Deps(m, t) || UiMatch(key, t)
  }

  /** No prefix in the list starts with another one. */
  predicate PrefixFree(ps: seq<string>) {
    forall i, j :: 0 <= i < |ps| && 0 <= j < |ps| && i != j ==> !StartsWith(ps[i], ps[j])
  }

  /** Prefixes that differ within their first two characters are prefix-free. */
  lemma DistinctHeadsPrefixFree(ps: seq<string>)
    requires forall i :: 0 <= i < |ps| ==> |ps[i]| >= 2
    requires forall i, j :: 0 <= i < |ps| && 0 <= j < |ps| && i != j ==> ps[i][0] != ps[j][0] || ps[i][1] != ps[j][1]
    ensures PrefixFree(ps)
  {
  }

  /** The shape of every page's UI prefix list: `edit_…`, `show_…`, a third head, and for orders `selected_…`. */
  lemma HeadsPrefixFree(a: string, b: string, c: string, d: string)
    requires |a| >= 2 && |b| >= 2 && |c| >= 2 && |d| >= 2
    requires a[0] == 'e' && b[..2] == "sh" && (c[0] == 'c' || c[0] == 'o' || c[0] == 'f' || c[0] == 'i' || c[0] == 'p')
    requires d[..2] == "se"
    ensures PrefixFree([a, b, c]) && PrefixFree([a, b, c, d])
  {
    assert b[1] == 'h' && d[0] == 's' && d[1] == 'e';
    DistinctHeadsPrefixFree([a, b, c]);
    DistinctHeadsPrefixFree([a, b, c, d]);
  }

  /** No UI prefix of a kind starts with another of the same kind. */
  lemma UiPatternsPrefixFree()
    ensures forall t :: t in UiPatterns ==> PrefixFree(UiPatterns[t])
  {
    HeadsPrefixFree("edit_customer_", "show_customer_", "customer_search", "se");
    HeadsPrefixFree("edit_order_", "show_details_", "order_search", "selected_orders");
    HeadsPrefixFree("edit_fabric_", "show_fabric_", "fabric_search", "se");
    HeadsPrefixFree("edit_inventory_", "show_inventory_", "inventory_search", "se");
    HeadsPrefixFree("edit_processing_", "show_processing_", "processing_search", "se");
  }

  /**
   * A key matches at most one UI prefix of its kind, so `_clear_ui_state`
   * collects each key once and never deletes a key twice.
   */
  lemma UiMatchUnique(key: string, t: string, i: int, j: int)
    requires t in UiPatterns && 0 <= i < |UiPatterns[t]| && 0 <= j < |UiPatterns[t]|
    requires StartsWith(key, UiPatterns[t][i]) && StartsWith(key, UiPatterns[t][j])
    ensures i == j
  {
    UiPatternsPrefixFree();
    var p, q := UiPatterns[t][i], UiPatterns[t][j];
    assert |p| <= |q| ==> q[..|p|] == key[..|q|][..|p|];
    assert |q| <= |p| ==> p[..|q|] == key[..|p|][..|q|];
  }

  /**
   * `clear_cache_by_type` on session state: the kind's dependency keys that
   * are present and every key with one of its UI prefixes are deleted.
   */
  function ClearCacheByType<C, D>(m: Manager<C>, s: State<D>, t: string): (r: State<D>)
    ensures forall key :: key in r <==> key in s && !ClearedBy(m, t, key)
    ensures forall key :: key in r ==> r[key] == s[key]
  {
    var s1 := DeleteKeys(s, set k | k in Deps(m, t));
    DeleteKeys(s1, set key | key in s1 && UiMatch(key, t))
  }

  /** For bag types only the dependency keys go, since that page has no UI prefixes. */
  lemma BagTypesClearOnlyDependencies<C, D>(m: Manager<C>, s: State<D>)
    ensures forall key :: key in ClearCacheByType(m, s, "bag_types") <==> key in s && key !in Deps(m, "bag_types")
  {
    assert "bag_types" !in UiPatterns;
  }

  /** No kind in `ts` clears the key. */
  predicate KeptBy<C>(m: Manager<C>, ts: seq<string>, key: string) {
    forall i :: 0 <= i < |ts| ==> !ClearedBy(m, ts[i], key)
  }

  lemma KeptBySplit<C>(m: Manager<C>, ts: seq<string>, key: string)
    requires |ts| > 0
    ensures KeptBy(m, ts, key) <==> !ClearedBy(m, ts[0], key) && KeptBy(m, ts[1..], key)
  {
    if !ClearedBy(m, ts[0], key) && KeptBy(m, ts[1..], key) {
      forall i | 1 <= i < |ts| ensures !ClearedBy(m, ts[i], key) {
        assert ts[i] == ts[1..][i - 1];
      }
    }
  }

  /** Clears each listed kind in turn. */
  function ClearTypes<C, D>(m: Manager<C>, s: State<D>, ts: seq<string>): (r: State<D>)
    ensures forall key :: key in r <==> key in s && KeptBy(m, ts, key)
    ensures forall key :: key in r ==> r[key] == s[key]
    decreases |ts|
  {
    if |ts| == 0 then s
    else
      var r := ClearTypes(m, ClearCacheByType(m, s, ts[0]), ts[1..]);
      assert forall key :: KeptBy(m, ts, key) <==> !ClearedBy(m, ts[0], key) && KeptBy(m, ts[1..], key) by {
        forall key ensures KeptBy(m, ts, key) <==> !ClearedBy(m, ts[0], key) && KeptBy(m, ts[1..], key) {
          KeptBySplit(m, ts, key);
        }
      }
      r
  }

  /**
   * `clear_all_cache`: every registered key, then every kind's dependency
   * and UI keys, leaving all other keys as they were.
   */
  function ClearAllCache<C, D>(m: Manager<C>, s: State<D>): (r: State<D>)
    ensures forall key :: key in r <==>
      key in s && key !in m.cacheKeys && KeptBy(m, DataTypes, key)
    ensures forall key :: key in r ==> r[key] == s[key]
  {
    ClearTypes(m, DeleteKeys(s, m.cacheKeys), DataTypes)
  }

  /** `refresh_data`: the kind's keys are cleared and its callbacks run in registration order. */
  function RefreshData<C, D>(m: Manager<C>, s: State<D>, t: string): (r: (State<D>, seq<C>))
    ensures forall key :: key in r.0 <==> key in s && !ClearedBy(m, t, key)
    ensures forall key :: key in r.0 ==> r.0[key] == s[key]
    ensures t in m.callbacks ==> r.1 == m.callbacks[t]
    ensures t !in m.callbacks ==> r.1 == []
  {
    (ClearCacheByType(m, s, t), if t in m.callbacks then m.callbacks[t] else [])
  }

  /** After the callbacks of a kind are registered on a fresh manager, refreshing runs exactly them, in order. */
  lemma RefreshRunsRegisteredCallbacks<C, D>(s: State<D>, t: string, cbs: seq<C>)
    ensures RefreshData(RegisterAll(NewManager<C>(), t, cbs), s, t).1 == cbs
  {
    RegisterAllInOrder(NewManager<C>(), t, cbs);
  }

  // ---------------------------------------------------------------------
  // Decorators

  /** `result is not False and result is not None`: identity tests, so `0` and `""` still succeed. */
  predicate Succeeded<D>(v: Val<D>) {
    v != Bool(false) && !v.PyNone?
  }

  /**
   * What `auto_refresh` leaves behind: the session state, the outcome it
   * passes on, and whether it asked for a rerun. When `rerun` is set the
   * outcome never reaches the caller: `st.rerun()` raises instead of returning.
   */
  datatype Refreshed<D> = Refreshed(state: State<D>, outcome: Outcome<D>, rerun: bool)

  /**
   * `auto_refresh(data_types, clear_cache)` around one call. `first` is the
   * wrapped call's outcome and `retry` the outcome of the second call the
   * handler makes after an exception.
   */
  function AutoRefresh<C, D>(m: Manager<C>, s: State<D>, dataTypes: seq<string>, clearCache: bool,
                             first: Outcome<D>, retry: Outcome<D>): (r: Refreshed<D>)
    ensures r.rerun <==> first.Returned? && Succeeded(first.v)
    ensures r.outcome == if first.Returned? then first else retry
    ensures !(r.rerun && clearCache) ==> r.state == s
    ensures r.rerun && clearCache && |dataTypes| > 0 ==> forall key :: key in r.state <==> key in s && KeptBy(m, dataTypes, key)
    ensures r.rerun && clearCache && |dataTypes| == 0 ==> r.state == ClearAllCache(m, s)
  {
    match first
    case Raised(_) => Refreshed(s, retry, false)
    case Returned(v) =>
      if !Succeeded(v) then Refreshed(s, first, false)
      else if !clearCache then Refreshed(s, first, true)
      else if |dataTypes| > 0 then Refreshed(ClearTypes(m, s, dataTypes), first, true)
      else Refreshed(ClearAllCache(m, s), first, true)
  }

  /** A failed write, returned as `False` or `None`, leaves every cached key in place. */
  lemma FailedWriteKeepsCache<C, D>(m: Manager<C>, s: State<D>, dataTypes: seq<string>, retry: Outcome<D>)
    ensures AutoRefresh(m, s, dataTypes, true, Returned(Bool(false)), retry).state == s
    ensures AutoRefresh(m, s, dataTypes, true, Returned(PyNone), retry).state == s
  {
  }

  /** A message shown to the user. */
  datatype Notice = NoNotice | Success(text: string) | Error(text: string)

  /**
   * `safe_operation(success_message, error_message)` around one call: an
   * exception becomes a `False` return with an error notice.
   */
  function SafeOperation<D>(outcome: Outcome<D>, successMessage: Option<string>, errorMessage: Option<string>): (r: (Val<D>, Notice))
    ensures outcome.Returned? ==> r.0 == outcome.v
    ensures outcome.Raised? ==> r.0 == Bool(false)
    ensures r.1.Error? <==> outcome.Raised?
    ensures r.1.Success? <==> outcome.Returned? && Succeeded(outcome.v) && TruthyStr(successMessage)
    ensures r.1.Error? ==> r.1.text == (if TruthyStr(errorMessage) then errorMessage.value else "操作失败: " + outcome.msg)
  {
    match outcome
    case Returned(v) => (v, if Succeeded(v) && TruthyStr(successMessage) then Success(successMessage.value) else NoNotice)
    case Raised(e) => (Bool(false), Error(if TruthyStr(errorMessage) then errorMessage.value else "操作失败: " + e))
  }

  /** Whatever the wrapped call does, the wrapped result is falsy exactly when the call failed or returned `False`. */
  lemma SafeOperationFalse<D>(outcome: Outcome<D>, ok: Option<string>, err: Option<string>)
    ensures SafeOperation(outcome, ok, err).0 == Bool(false) <==> outcome.Raised? || outcome.v == Bool(false)
  {
  }

  /**
   * What `crud_operation` leaves behind: the session state, the value handed
   * back (none when the script reruns), the notice shown, and whether it
   * asked for a rerun.
   */
  datatype CrudResult<D> = CrudResult(state: State<D>, value: Option<Val<D>>, notice: Notice, rerun: bool)

  /**
   * `crud_operation(data_types, success_message, error_message)` around one
   * call: `auto_refresh(data_types)` inside `safe_operation`, with the loading
   * spinner left out. `first` and `retry` are as for `AutoRefresh`.
   * `st.rerun()` raises Streamlit's rerun exception, a `BaseException` that
   * no `except Exception` catches, so on a rerun nothing is returned and
   * `safe_operation` never reaches its success message.
   */
  function CrudOperation<C, D>(m: Manager<C>, s: State<D>, dataTypes: seq<string>,
                               successMessage: Option<string>, errorMessage: Option<string>,
                               first: Outcome<D>, retry: Outcome<D>): (r: CrudResult<D>)
    ensures r.rerun <==> first.Returned? && Succeeded(first.v)
    ensures !r.rerun ==> r.state == s
    ensures r.rerun && |dataTypes| > 0 ==> forall key :: key in r.state <==> key in s && KeptBy(m, dataTypes, key)
    ensures r.rerun && |dataTypes| == 0 ==> r.state == ClearAllCache(m, s)
    ensures r.rerun <==> r.value.None?
    ensures r.rerun ==> r.notice == NoNotice
    ensures first.Returned? && !r.rerun ==> r.value == Some(first.v) && r.notice == NoNotice
    ensures first.Raised? && retry.Returned? ==> r.value == Some(retry.v)
    ensures first.Raised? && retry.Returned? && Succeeded(retry.v) && TruthyStr(successMessage) ==>
      r.notice == Success(successMessage.value)
    ensures r.notice.Error? <==> first.Raised? && retry.Raised?
    ensures r.notice.Error? ==> r.value == Some(Bool(false))
  {
    var refreshed := AutoRefresh(m, s, dataTypes, true, first, retry);
    if refreshed.rerun then CrudResult(refreshed.state, None, NoNotice, true)
    else
      var (value, notice) := SafeOperation(refreshed.outcome, successMessage, errorMessage);
      CrudResult(refreshed.state, Some(value), notice, false)
  }

  /** A write that raised twice is reported as failed and leaves the session state as it was. */
  lemma CrudFailureKeepsState<C, D>(m: Manager<C>, s: State<D>, dataTypes: seq<string>, e1: string, e2: string)
    ensures var r := CrudOperation(m, s, dataTypes, Some("操作成功"), Some("操作失败"), Raised(e1), Raised(e2));
      r == CrudResult(s, Some(Bool(false)), Error("操作失败"), false)
  {
  }

  /** The session keys of the `smart_cache` entry for one call. */
  function SmartKey(keyPrefix: string, argsHash: int): string {
    keyPrefix + "_" + IntToString(argsHash)
  }

  function StampKey(cacheKey: string): (r: string)
    ensures |r| > |cacheKey| && r[..|cacheKey|] == cacheKey
  {
    cacheKey + "_timestamp"
  }

  /** Both keys exist and the stored time reads as a number less than `ttl` old. */
  predicate SmartFresh<D>(s: State<D>, key: string, ttl: int, now: int) {
    key in s && StampKey(key) in s && AsNumber(s[StampKey(key)]).Some? && now - AsNumber(s[StampKey(key)]).value < ttl
  }

  /** Both keys exist but the stored time is not a number, so `time.time() - stamp` raises. */
  predicate BadStamp<D>(s: State<D>, key: string) {
    key in s && StampKey(key) in s && AsNumber(s[StampKey(key)]).None?
  }

  /**
   * The state manager's `smart_cache(key_prefix, data_type, ttl)` around one
   * call. The key is registered first. A fresh entry is returned as stored,
   * even `None`; a stored time that is not a number raises; otherwise
   * `computed`, the wrapped call's outcome, is stored with the time when it
   * returned and passed on when it raised.
   */
  function SmartCache<C, D>(m: Manager<C>, s: State<D>, keyPrefix: string, dataType: Option<string>, ttl: int,
                            argsHash: int, now: int, computed: Outcome<D>): (r: (Manager<C>, State<D>, Outcome<D>))
    ensures var key := SmartKey(keyPrefix, argsHash);
      && r.0 == RegisterCacheKey(m, key, dataType)
      && (SmartFresh(s, key, ttl, now) ==> r.1 == s && r.2 == Returned(s[key]))
      && (BadStamp(s, key) ==> r.1 == s && r.2 == Raised("TypeError"))
      && (!SmartFresh(s, key, ttl, now) && computed.Returned? && !BadStamp(s, key) ==>
            r.2 == computed && key in r.1 && r.1[key] == computed.v && StampKey(key) in r.1 && r.1[StampKey(key)] == Num(now))
      && (!SmartFresh(s, key, ttl, now) && computed.Raised? && !BadStamp(s, key) ==> r.1 == s && r.2 == computed)
      && (r.1 != s ==> !SmartFresh(s, key, ttl, now) && computed.Returned?)
      && (forall k :: k != key && k != StampKey(key) ==> (k in r.1 <==> k in s) && (k in s ==> r.1[k] == s[k]))
  {
    var key := SmartKey(keyPrefix, argsHash);
    var stamp := StampKey(key);
    var m1 := RegisterCacheKey(m, key, dataType);
    if BadStamp(s, key) then (m1, s, Raised("TypeError"))
    else if SmartFresh(s, key, ttl, now) then (m1, s, Returned(s[key]))
    else match computed
      case Raised(_) => (m1, s, computed)
      case Returned(v) => (m1, s[key := v][stamp := Num(now)], computed)
  }

  /** Unlike the query cache, a stored `None` is a hit: a second call before `ttl` returns the first result, whatever it was. */
  lemma SmartCacheReturnsFirstResult<C, D>(m: Manager<C>, s: State<D>, p: string, t: Option<string>, ttl: int, h: int,
                                           t1: int, t2: int, v1: Val<D>, c2: Outcome<D>)
    requires !SmartFresh(s, SmartKey(p, h), ttl, t1)
    requires !BadStamp(s, SmartKey(p, h))
    requires t2 - t1 < ttl
    ensures var (m1, s1, _) := SmartCache(m, s, p, t, ttl, h, t1, Returned(v1));
      SmartCache(m1, s1, p, t, ttl, h, t2, c2).2 == Returned(v1)
  {
    var (m1, s1, _) := SmartCache(m, s, p, t, ttl, h, t1, Returned(v1));
    assert SmartFresh(s1, SmartKey(p, h), ttl, t2);
  }

  /** Clearing everything makes the next call recompute: the registered key is gone. */
  lemma ClearAllForcesRecompute<C, D>(m: Manager<C>, s: State<D>, p: string, t: Option<string>, ttl: int, h: int,
                                      t1: int, t2: int, c1: Outcome<D>, c2: Outcome<D>)
    requires c2.Returned?
    ensures var (m1, s1, _) := SmartCache(m, s, p, t, ttl, h, t1, c1);
      SmartCache(m1, ClearAllCache(m1, s1), p, t, ttl, h, t2, c2).2 == c2
  {
    var (m1, s1, _) := SmartCache(m, s, p, t, ttl, h, t1, c1);
    var key := SmartKey(p, h);
    assert key in m1.cacheKeys;
    assert key !in ClearAllCache(m1, s1);
  }

  /** Clearing the call's own kind also makes the next call recompute: the key joined that kind's dependencies. */
  lemma ClearTypeForcesRecompute<C, D>(m: Manager<C>, s: State<D>, p: string, t: string, ttl: int, h: int,
                                       t1: int, t2: int, c1: Outcome<D>, c2: Outcome<D>)
    requires t in m.dependencies && |t| > 0
    requires c2.Returned?
    ensures var (m1, s1, _) := SmartCache(m, s, p, Some(t), ttl, h, t1, c1);
      SmartCache(m1, ClearCacheByType(m1, s1, t), p, Some(t), ttl, h, t2, c2).2 == c2
  {
    var (m1, s1, _) := SmartCache(m, s, p, Some(t), ttl, h, t1, c1);
    var key := SmartKey(p, h);
    assert key in Deps(m1, t);
    assert key !in ClearCacheByType(m1, s1, t);
  }
}
