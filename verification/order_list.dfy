/**
 * The order list's session state: the page shown, the search term and
 * status filter, the set of selected order ids, the batch-delete
 * confirmation flag, and the cached page of results with the key it was
 * fetched under. The database's page query and batch delete are parameters:
 * their results are passed in.
 */
module OrderList {
  import opened Wrappers
  import opened PyText

  /** One page of query results: the ids of the orders shown and the number of matching orders. */
  datatype PageData = PageData(ids: seq<int>, totalCount: int)

  datatype ListState = ListState(
    page: int,
    search: string,
    statusFilter: string,
    selected: set<int>,
    confirmDelete: bool,
    cacheKey: Option<string>,
    cacheData: Option<PageData>)

  /**
   * The first render fills in whatever is missing: page 1, an empty search,
   * the `all` filter and an empty selection. `confirm_batch_delete` is read
   * with a `False` default and the cache starts empty.
   */
  function Init(page: Option<int>, search: Option<string>, statusFilter: Option<string>, selected: Option<set<int>>): (r: ListState)
    ensures r.page == page.GetOr(1) && r.search == search.GetOr("")
    ensures r.statusFilter == statusFilter.GetOr("all") && r.selected == selected.GetOr({})
    ensures !r.confirmDelete && r.cacheKey.None? && r.cacheData.None?
  {
    ListState(page.GetOr(1), search.GetOr(""), statusFilter.GetOr("all"), selected.GetOr({}), false, None, None)
  }

  // ---------------------------------------------------------------------
  // Filters

  /** A new search term is stored and the list goes back to the first page; the same term changes nothing. */
  function SetSearch(st: ListState, term: string): (r: ListState)
    ensures term != st.search ==> r == st.(search := term, page := 1)
    ensures term == st.search ==> r == st
  {
    if term != st.search then st.(search := term, page := 1) else st
  }

  /** A new status filter is stored and the list goes back to the first page. */
  function SetStatusFilter(st: ListState, f: string): (r: ListState)
    ensures f != st.statusFilter ==> r == st.(statusFilter := f, page := 1)
    ensures f == st.statusFilter ==> r == st
  {
    if f != st.statusFilter then st.(statusFilter := f, page := 1) else st
  }

  // ---------------------------------------------------------------------
  // Cached page

  /** The filter part of the page's cache key. */
  function FilterPart(search: string, status: string, dateFilter: string, amountFilter: string, sortBy: string): string {
    search + "_" + status + "_" + dateFilter + "_" + amountFilter + "_" + sortBy
  }

  /** The composite cache key of the page being shown. */
  function CacheKey(page: int, pageSize: int, search: string, status: string, dateFilter: string, amountFilter: string, sortBy: string): string {
    "orders_" + IntToString(page) + "_" + IntToString(pageSize) + "_" + FilterPart(search, status, dateFilter, amountFilter, sortBy)
  }

  /** The two numbers leading a key can be read back from it. */
  lemma KeyHeadsDetermined(a: string, b: string, a': string, b': string, f: string)
    requires '_' !in a && '_' !in b && '_' !in a' && '_' !in b'
    requires "orders_" + a + "_" + b + "_" + f == "orders_" + a' + "_" + b' + "_" + f
    ensures a == a' && b == b'
  {
    var k, k' := "orders_" + a + "_" + b + "_" + f, "orders_" + a' + "_" + b' + "_" + f;
    assert k[7..] == a + "_" + (b + "_" + f);
    assert k'[7..] == a' + "_" + (b' + "_" + f);
    SplitAtUnderscore(a, a', b + "_" + f, b' + "_" + f);
    SplitAtUnderscore(b, b', f, f);
  }

  /** Pages and page sizes are recoverable from the key: moving to another page or size always misses the cache. */
  lemma CacheKeySeparatesPages(p: int, p': int, n: int, n': int, s: string, f: string, d: string, a: string, o: string)
    requires p != p' || n != n'
    ensures CacheKey(p, n, s, f, d, a, o) != CacheKey(p', n', s, f, d, a, o)
  {
    if CacheKey(p, n, s, f, d, a, o) == CacheKey(p', n', s, f, d, a, o) {
      NoUnderscore(p);
      NoUnderscore(p');
      NoUnderscore(n);
      NoUnderscore(n');
      KeyHeadsDetermined(IntToString(p), IntToString(n), IntToString(p'), IntToString(n'), FilterPart(s, f, d, a, o));
      IntToStringInjective(p, p');
      IntToStringInjective(n, n');
    }
  }

  /**
   * The page data is fetched and cached unless the cache holds data under
   * the same key, in which case the cached data is reused. `fetched` is what
   * the page query would return.
   */
  function LoadPage(st: ListState, key: string, fetched: PageData): (r: (ListState, PageData))
    ensures st.cacheKey == Some(key) && st.cacheData.Some? ==> r == (st, st.cacheData.value)
    ensures !(st.cacheKey == Some(key) && st.cacheData.Some?) ==>
      r.1 == fetched && r.0 == st.(cacheKey := Some(key), cacheData := Some(fetched))
  {
    if st.cacheKey != Some(key) || st.cacheData.None? then
      (st.(cacheKey := Some(key), cacheData := Some(fetched)), fetched)
    else (st, st.cacheData.value)
  }

  /** `_clear_order_cache`: both cache entries go. */
  function ClearOrderCache(st: ListState): (r: ListState)
    ensures r.cacheKey.None? && r.cacheData.None?
    ensures r.(cacheKey := st.cacheKey, cacheData := st.cacheData) == st
  {
    st.(cacheKey := None, cacheData := None)
  }

  /** Loading the same key twice reuses the first result; after the cache is cleared the page is fetched again. */
  lemma CacheReuseAndClear(st: ListState, key: string, d1: PageData, d2: PageData)
    ensures var (s1, _) := LoadPage(st, key, d1);
      LoadPage(s1, key, d2).1 == s1.cacheData.value
      && LoadPage(ClearOrderCache(s1), key, d2).1 == d2
  {
  }

  // ---------------------------------------------------------------------
  // Paging

  /** `(total + size - 1) // size`: the number of pages. */
  function TotalPages(totalCount: int, pageSize: int): (r: int)
    requires pageSize > 0
    ensures totalCount >= 0 ==> r >= 0
    ensures (r - 1) * pageSize < totalCount <= r * pageSize || (totalCount <= 0 && r <= 0)
  {
    (totalCount + pageSize - 1) / pageSize
  }

  lemma MulMono(a: int, b: int, c: int)
    requires a <= b && c > 0
    ensures a * c <= b * c
  {
    assert (b - a) * c >= 0;
  }

  /** Ceiling division, stated without division: the one page count whose pages just hold every order. */
  lemma TotalPagesIsCeiling(totalCount: int, pageSize: int, pages: int)
    requires pageSize > 0 && totalCount > 0
    requires (pages - 1) * pageSize < totalCount <= pages * pageSize
    ensures TotalPages(totalCount, pageSize) == pages
  {
    var r := TotalPages(totalCount, pageSize);
    if r < pages {
      MulMono(r, pages - 1, pageSize);
    } else if r > pages {
      MulMono(pages, r - 1, pageSize);
    }
  }

  /** "Previous page", enabled on every page but the first. */
  function PrevPage(st: ListState): (r: ListState)
    ensures st.page == 1 ==> r == st
    ensures st.page != 1 ==> r == st.(page := st.page - 1)
  {
    if st.page == 1 then st else st.(page := st.page - 1)
  }

  /** "Next page", enabled on every page but the one numbered `total_pages`. */
  function NextPage(st: ListState, totalPages: int): (r: ListState)
    ensures st.page == totalPages ==> r == st
    ensures st.page != totalPages ==> r == st.(page := st.page + 1)
  {
    if st.page == totalPages then st else st.(page := st.page + 1)
  }

  /** Starting inside `1..total_pages`, the two buttons keep the page there. */
  lemma PagingStaysInRange(st: ListState, totalPages: int)
    requires 1 <= st.page <= totalPages
    ensures 1 <= PrevPage(st).page <= totalPages
    ensures 1 <= NextPage(st, totalPages).page <= totalPages
  {
  }

  /** Past the last page, "next" stays enabled and moves further away. */
  lemma NextPastLastPage(st: ListState, totalPages: int)
    requires st.page > totalPages
    ensures NextPage(st, totalPages).page == st.page + 1 > totalPages
  {
  }

  // ---------------------------------------------------------------------
  // Selection

  /** The ids on the current page. */
  function PageIds(d: PageData): set<int> {
    set i | i in d.ids
  }

  /** "Select all" adds the current page's ids to the selection. */
  function SelectAll(st: ListState, d: PageData): (r: ListState)
    ensures forall x :: x in r.selected <==> x in st.selected || x in d.ids
    ensures r.(selected := st.selected) == st
  {
    st.(selected := st.selected + PageIds(d))
  }

  /** "Cancel" removes exactly the current page's ids from the selection. */
  function CancelSelection(st: ListState, d: PageData): (r: ListState)
    ensures forall x :: x in r.selected <==> x in st.selected && x !in d.ids
    ensures r.(selected := st.selected) == st
  {
    st.(selected := st.selected - PageIds(d))
  }

  /** Selecting all and cancelling on one page leaves the selections made on other pages. */
  lemma SelectAllThenCancel(st: ListState, d: PageData)
    ensures CancelSelection(SelectAll(st, d), d).selected == st.selected - PageIds(d)
  {
  }

  /** An order's checkbox: checked adds its id, unchecked discards it. */
  function Checkbox(st: ListState, id: int, checked: bool): (r: ListState)
    ensures checked ==> r.selected == st.selected + {id}
    ensures !checked ==> r.selected == st.selected - {id}
    ensures r.(selected := st.selected) == st
  {
    if checked then st.(selected := st.selected + {id}) else st.(selected := st.selected - {id})
  }

  /** A checkbox left as rendered, showing whether its id is selected, changes nothing. */
  lemma UntouchedCheckbox(st: ListState, id: int)
    ensures Checkbox(st, id, id in st.selected) == st
  {
    if id in st.selected {
      assert st.selected + {id} == st.selected;
    } else {
      assert st.selected - {id} == st.selected;
    }
  }

  // ---------------------------------------------------------------------
  // Batch delete

  /** What `delete_orders_batch` did: how many orders went and which ids failed, or an exception. */
  datatype DeleteResult = Deleted(count: int, failed: seq<int>) | DeleteRaised

  /**
   * A click on "batch delete" with `result` the outcome the database would
   * give. With nothing selected nothing happens. The first click only asks
   * for confirmation; a click while confirmation is pending deletes the
   * selection, and only a deletion that removed something clears the
   * selection, the flag and the cached page. `called` says whether the
   * database was asked.
   */
  function BatchDeleteClick(st: ListState, result: DeleteResult): (r: (ListState, bool))
    ensures r.1 <==> |st.selected| > 0 && st.confirmDelete
    ensures |st.selected| > 0 && !st.confirmDelete ==> r.0 == st.(confirmDelete := true)
    ensures r.1 && result.Deleted? && result.count > 0 ==>
      r.0 == ClearOrderCache(st).(selected := {}, confirmDelete := false)
    ensures !(r.1 && result.Deleted? && result.count > 0) && !(|st.selected| > 0 && !st.confirmDelete) ==> r.0 == st
  {
    if |st.selected| == 0 then (st, false)
    else if !st.confirmDelete then (st.(confirmDelete := true), false)
    else match result
      case Deleted(n, _) =>
        if n > 0 then (ClearOrderCache(st).(selected := {}, confirmDelete := false), true) else (st, true)
      case DeleteRaised => (st, true)
  }

  /** Two clicks are needed: the first never reaches the database, the second deletes the same selection. */
  lemma BatchDeleteNeedsTwoClicks(st: ListState, first: DeleteResult, second: DeleteResult)
    requires |st.selected| > 0 && !st.confirmDelete
    ensures !BatchDeleteClick(st, first).1
    ensures BatchDeleteClick(st, first).0.selected == st.selected
    ensures BatchDeleteClick(BatchDeleteClick(st, first).0, second).1
  {
  }

  /** A deletion that removed nothing leaves the flag set, so the next click deletes without asking again. */
  lemma FailedDeleteKeepsConfirmation(st: ListState, failed: seq<int>, next: DeleteResult)
    requires |st.selected| > 0 && st.confirmDelete
    ensures BatchDeleteClick(st, Deleted(0, failed)).0 == st
    ensures BatchDeleteClick(BatchDeleteClick(st, Deleted(0, failed)).0, next).1
  {
  }
}
