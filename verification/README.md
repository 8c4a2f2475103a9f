# A Dafny model of the task API and the handmade-order business app

The repository holds two Python programs. The first is a small Flask task list (`app.py`): tasks with content, priority, dates, completion, manual order and an optional category, served as JSON endpoints. The second is a Streamlit business app for a handmade custom-goods shop ("星之梦手工定制管理系统"). It keeps customers, bag categories, inventory, orders and order items in SQLite, caches query results in memory and in the browser session, and exports and prints orders.

This project models the deterministic bookkeeping of both programs as pure Dafny functions over immutable values and proves what their code promises:

- **TaskStore** (`app.py`). The task store is a map from id to task. Create, partial update, reorder, batch update and batch delete, category create and delete, the filtered and sorted listing, and the statistics each return `Ok(newStore)` or an error. The model covers the priority round trip, the order-assignment rule, the SQL `LIKE` search and "nothing else changes".
- **Ledger** (`database.py`). Tables are maps. Bag categories have levels. Orders accumulate totals in integer cents. Ready-stock items decrement inventory. Paying an order credits the truncated total as points.
- **Display** (`utils/display_utils.py`). These are the null-safe display helpers with their fallback precedence.
- **CategoryTree** (`category_management.py`). This covers the tree building, the lookup by id, the parent options of the edit form and the summary counts.
- **SmartCache** (`cache_manager.py`). This is the TTL and LRU cache with its metrics, pattern invalidation and the `smart_cache` decorator.
- **Session** and **SessionCache** (`utils/cache_manager.py`). These model the prefix-keyed cache in `st.session_state`.
- **StateManager** (`utils/state_manager.py`). This covers dependency keys, UI-key invalidation, the state-manager `smart_cache`, `auto_refresh`, `safe_operation` and `crud_operation`.
- **OrderList** (`pages/order_page.py`). This models the paging, filter, selection and two-click delete state of the order list.
- **OrderRecords**, **CsvExport**, **ExportService** and **PrintService** (`csv_export.py`, `services/`). These cover CSV rows, export validation and summary, the print data and the page-break sequence.
- **Config** (`config.py`). This is the configuration validator and the cache lifetimes.
- **LogFilter** (`enhanced_log_viewer.py`). This is the log-line filter pipeline and the ordering of recent errors.

The general-purpose modules **Wrappers**, **PyText**, **Seqs** and **Tables** model `Option`/`Result`, Python string operations (`strip`, `in`, `lower`, `replace`, `str(int)`), SQLite `LIKE`, filtering and sorting, and row order in a table.

Time is an integer number of seconds passed in as `now`. Money is an integer number of cents. Hashes (`md5`, `hash()`) and database lookups that the shown code calls but does not define are parameters.

## Model

| member | source | states |
|---|---|---|
| TaskStore.Status | app.py:115-116 | the API's errors map to 400 or 500, and 500 exactly for a row that `get_or_404` did not find or a caught exception. The `NotFound` that `get_or_404` raises falls into the endpoint's `except Exception` handler, so it reaches the client as 500 and never as 404 |
| TaskStore.EncodePriority | app.py:234-237 | a priority name maps into 1..3, and every name other than low/medium/high maps to 2 |
| TaskStore.DecodePriority | app.py:77-78 | a stored priority reads back as low, medium or high, and every number outside 1..3 reads as medium |
| TaskStore.PriorityNameRoundTrip | app.py:77-78 | decoding the number that a known name encodes to gives back that name |
| TaskStore.PriorityNumberRoundTrip | app.py:234-237 | encoding the name that a number in 1..3 decodes to gives back that number |
| TaskStore.PriorityValue | app.py:284-289 | a string priority ends up in 1..3; a numeric one is stored exactly as sent |
| TaskStore.DateField | app.py:213-227 | a missing or empty date means no date; a non-empty one fails exactly when the ISO parser (with Z read as +00:00) rejects it, and otherwise yields the parsed value |
| TaskStore.MaxOrder | app.py:240 | the result bounds every task's order, is attained by some task, and is 0 for an empty table |
| TaskStore.CreateTask | app.py:203-261 | a missing or blank content is rejected (a JSON null content is the server error from `.strip()`). Creation succeeds exactly when the content is non-blank, both dates parse and start is not after due. The new row gets a fresh id, the stripped content, order equal to the largest existing order plus one (1 in an empty table), the given priority or else the default 2, and the parsed start and due dates. Nothing else in the store changes |
| TaskStore.CreateTaskPreservesValid | app.py:243-254 | creating a task keeps every row stored under its own id and the category names unique |
| TaskStore.UpdatedDate | app.py:294-310 | an absent date field keeps the current date; a present one is cleared when falsy and parsed otherwise |
| TaskStore.Touch | app.py:65 | `updated_at` is refreshed exactly when some other column changed, and no other column is affected |
| TaskStore.UpdateTask | app.py:264-324 | a missing id is the 500 of the caught `NotFound`, an empty body is 400, a blank content is 400, and a JSON null content is the 500 of `None.strip()`. With acceptable content, an unparseable start date is 400, then an unparseable due date, then a start after the due date, and the update succeeds exactly when none of these holds. On success only that row changes. Each present field is applied: a JSON null `completed` or `category_id` stores `NULL`, and a present date holds its parsed value. Each absent field is kept. Id, order and creation time stay, the dates end up ordered, and `updated_at` is either unchanged or now |
| TaskStore.NullCompletedFilteredOut | app.py:281-282 | a task updated with a JSON null `completed` holds `NULL`, which neither value of the `completed` filter selects and the statistics do not count as completed |
| TaskStore.ApplyChangesAgain | app.py:276-310 | applying the same field changes to a row that already carries them changes nothing |
| TaskStore.UpdateTaskIdempotent | app.py:264-324 | repeating a successful update succeeds and leaves the store as the first update left it, even at a later time |
| TaskStore.UpdateTaskPreservesValid | app.py:264-317 | a successful update keeps the store well formed |
| TaskStore.ApplyOrders | app.py:356-359 | applying the reorder entries keeps the same tasks and changes nothing but their `order` column |
| TaskStore.ApplyOrdersLastWins | app.py:356-359 | the last entry naming a task decides its order, and a task named by no entry keeps its row |
| TaskStore.Reorder | app.py:348-365 | a missing `task_orders` is 400. A null list, an entry without `id`, or an entry naming an existing task without `order` is the 500 of the caught `KeyError`/`TypeError`, and every other list succeeds. On success the tasks and categories stay the same and only order and timestamp change. An unnamed task is untouched, the last entry for a task wins, and a task whose order did not change keeps its row |
| TaskStore.BatchUpdate | app.py:327-345 | a missing `task_ids` is 400 and a null list is 500. With a list, the call fails exactly when an unknown column is named or a date column is given a value other than null (SQLite's `DateTime` binds only `datetime` objects). Otherwise every listed existing task gets each given column, a date column given null is cleared, and every such task gets a fresh `updated_at`. Every unlisted task is untouched, and the reported count is the length of the id list |
| TaskStore.BatchUpdateBypassesChecks | app.py:327-345 | the bulk path stores a blank content that the single-task update rejects, and it counts ids that name no task |
| TaskStore.DeleteTask | app.py:368-383 | deletion succeeds exactly when the id exists, and otherwise fails with the 500 of the caught `NotFound`. It removes exactly that row and leaves the rest unchanged |
| TaskStore.DeleteTaskIsBatchOfOne | app.py:368-400 | deleting an existing task alone and deleting the one-element batch of its id give the same store, and the batch reports one deletion |
| TaskStore.DeleteTaskPreservesValid | app.py:368-383 | deleting a task keeps the store's invariant: every row is keyed by its own id and category names are unique |
| TaskStore.BatchDelete | app.py:386-400 | a missing `task_ids` is 400 and a null list is the 500 of `in_(None)`, and every list succeeds. Exactly the listed ids are removed, the other rows are unchanged, and the reported count is the number of listed ids that existed |
| TaskStore.CreateCategory | app.py:119-140 | a missing name is 400 and a JSON null name is 500. A name already taken is 400 exactly when some category has it, and every free name succeeds. A category is then added with a fresh id, the given name, and the given colour, or `#007bff` when the colour is missing or null (SQLAlchemy leaves a `None` column out of the insert, so the column default fills it). The tasks are unchanged |
| TaskStore.CreateCategoryPreservesValid | app.py:126-136 | category names stay unique after a successful creation |
| TaskStore.DeleteCategory | app.py:143-154 | deletion succeeds exactly when the category exists, and otherwise fails with the 500 of the caught `NotFound`. The category is removed, every task in it is moved to no category with a fresh timestamp, and every other task is untouched |
| TaskStore.DeleteCategoryPreservesValid | app.py:143-150 | the store stays well formed after a category is deleted |
| TaskStore.PriorityFilter | app.py:187-193 | the listing's priority argument is a known name's number, or else the number `int()` parses from it |
| TaskStore.ParseQuery | app.py:160-193 | reading the query fails (with 500) exactly when a category or priority argument cannot be parsed by `int()`. Otherwise the search is the stripped term, an empty category means any category and `none` means uncategorised, `completed` compares its lower-cased text with `true`, and an empty priority means no filter |
| TaskStore.SearchIsSubstring | app.py:172-173 | for a term without LIKE wildcards, a task passes the search exactly when the term occurs in its content, ignoring ASCII case |
| TaskStore.TaskBeforeIsPreorder | app.py:196 | ordering by `order` ascending, then creation time descending, is a total preorder |
| TaskStore.KeyBeforeIsPreorder | app.py:196 | the same ordering on row ids is a total preorder |
| TaskStore.SelectIds | app.py:169-196 | the ids listed are exactly the tasks satisfying the filter, each once, in listing order |
| TaskStore.QueryIds | app.py:169-196 | the listing holds exactly the tasks passing every filter, each once, sorted by `order` and then newest first |
| TaskStore.ToDict | app.py:75-92 | the JSON view carries the task's columns, the priority name, and the category's row exactly when that category exists |
| TaskStore.Views | app.py:198 | one view per listed id |
| TaskStore.GetTasks | app.py:159-200 | the listing fails exactly when the query cannot be read; otherwise it is the view of each matching task, in listing order |
| TaskStore.LargestOrderListedLast | app.py:196 | a task whose order exceeds every other task's comes last in any listing that contains it |
| TaskStore.AddedLargestListedLast | app.py:196 | a task added above every existing order is listed last when no filter applies |
| TaskStore.CreatedTaskListedLast | app.py:240-249 | a newly created task is listed last when no filter applies |
| TaskStore.NoMatchListsNothing | app.py:169-196 | a filter that no task passes lists nothing |
| TaskStore.DeletedCategoryListsNothing | app.py:148 | once a category is deleted, listing that category shows nothing |
| TaskStore.BatchDeleteUnlists | app.py:394 | after a batch delete none of the listed ids appears in any listing |
| TaskStore.RateTenthsNearest | app.py:435-441 | the reported completion rate is the exact percentage rounded to the nearest tenth, with ties going to the even tenth |
| TaskStore.RateTenthsBounds | app.py:435 | the rate lies between 0 and 100 percent: 100 when every task is done and 0 when none is |
| TaskStore.PriorityCounts | app.py:413-415 | the three counts are the numbers of tasks with priority 1, 2 and 3 |
| TaskStore.CategoryCounts | app.py:418-433 | there is one count per category in table order, each the number of its tasks, followed by the uncategorised count only when it is non-zero |
| TaskStore.GetStats | app.py:406-444 | the totals count all tasks and the completed ones; pending is their non-negative difference; the rate is 0 for an empty table and otherwise lies in 0..100 percent; the per-priority and per-category counts are as above |
| Ledger.UpdateCustomerPoints | database.py:173-182 | the delta, which may be negative, is added to that one customer's points and timestamp; every other customer and every other table is unchanged, and an unknown id changes nothing |
| Ledger.DeleteCustomer | database.py:165-171 | exactly that customer row is removed; the rest of the database, including orders naming the customer, is unchanged |
| Ledger.DeleteCustomerKeepsTotals | database.py:165-171 | deleting a customer keeps every order total equal to the sum of its items, and the customer's orders stay behind naming a customer that is gone |
| Ledger.AddBagCategory | database.py:236-254 | the new row gets a fresh id above every existing id, the given name and parent id, and level parent-level + 1 when the parent is truthy and exists, otherwise level 1; no other row changes |
| Ledger.AddBagCategoryKeepsLevels | database.py:240-249 | adding under an existing parent, or under none, keeps every category's level one more than its parent's |
| Ledger.CreatedBeforeIsPreorder | database.py:261-263 | ordering by `created_at` is a total preorder |
| Ledger.BagCategoryIds | database.py:260-263 | the ids returned are exactly the categories directly under the parent, each once, in creation order |
| Ledger.GetBagCategories | database.py:256-272 | every row returned is a category under the given parent, and the rows come in creation order |
| Ledger.GetBagCategoriesComplete | database.py:260-263 | every category under the parent is among the rows returned |
| Ledger.GetBagCategoriesTopLevel | database.py:260-261 | without a parent only top-level rows come back, and all of them do |
| Ledger.CreateOrder | database.py:355-366 | a pending order with a zero total is inserted under a fresh id, and no other table changes; the customer id is not checked |
| Ledger.TakeStock | database.py:388-393 | only a ready-stock item with a truthy inventory id lowers that one stock row by the quantity; every other row is unchanged |
| Ledger.AddToTotal | database.py:395-399 | the line total is added to that one order, and every other order is unchanged |
| Ledger.AddOrderItem | database.py:368-403 | the insert fails exactly when the item type breaks the CHECK constraint, and then nothing is written. Otherwise the item is stored under a fresh id, stock is taken, the line total is added to the order, and customers and categories are unchanged |
| Ledger.CustomItemKeepsStock | database.py:389 | custom items, and ready-stock items without an inventory id, leave every stock quantity alone |
| Ledger.StockCanGoNegative | database.py:389-393 | nothing bounds the stock from below: one unit ordered from an empty shelf leaves -1 |
| Ledger.ItemsTotalAddLargest | database.py:396-399 | adding an item row with the largest id adds its line total to its own order's item sum, and to no other order's |
| Ledger.ItemsTotalFrame | database.py:396-399 | an order's item sum depends only on the item rows summed |
| Ledger.EmptyDbConsistent | database.py:89-100 | a database without orders or items satisfies the bookkeeping invariant |
| Ledger.CreateOrderKeepsTotals | database.py:355-366 | a new order with a zero total keeps every order total equal to the sum of its items |
| Ledger.ItemsTotalNone | database.py:93 | an order that no item belongs to has a zero item sum |
| Ledger.AddOrderItemKeepsTotals | database.py:368-403 | adding an item to an existing order keeps every order total equal to the sum of its items' line totals |
| Ledger.AddOrderItemToMissingOrder | database.py:379-399 | an item added to an order id with no row is an orphan, and the bookkeeping invariant no longer holds |
| Ledger.TruncYuan | database.py:464 | `int()` truncates toward zero: a non-negative amount gives the whole yuan at or below it, a negative one the whole yuan at or above it |
| Ledger.CompleteOrderPayment | database.py:453-479 | an unknown order changes nothing. Otherwise the order becomes completed and its customer gains the truncated total in points; the rest of the database is unchanged |
| Ledger.CompleteOrderPaymentTwice | database.py:453-479 | paying an order twice credits its points twice, so the operation is not idempotent |
| Display.SafeGet | utils/display_utils.py:6-22 | the stored value when the dictionary is present and non-empty and holds a non-`None` value under the field; the default otherwise |
| Display.SafeGetStored | utils/display_utils.py:18-22 | a stored value reads back, and storing `None` or removing the field brings back the default |
| Display.FormatItemDisplay | utils/display_utils.py:25-49 | an empty row gives the unknown label. Otherwise the result is the stock item's name when it has one, the deleted label while the row still points at a stock item, and the custom label (or the type itself) when it points at none; it is never empty for a non-empty type |
| Display.FormatFabricDisplay | utils/display_utils.py:52-81 | there is a result exactly when the row names the fabric or keeps its id. It is then non-empty: the name when there is one, else the deleted-fabric label |
| Display.FormatCustomerDisplay | utils/display_utils.py:84-111 | the snapshot name, then the current name (each skipped when empty or the text `None`), then the deleted label while a customer id remains, else the unknown label; the result is never empty and never `None` |
| Display.FormatProcessorDisplay | utils/display_utils.py:158-179 | the processor's name, else the deleted label while its id remains, else the unknown label; never empty |
| Display.FirstSome | utils/display_utils.py:42-49 | the first present candidate of a chain of `if x: return x`: there is one exactly when some candidate is present, and every earlier candidate is absent |
| Display.ItemDisplayPrecedence | utils/display_utils.py:25-49 | for a non-empty row the item display is the first of the truthy stock name and, while the id remains, the deleted label, falling back to the custom label |
| Display.FabricDisplayPrecedence | utils/display_utils.py:52-81 | for a non-empty row the fabric display is the first of the truthy fabric name and, while the id remains, the deleted-fabric label, and nothing otherwise |
| Display.CustomerDisplayPrecedence | utils/display_utils.py:84-111 | the customer display is the first of the usable snapshot name, the usable current name and, while the id remains, the deleted label, falling back to the unknown label |
| Display.ProcessorDisplayPrecedence | utils/display_utils.py:158-179 | the processor display is the first of the truthy name and, while the id remains, the deleted label, falling back to the unknown label |
| Display.FallbacksMatchDefaults | utils/display_utils.py:182-192 | the formatters' fallback labels are the ones the defaults table lists |
| Display.ItemLines | utils/display_utils.py:127-154 | there are lines exactly when neither quantity nor price is `None`. The first line is the bullet, the type label, the item display, ` × `, the quantity and `= ¥` with the rendered line total. Every further line is indented by two spaces. The outer-fabric line, then the inner-fabric line, follow exactly when a custom item's fabric resolves, each carrying its label and the fabric display. A final notes line with the notes follows exactly when the notes are truthy |
| Display.FormatOrderItemLine | utils/display_utils.py:114-155 | an empty row gives the invalid-item line. Otherwise the result exists exactly when the lines do, and it is those lines joined with newlines |
| Display.OrderItemLineCount | utils/display_utils.py:154-155 | when no part contains a newline, the joined text has one newline fewer than there are lines |
| Display.OrderItemLinesRecovered | utils/display_utils.py:154-155 | when no line contains a newline, splitting the formatted text at newlines gives back exactly the lines |
| CategoryTree.FindIndex | category_management.py:24-29 | the position of the first category with the id, or none exactly when no category has it |
| CategoryTree.FindCategoryById | category_management.py:24-29 | a category is found exactly when one has the id, and it is a category of the list with that id |
| CategoryTree.BuildPrefixSpec | category_management.py:7-22 | after each step of the loop, the top-level list holds exactly the top-level categories so far, in order, and exists only when there is one; each category's children are exactly the categories so far whose parent id resolves to it, in order, and the key exists only when there is one |
| CategoryTree.BuildTreeRoots | category_management.py:7-22 | the tree's `children` key is missing exactly when every category has a parent; otherwise it lists every top-level category in list order |
| CategoryTree.OrphanDropped | category_management.py:16-21 | a category whose parent id names no category in the list is attached nowhere in the tree |
| CategoryTree.ChildAttached | category_management.py:16-21 | a category whose parent is in the list sits among the children of the first category with that id |
| CategoryTree.SearchCategories | category_management.py:169-170 | the search keeps exactly the categories whose lower-cased name contains the lower-cased term, each as many times as it occurs in the list, so the count shown is that of the matching entries |
| CategoryTree.SearchCategoriesAppend | category_management.py:170 | the search results of a concatenated list are those of the first part followed by those of the second, which with the one-element case fixes the order of the comprehension |
| CategoryTree.SearchCategoriesSingle | category_management.py:170 | a single category is listed exactly when its lower-cased name contains the lower-cased term |
| CategoryTree.ParentCandidates | category_management.py:66-68 | the parents offered are exactly the other categories at the same or a shallower level, each as many times as it occurs in the list |
| CategoryTree.ParentCandidatesAppend | category_management.py:66-68 | the candidates of a concatenated list are those of the first part followed by those of the second, so the loop's order is kept |
| CategoryTree.ParentOptions | category_management.py:65-68 | the top-level choice comes first, followed by the candidate parents' names in candidate order, so every offered name is present and nothing else is |
| CategoryTree.OptionsOfCandidates | category_management.py:65-68 | the top-level choice followed by the names of any list holding exactly the offered categories contains every offered name and nothing else |
| CategoryTree.IndexOr0 | category_management.py:76-77 | the first position of the value when it is present, and 0 otherwise; always a valid position |
| CategoryTree.CurrentParent | category_management.py:70-74 | when the category has a truthy parent id that resolves, the pre-selected parent is the name of the category that lookup finds; otherwise it is the top-level choice |
| CategoryTree.ParentSelection | category_management.py:76-77 | the selector's index is valid and points at the current parent whenever that is an option |
| CategoryTree.ParentPreselected | category_management.py:64-77 | when the parent resolves and is itself an allowed choice (another category at a level not below the edited one), the selector starts on the parent's name |
| CategoryTree.NoParentSelectsTop | category_management.py:70-77 | without a truthy parent id that resolves, the selector starts on the top-level choice |
| CategoryTree.IdByName | category_management.py:82-84 | the id of the first category with the name, or none exactly when no category has it |
| CategoryTree.ChosenParentRoundTrip | category_management.py:81-84 | with unique names, choosing a category by its name stores that category's id |
| CategoryTree.TopLevelCountIsRoots | category_management.py:182 | the top-level count shown is the number of roots the tree shows |
| CategoryTree.TopLevelUpTo | category_management.py:182 | counting top-level categories over any prefix agrees with the roots found in that prefix |
| CategoryTree.MaxLevel | category_management.py:185 | the deepest level bounds every category's level and is attained, or 0 when there are no categories |
| SmartCache.NewMetrics | cache_manager.py:23-29 | fresh metrics count no requests and satisfy hits + misses = requests |
| SmartCache.RecordHit | cache_manager.py:31-35 | one more hit, the same misses and size, and the counting invariant is kept |
| SmartCache.RecordMiss | cache_manager.py:37-42 | one more miss, the size grows by the item's size, hits are unchanged, and the counting invariant is kept |
| SmartCache.Reset | cache_manager.py:62-69 | every counter is back at zero |
| SmartCache.HitRate | cache_manager.py:44-47 | the rate is 0 before the first request and otherwise lies between 0 and 1 |
| SmartCache.ReplayCounts | cache_manager.py:31-42 | after any sequence of hits and misses, the counters record how many of each there were, and hits + misses is the request count |
| SmartCache.NewItem | cache_manager.py:75-80 | an item expires only when the ttl is truthy, and then at creation time + ttl; it starts unaccessed |
| SmartCache.ExpiryBoundary | cache_manager.py:82-86 | an item is still valid at its expiry instant and expired one second later; an item without a ttl never expires |
| SmartCache.Access | cache_manager.py:88-92 | an access counts once and records its time; the value and expiry are unchanged |
| SmartCache.WfSize | cache_manager.py:106 | the number of entries is the length of the iteration order |
| SmartCache.NewCache | cache_manager.py:105-110 | a new manager is empty, with consistent metrics |
| SmartCache.Keep | cache_manager.py:120-125 | exactly the entries whose key passes are kept, unchanged and in the same order |
| SmartCache.CleanupExpired | cache_manager.py:117-125 | exactly the expired entries are dropped; the rest are unchanged |
| SmartCache.FirstLru | cache_manager.py:131-134 | the position of the first least recently accessed key in iteration order |
| SmartCache.Victim | cache_manager.py:131-134 | the victim is an entry whose last access is not later than any other entry's |
| SmartCache.EvictLru | cache_manager.py:127-135 | the call fails exactly when the store is empty and `max_size` is zero or less (`min` of no keys). Otherwise nothing happens below the bound, and at or above it exactly the victim is removed |
| SmartCache.EvictLruSize | cache_manager.py:129-135 | eviction removes exactly one entry when the store is full, and none otherwise |
| SmartCache.SetVictim | cache_manager.py:156-158 | the entry `set` evicts is a live key of the cache, and there is one exactly when the live entries fill the bound and there is at least one of them |
| SmartCache.Get | cache_manager.py:137-151 | expired entries are dropped first. A live key is a hit that returns its value and counts the access; any other key is a miss that returns the default. No expired entry remains |
| SmartCache.Put | cache_manager.py:161 | storing under a key replaces or adds exactly that entry |
| SmartCache.Set | cache_manager.py:153-164 | the call fails exactly when eviction would raise. Otherwise the key holds a new item with the given ttl, or the default when that is falsy, and a miss of the item's size is counted. Every other surviving entry is one the cache already held, unchanged. Conversely, every live entry other than the key and the eviction victim survives unchanged, and the victim (when it is not the key) is gone |
| SmartCache.SetKeepsBound | cache_manager.py:156-161 | with a positive bound, a store within the bound stays within it after `set` |
| SmartCache.GetDropsExpired | cache_manager.py:140 | an entry that has expired does not survive a `get` |
| SmartCache.SetThenGet | cache_manager.py:137-164 | reading a key back at the instant it was set returns the value and counts a hit |
| SmartCache.Delete | cache_manager.py:166-172 | the result says whether the key was present; afterwards it is absent and nothing else changed |
| SmartCache.Clear | cache_manager.py:174-178 | no entries remain and the metrics are reset |
| SmartCache.InvalidatePattern | cache_manager.py:262-283 | exactly the keys containing the pattern are deleted, the rest are unchanged, and the count returned is the number deleted |
| SmartCache.EmptyPatternClearsAll | cache_manager.py:276 | the empty pattern is contained in every key, so it empties the cache |
| SmartCache.Cached | cache_manager.py:231-247 | a cached value other than `None` is returned as is, after the lookup's bookkeeping; otherwise the computed result is stored and returned |
| SmartCache.CachedNoneRecomputes | cache_manager.py:239-245 | a stored `None` counts as a miss: the wrapped function's result is returned and replaces it |
| Session.AsNumber | utils/cache_manager.py:64-65 | numbers and booleans can be subtracted; `None` and every other object cannot |
| Session.Lookup | utils/cache_manager.py:62 | `get` reads `None` exactly when the key is missing or holds `None`, and otherwise reads the stored value |
| Session.DeleteKeys | utils/cache_manager.py:139-140 | deleting keys removes exactly those keys and leaves every other entry as it was |
| SessionCache.EntryKeys | utils/cache_manager.py:22-60 | an entry's value key and timestamp key never coincide, and each determines the cache key |
| SessionCache.TimePrefixIsCachePrefix | utils/cache_manager.py:22-23 | every timestamp key also starts with the value prefix |
| SessionCache.GenerateCacheKey | utils/cache_manager.py:25-45 | the key starts with `{prefix}_{func}`, or with the function name alone when the prefix is empty; it is exactly that when there are no arguments, and otherwise continues with `_` and the digest's first eight characters |
| SessionCache.GenerateCacheKeyDistinguishes | utils/cache_manager.py:38-43 | argument-less calls of different functions under one prefix get different keys, and so do calls whose digests differ in their first eight characters |
| SessionCache.StampOr0 | utils/cache_manager.py:64 | a missing timestamp reads as 0, and a stored one reads as a number or raises |
| SessionCache.RemoveItem | utils/cache_manager.py:104-115 | both keys of the entry are gone, and every other key is kept unchanged |
| SessionCache.Get | utils/cache_manager.py:47-77 | a value is returned exactly when the entry is fresh, and it is the stored non-`None` value. A stale entry is removed; every other case leaves the state alone |
| SessionCache.Set | utils/cache_manager.py:79-102 | the value and the current time are stored under the entry's two keys, nothing else changes, and the call reports success |
| SessionCache.SetThenGet | utils/cache_manager.py:47-98 | reading back a non-`None` value before the ttl has passed returns it and changes nothing |
| SessionCache.SetNoneMisses | utils/cache_manager.py:62-63 | a cached `None` is always a miss |
| SessionCache.GetAfterExpiry | utils/cache_manager.py:65-71 | once the ttl has passed, `get` misses and neither key of the entry remains |
| SessionCache.Clear | utils/cache_manager.py:117-158 | exactly the keys of the matching entries are removed (all cache keys without a prefix), the rest are unchanged, and the count is the number removed |
| SessionCache.ClearPrefixRemovesEntry | utils/cache_manager.py:130-140 | clearing with a prefix removes both keys of every entry whose cache key starts with it |
| SessionCache.ClearAllKeepsOthers | utils/cache_manager.py:143-150 | clearing without a prefix keeps exactly the keys that do not start with `cache_` |
| SessionCache.CacheStatsAsWritten | utils/cache_manager.py:160-186 | as written, `cache_items` counts every key starting with `cache_`, and the total is the sum of the two counters |
| SessionCache.StatsTimeItemsAlwaysZero | utils/cache_manager.py:173-178 | as written, `time_items` is always 0, because every timestamp key already passed the `cache_` test |
| SessionCache.CacheStats | utils/cache_manager.py:160-186 | with the timestamp test first, `time_items` counts the timestamp keys, and the two counters add up to the keys starting with `cache_` |
| SessionCache.StatsOfOneEntry | utils/cache_manager.py:172-183 | for one stored entry, the code as written reports two cached items and no timestamp; the corrected count is one of each |
| SessionCache.RemoveItems | utils/cache_manager.py:222-223 | both keys of every listed entry are gone, and every key belonging to no listed entry is kept unchanged |
| SessionCache.CleanupAsWritten | utils/cache_manager.py:198-230 | a non-numeric timestamp makes the scan raise and report 0 with nothing removed; otherwise the count is the number of expired timestamps |
| SessionCache.StampOwner | utils/cache_manager.py:218 | stripping the leading prefix once recovers the cache key whose timestamp key it was |
| SessionCache.Cleanup | utils/cache_manager.py:198-230 | the corrected cleanup fails and removes nothing in the same case; otherwise its count is the number of expired timestamps |
| SessionCache.CleanupRemovesExpired | utils/cache_manager.py:212-223 | every expired timestamp goes together with its value, no expired timestamp is left, and every key not belonging to an expired entry is kept unchanged |
| SessionCache.ReplaceDropsBothPrefixes | utils/cache_manager.py:218 | `str.replace` deletes an inner occurrence of `cache_time_` as well as the leading one |
| SessionCache.TrickyExpired | utils/cache_manager.py:213-219 | in the example state, exactly one timestamp is expired and none is unreadable |
| SessionCache.RemoveOne | utils/cache_manager.py:104-115 | removing one entry keeps exactly the keys that are not its two keys |
| SessionCache.CleanupOneExpired | utils/cache_manager.py:213-226 | with a single expired timestamp, both cleanups remove one entry and report 1; they differ only in which entry they name |
| SessionCache.CleanupAsWrittenHitsWrongEntry | utils/cache_manager.py:218-223 | as written, cleaning the example state reports one expired entry, keeps that entry, and deletes the live entry under `x` instead |
| SessionCache.CleanupRemovesRightEntry | utils/cache_manager.py:198-226 | the corrected cleanup of the example removes the expired entry and keeps the live one |
| SessionCache.CacheQuery | utils/cache_manager.py:233-261 | a fresh cached result is returned without change. Otherwise the wrapped function's outcome is passed on: a returned value is stored with the current time, and a raised exception stores nothing beyond the lookup's removal of a stale entry. No other session key is added, removed or changed |
| SessionCache.CacheQueryTwice | utils/cache_manager.py:250-259 | after a call that missed, a second call within the ttl returns the first call's non-`None` result without recomputing |
| SessionCache.CacheQueryNoneRecomputes | utils/cache_manager.py:252-256 | a function that returned `None` is called again on the next call |
| SessionCache.CacheQueryRaisedRecomputes | utils/cache_manager.py:250-259 | after a call whose function raised, the next call runs the function again |
| StateManager.NewManager | utils/state_manager.py:19-29 | a new manager has no registered keys or callbacks, and its dependency table lists exactly the six kinds, without repeated keys |
| StateManager.RegisterCacheKey | utils/state_manager.py:31-36 | the key is always remembered. It joins the end of a known kind's dependency list unless it is already there; every other kind's list and the callbacks are unchanged |
| StateManager.RegisterCacheKeyKeepsValid | utils/state_manager.py:34-36 | registering never makes a kind list a key twice |
| StateManager.RegisterRefreshCallback | utils/state_manager.py:38-42 | the callback joins the end of its kind's list, which is created when missing; nothing else changes |
| StateManager.RegisterAllInOrder | utils/state_manager.py:38-42 | registering several callbacks keeps them in registration order after those already there |
| StateManager.DistinctHeadsPrefixFree | utils/state_manager.py:66-72 | prefixes that differ within their first two characters never start with one another |
| StateManager.HeadsPrefixFree | utils/state_manager.py:66-72 | every page's prefix list has that shape, so none of its prefixes starts with another |
| StateManager.UiPatternsPrefixFree | utils/state_manager.py:66-72 | no UI prefix of a kind starts with another prefix of the same kind |
| StateManager.UiMatchUnique | utils/state_manager.py:74-82 | a key matches at most one UI prefix of its kind, so `_clear_ui_state` collects each key once and never deletes one twice |
| StateManager.ClearCacheByType | utils/state_manager.py:44-82 | the kind's dependency keys and every key starting with one of its UI prefixes are removed; every other key is kept unchanged |
| StateManager.BagTypesClearOnlyDependencies | utils/state_manager.py:51-74 | bag types have no UI prefixes, so only their dependency keys go |
| StateManager.KeptBySplit | utils/state_manager.py:149-150 | a key survives a list of kinds exactly when it survives the first kind and then the rest |
| StateManager.ClearTypes | utils/state_manager.py:149-150 | clearing several kinds in turn keeps exactly the keys that no listed kind clears, unchanged |
| StateManager.ClearAllCache | utils/state_manager.py:84-102 | every registered key and every kind's dependency and UI keys are removed; all other keys are kept unchanged |
| StateManager.RefreshData | utils/state_manager.py:104-122 | exactly the keys the kind does not clear survive, each with its value. The callbacks that run are those registered for the kind, in registration order, and none when the kind has none |
| StateManager.RefreshRunsRegisteredCallbacks | utils/state_manager.py:38-116 | after a kind's callbacks are registered on a fresh manager, refreshing runs exactly them, in order |
| StateManager.AutoRefresh | utils/state_manager.py:129-166 | a rerun is asked for exactly when the call returned something other than `False` or `None`. Only then is anything cleared: the listed kinds, or everything when none is listed. The value passed on is the call's own, or the retried call's after an exception |
| StateManager.FailedWriteKeepsCache | utils/state_manager.py:146 | a write that returned `False` or `None` leaves every cached key in place |
| StateManager.SafeOperation | utils/state_manager.py:220-243 | a returned value passes through, and an exception becomes `False` with an error notice (the given message or the default one). The success notice appears exactly when the value succeeded and a message was given |
| StateManager.SafeOperationFalse | utils/state_manager.py:228-240 | the wrapped result is `False` exactly when the call raised or returned `False` |
| StateManager.CrudOperation | utils/state_manager.py:247-262 | the composed decorator reruns and clears exactly when the write succeeded. A rerun unwinds the call, so no value and no notice reach the caller. Without a rerun, the call's value is handed back with no notice, or, after one exception, the retry's value with an error notice. An error is shown, with `False` as the value, exactly when both attempts raised |
| StateManager.CrudFailureKeepsState | utils/state_manager.py:247-262 | with the default messages, a write that raises twice leaves the state alone and reports `False` with the default error |
| StateManager.StampKey | utils/state_manager.py:184 | the timestamp key extends the cache key |
| StateManager.SmartCache | utils/state_manager.py:169-203 | the key is registered first. A stored stamp that is not a number raises `TypeError` with the state unchanged. A fresh entry is returned as stored, even `None`. Otherwise a returned value is stored with the current time and returned, and a raised call is passed on with the state unchanged. The state changes only when the entry was not fresh and the call returned, and no session key other than the entry's two keys changes |
| StateManager.SmartCacheReturnsFirstResult | utils/state_manager.py:189-198 | unlike the query cache, a stored `None` is a hit: a second call within the ttl returns the first result, whatever it was |
| StateManager.ClearAllForcesRecompute | utils/state_manager.py:84-93 | clearing everything makes the next call recompute, because the registered key is gone |
| StateManager.ClearTypeForcesRecompute | utils/state_manager.py:34-54 | clearing the call's own kind also makes the next call recompute, because the key joined that kind's dependencies |
| OrderList.Init | pages/order_page.py:29-36 | the first render fills in only what is missing: page 1, an empty search, the `all` filter and an empty selection; confirmation is off and nothing is cached |
| OrderList.SetSearch | pages/order_page.py:48-50 | a new search term is stored and the list returns to page 1; the same term changes nothing |
| OrderList.SetStatusFilter | pages/order_page.py:58-60 | a new status filter is stored and the list returns to page 1; the same filter changes nothing |
| OrderList.KeyHeadsDetermined | pages/order_page.py:88 | the two numbers at the head of a key can be read back from it |
| OrderList.CacheKeySeparatesPages | pages/order_page.py:88 | a different page or page size always gives a different cache key, so moving pages never reuses another page's data |
| OrderList.LoadPage | pages/order_page.py:90-113 | data cached under the same key is reused unchanged; otherwise the fetched page is cached under the key and shown |
| OrderList.ClearOrderCache | pages/order_page.py:649-654 | both cache entries are gone and nothing else changes |
| OrderList.CacheReuseAndClear | pages/order_page.py:90-113 | loading the same key twice reuses the first result, and after the cache is cleared the page is fetched again |
| OrderList.TotalPages | pages/order_page.py:148 | the page count is the smallest number of pages that hold every order; it is never negative for a non-negative count |
| OrderList.TotalPagesIsCeiling | pages/order_page.py:148 | for a positive count, any page count whose pages just hold every order is the one computed |
| OrderList.PrevPage | pages/order_page.py:157-158 | "previous" goes back one page, except on page 1 where it is disabled |
| OrderList.NextPage | pages/order_page.py:161-162 | "next" goes forward one page, except on the page numbered `total_pages` where it is disabled |
| OrderList.PagingStaysInRange | pages/order_page.py:157-162 | starting within `1..total_pages`, both buttons keep the page there |
| OrderList.NextPastLastPage | pages/order_page.py:161 | past the last page, "next" stays enabled and moves further away |
| OrderList.SelectAll | pages/order_page.py:171 | "select all" adds the current page's ids to the selection and changes nothing else |
| OrderList.CancelSelection | pages/order_page.py:175 | "cancel" removes exactly the current page's ids from the selection |
| OrderList.SelectAllThenCancel | pages/order_page.py:171-175 | selecting all and cancelling on a page leaves exactly the selections made on other pages |
| OrderList.Checkbox | pages/order_page.py:264-275 | checking a box adds its order's id and unchecking it discards the id; nothing else changes |
| OrderList.UntouchedCheckbox | pages/order_page.py:266 | a checkbox left as rendered changes nothing |
| OrderList.BatchDeleteClick | pages/order_page.py:231-252 | the database is called exactly when something is selected and confirmation is pending. A first click only sets confirmation; only a deletion that removed something clears the selection, the flag and the cache; every other click changes nothing |
| OrderList.BatchDeleteNeedsTwoClicks | pages/order_page.py:231-252 | the first click never reaches the database and keeps the selection; the second click deletes it |
| OrderList.FailedDeleteKeepsConfirmation | pages/order_page.py:236-241 | a deletion that removed nothing leaves the flag set, so the next click deletes without asking again |
| OrderRecords.ItemsFor | csv_export.py:108 | an order without an entry in the dictionary has no items; otherwise it has exactly its entry's list |
| OrderRecords.Ids | services/export_service.py:148 | the ids of a list of orders, one per order in list order |
| CsvExport.OptionCell | csv_export.py:113-118 | a column read with `[]` is empty (no value) exactly when the stored value is `None` |
| CsvExport.FieldCell | csv_export.py:145-147 | a column read with `.get(key, '')` gives the empty text only for a missing key, no value for `None`, and the stored text otherwise |
| CsvExport.ItemName | csv_export.py:141 | the item name column is the inventory name when that is non-empty, and otherwise the bag-type name as read, with a missing key giving the empty text |
| CsvExport.OrderRows | csv_export.py:106-148 | an order can be exported exactly when its total and every item's price and quantity are present. It then gives one row per item, or one row with empty item columns when it has none; every row carries the order's columns, and the j-th row describes the j-th item |
| CsvExport.Concat | csv_export.py:104-132 | appending rows keeps both lists, in order, and a failure on either side fails the whole export |
| CsvExport.ExportRows | csv_export.py:92-148 | the export succeeds exactly when every order of the list can be exported with the items the dictionary gives it |
| CsvExport.RowCounts | csv_export.py:110-148 | each order contributes one row per item, or one row when it has none |
| CsvExport.ExportRowCount | csv_export.py:106-148 | the export has one row per item, plus one for every order without items |
| CsvExport.ExportAppend | csv_export.py:106 | exporting two lists one after the other gives the rows of both, in order |
| CsvExport.ConcatAssoc | csv_export.py:104 | appending row lists is associative |
| CsvExport.ExportSingle | csv_export.py:106-148 | a single order exports exactly its own rows |
| CsvExport.ExportGrouped | csv_export.py:106-148 | the rows are grouped by order in list order: any order's rows come after those of the orders before it and before those of the orders after it |
| CsvExport.EveryRowFromAnOrder | csv_export.py:113-139 | every exported row carries the id, customer, status, total and notes of some order of the list |
| CsvExport.EveryOrderHasARow | csv_export.py:110-128 | every order of the list, even one without items, has a row in the export |
| CsvExport.EntryItems | csv_export.py:32-34 | an entry's item list is the stored list, and is empty when the key is missing or holds `None` |
| CsvExport.ExportEntries | csv_export.py:8-72 | the optimized export succeeds exactly when every entry can be exported with its own items |
| CsvExport.EntryOrders | csv_export.py:26 | the orders of the entries, in dictionary order |
| CsvExport.OptimizedMatchesExport | csv_export.py:8-72 | the two exports build the same rows when each entry's items are the ones the items dictionary holds for its order |
| ExportService.Missing | services/export_service.py:147-149 | the missing ids are exactly the requested ids for which no order came back |
| ExportService.WithoutCustomer | services/export_service.py:155-158 | the incomplete list names exactly the found orders without a truthy customer id |
| ExportService.WithoutItems | services/export_service.py:164-168 | the list names exactly the found orders that have no item rows |
| ExportService.WarnIf | services/export_service.py:151-171 | a warning is added exactly when its check found something, and then only that warning |
| ExportService.ListingWarnings | services/export_service.py:146-171 | the warnings come in the fixed order missing, customer, items, with at most one of each kind |
| ExportService.ListingMembers | services/export_service.py:146-171 | a warning is in the list exactly when its check found something, and it carries exactly what the check found |
| ExportService.Validate | services/export_service.py:124-177 | an empty selection gives the single error "未选择任何订单"; a failed lookup gives the single "数据验证失败" error. The result is valid exactly when the selection is non-empty and the lookup succeeded, which is exactly when there are no errors; warnings never make it invalid |
| ExportService.EmptySelectionNeedsNoLookup | services/export_service.py:141-144 | an empty selection is rejected before any lookup, whatever the database would return |
| ExportService.MissingWarning | services/export_service.py:147-152 | there is a missing-orders warning exactly when a requested id was not found, and it lists exactly those ids |
| ExportService.CustomerWarning | services/export_service.py:155-161 | there is a missing-customer warning exactly when a found order lacks a customer, and it lists exactly those orders |
| ExportService.ItemsWarning | services/export_service.py:164-171 | there is a no-items warning exactly when a found order has no items, and it lists exactly those orders |
| ExportService.CompleteSelectionHasNoWarnings | services/export_service.py:124-177 | when every requested order is found, with a customer and with items, the result is valid with no warnings and no errors |
| ExportService.CustomerIds | services/export_service.py:106 | the distinct truthy customer ids of the orders |
| ExportService.TotalOf | services/export_service.py:105 | the sum exists exactly when every order has a total |
| ExportService.TotalOfAppend | services/export_service.py:105 | the total of two lists is the sum of their totals, and fails when either fails |
| ExportService.GetSummary | services/export_service.py:92-122 | on a failed lookup the counts are zero and the message is kept. Otherwise the summary reports the number of orders found, their summed total and the number of distinct truthy customers; a missing total is the `TypeError` with zero counts |
| ExportService.CustomerIdsBound | services/export_service.py:106 | distinct customers never outnumber the orders that name one |
| ExportService.SummaryCustomersWithinOrders | services/export_service.py:105-111 | in a summary the customer count never exceeds the order count |
| PrintService.FindCustomer | services/print_service.py:141-142 | a customer is found exactly when some listed customer has the order's customer id, and it is the first such customer |
| PrintService.ItemsPartitioned | services/print_service.py:148-155 | the ready-stock list holds only `现货` items, the other list holds only the rest, and together they are exactly the order's items with multiplicity |
| PrintService.ItemsSplitInOrder | services/print_service.py:151-155 | splitting keeps each list in the order's item order |
| PrintService.FoundIds | services/print_service.py:134-138 | the ids kept are exactly the requested ids that have an order, and never more than were requested |
| PrintService.PrintDataFor | services/print_service.py:122-164 | one print record per requested id that has an order, in request order, each holding that order, its customer and its split items |
| PrintService.Story | services/print_service.py:102-111 | a story of n orders has 2n-1 parts, and none for no orders |
| PrintService.StoryLayout | services/print_service.py:104-111 | order k's content sits at position 2k, with a page break between consecutive orders |
| PrintService.CountBreaksAppend | services/print_service.py:104-107 | page breaks are counted additively over concatenated stories |
| PrintService.StoryBreaks | services/print_service.py:104-107 | a non-empty story has exactly one page break fewer than orders |
| PrintService.PrintStory | services/print_service.py:72-276 | an empty id list is the `ValueError` with its message. Otherwise the call fails, with the `TypeError`, exactly when some requested order that exists has a `None` total or an item with a `None` quantity or unit price. When it succeeds, the story is the found orders' print records in request order, separated by page breaks, and every content part shows an order from the database that can be laid out |
| PrintService.NullTotalFailsPrint | services/print_service.py:275-276 | one requested order with a `None` total makes the whole print fail with the `TypeError` |
| PrintService.StoryContentAt | services/print_service.py:104-111 | every content part of the story is one of the orders' print records |
| PrintService.PrintFilename | services/print_service.py:280-295 | with one id the name is the single-order prefix, that id and `_`. With any other number of ids it is the batch prefix, the count of ids and the batch suffix. Either way it ends with the stamp and `.pdf` |
| PrintService.SingleFilenameNamesOrder | services/print_service.py:292-293 | for one time stamp, two single-order file names are equal exactly when the order ids are |
| Config.CacheTtl | config.py:199-218 | each of the five named cache types gets its own configured lifetime, and every other type, "default" included, gets the default lifetime |
| Config.BrokenAmongMembership | config.py:220-254 | a rule is reported as broken exactly when it is among the checked rules and the configuration breaks it |
| Config.Messages | config.py:230-252 | one message per broken rule, position by position |
| Config.Validate | config.py:220-254 | there are never more errors than the seven rules |
| Config.ValidateInOrder | config.py:220-254 | the errors are exactly the messages of the broken rules, one each, in checking order |
| Config.MessageInjective | config.py:231-252 | no two rules share a message, so an error names its rule |
| Config.ValidateReportsBroken | config.py:220-254 | a rule's message is among the errors exactly when the configuration breaks that rule |
| Config.DefaultIsValid | config.py:16-109 | the default configuration has no validation errors |
| Config.DefaultCacheTtls | config.py:22-27 | by default orders live 60 s, inventory 180 s, fabrics 600 s, and customers, dashboard and every other type 300 s |
| LogFilter.RangeSpan | enhanced_log_viewer.py:393-402 | every known time range reaches back a positive span |
| LogFilter.FilterByTime | enhanced_log_viewer.py:389-418 | an unknown range keeps every line; otherwise a line is kept exactly when it has no time, an unparseable time, or a time at or after the cutoff |
| LogFilter.Selected | enhanced_log_viewer.py:380-385 | the selection never has more lines than the file, nor more than a non-negative line limit |
| LogFilter.ReadAndFilter | enhanced_log_viewer.py:354-387 | a missing or unreadable file shows as the empty text; otherwise the text is the selected lines joined |
| LogFilter.TimedIff | enhanced_log_viewer.py:368-370 | a line survives the time step exactly when it is in the file and the range is `全部`, unknown, or the line passes the cutoff |
| LogFilter.LeveledIff | enhanced_log_viewer.py:372-374 | a line survives the level step exactly when it is in the input and the level is `全部` or occurs in the line |
| LogFilter.SearchedIff | enhanced_log_viewer.py:376-378 | a line survives the search exactly when it is in the input and the term is empty or occurs in it with ASCII case ignored |
| LogFilter.MatchingIff | enhanced_log_viewer.py:368-378 | a line is matched exactly when it is in the file and passes every active filter |
| LogFilter.ForwardTakesFirst | enhanced_log_viewer.py:380-385 | without reversal the output is the first `max_lines` matching lines in file order |
| LogFilter.ReverseTakesLast | enhanced_log_viewer.py:380-385 | with reversal the output is the last `max_lines` matching lines, newest first |
| LogFilter.NoFilterKeepsFile | enhanced_log_viewer.py:354-387 | with every filter off and a large enough limit, the output is the whole file |
| LogFilter.ErrorEntries | enhanced_log_viewer.py:519-539 | never more error entries than lines; which entries they are is stated once, against the filter of qualifying lines, by `ErrorEntriesOfQualifying` |
| LogFilter.EntriesOf | enhanced_log_viewer.py:533-536 | one entry per line, in order, each with the line's stamp and the stripped line |
| LogFilter.ErrorEntriesOfQualifying | enhanced_log_viewer.py:519-539 | the extracted entries are exactly the entries of the lines that contain `ERROR` and carry a parseable stamp, in file order: none is missed and none is added |
| LogFilter.QualifyingLineListed | enhanced_log_viewer.py:519-542 | every line with `ERROR` and a parseable stamp shows up among the recent errors with its stamp and stripped line |
| LogFilter.ErrorEntriesFromLines | enhanced_log_viewer.py:519-539 | every recent error comes from an `ERROR` line of the file with a parseable stamp, and carries that stamp and the stripped line |
| LogFilter.NewerFirstPreorder | enhanced_log_viewer.py:542 | newest-first ordering on the stamp text is a total preorder |
| LogFilter.RecentErrors | enhanced_log_viewer.py:541-542 | the recent errors are a permutation of the error entries, ordered newest first by their stamp text |
| PyText.Strip | app.py:210 | the stripped text is the infix of the text left between an all-whitespace prefix and an all-whitespace suffix. It has no whitespace at either end, and it is empty exactly when the text is all whitespace |
| PyText.StripShape | app.py:210 | any cut that removes only whitespace from the front up to a non-space, then only whitespace from the back, leaves the empty string exactly when the input is all whitespace, and otherwise a slice with whitespace on both sides |
| PyText.StripIdentity | app.py:244 | a text with no whitespace at either end is its own strip |
| PyText.Contains | category_management.py:170 | `p in s` holds exactly when `p` occurs in `s` at some position |
| PyText.LowerContainsIff | category_management.py:170 | comparing lower-cased texts is case-insensitive (ASCII) occurrence |
| PyText.ReplaceAll | app.py:217 | a pattern that does not occur leaves the text unchanged. For a non-empty pattern, the result is the text split at every non-overlapping occurrence of the pattern from the left, rejoined with the replacement |
| PyText.Split | app.py:217 | the pieces of a text cut at each occurrence of a non-empty separator; there is at least one piece, and the first is a prefix of the text |
| PyText.SplitJoinsBack | app.py:217 | joining the pieces with the separator gives the text back |
| PyText.SplitPiecesFree | app.py:217 | no piece contains the separator |
| PyText.SplitJoin | utils/display_utils.py:154-155 | joining parts free of a one-character separator and splitting the result gives the parts back |
| PyText.ParseInt | app.py:180-192 | `int()` accepts exactly a stripped text of ASCII digits with single underscores between digits, optionally after one `+` or `-`, and raises on a blank text and on anything else. A negative value needs the minus sign, and a minus sign never gives a positive value |
| PyText.IntToStringRoundTrip | app.py:180 | rendering an integer with `str` and reading it back with `int` gives the integer |
| PyText.IntToStringInjective | pages/order_page.py:88 | different integers render differently |
| PyText.LikeContainsIff | app.py:173 | `LIKE '%term%'` with a term free of `%` and `_` is case-insensitive (ASCII) occurrence of the term |
| PyText.JoinSeparators | utils/display_utils.py:154-155 | joining parts free of a one-character separator puts exactly one separator between neighbours |
| Tables.NextRowId | app.py:47 | the id SQLite gives an `INTEGER PRIMARY KEY` row is fresh and above every id present, and 1 in an empty table |
| Tables.AutoIncrementId | database.py:91 | the id an AUTOINCREMENT table gives is fresh and above both every id present and every id handed out before |

## Left out

- Floating point. Money is integer cents, and `int(total_amount)` is truncation toward zero. The completion rate is computed exactly to tenths with ties to even (`TaskStore.RateTenths`). `get_hit_rate`'s float division and the discount percentage's float comparison are exact `real` arithmetic.
- Clocks. `datetime.now()`, `time.time()` and `CURRENT_TIMESTAMP` are an integer `now` in seconds, or a formatted stamp string where only the text is used (file names, export summaries). Time zones are not modelled. The tz-aware versus naive `datetime` comparison in `app.py` is not modelled either.
- Date parsing. The result of `datetime.fromisoformat` in `app.py` is the parameter `iso`. The timestamp regex and `strptime` in `enhanced_log_viewer.py` are the parameter `stampOf`.
- Hashing. `md5` in `generate_cache_key` and Python's `hash()` of the arguments in the state-manager `smart_cache` are parameters. Their collision behaviour is whatever the parameter does.
- Value sizes. `len(str(value))` in `get_cache_stats` and the pickled size in `CacheItem` are not modelled as computations. Only the item counts of the statistics are modelled, and the size of a value is passed in where it is used.
- SQLite and SQLAlchemy plumbing. This covers connections, DDL, indexes, transactions and `commit`. Tables are maps.
- SQL row order. Ties that `ORDER BY` leaves unordered follow rowid order (`Tables.Rows`). Their real order is up to SQLite.
- Lookups the shown code calls but does not define. `get_orders_by_ids`, `get_order_by_id`, `get_orders_paginated` and `delete_orders_batch` are parameters carrying their results or their exception message.
- Call-site drift. `main.py:804` calls `create_order` with three arguments and `main.py:341` calls `add_fabric` with an image path; neither signature accepts that. `Ledger.CreateOrder` models `database.py` as written, and `main.py` is not part of this model.
- Missing dictionary keys. A `KeyError` from `row['field']` on a row without that column cannot arise in the model, because rows are records with every column present. Only the `.get` reads keep the missing-versus-`None` distinction.
- Case folding. `str.lower()` and SQLite `LIKE` fold ASCII letters only. Python's full Unicode lowering of non-ASCII letters is not modelled.
- Rendering. Streamlit widgets, messages, `st.spinner`, `st.rerun` (modelled as an outcome that hands nothing back to the caller), the progress bar, metrics and download buttons are not modelled. The same holds for the ReportLab layout of one order (kept as one story part), pandas' CSV serialisation and `:.2f` formatting beyond the two-decimal cell text.
- `st.cache_data.clear()` in `clear_all_cache`. Streamlit's own function cache is outside session state, so clearing it is not modelled.
- Thin wrappers with no logic of their own: `refresh_page`, `refresh_module`, `clear_module_cache`, `init_state_manager`, `get_state_manager`, the `with_loading` decorator, `export_orders_to_csv`/`export_orders_to_pdf` of the export service, `get_supported_export_formats`, `generate_csv_filename`, the `index` and `get_categories` endpoints of `app.py`, and `get_categories`/`get_customers` of the database.
- `get_cache_info` and `get_stats` of `SmartCacheManager`. They only report float ages and the metrics already modelled.
- Configuration beyond validation. `Config.from_env`, `get_page_config`, `get_chart_config` and the display strings (titles, colours, status labels) are not modelled.
- Error analysis beyond the recent errors. The `Counter` of exception names and the hourly histogram of `_analyze_error_log` are not modelled, nor is the file reading itself.
- Concurrency. The locks of the cache manager are dropped, and the model is sequential.
- The client-side task-list script behind `index.html` is not part of this model; only the server endpoints are.
- PyText.ParseInt: reads ASCII digits only. Python's `int()` also accepts other Unicode decimal digits (Arabic-Indic, full-width), which the model rejects.
- TaskStore.CreateTask: a JSON `priority` that is null or not an integer is not modelled. The priority is either absent or an integer, because what SQLite stores for other values depends on the driver.
- TaskStore.UpdateTask: as for creation, a null or non-integer `priority` is not modelled, and neither is a `completed` that is neither a boolean nor null. A non-string content or date is not modelled either; its `.strip()` or `.replace()` raises `AttributeError`, which the handler returns as a 500.
- TaskStore.Reorder: an entry whose `id` or `order` is present but null or not an integer is not modelled. An entry's keys are either missing or integers.
- PrintService.PrintStory: the message text of the `TypeError` raised for a `None` price, quantity or total is not modelled, because it comes from Python's formatting and arithmetic rather than from the program.
- TaskStore.BatchUpdate: a null `updates`, assignments to `id`, `created_at` or `updated_at` (an `updated_at` key replaces the automatic timestamp, and a non-date value for it makes the statement fail), a null `order` (the column is nullable, so it stores `NULL`, which the model's integer order cannot hold), and raw values of other types in the content, priority, completion and category columns are not modelled, because their effect depends on the SQLAlchemy version. A date column given null is cleared, and any other value for it is rejected.
- LogFilter.ErrorEntries: its own contract bounds only the number of entries. The exact list (every qualifying line, in file order, and nothing else) is the separate lemma `LogFilter.ErrorEntriesOfQualifying`.
- LogFilter.RecentErrors: does not state that entries with equal stamps keep file order, which Python's stable sort guarantees. Only the permutation and the newest-first order are proved.

## Findings

| source | as written | input that shows it | evidently intended | confidence | as-written member | corrected member |
|---|---|---|---|---|---|---|
| utils/cache_manager.py:172-184 | `get_cache_stats` matches a key against `cache_` before `cache_time_`; every timestamp key also starts with `cache_`, so timestamps are counted as cached items and `time_items` is always 0 | one entry stored under `a`: the keys `cache_a` and `cache_time_a` give cache_items 2, time_items 0 | cache_items 1 and time_items 1, each key counted under its own kind, with the same total | high, not executed | SessionCache.CacheStatsAsWritten, SessionCache.StatsTimeItemsAlwaysZero, SessionCache.StatsOfOneEntry | SessionCache.CacheStats |
| utils/cache_manager.py:213-226 | `cleanup_expired_cache` recovers the cache key with `key.replace("cache_time_", "")`, which removes every occurrence and not just the prefix | the session state holding `cache_time_xcache_time_` (expired, stored at 0), `cache_xcache_time_` and `cache_x`, with ttl 300 at time 1000: it reports one removal, keeps the expired entry and deletes the live entry under `x` | strip only the leading `cache_time_`, so the expired entry `xcache_time_` is removed and `x` is kept | medium (needs a cache key containing `cache_time_`), not executed | SessionCache.CleanupAsWritten, SessionCache.CleanupAsWrittenHitsWrongEntry | SessionCache.Cleanup, SessionCache.CleanupRemovesExpired, SessionCache.CleanupRemovesRightEntry |
