/**
 * The task-list API: an in-memory store of tasks and categories and the
 * endpoints that read and change it. Each endpoint is a pure function from
 * the store (and the request payload) to `Ok(new store, response)` or an
 * error; an error carries no store, so a rejected request persists nothing.
 * The clock is the parameter `now` and ISO-8601 date parsing is the
 * parameter `iso`.
 */
module TaskStore {
  import opened Wrappers
  import opened PyText
  import Tables
  import Seqs

  datatype Task = Task(
    id: int,
    content: string,
    completed: Option<bool>,
    priority: int,
    startDate: Option<int>,
    dueDate: Option<int>,
    categoryId: Option<int>,
    order: int,
    createdAt: int,
    updatedAt: int)

  datatype Category = Category(id: int, name: string, color: Option<string>, createdAt: int)

  datatype Store = Store(tasks: map<int, Task>, categories: map<int, Category>)

  /** Each row is stored under its own id and category names are unique. */
  predicate Valid(s: Store) {
    && (forall k :: k in s.tasks ==> s.tasks[k].id == k)
    && (forall k :: k in s.categories ==> s.categories[k].id == k)
    && (forall a, b :: a in s.categories && b in s.categories && s.categories[a].name == s.categories[b].name ==> a == b)
  }

  /** The error responses of the API. */
  datatype ApiError =
    | EmptyContent          // 400 任务内容不能为空
    | BadStartDate          // 400 开始日期格式错误
    | BadDueDate            // 400 截止日期格式错误
    | StartAfterDue         // 400 开始日期不能晚于截止日期
    | EmptyPayload          // 400 请求数据不能为空
    | MissingCategoryName   // 400 分类名称不能为空
    | DuplicateCategoryName // 400 分类名称已存在
    | MissingTaskIds        // 400 任务ID列表不能为空
    | MissingTaskOrders     // 400 排序数据不能为空
    | MissingRow            // 500, the NotFound of get_or_404, caught as an exception
    | ServerError           // 500, any other exception caught by the endpoint

  /**
   * Every endpoint calls `get_or_404` inside its `try`, and Werkzeug's
   * `NotFound` is an `Exception`, so a missing row is answered by the
   * `except` branch with 500, not with 404.
   */
  function Status(e: ApiError): (code: int)
    ensures code in {400, 500}
    ensures code == 500 <==> e == MissingRow || e == ServerError
  {
    match e
    case MissingRow => 500
    case ServerError => 500
    case _ => 400
  }

  // ----- priority -----

  /** The name-to-number map used when a priority arrives as a string; unknown names give 2. */
  function EncodePriority(name: string): (p: int)
    ensures 1 <= p <= 3
    ensures name !in {"low", "medium", "high"} ==> p == 2
  {
    if name == "low" then 1 else if name == "high" then 3 else 2
  }

  /** The number-to-name map of `to_dict`; unknown numbers read as "medium". */
  function DecodePriority(p: int): (name: string)
    ensures name in {"low", "medium", "high"}
    ensures p !in {1, 2, 3} ==> name == "medium"
  {
    if p == 1 then "low" else if p == 3 then "high" else "medium"
  }

  lemma PriorityNameRoundTrip(name: string)
    requires name in {"low", "medium", "high"}
    ensures DecodePriority(EncodePriority(name)) == name
  {
  }

  lemma PriorityNumberRoundTrip(p: int)
    requires p in {1, 2, 3}
    ensures EncodePriority(DecodePriority(p)) == p
  {
  }

  /** A priority in a JSON payload: a string is mapped by name, a number is stored as given. */
  datatype PriorityArg = Named(name: string) | Numeric(n: int)

  function PriorityValue(a: PriorityArg): (p: int)
    ensures a.Named? ==> 1 <= p <= 3
    ensures a.Numeric? ==> p == a.n
  {
    match a
    case Named(s) => EncodePriority(s)
    case Numeric(n) => n
  }

  // ----- dates -----

  /** `datetime.fromisoformat(text.replace('Z', '+00:00'))`, with `iso` standing for `fromisoformat`. */
  function ParseDate(iso: string -> Option<int>, text: string): Option<int> {
    iso(ReplaceAll(text, "Z", "+00:00"))
  }

  /**
   * A date field that is parsed when its value is a non-empty string and
   * otherwise means "no date"; `Err` is a `ValueError` from the parser.
   */
  function DateField(iso: string -> Option<int>, f: Field<string>): (r: Result<Option<int>, ()>)
    ensures !f.Val? || f.v == [] ==> r == Ok(None)
    ensures f.Val? && f.v != [] ==> (r.Err? <==> ParseDate(iso, f.v).None?)
    ensures r.Ok? && r.value.Some? ==> f.Val? && ParseDate(iso, f.v) == r.value
  {
    match f
    case Val(text) =>
      if text == [] then Ok(None)
      else (match ParseDate(iso, text)
            case Some(d) => Ok(Some(d))
            case None => Err(()))
    case _ => Ok(None)
  }

  predicate DatesOrdered(start: Option<int>, due: Option<int>) {
    !(start.Some? && due.Some? && start.value > due.value)
  }

  // ----- creating a task -----

  /** The JSON body of a create request, each field as `dict.get` sees it. */
  datatype NewTask = NewTask(
    content: Field<string>,
    startDate: Field<string>,
    dueDate: Field<string>,
    priority: Option<PriorityArg>,
    categoryId: Field<int>)

  /** `db.func.max(Task.order) or 0`. */
  function MaxOrder(tasks: map<int, Task>): (m: int)
    ensures forall k :: k in tasks ==> tasks[k].order <= m
    ensures tasks == map[] ==> m == 0
    ensures tasks != map[] ==> exists k :: k in tasks && tasks[k].order == m
  {
    var orders := set k | k in tasks :: tasks[k].order;
    if orders == {} then
      assert tasks.Keys == {} by {
        assert forall k :: k in tasks ==> tasks[k].order in orders;
      }
      0
    else
      var m := Tables.MaxOf(orders);
      assert m in orders;
      assert forall k :: k in tasks ==> tasks[k].order in orders;
      assert tasks != map[] by {
        var k :| k in tasks && tasks[k].order == m;
      }
      m
  }

  function CreateTask(s: Store, p: NewTask, iso: string -> Option<int>, now: int): (r: Result<(Store, Task), ApiError>)
    ensures p.content.Absent? ==> r == Err(EmptyContent)
    ensures p.content.Null? ==> r == Err(ServerError)
    ensures p.content.Val? && AllSpace(p.content.v) ==> r == Err(EmptyContent)
    ensures r.Ok? <==>
      && p.content.Val? && !AllSpace(p.content.v)
      && DateField(iso, p.startDate).Ok? && DateField(iso, p.dueDate).Ok?
      && DatesOrdered(DateField(iso, p.startDate).value, DateField(iso, p.dueDate).value)
    ensures r.Ok? ==>
      var (s', t) := r.value;
      && t.id !in s.tasks
      && s'.tasks == s.tasks[t.id := t]
      && s'.categories == s.categories
      && t.content == Strip(p.content.v) && t.content != []
      && t.completed == Some(false)
      && t.order == MaxOrder(s.tasks) + 1
      && (forall k :: k in s.tasks ==> s.tasks[k].order < t.order)
      && (s.tasks == map[] ==> t.order == 1 && t.id == 1)
      && (p.priority.None? ==> t.priority == 2)
      && (p.priority.Some? ==> t.priority == PriorityValue(p.priority.value))
      && t.categoryId == p.categoryId.Get()
      && t.startDate == DateField(iso, p.startDate).value
      && t.dueDate == DateField(iso, p.dueDate).value
      && DatesOrdered(t.startDate, t.dueDate)
      && t.createdAt == now && t.updatedAt == now
  {
    match p.content
    case Absent => Err(EmptyContent)
    case Null => Err(ServerError)
    case Val(c) =>
      if Strip(c) == [] then Err(EmptyContent)
      else
        match DateField(iso, p.startDate)
        case Err(_) => Err(BadStartDate)
        case Ok(start) =>
          match DateField(iso, p.dueDate)
          case Err(_) => Err(BadDueDate)
          case Ok(due) =>
            if !DatesOrdered(start, due) then Err(StartAfterDue)
            else
              var id := Tables.NextRowId(s.tasks.Keys);
              var t := Task(
                id := id,
                content := Strip(c),
                completed := Some(false),
                priority := PriorityValue(p.priority.GetOr(Named("medium"))),
                startDate := start,
                dueDate := due,
                categoryId := p.categoryId.Get(),
                order := MaxOrder(s.tasks) + 1,
                createdAt := now,
                updatedAt := now);
              Ok((Store(s.tasks[id := t], s.categories), t))
  }

  lemma CreateTaskPreservesValid(s: Store, p: NewTask, iso: string -> Option<int>, now: int)
    requires Valid(s)
    requires CreateTask(s, p, iso, now).Ok?
    ensures Valid(CreateTask(s, p, iso, now).value.0)
  {
  }

  // ----- updating one task -----

  /**
   * The JSON body of an update request: each field is `Absent` when its key
   * is missing; `others` records keys the endpoint ignores, which still make
   * the body non-empty.
   */
  datatype TaskChanges = TaskChanges(
    content: Field<string>,
    completed: Field<bool>,
    priority: Option<PriorityArg>,
    categoryId: Field<int>,
    startDate: Field<string>,
    dueDate: Field<string>,
    others: bool)
  {
    /** `not data`: no body, or an empty object. */
    predicate IsEmpty() {
      content.Absent? && completed.Absent? && priority.None? && categoryId.Absent?
      && startDate.Absent? && dueDate.Absent? && !others
    }
  }

  /** The new value of a date column: kept when absent, cleared when falsy, parsed otherwise. */
  function UpdatedDate(iso: string -> Option<int>, f: Field<string>, current: Option<int>): (r: Result<Option<int>, ()>)
    ensures f.Absent? ==> r == Ok(current)
    ensures !f.Absent? ==> r == DateField(iso, f)
  {
    if f.Absent? then Ok(current) else DateField(iso, f)
  }

  /** The task with every present field of `c` applied, before the date check and the timestamp. */
  function ApplyChanges(t: Task, c: TaskChanges, content: string, start: Option<int>, due: Option<int>): Task {
    t.(content := content,
       completed := if c.completed.Absent? then t.completed else c.completed.Get(),
       priority := if c.priority.Some? then PriorityValue(c.priority.value) else t.priority,
       categoryId := if c.categoryId.Absent? then t.categoryId else c.categoryId.Get(),
       startDate := start,
       dueDate := due)
  }

  /**
   * The ORM writes a row, and so refreshes `updated_at`, only when some
   * column value actually changed.
   */
  function Touch(before: Task, after: Task, now: int): (r: Task)
    ensures r.(updatedAt := before.updatedAt) == after.(updatedAt := before.updatedAt)
    ensures after.(updatedAt := before.updatedAt) == before ==> r == before
    ensures after.(updatedAt := before.updatedAt) != before ==> r.updatedAt == now
  {
    if after.(updatedAt := before.updatedAt) == before then before else after.(updatedAt := now)
  }

  /** The `content` of an update passes `data['content'].strip()`: absent, or a text that is not all whitespace. */
  predicate ContentAccepted(f: Field<string>) {
    f.Absent? || (f.Val? && !AllSpace(f.v))
  }

  function UpdateTask(s: Store, id: int, c: TaskChanges, iso: string -> Option<int>, now: int): (r: Result<(Store, Task), ApiError>)
    ensures id !in s.tasks ==> r == Err(MissingRow)
    ensures id in s.tasks && c.IsEmpty() ==> r == Err(EmptyPayload)
    ensures id in s.tasks && !c.IsEmpty() && c.content.Val? && AllSpace(c.content.v) ==> r == Err(EmptyContent)
    ensures id in s.tasks && !c.IsEmpty() && c.content.Null? ==> r == Err(ServerError)
    ensures id in s.tasks && !c.IsEmpty() && ContentAccepted(c.content) ==>
      var start, due := UpdatedDate(iso, c.startDate, s.tasks[id].startDate), UpdatedDate(iso, c.dueDate, s.tasks[id].dueDate);
      && (start.Err? ==> r == Err(BadStartDate))
      && (start.Ok? && due.Err? ==> r == Err(BadDueDate))
      && (start.Ok? && due.Ok? && !DatesOrdered(start.value, due.value) ==> r == Err(StartAfterDue))
      && (r.Ok? <==> start.Ok? && due.Ok? && DatesOrdered(start.value, due.value))
    ensures r.Ok? ==> id in s.tasks && !c.IsEmpty() && ContentAccepted(c.content)
    ensures r.Ok? ==> id in s.tasks && r.value.0 == Store(s.tasks[id := r.value.1], s.categories)
    ensures r.Ok? ==> r.value.1.id == s.tasks[id].id && r.value.1.order == s.tasks[id].order && r.value.1.createdAt == s.tasks[id].createdAt
    ensures r.Ok? && c.content.Absent? ==> r.value.1.content == s.tasks[id].content
    ensures r.Ok? && c.content.Val? ==> r.value.1.content == Strip(c.content.v) && r.value.1.content != []
    ensures r.Ok? ==> r.value.1.completed == (if c.completed.Absent? then s.tasks[id].completed else c.completed.Get())
    ensures r.Ok? && c.priority.None? ==> r.value.1.priority == s.tasks[id].priority
    ensures r.Ok? && c.priority.Some? ==> r.value.1.priority == PriorityValue(c.priority.value)
    ensures r.Ok? ==> r.value.1.categoryId == (if c.categoryId.Absent? then s.tasks[id].categoryId else c.categoryId.Get())
    ensures r.Ok? && c.startDate.Absent? ==> r.value.1.startDate == s.tasks[id].startDate
    ensures r.Ok? && c.dueDate.Absent? ==> r.value.1.dueDate == s.tasks[id].dueDate
    ensures r.Ok? && !c.startDate.Absent? ==> Ok(r.value.1.startDate) == DateField(iso, c.startDate)
    ensures r.Ok? && !c.dueDate.Absent? ==> Ok(r.value.1.dueDate) == DateField(iso, c.dueDate)
    ensures r.Ok? ==> DatesOrdered(r.value.1.startDate, r.value.1.dueDate)
    ensures r.Ok? ==> r.value.1.updatedAt == s.tasks[id].updatedAt || r.value.1.updatedAt == now
  {
    if id !in s.tasks then Err(MissingRow)
    else if c.IsEmpty() then Err(EmptyPayload)
    else
      var t := s.tasks[id];
      var content :- match c.content
        case Absent => Ok(t.content)
        case Null => Err(ServerError)
        case Val(text) => if Strip(text) == [] then Err(EmptyContent) else Ok(Strip(text));
      match UpdatedDate(iso, c.startDate, t.startDate)
      case Err(_) => Err(BadStartDate)
      case Ok(start) =>
        match UpdatedDate(iso, c.dueDate, t.dueDate)
        case Err(_) => Err(BadDueDate)
        case Ok(due) =>
          if !DatesOrdered(start, due) then Err(StartAfterDue)
          else
            var t' := Touch(t, ApplyChanges(t, c, content, start, due), now);
            Ok((Store(s.tasks[id := t'], s.categories), t'))
  }

  /** Applying the changes of `c` to a task they were already applied to changes nothing. */
  lemma ApplyChangesAgain(t: Task, c: TaskChanges, content: string, start: Option<int>, due: Option<int>, now: int)
    ensures
      var t1 := Touch(t, ApplyChanges(t, c, content, start, due), now);
      ApplyChanges(t1, c, content, start, due) == t1
  {
  }

  /** Sending the same update twice leaves the store as the first update left it. */
  lemma UpdateTaskIdempotent(s: Store, id: int, c: TaskChanges, iso: string -> Option<int>, now1: int, now2: int)
    requires UpdateTask(s, id, c, iso, now1).Ok?
    ensures
      var s1 := UpdateTask(s, id, c, iso, now1).value.0;
      UpdateTask(s1, id, c, iso, now2) == Ok((s1, s1.tasks[id]))
  {
    var t0 := s.tasks[id];
    var (s1, t1) := UpdateTask(s, id, c, iso, now1).value;
    assert s1.tasks[id] == t1;
    var content := if c.content.Val? then Strip(c.content.v) else t0.content;
    var start := UpdatedDate(iso, c.startDate, t0.startDate).value;
    var due := UpdatedDate(iso, c.dueDate, t0.dueDate).value;
    assert t1 == Touch(t0, ApplyChanges(t0, c, content, start, due), now1);
    ApplyChangesAgain(t0, c, content, start, due, now1);
    assert UpdatedDate(iso, c.startDate, t1.startDate) == Ok(start);
    assert UpdatedDate(iso, c.dueDate, t1.dueDate) == Ok(due);
    assert s1.tasks[id := t1] == s1.tasks;
  }

  lemma UpdateTaskPreservesValid(s: Store, id: int, c: TaskChanges, iso: string -> Option<int>, now: int)
    requires Valid(s)
    requires UpdateTask(s, id, c, iso, now).Ok?
    ensures Valid(UpdateTask(s, id, c, iso, now).value.0)
  {
  }

  // ----- reordering -----

  /** One entry of `task_orders`; `None` is a missing `'id'` or `'order'` key. */
  datatype OrderItem = OrderItem(id: Option<int>, order: Option<int>)

  /**
   * An entry that raises `KeyError`: it has no `'id'`, or it names a task
   * and has no `'order'` (the order is read only once the task is found).
   */
  predicate BadEntry(tasks: map<int, Task>, it: OrderItem) {
    it.id.None? || (it.id.value in tasks && it.order.None?)
  }

  /** The entry names a task of `tasks` and carries its new order. */
  predicate Moves(tasks: map<int, Task>, it: OrderItem) {
    it.id.Some? && it.id.value in tasks && it.order.Some?
  }

  /** The entries are applied in sequence; entries naming no task are skipped. */
  function ApplyOrders(tasks: map<int, Task>, items: seq<OrderItem>): (r: map<int, Task>)
    ensures r.Keys == tasks.Keys
    ensures forall k :: k in r ==> r[k] == tasks[k].(order := r[k].order)
    decreases |items|
  {
    if |items| == 0 then tasks
    else
      var it := items[0];
      var next := if Moves(tasks, it) then tasks[it.id.value := tasks[it.id.value].(order := it.order.value)] else tasks;
      ApplyOrders(next, items[1..])
  }

  /** The last entry naming a task decides its order; a task no entry names keeps its row. */
  lemma {:induction false} ApplyOrdersLastWins(tasks: map<int, Task>, items: seq<OrderItem>, k: int)
    requires k in tasks
    ensures (forall j :: 0 <= j < |items| ==> items[j].id != Some(k)) ==> ApplyOrders(tasks, items)[k] == tasks[k]
    ensures forall j :: 0 <= j < |items| && items[j].id == Some(k) && items[j].order.Some? && LastFor(items, j) ==>
      ApplyOrders(tasks, items)[k].order == items[j].order.value
    decreases |items|
  {
    if |items| > 0 {
      var it := items[0];
      var next := if Moves(tasks, it) then tasks[it.id.value := tasks[it.id.value].(order := it.order.value)] else tasks;
      var rest := items[1..];
      ApplyOrdersLastWins(next, rest, k);
      assert ApplyOrders(tasks, items) == ApplyOrders(next, rest);
      if forall j :: 0 <= j < |items| ==> items[j].id != Some(k) {
        assert forall j :: 0 <= j < |rest| ==> rest[j].id != Some(k) by {
          forall j | 0 <= j < |rest| ensures rest[j].id != Some(k) {
            assert rest[j] == items[j + 1];
          }
        }
      }
      forall j | 0 <= j < |items| && items[j].id == Some(k) && items[j].order.Some? && LastFor(items, j)
        ensures ApplyOrders(tasks, items)[k].order == items[j].order.value
      {
        if j == 0 {
          assert forall j2 :: 0 <= j2 < |rest| ==> rest[j2].id != Some(k) by {
            forall j2 | 0 <= j2 < |rest| ensures rest[j2].id != Some(k) {
              assert rest[j2] == items[j2 + 1];
            }
          }
        } else {
          assert rest[j - 1] == items[j];
          assert LastFor(rest, j - 1) by {
            forall j2 | j - 1 < j2 < |rest| ensures rest[j2].id != rest[j - 1].id {
              assert rest[j2] == items[j2 + 1];
            }
          }
        }
      }
    }
  }

  /** No later entry names the same task as entry `j`. */
  predicate LastFor(items: seq<OrderItem>, j: int)
    requires 0 <= j < |items|
  {
    forall j2 :: j < j2 < |items| ==> items[j2].id != items[j].id
  }

  /**
   * `task_orders` as `dict` access sees it: a missing key is the 400, a
   * `null` list and a `KeyError` in any entry are a 500 with nothing saved.
   */
  function Reorder(s: Store, items: Field<seq<OrderItem>>, now: int): (r: Result<Store, ApiError>)
    ensures items.Absent? <==> r == Err(MissingTaskOrders)
    ensures r == Err(ServerError) <==>
      items.Null? || (items.Val? && exists j :: 0 <= j < |items.v| && BadEntry(s.tasks, items.v[j]))
    ensures r.Ok? <==> items.Val? && !exists j :: 0 <= j < |items.v| && BadEntry(s.tasks, items.v[j])
    ensures r.Ok? ==> r.value.categories == s.categories && r.value.tasks.Keys == s.tasks.Keys
    ensures r.Ok? ==> forall k :: k in s.tasks ==>
      r.value.tasks[k].(order := s.tasks[k].order, updatedAt := s.tasks[k].updatedAt) == s.tasks[k]
    ensures r.Ok? ==> forall k :: k in s.tasks && (forall j :: 0 <= j < |items.v| ==> items.v[j].id != Some(k)) ==>
      r.value.tasks[k] == s.tasks[k]
    ensures r.Ok? ==> forall k, j :: k in s.tasks && 0 <= j < |items.v| && items.v[j].id == Some(k) && LastFor(items.v, j) ==>
      items.v[j].order.Some? && r.value.tasks[k].order == items.v[j].order.value
    ensures r.Ok? ==> forall k :: k in s.tasks ==>
      (r.value.tasks[k].updatedAt == s.tasks[k].updatedAt || r.value.tasks[k].updatedAt == now)
      && (r.value.tasks[k].order == s.tasks[k].order ==> r.value.tasks[k] == s.tasks[k])
  {
    match items
    case Absent => Err(MissingTaskOrders)
    case Null => Err(ServerError)
    case Val(list) =>
      if exists j :: 0 <= j < |list| && BadEntry(s.tasks, list[j]) then Err(ServerError)
      else
        var moved := ApplyOrders(s.tasks, list);
        assert forall k :: k in s.tasks ==>
          && ((forall j :: 0 <= j < |list| ==> list[j].id != Some(k)) ==> moved[k] == s.tasks[k])
          && (forall j :: 0 <= j < |list| && list[j].id == Some(k) && list[j].order.Some? && LastFor(list, j) ==>
                moved[k].order == list[j].order.value)
        by {
          forall k | k in s.tasks {
            ApplyOrdersLastWins(s.tasks, list, k);
          }
        }
        Ok(Store(TouchAll(s.tasks, moved, now), s.categories))
  }

  /** Every row compared with its state before, refreshing `updated_at` where a column changed. */
  function TouchAll(before: map<int, Task>, after: map<int, Task>, now: int): (r: map<int, Task>)
    requires after.Keys == before.Keys
    ensures r.Keys == before.Keys
    ensures forall k :: k in r ==> r[k] == Touch(before[k], after[k], now)
  {
    map k | k in after :: Touch(before[k], after[k], now)
  }

  // ----- batch update -----

  /**
   * A JSON value assigned to a date column by the bulk `UPDATE`: `null`
   * clears it; any other value fails, since SQLite's `DateTime` type accepts
   * only `datetime` objects as parameters.
   */
  datatype DateAssign = ClearDate | NotADate

  /**
   * The `updates` object of a batch update: raw column assignments handed to
   * a bulk `UPDATE`, with no trimming or validation. `unknownColumn` is a key
   * that names no column, which makes the statement fail.
   */
  datatype Patch = Patch(
    content: Option<string>,
    completed: Option<Option<bool>>,
    priority: Option<int>,
    categoryId: Option<Option<int>>,
    order: Option<int>,
    startDate: Option<DateAssign>,
    dueDate: Option<DateAssign>,
    unknownColumn: bool)
  {
    /** The statement raises before any row is written. */
    predicate Fails() {
      unknownColumn || startDate == Some(NotADate) || dueDate == Some(NotADate)
    }
  }

  const NoUpdates := Patch(None, None, None, None, None, None, None, false)

  /** A bulk `UPDATE` always refreshes `updated_at`, whether or not a value changed. */
  function Patched(t: Task, u: Patch, now: int): Task {
    t.(content := u.content.GetOr(t.content),
       completed := u.completed.GetOr(t.completed),
       priority := u.priority.GetOr(t.priority),
       categoryId := u.categoryId.GetOr(t.categoryId),
       order := u.order.GetOr(t.order),
       startDate := if u.startDate == Some(ClearDate) then None else t.startDate,
       dueDate := if u.dueDate == Some(ClearDate) then None else t.dueDate,
       updatedAt := now)
  }

  /**
   * Returns the new store and the count the response reports. A `null`
   * `task_ids` makes the `IN` clause raise.
   */
  function BatchUpdate(s: Store, ids: Field<seq<int>>, updates: Option<Patch>, now: int): (r: Result<(Store, nat), ApiError>)
    ensures ids.Absent? ==> r == Err(MissingTaskIds)
    ensures ids.Null? ==> r == Err(ServerError)
    ensures ids.Val? ==> (r.Err? <==> updates.GetOr(NoUpdates).Fails())
    ensures r.Ok? ==> r.value.1 == |ids.v|
    ensures r.Ok? ==> r.value.0.categories == s.categories && r.value.0.tasks.Keys == s.tasks.Keys
    ensures r.Ok? ==> forall k :: k in s.tasks && k !in ids.v ==> r.value.0.tasks[k] == s.tasks[k]
    ensures r.Ok? ==> forall k :: k in s.tasks && k in ids.v ==>
      var u, t, t' := updates.GetOr(NoUpdates), s.tasks[k], r.value.0.tasks[k];
      && t'.content == (if u.content.Some? then u.content.value else t.content)
      && t'.completed == (if u.completed.Some? then u.completed.value else t.completed)
      && t'.priority == (if u.priority.Some? then u.priority.value else t.priority)
      && t'.categoryId == (if u.categoryId.Some? then u.categoryId.value else t.categoryId)
      && t'.order == (if u.order.Some? then u.order.value else t.order)
      && t'.startDate == (if u.startDate == Some(ClearDate) then None else t.startDate)
      && t'.dueDate == (if u.dueDate == Some(ClearDate) then None else t.dueDate)
      && t'.id == t.id && t'.createdAt == t.createdAt
      && t'.updatedAt == now
  {
    match ids
    case Absent => Err(MissingTaskIds)
    case Null => Err(ServerError)
    case Val(list) =>
      var u := updates.GetOr(NoUpdates);
      if u.Fails() then Err(ServerError)
      else
        var tasks := map k | k in s.tasks :: if k in list then Patched(s.tasks[k], u, now) else s.tasks[k];
        Ok((Store(tasks, s.categories), |list|))
  }

  /**
   * The bulk path skips the checks of the single-task update: it stores a
   * blank content that `UpdateTask` rejects, and it reports every listed id,
   * including ids that name no task.
   */
  lemma BatchUpdateBypassesChecks(s: Store, id: int, missing: int, iso: string -> Option<int>, now: int)
    requires id in s.tasks && missing !in s.tasks
    ensures
      var r := BatchUpdate(s, Val([id, missing]), Some(NoUpdates.(content := Some(" "))), now);
      r.Ok? && r.value.0.tasks[id].content == " " && r.value.1 == 2
    ensures UpdateTask(s, id, TaskChanges(Val(" "), Absent, None, Absent, Absent, Absent, false), iso, now) == Err(EmptyContent)
  {
  }

  // ----- deleting tasks -----

  function DeleteTask(s: Store, id: int): (r: Result<Store, ApiError>)
    ensures id !in s.tasks <==> r == Err(MissingRow)
    ensures r.Ok? <==> id in s.tasks
    ensures r.Ok? ==> r.value.tasks.Keys == s.tasks.Keys - {id} && r.value.categories == s.categories
    ensures r.Ok? ==> forall k :: k in r.value.tasks ==> r.value.tasks[k] == s.tasks[k]
  {
    if id !in s.tasks then Err(MissingRow) else Ok(Store(s.tasks - {id}, s.categories))
  }

  /** Returns the new store and the number of rows the `DELETE` removed. */
  function BatchDelete(s: Store, ids: Field<seq<int>>): (r: Result<(Store, nat), ApiError>)
    ensures ids.Absent? <==> r == Err(MissingTaskIds)
    ensures ids.Null? <==> r == Err(ServerError)
    ensures r.Ok? <==> ids.Val?
    ensures r.Ok? ==> r.value.0.tasks.Keys == s.tasks.Keys - set x | x in ids.v
    ensures r.Ok? ==> r.value.0.categories == s.categories
    ensures r.Ok? ==> forall k :: k in r.value.0.tasks ==> r.value.0.tasks[k] == s.tasks[k]
    ensures r.Ok? ==> r.value.1 == |s.tasks| - |r.value.0.tasks|
    ensures r.Ok? ==> r.value.1 == |set k | k in s.tasks && k in ids.v|
  {
    match ids
    case Absent => Err(MissingTaskIds)
    case Null => Err(ServerError)
    case Val(list) =>
      var listed := set x | x in list;
      var gone := set k | k in s.tasks && k in list;
      var kept := s.tasks - listed;
      assert s.tasks.Keys == kept.Keys + gone && kept.Keys * gone == {};
      assert |s.tasks.Keys| == |kept.Keys| + |gone|;
      Ok((Store(kept, s.categories), |gone|))
  }

  /** Deleting one existing task is the batch delete of that id alone, which reports one row. */
  lemma DeleteTaskIsBatchOfOne(s: Store, id: int)
    requires id in s.tasks
    ensures BatchDelete(s, Val([id])) == Ok((DeleteTask(s, id).value, 1))
  {
    assert (set x | x in [id]) == {id};
    assert (set k | k in s.tasks && k in [id]) == {id};
  }

  lemma DeleteTaskPreservesValid(s: Store, id: int)
    requires Valid(s)
    requires DeleteTask(s, id).Ok?
    ensures Valid(DeleteTask(s, id).value)
  {
  }

  // ----- categories -----

  const DefaultColor := "#007bff"

  predicate NameTaken(s: Store, name: string) {
    exists k :: k in s.categories && s.categories[k].name == name
  }

  /**
   * `name` and `color` as `dict.get` sees the JSON body. A `null` colour
   * reaches the ORM as `None`, which leaves the column out of the `INSERT`,
   * so the column default is stored.
   */
  function CreateCategory(s: Store, name: Field<string>, color: Field<string>, now: int): (r: Result<(Store, Category), ApiError>)
    ensures name.Absent? <==> r == Err(MissingCategoryName)
    ensures name.Null? <==> r == Err(ServerError)
    ensures r == Err(DuplicateCategoryName) <==> name.Val? && NameTaken(s, name.v)
    ensures r.Ok? <==> name.Val? && !NameTaken(s, name.v)
    ensures r.Ok? ==>
      var (s', c) := r.value;
      && c.id !in s.categories
      && s'.categories == s.categories[c.id := c]
      && s'.tasks == s.tasks
      && c.name == name.v
      && c.color == Some(if color.Val? then color.v else DefaultColor)
      && c.createdAt == now
  {
    match name
    case Absent => Err(MissingCategoryName)
    case Null => Err(ServerError)
    case Val(n) =>
      if NameTaken(s, n) then Err(DuplicateCategoryName)
      else
        var id := Tables.NextRowId(s.categories.Keys);
        var c := Category(id, n, Some(if color.Val? then color.v else DefaultColor), now);
        Ok((Store(s.tasks, s.categories[id := c]), c))
  }

  /** Category names stay unique. */
  lemma CreateCategoryPreservesValid(s: Store, name: Field<string>, color: Field<string>, now: int)
    requires Valid(s)
    requires CreateCategory(s, name, color, now).Ok?
    ensures Valid(CreateCategory(s, name, color, now).value.0)
  {
    assert forall k :: k in s.categories ==> s.categories[k].name != name.v;
  }

  function DeleteCategory(s: Store, id: int, now: int): (r: Result<Store, ApiError>)
    ensures id !in s.categories <==> r == Err(MissingRow)
    ensures r.Ok? <==> id in s.categories
    ensures r.Ok? ==> r.value.categories == s.categories - {id} && r.value.tasks.Keys == s.tasks.Keys
    ensures r.Ok? ==> forall k :: k in r.value.tasks ==> r.value.tasks[k].categoryId != Some(id)
    ensures r.Ok? ==> forall k :: k in s.tasks && s.tasks[k].categoryId != Some(id) ==> r.value.tasks[k] == s.tasks[k]
    ensures r.Ok? ==> forall k :: k in s.tasks && s.tasks[k].categoryId == Some(id) ==>
      r.value.tasks[k] == s.tasks[k].(categoryId := None, updatedAt := now)
  {
    if id !in s.categories then Err(MissingRow)
    else
      var tasks := map k | k in s.tasks ::
        if s.tasks[k].categoryId == Some(id) then s.tasks[k].(categoryId := None, updatedAt := now) else s.tasks[k];
      Ok(Store(tasks, s.categories - {id}))
  }

  lemma DeleteCategoryPreservesValid(s: Store, id: int, now: int)
    requires Valid(s)
    requires DeleteCategory(s, id, now).Ok?
    ensures Valid(DeleteCategory(s, id, now).value)
  {
  }

  // ----- listing -----

  /** The query-string arguments of a listing request; `None` is a missing argument. */
  datatype TaskQuery = TaskQuery(search: Option<string>, categoryId: Option<string>, completed: Option<string>, priority: Option<string>)

  datatype CategoryFilter = AnyCategory | NoCategory | InCategory(id: int)

  /** The filters a listing request applies; an empty `search` applies none. */
  datatype TaskFilter = TaskFilter(search: string, category: CategoryFilter, completed: Option<bool>, priority: Option<int>)

  const NoFilter := TaskFilter([], AnyCategory, None, None)

  /** The listing's priority argument: a name, or else a number parsed by `int()`. */
  function PriorityFilter(arg: string): (r: Option<int>)
    ensures arg in {"low", "medium", "high"} ==> r == Some(EncodePriority(arg))
    ensures arg !in {"low", "medium", "high"} ==> r == ParseInt(arg)
  {
    if arg in {"low", "medium", "high"} then Some(EncodePriority(arg)) else ParseInt(arg)
  }

  /** Reads the query string; an argument `int()` cannot parse is a server error. */
  function ParseQuery(q: TaskQuery): (r: Result<TaskFilter, ApiError>)
    ensures r.Err? ==> r.error == ServerError
    ensures r.Err? <==>
      || (q.categoryId.Some? && q.categoryId.value !in {"", "none"} && ParseInt(q.categoryId.value).None?)
      || (q.priority.Some? && q.priority.value != "" && PriorityFilter(q.priority.value).None?)
    ensures r.Ok? ==> r.value.search == Strip(q.search.GetOr(""))
    ensures r.Ok? ==> (r.value.category == AnyCategory <==> q.categoryId.None? || q.categoryId.value == "")
    ensures r.Ok? ==> (r.value.category == NoCategory <==> q.categoryId == Some("none"))
    ensures r.Ok? && r.value.category.InCategory? ==> ParseInt(q.categoryId.value) == Some(r.value.category.id)
    ensures r.Ok? ==> r.value.completed.Some? == q.completed.Some?
    ensures r.Ok? && q.completed.Some? ==> r.value.completed.value == (Lower(q.completed.value) == "true")
    ensures r.Ok? ==> (r.value.priority.None? <==> q.priority.None? || q.priority.value == "")
    ensures r.Ok? && r.value.priority.Some? ==> PriorityFilter(q.priority.value) == r.value.priority
  {
    var category :-
      match q.categoryId
      case None => Ok(AnyCategory)
      case Some(arg) =>
        if arg == "" then Ok(AnyCategory)
        else if arg == "none" then Ok(NoCategory)
        else (match ParseInt(arg)
              case Some(n) => Ok(InCategory(n))
              case None => Err(ServerError));
    var priority :-
      match q.priority
      case None => Ok(None)
      case Some(arg) =>
        if arg == "" then Ok(None)
        else (match PriorityFilter(arg)
              case Some(n) => Ok(Some(n))
              case None => Err(ServerError));
    var completed := match q.completed
      case None => None
      case Some(arg) => Some(Lower(arg) == "true");
    Ok(TaskFilter(Strip(q.search.GetOr("")), category, completed, priority))
  }

  /**
   * A task passes the filters. The search is SQL `LIKE '%term%'`, which
   * ignores ASCII case and treats `%` and `_` in the term as wildcards.
   */
  predicate Matches(t: Task, f: TaskFilter) {
    && (f.search == [] || Like(t.content, "%" + f.search + "%"))
    && (match f.category
        case AnyCategory => true
        case NoCategory => t.categoryId.None?
        case InCategory(n) => t.categoryId == Some(n))
    && (f.completed.None? || t.completed == Some(f.completed.value))
    && (f.priority.None? || t.priority == f.priority.value)
  }

  /** For a term without wildcards the search is a case-insensitive substring test. */
  lemma SearchIsSubstring(t: Task, term: string)
    requires term != [] && NoWildcards(term)
    ensures Matches(t, NoFilter.(search := term)) <==> exists i :: CiOccursAt(term, t.content, i)
  {
    LikeContainsIff(t.content, term);
  }

  /**
   * A task whose `completed` was set to JSON `null` holds SQL `NULL`, which
   * neither `completed = 1` nor `completed = 0` selects, and which the
   * statistics do not count as completed.
   */
  lemma NullCompletedFilteredOut(s: Store, id: int, c: TaskChanges, iso: string -> Option<int>, now: int, f: TaskFilter)
    requires c.completed.Null? && UpdateTask(s, id, c, iso, now).Ok?
    requires f.completed.Some?
    ensures var t := UpdateTask(s, id, c, iso, now).value.1;
      t.completed.None? && !Matches(t, f) && id !in CompletedIds(UpdateTask(s, id, c, iso, now).value.0.tasks)
  {
  }

  /** `ORDER BY order ASC, created_at DESC`. */
  predicate TaskBefore(a: Task, b: Task) {
    a.order < b.order || (a.order == b.order && a.createdAt >= b.createdAt)
  }

  lemma TaskBeforeIsPreorder()
    ensures Seqs.TotalPreorder(TaskBefore)
  {
  }

  const Placeholder := Task(0, [], Some(false), 0, None, None, None, 0, 0, 0)

  /** The sort key of a row id: its task, or a placeholder for an id not in the table. */
  function KeyBefore(tasks: map<int, Task>): (int, int) -> bool {
    (a, b) => TaskBefore(if a in tasks then tasks[a] else Placeholder, if b in tasks then tasks[b] else Placeholder)
  }

  lemma KeyBeforeIsPreorder(tasks: map<int, Task>)
    ensures Seqs.TotalPreorder(KeyBefore(tasks))
  {
    TaskBeforeIsPreorder();
  }

  /** `ids` names tasks of `tasks` in `TaskBefore` order. */
  predicate ListedInOrder(tasks: map<int, Task>, ids: seq<int>) {
    forall i, j :: 0 <= i < j < |ids| ==> ids[i] in tasks && ids[j] in tasks && TaskBefore(tasks[ids[i]], tasks[ids[j]])
  }

  /** The ids of the tasks satisfying `p`, each once, sorted by `TaskBefore`. */
  function SelectIds(tasks: map<int, Task>, p: Task -> bool): (r: seq<int>)
    ensures forall i :: 0 <= i < |r| ==> r[i] in tasks
    ensures forall k :: k in r <==> k in tasks && p(tasks[k])
    ensures Seqs.Distinct(r)
    ensures |set k | k in r| == |r|
    ensures ListedInOrder(tasks, r)
  {
    var keys := Tables.SortedKeys(tasks.Keys);
    var q := k => k in tasks && p(tasks[k]);
    KeyBeforeIsPreorder(tasks);
    assert Seqs.Distinct(keys);
    Seqs.SortFilterFacts(keys, q, KeyBefore(tasks));
    var r := Seqs.SortedFilter(keys, q, KeyBefore(tasks));
    assert forall i :: 0 <= i < |r| ==> r[i] in tasks by {
      forall i | 0 <= i < |r| ensures r[i] in tasks {
        assert r[i] in r;
      }
    }
    assert ListedInOrder(tasks, r) by {
      forall i, j | 0 <= i < j < |r| ensures r[i] in tasks && r[j] in tasks && TaskBefore(tasks[r[i]], tasks[r[j]]) {
        assert r[i] in r && r[j] in r;
        assert KeyBefore(tasks)(r[i], r[j]);
      }
    }
    r
  }

  /** The ids of the listed tasks, in listing order. */
  function QueryIds(s: Store, f: TaskFilter): (r: seq<int>)
    ensures forall i :: 0 <= i < |r| ==> r[i] in s.tasks
    ensures forall k :: k in r <==> k in s.tasks && Matches(s.tasks[k], f)
    ensures Seqs.Distinct(r)
    ensures |set k | k in r| == |r|
    ensures ListedInOrder(s.tasks, r)
  {
    SelectIds(s.tasks, t => Matches(t, f))
  }

  /** The JSON form of a task; a dangling category id shows no category. */
  datatype TaskView = TaskView(
    id: int,
    content: string,
    completed: Option<bool>,
    priority: string,
    startDate: Option<int>,
    dueDate: Option<int>,
    categoryId: Option<int>,
    category: Option<Category>,
    order: int,
    createdAt: int,
    updatedAt: int)

  function ToDict(s: Store, t: Task): (v: TaskView)
    ensures v.priority == DecodePriority(t.priority)
    ensures v.category.Some? <==> t.categoryId.Some? && t.categoryId.value in s.categories
    ensures v.category.Some? ==> v.category.value == s.categories[t.categoryId.value]
    ensures v.id == t.id && v.content == t.content && v.completed == t.completed && v.order == t.order
    ensures v.categoryId == t.categoryId && v.startDate == t.startDate && v.dueDate == t.dueDate
  {
    var cat := if t.categoryId.Some? && t.categoryId.value in s.categories then Some(s.categories[t.categoryId.value]) else None;
    TaskView(t.id, t.content, t.completed, DecodePriority(t.priority), t.startDate, t.dueDate,
             t.categoryId, cat, t.order, t.createdAt, t.updatedAt)
  }

  function Views(s: Store, ids: seq<int>): (r: seq<TaskView>)
    requires forall i :: 0 <= i < |ids| ==> ids[i] in s.tasks
    ensures |r| == |ids|
    ensures forall i :: 0 <= i < |ids| ==> r[i] == ToDict(s, s.tasks[ids[i]])
  {
    seq(|ids|, i requires 0 <= i < |ids| => ToDict(s, s.tasks[ids[i]]))
  }

  function GetTasks(s: Store, q: TaskQuery): (r: Result<seq<TaskView>, ApiError>)
    ensures r.Err? <==> ParseQuery(q).Err?
    ensures r.Ok? ==>
      var ids := QueryIds(s, ParseQuery(q).value);
      |r.value| == |ids| && forall i :: 0 <= i < |ids| ==> r.value[i] == ToDict(s, s.tasks[ids[i]])
  {
    match ParseQuery(q)
    case Err(e) => Err(e)
    case Ok(f) => Ok(Views(s, QueryIds(s, f)))
  }

  /** A task whose order exceeds every other task's comes last in any listing that contains it. */
  lemma LargestOrderListedLast(tasks: map<int, Task>, ids: seq<int>, id: int)
    requires ListedInOrder(tasks, ids)
    requires forall i :: 0 <= i < |ids| ==> ids[i] in tasks
    requires id in ids && id in tasks
    requires forall k :: k in tasks && k != id ==> tasks[k].order < tasks[id].order
    ensures |ids| > 0 && ids[|ids| - 1] == id
  {
    var i :| 0 <= i < |ids| && ids[i] == id;
    var last := ids[|ids| - 1];
    assert tasks[last].order >= tasks[id].order by {
      assert i <= |ids| - 1;
    }
  }

  /** A task added with an order above every existing one is listed last when no filter applies. */
  lemma AddedLargestListedLast(s: Store, t: Task)
    requires t.id !in s.tasks
    requires forall k :: k in s.tasks ==> s.tasks[k].order < t.order
    ensures var ids := QueryIds(Store(s.tasks[t.id := t], s.categories), NoFilter);
      |ids| > 0 && ids[|ids| - 1] == t.id
  {
    var s' := Store(s.tasks[t.id := t], s.categories);
    assert forall k :: k in s'.tasks && k != t.id ==> s'.tasks[k].order < s'.tasks[t.id].order by {
      forall k | k in s'.tasks && k != t.id ensures s'.tasks[k].order < s'.tasks[t.id].order {
        assert s'.tasks[k] == s.tasks[k];
      }
    }
    assert Matches(t, NoFilter);
    var ids := QueryIds(s', NoFilter);
    assert t.id in ids;
    LargestOrderListedLast(s'.tasks, ids, t.id);
  }

  /** A newly created task has the largest order, so it is listed last when no filter applies. */
  lemma CreatedTaskListedLast(s: Store, p: NewTask, iso: string -> Option<int>, now: int)
    requires CreateTask(s, p, iso, now).Ok?
    ensures
      var (s', t) := CreateTask(s, p, iso, now).value;
      var ids := QueryIds(s', NoFilter);
      |ids| > 0 && ids[|ids| - 1] == t.id
  {
    var (s', t) := CreateTask(s, p, iso, now).value;
    AddedLargestListedLast(s, t);
  }

  /** A filter that no task passes lists nothing. */
  lemma NoMatchListsNothing(s: Store, f: TaskFilter)
    requires forall k :: k in s.tasks ==> !Matches(s.tasks[k], f)
    ensures QueryIds(s, f) == []
  {
    var ids := QueryIds(s, f);
    assert (set k | k in ids) == {};
  }

  /** Once a category is deleted, listing that category shows nothing. */
  lemma DeletedCategoryListsNothing(s: Store, id: int, now: int)
    requires DeleteCategory(s, id, now).Ok?
    ensures QueryIds(DeleteCategory(s, id, now).value, NoFilter.(category := InCategory(id))) == []
  {
    NoMatchListsNothing(DeleteCategory(s, id, now).value, NoFilter.(category := InCategory(id)));
  }

  /** A batch delete leaves none of the listed ids in the listing. */
  lemma BatchDeleteUnlists(s: Store, ids: seq<int>, f: TaskFilter)
    ensures forall k :: k in ids ==> k !in QueryIds(BatchDelete(s, Val(ids)).value.0, f)
  {
  }

  // ----- statistics -----

  lemma MulLe(a: int, b: int, t: nat)
    requires a <= b
    ensures a * t <= b * t
  {
    assert b * t - a * t == (b - a) * t;
  }

  /**
   * `round(c / t * 100, 1)` in tenths of a percent, computed exactly with
   * ties to even (the float arithmetic is not modelled).
   */
  function RateTenths(c: nat, t: nat): int
    requires t > 0
  {
    var q := 1000 * c / t;
    var rem := 1000 * c % t;
    if 2 * rem < t then q
    else if 2 * rem > t then q + 1
    else if q % 2 == 0 then q
    else q + 1
  }

  /** The rate is within half a tenth of the exact value, and an exact half goes to the even neighbour. */
  lemma RateTenthsNearest(c: nat, t: nat)
    requires t > 0
    ensures var r := RateTenths(c, t);
      && 2 * (r * t - 1000 * c) <= t && 2 * (1000 * c - r * t) <= t
      && (2 * (r * t - 1000 * c) == t ==> r % 2 == 0)
      && (2 * (1000 * c - r * t) == t ==> r % 2 == 0)
  {
    var q := 1000 * c / t;
    var rem := 1000 * c % t;
    assert 1000 * c == q * t + rem;
    assert (q + 1) * t == q * t + t;
  }

  lemma RateTenthsBounds(c: nat, t: nat)
    requires 0 < t && c <= t
    ensures 0 <= RateTenths(c, t) <= 1000
    ensures c == t ==> RateTenths(c, t) == 1000
    ensures c == 0 ==> RateTenths(c, t) == 0
  {
    RateTenthsNearest(c, t);
    var r := RateTenths(c, t);
    if r < 0 {
      MulLe(r, -1, t);
    } else if r > 1000 {
      MulLe(1001, r, t);
    }
    if c == t {
      if r < 1000 { MulLe(r, 999, t); } else if r > 1000 { MulLe(1001, r, t); }
    }
    if c == 0 {
      if r < 0 { MulLe(r, -1, t); } else if r > 0 { MulLe(1, r, t); }
    }
  }

  /** The pseudo-category the statistics list for tasks without a category. */
  const UncategorisedName := "无分类"
  const UncategorisedColor := "#6c757d"

  datatype StatCategory = Known(category: Category) | Uncategorised

  datatype CategoryCount = CategoryCount(category: StatCategory, count: nat)

  function CompletedIds(tasks: map<int, Task>): set<int> {
    set k | k in tasks && tasks[k].completed == Some(true)
  }

  function PriorityIds(tasks: map<int, Task>, p: int): set<int> {
    set k | k in tasks && tasks[k].priority == p
  }

  function CategoryIds(tasks: map<int, Task>, c: Option<int>): set<int> {
    set k | k in tasks && tasks[k].categoryId == c
  }

  datatype Stats = Stats(
    total: nat,
    completed: nat,
    pending: int,
    rateTenths: int,
    byPriority: seq<nat>,
    byCategory: seq<CategoryCount>)

  /** Task counts for priorities 1, 2 and 3. */
  function PriorityCounts(tasks: map<int, Task>): (r: seq<nat>)
    ensures |r| == 3
    ensures forall i :: 0 <= i < 3 ==> r[i] == |PriorityIds(tasks, i + 1)|
  {
    [|PriorityIds(tasks, 1)|, |PriorityIds(tasks, 2)|, |PriorityIds(tasks, 3)|]
  }

  /** The task count of each listed category, in list order. */
  function KnownCounts(tasks: map<int, Task>, cats: seq<Category>): (r: seq<CategoryCount>)
    ensures |r| == |cats|
    ensures forall i :: 0 <= i < |cats| ==> r[i] == CategoryCount(Known(cats[i]), |CategoryIds(tasks, Some(cats[i].id))|)
  {
    seq(|cats|, i requires 0 <= i < |cats| => CategoryCount(Known(cats[i]), |CategoryIds(tasks, Some(cats[i].id))|))
  }

  /** One entry per category in table order, then the uncategorised entry when it is non-zero. */
  function CategoryCounts(s: Store): (r: seq<CategoryCount>)
    ensures var cats := Tables.Rows(s.categories);
      var none := |CategoryIds(s.tasks, None)|;
      && |r| == |cats| + (if none > 0 then 1 else 0)
      && (forall i :: 0 <= i < |cats| ==>
            r[i] == CategoryCount(Known(cats[i]), |CategoryIds(s.tasks, Some(cats[i].id))|))
      && (none > 0 ==> r[|cats|] == CategoryCount(Uncategorised, none))
  {
    var cats := Tables.Rows(s.categories);
    var known := KnownCounts(s.tasks, cats);
    var none := |CategoryIds(s.tasks, None)|;
    known + (if none > 0 then [CategoryCount(Uncategorised, none)] else [])
  }

  function GetStats(s: Store): (st: Stats)
    ensures st.total == |s.tasks|
    ensures st.completed == |CompletedIds(s.tasks)|
    ensures 0 <= st.pending == st.total - st.completed
    ensures st.rateTenths == if st.total == 0 then 0 else RateTenths(st.completed, st.total)
    ensures 0 <= st.rateTenths <= 1000
    ensures st.byPriority == PriorityCounts(s.tasks)
    ensures st.byCategory == CategoryCounts(s)
  {
    var total := |s.tasks|;
    Tables.SubsetCard(CompletedIds(s.tasks), s.tasks.Keys);
    var done := |CompletedIds(s.tasks)|;
    var rate := if total > 0 then (RateTenthsBounds(done, total); RateTenths(done, total)) else 0;
    Stats(total, done, total - done, rate, PriorityCounts(s.tasks), CategoryCounts(s))
  }
}
