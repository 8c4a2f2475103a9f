/**
 * The accounting rules of the business database: customers and their
 * points, inventory stock, bag categories with levels, and orders whose
 * total follows the items added to them. Every table is a map from row id
 * to row; ids come from SQLite AUTOINCREMENT counters. Money is integer
 * cents, and `now` stands for CURRENT_TIMESTAMP.
 */
module Ledger {
  import opened Wrappers
  import Tables
  import Seqs

  datatype Customer = Customer(id: int, nickname: string, phoneSuffix: string, points: int, notes: string, updatedAt: int)

  datatype StockItem = StockItem(id: int, productName: string, priceCents: int, quantity: int, updatedAt: int)

  datatype BagCategory = BagCategory(id: int, name: string, parentId: Option<int>, level: int, createdAt: int)

  datatype Order = Order(
    id: int,
    customerId: int,
    totalCents: int,
    status: string,
    notes: string,
    createdAt: int,
    updatedAt: int)

  datatype OrderItem = OrderItem(
    id: int,
    orderId: int,
    itemType: Option<string>,
    inventoryId: Option<int>,
    bagTypeId: Option<int>,
    outerFabricId: Option<int>,
    innerFabricId: Option<int>,
    quantity: int,
    unitPriceCents: int,
    notes: string)

  /** The `sqlite_sequence` counters: the largest id each AUTOINCREMENT table has handed out. */
  datatype Counters = Counters(bagCategories: int, orders: int, orderItems: int)

  datatype Db = Db(
    customers: map<int, Customer>,
    inventory: map<int, StockItem>,
    bagCategories: map<int, BagCategory>,
    orders: map<int, Order>,
    orderItems: map<int, OrderItem>,
    counters: Counters)

  const ReadyStock := "现货"
  const Custom := "定制"
  const Pending := "pending"
  const Completed := "completed"

  /** `CHECK(item_type IN ('现货', '定制'))`; SQL lets a NULL through such a check. */
  predicate ItemTypeAllowed(t: Option<string>) {
    t.None? || t.value == ReadyStock || t.value == Custom
  }

  datatype DbError = CheckViolation

  // ---------------------------------------------------------------- customers

  /** Adds a possibly negative delta to one customer's points; an unknown id changes nothing. */
  function UpdateCustomerPoints(db: Db, customerId: int, delta: int, now: int): (r: Db)
    ensures r.customers.Keys == db.customers.Keys
    ensures customerId in db.customers ==>
      r.customers[customerId] == db.customers[customerId].(points := db.customers[customerId].points + delta, updatedAt := now)
    ensures forall k :: k in db.customers && k != customerId ==> r.customers[k] == db.customers[k]
    ensures r.(customers := db.customers) == db
  {
    if customerId in db.customers then
      var c := db.customers[customerId];
      db.(customers := db.customers[customerId := c.(points := c.points + delta, updatedAt := now)])
    else db
  }

  /** Removes one customer row; orders that name the customer stay (foreign keys are not enforced). */
  function DeleteCustomer(db: Db, customerId: int): (r: Db)
    ensures r.customers.Keys == db.customers.Keys - {customerId}
    ensures forall k :: k in r.customers ==> r.customers[k] == db.customers[k]
    ensures r.(customers := db.customers) == db
  {
    db.(customers := db.customers - {customerId})
  }

  // ---------------------------------------------------------- bag categories

  /** Python truthiness of an optional id: `None` and `0` are false. */
  predicate TruthyId(x: Option<int>) {
    x.Some? && x.value != 0
  }

  /** The level a new category gets: one below a parent that exists, otherwise top level. */
  function NewLevel(db: Db, parentId: Option<int>): int {
    if TruthyId(parentId) && parentId.value in db.bagCategories then db.bagCategories[parentId.value].level + 1
    else 1
  }

  /** Inserts a category under `parentId` (stored as given, even when no such row exists) and returns its id. */
  function AddBagCategory(db: Db, name: string, parentId: Option<int>, now: int): (r: (Db, int))
    ensures var (db', id) := r;
      && id !in db.bagCategories
      && id > db.counters.bagCategories
      && (forall k :: k in db.bagCategories ==> k < id)
      && db'.bagCategories.Keys == db.bagCategories.Keys + {id}
      && (forall k :: k in db.bagCategories ==> db'.bagCategories[k] == db.bagCategories[k])
      && db'.bagCategories[id].name == name
      && db'.bagCategories[id].parentId == parentId
      && db'.bagCategories[id].createdAt == now
      && (TruthyId(parentId) && parentId.value in db.bagCategories ==>
            db'.bagCategories[id].level == db.bagCategories[parentId.value].level + 1)
      && (!TruthyId(parentId) || parentId.value !in db.bagCategories ==> db'.bagCategories[id].level == 1)
      && db'.counters == db.counters.(bagCategories := id)
      && db'.(bagCategories := db.bagCategories, counters := db.counters) == db
  {
    var id := Tables.AutoIncrementId(db.bagCategories.Keys, db.counters.bagCategories);
    var row := BagCategory(id, name, parentId, NewLevel(db, parentId), now);
    (db.(bagCategories := db.bagCategories[id := row], counters := db.counters.(bagCategories := id)), id)
  }

  /** Every category's level is one more than its parent's, or 1 when it has no parent row. */
  ghost predicate LevelsConsistent(cats: map<int, BagCategory>) {
    forall k :: k in cats ==>
      cats[k].level == (if TruthyId(cats[k].parentId) && cats[k].parentId.value in cats
                        then cats[cats[k].parentId.value].level + 1 else 1)
  }

  /** Every non-null parent id names an existing category. */
  ghost predicate ParentsExist(cats: map<int, BagCategory>) {
    forall k :: k in cats && cats[k].parentId.Some? ==> cats[k].parentId.value in cats
  }

  /**
   * Adding a category under an existing parent (or none) keeps every level
   * one more than its parent's. A parent id that names no row would break
   * this once the counter reaches it: the row it names could be the new one.
   */
  lemma AddBagCategoryKeepsLevels(db: Db, name: string, parentId: Option<int>, now: int)
    requires LevelsConsistent(db.bagCategories)
    requires ParentsExist(db.bagCategories)
    requires parentId.Some? ==> parentId.value in db.bagCategories
    ensures LevelsConsistent(AddBagCategory(db, name, parentId, now).0.bagCategories)
    ensures ParentsExist(AddBagCategory(db, name, parentId, now).0.bagCategories)
  {
    var (db', id) := AddBagCategory(db, name, parentId, now);
    var cats, cats' := db.bagCategories, db'.bagCategories;
    forall k | k in cats'
      ensures cats'[k].level == (if TruthyId(cats'[k].parentId) && cats'[k].parentId.value in cats'
                                 then cats'[cats'[k].parentId.value].level + 1 else 1)
    {
      if k != id {
        assert cats'[k] == cats[k];
        if cats[k].parentId.Some? {
          assert cats[k].parentId.value in cats;
        }
      } else if parentId.Some? {
        assert parentId.value in cats;
      }
    }
  }

  /** Compares two row ids by the `created_at` of their rows. */
  function CreatedBefore(cats: map<int, BagCategory>): (int, int) -> bool {
    (a, b) => (if a in cats then cats[a].createdAt else 0) <= (if b in cats then cats[b].createdAt else 0)
  }

  lemma CreatedBeforeIsPreorder(cats: map<int, BagCategory>)
    ensures Seqs.TotalPreorder(CreatedBefore(cats))
  {
  }

  /** `WHERE parent_id IS NULL` for `None`, `WHERE parent_id = ?` otherwise. */
  predicate UnderParent(c: BagCategory, parentId: Option<int>) {
    c.parentId == parentId
  }

  /** `ids` names rows of `cats` in non-decreasing `created_at` order. */
  predicate ListedByCreation(cats: map<int, BagCategory>, ids: seq<int>) {
    forall i, j :: 0 <= i < j < |ids| ==> ids[i] in cats && ids[j] in cats && cats[ids[i]].createdAt <= cats[ids[j]].createdAt
  }

  /** The ids of the categories directly under `parentId`, ordered by creation time. */
  function BagCategoryIds(db: Db, parentId: Option<int>): (r: seq<int>)
    ensures forall i :: 0 <= i < |r| ==> r[i] in db.bagCategories && UnderParent(db.bagCategories[r[i]], parentId)
    ensures forall k :: k in r <==> k in db.bagCategories && UnderParent(db.bagCategories[k], parentId)
    ensures Seqs.Distinct(r)
    ensures ListedByCreation(db.bagCategories, r)
  {
    var cats := db.bagCategories;
    var keys := Tables.SortedKeys(cats.Keys);
    var q := k => k in cats && UnderParent(cats[k], parentId);
    CreatedBeforeIsPreorder(cats);
    assert Seqs.Distinct(keys);
    Seqs.SortFilterFacts(keys, q, CreatedBefore(cats));
    var r := Seqs.SortedFilter(keys, q, CreatedBefore(cats));
    assert ListedByCreation(cats, r) by {
      forall i, j | 0 <= i < j < |r| ensures r[i] in cats && r[j] in cats && cats[r[i]].createdAt <= cats[r[j]].createdAt {
        assert r[i] in r && r[j] in r;
        assert CreatedBefore(cats)(r[i], r[j]);
      }
    }
    r
  }

  /** The rows named by ids under one parent, listed by creation, are under that parent and in creation order. */
  lemma RowsOfListedIds(cats: map<int, BagCategory>, parentId: Option<int>, ids: seq<int>, r: seq<BagCategory>)
    requires ListedByCreation(cats, ids)
    requires |r| == |ids| && forall i :: 0 <= i < |ids| ==> ids[i] in cats && r[i] == cats[ids[i]] && UnderParent(r[i], parentId)
    ensures forall i :: 0 <= i < |r| ==> r[i] in cats.Values && UnderParent(r[i], parentId)
    ensures forall i, j :: 0 <= i < j < |r| ==> r[i].createdAt <= r[j].createdAt
  {
    forall i | 0 <= i < |r| ensures r[i] in cats.Values {
      assert cats[ids[i]] in cats.Values;
    }
  }

  /** The rows `get_bag_categories(parent_id)` returns, in creation order. */
  function GetBagCategories(db: Db, parentId: Option<int>): (r: seq<BagCategory>)
    ensures forall i :: 0 <= i < |r| ==> r[i] in db.bagCategories.Values && UnderParent(r[i], parentId)
    ensures forall i, j :: 0 <= i < j < |r| ==> r[i].createdAt <= r[j].createdAt
  {
    var ids := BagCategoryIds(db, parentId);
    var r := Tables.RowsAt(db.bagCategories, ids);
    RowsOfListedIds(db.bagCategories, parentId, ids, r);
    r
  }

  /** Every category under the parent is returned, each row once. */
  lemma GetBagCategoriesComplete(db: Db, parentId: Option<int>, k: int)
    requires k in db.bagCategories && UnderParent(db.bagCategories[k], parentId)
    ensures db.bagCategories[k] in GetBagCategories(db, parentId)
  {
    var ids := BagCategoryIds(db, parentId);
    assert k in ids;
    var i :| 0 <= i < |ids| && ids[i] == k;
    assert GetBagCategories(db, parentId)[i] == db.bagCategories[k];
  }

  /** Without a parent only top-level rows come back; with one, exactly that parent's direct children. */
  lemma GetBagCategoriesTopLevel(db: Db)
    ensures forall c :: c in GetBagCategories(db, None) ==> c.parentId.None?
    ensures forall k :: k in db.bagCategories && db.bagCategories[k].parentId.None? ==>
      db.bagCategories[k] in GetBagCategories(db, None)
  {
    forall k | k in db.bagCategories && db.bagCategories[k].parentId.None?
      ensures db.bagCategories[k] in GetBagCategories(db, None)
    {
      GetBagCategoriesComplete(db, None, k);
    }
  }

  // ------------------------------------------------------------------ orders

  /** Inserts a pending order with a zero total and returns its id; the customer id is not checked. */
  function CreateOrder(db: Db, customerId: int, notes: string, now: int): (r: (Db, int))
    ensures var (db', id) := r;
      && id !in db.orders
      && id > db.counters.orders
      && (forall k :: k in db.orders ==> k < id)
      && db'.orders == db.orders[id := Order(id, customerId, 0, Pending, notes, now, now)]
      && db'.counters == db.counters.(orders := id)
      && db'.(orders := db.orders, counters := db.counters) == db
  {
    var id := Tables.AutoIncrementId(db.orders.Keys, db.counters.orders);
    (db.(orders := db.orders[id := Order(id, customerId, 0, Pending, notes, now, now)],
         counters := db.counters.(orders := id)), id)
  }

  /** The line total `unit_price * quantity`. */
  function Subtotal(it: OrderItem): int {
    it.unitPriceCents * it.quantity
  }

  /** Whether adding the item takes stock: a ready-stock item with a truthy inventory id. */
  predicate TakesStock(itemType: Option<string>, inventoryId: Option<int>) {
    itemType == Some(ReadyStock) && TruthyId(inventoryId)
  }

  /** The item columns `add_order_item` receives, keyword arguments included. */
  datatype NewItem = NewItem(
    itemType: Option<string>,
    quantity: int,
    unitPriceCents: int,
    notes: string,
    inventoryId: Option<int>,
    bagTypeId: Option<int>,
    outerFabricId: Option<int>,
    innerFabricId: Option<int>)

  function TakeStock(inv: map<int, StockItem>, x: NewItem, now: int): (r: map<int, StockItem>)
    ensures r.Keys == inv.Keys
    ensures forall k :: k in inv && !(TakesStock(x.itemType, x.inventoryId) && k == x.inventoryId.value) ==> r[k] == inv[k]
    ensures TakesStock(x.itemType, x.inventoryId) && x.inventoryId.value in inv ==>
      r[x.inventoryId.value] == inv[x.inventoryId.value].(quantity := inv[x.inventoryId.value].quantity - x.quantity, updatedAt := now)
  {
    if TakesStock(x.itemType, x.inventoryId) && x.inventoryId.value in inv then
      var s := inv[x.inventoryId.value];
      inv[x.inventoryId.value := s.(quantity := s.quantity - x.quantity, updatedAt := now)]
    else inv
  }

  function AddToTotal(orders: map<int, Order>, orderId: int, amount: int, now: int): (r: map<int, Order>)
    ensures r.Keys == orders.Keys
    ensures forall k :: k in orders && k != orderId ==> r[k] == orders[k]
    ensures orderId in orders ==>
      r[orderId] == orders[orderId].(totalCents := orders[orderId].totalCents + amount, updatedAt := now)
  {
    if orderId in orders then
      var o := orders[orderId];
      orders[orderId := o.(totalCents := o.totalCents + amount, updatedAt := now)]
    else orders
  }

  /**
   * Inserts an order item, takes ready stock out of inventory (with no lower
   * bound) and adds the line total to the order. An item type outside the
   * CHECK constraint aborts the insert and nothing is written.
   */
  function AddOrderItem(db: Db, orderId: int, x: NewItem, now: int): (r: Result<(Db, int), DbError>)
    ensures r.Err? <==> !ItemTypeAllowed(x.itemType)
    ensures r.Ok? ==>
      var (db', id) := r.value;
      && id !in db.orderItems
      && (forall k :: k in db.orderItems ==> k < id)
      && db'.orderItems == db.orderItems[id := OrderItem(id, orderId, x.itemType, x.inventoryId, x.bagTypeId,
                                                        x.outerFabricId, x.innerFabricId, x.quantity, x.unitPriceCents, x.notes)]
      && db'.counters == db.counters.(orderItems := id)
      && db'.inventory == TakeStock(db.inventory, x, now)
      && db'.orders == AddToTotal(db.orders, orderId, x.unitPriceCents * x.quantity, now)
      && db'.customers == db.customers
      && db'.bagCategories == db.bagCategories
  {
    if !ItemTypeAllowed(x.itemType) then Err(CheckViolation)
    else
      var id := Tables.AutoIncrementId(db.orderItems.Keys, db.counters.orderItems);
      var item := OrderItem(id, orderId, x.itemType, x.inventoryId, x.bagTypeId,
                            x.outerFabricId, x.innerFabricId, x.quantity, x.unitPriceCents, x.notes);
      Ok((db.(orderItems := db.orderItems[id := item],
              counters := db.counters.(orderItems := id),
              inventory := TakeStock(db.inventory, x, now),
              orders := AddToTotal(db.orders, orderId, Subtotal(item), now)), id))
  }

  /** Custom items and ready-stock items without an inventory id leave every stock quantity alone. */
  lemma CustomItemKeepsStock(db: Db, orderId: int, x: NewItem, now: int)
    requires ItemTypeAllowed(x.itemType)
    requires !TakesStock(x.itemType, x.inventoryId)
    ensures AddOrderItem(db, orderId, x, now).value.0.inventory == db.inventory
  {
  }

  /** Nothing stops the stock from going negative: one unit ordered from an empty shelf leaves -1. */
  lemma StockCanGoNegative()
    ensures var db := Db(map[], map[1 := StockItem(1, "tote", 100, 0, 0)], map[], map[], map[], Counters(0, 0, 0));
      var x := NewItem(Some(ReadyStock), 1, 100, "", Some(1), None, None, None);
      AddOrderItem(db, 7, x, 5).value.0.inventory[1].quantity == -1
  {
  }

  /** The sum of the line totals of the items in `ks` that belong to order `orderId`. */
  function ItemsTotal(items: map<int, OrderItem>, ks: set<int>, orderId: int): int
    requires ks <= items.Keys
    decreases |ks|
  {
    if ks == {} then 0
    else
      var k := Tables.MinOf(ks);
      (if items[k].orderId == orderId then Subtotal(items[k]) else 0) + ItemsTotal(items, ks - {k}, orderId)
  }

  /** Adding a row whose id exceeds every id in `ks` adds its line total to its own order and nothing elsewhere. */
  lemma {:induction false} ItemsTotalAddLargest(items: map<int, OrderItem>, ks: set<int>, id: int, it: OrderItem, orderId: int)
    requires ks <= items.Keys
    requires forall k :: k in ks ==> k < id
    ensures ItemsTotal(items[id := it], ks + {id}, orderId)
         == ItemsTotal(items, ks, orderId) + (if it.orderId == orderId then Subtotal(it) else 0)
    decreases |ks|
  {
    var items' := items[id := it];
    if ks == {} {
      assert ks + {id} == {id};
      assert Tables.MinOf({id}) == id;
      assert {id} - {id} == {};
    } else {
      var m := Tables.MinOf(ks);
      assert Tables.MinOf(ks + {id}) == m by {
        var m' := Tables.MinOf(ks + {id});
        assert m' <= m && m <= m';
      }
      assert (ks + {id}) - {m} == (ks - {m}) + {id};
      ItemsTotalAddLargest(items, ks - {m}, id, it, orderId);
      assert items'[m] == items[m];
      ItemsTotalFrame(items, items', ks - {m}, orderId);
    }
  }

  /** The total over `ks` depends only on the rows in `ks`. */
  lemma {:induction false} ItemsTotalFrame(a: map<int, OrderItem>, b: map<int, OrderItem>, ks: set<int>, orderId: int)
    requires ks <= a.Keys && ks <= b.Keys
    requires forall k :: k in ks ==> a[k] == b[k]
    ensures ItemsTotal(a, ks, orderId) == ItemsTotal(b, ks, orderId)
    decreases |ks|
  {
    if ks != {} {
      ItemsTotalFrame(a, b, ks - {Tables.MinOf(ks)}, orderId);
    }
  }

  /**
   * The bookkeeping invariant: every item belongs to an existing order and
   * every order's total is the sum of its items' line totals.
   */
  ghost predicate TotalsConsistent(db: Db) {
    && (forall k :: k in db.orderItems ==> db.orderItems[k].orderId in db.orders)
    && (forall o :: o in db.orders ==> db.orders[o].totalCents == ItemsTotal(db.orderItems, db.orderItems.Keys, o))
  }

  lemma EmptyDbConsistent(customers: map<int, Customer>, inventory: map<int, StockItem>, cats: map<int, BagCategory>)
    ensures TotalsConsistent(Db(customers, inventory, cats, map[], map[], Counters(0, 0, 0)))
  {
  }

  /** A new order has no items, so its zero total is right. */
  lemma CreateOrderKeepsTotals(db: Db, customerId: int, notes: string, now: int)
    requires TotalsConsistent(db)
    ensures TotalsConsistent(CreateOrder(db, customerId, notes, now).0)
  {
    var (db', id) := CreateOrder(db, customerId, notes, now);
    assert id !in db.orders;
    ItemsTotalNone(db.orderItems, db.orderItems.Keys, id);
  }

  /**
   * Deleting a customer touches neither orders nor items, so the totals stay
   * right, and the customer's orders stay behind with a dangling customer id.
   */
  lemma DeleteCustomerKeepsTotals(db: Db, customerId: int)
    requires TotalsConsistent(db)
    ensures TotalsConsistent(DeleteCustomer(db, customerId))
    ensures forall o :: o in db.orders && db.orders[o].customerId == customerId ==>
      o in DeleteCustomer(db, customerId).orders && customerId !in DeleteCustomer(db, customerId).customers
  {
    var db' := DeleteCustomer(db, customerId);
    assert db'.orders == db.orders && db'.orderItems == db.orderItems;
  }

  /** An order no item belongs to has a zero item total. */
  lemma {:induction false} ItemsTotalNone(items: map<int, OrderItem>, ks: set<int>, orderId: int)
    requires ks <= items.Keys
    requires forall k :: k in ks ==> items[k].orderId != orderId
    ensures ItemsTotal(items, ks, orderId) == 0
    decreases |ks|
  {
    if ks != {} {
      ItemsTotalNone(items, ks - {Tables.MinOf(ks)}, orderId);
    }
  }

  /** Adding an item to an existing order keeps every total equal to the sum of its items. */
  lemma AddOrderItemKeepsTotals(db: Db, orderId: int, x: NewItem, now: int)
    requires TotalsConsistent(db)
    requires orderId in db.orders
    requires ItemTypeAllowed(x.itemType)
    ensures TotalsConsistent(AddOrderItem(db, orderId, x, now).value.0)
  {
    var (db', id) := AddOrderItem(db, orderId, x, now).value;
    var it := db'.orderItems[id];
    assert db'.orderItems.Keys == db.orderItems.Keys + {id};
    forall o | o in db'.orders
      ensures db'.orders[o].totalCents == ItemsTotal(db'.orderItems, db'.orderItems.Keys, o)
    {
      ItemsTotalAddLargest(db.orderItems, db.orderItems.Keys, id, it, o);
    }
  }

  /** An item added to an order id with no row is an orphan: the invariant no longer holds. */
  lemma AddOrderItemToMissingOrder(db: Db, orderId: int, x: NewItem, now: int)
    requires orderId !in db.orders
    requires ItemTypeAllowed(x.itemType)
    ensures !TotalsConsistent(AddOrderItem(db, orderId, x, now).value.0)
  {
    var (db', id) := AddOrderItem(db, orderId, x, now).value;
    assert db'.orderItems[id].orderId == orderId;
  }

  /** `int(total_amount)`: truncation toward zero of a cent amount to whole yuan. */
  function TruncYuan(cents: int): (r: int)
    ensures cents >= 0 ==> 0 <= r * 100 <= cents < (r + 1) * 100
    ensures cents < 0 ==> (r - 1) * 100 < cents <= r * 100 <= 0
  {
    if cents >= 0 then cents / 100 else -((-cents) / 100)
  }

  /**
   * Credits the order's customer with one point per whole yuan of the total
   * and marks the order completed; an unknown order id changes nothing.
   */
  function CompleteOrderPayment(db: Db, orderId: int, now: int): (r: Db)
    ensures orderId !in db.orders ==> r == db
    ensures orderId in db.orders ==>
      var o := db.orders[orderId];
      && r.orders == db.orders[orderId := o.(status := Completed, updatedAt := now)]
      && r.customers == UpdateCustomerPoints(db, o.customerId, TruncYuan(o.totalCents), now).customers
    ensures r.(customers := db.customers, orders := db.orders) == db
  {
    if orderId in db.orders then
      var o := db.orders[orderId];
      var db1 := UpdateCustomerPoints(db, o.customerId, TruncYuan(o.totalCents), now);
      db1.(orders := db1.orders[orderId := o.(status := Completed, updatedAt := now)])
    else db
  }

  /** Paying an order twice credits its points twice: the operation is not idempotent. */
  lemma CompleteOrderPaymentTwice(db: Db, orderId: int, now: int)
    requires orderId in db.orders
    requires db.orders[orderId].customerId in db.customers
    ensures var o := db.orders[orderId];
      var twice := CompleteOrderPayment(CompleteOrderPayment(db, orderId, now), orderId, now);
      twice.customers[o.customerId].points == db.customers[o.customerId].points + 2 * TruncYuan(o.totalCents)
  {
  }
}
