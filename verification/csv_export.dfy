/**
 * The row construction of `export_orders_to_csv` and
 * `export_orders_to_csv_optimized` (csv_export.py): every order becomes one
 * row per item, or a single row with empty item columns when it has none.
 * Rows are the list of dicts handed to pandas; the CSV text pandas writes
 * from them is not part of this model. `money` renders a cent amount with two
 * decimals (`f"{x:.2f}"`); an amount of `None` is the `TypeError` that
 * aborts the export.
 */
module CsvExport {
  import opened Wrappers
  import opened Seqs
  import opened OrderRecords
  import Display

  /** One cell of the table: text, a number, or `None`. */
  datatype Cell = Text(s: string) | Number(n: int) | NoValue

  /**
   * The fifteen columns of an exported row, in header order: 订单号, 客户姓名,
   * 订单状态, 订单总金额, 创建时间, 更新时间, 订单备注, then the item columns
   * 商品类型, 商品名称, 商品数量, 单价, 小计, 表布, 里布, 商品备注.
   */
  datatype Row = Row(
    orderId: int,
    customerName: Option<string>,
    status: Option<string>,
    totalAmount: string,
    createdAt: Option<string>,
    updatedAt: Option<string>,
    orderNotes: string,
    itemType: Cell,
    itemName: Cell,
    quantity: Cell,
    unitPrice: Cell,
    subtotal: Cell,
    outerFabric: Cell,
    innerFabric: Cell,
    itemNotes: Cell)

  const Yuan := "¥"

  /** A column read with `[]`: `None` stays `None`. */
  function OptionCell(v: Option<string>): (r: Cell)
    ensures r == NoValue <==> v.None?
  {
    if v.Some? then Text(v.value) else NoValue
  }

  /** A column read with `.get(key, '')`: only a missing key gives the empty text. */
  function FieldCell(f: Field<string>): (r: Cell)
    ensures f.Absent? ==> r == Text("")
    ensures f.Null? <==> r == NoValue
    ensures f.Val? ==> r == Text(f.v)
  {
    match f
    case Absent => Text("")
    case Null => NoValue
    case Val(s) => Text(s)
  }

  /**
   * The 商品名称 column, `item.get('inventory_name') or item.get('bag_type_name', '')`:
   * the inventory name when it is non-empty, otherwise the bag-type name as
   * read, with a missing key giving the empty text.
   */
  function ItemName(it: Item): (r: Cell)
    ensures Display.TruthyText(it.inventoryName) ==> r == Text(it.inventoryName.v)
    ensures !Display.TruthyText(it.inventoryName) && it.bagTypeName.Val? ==> r == Text(it.bagTypeName.v)
    ensures !Display.TruthyText(it.inventoryName) && it.bagTypeName.Absent? ==> r == Text("")
    ensures r == NoValue <==> !Display.TruthyText(it.inventoryName) && it.bagTypeName.Null?
  {
    if Display.TruthyText(it.inventoryName) then Text(it.inventoryName.v) else FieldCell(it.bagTypeName)
  }

  /** The item's price and quantity are set, so its price and subtotal can be formatted. */
  predicate Priced(it: Item) {
    it.quantity.Some? && it.unitPriceCents.Some?
  }

  /** The order's rows can be built: its total and every item's price and quantity are set. */
  predicate Exportable(o: Order, items: seq<Item>) {
    o.totalCents.Some? && forall j :: 0 <= j < |items| ==> Priced(items[j])
  }

  /** The order columns of `row` are those of `o`; a `None` note becomes the empty text. */
  predicate CarriesOrder(row: Row, o: Order, money: int -> string) {
    && row.orderId == o.id
    && row.customerName == o.customerName
    && row.status == o.status
    && o.totalCents.Some?
    && row.totalAmount == Yuan + money(o.totalCents.value)
    && row.createdAt == o.createdAt
    && row.updatedAt == o.updatedAt
    && row.orderNotes == o.notes.GetOr("")
  }

  /** The item columns of `row` describe `it`; the subtotal is price times quantity. */
  predicate DescribesItem(row: Row, it: Item, money: int -> string) {
    && Priced(it)
    && row.itemType == OptionCell(it.itemType)
    && row.itemName == ItemName(it)
    && row.quantity == Number(it.quantity.value)
    && row.unitPrice == Text(Yuan + money(it.unitPriceCents.value))
    && row.subtotal == Text(Yuan + money(it.unitPriceCents.value * it.quantity.value))
    && row.outerFabric == FieldCell(it.outerFabricName)
    && row.innerFabric == FieldCell(it.innerFabricName)
    && row.itemNotes == FieldCell(it.notes)
  }

  /** Every item column holds the empty text. */
  predicate ItemColumnsEmpty(row: Row) {
    && row.itemType == Text("") && row.itemName == Text("") && row.quantity == Text("")
    && row.unitPrice == Text("") && row.subtotal == Text("") && row.outerFabric == Text("")
    && row.innerFabric == Text("") && row.itemNotes == Text("")
  }

  /** An order contributes one row per item, and one row when it has none. */
  function RowsOf(n: nat): nat {
    if n == 0 then 1 else n
  }

  function OrderPart(o: Order, money: int -> string): Row
    requires o.totalCents.Some?
  {
    Row(o.id, o.customerName, o.status, Yuan + money(o.totalCents.value), o.createdAt, o.updatedAt,
        o.notes.GetOr(""), Text(""), Text(""), Text(""), Text(""), Text(""), Text(""), Text(""), Text(""))
  }

  function ItemRow(o: Order, it: Item, money: int -> string): Row
    requires o.totalCents.Some? && Priced(it)
  {
    OrderPart(o, money).(
      itemType := OptionCell(it.itemType),
      itemName := ItemName(it),
      quantity := Number(it.quantity.value),
      unitPrice := Text(Yuan + money(it.unitPriceCents.value)),
      subtotal := Text(Yuan + money(it.unitPriceCents.value * it.quantity.value)),
      outerFabric := FieldCell(it.outerFabricName),
      innerFabric := FieldCell(it.innerFabricName),
      itemNotes := FieldCell(it.notes))
  }

  /**
   * The rows of one order (csv_export.py lines 110-148). `None` is the
   * `TypeError` of formatting a missing total or price, or of multiplying a
   * missing quantity.
   */
  function OrderRows(o: Order, items: seq<Item>, money: int -> string): (r: Option<seq<Row>>)
    ensures r.Some? <==> Exportable(o, items)
    ensures r.Some? ==> |r.value| == RowsOf(|items|)
    ensures r.Some? ==> forall k :: 0 <= k < |r.value| ==> CarriesOrder(r.value[k], o, money)
    ensures r.Some? && |items| == 0 ==> ItemColumnsEmpty(r.value[0])
    ensures r.Some? ==> forall j :: 0 <= j < |items| ==> DescribesItem(r.value[j], items[j], money)
  {
    if !Exportable(o, items) then None
    else if |items| == 0 then Some([OrderPart(o, money)])
    else Some(seq(|items|, j requires 0 <= j < |items| => ItemRow(o, items[j], money)))
  }

  /** Both row lists, joined; a failure on either side fails the whole export. */
  function Concat(a: Option<seq<Row>>, b: Option<seq<Row>>): (r: Option<seq<Row>>)
    ensures r.Some? <==> a.Some? && b.Some?
    ensures r.Some? ==> r.value == a.value + b.value
  {
    if a.Some? && b.Some? then Some(a.value + b.value) else None
  }

  /** Every order of the list can be exported with the items the dictionary gives it. */
  predicate AllExportable(orders: seq<Order>, itemsOf: map<int, seq<Item>>) {
    forall i :: 0 <= i < |orders| ==> Exportable(orders[i], ItemsFor(itemsOf, orders[i].id))
  }

  /** `export_orders_to_csv(orders, order_items_dict)`: the rows of every order, in list order. */
  function ExportRows(orders: seq<Order>, itemsOf: map<int, seq<Item>>, money: int -> string): (r: Option<seq<Row>>)
    ensures r.Some? <==> AllExportable(orders, itemsOf)
    decreases |orders|
  {
    if |orders| == 0 then Some([])
    else
      var rest := ExportRows(orders[1..], itemsOf, money);
      assert AllExportable(orders, itemsOf) <==>
        Exportable(orders[0], ItemsFor(itemsOf, orders[0].id)) && AllExportable(orders[1..], itemsOf) by {
        assert forall i :: 1 <= i < |orders| ==> orders[i] == orders[1..][i - 1];
      }
      Concat(OrderRows(orders[0], ItemsFor(itemsOf, orders[0].id), money), rest)
  }

  /** The number of rows each order contributes. */
  function RowCounts(orders: seq<Order>, itemsOf: map<int, seq<Item>>): (r: seq<int>)
    ensures |r| == |orders|
    ensures forall i :: 0 <= i < |orders| ==> r[i] == RowsOf(|ItemsFor(itemsOf, orders[i].id)|)
  {
    seq(|orders|, i requires 0 <= i < |orders| => RowsOf(|ItemsFor(itemsOf, orders[i].id)|) as int)
  }

  /** The export has one row per item, plus one for every order without items. */
  lemma {:induction false} ExportRowCount(orders: seq<Order>, itemsOf: map<int, seq<Item>>, money: int -> string)
    requires AllExportable(orders, itemsOf)
    ensures |ExportRows(orders, itemsOf, money).value| == Sum(RowCounts(orders, itemsOf))
    decreases |orders|
  {
    if |orders| > 0 {
      assert AllExportable(orders[1..], itemsOf) by {
        assert forall i :: 0 <= i < |orders[1..]| ==> orders[1..][i] == orders[i + 1];
      }
      ExportRowCount(orders[1..], itemsOf, money);
      assert RowCounts(orders, itemsOf)[1..] == RowCounts(orders[1..], itemsOf);
    }
  }

  /** Exporting two lists one after the other gives the rows of both, in order. */
  lemma {:induction false} ExportAppend(a: seq<Order>, b: seq<Order>, itemsOf: map<int, seq<Item>>, money: int -> string)
    ensures ExportRows(a + b, itemsOf, money) == Concat(ExportRows(a, itemsOf, money), ExportRows(b, itemsOf, money))
    decreases |a|
  {
    if |a| == 0 {
      assert a + b == b;
      var tail := ExportRows(b, itemsOf, money);
      if tail.Some? {
        assert [] + tail.value == tail.value;
      }
    } else {
      assert (a + b)[1..] == a[1..] + b;
      assert (a + b)[0] == a[0];
      var head := OrderRows(a[0], ItemsFor(itemsOf, a[0].id), money);
      ExportAppend(a[1..], b, itemsOf, money);
      assert ExportRows(a + b, itemsOf, money) == Concat(head, ExportRows(a[1..] + b, itemsOf, money));
      assert ExportRows(a, itemsOf, money) == Concat(head, ExportRows(a[1..], itemsOf, money));
      ConcatAssoc(head, ExportRows(a[1..], itemsOf, money), ExportRows(b, itemsOf, money));
    }
  }

  lemma ConcatAssoc(a: Option<seq<Row>>, b: Option<seq<Row>>, c: Option<seq<Row>>)
    ensures Concat(Concat(a, b), c) == Concat(a, Concat(b, c))
  {
    if a.Some? && b.Some? && c.Some? {
      assert (a.value + b.value) + c.value == a.value + (b.value + c.value);
    }
  }

  /** A single order exports exactly its own rows. */
  lemma ExportSingle(o: Order, itemsOf: map<int, seq<Item>>, money: int -> string)
    ensures ExportRows([o], itemsOf, money) == OrderRows(o, ItemsFor(itemsOf, o.id), money)
  {
    assert [o][1..] == [];
    var own := OrderRows(o, ItemsFor(itemsOf, o.id), money);
    assert ExportRows([o], itemsOf, money) == Concat(own, Some([]));
    if own.Some? {
      assert own.value + [] == own.value;
    }
  }

  /**
   * The rows are grouped by order in list order: the export of a list is the
   * export of any prefix followed by the rows of the next order and the
   * export of the rest.
   */
  lemma ExportGrouped(orders: seq<Order>, k: nat, itemsOf: map<int, seq<Item>>, money: int -> string)
    requires k < |orders|
    ensures ExportRows(orders, itemsOf, money) ==
      Concat(ExportRows(orders[..k], itemsOf, money),
        Concat(OrderRows(orders[k], ItemsFor(itemsOf, orders[k].id), money), ExportRows(orders[k + 1..], itemsOf, money)))
  {
    assert orders == orders[..k] + ([orders[k]] + orders[k + 1..]);
    ExportAppend(orders[..k], [orders[k]] + orders[k + 1..], itemsOf, money);
    ExportAppend([orders[k]], orders[k + 1..], itemsOf, money);
    ExportSingle(orders[k], itemsOf, money);
  }

  /** Every exported row carries the id, customer and status of some order of the list. */
  lemma {:induction false} EveryRowFromAnOrder(orders: seq<Order>, itemsOf: map<int, seq<Item>>, money: int -> string)
    requires AllExportable(orders, itemsOf)
    ensures forall row :: row in ExportRows(orders, itemsOf, money).value ==>
      exists i :: 0 <= i < |orders| && CarriesOrder(row, orders[i], money)
    decreases |orders|
  {
    if |orders| > 0 {
      var head := OrderRows(orders[0], ItemsFor(itemsOf, orders[0].id), money).value;
      EveryRowFromAnOrder(orders[1..], itemsOf, money);
      forall row | row in ExportRows(orders, itemsOf, money).value
        ensures exists i :: 0 <= i < |orders| && CarriesOrder(row, orders[i], money)
      {
        if row in head {
          var k :| 0 <= k < |head| && head[k] == row;
          assert CarriesOrder(row, orders[0], money);
        } else {
          var i :| 0 <= i < |orders[1..]| && CarriesOrder(row, orders[1..][i], money);
          assert CarriesOrder(row, orders[i + 1], money);
        }
      }
    }
  }

  /** Every order of the list, even one without items, has a row in the export. */
  lemma EveryOrderHasARow(orders: seq<Order>, k: nat, itemsOf: map<int, seq<Item>>, money: int -> string)
    requires AllExportable(orders, itemsOf) && k < |orders|
    ensures exists row :: row in ExportRows(orders, itemsOf, money).value && CarriesOrder(row, orders[k], money)
  {
    ExportGrouped(orders, k, itemsOf, money);
    var own := OrderRows(orders[k], ItemsFor(itemsOf, orders[k].id), money).value;
    assert own[0] in ExportRows(orders, itemsOf, money).value;
  }

  /** An entry of the dictionary `export_orders_to_csv_optimized` reads: an order with its `items` field. */
  datatype Entry = Entry(order: Order, items: Field<seq<Item>>)

  /** `order_data.get('items', [])`, where a `None` list counts as empty. */
  function EntryItems(e: Entry): (r: seq<Item>)
    ensures e.items.Val? ==> r == e.items.v
    ensures !e.items.Val? ==> r == []
  {
    if e.items.Val? then e.items.v else []
  }

  /** `export_orders_to_csv_optimized(orders_with_items)`: the entries in dictionary order. */
  function ExportEntries(entries: seq<Entry>, money: int -> string): (r: Option<seq<Row>>)
    ensures r.Some? <==> forall i :: 0 <= i < |entries| ==> Exportable(entries[i].order, EntryItems(entries[i]))
    decreases |entries|
  {
    if |entries| == 0 then Some([])
    else
      assert forall i :: 1 <= i < |entries| ==> entries[i] == entries[1..][i - 1];
      Concat(OrderRows(entries[0].order, EntryItems(entries[0]), money), ExportEntries(entries[1..], money))
  }

  function EntryOrders(entries: seq<Entry>): (r: seq<Order>)
    ensures |r| == |entries|
    ensures forall i :: 0 <= i < |entries| ==> r[i] == entries[i].order
  {
    seq(|entries|, i requires 0 <= i < |entries| => entries[i].order)
  }

  /**
   * The two exports build the same rows when every entry's items are the
   * ones the items dictionary holds for its order.
   */
  lemma {:induction false} OptimizedMatchesExport(entries: seq<Entry>, itemsOf: map<int, seq<Item>>, money: int -> string)
    requires forall i :: 0 <= i < |entries| ==> EntryItems(entries[i]) == ItemsFor(itemsOf, entries[i].order.id)
    ensures ExportEntries(entries, money) == ExportRows(EntryOrders(entries), itemsOf, money)
    decreases |entries|
  {
    if |entries| > 0 {
      assert forall i :: 0 <= i < |entries[1..]| ==> entries[1..][i] == entries[i + 1];
      OptimizedMatchesExport(entries[1..], itemsOf, money);
      assert EntryOrders(entries)[1..] == EntryOrders(entries[1..]);
    }
  }
}
