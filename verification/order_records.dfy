/**
 * The order and order-item rows that the export and print services read, as
 * the database layer hands them out (`get_orders_by_ids`, `get_order_by_id`,
 * `get_order_items`): a nullable column may hold `None`, and the item columns
 * read through `dict.get` keep the distinction between a missing key and a
 * `None` value. Money is in integer cents.
 */
module OrderRecords {
  import opened Wrappers

  datatype Order = Order(
    id: int,
    customerId: Option<int>,
    customerName: Option<string>,
    status: Option<string>,
    totalCents: Option<int>,
    notes: Option<string>,
    createdAt: Option<string>,
    updatedAt: Option<string>)

  datatype Item = Item(
    itemType: Option<string>,
    quantity: Option<int>,
    unitPriceCents: Option<int>,
    inventoryName: Field<string>,
    bagTypeName: Field<string>,
    outerFabricName: Field<string>,
    innerFabricName: Field<string>,
    notes: Field<string>)

  /** `order.get('customer_id')` is truthy: present, not `None` and not 0. */
  predicate HasCustomer(o: Order) {
    o.customerId.Some? && o.customerId.value != 0
  }

  /** `order_items_dict.get(order_id, [])`: an order without an entry has no items. */
  function ItemsFor(itemsOf: map<int, seq<Item>>, id: int): (r: seq<Item>)
    ensures id in itemsOf ==> r == itemsOf[id]
    ensures id !in itemsOf ==> r == []
  {
    if id in itemsOf then itemsOf[id] else []
  }

  /** The ids of a list of orders, in list order. */
  function Ids(orders: seq<Order>): (r: seq<int>)
    ensures |r| == |orders|
    ensures forall i :: 0 <= i < |orders| ==> r[i] == orders[i].id
  {
    seq(|orders|, i requires 0 <= i < |orders| => orders[i].id)
  }
}
