/**
 * The data gathering and page sequencing of `PrintService`
 * (services/print_service.py): `_get_orders_print_data`, the story built by
 * `generate_orders_print_pdf`, and `get_print_filename`. `orderById` stands
 * for `get_order_by_id`, `customers` for `get_customers()`, `itemsOf` for
 * `get_order_items`; the laid-out content of one order is kept as a single
 * story part.
 */
module PrintService {
  import opened Wrappers
  import opened Seqs
  import opened PyText
  import opened OrderRecords
  import Ledger

  datatype Customer = Customer(id: int, name: Option<string>)

  /** One order's print data: the order, its customer if found, and its items split by kind. */
  datatype PrintData = PrintData(order: Order, customer: Option<Customer>, inventoryItems: seq<Item>, customItems: seq<Item>)

  /** `item['item_type'] == '现货'`. */
  predicate IsReadyStock(it: Item) {
    it.itemType == Some(Ledger.ReadyStock)
  }

  predicate IsMadeToOrder(it: Item) {
    !IsReadyStock(it)
  }

  /** `next((c for c in customers if c['id'] == order['customer_id']), None)`: the first customer with that id. */
  function FindCustomer(customers: seq<Customer>, id: Option<int>): (r: Option<Customer>)
    ensures r.Some? <==> exists k :: 0 <= k < |customers| && Some(customers[k].id) == id
    ensures r.Some? ==> exists k :: (0 <= k < |customers| && customers[k] == r.value && Some(r.value.id) == id
      && forall j :: 0 <= j < k ==> Some(customers[j].id) != id)
    decreases |customers|
  {
    if |customers| == 0 then None
    else if Some(customers[0].id) == id then Some(customers[0])
    else
      var r := FindCustomer(customers[1..], id);
      assert forall k :: 1 <= k < |customers| ==> customers[k] == customers[1..][k - 1];
      assert r.Some? ==> exists k :: (0 <= k < |customers| && customers[k] == r.value && Some(r.value.id) == id
        && forall j :: 0 <= j < k ==> Some(customers[j].id) != id) by {
        if r.Some? {
          var k :| 0 <= k < |customers[1..]| && customers[1..][k] == r.value && Some(r.value.id) == id
            && forall j :: 0 <= j < k ==> Some(customers[1..][j].id) != id;
          assert customers[k + 1] == r.value && forall j :: 0 <= j < k + 1 ==> Some(customers[j].id) != id;
        }
      }
      r
  }

  function OrderPrintData(order: Order, customers: seq<Customer>, items: seq<Item>): PrintData {
    PrintData(order, FindCustomer(customers, order.customerId), Filter(items, IsReadyStock), Filter(items, IsMadeToOrder))
  }

  /**
   * The two item lists split the order's items: every ready-stock item goes
   * to the first, every other item to the second, each keeps its multiplicity,
   * and nothing is added or lost.
   */
  lemma ItemsPartitioned(order: Order, customers: seq<Customer>, items: seq<Item>)
    ensures var d := OrderPrintData(order, customers, items);
      && (forall it :: it in d.inventoryItems ==> IsReadyStock(it))
      && (forall it :: it in d.customItems ==> !IsReadyStock(it))
      && multiset(d.inventoryItems) + multiset(d.customItems) == multiset(items)
      && |d.inventoryItems| + |d.customItems| == |items|
  {
    var d := OrderPrintData(order, customers, items);
    FilterCounts(items, IsReadyStock);
    FilterCounts(items, IsMadeToOrder);
    forall it | it in d.inventoryItems ensures IsReadyStock(it) {
      FilterMembership(items, IsReadyStock, it);
    }
    forall it | it in d.customItems ensures !IsReadyStock(it) {
      FilterMembership(items, IsMadeToOrder, it);
    }
    assert multiset(d.inventoryItems) + multiset(d.customItems) == multiset(items);
    assert |multiset(d.inventoryItems) + multiset(d.customItems)| == |multiset(items)|;
  }

  /** Splitting a list of items and splitting its two halves agree: the split keeps relative order. */
  lemma ItemsSplitInOrder(order: Order, customers: seq<Customer>, a: seq<Item>, b: seq<Item>)
    ensures OrderPrintData(order, customers, a + b).inventoryItems ==
      OrderPrintData(order, customers, a).inventoryItems + OrderPrintData(order, customers, b).inventoryItems
    ensures OrderPrintData(order, customers, a + b).customItems ==
      OrderPrintData(order, customers, a).customItems + OrderPrintData(order, customers, b).customItems
  {
    FilterAppend(a, b, IsReadyStock);
    FilterAppend(a, b, IsMadeToOrder);
  }

  /** The requested ids for which an order exists, in request order. */
  function FoundIds(orderIds: seq<int>, orderById: map<int, Order>): (r: seq<int>)
    ensures |r| <= |orderIds|
    ensures forall id :: id in r <==> id in orderIds && id in orderById
  {
    var r := Filter(orderIds, id => id in orderById);
    assert forall id :: id in r <==> id in orderIds && id in orderById by {
      forall id {
        FilterMembership(orderIds, id => id in orderById, id);
      }
    }
    r
  }

  /**
   * `_get_orders_print_data(order_ids)`: one entry per requested id that has
   * an order, in request order; an id without an order is skipped.
   */
  function PrintDataFor(orderIds: seq<int>, orderById: map<int, Order>, customers: seq<Customer>, itemsOf: map<int, seq<Item>>): (r: seq<PrintData>)
    ensures |r| == |FoundIds(orderIds, orderById)| <= |orderIds|
    ensures forall k :: 0 <= k < |r| ==> var id := FoundIds(orderIds, orderById)[k];
      id in orderById && r[k] == OrderPrintData(orderById[id], customers, ItemsFor(itemsOf, id))
    decreases |orderIds|
  {
    if |orderIds| == 0 then []
    else
      var id := orderIds[0];
      var rest := PrintDataFor(orderIds[1..], orderById, customers, itemsOf);
      assert FoundIds(orderIds, orderById) ==
        (if id in orderById then [id] else []) + FoundIds(orderIds[1..], orderById);
      if id in orderById then [OrderPrintData(orderById[id], customers, ItemsFor(itemsOf, id))] + rest
      else rest
  }

  /** A part of the PDF story. */
  datatype StoryPart = PageBreak | Content(data: PrintData)

  /**
   * The story of `generate_orders_print_pdf`: for each order in turn, a page
   * break unless it is the first, then its content.
   */
  function Story(data: seq<PrintData>): (r: seq<StoryPart>)
    ensures |r| == if |data| == 0 then 0 else 2 * |data| - 1
    decreases |data|
  {
    if |data| == 0 then []
    else
      var n := |data|;
      Story(data[..n - 1]) + (if n > 1 then [PageBreak] else []) + [Content(data[n - 1])]
  }

  /** The story alternates: order contents at even positions, page breaks between them. */
  lemma {:induction false} StoryLayout(data: seq<PrintData>)
    ensures forall k :: 0 <= k < |data| ==> Story(data)[2 * k] == Content(data[k])
    ensures forall k :: 0 <= k < |data| - 1 ==> Story(data)[2 * k + 1] == PageBreak
    decreases |data|
  {
    if |data| > 0 {
      var n := |data|;
      var front := data[..n - 1];
      StoryLayout(front);
      var s := Story(data);
      var s' := Story(front);
      assert s == s' + (if n > 1 then [PageBreak] else []) + [Content(data[n - 1])];
      forall k | 0 <= k < n ensures s[2 * k] == Content(data[k]) {
        if k < n - 1 {
          assert s[2 * k] == s'[2 * k];
          assert front[k] == data[k];
        }
      }
      forall k | 0 <= k < n - 1 ensures s[2 * k + 1] == PageBreak {
        if k < n - 2 {
          assert s[2 * k + 1] == s'[2 * k + 1];
        }
      }
    }
  }

  function CountBreaks(story: seq<StoryPart>): nat
    decreases |story|
  {
    if |story| == 0 then 0 else (if story[|story| - 1].PageBreak? then 1 else 0) + CountBreaks(story[..|story| - 1])
  }

  lemma {:induction false} CountBreaksAppend(a: seq<StoryPart>, b: seq<StoryPart>)
    ensures CountBreaks(a + b) == CountBreaks(a) + CountBreaks(b)
    decreases |b|
  {
    if |b| == 0 {
      assert a + b == a;
    } else {
      assert (a + b)[..|a + b| - 1] == a + b[..|b| - 1];
      CountBreaksAppend(a, b[..|b| - 1]);
    }
  }

  /** There is one page break fewer than orders: none before the first. */
  lemma {:induction false} StoryBreaks(data: seq<PrintData>)
    requires |data| > 0
    ensures CountBreaks(Story(data)) == |data| - 1
    decreases |data|
  {
    var n := |data|;
    var tail := (if n > 1 then [PageBreak] else []) + [Content(data[n - 1])];
    assert Story(data) == Story(data[..n - 1]) + tail;
    CountBreaksAppend(Story(data[..n - 1]), tail);
    assert CountBreaks([Content(data[n - 1])]) == 0;
    if n > 1 {
      StoryBreaks(data[..n - 1]);
      assert tail[..1] == [PageBreak];
      assert CountBreaks([PageBreak]) == 1 by {
        assert [PageBreak][..0] == [];
      }
    } else {
      assert Story(data[..n - 1]) == [];
      assert tail == [Content(data[n - 1])];
    }
  }

  const NoIdsMessage := "订单ID列表不能为空"

  /**
   * The exceptions of `generate_orders_print_pdf`: the `ValueError` on an
   * empty id list, and the `TypeError` that `quantity * unit_price` or
   * `f"{total_amount:.2f}"` raises on a `None` amount.
   */
  datatype PrintError = ValueError(message: string) | TypeError

  /** `quantity * unit_price` can be computed: neither is `None`. */
  predicate PricedItem(it: Item) {
    it.quantity.Some? && it.unitPriceCents.Some?
  }

  /** `_create_order_print_content` lays the order out without raising: every item is priced and the total is present. */
  predicate Printable(d: PrintData) {
    && (forall it :: it in d.inventoryItems ==> PricedItem(it))
    && (forall it :: it in d.customItems ==> PricedItem(it))
    && d.order.totalCents.Some?
  }

  /** The layout raises for some requested id that has an order. */
  predicate SomeUnprintable(orderIds: seq<int>, orderById: map<int, Order>, customers: seq<Customer>, itemsOf: map<int, seq<Item>>) {
    exists id :: id in orderIds && id in orderById && !Printable(OrderPrintData(orderById[id], customers, ItemsFor(itemsOf, id)))
  }

  /**
   * `generate_orders_print_pdf(order_ids)` up to layout: an empty id list is
   * the `ValueError`; otherwise the story fails exactly when one of the found
   * orders cannot be laid out.
   */
  function PrintStory(orderIds: seq<int>, orderById: map<int, Order>, customers: seq<Customer>, itemsOf: map<int, seq<Item>>): (r: Result<seq<StoryPart>, PrintError>)
    ensures |orderIds| == 0 ==> r == Err(ValueError(NoIdsMessage))
    ensures |orderIds| > 0 ==> (r.Err? <==> SomeUnprintable(orderIds, orderById, customers, itemsOf))
    ensures |orderIds| > 0 && r.Err? ==> r.error == TypeError
    ensures r.Ok? ==> forall p :: p in r.value && p.Content? ==> p.data.order in orderById.Values && Printable(p.data)
    ensures |orderIds| > 0 && !SomeUnprintable(orderIds, orderById, customers, itemsOf) ==>
      r == Ok(Story(PrintDataFor(orderIds, orderById, customers, itemsOf)))
  {
    if |orderIds| == 0 then Err(ValueError(NoIdsMessage))
    else
      var data := PrintDataFor(orderIds, orderById, customers, itemsOf);
      var found := FoundIds(orderIds, orderById);
      if exists k :: 0 <= k < |data| && !Printable(data[k]) then
        assert SomeUnprintable(orderIds, orderById, customers, itemsOf) by {
          var k :| 0 <= k < |data| && !Printable(data[k]);
          assert found[k] in found;
        }
        Err(TypeError)
      else
        assert !SomeUnprintable(orderIds, orderById, customers, itemsOf) by {
          forall id | id in orderIds && id in orderById
            ensures Printable(OrderPrintData(orderById[id], customers, ItemsFor(itemsOf, id)))
          {
            assert id in found;
            var k :| 0 <= k < |found| && found[k] == id;
            assert data[k] == OrderPrintData(orderById[id], customers, ItemsFor(itemsOf, id));
          }
        }
        var story := Story(data);
        assert forall p :: p in story && p.Content? ==> p.data.order in orderById.Values && Printable(p.data) by {
          forall p | p in story && p.Content? ensures p.data.order in orderById.Values && Printable(p.data) {
            var i :| 0 <= i < |story| && story[i] == p;
            StoryContentAt(data, i);
            var k :| 0 <= k < |data| && p == Content(data[k]);
            var id := found[k];
            assert data[k].order == orderById[id];
          }
        }
        Ok(story)
  }

  /** One requested order without a total is enough to make the whole print fail. */
  lemma NullTotalFailsPrint(orderIds: seq<int>, orderById: map<int, Order>, customers: seq<Customer>, itemsOf: map<int, seq<Item>>, id: int)
    requires id in orderIds && id in orderById && orderById[id].totalCents.None?
    ensures PrintStory(orderIds, orderById, customers, itemsOf) == Err(TypeError)
  {
    assert !Printable(OrderPrintData(orderById[id], customers, ItemsFor(itemsOf, id)));
  }

  /** Every content part of a story is one of its orders. */
  lemma StoryContentAt(data: seq<PrintData>, i: nat)
    requires i < |Story(data)| && Story(data)[i].Content?
    ensures exists k :: 0 <= k < |data| && Story(data)[i] == Content(data[k])
  {
    StoryLayout(data);
    if i % 2 == 0 {
      assert Story(data)[2 * (i / 2)] == Content(data[i / 2]);
    }
  }

  const SinglePrefix := "订单打印_"
  const BatchPrefix := "批量订单打印_"
  const BatchSuffix := "个订单_"

  /** `get_print_filename(order_ids)` with the formatted time `stamp`. */
  function PrintFilename(orderIds: seq<int>, stamp: string): (r: string)
    ensures StartsWith(r, SinglePrefix) <==> |orderIds| == 1
    ensures StartsWith(r, BatchPrefix) <==> |orderIds| != 1
    ensures |orderIds| == 1 ==> StartsWith(r, SinglePrefix + IntToString(orderIds[0]) + "_")
    ensures |orderIds| != 1 ==> StartsWith(r, BatchPrefix + IntToString(|orderIds|) + BatchSuffix)
    ensures |r| >= |stamp| + 4 && r[|r| - |stamp| - 4..] == stamp + ".pdf"
  {
    if |orderIds| == 1 then
      var r := SinglePrefix + IntToString(orderIds[0]) + "_" + stamp + ".pdf";
      assert r[0] != BatchPrefix[0];
      r
    else
      var r := BatchPrefix + IntToString(|orderIds|) + BatchSuffix + stamp + ".pdf";
      assert r[0] != SinglePrefix[0];
      r
  }

  /** For the same time stamp, two single-order file names differ exactly when the ids differ. */
  lemma SingleFilenameNamesOrder(a: int, b: int, stamp: string)
    ensures PrintFilename([a], stamp) == PrintFilename([b], stamp) <==> a == b
  {
    if PrintFilename([a], stamp) == PrintFilename([b], stamp) {
      var x, y := IntToString(a), IntToString(b);
      var tail := stamp + ".pdf";
      assert PrintFilename([a], stamp)[|SinglePrefix|..] == x + "_" + tail;
      assert PrintFilename([b], stamp)[|SinglePrefix|..] == y + "_" + tail;
      NoUnderscore(a);
      NoUnderscore(b);
      SplitAtUnderscore(x, y, tail, tail);
      IntToStringInjective(a, b);
    }
  }
}
