/**
 * The checks `ExportService` runs before an export (services/export_service.py):
 * `validate_export_data` and `get_export_summary`. `fetched` is what
 * `get_orders_by_ids` returns, or the message of the exception it raises;
 * `itemsOf` holds the rows `get_order_items` reads, grouped by order id;
 * `now` is the formatted wall-clock time.
 */
module ExportService {
  import opened Wrappers
  import opened Seqs
  import opened OrderRecords
  import Tables

  const NothingSelected := "未选择任何订单"
  const ValidationFailed := "数据验证失败: "
  /**
   * What `sum` raises on reaching a `None` total. The text is Python's exactly
   * when the running sum before the `None` is an `int` (money is integer cents
   * here); a `float` or `Decimal` sum names that type instead.
   */
  const SumTypeError := "unsupported operand type(s) for +: 'int' and 'NoneType'"

  /** A listing warning; its text is rendered from the ids it carries. */
  datatype Warning = MissingOrders(missing: set<int>) | NoCustomer(orderIds: seq<int>) | NoItems(orderIds: seq<int>)

  datatype Validation = Validation(isValid: bool, warnings: seq<Warning>, errors: seq<string>)

  /** Requested ids for which no order came back. */
  function Missing(orderIds: seq<int>, orders: seq<Order>): (r: set<int>)
    ensures forall id :: id in r <==> id in orderIds && id !in Ids(orders)
  {
    set id | id in orderIds && id !in Ids(orders)
  }

  /** Ids of the found orders with no truthy customer id, in list order. */
  function WithoutCustomer(orders: seq<Order>): (r: seq<int>)
    ensures forall id :: id in r <==> exists i :: 0 <= i < |orders| && orders[i].id == id && !HasCustomer(orders[i])
    decreases |orders|
  {
    if |orders| == 0 then []
    else
      var rest := WithoutCustomer(orders[1..]);
      assert forall i :: 1 <= i < |orders| ==> orders[i] == orders[1..][i - 1];
      if HasCustomer(orders[0]) then rest else [orders[0].id] + rest
  }

  /** Ids of the found orders that have no item rows, in list order. */
  function WithoutItems(found: seq<int>, itemsOf: map<int, seq<Item>>): (r: seq<int>)
    ensures forall id :: id in r <==> id in found && |ItemsFor(itemsOf, id)| == 0
  {
    var r := Filter(found, id => |ItemsFor(itemsOf, id)| == 0);
    assert forall id :: id in r <==> id in found && |ItemsFor(itemsOf, id)| == 0 by {
      forall id {
        FilterMembership(found, id => |ItemsFor(itemsOf, id)| == 0, id);
      }
    }
    r
  }

  /** The position a warning kind takes in the list. */
  function Rank(w: Warning): int {
    match w
    case MissingOrders(_) => 0
    case NoCustomer(_) => 1
    case NoItems(_) => 2
  }

  /** Warnings appear in the fixed order missing, customer, items, at most one of each kind. */
  predicate InRankOrder(ws: seq<Warning>) {
    forall i, j :: 0 <= i < j < |ws| ==> Rank(ws[i]) < Rank(ws[j])
  }

  function WarnIf(cond: bool, w: Warning): (r: seq<Warning>)
    ensures r == [] <==> !cond
    ensures forall x :: x in r <==> cond && x == w
  {
    if cond then [w] else []
  }

  /** The listing warnings for the orders that came back, in the order the checks run. */
  function ListingWarnings(orderIds: seq<int>, orders: seq<Order>, itemsOf: map<int, seq<Item>>): (r: seq<Warning>)
    ensures InRankOrder(r)
  {
    var missing := Missing(orderIds, orders);
    var incomplete := WithoutCustomer(orders);
    var empty := WithoutItems(Ids(orders), itemsOf);
    WarnIf(missing != {}, MissingOrders(missing))
      + WarnIf(incomplete != [], NoCustomer(incomplete))
      + WarnIf(empty != [], NoItems(empty))
  }

  lemma ListingMembers(orderIds: seq<int>, orders: seq<Order>, itemsOf: map<int, seq<Item>>, w: Warning)
    ensures var missing, incomplete, empty := Missing(orderIds, orders), WithoutCustomer(orders), WithoutItems(Ids(orders), itemsOf);
      w in ListingWarnings(orderIds, orders, itemsOf) <==>
        || (missing != {} && w == MissingOrders(missing))
        || (incomplete != [] && w == NoCustomer(incomplete))
        || (empty != [] && w == NoItems(empty))
  {
  }

  /**
   * `validate_export_data(order_ids)`: an empty selection and a failed lookup
   * are the only errors; every listing check only adds a warning.
   */
  function Validate(orderIds: seq<int>, fetched: Result<seq<Order>, string>, itemsOf: map<int, seq<Item>>): (r: Validation)
    ensures |orderIds| == 0 ==> r == Validation(false, [], [NothingSelected])
    ensures |orderIds| > 0 && fetched.Err? ==> r == Validation(false, [], [ValidationFailed + fetched.error])
    ensures r.isValid <==> |orderIds| > 0 && fetched.Ok?
    ensures r.isValid <==> r.errors == []
    ensures InRankOrder(r.warnings)
  {
    if |orderIds| == 0 then Validation(false, [], [NothingSelected])
    else if fetched.Err? then Validation(false, [], [ValidationFailed + fetched.error])
    else Validation(true, ListingWarnings(orderIds, fetched.value, itemsOf), [])
  }

  /** An empty selection is rejected before any lookup: neither the orders nor the items matter. */
  lemma EmptySelectionNeedsNoLookup(f: Result<seq<Order>, string>, g: Result<seq<Order>, string>, m: map<int, seq<Item>>, n: map<int, seq<Item>>)
    ensures Validate([], f, m) == Validate([], g, n)
    ensures !Validate([], f, m).isValid
  {
  }

  /** There is one warning about missing orders exactly when a requested id was not found, and it lists exactly those ids. */
  lemma MissingWarning(orderIds: seq<int>, orders: seq<Order>, itemsOf: map<int, seq<Item>>)
    requires |orderIds| > 0
    ensures var ws := Validate(orderIds, Ok(orders), itemsOf).warnings;
      && ((exists w :: w in ws && w.MissingOrders?) <==> exists id :: id in orderIds && id !in Ids(orders))
      && forall w :: w in ws && w.MissingOrders? ==> forall id :: id in w.missing <==> id in orderIds && id !in Ids(orders)
  {
    var missing := Missing(orderIds, orders);
    forall w { ListingMembers(orderIds, orders, itemsOf, w); }
    if id :| id in orderIds && id !in Ids(orders) {
      assert id in missing;
      assert MissingOrders(missing) in ListingWarnings(orderIds, orders, itemsOf);
    } else {
      assert forall id :: id !in missing;
      assert missing == {};
    }
  }

  /** There is one warning about orders without a customer exactly when a found order lacks one, and it lists exactly their ids. */
  lemma CustomerWarning(orderIds: seq<int>, orders: seq<Order>, itemsOf: map<int, seq<Item>>)
    requires |orderIds| > 0
    ensures var ws := Validate(orderIds, Ok(orders), itemsOf).warnings;
      && ((exists w :: w in ws && w.NoCustomer?) <==> exists i :: 0 <= i < |orders| && !HasCustomer(orders[i]))
      && forall w :: w in ws && w.NoCustomer? ==>
        forall id :: id in w.orderIds <==> exists i :: 0 <= i < |orders| && orders[i].id == id && !HasCustomer(orders[i])
  {
    var incomplete := WithoutCustomer(orders);
    forall w { ListingMembers(orderIds, orders, itemsOf, w); }
    if i :| 0 <= i < |orders| && !HasCustomer(orders[i]) {
      assert orders[i].id in incomplete;
      assert NoCustomer(incomplete) in ListingWarnings(orderIds, orders, itemsOf);
    }
    if |incomplete| > 0 {
      assert incomplete[0] in incomplete;
    }
  }

  /** There is one warning about orders without items exactly when a found order has none, and it lists exactly their ids. */
  lemma ItemsWarning(orderIds: seq<int>, orders: seq<Order>, itemsOf: map<int, seq<Item>>)
    requires |orderIds| > 0
    ensures var ws := Validate(orderIds, Ok(orders), itemsOf).warnings;
      && ((exists w :: w in ws && w.NoItems?) <==> exists i :: 0 <= i < |orders| && |ItemsFor(itemsOf, orders[i].id)| == 0)
      && forall w :: w in ws && w.NoItems? ==>
        forall id :: id in w.orderIds <==> id in Ids(orders) && |ItemsFor(itemsOf, id)| == 0
  {
    var ws := Validate(orderIds, Ok(orders), itemsOf).warnings;
    assert ws == ListingWarnings(orderIds, orders, itemsOf);
    var empty := WithoutItems(Ids(orders), itemsOf);
    forall w | w in ws && w.NoItems? ensures w == NoItems(empty) {
      ListingMembers(orderIds, orders, itemsOf, w);
    }
    ListingMembers(orderIds, orders, itemsOf, NoItems(empty));
    if i :| 0 <= i < |orders| && |ItemsFor(itemsOf, orders[i].id)| == 0 {
      assert Ids(orders)[i] in empty;
    }
    if |empty| > 0 {
      assert empty[0] in empty;
      var i :| 0 <= i < |orders| && Ids(orders)[i] == empty[0];
    }
  }

  /** When every requested order is found complete and with items, there is nothing to warn about. */
  lemma CompleteSelectionHasNoWarnings(orderIds: seq<int>, orders: seq<Order>, itemsOf: map<int, seq<Item>>)
    requires |orderIds| > 0
    requires forall id :: id in orderIds ==> id in Ids(orders)
    requires forall i :: 0 <= i < |orders| ==> HasCustomer(orders[i]) && |ItemsFor(itemsOf, orders[i].id)| > 0
    ensures Validate(orderIds, Ok(orders), itemsOf) == Validation(true, [], [])
  {
    MissingWarning(orderIds, orders, itemsOf);
    CustomerWarning(orderIds, orders, itemsOf);
    ItemsWarning(orderIds, orders, itemsOf);
  }

  datatype Summary = Summary(orderCount: int, totalCents: int, customerCount: int, exportTime: string, error: Option<string>)

  /** The distinct truthy customer ids of the orders. */
  function CustomerIds(orders: seq<Order>): (r: set<int>)
    ensures forall c :: c in r <==> exists i :: 0 <= i < |orders| && HasCustomer(orders[i]) && orders[i].customerId.value == c
  {
    set i | 0 <= i < |orders| && HasCustomer(orders[i]) :: orders[i].customerId.value
  }

  /** `sum(order.get('total_amount', 0) for order in orders)`; `None` is the `TypeError` of adding a `None` total. */
  function TotalOf(orders: seq<Order>): (r: Option<int>)
    ensures r.Some? <==> forall i :: 0 <= i < |orders| ==> orders[i].totalCents.Some?
    decreases |orders|
  {
    if |orders| == 0 then Some(0)
    else
      var rest := TotalOf(orders[1..]);
      assert forall i :: 1 <= i < |orders| ==> orders[i] == orders[1..][i - 1];
      if orders[0].totalCents.Some? && rest.Some? then Some(orders[0].totalCents.value + rest.value) else None
  }

  /** The total of two lists of orders is the sum of their totals, and fails when either fails. */
  lemma {:induction false} TotalOfAppend(a: seq<Order>, b: seq<Order>)
    ensures TotalOf(a + b) == if TotalOf(a).Some? && TotalOf(b).Some? then Some(TotalOf(a).value + TotalOf(b).value) else None
    decreases |a|
  {
    if |a| == 0 {
      assert a + b == b;
    } else {
      assert (a + b)[1..] == a[1..] + b;
      TotalOfAppend(a[1..], b);
    }
  }

  /** `get_export_summary(order_ids)`: on an exception, zero counts and the message. */
  function GetSummary(fetched: Result<seq<Order>, string>, now: string): (r: Summary)
    ensures r.exportTime == now
    ensures fetched.Err? ==> r == Summary(0, 0, 0, now, Some(fetched.error))
    ensures r.error.None? <==> fetched.Ok? && TotalOf(fetched.value).Some?
    ensures r.error.None? ==> r.orderCount == |fetched.value| && r.customerCount == |CustomerIds(fetched.value)|
    ensures r.error.None? ==> TotalOf(fetched.value) == Some(r.totalCents)
    ensures fetched.Ok? && r.error.Some? ==> r == Summary(0, 0, 0, now, Some(SumTypeError))
  {
    if fetched.Err? then Summary(0, 0, 0, now, Some(fetched.error))
    else
      var total := TotalOf(fetched.value);
      if total.None? then Summary(0, 0, 0, now, Some(SumTypeError))
      else Summary(|fetched.value|, total.value, |CustomerIds(fetched.value)|, now, None)
  }

  /** The orders that have a truthy customer id. */
  function WithCustomer(orders: seq<Order>): seq<Order> {
    Filter(orders, HasCustomer)
  }

  /** Distinct customers never outnumber the orders that name one. */
  lemma {:induction false} CustomerIdsBound(orders: seq<Order>)
    ensures |CustomerIds(orders)| <= |WithCustomer(orders)|
    decreases |orders|
  {
    if |orders| > 0 {
      var rest := orders[1..];
      CustomerIdsBound(rest);
      assert forall i :: 1 <= i < |orders| ==> orders[i] == rest[i - 1];
      assert orders == [orders[0]] + rest;
      FilterAppend([orders[0]], rest, HasCustomer);
      if HasCustomer(orders[0]) {
        assert CustomerIds(orders) <= CustomerIds(rest) + {orders[0].customerId.value} by {
          forall c | c in CustomerIds(orders) ensures c in CustomerIds(rest) + {orders[0].customerId.value} {
            var i :| 0 <= i < |orders| && HasCustomer(orders[i]) && orders[i].customerId.value == c;
            if i > 0 {
              assert HasCustomer(rest[i - 1]) && rest[i - 1].customerId.value == c;
            }
          }
        }
        Tables.SubsetCard(CustomerIds(orders), CustomerIds(rest) + {orders[0].customerId.value});
      } else {
        assert CustomerIds(orders) <= CustomerIds(rest) by {
          forall c | c in CustomerIds(orders) ensures c in CustomerIds(rest) {
            var i :| 0 <= i < |orders| && HasCustomer(orders[i]) && orders[i].customerId.value == c;
            assert i > 0;
            assert HasCustomer(rest[i - 1]) && rest[i - 1].customerId.value == c;
          }
        }
        Tables.SubsetCard(CustomerIds(orders), CustomerIds(rest));
      }
    }
  }

  /** In a summary the customer count never exceeds the order count. */
  lemma SummaryCustomersWithinOrders(fetched: Result<seq<Order>, string>, now: string)
    ensures GetSummary(fetched, now).customerCount <= GetSummary(fetched, now).orderCount
  {
    if fetched.Ok? && TotalOf(fetched.value).Some? {
      CustomerIdsBound(fetched.value);
      FilterCounts(fetched.value, HasCustomer);
    }
  }
}
