/**
 * Null-safe display of rows whose references may dangle: an order item
 * whose stock item, fabric or customer was deleted still gets a readable
 * label. Rows are the dictionaries the database layer returns; each field is
 * missing, `None` or a value.
 */
module Display {
  import opened Wrappers
  import opened PyText

  /** `safe_get`'s default. */
  const Unknown := "未知"

  /**
   * `safe_get(item, field, default)`: the stored value, or the default when
   * the dictionary is `None` or empty, lacks the field, or holds `None` there.
   */
  function SafeGet<V>(item: Option<map<string, Option<V>>>, field: string, default: V): (r: V)
    ensures item.None? || field !in item.value || item.value[field].None? ==> r == default
    ensures item.Some? && field in item.value && item.value[field].Some? ==> r == item.value[field].value
  {
    if item.None? || |item.value| == 0 then default
    else if field in item.value && item.value[field].Some? then item.value[field].value
    else default
  }

  /** What is stored under a field is what `safe_get` reads back, and erasing it brings back the default. */
  lemma SafeGetStored<V>(m: map<string, Option<V>>, field: string, v: V, default: V)
    ensures SafeGet(Some(m[field := Some(v)]), field, default) == v
    ensures SafeGet(Some(m[field := None]), field, default) == default
    ensures SafeGet(Some(m - {field}), field, default) == default
  {
    assert field in m[field := Some(v)];
  }

  /** Non-empty text is truthy. */
  predicate TruthyText(f: Field<string>) {
    f.Val? && |f.v| > 0
  }

  /** A non-zero id is truthy. */
  predicate TruthyNum(f: Field<int>) {
    f.Val? && f.v != 0
  }

  /** The fields of an order-item row the formatters read; `otherKeys` says whether it has any further key. */
  datatype ItemRow = ItemRow(
    inventoryName: Field<string>,
    inventoryId: Field<int>,
    itemType: Field<string>,
    quantity: Field<int>,
    unitPriceCents: Field<int>,
    outerFabricName: Field<string>,
    outerFabricId: Field<int>,
    innerFabricName: Field<string>,
    innerFabricId: Field<int>,
    notes: Field<string>,
    otherKeys: bool)

  const EmptyItem := ItemRow(Absent, Absent, Absent, Absent, Absent, Absent, Absent, Absent, Absent, Absent, false)

  /** `not item`: `None` or the empty dictionary. */
  predicate FalsyItem(item: Option<ItemRow>) {
    item.None? || item.value == EmptyItem
  }

  const DefaultItemType := "商品"
  const DeletedPrefix := "已删除的"
  const CustomPrefix := "定制"
  const CustomType := "定制"

  /**
   * `format_item_display`: the stock item's name when it has one; a
   * "deleted" label when the row still points at a stock item; otherwise a
   * custom-item label.
   */
  function FormatItemDisplay(item: Option<ItemRow>, itemType: string): (r: string)
    ensures FalsyItem(item) ==> r == Unknown + itemType
    ensures !FalsyItem(item) && TruthyText(item.value.inventoryName) ==> r == item.value.inventoryName.v
    ensures !FalsyItem(item) && !TruthyText(item.value.inventoryName) && TruthyNum(item.value.inventoryId) ==>
      r == DeletedPrefix + itemType
    ensures !FalsyItem(item) && !TruthyText(item.value.inventoryName) && !TruthyNum(item.value.inventoryId) ==>
      r == (if itemType == DefaultItemType then CustomPrefix + itemType else itemType)
    ensures |itemType| > 0 ==> |r| > 0
  {
    if FalsyItem(item) then Unknown + itemType
    else if TruthyText(item.value.inventoryName) then item.value.inventoryName.v
    else if TruthyNum(item.value.inventoryId) then DeletedPrefix + itemType
    else if itemType == DefaultItemType then CustomPrefix + itemType
    else itemType
  }

  datatype FabricSide = Outer | Inner

  function FabricName(item: ItemRow, side: FabricSide): Field<string> {
    match side
    case Outer => item.outerFabricName
    case Inner => item.innerFabricName
  }

  function FabricId(item: ItemRow, side: FabricSide): Field<int> {
    match side
    case Outer => item.outerFabricId
    case Inner => item.innerFabricId
  }

  const DeletedFabric := "已删除的面料"

  /**
   * `format_fabric_display`: the fabric's name, the deleted-fabric label
   * when only the id survives, or nothing when the row names no fabric.
   */
  function FormatFabricDisplay(item: Option<ItemRow>, side: FabricSide): (r: Option<string>)
    ensures r.Some? <==> !FalsyItem(item) && (TruthyText(FabricName(item.value, side)) || TruthyNum(FabricId(item.value, side)))
    ensures r.Some? ==> |r.value| > 0
    ensures r.Some? && TruthyText(FabricName(item.value, side)) ==> r.value == FabricName(item.value, side).v
    ensures r.Some? && !TruthyText(FabricName(item.value, side)) ==> r.value == DeletedFabric
  {
    if FalsyItem(item) then None
    else if TruthyText(FabricName(item.value, side)) then Some(FabricName(item.value, side).v)
    else if TruthyNum(FabricId(item.value, side)) then Some(DeletedFabric)
    else None
  }

  /** The fields of an order row `format_customer_display` reads. */
  datatype CustomerRef = CustomerRef(snapshot: Field<string>, customerName: Field<string>, customerId: Field<int>, otherKeys: bool)

  const UnknownCustomer := "未知客户"
  const DeletedCustomer := "已删除的客户"

  /** A usable name: non-empty and not the text `'None'` an earlier `str(None)` may have stored. */
  predicate UsableName(f: Field<string>) {
    TruthyText(f) && f.v != "None"
  }

  /**
   * `format_customer_display`: the name captured when the order was placed,
   * then the customer's current name, then a deleted-customer label while the
   * order still names a customer, then the unknown-customer label.
   */
  function FormatCustomerDisplay(order: Option<CustomerRef>): (r: string)
    ensures |r| > 0 && r != "None"
    ensures order.Some? && UsableName(order.value.snapshot) ==> r == order.value.snapshot.v
    ensures order.Some? && !UsableName(order.value.snapshot) && UsableName(order.value.customerName) ==>
      r == order.value.customerName.v
    ensures order.Some? && !UsableName(order.value.snapshot) && !UsableName(order.value.customerName) ==>
      r == (if TruthyNum(order.value.customerId) then DeletedCustomer else UnknownCustomer)
    ensures order.None? ==> r == UnknownCustomer
  {
    if order.None? || order.value == CustomerRef(Absent, Absent, Absent, false) then UnknownCustomer
    else if UsableName(order.value.snapshot) then order.value.snapshot.v
    else if UsableName(order.value.customerName) then order.value.customerName.v
    else if TruthyNum(order.value.customerId) then DeletedCustomer
    else UnknownCustomer
  }

  /** The fields of a processing order `format_processor_display` reads. */
  datatype ProcessorRef = ProcessorRef(processorName: Field<string>, processorId: Field<int>, otherKeys: bool)

  const UnknownProcessor := "未知代加工商"
  const DeletedProcessor := "已删除的代加工商"

  /** `format_processor_display`: the processor's name, else a deleted label while the id survives, else unknown. */
  function FormatProcessorDisplay(order: Option<ProcessorRef>): (r: string)
    ensures |r| > 0
    ensures order.Some? && TruthyText(order.value.processorName) ==> r == order.value.processorName.v
    ensures order.Some? && !TruthyText(order.value.processorName) ==>
      r == (if TruthyNum(order.value.processorId) then DeletedProcessor else UnknownProcessor)
    ensures order.None? ==> r == UnknownProcessor
  {
    if order.None? || order.value == ProcessorRef(Absent, Absent, false) then UnknownProcessor
    else if TruthyText(order.value.processorName) then order.value.processorName.v
    else if TruthyNum(order.value.processorId) then DeletedProcessor
    else UnknownProcessor
  }

  /** The `DEFAULT_VALUES` table of fallback labels. */
  const DefaultValues: map<string, string> := map[
    "item_name" := "已删除的商品",
    "fabric_name" := "已删除的面料",
    "customer_name" := "已删除的客户",
    "processor_name" := "已删除的代加工商",
    "unknown_item" := "未知商品",
    "unknown_fabric" := "未知面料",
    "unknown_customer" := "未知客户",
    "unknown_processor" := "未知代加工商"]

  /** The formatters' fallbacks are the labels the defaults table lists. */
  lemma FallbacksMatchDefaults()
    ensures DeletedPrefix + DefaultItemType == DefaultValues["item_name"]
    ensures Unknown + DefaultItemType == DefaultValues["unknown_item"]
    ensures DeletedFabric == DefaultValues["fabric_name"]
    ensures DeletedCustomer == DefaultValues["customer_name"] && UnknownCustomer == DefaultValues["unknown_customer"]
    ensures DeletedProcessor == DefaultValues["processor_name"] && UnknownProcessor == DefaultValues["unknown_processor"]
  {
  }

  const InvalidItemLine := "• 无效商品项"
  const OuterLabel := "  表布: "
  const InnerLabel := "  里布: "
  const NotesLabel := "  备注: "

  /** `f"{x}"` for an optional text field read with a default: `None` prints as `None`. */
  function TextOf(f: Field<string>, default: string): string {
    match f
    case Absent => default
    case Null => "None"
    case Val(s) => s
  }

  /** The row is a custom item whose fabric on `side` resolves to a label. */
  predicate ShowsFabric(row: ItemRow, side: FabricSide) {
    row.itemType == Val(CustomType) && FormatFabricDisplay(Some(row), side).Some?
  }

  /**
   * The lines of `format_order_item_line` before they are joined: the base
   * line, then the outer and inner fabric lines of a custom item whose fabric
   * resolves, then a notes line. `money` renders a cent amount with two
   * decimals. `None` is the `TypeError` of multiplying a `None` quantity or price.
   */
  function ItemLines(row: ItemRow, money: int -> string): (r: Option<seq<string>>)
    ensures r.Some? <==> !row.quantity.Null? && !row.unitPriceCents.Null?
    ensures r.Some? ==>
      var q, p := row.quantity.GetOr(0).value, row.unitPriceCents.GetOr(0).value;
      && |r.value| == 1 + (if ShowsFabric(row, Outer) then 1 else 0) + (if ShowsFabric(row, Inner) then 1 else 0)
                        + (if TruthyText(row.notes) then 1 else 0)
      && r.value[0] == "• " + TextOf(row.itemType, Unknown) + ": " + FormatItemDisplay(Some(row), DefaultItemType)
                       + " × " + IntToString(q) + " = ¥" + money(q * p)
      && (forall i :: 1 <= i < |r.value| ==> StartsWith(r.value[i], "  "))
      && (ShowsFabric(row, Outer) ==> r.value[1] == OuterLabel + FormatFabricDisplay(Some(row), Outer).value)
      && (ShowsFabric(row, Inner) ==>
            r.value[if ShowsFabric(row, Outer) then 2 else 1] == InnerLabel + FormatFabricDisplay(Some(row), Inner).value)
      && (TruthyText(row.notes) ==> r.value[|r.value| - 1] == NotesLabel + row.notes.v)
  {
    if row.quantity.Null? || row.unitPriceCents.Null? then None
    else
      var q := row.quantity.GetOr(0).value;
      var p := row.unitPriceCents.GetOr(0).value;
      var base := "• " + TextOf(row.itemType, Unknown) + ": " + FormatItemDisplay(Some(row), DefaultItemType)
                  + " × " + IntToString(q) + " = ¥" + money(q * p);
      var outer := FormatFabricDisplay(Some(row), Outer);
      var inner := FormatFabricDisplay(Some(row), Inner);
      var fabric := (if ShowsFabric(row, Outer) then [OuterLabel + outer.value] else [])
                  + (if ShowsFabric(row, Inner) then [InnerLabel + inner.value] else []);
      var notes := if TruthyText(row.notes) then [NotesLabel + row.notes.v] else [];
      var lines := [base] + fabric + notes;
      assert forall i :: 1 <= i < |lines| ==> lines[i][..2] == "  ";
      Some(lines)
  }

  /** `format_order_item_line`: the lines joined by newlines, or the invalid-item line for an empty row. */
  function FormatOrderItemLine(item: Option<ItemRow>, money: int -> string): (r: Option<string>)
    ensures FalsyItem(item) ==> r == Some(InvalidItemLine)
    ensures !FalsyItem(item) ==> (r.Some? <==> ItemLines(item.value, money).Some?)
    ensures !FalsyItem(item) && r.Some? ==> r == Some(Join(ItemLines(item.value, money).value, "\n"))
  {
    if FalsyItem(item) then Some(InvalidItemLine)
    else
      match ItemLines(item.value, money)
      case None => None
      case Some(lines) => Some(Join(lines, "\n"))
  }

  /** When no name, note or rendered amount contains a newline, the output has one newline per extra line. */
  lemma OrderItemLineCount(row: ItemRow, money: int -> string)
    requires row != EmptyItem
    requires ItemLines(row, money).Some?
    requires forall i :: 0 <= i < |ItemLines(row, money).value| ==> CountChar(ItemLines(row, money).value[i], '\n') == 0
    ensures CountChar(FormatOrderItemLine(Some(row), money).value, '\n') == |ItemLines(row, money).value| - 1
  {
    JoinSeparators(ItemLines(row, money).value, '\n');
  }

  /** When no line contains a newline, splitting the output at newlines gives the lines back. */
  lemma OrderItemLinesRecovered(row: ItemRow, money: int -> string)
    requires row != EmptyItem
    requires ItemLines(row, money).Some?
    requires forall i :: 0 <= i < |ItemLines(row, money).value| ==> '\n' !in ItemLines(row, money).value[i]
    ensures Split(FormatOrderItemLine(Some(row), money).value, "\n") == ItemLines(row, money).value
  {
    SplitJoin(ItemLines(row, money).value, '\n');
  }

  // ----- the fallback chains against a first-present-candidate reading -----

  /** The first present candidate, as a chain of `if x: return x` picks it. */
  function FirstSome(cands: seq<Option<string>>): (r: Option<string>)
    ensures r.Some? <==> exists i :: 0 <= i < |cands| && cands[i].Some?
    ensures r.Some? ==> exists i :: 0 <= i < |cands| && cands[i] == r && forall j :: 0 <= j < i ==> cands[j].None?
  {
    if |cands| == 0 then None
    else if cands[0].Some? then cands[0]
    else
      var r := FirstSome(cands[1..]);
      assert forall i :: 1 <= i < |cands| ==> cands[i] == cands[1..][i - 1];
      r
  }

  /** `s` when `c` holds. */
  function When(c: bool, s: string): Option<string> {
    if c then Some(s) else None
  }

  /** A field's text when it is truthy. */
  function TruthyValue(f: Field<string>): Option<string> {
    if TruthyText(f) then Some(f.v) else None
  }

  /** A field's text when it is a usable name. */
  function UsableValue(f: Field<string>): Option<string> {
    if UsableName(f) then Some(f.v) else None
  }

  /** The stock item's name, then the deleted label, then the custom label. */
  lemma ItemDisplayPrecedence(row: ItemRow, itemType: string)
    requires row != EmptyItem
    ensures FormatItemDisplay(Some(row), itemType) ==
      FirstSome([TruthyValue(row.inventoryName), When(TruthyNum(row.inventoryId), DeletedPrefix + itemType)])
        .GetOr(if itemType == DefaultItemType then CustomPrefix + itemType else itemType)
  {
    var cands := [TruthyValue(row.inventoryName), When(TruthyNum(row.inventoryId), DeletedPrefix + itemType)];
    assert cands[1..] == [cands[1]] && cands[1..][1..] == [];
  }

  /** The fabric's name, then the deleted-fabric label, else nothing. */
  lemma FabricDisplayPrecedence(row: ItemRow, side: FabricSide)
    requires row != EmptyItem
    ensures FormatFabricDisplay(Some(row), side) ==
      FirstSome([TruthyValue(FabricName(row, side)), When(TruthyNum(FabricId(row, side)), DeletedFabric)])
  {
    var cands := [TruthyValue(FabricName(row, side)), When(TruthyNum(FabricId(row, side)), DeletedFabric)];
    assert cands[1..] == [cands[1]] && cands[1..][1..] == [];
  }

  /** The snapshot, then the current name, then the deleted label, else unknown. */
  lemma CustomerDisplayPrecedence(order: Option<CustomerRef>)
    ensures FormatCustomerDisplay(order) ==
      (if order.None? then UnknownCustomer
       else FirstSome([UsableValue(order.value.snapshot), UsableValue(order.value.customerName),
                       When(TruthyNum(order.value.customerId), DeletedCustomer)]).GetOr(UnknownCustomer))
  {
    if order.Some? {
      var o := order.value;
      var cands := [UsableValue(o.snapshot), UsableValue(o.customerName), When(TruthyNum(o.customerId), DeletedCustomer)];
      assert cands[1..] == [cands[1], cands[2]] && cands[1..][1..] == [cands[2]] && cands[1..][1..][1..] == [];
    }
  }

  /** The processor's name, then the deleted label, else unknown. */
  lemma ProcessorDisplayPrecedence(order: Option<ProcessorRef>)
    ensures FormatProcessorDisplay(order) ==
      (if order.None? then UnknownProcessor
       else FirstSome([TruthyValue(order.value.processorName), When(TruthyNum(order.value.processorId), DeletedProcessor)])
              .GetOr(UnknownProcessor))
  {
    if order.Some? {
      var o := order.value;
      var cands := [TruthyValue(o.processorName), When(TruthyNum(o.processorId), DeletedProcessor)];
      assert cands[1..] == [cands[1]] && cands[1..][1..] == [];
    }
  }
}
