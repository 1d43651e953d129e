/**
 * Building the three tables from the order records of the JSON dump:
 * the orders table (sorted by order ID, dates parsed), and the members and
 * products tables, made by flattening each order's nested `members` and
 * `products` maps into rows that carry the order's ID.
 */
module Dataframes {
  import opened Wrappers
  import opened Text
  import opened Calendar
  import opened Frames
  import opened Sorting
  import Features

  // ---------------------------------------------------------------------------
  // The orders table

  /** Order IDs never decrease along the table. */
  predicate SortedByOrderId(s: seq<Order>) {
    forall i, j :: 0 <= i < j < |s| ==> s[i].orderId <= s[j].orderId
  }

  /** Order IDs strictly increase along the table. */
  predicate AscendingOrderIds(s: seq<Order>) {
    forall i, j :: 0 <= i < j < |s| ==> s[i].orderId < s[j].orderId
  }

  /** The sort key of the orders table: its `order_ID` index. */
  function OrderIdKey(o: Order): real {
    o.orderId as real
  }

  /** One record with its three date columns parsed and its nested maps kept. */
  function ParseOrder(o: RawOrder): (r: Result<Order>)
    ensures r.Success? <==>
      ParseIsoDate(o.deliveryDate).Success? && ParseIsoDate(o.createdAt).Success?
      && ParseIsoDate(o.updatedAt).Success?
    ensures r.Failure? ==> r.error == DateParse
    ensures r.Success? ==>
      && r.value.orderId == o.orderId
      && r.value.positions == Some(o.positionsHash)
      && r.value.totalOrderValue.None? && r.value.numParticipatingMembers.None?
  {
    var delivery :- ParseIsoDate(o.deliveryDate);
    var created :- ParseIsoDate(o.createdAt);
    var updated :- ParseIsoDate(o.updatedAt);
    Success(Order(o.orderId, o.supplierId, delivery, created, updated,
                  o.openOrder, o.scoopMargin, o.supplierMargin,
                  Some(o.positionsHash), None, None))
  }

  /** The date columns of a parsed record hold the dates its text names, written the same way. */
  lemma ParseOrderDates(o: RawOrder)
    requires ParseOrder(o).Success?
    ensures var r := ParseOrder(o).value;
      && FormatIsoDate(r.deliveryDate) == o.deliveryDate
      && FormatIsoDate(r.createdAt) == o.createdAt
      && FormatIsoDate(r.updatedAt) == o.updatedAt
  {
    FormatParseIsoDate(o.deliveryDate);
    FormatParseIsoDate(o.createdAt);
    FormatParseIsoDate(o.updatedAt);
  }

  /** `pd.to_datetime(..., format='%Y-%m-%d')` over all records: one date the model cannot read fails the run. */
  function ParseOrders(raw: seq<RawOrder>): (r: Result<seq<Order>>)
    ensures r.Success? <==> forall i :: 0 <= i < |raw| ==> ParseOrder(raw[i]).Success?
    ensures r.Failure? ==> r.error == DateParse
    ensures r.Success? ==>
      |r.value| == |raw| && forall i :: 0 <= i < |raw| ==> r.value[i] == ParseOrder(raw[i]).value
  {
    ConvertAll(raw, ParseOrder)
  }

  /** The order IDs of the records are pairwise distinct. */
  predicate DistinctRawIds(raw: seq<RawOrder>) {
    forall i, j :: 0 <= i < |raw| && 0 <= j < |raw| && i != j ==> raw[i].orderId != raw[j].orderId
  }

  /**
   * The rows of the orders table: an empty dump has no columns to name, then
   * dates are parsed, then (since `unstack` refuses a repeated index) order
   * IDs are checked to be distinct, and the rows are sorted by ID.
   */
  function OrderRows(raw: seq<RawOrder>): (r: Result<seq<Order>>)
    ensures r.Success? <==>
      raw != [] && (forall i :: 0 <= i < |raw| ==> ParseOrder(raw[i]).Success?) && DistinctRawIds(raw)
    ensures r.Failure? ==>
      r.error == (
        if raw == [] then ColumnCountMismatch
        else if exists i :: 0 <= i < |raw| && ParseOrder(raw[i]).Failure? then DateParse
        else DuplicateOrderId)
  {
    if raw == [] then Failure(ColumnCountMismatch) else
    var parsed :- ParseOrders(raw);
    if UniqueOrderIds(parsed) then Success(SortBy(parsed, OrderIdKey)) else Failure(DuplicateOrderId)
  }

  /** Sorting rows with distinct IDs puts them in strictly ascending order of ID and keeps them all. */
  lemma SortedOrderRows(parsed: seq<Order>)
    requires UniqueOrderIds(parsed)
    ensures var rows := SortBy(parsed, OrderIdKey);
      && |rows| == |parsed|
      && AscendingOrderIds(rows)
      && (forall x :: x in rows <==> x in parsed)
  {
    assert KeysDistinct(parsed, OrderIdKey);
    SortByStrict(parsed, OrderIdKey);
    SortByMembers(parsed, OrderIdKey);
  }

  /**
   * The orders table holds one row per record, each record with its dates
   * parsed, and no other rows, in strictly ascending order of ID.
   */
  lemma OrderRowsSorted(raw: seq<RawOrder>)
    requires OrderRows(raw).Success?
    ensures var rows := OrderRows(raw).value;
      && |rows| == |raw|
      && AscendingOrderIds(rows)
      && (forall i :: 0 <= i < |raw| ==> ParseOrder(raw[i]).value in rows)
      && (forall x :: x in rows ==> exists i :: 0 <= i < |raw| && x == ParseOrder(raw[i]).value)
  {
    var parsed := ParseOrders(raw).value;
    var rows := OrderRows(raw).value;
    assert UniqueOrderIds(parsed) && rows == SortBy(parsed, OrderIdKey);
    SortedOrderRows(parsed);
    forall x | x in rows ensures exists i :: 0 <= i < |raw| && x == ParseOrder(raw[i]).value {
      var i :| 0 <= i < |parsed| && parsed[i] == x;
    }
  }

  /** `make_df_orders`: the orders table, tagged "orders". */
  method MakeDfOrders(raw: seq<RawOrder>) returns (r: Result<Frame<Order>>)
    ensures r.Failure? ==> OrderRows(raw).Failure? && r.error == OrderRows(raw).error
    ensures r.Success? ==>
      && OrderRows(raw).Success?
      && fresh(r.value) && r.value.name == "orders" && r.value.rows == OrderRows(raw).value
  {
    var rows := OrderRows(raw);
    if rows.Failure? {
      return Failure(rows.error);
    }
    var frame := new Frame("orders", rows.value);
    return Success(frame);
  }

  // ---------------------------------------------------------------------------
  // Exploding the nested maps

  /** One entry of an order's nested map, flattened into a row that carries the order ID. */
  datatype Entry<V> = Entry(orderId: int, key: string, value: V)

  /** The nested `members` map of an order (empty once the column is dropped). */
  function NestedMembers(o: Order): seq<(string, RawMember)> {
    if o.positions.Some? then o.positions.value.members else []
  }

  /** The nested `products` map of an order (empty once the column is dropped). */
  function NestedProducts(o: Order): seq<(string, RawProduct)> {
    if o.positions.Some? then o.positions.value.products else []
  }

  /** Every order still has its nested columns. */
  predicate HasPositions(orders: seq<Order>) {
    forall i :: 0 <= i < |orders| ==> orders[i].positions.Some?
  }

  /** `pd.DataFrame(map).T` with the order's ID added: one row per map entry, in map order. */
  function EntriesOf<V>(o: Order, pick: Order -> seq<(string, V)>): seq<Entry<V>> {
    var kv := pick(o);
    seq(|kv|, k requires 0 <= k < |kv| => Entry(o.orderId, kv[k].0, kv[k].1))
  }

  /** The concatenation of the flattened maps of all orders, in table order. */
  function Entries<V>(orders: seq<Order>, pick: Order -> seq<(string, V)>): seq<Entry<V>> {
    if orders == [] then []
    else Entries(orders[..|orders| - 1], pick) + EntriesOf(orders[|orders| - 1], pick)
  }

  /** The sum over all orders of the size of the picked map. */
  function EntryCount<V>(orders: seq<Order>, pick: Order -> seq<(string, V)>): nat {
    if orders == [] then 0
    else EntryCount(orders[..|orders| - 1], pick) + |pick(orders[|orders| - 1])|
  }

  /** Exploding yields exactly one row per map entry of every order. */
  lemma {:induction false} EntriesCount<V>(orders: seq<Order>, pick: Order -> seq<(string, V)>)
    ensures |Entries(orders, pick)| == EntryCount(orders, pick)
  {
    if orders != [] {
      EntriesCount(orders[..|orders| - 1], pick);
    }
  }

  /** Entry `e` is an entry of the map of order `o`, stamped with `o`'s ID. */
  ghost predicate FromOrder<V>(e: Entry<V>, o: Order, pick: Order -> seq<(string, V)>) {
    e.orderId == o.orderId && (e.key, e.value) in pick(o)
  }

  /** Every exploded row carries the ID of the order whose map it came from. */
  lemma {:induction false} EntriesComeFromOrders<V>(orders: seq<Order>, pick: Order -> seq<(string, V)>)
    ensures forall p :: 0 <= p < |Entries(orders, pick)| ==>
      exists i :: 0 <= i < |orders| && FromOrder(Entries(orders, pick)[p], orders[i], pick)
  {
    if orders != [] {
      var n := |orders| - 1;
      var init := orders[..n];
      EntriesComeFromOrders(init, pick);
      var a := Entries(init, pick);
      var b := EntriesOf(orders[n], pick);
      var e := Entries(orders, pick);
      assert e == a + b;
      forall p | 0 <= p < |e|
        ensures exists i :: 0 <= i < |orders| && FromOrder(e[p], orders[i], pick)
      {
        if p < |a| {
          assert e[p] == a[p];
          var i :| 0 <= i < |init| && FromOrder(a[p], init[i], pick);
          assert init[i] == orders[i];
        } else {
          var k := p - |a|;
          assert e[p] == b[k];
          assert pick(orders[n])[k] == (b[k].key, b[k].value);
          assert FromOrder(e[p], orders[n], pick);
        }
      }
    } else {
      assert |Entries(orders, pick)| == 0;
    }
  }

  /** Every map entry of every order appears among the exploded rows, with its order's ID. */
  lemma {:induction false} OrdersGiveEntries<V>(orders: seq<Order>, pick: Order -> seq<(string, V)>)
    ensures forall i, k :: 0 <= i < |orders| && 0 <= k < |pick(orders[i])| ==>
      Entry(orders[i].orderId, pick(orders[i])[k].0, pick(orders[i])[k].1) in Entries(orders, pick)
  {
    if orders != [] {
      var n := |orders| - 1;
      var init := orders[..n];
      OrdersGiveEntries(init, pick);
      var a := Entries(init, pick);
      var b := EntriesOf(orders[n], pick);
      assert Entries(orders, pick) == a + b;
      forall i, k | 0 <= i < |orders| && 0 <= k < |pick(orders[i])|
        ensures Entry(orders[i].orderId, pick(orders[i])[k].0, pick(orders[i])[k].1) in a + b
      {
        if i < n {
          assert init[i] == orders[i];
        } else {
          assert b[k] == Entry(orders[i].orderId, pick(orders[i])[k].0, pick(orders[i])[k].1);
        }
      }
    }
  }

  /** Exploding sorted orders yields rows grouped by ascending order ID. */
  lemma {:induction false} EntriesGroupedByOrder<V>(orders: seq<Order>, pick: Order -> seq<(string, V)>)
    requires SortedByOrderId(orders)
    ensures forall p, q :: 0 <= p <= q < |Entries(orders, pick)| ==>
      Entries(orders, pick)[p].orderId <= Entries(orders, pick)[q].orderId
  {
    if orders != [] {
      var n := |orders| - 1;
      var init := orders[..n];
      EntriesGroupedByOrder(init, pick);
      EntriesComeFromOrders(init, pick);
      var a := Entries(init, pick);
      var b := EntriesOf(orders[n], pick);
      var e := Entries(orders, pick);
      assert e == a + b;
      forall p, q | 0 <= p <= q < |e| ensures e[p].orderId <= e[q].orderId {
        if q >= |a| {
          assert e[q] == b[q - |a|];
          if p < |a| {
            assert e[p] == a[p];
            var i :| 0 <= i < |init| && FromOrder(a[p], init[i], pick);
            assert init[i] == orders[i];
          } else {
            assert e[p] == b[p - |a|];
          }
        } else {
          assert e[p] == a[p] && e[q] == a[q];
        }
      }
    }
  }

  /** The keys of a map are pairwise distinct, as those of a JSON object are. */
  predicate DistinctKeys<V>(kv: seq<(string, V)>) {
    forall k, l :: 0 <= k < |kv| && 0 <= l < |kv| && k != l ==> kv[k].0 != kv[l].0
  }

  /**
   * With distinct order IDs and distinct map keys, the pair (order ID, key)
   * identifies an exploded row: the (order_ID, product_ID) index of the
   * products table, and the (order_ID, member_ID) pair of the members table.
   */
  lemma {:induction false} EntryKeysUnique<V>(orders: seq<Order>, pick: Order -> seq<(string, V)>)
    requires UniqueOrderIds(orders)
    requires forall i :: 0 <= i < |orders| ==> DistinctKeys(pick(orders[i]))
    ensures forall p, q :: 0 <= p < |Entries(orders, pick)| && 0 <= q < |Entries(orders, pick)| && p != q ==>
      (Entries(orders, pick)[p].orderId, Entries(orders, pick)[p].key)
      != (Entries(orders, pick)[q].orderId, Entries(orders, pick)[q].key)
  {
    if orders != [] {
      var n := |orders| - 1;
      var init := orders[..n];
      EntryKeysUnique(init, pick);
      EntriesComeFromOrders(init, pick);
      var a := Entries(init, pick);
      var b := EntriesOf(orders[n], pick);
      var e := Entries(orders, pick);
      assert e == a + b;
      forall p, q | 0 <= p < |e| && 0 <= q < |e| && p != q && p < q
        ensures (e[p].orderId, e[p].key) != (e[q].orderId, e[q].key)
      {
        if q < |a| {
          assert e[p] == a[p] && e[q] == a[q];
        } else if p < |a| {
          assert e[p] == a[p] && e[q] == b[q - |a|];
          var i :| 0 <= i < |init| && FromOrder(a[p], init[i], pick);
          assert init[i] == orders[i];
        } else {
          assert e[p] == b[p - |a|] && e[q] == b[q - |a|];
        }
      }
    }
  }

  /** The loop of `make_df_members`: concatenate each order's flattened `members` map. */
  method ExplodeMembers(orders: seq<Order>) returns (entries: seq<Entry<RawMember>>)
    requires HasPositions(orders)
    ensures entries == Entries(orders, NestedMembers)
  {
    entries := [];
    for i := 0 to |orders|
      invariant entries == Entries(orders[..i], NestedMembers)
    {
      assert orders[..i + 1][..i] == orders[..i];
      var order := EntriesOf(orders[i], NestedMembers);
      entries := entries + order;
    }
    assert orders[..|orders|] == orders;
  }

  /** The loop of `make_df_products`: concatenate each order's flattened `products` map. */
  method ExplodeProducts(orders: seq<Order>) returns (entries: seq<Entry<RawProduct>>)
    requires HasPositions(orders)
    ensures entries == Entries(orders, NestedProducts)
  {
    entries := [];
    for row := 0 to |orders|
      invariant entries == Entries(orders[..row], NestedProducts)
    {
      assert orders[..row + 1][..row] == orders[..row];
      var order := EntriesOf(orders[row], NestedProducts);
      entries := entries + order;
    }
    assert orders[..|orders|] == orders;
  }

  // ---------------------------------------------------------------------------
  // The members table

  /** `index.astype('int')`: every member key read as an integer. */
  function MemberIds(entries: seq<Entry<RawMember>>): (r: Result<seq<int>>)
    ensures r.Success? <==> forall p :: 0 <= p < |entries| ==> ParseInt(entries[p].key).Some?
    ensures r.Failure? ==> r.error == IntParse
    ensures r.Success? ==>
      |r.value| == |entries| && forall p :: 0 <= p < |entries| ==> r.value[p] == ParseInt(entries[p].key).value
  {
    if entries == [] then Success([])
    else
      match ParseInt(entries[0].key)
      case None => Failure(IntParse)
      case Some(id) =>
        var rest :- MemberIds(entries[1..]);
        Success([id] + rest)
  }

  /**
   * The member rows: integer member IDs, `collected?` as a boolean. With no
   * rows at all there is no `collected?` column to convert.
   */
  function MemberRows(entries: seq<Entry<RawMember>>): (r: Result<seq<Member>>)
    ensures r.Success? <==>
      |entries| > 0 && forall p :: 0 <= p < |entries| ==> ParseInt(entries[p].key).Some?
    ensures r.Failure? ==>
      r.error == (if MemberIds(entries).Failure? then IntParse else MissingColumn("collected?"))
    ensures r.Success? ==> |r.value| == |entries| && forall p :: 0 <= p < |entries| ==>
      var m := r.value[p];
      && m.memberId == ParseInt(entries[p].key).value
      && m.orderId == entries[p].orderId
      && m.collected == Truthy(entries[p].value.collected)
      && m.orderRequests == entries[p].value.orderRequests
      && m.deliveryDate.None? && m.orderRequestValue.None?
  {
    var ids :- MemberIds(entries);
    if |entries| == 0 then Failure(MissingColumn("collected?"))
    else
      Success(seq(|entries|, p requires 0 <= p < |entries| =>
        Member(ids[p], entries[p].orderId, Truthy(entries[p].value.collected),
               entries[p].value.orderRequests, None, None)))
  }

  /** Member keys written as decimal integers are read back as those integers. */
  lemma MemberIdsRoundTrip(entries: seq<Entry<RawMember>>, ids: seq<int>)
    requires |ids| == |entries|
    requires forall p :: 0 <= p < |entries| ==> entries[p].key == FormatInt(ids[p])
    ensures MemberIds(entries) == Success(ids)
  {
    forall p | 0 <= p < |entries| ensures ParseInt(entries[p].key) == Some(ids[p]) {
      ParseFormatInt(ids[p]);
    }
    var r := MemberIds(entries);
    assert r.Success?;
    assert forall p :: 0 <= p < |ids| ==> r.value[p] == ids[p];
    assert r.value == ids;
    assert r == Success(r.value);
  }

  /** `make_df_members`: explode, convert, tag "members". */
  method MakeDfMembers(orders: seq<Order>) returns (r: Result<Frame<Member>>)
    requires HasPositions(orders)
    ensures r.Failure? ==>
      MemberRows(Entries(orders, NestedMembers)).Failure?
      && r.error == MemberRows(Entries(orders, NestedMembers)).error
    ensures r.Success? ==>
      && MemberRows(Entries(orders, NestedMembers)).Success?
      && fresh(r.value) && r.value.name == "members"
      && r.value.rows == MemberRows(Entries(orders, NestedMembers)).value
  {
    var entries := ExplodeMembers(orders);
    var rows := MemberRows(entries);
    if rows.Failure? {
      return Failure(rows.error);
    }
    var frame := new Frame("members", rows.value);
    return Success(frame);
  }

  // ---------------------------------------------------------------------------
  // The products table

  /** A decimal-comma cell after `replace(',', '.')` and `replace('', nan)`; None is NaN. */
  function DecimalCommaCell(s: string): (c: Option<string>)
    ensures c.None? <==> s == ""
    ensures c.Some? ==> |c.value| == |s| && ',' !in c.value
    ensures c.Some? ==> forall k :: 0 <= k < |s| && s[k] != ',' ==> c.value[k] == s[k]
  {
    var t := ReplaceCommas(s);
    if t == "" then None else Some(t)
  }

  /** A decimal-comma cell cast to `float`: NaN stays missing, other text must be a number. */
  function FloatCell(s: string): (r: Result<Option<real>>)
    ensures r.Failure? ==> r.error == FloatParse
    ensures r.Success? && r.value.None? <==> s == ""
    ensures s != "" ==> (r.Success? <==> ParseDecimal(ReplaceCommas(s)).Some?)
  {
    match DecimalCommaCell(s)
    case None => Success(None)
    case Some(t) =>
      match ParseDecimal(t)
      case None => Failure(FloatParse)
      case Some(x) => Success(Some(x))
  }

  /** A price written with a decimal comma, such as "12,05", is read as that amount. */
  lemma FloatCellCommaCents(cents: nat)
    ensures FloatCell(CommaCentsText(cents)) == Success(Some(cents as real / 100.0))
  {
    ParseCommaCents(cents);
  }

  /** One product row: the five numeric columns as floats, `supplier_code` only comma-replaced. */
  function ProductRow(e: Entry<RawProduct>): (r: Result<Product>)
    ensures r.Failure? ==> r.error == FloatParse
    ensures r.Success? <==>
      && FloatCell(e.value.taxRate).Success? && FloatCell(e.value.netPrice).Success?
      && FloatCell(e.value.bundleSize).Success? && FloatCell(e.value.amountOrdered).Success?
      && FloatCell(e.value.bundlesOrdered).Success?
    ensures r.Success? ==>
      && r.value.orderId == e.orderId && r.value.productId == e.key
      && r.value.taxRate == FloatCell(e.value.taxRate).value
      && r.value.netPrice == FloatCell(e.value.netPrice).value
      && r.value.bundleSize == FloatCell(e.value.bundleSize).value
      && r.value.supplierCode == DecimalCommaCell(e.value.supplierCode)
      && r.value.amountOrdered == FloatCell(e.value.amountOrdered).value
      && r.value.bundlesOrdered == FloatCell(e.value.bundlesOrdered).value
      && r.value.netTotalPrice.None?
  {
    var p := e.value;
    var taxRate :- FloatCell(p.taxRate);
    var netPrice :- FloatCell(p.netPrice);
    var bundleSize :- FloatCell(p.bundleSize);
    var amountOrdered :- FloatCell(p.amountOrdered);
    var bundlesOrdered :- FloatCell(p.bundlesOrdered);
    Success(Product(e.orderId, e.key, taxRate, netPrice, bundleSize,
                    DecimalCommaCell(p.supplierCode), amountOrdered, bundlesOrdered, None))
  }

  /** `astype` over the whole table: the first row that does not convert fails the run. */
  function ConvertProductRows(entries: seq<Entry<RawProduct>>): (r: Result<seq<Product>>)
    ensures r.Success? <==> forall p :: 0 <= p < |entries| ==> ProductRow(entries[p]).Success?
    ensures r.Failure? ==> r.error == FloatParse
    ensures r.Success? ==>
      |r.value| == |entries| && forall p :: 0 <= p < |entries| ==> r.value[p] == ProductRow(entries[p]).value
  {
    ConvertAll(entries, ProductRow)
  }

  /** The product rows; with no rows at all there is no `tax_rate` column to select. */
  function ProductRows(entries: seq<Entry<RawProduct>>): (r: Result<seq<Product>>)
    ensures r.Success? <==>
      |entries| > 0 && forall p :: 0 <= p < |entries| ==> ProductRow(entries[p]).Success?
    ensures r.Failure? ==> r.error == (if |entries| == 0 then MissingColumn("tax_rate") else FloatParse)
    ensures r.Success? ==>
      |r.value| == |entries| && forall p :: 0 <= p < |entries| ==> r.value[p] == ProductRow(entries[p]).value
  {
    if |entries| == 0 then Failure(MissingColumn("tax_rate"))
    else ConvertProductRows(entries)
  }

  /** `make_df_products`: explode, convert, tag "products". */
  method MakeDfProducts(orders: seq<Order>) returns (r: Result<Frame<Product>>)
    requires HasPositions(orders)
    ensures r.Failure? ==>
      ProductRows(Entries(orders, NestedProducts)).Failure?
      && r.error == ProductRows(Entries(orders, NestedProducts)).error
    ensures r.Success? ==>
      && ProductRows(Entries(orders, NestedProducts)).Success?
      && fresh(r.value) && r.value.name == "products"
      && r.value.rows == ProductRows(Entries(orders, NestedProducts)).value
  {
    var entries := ExplodeProducts(orders);
    var rows := ProductRows(entries);
    if rows.Failure? {
      return Failure(rows.error);
    }
    var frame := new Frame("products", rows.value);
    return Success(frame);
  }

  // ---------------------------------------------------------------------------
  // make_dataframes

  /** `drop(['members', 'products'], axis=1, inplace=True)`: nothing else changes. */
  method DropNestedColumns(orders: Frame<Order>)
    modifies orders
    ensures orders.name == old(orders.name)
    ensures orders.rows == WithoutNested(old(orders.rows))
  {
    var rows := orders.rows;
    orders.rows := seq(|rows|, i requires 0 <= i < |rows| => rows[i].(positions := None));
  }

  /** The orders rows without their nested `members` and `products` columns. */
  function WithoutNested(rows: seq<Order>): (r: seq<Order>)
    ensures |r| == |rows|
    ensures forall i :: 0 <= i < |rows| ==> r[i] == rows[i].(positions := None)
  {
    seq(|rows|, i requires 0 <= i < |rows| => rows[i].(positions := None))
  }

  /** The three tables the pipeline returns. */
  datatype Tables = Tables(orders: Frame<Order>, members: Frame<Member>, products: Frame<Product>)

  /** The rows of the three tables as they are first built (nested columns still present). */
  datatype TableRows = TableRows(orders: seq<Order>, members: seq<Member>, products: seq<Product>)

  /**
   * The tables `make_df_orders`, `make_df_members` and `make_df_products`
   * build, in that order: the first of them that fails fails the whole.
   */
  function InitialRows(raw: seq<RawOrder>): (r: Result<TableRows>)
    ensures r.Success? <==>
      && OrderRows(raw).Success?
      && MemberRows(Entries(OrderRows(raw).value, NestedMembers)).Success?
      && ProductRows(Entries(OrderRows(raw).value, NestedProducts)).Success?
    ensures r.Failure? ==>
      r.error == (if OrderRows(raw).Failure? then OrderRows(raw).error
                  else if MemberRows(Entries(OrderRows(raw).value, NestedMembers)).Failure?
                  then MemberRows(Entries(OrderRows(raw).value, NestedMembers)).error
                  else ProductRows(Entries(OrderRows(raw).value, NestedProducts)).error)
    ensures r.Success? ==>
      && r.value.orders == OrderRows(raw).value
      && AscendingOrderIds(r.value.orders)
      && |r.value.members| == EntryCount(r.value.orders, NestedMembers)
      && |r.value.products| == EntryCount(r.value.orders, NestedProducts)
  {
    var orders :- OrderRows(raw);
    var members :- MemberRows(Entries(orders, NestedMembers));
    var products :- ProductRows(Entries(orders, NestedProducts));
    OrderRowsSorted(raw);
    EntriesCount(orders, NestedMembers);
    EntriesCount(orders, NestedProducts);
    Success(TableRows(orders, members, products))
  }

  /**
   * The first half of `make_dataframes`: the three tables built and the
   * nested columns dropped from the orders table.
   */
  method InitializeDataframes(raw: seq<RawOrder>) returns (r: Result<Tables>)
    ensures r.Success? <==> InitialRows(raw).Success?
    ensures r.Failure? ==> r.error == InitialRows(raw).error
    ensures r.Success? ==>
      var t, b := r.value, InitialRows(raw).value;
      && fresh(t.orders) && fresh(t.members) && fresh(t.products)
      && t.orders.name == "orders" && t.members.name == "members" && t.products.name == "products"
      && t.orders.rows == WithoutNested(b.orders)
      && t.members.rows == b.members
      && t.products.rows == b.products
  {
    var ordersResult := MakeDfOrders(raw);
    if ordersResult.Failure? {
      return Failure(ordersResult.error);
    }
    var orders := ordersResult.value;
    ghost var rows := orders.rows;
    OrderRowsSorted(raw);
    assert HasPositions(rows) by {
      forall i | 0 <= i < |rows| ensures rows[i].positions.Some? {
        assert rows[i] in rows;
      }
    }
    var membersResult := MakeDfMembers(orders.rows);
    if membersResult.Failure? {
      return Failure(membersResult.error);
    }
    var productsResult := MakeDfProducts(orders.rows);
    if productsResult.Failure? {
      return Failure(productsResult.error);
    }
    DropNestedColumns(orders);
    return Success(Tables(orders, membersResult.value, productsResult.value));
  }

  /** The first-stage member rows joined with their orders' delivery dates. */
  function JoinedRows(b: TableRows): seq<Member> {
    Features.JoinDeliveryDate(b.members, WithoutNested(b.orders))
  }

  /**
   * `make_dataframes`: build the three tables, drop the nested columns and
   * add the derived columns. It succeeds iff the tables build and every
   * joined member row has an order request value; otherwise it fails with
   * the first stage's error, or with the first member row's lookup error.
   */
  method MakeDataframes(raw: seq<RawOrder>) returns (r: Result<Tables>)
    ensures r.Success? <==>
      && InitialRows(raw).Success?
      && var b := InitialRows(raw).value; var joined := JoinedRows(b);
         forall i :: 0 <= i < |joined| ==>
           Features.OrderRequestValue(joined[i].orderId, joined[i].orderRequests, Features.WithLineTotals(b.products)).Success?
    ensures r.Failure? && InitialRows(raw).Failure? ==> r.error == InitialRows(raw).error
    ensures r.Failure? && InitialRows(raw).Success? ==>
      var b := InitialRows(raw).value;
      exists k :: Features.FirstFailure(JoinedRows(b), Features.WithLineTotals(b.products), k, r.error)
    ensures r.Success? ==>
      var t, b := r.value, InitialRows(raw).value;
      var orders, joined := WithoutNested(b.orders), JoinedRows(b);
      && t.orders.name == "orders" && t.members.name == "members" && t.products.name == "products"
      && t.products.rows == Features.WithLineTotals(b.products)
      && |t.orders.rows| == |orders|
      && AscendingOrderIds(t.orders.rows)
      && (forall i :: 0 <= i < |orders| ==>
            t.orders.rows[i] == orders[i].(
              totalOrderValue := Features.TotalOrderValue(orders[i].orderId, t.products.rows),
              numParticipatingMembers := Features.NumParticipatingMembers(orders[i].orderId, joined)))
      && |t.members.rows| == |joined|
      && Features.ValuedBefore(t.members.rows, joined, t.products.rows, |joined|)
  {
    var tables := InitializeDataframes(raw);
    if tables.Failure? {
      return Failure(tables.error);
    }
    var orders, members, products := tables.value.orders, tables.value.members, tables.value.products;
    ghost var b := InitialRows(raw).value;
    ghost var joined := JoinedRows(b);
    ghost var before := orders.rows;
    assert AscendingOrderIds(before) by {
      forall i, j | 0 <= i < j < |before| ensures before[i].orderId < before[j].orderId {
        assert before[i].orderId == b.orders[i].orderId && before[j].orderId == b.orders[j].orderId;
      }
    }
    var featured := Features.AddFeatures(orders, members, products);
    assert products.rows == Features.WithLineTotals(b.products);
    if featured.Failure? {
      assert !forall i :: 0 <= i < |joined| ==>
        Features.OrderRequestValue(joined[i].orderId, joined[i].orderRequests, products.rows).Success?;
      return Failure(featured.error);
    }
    assert AscendingOrderIds(orders.rows) by {
      forall i, j | 0 <= i < j < |orders.rows| ensures orders.rows[i].orderId < orders.rows[j].orderId {
        assert orders.rows[i].orderId == before[i].orderId && orders.rows[j].orderId == before[j].orderId;
      }
    }
    return Success(Tables(orders, featured.value, products));
  }
}
