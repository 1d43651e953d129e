/**
 * The derived columns: each product's line total, each member row's delivery
 * date (a left join on the order ID), each order's rounded total and number
 * of participating members, and each member row's order request value.
 */
module Features {
  import opened Wrappers
  import opened Text
  import opened Money
  import opened Calendar
  import opened Frames

  // ---------------------------------------------------------------------------
  // net_total_price

  /** `net_price * amount_ordered`; NaN if either is NaN. */
  function NetTotalPrice(p: Product): (t: Option<real>)
    ensures t.Some? <==> p.netPrice.Some? && p.amountOrdered.Some?
  {
    if p.netPrice.Some? && p.amountOrdered.Some? then Some(p.netPrice.value * p.amountOrdered.value) else None
  }

  /** Adds the `net_total_price` column to the products table in place; nothing else changes. */
  method AddNetTotalPrice(products: Frame<Product>)
    modifies products
    ensures products.name == old(products.name)
    ensures products.rows == WithLineTotals(old(products.rows))
  {
    var rows := products.rows;
    products.rows := seq(|rows|, i requires 0 <= i < |rows| => rows[i].(netTotalPrice := NetTotalPrice(rows[i])));
  }

  /** The product rows, each with its line total. */
  function WithLineTotals(rows: seq<Product>): (r: seq<Product>)
    ensures |r| == |rows|
    ensures forall i :: 0 <= i < |rows| ==> r[i] == rows[i].(netTotalPrice := NetTotalPrice(rows[i]))
  {
    seq(|rows|, i requires 0 <= i < |rows| => rows[i].(netTotalPrice := NetTotalPrice(rows[i])))
  }

  // ---------------------------------------------------------------------------
  // The delivery date join

  /** The first order with ID `orderId`, if there is one. */
  function OrderWithId(orderId: int, orders: seq<Order>): (r: Option<Order>)
    ensures r.None? <==> forall i :: 0 <= i < |orders| ==> orders[i].orderId != orderId
    ensures r.Some? ==> r.value in orders && r.value.orderId == orderId
  {
    if orders == [] then None
    else if orders[0].orderId == orderId then Some(orders[0])
    else OrderWithId(orderId, orders[1..])
  }

  /** The delivery date the join gives a member row of order `orderId`; None (NaT) without a match. */
  function DeliveryDateOf(orderId: int, orders: seq<Order>): Option<ValidDate> {
    match OrderWithId(orderId, orders)
    case None => None
    case Some(o) => Some(o.deliveryDate)
  }

  /** With distinct IDs, each order is the one found for its own ID. */
  lemma DeliveryDateOfOrder(orders: seq<Order>, j: int)
    requires UniqueOrderIds(orders)
    requires 0 <= j < |orders|
    ensures DeliveryDateOf(orders[j].orderId, orders) == Some(orders[j].deliveryDate)
  {
    var o := OrderWithId(orders[j].orderId, orders).value;
    var i :| 0 <= i < |orders| && orders[i] == o;
  }

  /** The orders with ID `orderId`, in table order. */
  function OrdersWithId(orderId: int, orders: seq<Order>): (r: seq<Order>)
    ensures forall o :: o in r <==> o in orders && o.orderId == orderId
  {
    if orders == [] then []
    else (if orders[0].orderId == orderId then [orders[0]] else []) + OrdersWithId(orderId, orders[1..])
  }

  /** The rows a left merge makes of one member row: one per matching order, or one with NaT. */
  function JoinRow(m: Member, orders: seq<Order>): (r: seq<Member>)
    ensures |r| >= 1
    ensures forall x :: x in r ==> x == m.(deliveryDate := x.deliveryDate)
  {
    var matches := OrdersWithId(m.orderId, orders);
    if matches == [] then [m.(deliveryDate := None)]
    else seq(|matches|, k requires 0 <= k < |matches| => m.(deliveryDate := Some(matches[k].deliveryDate)))
  }

  /** `members.merge(orders['delivery_date'], how='left', on='order_ID')`, keeping member order. */
  function JoinDeliveryDate(members: seq<Member>, orders: seq<Order>): (r: seq<Member>)
    ensures |r| >= |members|
  {
    if members == [] then [] else JoinRow(members[0], orders) + JoinDeliveryDate(members[1..], orders)
  }

  /** Whatever the orders, every joined row is a member row with only its delivery date set. */
  lemma {:induction false} JoinRowsFromMembers(members: seq<Member>, orders: seq<Order>)
    ensures forall x :: x in JoinDeliveryDate(members, orders) ==>
      exists m :: m in members && x == m.(deliveryDate := x.deliveryDate)
  {
    if members != [] {
      JoinRowsFromMembers(members[1..], orders);
      var first, rest := JoinRow(members[0], orders), JoinDeliveryDate(members[1..], orders);
      assert JoinDeliveryDate(members, orders) == first + rest;
      forall x: Member | x in first + rest
        ensures exists m: Member :: m in members && x == m.(deliveryDate := x.deliveryDate)
      {
        if x in first {
          assert members[0] in members;
        } else {
          var m: Member :| m in members[1..] && x == m.(deliveryDate := x.deliveryDate);
          assert m in members;
        }
      }
    }
  }

  /** With distinct order IDs at most one order matches, the first one found. */
  lemma {:induction false} OrdersWithIdUnique(orderId: int, orders: seq<Order>)
    requires UniqueOrderIds(orders)
    ensures OrdersWithId(orderId, orders) ==
      (if OrderWithId(orderId, orders).Some? then [OrderWithId(orderId, orders).value] else [])
  {
    if orders != [] {
      assert UniqueOrderIds(orders[1..]);
      OrdersWithIdUnique(orderId, orders[1..]);
      if orders[0].orderId == orderId {
        assert forall i :: 0 <= i < |orders[1..]| ==> orders[1..][i].orderId != orderId by {
          forall i | 0 <= i < |orders[1..]| ensures orders[1..][i].orderId != orderId {
            assert orders[1..][i] == orders[i + 1];
          }
        }
      }
    }
  }

  /**
   * Order IDs being unique, the join keeps the number and order of member
   * rows and gives each the delivery date of its order (NaT without one).
   */
  lemma {:induction false} JoinKeepsRows(members: seq<Member>, orders: seq<Order>)
    requires UniqueOrderIds(orders)
    ensures |JoinDeliveryDate(members, orders)| == |members|
    ensures forall i :: 0 <= i < |members| ==>
      JoinDeliveryDate(members, orders)[i] == members[i].(deliveryDate := DeliveryDateOf(members[i].orderId, orders))
  {
    if members != [] {
      var m := members[0];
      JoinKeepsRows(members[1..], orders);
      OrdersWithIdUnique(m.orderId, orders);
      assert JoinRow(m, orders) == [m.(deliveryDate := DeliveryDateOf(m.orderId, orders))];
      var j := JoinDeliveryDate(members, orders);
      assert j == JoinRow(m, orders) + JoinDeliveryDate(members[1..], orders);
      forall i | 0 <= i < |members|
        ensures j[i] == members[i].(deliveryDate := DeliveryDateOf(members[i].orderId, orders))
      {
        if i > 0 {
          assert j[i] == JoinDeliveryDate(members[1..], orders)[i - 1];
          assert members[1..][i - 1] == members[i];
        }
      }
    }
  }

  // ---------------------------------------------------------------------------
  // total_order_value

  /** The product rows of order `orderId`, in table order. */
  function ProductsOfOrder(orderId: int, products: seq<Product>): (r: seq<Product>)
    ensures forall p :: p in r <==> p in products && p.orderId == orderId
  {
    if products == [] then []
    else (if products[0].orderId == orderId then [products[0]] else []) + ProductsOfOrder(orderId, products[1..])
  }

  /** The group sum of `net_total_price`: NaN values are skipped. */
  function SumNetTotals(ps: seq<Product>): real {
    if ps == [] then 0.0
    else (if ps[0].netTotalPrice.Some? then ps[0].netTotalPrice.value else 0.0) + SumNetTotals(ps[1..])
  }

  /** A product row whose line total is missing or a whole number of cents. */
  predicate CentsTotal(p: Product) {
    p.netTotalPrice.Some? ==> IsCents(p.netTotalPrice.value)
  }

  /** The order's `total_order_value`: its rows' line totals summed and rounded; NaN without rows. */
  function TotalOrderValue(orderId: int, products: seq<Product>): (v: Option<real>)
    ensures v.None? <==> forall p :: p in products ==> p.orderId != orderId
    ensures v.Some? ==> IsCents(v.value)
    ensures v.Some? ==> -0.005 <= v.value - SumNetTotals(ProductsOfOrder(orderId, products)) <= 0.005
  {
    var ps := ProductsOfOrder(orderId, products);
    if ps == [] then None
    else
      assert ps[0] in ps;
      Some(Round2(SumNetTotals(ps)))
  }

  lemma CentsAdd(a: real, b: real)
    requires IsCents(a) && IsCents(b)
    ensures IsCents(a + b)
  {
    var n := (a * 100.0).Floor + (b * 100.0).Floor;
    assert (a + b) * 100.0 == n as real;
  }

  lemma {:induction false} SumOfCents(ps: seq<Product>)
    requires forall p :: p in ps ==> CentsTotal(p)
    ensures IsCents(SumNetTotals(ps))
  {
    if ps != [] {
      assert ps[0] in ps;
      assert forall p :: p in ps[1..] ==> p in ps;
      SumOfCents(ps[1..]);
      var head := if ps[0].netTotalPrice.Some? then ps[0].netTotalPrice.value else 0.0;
      assert IsCents(head);
      CentsAdd(head, SumNetTotals(ps[1..]));
    }
  }

  /** When the line totals are whole cents, rounding changes nothing: the total is the exact sum. */
  lemma TotalOrderValueExact(orderId: int, products: seq<Product>)
    requires forall p :: p in products ==> CentsTotal(p)
    requires exists p :: p in products && p.orderId == orderId
    ensures TotalOrderValue(orderId, products) == Some(SumNetTotals(ProductsOfOrder(orderId, products)))
  {
    var ps := ProductsOfOrder(orderId, products);
    SumOfCents(ps);
    Round2Exact(SumNetTotals(ps));
  }

  /** Adds `total_order_value` to the orders table in place; nothing else changes. */
  method AddTotalOrderValue(orders: Frame<Order>, products: seq<Product>)
    modifies orders
    ensures orders.name == old(orders.name)
    ensures |orders.rows| == |old(orders.rows)|
    ensures forall i :: 0 <= i < |orders.rows| ==>
      orders.rows[i] == old(orders.rows[i]).(totalOrderValue := TotalOrderValue(old(orders.rows[i]).orderId, products))
  {
    var rows := orders.rows;
    orders.rows := seq(|rows|, i requires 0 <= i < |rows| =>
      rows[i].(totalOrderValue := TotalOrderValue(rows[i].orderId, products)));
  }

  // ---------------------------------------------------------------------------
  // num_participating_members

  /** The number of member rows of order `orderId`. */
  function CountMembersOf(orderId: int, members: seq<Member>): nat {
    if members == [] then 0
    else
      var last := members[|members| - 1];
      CountMembersOf(orderId, members[..|members| - 1]) + (if last.orderId == orderId then 1 else 0)
  }

  lemma {:induction false} CountMembersOfZero(orderId: int, members: seq<Member>)
    ensures CountMembersOf(orderId, members) == 0 <==> forall m :: m in members ==> m.orderId != orderId
  {
    if members != [] {
      var n := |members| - 1;
      CountMembersOfZero(orderId, members[..n]);
      assert members == members[..n] + [members[n]];
    }
  }

  /** The group size aligned onto the orders table: NaN for an order without member rows. */
  function NumParticipatingMembers(orderId: int, members: seq<Member>): (n: Option<nat>)
    ensures n.None? <==> forall m :: m in members ==> m.orderId != orderId
    ensures n.Some? ==> n.value >= 1
  {
    CountMembersOfZero(orderId, members);
    var count := CountMembersOf(orderId, members);
    if count == 0 then None else Some(count)
  }

  /** The participant counts summed over a list of orders, NaN counted as 0. */
  function ParticipantTotal(orders: seq<Order>, members: seq<Member>): nat {
    if orders == [] then 0
    else CountMembersOf(orders[0].orderId, members) + ParticipantTotal(orders[1..], members)
  }

  /** How many of `orders` have ID `orderId`. */
  function IdCount(orders: seq<Order>, orderId: int): nat {
    if orders == [] then 0
    else (if orders[0].orderId == orderId then 1 else 0) + IdCount(orders[1..], orderId)
  }

  lemma {:induction false} IdCountZero(orders: seq<Order>, orderId: int)
    requires forall i :: 0 <= i < |orders| ==> orders[i].orderId != orderId
    ensures IdCount(orders, orderId) == 0
  {
    if orders != [] {
      assert forall i :: 0 <= i < |orders[1..]| ==> orders[1..][i] == orders[i + 1];
      IdCountZero(orders[1..], orderId);
    }
  }

  lemma {:induction false} IdCountOne(orders: seq<Order>, orderId: int, j: int)
    requires UniqueOrderIds(orders)
    requires 0 <= j < |orders| && orders[j].orderId == orderId
    ensures IdCount(orders, orderId) == 1
  {
    assert forall i :: 0 <= i < |orders[1..]| ==> orders[1..][i] == orders[i + 1];
    if j == 0 {
      IdCountZero(orders[1..], orderId);
    } else {
      IdCountOne(orders[1..], orderId, j - 1);
    }
  }

  lemma {:induction false} ParticipantTotalStep(orders: seq<Order>, members: seq<Member>, m: Member)
    ensures ParticipantTotal(orders, members + [m]) == ParticipantTotal(orders, members) + IdCount(orders, m.orderId)
  {
    assert (members + [m])[..|members|] == members;
    if orders != [] {
      ParticipantTotalStep(orders[1..], members, m);
    }
  }

  /**
   * Order IDs being unique and every member row belonging to an order, the
   * participant counts of all orders add up to the number of member rows.
   */
  lemma {:induction false} ParticipantsPartitionMembers(orders: seq<Order>, members: seq<Member>)
    requires UniqueOrderIds(orders)
    requires forall k :: 0 <= k < |members| ==> exists i :: 0 <= i < |orders| && orders[i].orderId == members[k].orderId
    ensures ParticipantTotal(orders, members) == |members|
  {
    if members == [] {
      ParticipantTotalZero(orders);
    } else {
      var n := |members| - 1;
      var m := members[n];
      assert members == members[..n] + [m];
      ParticipantsPartitionMembers(orders, members[..n]);
      ParticipantTotalStep(orders, members[..n], m);
      var i :| 0 <= i < |orders| && orders[i].orderId == m.orderId;
      IdCountOne(orders, m.orderId, i);
    }
  }

  lemma {:induction false} ParticipantTotalZero(orders: seq<Order>)
    ensures ParticipantTotal(orders, []) == 0
  {
    if orders != [] {
      ParticipantTotalZero(orders[1..]);
    }
  }

  /** Adds `num_participating_members` to the orders table in place; nothing else changes. */
  method AddNumParticipatingMembers(orders: Frame<Order>, members: seq<Member>)
    modifies orders
    ensures orders.name == old(orders.name)
    ensures |orders.rows| == |old(orders.rows)|
    ensures forall i :: 0 <= i < |orders.rows| ==>
      orders.rows[i] == old(orders.rows[i]).(numParticipatingMembers := NumParticipatingMembers(old(orders.rows[i]).orderId, members))
  {
    var rows := orders.rows;
    orders.rows := seq(|rows|, i requires 0 <= i < |rows| =>
      rows[i].(numParticipatingMembers := NumParticipatingMembers(rows[i].orderId, members)));
  }

  // ---------------------------------------------------------------------------
  // order_request_value

  lemma ReplaceCommasBlank(s: string)
    ensures IsBlank(ReplaceCommas(s)) <==> IsBlank(s)
  {
    var t := ReplaceCommas(s);
    assert forall i :: 0 <= i < |s| ==> (IsSpace(t[i]) <==> IsSpace(s[i]));
  }

  /** A `filled` amount: decimal comma read as a point, blank or whitespace-only text read as 0. */
  function FilledAmount(s: string): (a: Option<real>)
    ensures IsBlank(s) ==> a == Some(0.0)
    ensures !IsBlank(s) ==> a == ParseDecimal(ReplaceCommas(s))
  {
    ReplaceCommasBlank(s);
    var t := ReplaceCommas(s);
    if IsBlank(t) then Some(0.0) else ParseDecimal(t)
  }

  /** A filled amount written with a decimal comma, such as "1,50", is read as that amount. */
  lemma FilledAmountCommaCents(cents: nat)
    ensures FilledAmount(CommaCentsText(cents)) == Some(cents as real / 100.0)
  {
    var s := CommaCentsText(cents);
    assert s[|s| - 3] == ',';
    assert !IsBlank(s);
    ParseCommaCents(cents);
  }

  /**
   * `df_products.loc[(order_ID, product_ID), 'net_price']` for one product:
   * None when the products table has no such row (a KeyError), otherwise
   * that row's price, which may itself be NaN.
   */
  function NetPriceOf(orderId: int, productId: string, products: seq<Product>): (r: Option<Option<real>>)
    ensures r.None? <==> forall p :: p in products ==> p.orderId != orderId || p.productId != productId
    ensures r.Some? ==> exists p :: p in products && p.orderId == orderId && p.productId == productId && p.netPrice == r.value
  {
    if products == [] then None
    else if products[0].orderId == orderId && products[0].productId == productId then Some(products[0].netPrice)
    else NetPriceOf(orderId, productId, products[1..])
  }

  /** The `filled` column of the requests as floats, or None when one does not convert. */
  function FilledAmounts(requests: seq<OrderRequest>): (r: Option<seq<real>>)
    ensures r.Some? <==> forall k :: 0 <= k < |requests| ==> FilledAmount(requests[k].filled).Some?
    ensures r.Some? ==> |r.value| == |requests|
    ensures r.Some? ==> forall k :: 0 <= k < |requests| ==> r.value[k] == FilledAmount(requests[k].filled).value
  {
    if requests == [] then Some([])
    else
      match FilledAmount(requests[0].filled)
      case None => None
      case Some(a) =>
        match FilledAmounts(requests[1..])
        case None => None
        case Some(rest) => Some([a] + rest)
  }

  /** The net prices of the requested products, or None when one is not a product of the order. */
  function NetPrices(orderId: int, requests: seq<OrderRequest>, products: seq<Product>): (r: Option<seq<Option<real>>>)
    ensures r.Some? <==> forall k :: 0 <= k < |requests| ==> NetPriceOf(orderId, requests[k].productId, products).Some?
    ensures r.Some? ==> |r.value| == |requests|
    ensures r.Some? ==> forall k :: 0 <= k < |requests| ==>
      r.value[k] == NetPriceOf(orderId, requests[k].productId, products).value
  {
    if requests == [] then Some([])
    else
      match NetPriceOf(orderId, requests[0].productId, products)
      case None => None
      case Some(price) =>
        match NetPrices(orderId, requests[1..], products)
        case None => None
        case Some(rest) => Some([price] + rest)
  }

  /** `np.sum(net_price * filled_amount)`: a NaN price makes a NaN product, which the sum skips. */
  function WeightedSum(prices: seq<Option<real>>, amounts: seq<real>): real
    requires |prices| == |amounts|
  {
    if prices == [] then 0.0
    else (if prices[0].Some? then prices[0].value * amounts[0] else 0.0) + WeightedSum(prices[1..], amounts[1..])
  }

  /**
   * The weighted sum adds up part by part, and a requested product without
   * a price (NaN) adds nothing.
   */
  lemma {:induction false} WeightedSumAppend(p1: seq<Option<real>>, a1: seq<real>, p2: seq<Option<real>>, a2: seq<real>)
    requires |p1| == |a1| && |p2| == |a2|
    ensures WeightedSum(p1 + p2, a1 + a2) == WeightedSum(p1, a1) + WeightedSum(p2, a2)
    ensures WeightedSum([None], [0.0]) == 0.0
  {
    if p1 != [] {
      assert (p1 + p2)[1..] == p1[1..] + p2;
      assert (a1 + a2)[1..] == a1[1..] + a2;
      WeightedSumAppend(p1[1..], a1[1..], p2, a2);
    } else {
      assert p1 + p2 == p2 && a1 + a2 == a2;
    }
  }

  /**
   * Whether the products table has a row of order `orderId`. The lookup
   * `loc[(order_ID, product_ID)]` selects `order_ID` on the first index level
   * and raises KeyError without one, even for an empty list of products.
   */
  predicate HasProductsOf(orderId: int, products: seq<Product>)
  {
    exists p :: p in products && p.orderId == orderId
  }

  /**
   * The order request value of a member row of order `orderId`: the filled
   * amounts are converted first, then the prices are looked up, then the
   * sum of price times amount is rounded to cents.
   */
  function OrderRequestValue(orderId: int, requests: seq<OrderRequest>, products: seq<Product>): (r: Result<real>)
    ensures r.Success? <==>
      && (forall k :: 0 <= k < |requests| ==> FilledAmount(requests[k].filled).Some?)
      && (exists p :: p in products && p.orderId == orderId)
      && (forall k :: 0 <= k < |requests| ==> NetPriceOf(orderId, requests[k].productId, products).Some?)
    ensures r.Failure? ==>
      r.error == (if FilledAmounts(requests).None? then FloatParse else MissingProduct)
    ensures r.Success? ==> IsCents(r.value)
    ensures r.Success? ==>
      && |NetPrices(orderId, requests, products).value| == |FilledAmounts(requests).value|
      && -0.005 <= r.value - WeightedSum(NetPrices(orderId, requests, products).value, FilledAmounts(requests).value) <= 0.005
  {
    match FilledAmounts(requests)
    case None => Failure(FloatParse)
    case Some(amounts) =>
      if !HasProductsOf(orderId, products) then Failure(MissingProduct)
      else match NetPrices(orderId, requests, products)
        case None => Failure(MissingProduct)
        case Some(prices) => Success(Round2(WeightedSum(prices, amounts)))
  }

  /** With no negative prices and no negative amounts the weighted sum is not negative. */
  lemma {:induction false} WeightedSumNonNegative(prices: seq<Option<real>>, amounts: seq<real>)
    requires |prices| == |amounts|
    requires forall k :: 0 <= k < |prices| && prices[k].Some? ==> prices[k].value >= 0.0
    requires forall k :: 0 <= k < |amounts| ==> amounts[k] >= 0.0
    ensures WeightedSum(prices, amounts) >= 0.0
  {
    if prices != [] {
      WeightedSumNonNegative(prices[1..], amounts[1..]);
      if prices[0].Some? {
        assert prices[0].value * amounts[0] >= 0.0;
      }
    }
  }

  /** With no negative prices and no negative filled amounts, no order request value is negative. */
  lemma OrderRequestValueNonNegative(orderId: int, requests: seq<OrderRequest>, products: seq<Product>)
    requires OrderRequestValue(orderId, requests, products).Success?
    requires forall p :: p in products && p.netPrice.Some? ==> p.netPrice.value >= 0.0
    requires forall k :: 0 <= k < |requests| ==> FilledAmount(requests[k].filled).value >= 0.0
    ensures OrderRequestValue(orderId, requests, products).value >= 0.0
  {
    var prices := NetPrices(orderId, requests, products).value;
    var amounts := FilledAmounts(requests).value;
    forall k | 0 <= k < |prices| && prices[k].Some? ensures prices[k].value >= 0.0 {
      assert prices[k] == NetPriceOf(orderId, requests[k].productId, products).value;
    }
    WeightedSumNonNegative(prices, amounts);
    Round2Monotone(0.0, WeightedSum(prices, amounts));
    Round2Exact(0.0);
  }

  /** The value of member row `m`, which must convert. */
  function ValueOf(m: Member, products: seq<Product>): real
    requires OrderRequestValue(m.orderId, m.orderRequests, products).Success?
  {
    OrderRequestValue(m.orderId, m.orderRequests, products).value
  }

  /** Member row `m` with its value written. */
  function Valued(m: Member, products: seq<Product>): Member
    requires OrderRequestValue(m.orderId, m.orderRequests, products).Success?
  {
    m.(orderRequestValue := Some(ValueOf(m, products)))
  }

  /** `df_members['order_request_value'] = np.nan`; nothing else changes. */
  method ClearOrderRequestValues(members: Frame<Member>)
    modifies members
    ensures members.name == old(members.name)
    ensures members.rows == Cleared(old(members.rows))
  {
    var rows := members.rows;
    members.rows := seq(|rows|, i requires 0 <= i < |rows| => rows[i].(orderRequestValue := None));
  }

  /** The member rows with the order request value column set to NaN. */
  function Cleared(rows: seq<Member>): (r: seq<Member>)
    ensures |r| == |rows|
    ensures forall i :: 0 <= i < |rows| ==> r[i] == rows[i].(orderRequestValue := None)
  {
    seq(|rows|, i requires 0 <= i < |rows| => rows[i].(orderRequestValue := None))
  }

  /** The rows before `k` hold the values of the rows of `original` they replace. */
  ghost predicate ValuedBefore(rows: seq<Member>, original: seq<Member>, products: seq<Product>, k: int)
    requires 0 <= k <= |rows| == |original|
  {
    forall j :: 0 <= j < k ==>
      && OrderRequestValue(original[j].orderId, original[j].orderRequests, products).Success?
      && rows[j] == Valued(original[j], products)
  }

  /** Row `k` of `original` is the first whose value fails, with error `e`. */
  ghost predicate FirstFailure(original: seq<Member>, products: seq<Product>, k: int, e: Error) {
    && 0 <= k < |original|
    && OrderRequestValue(original[k].orderId, original[k].orderRequests, products) == Failure(e)
    && forall j :: 0 <= j < k ==> OrderRequestValue(original[j].orderId, original[j].orderRequests, products).Success?
  }

  /**
   * The loop of `order_request_value`: each row in turn gets its value, and
   * nothing else changes. The first row that fails stops the loop with its
   * error, the rows before it written and the rows from it on untouched.
   */
  method WriteOrderRequestValues(members: Frame<Member>, products: seq<Product>) returns (error: Option<Error>)
    modifies members
    ensures members.name == old(members.name)
    ensures |members.rows| == |old(members.rows)|
    ensures error.None? ==> ValuedBefore(members.rows, old(members.rows), products, |members.rows|)
    ensures error.Some? ==> exists k ::
      && FirstFailure(old(members.rows), products, k, error.value)
      && ValuedBefore(members.rows, old(members.rows), products, k)
      && members.rows[k..] == old(members.rows)[k..]
  {
    ghost var original := members.rows;
    var i := 0;
    while i < |members.rows|
      invariant members.name == old(members.name)
      invariant |members.rows| == |original|
      invariant 0 <= i <= |original|
      invariant ValuedBefore(members.rows, original, products, i)
      invariant members.rows[i..] == original[i..]
    {
      var row := members.rows[i];
      assert row == original[i];
      var value := OrderRequestValue(row.orderId, row.orderRequests, products);
      if value.Failure? {
        assert FirstFailure(original, products, i, value.error);
        return Some(value.error);
      }
      ValuedStep(members.rows, original, products, i);
      members.rows := members.rows[i := row.(orderRequestValue := Some(value.value))];
      assert members.rows[i + 1..] == original[i + 1..];
      i := i + 1;
    }
    return None;
  }

  /** Writing row `k`'s value, when row `k` is still the original, extends the written prefix by one. */
  lemma ValuedStep(rows: seq<Member>, original: seq<Member>, products: seq<Product>, k: int)
    requires 0 <= k < |rows| == |original|
    requires ValuedBefore(rows, original, products, k) && rows[k] == original[k]
    requires OrderRequestValue(rows[k].orderId, rows[k].orderRequests, products).Success?
    ensures ValuedBefore(rows[k := Valued(rows[k], products)], original, products, k + 1)
  {
  }

  /** Clearing the column changes neither which rows fail nor the values written. */
  lemma ClearedKeepsValues(original: seq<Member>, rows: seq<Member>, products: seq<Product>, k: int)
    requires 0 <= k <= |rows| == |original|
    ensures ValuedBefore(rows, Cleared(original), products, k) ==> ValuedBefore(rows, original, products, k)
    ensures forall e :: FirstFailure(Cleared(original), products, k, e) ==> FirstFailure(original, products, k, e)
  {
    var cleared := Cleared(original);
    forall j | 0 <= j < |original| && OrderRequestValue(original[j].orderId, original[j].orderRequests, products).Success?
      ensures Valued(cleared[j], products) == Valued(original[j], products)
    {
    }
  }

  /**
   * `order_request_value`: the column starts as NaN, then each row in turn
   * gets its value. The first row that fails stops the loop with its error,
   * the rows before it written and the rows from it on still NaN.
   */
  method AddOrderRequestValues(members: Frame<Member>, products: seq<Product>) returns (error: Option<Error>)
    modifies members
    ensures members.name == old(members.name)
    ensures |members.rows| == |old(members.rows)|
    ensures error.None? ==> ValuedBefore(members.rows, old(members.rows), products, |members.rows|)
    ensures error.Some? ==> exists k ::
      && FirstFailure(old(members.rows), products, k, error.value)
      && ValuedBefore(members.rows, old(members.rows), products, k)
      && members.rows[k..] == Cleared(old(members.rows))[k..]
  {
    ghost var before := members.rows;
    ClearOrderRequestValues(members);
    error := WriteOrderRequestValues(members, products);
    if error.Some? {
      ghost var k :| && FirstFailure(Cleared(before), products, k, error.value)
               && ValuedBefore(members.rows, Cleared(before), products, k)
               && members.rows[k..] == Cleared(before)[k..];
      ClearedKeepsValues(before, members.rows, products, k);
    } else {
      ClearedKeepsValues(before, members.rows, products, |before|);
    }
  }

  // ---------------------------------------------------------------------------
  // features.main

  /**
   * `features.main`: the products and orders tables gain their derived
   * columns in place, and a new members table, tagged "members", is the
   * join with its order request values. A failing row fails the run after
   * the orders and products tables have been changed.
   */
  method AddFeatures(orders: Frame<Order>, members: Frame<Member>, products: Frame<Product>)
    returns (r: Result<Frame<Member>>)
    modifies orders, products
    ensures products.name == old(products.name)
    ensures products.rows == WithLineTotals(old(products.rows))
    ensures orders.name == old(orders.name)
    ensures |orders.rows| == |old(orders.rows)|
    ensures forall i :: 0 <= i < |orders.rows| ==>
      orders.rows[i] == old(orders.rows[i]).(
        totalOrderValue := TotalOrderValue(old(orders.rows[i]).orderId, products.rows),
        numParticipatingMembers := NumParticipatingMembers(old(orders.rows[i]).orderId,
                                     JoinDeliveryDate(old(members.rows), old(orders.rows))))
    ensures r.Success? ==>
      var joined := JoinDeliveryDate(old(members.rows), old(orders.rows));
      && fresh(r.value) && r.value.name == "members"
      && |r.value.rows| == |joined|
      && ValuedBefore(r.value.rows, joined, products.rows, |joined|)
    ensures r.Failure? ==>
      var joined := JoinDeliveryDate(old(members.rows), old(orders.rows));
      exists k :: FirstFailure(joined, products.rows, k, r.error)
  {
    AddNetTotalPrice(products);
    var joined := JoinDeliveryDate(members.rows, orders.rows);
    var merged := new Frame("members", joined);
    AddTotalOrderValue(orders, products.rows);
    AddNumParticipatingMembers(orders, merged.rows);
    var error := AddOrderRequestValues(merged, products.rows);
    if error.Some? {
      return Failure(error.value);
    }
    return Success(merged);
  }
}
