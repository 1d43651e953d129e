/**
 * The records the pipeline works on: the raw order records as read from the
 * app's JSON dump, and the rows of the three tables it builds from them
 * (orders, members, products). A table is a `Frame`: a name tag and a
 * sequence of rows that the pipeline updates in place.
 */
module Frames {
  import opened Wrappers
  import opened Calendar

  /** A JSON scalar that the pipeline carries along without interpreting it. */
  datatype Scalar = JNull | JBool(b: bool) | JNumber(x: real) | JString(s: string)

  /** Python truthiness, which `astype('bool')` applies to each value. */
  function Truthy(v: Scalar): (t: bool)
    ensures v.JNull? ==> !t
    ensures v.JBool? ==> t == v.b
    ensures v.JNumber? ==> (t <==> v.x != 0.0)
    ensures v.JString? ==> (t <==> v.s != "")
  {
    match v
    case JNull => false
    case JBool(b) => b
    case JNumber(x) => x != 0.0
    case JString(s) => |s| > 0
  }

  /** One entry of a member's `order_requests` map: product key and the amounts as text. */
  datatype OrderRequest = OrderRequest(productId: string, filled: string, ordered: string)

  /** The value of a `members` map entry of an order. */
  datatype RawMember = RawMember(collected: Scalar, orderRequests: seq<OrderRequest>)

  /** The value of a `products` map entry of an order; numbers are decimal-comma text. */
  datatype RawProduct = RawProduct(
    taxRate: string, netPrice: string, bundleSize: string,
    supplierCode: string, amountOrdered: string, bundlesOrdered: string)

  /** The `positions_hash` object: two maps, kept as key/value lists in document order. */
  datatype Positions = Positions(members: seq<(string, RawMember)>, products: seq<(string, RawProduct)>)

  /** One record of the JSON dump, its columns in dump order. */
  datatype RawOrder = RawOrder(
    orderId: int, supplierId: Scalar, positionsHash: Positions,
    deliveryDate: string, createdAt: string, updatedAt: string,
    openOrder: Scalar, scoopMargin: Scalar, supplierMargin: Scalar)

  /**
   * A row of the orders table. `positions` holds the nested `members` and
   * `products` columns while they exist (None once dropped); the two derived
   * columns are None until added, or where pandas leaves NaN.
   */
  datatype Order = Order(
    orderId: int, supplierId: Scalar,
    deliveryDate: ValidDate, createdAt: ValidDate, updatedAt: ValidDate,
    openOrder: Scalar, scoopMargin: Scalar, supplierMargin: Scalar,
    positions: Option<Positions>,
    totalOrderValue: Option<real>,
    numParticipatingMembers: Option<nat>)

  /** A row of the members table: one member's part in one order. */
  datatype Member = Member(
    memberId: int, orderId: int, collected: bool, orderRequests: seq<OrderRequest>,
    deliveryDate: Option<ValidDate>,
    orderRequestValue: Option<real>)

  /** A row of the products table, keyed by (order_ID, product_ID); None is NaN. */
  datatype Product = Product(
    orderId: int, productId: string,
    taxRate: Option<real>, netPrice: Option<real>, bundleSize: Option<real>,
    supplierCode: Option<string>,
    amountOrdered: Option<real>, bundlesOrdered: Option<real>,
    netTotalPrice: Option<real>)

  /** A dataframe: its `df_name` tag and its rows, in index order. */
  class Frame<R> {
    var name: string
    var rows: seq<R>

    constructor (name: string, rows: seq<R>)
      ensures this.name == name && this.rows == rows
    {
      this.name := name;
      this.rows := rows;
    }
  }

  /** The order IDs of a table are pairwise distinct. */
  predicate UniqueOrderIds(orders: seq<Order>) {
    forall i, j :: 0 <= i < |orders| && 0 <= j < |orders| && i != j ==> orders[i].orderId != orders[j].orderId
  }

  /** The member ID of the cooperative's own account, which the analyses leave out. */
  const CompanyAccount := 46

  /** `df.loc[df.member_ID != 46]`: the member rows of everyone but the company account, in order. */
  function WithoutCompanyAccount(rows: seq<Member>): (r: seq<Member>)
    ensures |r| <= |rows|
    ensures forall m :: m in r <==> m in rows && m.memberId != CompanyAccount
  {
    if rows == [] then []
    else if rows[0].memberId == CompanyAccount then WithoutCompanyAccount(rows[1..])
    else [rows[0]] + WithoutCompanyAccount(rows[1..])
  }

  /**
   * The filter works row by row and keeps the order: a concatenation is
   * filtered part by part, and a single row stays iff it is not the
   * company account's.
   */
  lemma {:induction false} WithoutCompanyAccountRowByRow(a: seq<Member>, b: seq<Member>, m: Member)
    ensures WithoutCompanyAccount(a + b) == WithoutCompanyAccount(a) + WithoutCompanyAccount(b)
    ensures WithoutCompanyAccount([m]) == if m.memberId != CompanyAccount then [m] else []
  {
    if a == [] {
      assert a + b == b;
    } else {
      assert (a + b)[1..] == a[1..] + b;
      WithoutCompanyAccountRowByRow(a[1..], b, m);
    }
    assert [m][1..] == [];
  }

  /** Every row other than the company account's is kept as often as it occurs; none of its rows is. */
  lemma {:induction false} WithoutCompanyAccountCounts(rows: seq<Member>)
    ensures forall m :: multiset(WithoutCompanyAccount(rows))[m] ==
                        (if m.memberId != CompanyAccount then multiset(rows)[m] else 0)
  {
    if rows != [] {
      WithoutCompanyAccountCounts(rows[1..]);
      assert rows == [rows[0]] + rows[1..];
    }
  }
}
