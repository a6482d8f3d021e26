/**
 * The read handlers of backend/src/routes/orders.js: `GET /orders`,
 * `GET /orders/:id` and `GET /orders/stats/all`, as functions over the store.
 */
module OrderQueries {
  import opened Wrappers
  import opened Schema

  datatype QueryError = Forbidden | NotFound

  // ---------------------------------------------------------------------------
  // GET /orders

  /** `ORDER BY created_at DESC`. */
  predicate NewestFirst(s: seq<Order>) {
    forall i, j :: 0 <= i < j < |s| ==> s[i].createdAt >= s[j].createdAt
  }

  function InsertByDate(o: Order, s: seq<Order>): (r: seq<Order>)
    requires NewestFirst(s)
    ensures NewestFirst(r)
    ensures forall x :: x in r ==> x == o || x in s
    ensures multiset(r) == multiset(s) + multiset{o}
  {
    if s == [] then [o]
    else if o.createdAt >= s[0].createdAt then [o] + s
    else
      assert s == [s[0]] + s[1..];
      var rest := InsertByDate(o, s[1..]);
      assert forall x :: x in rest ==> x.createdAt <= s[0].createdAt;
      PrependNewest(s[0], rest);
      [s[0]] + rest
  }

  lemma PrependNewest(x: Order, s: seq<Order>)
    requires NewestFirst(s)
    requires forall y :: y in s ==> y.createdAt <= x.createdAt
    ensures NewestFirst([x] + s)
  {
    forall i, j | 0 <= i < j < |s| + 1 ensures ([x] + s)[i].createdAt >= ([x] + s)[j].createdAt {
      assert ([x] + s)[j] == s[j - 1];
      if i > 0 {
        assert ([x] + s)[i] == s[i - 1];
      }
    }
  }

  /** The rows sorted newest first; rows with equal timestamps may come in any order. */
  function SortNewestFirst(s: seq<Order>): (r: seq<Order>)
    ensures NewestFirst(r)
    ensures multiset(r) == multiset(s)
  {
    if s == [] then []
    else
      assert s == [s[0]] + s[1..];
      InsertByDate(s[0], SortNewestFirst(s[1..]))
  }

  /** `WHERE user_id = $1`: a NULL owner matches nobody. */
  function OwnedBy(orders: seq<Order>, userId: Id): (r: seq<Order>)
    ensures forall o :: o in r <==> o in orders && o.userId == Some(userId)
    ensures forall o :: multiset(r)[o] == if o.userId == Some(userId) then multiset(orders)[o] else 0
    ensures |r| <= |orders|
  {
    if orders == [] then []
    else
      var rest := OwnedBy(orders[1..], userId);
      assert orders == [orders[0]] + orders[1..];
      assert multiset(orders) == multiset{orders[0]} + multiset(orders[1..]);
      if orders[0].userId == Some(userId) then [orders[0]] + rest else rest
  }

  /**
   * `GET /orders?mine=...`: with `mine=true` the caller's own orders, newest
   * first; otherwise every order, newest first, and only for an admin.
   */
  function ListOrders(p: Principal, mine: Option<string>, orders: seq<Order>): (r: Result<seq<Order>, QueryError>)
    ensures mine == Some("true") ==>
      && r.Success? && NewestFirst(r.value)
      && multiset(r.value) == multiset(OwnedBy(orders, p.id))
      && (forall o :: o in r.value <==> o in orders && o.userId == Some(p.id))
    ensures mine != Some("true") ==> (r == Failure(Forbidden) <==> !IsAdmin(p))
    ensures mine != Some("true") && IsAdmin(p) ==>
      r.Success? && NewestFirst(r.value) && multiset(r.value) == multiset(orders)
  {
    if mine == Some("true") then
      var r := SortNewestFirst(OwnedBy(orders, p.id));
      assert forall o :: o in r <==> o in multiset(r);
      Success(r)
    else if !IsAdmin(p) then Failure(Forbidden)
    else Success(SortNewestFirst(orders))
  }

  // ---------------------------------------------------------------------------
  // GET /orders/:id

  /** A line of an order as returned, with the sweet's name from the LEFT JOIN. */
  datatype DetailLine = DetailLine(line: OrderLine, name: Option<string>)

  datatype OrderDetail = OrderDetail(order: Order, items: seq<DetailLine>)

  /** `SELECT * FROM orders WHERE id = $1`, first row. */
  function FindOrder(orders: seq<Order>, orderId: Id): (r: Option<Order>)
    ensures r.None? <==> orderId !in OrderIds(orders)
    ensures r.Some? ==> r.value in orders && r.value.id == orderId
  {
    if orders == [] then None
    else if orders[0].id == orderId then Some(orders[0])
    else
      assert orders == [orders[0]] + orders[1..];
      assert OrderIds(orders) == {orders[0].id} + OrderIds(orders[1..]);
      FindOrder(orders[1..], orderId)
  }

  /** The name a line's sweet still has, or None when the sweet row is gone. */
  function NameOf(sweets: map<Id, Sweet>, sweetId: Id): Option<string> {
    if sweetId in sweets then Some(sweets[sweetId].name) else None
  }

  function Enrich(lines: seq<OrderLine>, sweets: map<Id, Sweet>): (r: seq<DetailLine>)
    ensures |r| == |lines|
    ensures forall j :: 0 <= j < |lines| ==> r[j] == DetailLine(lines[j], NameOf(sweets, lines[j].sweetId))
  {
    if lines == [] then []
    else [DetailLine(lines[0], NameOf(sweets, lines[0].sweetId))] + Enrich(lines[1..], sweets)
  }

  /**
   * `GET /orders/:id`: NotFound for an unknown id; Forbidden unless the caller
   * is an admin or the order's owner; otherwise the order with exactly its
   * own lines, each carrying its sweet's current name.
   */
  function GetOrder(p: Principal, orderId: Id, db: Db): (r: Result<OrderDetail, QueryError>)
    ensures r == Failure(NotFound) <==> orderId !in OrderIds(db.orders)
    ensures r == Failure(Forbidden) ==>
      !IsAdmin(p) && exists o :: o in db.orders && o.id == orderId && o.userId != Some(p.id)
    ensures r.Success? ==>
      && r.value.order in db.orders && r.value.order.id == orderId
      && (IsAdmin(p) || r.value.order.userId == Some(p.id))
      && |r.value.items| == |LinesOf(db.lines, orderId)|
      && (forall j :: 0 <= j < |r.value.items| ==> r.value.items[j].line == LinesOf(db.lines, orderId)[j])
      && (forall l :: l in db.lines && l.orderId == orderId <==> exists j :: 0 <= j < |r.value.items| && r.value.items[j].line == l)
  {
    match FindOrder(db.orders, orderId)
    case None => Failure(NotFound)
    case Some(o) =>
      if !IsAdmin(p) && o.userId != Some(p.id) then Failure(Forbidden)
      else
        var own := LinesOf(db.lines, orderId);
        var items := Enrich(own, db.sweets);
        assert forall l :: l in own <==> exists j :: 0 <= j < |items| && items[j].line == l by {
          forall l | l in own ensures exists j :: 0 <= j < |items| && items[j].line == l {
            var j :| 0 <= j < |own| && own[j] == l;
            assert items[j].line == l;
          }
        }
        Success(OrderDetail(o, items))
  }

  /**
   * With order ids unique, the access rule is decided by the order itself:
   * its owner and every admin get it with its lines, anyone else Forbidden;
   * in a consistent store the returned lines add up to the order's total.
   */
  lemma GetOrderAccess(p: Principal, db: Db, o: Order)
    requires UniqueOrderIds(db.orders)
    requires o in db.orders
    ensures GetOrder(p, o.id, db)
      == if IsAdmin(p) || o.userId == Some(p.id)
         then Success(OrderDetail(o, Enrich(LinesOf(db.lines, o.id), db.sweets)))
         else Failure(Forbidden)
    ensures Consistent(db) && GetOrder(p, o.id, db).Success? ==>
      GetOrder(p, o.id, db).value.order.total == LinesValue(LinesOf(db.lines, o.id))
  {
    var f := FindOrder(db.orders, o.id);
    assert o.id in OrderIds(db.orders);
    var i :| 0 <= i < |db.orders| && db.orders[i] == f.value;
    var k :| 0 <= k < |db.orders| && db.orders[k] == o;
    assert i == k;
  }

  // ---------------------------------------------------------------------------
  // GET /orders/stats/all

  datatype Stats = Stats(totalRevenue: int, totalOrders: int, totalItems: int)

  /** `SUM(total_amount)` over the orders, 0 when there are none. */
  function Revenue(orders: seq<Order>): (total: int)
    ensures (forall i :: 0 <= i < |orders| ==> orders[i].total >= 0) ==> total >= 0
    ensures orders == [] ==> total == 0
  {
    if orders == [] then 0
    else Revenue(orders[..|orders| - 1]) + orders[|orders| - 1].total
  }

  /**
   * `GET /orders/stats/all`: Forbidden for a non-admin; otherwise revenue,
   * order count and units sold.
   */
  function ComputeStats(p: Principal, db: Db): (r: Result<Stats, QueryError>)
    ensures r.Failure? <==> !IsAdmin(p)
    ensures r.Failure? ==> r.error == Forbidden
    ensures r.Success? ==> r.value.totalRevenue == Revenue(db.orders)
    ensures r.Success? ==> r.value.totalOrders == |db.orders| && r.value.totalItems == LinesQty(db.lines)
  {
    if !IsAdmin(p) then Failure(Forbidden)
    else Success(Stats(Revenue(db.orders), |db.orders|, LinesQty(db.lines)))
  }

  /** One group of the top-sellers query: units sold and `SUM(qty * price)` for a sweet. */
  datatype SweetSales = SweetSales(soldQty: int, revenue: int)

  function SalesOf(lines: seq<OrderLine>, sweetId: Id): (r: SweetSales)
    ensures (forall l :: l in lines ==> l.sweetId != sweetId) ==> r == SweetSales(0, 0)
  {
    var own := LinesForSweet(lines, sweetId);
    assert own != [] ==> own[0] in own;
    SweetSales(LinesQty(own), LinesValue(own))
  }

  /** Sum, over the orders, of the value of each order's own lines. */
  function PerOrderValue(orders: seq<Order>, lines: seq<OrderLine>): int {
    if orders == [] then 0
    else PerOrderValue(orders[..|orders| - 1], lines) + LinesValue(LinesOf(lines, orders[|orders| - 1].id))
  }

  lemma {:induction false} RevenueByOrder(orders: seq<Order>, lines: seq<OrderLine>)
    requires forall o :: o in orders ==> o.total == LinesValue(LinesOf(lines, o.id))
    ensures Revenue(orders) == PerOrderValue(orders, lines)
  {
    if orders != [] {
      var n := |orders| - 1;
      assert orders[n] in orders;
      assert forall o :: o in orders[..n] ==> o in orders;
      RevenueByOrder(orders[..n], lines);
    }
  }

  /** One more line adds its value to exactly the one order it names, if that order exists. */
  lemma {:induction false} PerOrderSnoc(orders: seq<Order>, lines: seq<OrderLine>, l: OrderLine)
    requires UniqueOrderIds(orders)
    ensures PerOrderValue(orders, lines + [l])
      == PerOrderValue(orders, lines) + (if l.orderId in OrderIds(orders) then l.price * l.qty else 0)
  {
    if orders != [] {
      var n := |orders| - 1;
      assert orders == orders[..n] + [orders[n]];
      assert OrderIds(orders) == OrderIds(orders[..n]) + {orders[n].id};
      LastIdIsNew(orders);
      PerOrderSnoc(orders[..n], lines, l);
      var id := orders[n].id;
      LinesOfAppend(lines, [l], id);
      assert [l][..0] == [];
      LinesValueAppend(LinesOf(lines, id), LinesOf([l], id));
      assert LinesValue(LinesOf(lines + [l], id))
        == LinesValue(LinesOf(lines, id)) + (if id == l.orderId then l.price * l.qty else 0);
    }
  }

  lemma LastIdIsNew(orders: seq<Order>)
    requires UniqueOrderIds(orders)
    requires orders != []
    ensures UniqueOrderIds(orders[..|orders| - 1])
    ensures orders[|orders| - 1].id !in OrderIds(orders[..|orders| - 1])
  {
  }

  lemma {:induction false} PerOrderIsLines(orders: seq<Order>, lines: seq<OrderLine>)
    requires UniqueOrderIds(orders)
    requires forall l :: l in lines ==> l.orderId in OrderIds(orders)
    ensures PerOrderValue(orders, lines) == LinesValue(lines)
  {
    if lines == [] {
      PerOrderEmpty(orders);
    } else {
      var n := |lines| - 1;
      assert lines == lines[..n] + [lines[n]];
      PerOrderIsLines(orders, lines[..n]);
      PerOrderSnoc(orders, lines[..n], lines[n]);
    }
  }

  lemma {:induction false} PerOrderEmpty(orders: seq<Order>)
    ensures PerOrderValue(orders, []) == 0
  {
    if orders != [] {
      PerOrderEmpty(orders[..|orders| - 1]);
    }
  }

  /**
   * In a consistent store the revenue the statistics report (the sum of the
   * order totals) equals the value of all order lines.
   */
  lemma StatsRevenueMatchesLines(p: Principal, db: Db)
    requires Consistent(db)
    requires IsAdmin(p)
    ensures ComputeStats(p, db).Success?
    ensures ComputeStats(p, db).value.totalRevenue == LinesValue(db.lines)
  {
    RevenueByOrder(db.orders, db.lines);
    PerOrderIsLines(db.orders, db.lines);
  }
}
