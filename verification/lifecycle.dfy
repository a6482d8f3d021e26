/**
 * What a checkout does to the figures the read handlers report: the
 * statistics of `GET /orders/stats/all` and the serialised sale of a last unit.
 */
module OrderLifecycle {
  import opened Wrappers
  import opened Schema
  import opened OrderCheckout
  import opened OrderQueries

  /**
   * A committed checkout adds its order total to the revenue, one to the order
   * count and the requested qty to the units sold; a failed one changes none
   * of the three figures.
   */
  lemma CheckoutMovesStats(p: Principal, db: Db, userId: Id, body: Option<seq<LineRequest>>,
                           address: Option<string>, orderId: Id, now: int)
    requires IsAdmin(p)
    ensures var out := Checkout(db, userId, body, address, orderId, now);
      var before, after := ComputeStats(p, db).value, ComputeStats(p, out.1).value;
      && (out.0.Failure? ==> after == before)
      && (out.0.Success? ==>
            && after.totalRevenue == before.totalRevenue + out.0.value.total
            && after.totalOrders == before.totalOrders + 1
            && after.totalItems == before.totalItems + RequestQty(body.value))
  {
    var out := Checkout(db, userId, body, address, orderId, now);
    if out.0.Success? {
      var items := body.value;
      CheckoutFailure(db, userId, body, address, orderId, now);
      assert AllLinesOk(db.sweets, items);
      CheckoutCommits(db, userId, items, address, orderId, now);
      var c := Captured(orderId, Snapshot(db.sweets, items), items);
      assert (db.orders + [out.0.value])[..|db.orders|] == db.orders;
      LinesQtyAppend(db.lines, c);
      CapturedQty(orderId, Snapshot(db.sweets, items), items);
    }
  }

  /**
   * The top-sellers figures of one sweet: a committed checkout adds to its units
   * sold the qty requested of it, and to its revenue that qty times the price
   * the catalog held; a failed one changes neither.
   */
  lemma CheckoutMovesSales(db: Db, userId: Id, body: Option<seq<LineRequest>>,
                           address: Option<string>, orderId: Id, now: int, k: Id)
    ensures var out := Checkout(db, userId, body, address, orderId, now);
      var before, after := SalesOf(db.lines, k), SalesOf(out.1.lines, k);
      && (out.0.Failure? ==> after == before)
      && (out.0.Success? ==>
            && after.soldQty == before.soldQty + QtyFor(body.value, k)
            && after.revenue == before.revenue + PriceOf(db.sweets, k) * QtyFor(body.value, k))
  {
    var out := Checkout(db, userId, body, address, orderId, now);
    if out.0.Success? {
      var items := body.value;
      CheckoutFailure(db, userId, body, address, orderId, now);
      assert AllLinesOk(db.sweets, items);
      CheckoutCommits(db, userId, items, address, orderId, now);
      var snap := Snapshot(db.sweets, items);
      var c := Captured(orderId, snap, items);
      LinesForSweetAppend(db.lines, c, k);
      LinesQtyAppend(LinesForSweet(db.lines, k), LinesForSweet(c, k));
      LinesValueAppend(LinesForSweet(db.lines, k), LinesForSweet(c, k));
      CapturedSold(orderId, snap, items, k);
      CapturedSweetValue(orderId, snap, items, k);
      SnapshotPriceOfRequested(db.sweets, items, k);
    }
  }

  /**
   * Two purchases of one unit each against a sweet with one unit in stock,
   * run one after the other as the row lock serialises them: the first
   * commits, the second fails with InsufficientStock, and the stock ends at 0.
   */
  lemma LastUnitSoldOnce(db: Db, k: Id, u1: Id, u2: Id, o1: Id, o2: Id, t1: int, t2: int)
    requires k in db.sweets && db.sweets[k].quantity == 1
    ensures var first := Checkout(db, u1, Some([LineRequest(k, 1)]), None, o1, t1);
      var second := Checkout(first.1, u2, Some([LineRequest(k, 1)]), None, o2, t2);
      && first.0.Success?
      && second.0 == Failure(InsufficientStock(k))
      && second.1 == first.1
      && second.1.sweets[k].quantity == 0
  {
    var one := [LineRequest(k, 1)];
    assert AllLinesOk(db.sweets, one);
    CheckoutSuccess(db, u1, one, None, o1, t1);
    var first := Checkout(db, u1, Some(one), None, o1, t1);
    assert QtyFor(one, k) == 1 by {
      assert one[..0] == [];
    }
    CheckoutFailure(first.1, u2, Some(one), None, o2, t2);
    assert !LineOk(first.1.sweets, one[0]);
  }
}
