/**
 * The checkout transaction of `POST /orders` (backend/src/routes/orders.js).
 *
 * `Checkout` is the specification: the whole transaction as one atomic step
 * over a `Db` value, returning the outcome and the store after commit (or the
 * untouched store after rollback). `Store.PlaceOrder` is the handler itself,
 * written with the handler's loops, and is proved equal to `Checkout`.
 */
module OrderCheckout {
  import opened Wrappers
  import opened Schema

  /** One element of the request body `items: [{ id, qty }]`; qty is not validated. */
  datatype LineRequest = LineRequest(id: Id, qty: int)

  datatype CheckoutError = NoItems | SweetNotFound(id: Id) | InsufficientStock(id: Id)

  /** The error text the handler puts in the JSON body. */
  function Message(e: CheckoutError): string {
    match e
    case NoItems => "No items"
    case SweetNotFound(id) => "Sweet not found: " + id
    case InsufficientStock(id) => "Insufficient stock for " + id
  }

  /**
   * The HTTP status of a failed checkout: "No items" is answered 400 before the
   * transaction opens; an error thrown inside it is 400 when its message starts
   * with "Insufficient" and 500 otherwise.
   */
  function Status(e: CheckoutError): (s: int)
    ensures s == 400 || s == 500
    ensures e.NoItems? ==> s == 400
  {
    if e.NoItems? then 400
    else if "Insufficient" <= Message(e) then 400
    else 500
  }

  lemma StatusClassification(e: CheckoutError)
    ensures Status(e) == 400 <==> !e.SweetNotFound?
    ensures Status(e) == 500 <==> e.SweetNotFound?
  {
    match e
    case NoItems =>
    case SweetNotFound(id) =>
      assert Message(e)[0] == 'S' != "Insufficient"[0];
    case InsufficientStock(id) =>
      assert Message(e)[..|"Insufficient"|] == "Insufficient";
  }

  /** `address || null`: an empty address is stored as NULL. */
  function StoredAddress(address: Option<string>): (a: Option<string>)
    ensures a.None? <==> address.None? || address == Some("")
    ensures a.Some? ==> a.value != ""
    ensures address.Some? && address.value != "" ==> a == address
  {
    if address == Some("") then None else address
  }

  function RequestedIds(items: seq<LineRequest>): set<Id> {
    set l | l in items :: l.id
  }

  /** The rows `SELECT ... WHERE id = ANY(ids) FOR UPDATE` returns, keyed by id. */
  function Snapshot(sweets: map<Id, Sweet>, items: seq<LineRequest>): (snap: map<Id, Sweet>)
    ensures forall k :: k in snap ==> k in sweets && snap[k] == sweets[k]
  {
    map k | k in sweets.Keys * RequestedIds(items) :: sweets[k]
  }

  /** A line passes validation: its sweet was read and the read stock covers its qty. */
  predicate LineOk(snap: map<Id, Sweet>, l: LineRequest) {
    l.id in snap && !(snap[l.id].quantity < l.qty)
  }

  predicate AllLinesOk(snap: map<Id, Sweet>, items: seq<LineRequest>) {
    forall j :: 0 <= j < |items| ==> LineOk(snap, items[j])
  }

  /** The error a failing line throws. */
  function LineError(snap: map<Id, Sweet>, l: LineRequest): CheckoutError {
    if l.id !in snap then SweetNotFound(l.id) else InsufficientStock(l.id)
  }

  /**
   * The validation loop: every line is checked, in request order, against the
   * one snapshot; the first failing line decides the error, otherwise the
   * result is the running total of snapshot price * qty.
   */
  function Validate(snap: map<Id, Sweet>, items: seq<LineRequest>): (r: Result<int, CheckoutError>)
    ensures r.Failure? ==>
      || (r.error.SweetNotFound? && r.error.id !in snap)
      || (r.error.InsufficientStock? && r.error.id in snap)
  {
    if items == [] then Success(0)
    else
      var l := items[|items| - 1];
      match Validate(snap, items[..|items| - 1])
      case Failure(e) => Failure(e)
      case Success(t) =>
        if !LineOk(snap, l) then Failure(LineError(snap, l))
        else Success(t + snap[l.id].price * l.qty)
  }

  function PriceOf(snap: map<Id, Sweet>, id: Id): int {
    if id in snap then snap[id].price else 0
  }

  /** The `order_items` rows the write loop inserts: one per request line, in request order. */
  function Captured(orderId: Id, snap: map<Id, Sweet>, items: seq<LineRequest>): (r: seq<OrderLine>)
    ensures |r| == |items|
  {
    if items == [] then []
    else
      var l := items[|items| - 1];
      Captured(orderId, snap, items[..|items| - 1]) + [OrderLine(orderId, l.id, PriceOf(snap, l.id), l.qty)]
  }

  /** Sum of qty over the request lines naming `id`. */
  function QtyFor(items: seq<LineRequest>, id: Id): int {
    if items == [] then 0
    else
      var l := items[|items| - 1];
      QtyFor(items[..|items| - 1], id) + (if l.id == id then l.qty else 0)
  }

  /**
   * The stock after the write loop has run `quantity = quantity - qty` once per
   * line, each time on the current row (not on the snapshot).
   */
  function Decremented(sweets: map<Id, Sweet>, items: seq<LineRequest>): (r: map<Id, Sweet>)
    ensures r.Keys == sweets.Keys
  {
    if items == [] then sweets
    else
      var l := items[|items| - 1];
      var m := Decremented(sweets, items[..|items| - 1]);
      if l.id in m then m[l.id := m[l.id].(quantity := m[l.id].quantity - l.qty)] else m
  }

  lemma DecrementedSnoc(sweets: map<Id, Sweet>, items: seq<LineRequest>, l: LineRequest)
    ensures var m := Decremented(sweets, items);
      Decremented(sweets, items + [l])
        == if l.id in m then m[l.id := m[l.id].(quantity := m[l.id].quantity - l.qty)] else m
  {
    assert (items + [l])[..|items|] == items;
  }

  lemma CapturedSnoc(orderId: Id, snap: map<Id, Sweet>, items: seq<LineRequest>, l: LineRequest)
    ensures Captured(orderId, snap, items + [l])
      == Captured(orderId, snap, items) + [OrderLine(orderId, l.id, PriceOf(snap, l.id), l.qty)]
  {
    assert (items + [l])[..|items|] == items;
  }

  /** One written line per request line, in request order, carrying the order id, the read price and the qty. */
  lemma {:induction false} CapturedAt(orderId: Id, snap: map<Id, Sweet>, items: seq<LineRequest>)
    ensures forall j :: 0 <= j < |items| ==>
      Captured(orderId, snap, items)[j] == OrderLine(orderId, items[j].id, PriceOf(snap, items[j].id), items[j].qty)
  {
    if items != [] {
      var n := |items| - 1;
      CapturedAt(orderId, snap, items[..n]);
      assert forall j :: 0 <= j < n ==> items[..n][j] == items[j];
    }
  }

  /**
   * After the decrements, the catalog has the same sweets and each one's stock
   * is lower by the total qty the request named it with; nothing else changes.
   */
  lemma {:induction false} DecrementedAt(sweets: map<Id, Sweet>, items: seq<LineRequest>)
    ensures forall k :: k in sweets ==>
      Decremented(sweets, items)[k] == sweets[k].(quantity := sweets[k].quantity - QtyFor(items, k))
  {
    if items != [] {
      DecrementedAt(sweets, items[..|items| - 1]);
    }
  }

  /**
   * The whole `POST /orders` handler as one atomic step: the outcome and the
   * store after it. `orderId` stands for `uuidv4()` and `now` for the row's
   * `created_at`.
   */
  function Checkout(db: Db, userId: Id, body: Option<seq<LineRequest>>, address: Option<string>,
                    orderId: Id, now: int): (out: (Result<Order, CheckoutError>, Db))
    ensures out.0.Failure? ==> out.1 == db
    ensures out.0.Success? ==>
      && out.0.value.id == orderId && out.0.value.userId == Some(userId)
      && out.1.orders == db.orders + [out.0.value]
      && out.1.sweets.Keys == db.sweets.Keys
      && body.Some? && |out.1.lines| == |db.lines| + |body.value|
  {
    if body.None? || |body.value| == 0 then (Failure(NoItems), db)
    else
      var items := body.value;
      var snap := Snapshot(db.sweets, items);
      match Validate(snap, items)
      case Failure(e) => (Failure(e), db)
      case Success(total) =>
        var order := Order(orderId, Some(userId), total, StoredAddress(address), now);
        (Success(order),
         Db(Decremented(db.sweets, items), db.orders + [order], db.lines + Captured(orderId, snap, items)))
  }

  // ---------------------------------------------------------------------------
  // Validation

  /** Once a prefix of the request fails, the whole request fails with that error. */
  lemma {:induction false} ValidateFailureSticks(snap: map<Id, Sweet>, items: seq<LineRequest>, i: nat)
    requires i <= |items|
    requires Validate(snap, items[..i]).Failure?
    ensures Validate(snap, items) == Validate(snap, items[..i])
    decreases |items|
  {
    if i < |items| {
      var n := |items| - 1;
      assert items[..n][..i] == items[..i];
      ValidateFailureSticks(snap, items[..n], i);
    } else {
      assert items[..i] == items;
    }
  }

  /**
   * Validation succeeds exactly when every line passes; when it fails, the error
   * is that of the first failing line.
   */
  lemma {:induction false} ValidateSpec(snap: map<Id, Sweet>, items: seq<LineRequest>)
    ensures Validate(snap, items).Success? <==> AllLinesOk(snap, items)
    ensures Validate(snap, items).Failure? ==>
      exists j :: 0 <= j < |items| && !LineOk(snap, items[j]) && AllLinesOk(snap, items[..j])
               && Validate(snap, items).error == LineError(snap, items[j])
  {
    if items != [] {
      var n := |items| - 1;
      ValidateSpec(snap, items[..n]);
      assert forall j :: 0 <= j < n ==> items[..n][j] == items[j];
      if Validate(snap, items[..n]).Failure? {
        var j :| 0 <= j < n && !LineOk(snap, items[..n][j]) && AllLinesOk(snap, items[..n][..j])
               && Validate(snap, items[..n]).error == LineError(snap, items[..n][j]);
        assert items[..n][..j] == items[..j];
      }
    }
  }

  /** The validated total is the sum of price * qty over the lines the order will hold. */
  lemma {:induction false} ValidateTotal(orderId: Id, snap: map<Id, Sweet>, items: seq<LineRequest>)
    requires Validate(snap, items).Success?
    ensures Validate(snap, items).value == LinesValue(Captured(orderId, snap, items))
  {
    if items != [] {
      var n := |items| - 1;
      ValidateTotal(orderId, snap, items[..n]);
      var c := Captured(orderId, snap, items);
      assert c[..|c| - 1] == Captured(orderId, snap, items[..n]);
    }
  }

  /** The snapshot holds exactly the requested sweets that exist, with their stored row. */
  lemma SnapshotOfRequest(sweets: map<Id, Sweet>, items: seq<LineRequest>, j: nat)
    requires j < |items|
    ensures items[j].id in Snapshot(sweets, items) <==> items[j].id in sweets
    ensures items[j].id in sweets ==> Snapshot(sweets, items)[items[j].id] == sweets[items[j].id]
  {
    assert items[j] in items;
  }

  /** The qty a request line contributes to `QtyFor` when its id occurs only once. */
  lemma {:induction false} QtyForDistinct(items: seq<LineRequest>, id: Id)
    requires DistinctIds(items)
    ensures QtyFor(items, id) == 0 || exists j :: 0 <= j < |items| && items[j].id == id && QtyFor(items, id) == items[j].qty
    ensures (forall j :: 0 <= j < |items| ==> items[j].id != id) ==> QtyFor(items, id) == 0
  {
    if items != [] {
      var n := |items| - 1;
      assert DistinctIds(items[..n]);
      QtyForDistinct(items[..n], id);
      if items[n].id == id {
        assert forall j :: 0 <= j < n ==> items[..n][j].id != id;
        assert QtyFor(items, id) == items[n].qty;
      } else if QtyFor(items[..n], id) != 0 {
        var j :| 0 <= j < n && items[..n][j].id == id && QtyFor(items[..n], id) == items[..n][j].qty;
        assert items[j].id == id;
      }
    }
  }

  predicate DistinctIds(items: seq<LineRequest>) {
    forall i, j :: 0 <= i < j < |items| ==> items[i].id != items[j].id
  }

  // ---------------------------------------------------------------------------
  // The transaction

  /**
   * Failure and rollback: an absent or empty item list fails with NoItems; an
   * unknown sweet or a line whose qty exceeds the read stock fails with the
   * error of the first such line. Every failure leaves the store unchanged,
   * and a failure is answered 400 exactly when it is not an unknown sweet.
   */
  lemma CheckoutFailure(db: Db, userId: Id, body: Option<seq<LineRequest>>, address: Option<string>,
                        orderId: Id, now: int)
    ensures var out := Checkout(db, userId, body, address, orderId, now); var r, db' := out.0, out.1;
      && (r == Failure(NoItems) <==> body.None? || body.value == [])
      && (body.Some? && body.value != [] ==>
            (r.Failure? <==> exists j :: 0 <= j < |body.value| && !LineOk(db.sweets, body.value[j])))
      && (r.Failure? && body.Some? && body.value != [] ==>
            exists j :: 0 <= j < |body.value| && !LineOk(db.sweets, body.value[j])
                     && (forall k :: 0 <= k < j ==> LineOk(db.sweets, body.value[k]))
                     && r.error == LineError(db.sweets, body.value[j]))
      && (r.Failure? ==> db' == db && (Status(r.error) == 400 <==> !r.error.SweetNotFound?))
  {
    var out := Checkout(db, userId, body, address, orderId, now); var r, db' := out.0, out.1;
    if r.Failure? {
      StatusClassification(r.error);
    }
    if body.Some? && body.value != [] {
      var items := body.value;
      var snap := Snapshot(db.sweets, items);
      ValidateSpec(snap, items);
      forall j | 0 <= j < |items|
        ensures LineOk(snap, items[j]) == LineOk(db.sweets, items[j])
        ensures LineError(snap, items[j]) == LineError(db.sweets, items[j])
      {
        SnapshotOfRequest(db.sweets, items, j);
      }
      if r.Failure? {
        var j :| 0 <= j < |items| && !LineOk(snap, items[j]) && AllLinesOk(snap, items[..j])
                 && r.error == LineError(snap, items[j]);
        assert forall k :: 0 <= k < j ==> items[..j][k] == items[k];
      }
    }
  }

  /** The committed order and store, spelled out; the step both commit lemmas start from. */
  lemma CheckoutCommits(db: Db, userId: Id, items: seq<LineRequest>, address: Option<string>,
                        orderId: Id, now: int)
    requires items != []
    requires AllLinesOk(db.sweets, items)
    ensures var c := Captured(orderId, Snapshot(db.sweets, items), items);
      var order := Order(orderId, Some(userId), LinesValue(c), StoredAddress(address), now);
      Checkout(db, userId, Some(items), address, orderId, now)
        == (Success(order), Db(Decremented(db.sweets, items), db.orders + [order], db.lines + c))
    ensures forall j :: 0 <= j < |items| ==>
      Captured(orderId, Snapshot(db.sweets, items), items)[j]
        == OrderLine(orderId, items[j].id, db.sweets[items[j].id].price, items[j].qty)
  {
    var snap := Snapshot(db.sweets, items);
    forall j | 0 <= j < |items|
      ensures LineOk(snap, items[j]) && PriceOf(snap, items[j].id) == db.sweets[items[j].id].price
    {
      SnapshotOfRequest(db.sweets, items, j);
    }
    ValidateSpec(snap, items);
    ValidateTotal(orderId, snap, items);
    CapturedAt(orderId, snap, items);
  }

  /**
   * Commit: the order row carries the caller, the stored address and a total
   * equal to the sum of stored price * requested qty; exactly one line per
   * request line is appended, in request order, with the new order's id, the
   * stored price and the requested qty; each sweet's stock drops by the total
   * qty requested for it and nothing else in the catalog changes.
   */
  lemma CheckoutSuccess(db: Db, userId: Id, items: seq<LineRequest>, address: Option<string>,
                        orderId: Id, now: int)
    requires items != []
    requires AllLinesOk(db.sweets, items)
    ensures var out := Checkout(db, userId, Some(items), address, orderId, now);
      out.0.Success? && out.0.value == Order(orderId, Some(userId), out.0.value.total, StoredAddress(address), now)
    ensures var out := Checkout(db, userId, Some(items), address, orderId, now);
      out.1.orders == db.orders + [out.0.value]
    ensures var out := Checkout(db, userId, Some(items), address, orderId, now);
      |out.1.lines| == |db.lines| + |items| && out.1.lines[..|db.lines|] == db.lines
    ensures var out := Checkout(db, userId, Some(items), address, orderId, now);
      forall j :: 0 <= j < |items| ==>
        out.1.lines[|db.lines| + j] == OrderLine(orderId, items[j].id, db.sweets[items[j].id].price, items[j].qty)
    ensures var out := Checkout(db, userId, Some(items), address, orderId, now);
      out.0.value.total == LinesValue(out.1.lines[|db.lines|..])
    ensures var out := Checkout(db, userId, Some(items), address, orderId, now);
      out.1.sweets.Keys == db.sweets.Keys
    ensures var out := Checkout(db, userId, Some(items), address, orderId, now);
      forall k :: k in db.sweets ==>
        out.1.sweets[k] == db.sweets[k].(quantity := db.sweets[k].quantity - QtyFor(items, k))
  {
    CheckoutCommits(db, userId, items, address, orderId, now);
    DecrementedAt(db.sweets, items);
    var c := Captured(orderId, Snapshot(db.sweets, items), items);
    CapturedAt(orderId, Snapshot(db.sweets, items), items);
    assert (db.lines + c)[|db.lines|..] == c;
    assert (db.lines + c)[..|db.lines|] == db.lines;
  }

  /**
   * With pairwise distinct ids in the request, a checkout never drives a stock
   * below zero. Positive quantities are not needed: every line was checked
   * against the stock it is subtracted from.
   */
  lemma CheckoutKeepsStockNonNegative(db: Db, userId: Id, items: seq<LineRequest>, address: Option<string>,
                                      orderId: Id, now: int)
    requires forall k :: k in db.sweets ==> db.sweets[k].quantity >= 0
    requires DistinctIds(items)
    ensures var db' := Checkout(db, userId, Some(items), address, orderId, now).1;
      forall k :: k in db'.sweets ==> db'.sweets[k].quantity >= 0
  {
    var out := Checkout(db, userId, Some(items), address, orderId, now); var r, db' := out.0, out.1;
    if r.Success? {
      CheckoutFailure(db, userId, Some(items), address, orderId, now);
      DecrementedAt(db.sweets, items);
      forall k | k in db'.sweets ensures db'.sweets[k].quantity >= 0 {
        QtyForDistinct(items, k);
        if QtyFor(items, k) != 0 {
          var j :| 0 <= j < |items| && items[j].id == k && QtyFor(items, k) == items[j].qty;
          assert LineOk(db.sweets, items[j]);
        }
      }
    }
  }

  /**
   * Repeated ids are validated against the one snapshot but decremented once
   * per line: stock 1 and two lines of qty 1 pass validation and leave stock -1.
   */
  lemma DuplicateIdsOverdraw()
    ensures var db := Db(map["ladoo" := Sweet("Ladoo", 20, 1)], [], []);
      var out := Checkout(db, "u1", Some([LineRequest("ladoo", 1), LineRequest("ladoo", 1)]), None, "o1", 0); var r, db' := out.0, out.1;
      r.Success? && r.value.total == 40 && db'.sweets["ladoo"].quantity == -1
  {
    var db := Db(map["ladoo" := Sweet("Ladoo", 20, 1)], [], []);
    var items := [LineRequest("ladoo", 1), LineRequest("ladoo", 1)];
    assert AllLinesOk(db.sweets, items);
    CheckoutCommits(db, "u1", items, None, "o1", 0);
    DecrementedAt(db.sweets, items);
    var c := Captured("o1", Snapshot(db.sweets, items), items);
    assert c[0] == c[1] == OrderLine("o1", "ladoo", 20, 1);
    assert c[..1][..0] == [];
    assert LinesValue(c[..1]) == 20;
    assert LinesValue(c) == 40;
    assert items[..1] == [items[0]];
    assert QtyFor(items, "ladoo") == 2;
  }

  /**
   * The purchase scenario: stock 2 at price 20; buying 1 succeeds with total 20
   * and leaves stock 1; then asking for 5 fails "Insufficient stock", answered
   * 400, and the store stays as it was.
   */
  lemma LadooScenario()
    ensures var db0 := Db(map["ladoo" := Sweet("Ladoo", 20, 2)], [], []);
      var (r1, db1) := Checkout(db0, "u1", Some([LineRequest("ladoo", 1)]), None, "o1", 0);
      var (r2, db2) := Checkout(db1, "u1", Some([LineRequest("ladoo", 5)]), None, "o2", 1);
      && r1.Success? && r1.value.total == 20 && db1.sweets["ladoo"].quantity == 1
      && r2 == Failure(InsufficientStock("ladoo")) && Status(r2.error) == 400 && db2 == db1
  {
    var db0 := Db(map["ladoo" := Sweet("Ladoo", 20, 2)], [], []);
    var one := [LineRequest("ladoo", 1)];
    assert AllLinesOk(db0.sweets, one);
    CheckoutSuccess(db0, "u1", one, None, "o1", 0);
    var (r1, db1) := Checkout(db0, "u1", Some(one), None, "o1", 0);
    assert QtyFor(one, "ladoo") == 1;
    var five := [LineRequest("ladoo", 5)];
    CheckoutFailure(db1, "u1", Some(five), None, "o2", 1);
    assert !LineOk(db1.sweets, five[0]);
    StatusClassification(InsufficientStock("ladoo"));
  }

  /**
   * Checkout keeps the store consistent: given a fresh order id, the new order's
   * total is the value of exactly the lines written with it, and no earlier
   * order gains or loses a line.
   */
  lemma CheckoutPreservesConsistency(db: Db, userId: Id, body: Option<seq<LineRequest>>,
                                     address: Option<string>, orderId: Id, now: int)
    requires Consistent(db)
    requires orderId !in OrderIds(db.orders)
    ensures Consistent(Checkout(db, userId, body, address, orderId, now).1)
  {
    var out := Checkout(db, userId, body, address, orderId, now);
    if out.0.Success? {
      var items := body.value;
      CheckoutFailure(db, userId, body, address, orderId, now);
      assert AllLinesOk(db.sweets, items);
      CheckoutCommits(db, userId, items, address, orderId, now);
      var c := Captured(orderId, Snapshot(db.sweets, items), items);
      CapturedAt(orderId, Snapshot(db.sweets, items), items);
      assert forall l :: l in c ==> l.orderId == orderId;
      AppendOrderConsistent(db, Decremented(db.sweets, items), out.0.value, c);
    }
  }

  /** The qty a checkout writes into the lines of one sweet is the qty the request asked of it. */
  lemma {:induction false} CapturedSold(orderId: Id, snap: map<Id, Sweet>, items: seq<LineRequest>, k: Id)
    ensures LinesQty(LinesForSweet(Captured(orderId, snap, items), k)) == QtyFor(items, k)
  {
    if items != [] {
      var n := |items| - 1;
      var l := items[n];
      assert items == items[..n] + [l];
      CapturedSold(orderId, snap, items[..n], k);
      var line := OrderLine(orderId, l.id, PriceOf(snap, l.id), l.qty);
      CapturedSnoc(orderId, snap, items[..n], l);
      LinesForSweetAppend(Captured(orderId, snap, items[..n]), [line], k);
      assert [line][..0] == [];
      LinesQtyAppend(LinesForSweet(Captured(orderId, snap, items[..n]), k), LinesForSweet([line], k));
    }
  }

  /** A sweet that no request line names gets no qty. */
  lemma {:induction false} QtyForAbsent(items: seq<LineRequest>, id: Id)
    requires forall j :: 0 <= j < |items| ==> items[j].id != id
    ensures QtyFor(items, id) == 0
  {
    if items != [] {
      QtyForAbsent(items[..|items| - 1], id);
    }
  }

  /** The lines a checkout writes for one sweet are worth its read price times the qty requested of it. */
  lemma {:induction false} CapturedSweetValue(orderId: Id, snap: map<Id, Sweet>, items: seq<LineRequest>, k: Id)
    ensures LinesValue(LinesForSweet(Captured(orderId, snap, items), k)) == PriceOf(snap, k) * QtyFor(items, k)
  {
    if items != [] {
      var n := |items| - 1;
      var added := if items[n].id == k then items[n].qty else 0;
      CapturedSweetValue(orderId, snap, items[..n], k);
      CapturedSweetValueStep(orderId, snap, items, k);
      Distribute(PriceOf(snap, k), QtyFor(items[..n], k), added, QtyFor(items, k));
    }
  }

  /** The last request line adds its price * qty to the value written for its own sweet only. */
  lemma CapturedSweetValueStep(orderId: Id, snap: map<Id, Sweet>, items: seq<LineRequest>, k: Id)
    requires items != []
    ensures var l := items[|items| - 1];
      LinesValue(LinesForSweet(Captured(orderId, snap, items), k))
        == LinesValue(LinesForSweet(Captured(orderId, snap, items[..|items| - 1]), k))
           + PriceOf(snap, k) * (if l.id == k then l.qty else 0)
  {
    var l := items[|items| - 1];
    var line := OrderLine(orderId, l.id, PriceOf(snap, l.id), l.qty);
    var prev := Captured(orderId, snap, items[..|items| - 1]);
    LinesForSweetAppend(prev, [line], k);
    LinesValueAppend(LinesForSweet(prev, k), LinesForSweet([line], k));
    assert [line][..0] == [];
    if l.id == k {
      assert LinesForSweet([line], k) == [line];
    } else {
      assert LinesForSweet([line], k) == [];
    }
  }

  /**
   * When every line passed validation, pricing the requested qty of a sweet at
   * the read price or at the catalog price gives the same amount.
   */
  lemma SnapshotPriceOfRequested(sweets: map<Id, Sweet>, items: seq<LineRequest>, k: Id)
    requires AllLinesOk(sweets, items)
    ensures PriceOf(Snapshot(sweets, items), k) * QtyFor(items, k) == PriceOf(sweets, k) * QtyFor(items, k)
  {
    var snap := Snapshot(sweets, items);
    if k !in snap {
      forall j | 0 <= j < |items| ensures items[j].id != k {
        SnapshotOfRequest(sweets, items, j);
      }
      QtyForAbsent(items, k);
    }
  }

  lemma Distribute(p: int, a: int, b: int, c: int)
    requires c == a + b
    ensures p * c == p * a + p * b
  {
  }

  /** Sum of qty over the request lines. */
  function RequestQty(items: seq<LineRequest>): int {
    if items == [] then 0
    else RequestQty(items[..|items| - 1]) + items[|items| - 1].qty
  }

  /** The lines a checkout writes carry, between them, exactly the requested qty. */
  lemma {:induction false} CapturedQty(orderId: Id, snap: map<Id, Sweet>, items: seq<LineRequest>)
    ensures LinesQty(Captured(orderId, snap, items)) == RequestQty(items)
  {
    if items != [] {
      var n := |items| - 1;
      var l := items[n];
      assert items == items[..n] + [l];
      CapturedQty(orderId, snap, items[..n]);
      CapturedSnoc(orderId, snap, items[..n], l);
      LinesQtyAppend(Captured(orderId, snap, items[..n]), [OrderLine(orderId, l.id, PriceOf(snap, l.id), l.qty)]);
      assert [OrderLine(orderId, l.id, PriceOf(snap, l.id), l.qty)][..0] == [];
    }
  }

  /**
   * Stock is conserved: for every sweet, stock on hand plus the qty recorded in
   * order lines for it is the same before and after any checkout attempt.
   */
  lemma CheckoutConservesStock(db: Db, userId: Id, body: Option<seq<LineRequest>>,
                               address: Option<string>, orderId: Id, now: int, k: Id)
    requires k in db.sweets
    ensures var db' := Checkout(db, userId, body, address, orderId, now).1;
      k in db'.sweets
      && db'.sweets[k].quantity + LinesQty(LinesForSweet(db'.lines, k))
         == db.sweets[k].quantity + LinesQty(LinesForSweet(db.lines, k))
  {
    var out := Checkout(db, userId, body, address, orderId, now);
    if out.0.Success? {
      var items := body.value;
      CheckoutFailure(db, userId, body, address, orderId, now);
      assert AllLinesOk(db.sweets, items);
      CheckoutCommits(db, userId, items, address, orderId, now);
      var c := Captured(orderId, Snapshot(db.sweets, items), items);
      CapturedSold(orderId, Snapshot(db.sweets, items), items, k);
      DecrementedAt(db.sweets, items);
      LinesForSweetAppend(db.lines, c, k);
      LinesQtyAppend(LinesForSweet(db.lines, k), LinesForSweet(c, k));
    }
  }

  // ---------------------------------------------------------------------------
  // The handler

  /** The snapshot loop: `sweetsById[row.id] = row` for each row the SELECT returns. */
  method ReadSnapshot(sweets: map<Id, Sweet>, items: seq<LineRequest>) returns (snap: map<Id, Sweet>)
    ensures snap.Keys == sweets.Keys * RequestedIds(items)
    ensures forall k :: k in snap ==> snap[k] == sweets[k]
  {
    snap := map[];
    for i := 0 to |items|
      invariant snap.Keys == sweets.Keys * RequestedIds(items[..i])
      invariant forall k :: k in snap ==> snap[k] == sweets[k]
    {
      var id := items[i].id;
      assert RequestedIds(items[..i + 1]) == RequestedIds(items[..i]) + {id} by {
        assert items[..i + 1] == items[..i] + [items[i]];
      }
      if id in sweets {
        snap := snap[id := sweets[id]];
      }
    }
    assert items[..|items|] == items;
  }

  /** The validation loop (orders.js lines 27-33), stopping at the first failing line. */
  method ValidateLines(snap: map<Id, Sweet>, items: seq<LineRequest>) returns (r: Result<int, CheckoutError>)
    ensures r == Validate(snap, items)
  {
    var total := 0;
    for i := 0 to |items|
      invariant Validate(snap, items[..i]) == Success(total)
    {
      var it := items[i];
      assert items[..i + 1][..i] == items[..i];
      if it.id !in snap {
        ValidateFailureSticks(snap, items, i + 1);
        return Failure(SweetNotFound(it.id));
      }
      if snap[it.id].quantity < it.qty {
        ValidateFailureSticks(snap, items, i + 1);
        return Failure(InsufficientStock(it.id));
      }
      total := total + snap[it.id].price * it.qty;
    }
    assert items[..|items|] == items;
    r := Success(total);
  }

  /** The store the transaction runs against. */
  class Store {
    var sweets: map<Id, Sweet>
    var orders: seq<Order>
    var lines: seq<OrderLine>

    constructor (catalog: map<Id, Sweet>)
      ensures sweets == catalog && orders == [] && lines == []
    {
      sweets, orders, lines := catalog, [], [];
    }

    function State(): Db
      reads this
    {
      Db(sweets, orders, lines)
    }

    /**
     * The write loop: per request line, insert its `order_items` row with the
     * snapshot price, then run `quantity = quantity - qty` on the live row.
     */
    method WriteLines(orderId: Id, snap: map<Id, Sweet>, items: seq<LineRequest>)
      requires AllLinesOk(snap, items)
      modifies this
      ensures sweets == Decremented(old(sweets), items)
      ensures lines == old(lines) + Captured(orderId, snap, items)
      ensures orders == old(orders)
    {
      for i := 0 to |items|
        invariant sweets == Decremented(old(sweets), items[..i])
        invariant lines == old(lines) + Captured(orderId, snap, items[..i])
        invariant orders == old(orders)
      {
        var it := items[i];
        assert items[..i + 1] == items[..i] + [it];
        assert LineOk(snap, it);
        DecrementedSnoc(old(sweets), items[..i], it);
        CapturedSnoc(orderId, snap, items[..i], it);
        lines := lines + [OrderLine(orderId, it.id, snap[it.id].price, it.qty)];
        if it.id in sweets {
          sweets := sweets[it.id := sweets[it.id].(quantity := sweets[it.id].quantity - it.qty)];
        }
      }
      assert items[..|items|] == items;
    }

    /**
     * `POST /orders`: validate against the snapshot, insert the order, then
     * per line insert its row and decrement the stock; a failure returns
     * before anything is written, which is what the rollback restores.
     */
    method PlaceOrder(userId: Id, body: Option<seq<LineRequest>>, address: Option<string>,
                      orderId: Id, now: int) returns (r: Result<Order, CheckoutError>)
      modifies this
      ensures (r, State()) == Checkout(old(State()), userId, body, address, orderId, now)
    {
      if body.None? || |body.value| == 0 {
        return Failure(NoItems);
      }
      var items := body.value;
      var snap := ReadSnapshot(sweets, items);
      assert snap == Snapshot(sweets, items);
      var v := ValidateLines(snap, items);
      if v.Failure? {
        assert Checkout(old(State()), userId, body, address, orderId, now) == (Failure(v.error), old(State()));
        return Failure(v.error);
      }
      ValidateSpec(snap, items);
      var order := Order(orderId, Some(userId), v.value, StoredAddress(address), now);
      orders := orders + [order];
      WriteLines(orderId, snap, items);
      r := Success(order);
    }
  }
}
