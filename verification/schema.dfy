/**
 * The rows of the shop's database (backend/src/init_db.js) and the sums over
 * them that both the checkout and the statistics speak about.
 * Money is an integer number of the smallest currency unit.
 */
module Schema {
  import opened Wrappers

  type Id = string

  /** A catalog row: `sweets(id, name, price, quantity)`. No CHECK keeps quantity >= 0. */
  datatype Sweet = Sweet(name: string, price: int, quantity: int)

  /** An `orders` row; the owner becomes None when the user is deleted (ON DELETE SET NULL). */
  datatype Order = Order(id: Id, userId: Option<Id>, total: int, address: Option<string>, createdAt: int)

  /** An `order_items` row, with the unit price captured at purchase time. */
  datatype OrderLine = OrderLine(orderId: Id, sweetId: Id, price: int, qty: int)

  /** The whole store: catalog keyed by id, orders and order lines in insertion order. */
  datatype Db = Db(sweets: map<Id, Sweet>, orders: seq<Order>, lines: seq<OrderLine>)

  /** The authenticated caller as the auth middleware supplies it. */
  datatype Principal = Principal(id: Id, role: string)

  predicate IsAdmin(p: Principal) {
    p.role == "admin"
  }

  function OrderIds(orders: seq<Order>): set<Id> {
    set o | o in orders :: o.id
  }

  ghost predicate UniqueOrderIds(orders: seq<Order>) {
    forall i, j :: 0 <= i < j < |orders| ==> orders[i].id != orders[j].id
  }

  /**
   * What every committed store satisfies: order ids are keys, every line
   * belongs to an order, and each order's total is the sum of price * qty
   * over its own lines.
   */
  ghost predicate Consistent(db: Db) {
    && UniqueOrderIds(db.orders)
    && (forall l :: l in db.lines ==> l.orderId in OrderIds(db.orders))
    && (forall o :: o in db.orders ==> o.total == LinesValue(LinesOf(db.lines, o.id)))
  }

  /** Sum of price * qty over order lines. */
  function LinesValue(lines: seq<OrderLine>): int {
    if lines == [] then 0
    else LinesValue(lines[..|lines| - 1]) + lines[|lines| - 1].price * lines[|lines| - 1].qty
  }

  /** Sum of qty over order lines. */
  function LinesQty(lines: seq<OrderLine>): int {
    if lines == [] then 0
    else LinesQty(lines[..|lines| - 1]) + lines[|lines| - 1].qty
  }

  /** The lines of one order, in insertion order. */
  function LinesOf(lines: seq<OrderLine>, orderId: Id): (r: seq<OrderLine>)
    ensures forall l :: l in r <==> l in lines && l.orderId == orderId
    ensures |r| <= |lines|
  {
    if lines == [] then []
    else
      var rest := LinesOf(lines[..|lines| - 1], orderId);
      var l := lines[|lines| - 1];
      assert lines == lines[..|lines| - 1] + [l];
      if l.orderId == orderId then rest + [l] else rest
  }

  /** The lines that sold one sweet. */
  function LinesForSweet(lines: seq<OrderLine>, sweetId: Id): (r: seq<OrderLine>)
    ensures forall l :: l in r <==> l in lines && l.sweetId == sweetId
    ensures |r| <= |lines|
  {
    if lines == [] then []
    else
      var rest := LinesForSweet(lines[..|lines| - 1], sweetId);
      var l := lines[|lines| - 1];
      assert lines == lines[..|lines| - 1] + [l];
      if l.sweetId == sweetId then rest + [l] else rest
  }

  lemma {:induction false} LinesValueAppend(a: seq<OrderLine>, b: seq<OrderLine>)
    ensures LinesValue(a + b) == LinesValue(a) + LinesValue(b)
    decreases |b|
  {
    if b == [] {
      assert a + b == a;
    } else {
      var n := |b| - 1;
      assert (a + b)[..|a + b| - 1] == a + b[..n];
      LinesValueAppend(a, b[..n]);
    }
  }

  lemma {:induction false} LinesQtyAppend(a: seq<OrderLine>, b: seq<OrderLine>)
    ensures LinesQty(a + b) == LinesQty(a) + LinesQty(b)
    decreases |b|
  {
    if b == [] {
      assert a + b == a;
    } else {
      var n := |b| - 1;
      assert (a + b)[..|a + b| - 1] == a + b[..n];
      LinesQtyAppend(a, b[..n]);
    }
  }

  lemma {:induction false} LinesOfAppend(a: seq<OrderLine>, b: seq<OrderLine>, orderId: Id)
    ensures LinesOf(a + b, orderId) == LinesOf(a, orderId) + LinesOf(b, orderId)
    decreases |b|
  {
    if b == [] {
      assert a + b == a;
    } else {
      var n := |b| - 1;
      assert (a + b)[..|a + b| - 1] == a + b[..n];
      LinesOfAppend(a, b[..n], orderId);
    }
  }

  lemma {:induction false} LinesForSweetAppend(a: seq<OrderLine>, b: seq<OrderLine>, sweetId: Id)
    ensures LinesForSweet(a + b, sweetId) == LinesForSweet(a, sweetId) + LinesForSweet(b, sweetId)
    decreases |b|
  {
    if b == [] {
      assert a + b == a;
    } else {
      var n := |b| - 1;
      assert (a + b)[..|a + b| - 1] == a + b[..n];
      LinesForSweetAppend(a, b[..n], sweetId);
    }
  }

  /** Lines that all belong to one order: selecting that order keeps them all, any other order none. */
  lemma {:induction false} LinesOfUniform(lines: seq<OrderLine>, orderId: Id, other: Id)
    requires forall l :: l in lines ==> l.orderId == orderId
    ensures LinesOf(lines, orderId) == lines
    ensures other != orderId ==> LinesOf(lines, other) == []
  {
    if lines != [] {
      var n := |lines| - 1;
      assert lines == lines[..n] + [lines[n]];
      LinesOfUniform(lines[..n], orderId, other);
    }
  }

  /** No line names an order id outside the store: selecting it gives nothing. */
  lemma NoLinesOf(lines: seq<OrderLine>, orderId: Id)
    requires forall l :: l in lines ==> l.orderId != orderId
    ensures LinesOf(lines, orderId) == []
  {
  }

  /**
   * Committing one order with a fresh id, together with lines that all carry
   * that id and whose value is the order's total, keeps the store consistent.
   */
  lemma AppendOrderConsistent(db: Db, sweets: map<Id, Sweet>, order: Order, added: seq<OrderLine>)
    requires Consistent(db)
    requires order.id !in OrderIds(db.orders)
    requires forall l :: l in added ==> l.orderId == order.id
    requires order.total == LinesValue(added)
    ensures Consistent(Db(sweets, db.orders + [order], db.lines + added))
  {
    var db' := Db(sweets, db.orders + [order], db.lines + added);
    forall i | 0 <= i < |db.orders| ensures db.orders[i].id != order.id {
      assert db.orders[i] in db.orders;
    }
    assert OrderIds(db'.orders) == OrderIds(db.orders) + {order.id};
    forall o | o in db'.orders ensures o.total == LinesValue(LinesOf(db'.lines, o.id)) {
      LinesOfAppend(db.lines, added, o.id);
      LinesOfUniform(added, order.id, o.id);
      if o.id == order.id {
        assert o == order;
        NoLinesOf(db.lines, order.id);
        assert LinesOf(db'.lines, o.id) == [] + added;
        assert [] + added == added;
      } else {
        assert o in db.orders;
        assert LinesOf(db'.lines, o.id) == LinesOf(db.lines, o.id) + [];
        assert LinesOf(db.lines, o.id) + [] == LinesOf(db.lines, o.id);
      }
    }
  }
}
