/**
 * The client-side cart of frontend/src/cart.jsx: a list of entries keyed by
 * sweet id that `addItem`, `setQty`, `removeItem` and `clear` replace, and the
 * `subtotal` folded over it. Prices are integers in the smallest currency unit.
 */
module CartStore {
  import opened Wrappers

  type Id = string

  /** A stock cap; `sweet.quantity || Infinity` makes 0 or a missing quantity no cap at all. */
  datatype Cap = Finite(n: int) | Unbounded

  /** The catalog sweet the shop page hands to `addItem`; absent fields are None. */
  datatype CatalogSweet = CatalogSweet(id: Id, name: string, price: Option<int>, quantity: Option<int>, image: Option<string>)

  /** A cart entry; a price that is missing or not a number is None. */
  datatype Entry = Entry(id: Id, name: string, price: Option<int>, qty: int, image: string, maxQuantity: Cap)

  function StockCap(quantity: Option<int>): (c: Cap)
    ensures c.Unbounded? <==> quantity.None? || quantity.value == 0
    ensures c.Finite? ==> quantity == Some(c.n)
  {
    if quantity.None? || quantity.value == 0 then Unbounded else Finite(quantity.value)
  }

  /** `Math.min(a, cap)`, where an unbounded cap is Infinity. */
  function MinCap(a: int, cap: Cap): (r: int)
    ensures r <= a
    ensures cap.Finite? ==> r <= cap.n && (r == a || r == cap.n)
    ensures cap.Unbounded? ==> r == a
  {
    match cap
    case Unbounded => a
    case Finite(n) => if a <= n then a else n
  }

  /** `findIndex(x => x.id === id)`: the first entry with that id, or -1. */
  function IndexOf(items: seq<Entry>, id: Id): (i: int)
    ensures -1 <= i < |items|
    ensures i >= 0 ==> items[i].id == id && forall k :: 0 <= k < i ==> items[k].id != id
    ensures i < 0 ==> forall k :: 0 <= k < |items| ==> items[k].id != id
  {
    if items == [] then -1
    else if items[0].id == id then 0
    else
      var i := IndexOf(items[1..], id);
      if i < 0 then -1 else i + 1
  }

  predicate DistinctIds(items: seq<Entry>) {
    forall i, j :: 0 <= i < j < |items| ==> items[i].id != items[j].id
  }

  /** The entry `addItem` appends for a sweet not yet in the cart. */
  function NewEntry(sweet: CatalogSweet, qty: int): (e: Entry)
    ensures e.id == sweet.id && e.name == sweet.name && e.price == sweet.price
    ensures e.maxQuantity == StockCap(sweet.quantity)
    ensures e.qty == MinCap(qty, e.maxQuantity)
    ensures e.qty <= qty && (e.maxQuantity.Finite? ==> e.qty <= e.maxQuantity.n)
    ensures e.image == sweet.image.GetOr("")
    ensures e.image == "" <==> sweet.image.None? || sweet.image == Some("")
  {
    var cap := StockCap(sweet.quantity);
    Entry(sweet.id, sweet.name, sweet.price, MinCap(qty, cap), sweet.image.GetOr(""), cap)
  }

  /** `addItem(sweet, qty)`: merge into the entry with that id, or append a new one. */
  function Added(items: seq<Entry>, sweet: CatalogSweet, qty: int): (r: seq<Entry>)
    ensures |items| <= |r| <= |items| + 1
    ensures exists k :: 0 <= k < |r| && r[k].id == sweet.id
  {
    var i := IndexOf(items, sweet.id);
    if i >= 0 then
      var r := items[i := items[i].(qty := MinCap(items[i].qty + qty, StockCap(sweet.quantity)))];
      assert r[i].id == sweet.id;
      r
    else
      var r := items + [NewEntry(sweet, qty)];
      assert r[|items|].id == sweet.id;
      r
  }

  /** `setQty(id, q)`: every entry with that id gets qty `Math.max(1, q)`. */
  function WithQty(items: seq<Entry>, id: Id, q: int): (r: seq<Entry>)
    ensures |r| == |items|
    ensures forall k :: 0 <= k < |r| ==> r[k].id == items[k].id
    ensures forall k :: 0 <= k < |r| && r[k] != items[k] ==> r[k].qty >= 1
  {
    seq(|items|, k requires 0 <= k < |items| =>
      if items[k].id == id then items[k].(qty := if q < 1 then 1 else q) else items[k])
  }

  /** `removeItem(id)`: keep the entries whose id differs. */
  function Removed(items: seq<Entry>, id: Id): (r: seq<Entry>)
    ensures |r| <= |items|
    ensures forall k :: 0 <= k < |r| ==> r[k].id != id
  {
    if items == [] then []
    else (if items[0].id == id then [] else [items[0]]) + Removed(items[1..], id)
  }

  /** `(Number(it.price) || 0) * (it.qty || 0)`. */
  function Amount(e: Entry): int {
    e.price.GetOr(0) * e.qty
  }

  /** `items.reduce((s, it) => s + amount(it), 0)`, folded from the left. */
  function Subtotal(items: seq<Entry>): (t: int)
    ensures (forall k :: 0 <= k < |items| ==> items[k].price.GetOr(0) >= 0 && items[k].qty >= 0) ==> t >= 0
  {
    if items == [] then 0
    else Subtotal(items[..|items| - 1]) + Amount(items[|items| - 1])
  }

  // ---------------------------------------------------------------------------
  // addItem

  /**
   * Adding a sweet already in the cart changes only that entry, whose qty
   * becomes min(old qty + qty, stock cap); adding a new sweet appends one
   * entry at the end with qty min(qty, cap) and the cap recorded. Either way
   * ids stay pairwise distinct.
   */
  lemma AddedSpec(items: seq<Entry>, sweet: CatalogSweet, qty: int)
    requires DistinctIds(items)
    ensures var r := Added(items, sweet, qty);
      DistinctIds(r)
    ensures var r := Added(items, sweet, qty);
      (exists k :: 0 <= k < |items| && items[k].id == sweet.id) ==>
        && |r| == |items|
        && forall k :: 0 <= k < |items| ==>
             r[k] == if items[k].id == sweet.id
                     then items[k].(qty := MinCap(items[k].qty + qty, StockCap(sweet.quantity)))
                     else items[k]
    ensures var r := Added(items, sweet, qty);
      (forall k :: 0 <= k < |items| ==> items[k].id != sweet.id) ==>
        && r[..|items|] == items
        && r == items + [NewEntry(sweet, qty)]
        && r[|items|].qty == MinCap(qty, StockCap(sweet.quantity))
        && r[|items|].maxQuantity == StockCap(sweet.quantity)
  {
    var r := Added(items, sweet, qty);
    var i := IndexOf(items, sweet.id);
    if i < 0 {
      assert r[..|items|] == items;
    }
  }

  /** With a finite cap, the entry for the added sweet never holds more than the cap. */
  lemma AddedRespectsCap(items: seq<Entry>, sweet: CatalogSweet, qty: int, k: nat)
    requires StockCap(sweet.quantity).Finite?
    requires k < |Added(items, sweet, qty)|
    requires Added(items, sweet, qty)[k].id == sweet.id
    requires DistinctIds(items)
    ensures Added(items, sweet, qty)[k].qty <= sweet.quantity.value
  {
  }

  // ---------------------------------------------------------------------------
  // setQty and removeItem

  /**
   * Setting a qty keeps every entry's position and id; the entries with that
   * id get max(1, q), which is never below 1 and is not clamped to the cap;
   * every other entry is unchanged.
   */
  lemma WithQtySpec(items: seq<Entry>, id: Id, q: int)
    ensures var r := WithQty(items, id, q);
      && |r| == |items|
      && (DistinctIds(items) ==> DistinctIds(r))
      && (forall k :: 0 <= k < |items| ==> r[k].id == items[k].id)
      && (forall k :: 0 <= k < |items| && items[k].id == id ==>
            r[k] == items[k].(qty := r[k].qty) && r[k].qty == (if q < 1 then 1 else q) && r[k].qty >= 1)
      && (forall k :: 0 <= k < |items| && items[k].id != id ==> r[k] == items[k])
  {
  }

  /** Removing keeps exactly the entries with a different id. */
  lemma {:induction false} RemovedMembers(items: seq<Entry>, id: Id)
    ensures forall e :: e in Removed(items, id) <==> e in items && e.id != id
    ensures |Removed(items, id)| <= |items|
  {
    if items != [] {
      RemovedMembers(items[1..], id);
      assert items == [items[0]] + items[1..];
    }
  }

  /** Removing distributes over concatenation, so the survivors keep their relative order. */
  lemma {:induction false} RemovedAppend(a: seq<Entry>, b: seq<Entry>, id: Id)
    ensures Removed(a + b, id) == Removed(a, id) + Removed(b, id)
  {
    if a != [] {
      RemovedAppend(a[1..], b, id);
      assert (a + b)[1..] == a[1..] + b;
    } else {
      assert a + b == b;
    }
  }

  /** Removing an id that no entry has gives back the same cart. */
  lemma {:induction false} RemovedAbsent(items: seq<Entry>, id: Id)
    requires forall k :: 0 <= k < |items| ==> items[k].id != id
    ensures Removed(items, id) == items
  {
    if items != [] {
      RemovedAbsent(items[1..], id);
      assert items == [items[0]] + items[1..];
    }
  }

  // ---------------------------------------------------------------------------
  // subtotal

  lemma {:induction false} SubtotalAppend(a: seq<Entry>, b: seq<Entry>)
    ensures Subtotal(a + b) == Subtotal(a) + Subtotal(b)
    decreases |b|
  {
    if b == [] {
      assert a + b == a;
    } else {
      var n := |b| - 1;
      assert (a + b)[..|a + b| - 1] == a + b[..n];
      SubtotalAppend(a, b[..n]);
    }
  }

  lemma RemovedSplit(a: seq<Entry>, e: Entry, b: seq<Entry>)
    requires forall k :: 0 <= k < |a| ==> a[k].id != e.id
    requires forall k :: 0 <= k < |b| ==> b[k].id != e.id
    ensures Removed(a + [e] + b, e.id) == a + b
  {
    RemovedAppend(a + [e], b, e.id);
    RemovedAppend(a, [e], e.id);
    RemovedAbsent(a, e.id);
    RemovedAbsent(b, e.id);
    assert Removed([e], e.id) == [];
    assert a + [] == a;
  }

  lemma SubtotalSplit(a: seq<Entry>, e: Entry, b: seq<Entry>)
    ensures Subtotal(a + [e] + b) == Subtotal(a + b) + Amount(e)
  {
    SubtotalAppend(a + [e], b);
    assert (a + [e])[..|a|] == a;
    SubtotalAppend(a, b);
  }

  /** Removing the one entry with an id takes exactly its amount off the subtotal. */
  lemma SubtotalRemoved(items: seq<Entry>, i: nat)
    requires DistinctIds(items)
    requires i < |items|
    ensures Subtotal(Removed(items, items[i].id)) == Subtotal(items) - Amount(items[i])
  {
    var e := items[i];
    var a, b := SplitAround(items, i);
    RemovedSplit(a, e, b);
    SubtotalSplit(a, e, b);
  }

  /** A cart with distinct ids splits around any entry into parts that do not contain its id. */
  lemma SplitAround(items: seq<Entry>, i: nat) returns (a: seq<Entry>, b: seq<Entry>)
    requires DistinctIds(items)
    requires i < |items|
    ensures items == a + [items[i]] + b
    ensures forall k :: 0 <= k < |a| ==> a[k].id != items[i].id
    ensures forall k :: 0 <= k < |b| ==> b[k].id != items[i].id
  {
    a, b := items[..i], items[i + 1..];
    assert forall k :: 0 <= k < |b| ==> b[k] == items[i + 1 + k];
  }

  /** A new sweet adds min(qty, cap) times its price to the subtotal. */
  lemma SubtotalAddedNew(items: seq<Entry>, sweet: CatalogSweet, qty: int)
    requires forall k :: 0 <= k < |items| ==> items[k].id != sweet.id
    ensures Subtotal(Added(items, sweet, qty))
      == Subtotal(items) + sweet.price.GetOr(0) * MinCap(qty, StockCap(sweet.quantity))
  {
    var e := NewEntry(sweet, qty);
    assert (items + [e])[..|items|] == items;
  }

  // ---------------------------------------------------------------------------
  // The provider state

  /** `CartProvider`'s `items` state and the operations that replace it. */
  class CartProvider {
    var items: seq<Entry>

    ghost predicate Valid()
      reads this
    {
      DistinctIds(items)
    }

    constructor ()
      ensures Valid() && items == []
    {
      items := [];
    }

    method AddItem(sweet: CatalogSweet, qty: int)
      requires Valid()
      modifies this
      ensures Valid()
      ensures items == Added(old(items), sweet, qty)
    {
      AddedSpec(items, sweet, qty);
      items := Added(items, sweet, qty);
    }

    method SetQty(id: Id, q: int)
      requires Valid()
      modifies this
      ensures Valid()
      ensures items == WithQty(old(items), id, q)
    {
      WithQtySpec(items, id, q);
      items := WithQty(items, id, q);
    }

    method RemoveItem(id: Id)
      requires Valid()
      modifies this
      ensures Valid()
      ensures items == Removed(old(items), id)
    {
      RemovedDistinct(items, id);
      items := Removed(items, id);
    }

    method Clear()
      modifies this
      ensures Valid() && items == [] && Subtotal(items) == 0
    {
      items := [];
    }

    /** The `subtotal` the provider exposes. */
    function CartSubtotal(): int
      reads this
    {
      Subtotal(items)
    }
  }

  /** Removing entries keeps ids distinct. */
  lemma {:induction false} RemovedDistinct(items: seq<Entry>, id: Id)
    requires DistinctIds(items)
    ensures DistinctIds(Removed(items, id))
  {
    if items != [] {
      assert DistinctIds(items[1..]);
      RemovedDistinct(items[1..], id);
      RemovedMembers(items[1..], id);
      var r := Removed(items, id);
      var rest := Removed(items[1..], id);
      if items[0].id != id {
        forall j | 0 < j < |r| ensures r[j].id != items[0].id {
          assert r[j] == rest[j - 1];
          assert rest[j - 1] in rest;
        }
      }
    }
  }
}
