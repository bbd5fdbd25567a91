/** The item-quantity map and checkout of the plain ordering page
    (backend/controller/menuController.js). */
module MenuController {
  import opened Js

  datatype CatalogItem = CatalogItem(itemId: int, name: string, price: real)

  datatype CheckoutLine = CheckoutLine(itemId: int, name: string, quantity: int, price: real, totalPrice: real)

  /** Every listed item starts at quantity 0, and no other key is present. */
  function InitialQuantities(items: seq<CatalogItem>): (q: map<int, int>)
    ensures forall id :: id in q <==> exists i :: 0 <= i < |items| && items[i].itemId == id
    ensures forall id :: id in q ==> q[id] == 0
  {
    var ids := set i | 0 <= i < |items| :: items[i].itemId;
    map id | id in ids :: 0
  }

  /** `{ ...prev, [itemId]: (prev[itemId] || 0) + 1 }`. */
  function Increment(q: map<int, int>, id: int): (r: map<int, int>)
    ensures r.Keys == q.Keys + {id}
    ensures r[id] == CountOr0(q, id) + 1
    ensures forall k :: k in q && k != id ==> r[k] == q[k]
  {
    q[id := CountOr0(q, id) + 1]
  }

  /** `{ ...prev, [itemId]: Math.max((prev[itemId] || 0) - 1, 0) }`. */
  function Decrement(q: map<int, int>, id: int): (r: map<int, int>)
    ensures r.Keys == q.Keys + {id}
    ensures r[id] >= 0 && r[id] <= Max(CountOr0(q, id), 0)
    ensures CountOr0(q, id) > 0 ==> r[id] == CountOr0(q, id) - 1
    ensures CountOr0(q, id) <= 0 ==> r[id] == 0
    ensures forall k :: k in q && k != id ==> r[k] == q[k]
  {
    q[id := Max(CountOr0(q, id) - 1, 0)]
  }

  /** '-' undoes '+' on a listed item whose count is not negative. */
  lemma DecrementUndoesIncrement(q: map<int, int>, id: int)
    requires id in q && q[id] >= 0
    ensures Decrement(Increment(q, id), id) == q
  {
  }

  /** No sequence of '+' and '-' makes a count negative once it starts at 0. */
  ghost predicate NonNegative(q: map<int, int>) {
    forall k :: k in q ==> q[k] >= 0
  }

  lemma CountsStayNonNegative(q: map<int, int>, id: int)
    requires NonNegative(q)
    ensures NonNegative(Increment(q, id)) && NonNegative(Decrement(q, id))
  {
  }

  /** The cart line of one selected item: `total_price = quantity * price`. */
  function LineOf(item: CatalogItem, n: int): (l: CheckoutLine)
    ensures l.itemId == item.itemId && l.quantity == n && l.totalPrice == n as real * item.price
  {
    CheckoutLine(item.itemId, item.name, n, item.price, n as real * item.price)
  }

  /** `menuItems.filter(qty > 0).map(...)`: one line per item with a positive count,
      in menu order. */
  function Checkout(items: seq<CatalogItem>, q: map<int, int>): (lines: seq<CheckoutLine>)
    ensures |lines| <= |items|
    ensures forall l :: l in lines ==> l.quantity > 0
    ensures forall l :: l in lines ==> exists item :: item in items && l == LineOf(item, CountOr0(q, item.itemId))
    ensures forall item :: item in items && CountOr0(q, item.itemId) > 0 ==> LineOf(item, CountOr0(q, item.itemId)) in lines
  {
    if items == [] then []
    else
      var n := CountOr0(q, items[0].itemId);
      (if n > 0 then [LineOf(items[0], n)] else []) + Checkout(items[1..], q)
  }

  /** Checkout keeps menu order: it distributes over concatenation. */
  lemma {:induction false} CheckoutAppend(a: seq<CatalogItem>, b: seq<CatalogItem>, q: map<int, int>)
    ensures Checkout(a + b, q) == Checkout(a, q) + Checkout(b, q)
  {
    if a == [] {
      assert a + b == b;
    } else {
      assert (a + b)[0] == a[0];
      assert (a + b)[1..] == a[1..] + b;
      CheckoutAppend(a[1..], b, q);
    }
  }

  /** With every count back at 0 (the initial map), checkout is empty. */
  lemma {:induction false} CheckoutOfInitial(items: seq<CatalogItem>, all: seq<CatalogItem>)
    requires forall item :: item in items ==> item in all
    ensures Checkout(items, InitialQuantities(all)) == []
  {
    if items != [] {
      assert items[0] in all;
      CheckoutOfInitial(items[1..], all);
    }
  }
}
