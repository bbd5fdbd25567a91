/** The customer's menu page: which items are listed, how many of a variant are still
    available, the +/- selection counters and adding a selection to the cart
    (frontend/src/pages/Mobile/MenuItemsMobile.js). */
module MenuItemsMobile {
  import opened Js

  /** A menu item as the page receives it. */
  datatype Item = Item(itemId: nat, name: string, price: real, stock: int, isAvailable: int, categoryName: string)

  /** A cart line as stored in the browser; `remarks` is "" when none was chosen. */
  datatype Line = Line(itemId: nat, name: string, price: real, quantity: int, remarks: string, totalPrice: real)

  // ---------------------------------------------------------------- listing

  predicate Orderable(item: Item) {
    item.isAvailable == 1 && item.stock > 0
  }

  /** `items.filter(item => item.is_available === 1 && item.available_amount > 0)`. */
  function Listed(items: seq<Item>): (r: seq<Item>)
    ensures |r| <= |items|
    ensures forall item :: item in r <==> item in items && Orderable(item)
  {
    if items == [] then []
    else (if Orderable(items[0]) then [items[0]] else []) + Listed(items[1..])
  }

  /** Listing distributes over concatenation, so the listed items keep the menu's
      order. */
  lemma {:induction false} ListedAppend(a: seq<Item>, b: seq<Item>)
    ensures Listed(a + b) == Listed(a) + Listed(b)
  {
    if a == [] {
      assert a + b == b;
    } else {
      var ab := a + b;
      assert ab[0] == a[0] && ab[1..] == a[1..] + b;
      ListedAppend(a[1..], b);
      var h := if Orderable(a[0]) then [a[0]] else [];
      assert h + (Listed(a[1..]) + Listed(b)) == (h + Listed(a[1..])) + Listed(b);
    }
  }

  // ---------------------------------------------------------------- variants

  /** `${itemId}_${remarks || ''}`: the key of one (item, remarks) variant. */
  function VariantKey(itemId: nat, remarks: string): (k: string)
    ensures |k| > |NatToString(itemId)| && k[|NatToString(itemId)|] == '_'
    ensures k == NatToString(itemId) + "_" + remarks
  {
    NatToString(itemId) + "_" + remarks
  }

  /** Different variants never share a key: the digits of the id cannot contain '_'. */
  lemma VariantKeyInjective(a: nat, r: string, b: nat, s: string)
    requires VariantKey(a, r) == VariantKey(b, s)
    ensures a == b && r == s
  {
    var sa, sb := NatToString(a), NatToString(b);
    var k := VariantKey(a, r);
    if |sa| < |sb| {
      assert false;
    } else if |sb| < |sa| {
      assert false;
    } else {
      assert sa == k[..|sa|] == sb;
      NatToStringInjective(a, b);
      assert r == k[|sa| + 1..] == s;
    }
  }

  predicate SameVariant(l: Line, itemId: nat, remarks: string) {
    l.itemId == itemId && l.remarks == remarks
  }

  /** `getInCartQty`: the total quantity of cart lines of that variant. */
  function InCartQty(cart: seq<Line>, itemId: nat, remarks: string): (n: int)
    ensures (forall i :: 0 <= i < |cart| ==> cart[i].quantity >= 0) ==> n >= 0
    ensures (forall i :: 0 <= i < |cart| ==> !SameVariant(cart[i], itemId, remarks)) ==> n == 0
  {
    if cart == [] then 0
    else (if SameVariant(cart[0], itemId, remarks) then cart[0].quantity else 0) + InCartQty(cart[1..], itemId, remarks)
  }

  /** `menuItems.find(m => m.item_id === itemId)`. */
  function Find(items: seq<Item>, itemId: nat): (r: Option<Item>)
    ensures r.None? <==> forall i :: 0 <= i < |items| ==> items[i].itemId != itemId
    ensures r.Some? ==> r.value in items && r.value.itemId == itemId
  {
    if items == [] then None
    else if items[0].itemId == itemId then Some(items[0])
    else Find(items[1..], itemId)
  }

  /** `getRemainingStock`: 0 for an item not on the page, otherwise what is left of the
      stock after the cart and the current selection, never below 0. */
  function RemainingStock(items: seq<Item>, itemId: nat, remarks: string, q: map<string, int>, cart: seq<Line>)
    : (n: int)
    ensures n >= 0
    ensures Find(items, itemId).None? ==> n == 0
    ensures Find(items, itemId).Some? ==>
      n == Max(Find(items, itemId).value.stock - InCartQty(cart, itemId, remarks) - CountOr0(q, VariantKey(itemId, remarks)), 0)
  {
    match Find(items, itemId)
    case None => 0
    case Some(item) =>
      Max(item.stock - InCartQty(cart, itemId, remarks) - CountOr0(q, VariantKey(itemId, remarks)), 0)
  }

  /** '+': refused (counters unchanged) when nothing remains; otherwise that variant's
      count rises by one. */
  function Increment(items: seq<Item>, cart: seq<Line>, q: map<string, int>, itemId: nat, remarks: string)
    : (r: map<string, int>)
    ensures RemainingStock(items, itemId, remarks, q, cart) <= 0 ==> r == q
    ensures RemainingStock(items, itemId, remarks, q, cart) > 0 ==>
      r == q[VariantKey(itemId, remarks) := CountOr0(q, VariantKey(itemId, remarks)) + 1]
  {
    if RemainingStock(items, itemId, remarks, q, cart) <= 0 then q
    else q[VariantKey(itemId, remarks) := CountOr0(q, VariantKey(itemId, remarks)) + 1]
  }

  /** The reservation bound: what is in the cart plus what is selected never exceeds
      the stock through '+', and an accepted '+' ends within the stock. */
  lemma IncrementWithinStock(items: seq<Item>, cart: seq<Line>, q: map<string, int>, itemId: nat, remarks: string)
    requires Find(items, itemId).Some?
    ensures var key := VariantKey(itemId, remarks);
            var stock := Find(items, itemId).value.stock;
            var r := Increment(items, cart, q, itemId, remarks);
            r == q ||
            InCartQty(cart, itemId, remarks) + CountOr0(r, key) <= stock
    ensures var key := VariantKey(itemId, remarks);
            var stock := Find(items, itemId).value.stock;
            InCartQty(cart, itemId, remarks) + CountOr0(q, key) <= stock ==>
              InCartQty(cart, itemId, remarks) + CountOr0(Increment(items, cart, q, itemId, remarks), key) <= stock
  {
  }

  /** An item that is not on the page can never be selected. */
  lemma UnknownItemNotSelectable(items: seq<Item>, cart: seq<Line>, q: map<string, int>, itemId: nat, remarks: string)
    requires forall i :: 0 <= i < |items| ==> items[i].itemId != itemId
    ensures Increment(items, cart, q, itemId, remarks) == q
  {
  }

  /** '-': that variant's count falls by one and never below 0. */
  function Decrement(q: map<string, int>, itemId: nat, remarks: string): (r: map<string, int>)
    ensures var key := VariantKey(itemId, remarks);
            r.Keys == q.Keys + {key} && r[key] >= 0 &&
            (CountOr0(q, key) > 0 ==> r[key] == CountOr0(q, key) - 1) &&
            (CountOr0(q, key) <= 0 ==> r[key] == 0) &&
            forall k :: k in q && k != key ==> r[k] == q[k]
  {
    var key := VariantKey(itemId, remarks);
    q[key := Max(CountOr0(q, key) - 1, 0)]
  }

  // ---------------------------------------------------------------- add to cart

  /** The cart after merging `line`: the first line of the same variant absorbs its
      quantity and total, or `line` is appended when there is none. */
  function Merged(cart: seq<Line>, line: Line): (r: seq<Line>)
    ensures |r| == |cart| || |r| == |cart| + 1
  {
    if cart == [] then [line]
    else if SameVariant(cart[0], line.itemId, line.remarks) then
      [cart[0].(quantity := cart[0].quantity + line.quantity,
                totalPrice := cart[0].totalPrice + line.totalPrice)] + cart[1..]
    else [cart[0]] + Merged(cart[1..], line)
  }

  /** No two lines of the cart are the same variant. */
  ghost predicate NoDuplicateVariants(cart: seq<Line>) {
    forall i, j :: 0 <= i < j < |cart| ==> !SameVariant(cart[j], cart[i].itemId, cart[i].remarks)
  }

  /** Merging adds exactly the line's quantity to its own variant and nothing to any
      other. */
  lemma {:induction false} MergedInCart(cart: seq<Line>, line: Line, itemId: nat, remarks: string)
    ensures InCartQty(Merged(cart, line), itemId, remarks) ==
      InCartQty(cart, itemId, remarks) + (if SameVariant(line, itemId, remarks) then line.quantity else 0)
  {
    if cart != [] {
      var r := Merged(cart, line);
      if SameVariant(cart[0], line.itemId, line.remarks) {
        assert r[1..] == cart[1..];
      } else {
        assert r[1..] == Merged(cart[1..], line);
        MergedInCart(cart[1..], line, itemId, remarks);
      }
    }
  }

  /** Merging never creates a second line for a variant. */
  lemma {:induction false} MergedNoDuplicates(cart: seq<Line>, line: Line)
    requires NoDuplicateVariants(cart)
    ensures NoDuplicateVariants(Merged(cart, line))
    ensures forall l :: l in Merged(cart, line) ==>
      l == line || exists m :: m in cart && SameVariant(l, m.itemId, m.remarks)
  {
    if cart != [] {
      var r := Merged(cart, line);
      if SameVariant(cart[0], line.itemId, line.remarks) {
        assert r[1..] == cart[1..];
        forall l | l in r ensures l == line || exists m :: m in cart && SameVariant(l, m.itemId, m.remarks) {
          if l == r[0] { assert SameVariant(l, cart[0].itemId, cart[0].remarks); }
          else { assert l in cart[1..]; var m := l; assert m in cart; assert SameVariant(l, m.itemId, m.remarks); }
        }
      } else {
        var t := Merged(cart[1..], line);
        MergedNoDuplicates(cart[1..], line);
        assert r == [cart[0]] + t;
        forall j | 0 < j < |r| ensures !SameVariant(r[j], cart[0].itemId, cart[0].remarks) {
          assert r[j] == t[j - 1] && t[j - 1] in t;
          if r[j] != line {
            var m :| m in cart[1..] && SameVariant(r[j], m.itemId, m.remarks);
            var jm :| 0 <= jm < |cart[1..]| && cart[1..][jm] == m;
            assert cart[jm + 1] == m;
          }
        }
        forall l | l in r ensures l == line || exists m :: m in cart && SameVariant(l, m.itemId, m.remarks) {
          if l == cart[0] { assert SameVariant(l, cart[0].itemId, cart[0].remarks); }
          else {
            assert l in t;
            if l != line {
              var m :| m in cart[1..] && SameVariant(l, m.itemId, m.remarks);
              assert m in cart;
            }
          }
        }
      }
    }
  }

  /** Where `findIndex` stops, `Merged` merges; when it runs off the end, `Merged`
      appends. */
  lemma {:induction false} MergedAt(cart: seq<Line>, line: Line, i: nat)
    requires i <= |cart|
    requires forall j :: 0 <= j < i ==> !SameVariant(cart[j], line.itemId, line.remarks)
    requires i < |cart| ==> SameVariant(cart[i], line.itemId, line.remarks)
    ensures i < |cart| ==>
      Merged(cart, line) == cart[i := cart[i].(quantity := cart[i].quantity + line.quantity,
                                              totalPrice := cart[i].totalPrice + line.totalPrice)]
    ensures i == |cart| ==> Merged(cart, line) == cart + [line]
  {
    if cart != [] && i > 0 {
      MergedAt(cart[1..], line, i - 1);
    }
  }

  /** The line the page builds for `n` of a variant: `total_price = price * quantity`. */
  function NewLine(item: Item, remarks: string, n: int): (l: Line)
    ensures l.itemId == item.itemId && l.remarks == remarks && l.quantity == n
    ensures l.totalPrice == item.price * n as real
  {
    Line(item.itemId, item.name, item.price, n, remarks, item.price * n as real)
  }

  /** The 'Add to Cart' button: nothing happens when the variant's count is 0; otherwise
      the selected count is merged into the cart at `price * quantity` and the counter of
      that variant goes back to 0. */
  method AddToCart(cart: seq<Line>, q: map<string, int>, item: Item, remarks: string)
    returns (newCart: seq<Line>, newQ: map<string, int>)
    ensures var n := CountOr0(q, VariantKey(item.itemId, remarks));
            n == 0 ==> newCart == cart && newQ == q
    ensures var n := CountOr0(q, VariantKey(item.itemId, remarks));
            n != 0 ==>
              newCart == Merged(cart, NewLine(item, remarks, n)) &&
              newQ == q[VariantKey(item.itemId, remarks) := 0]
  {
    var key := VariantKey(item.itemId, remarks);
    var n := CountOr0(q, key);
    if n == 0 {
      return cart, q;
    }
    var line := NewLine(item, remarks, n);
    var i := 0;
    while i < |cart| && !SameVariant(cart[i], line.itemId, line.remarks)
      invariant 0 <= i <= |cart|
      invariant forall j :: 0 <= j < i ==> !SameVariant(cart[j], line.itemId, line.remarks)
    {
      i := i + 1;
    }
    MergedAt(cart, line, i);
    if i < |cart| {
      newCart := cart[i := cart[i].(quantity := cart[i].quantity + n, totalPrice := cart[i].totalPrice + line.totalPrice)];
    } else {
      newCart := cart + [line];
    }
    newQ := q[key := 0];
  }

  /** Adding to the cart moves the selection into the cart: for that variant, in-cart
      plus selected is the same before and after, so the stock bound survives. */
  lemma AddToCartKeepsReservation(cart: seq<Line>, q: map<string, int>, item: Item, remarks: string)
    requires CountOr0(q, VariantKey(item.itemId, remarks)) != 0
    ensures var key := VariantKey(item.itemId, remarks);
            var n := CountOr0(q, key);
            var line := NewLine(item, remarks, n);
            InCartQty(Merged(cart, line), item.itemId, remarks) + CountOr0(q[key := 0], key) ==
            InCartQty(cart, item.itemId, remarks) + n
  {
    var key := VariantKey(item.itemId, remarks);
    var n := CountOr0(q, key);
    var line := NewLine(item, remarks, n);
    MergedInCart(cart, line, item.itemId, remarks);
  }
}
