/** The customer's cart page: subtotal, removing a line, the discount code map and its
    apply button, the displayed final total and placing the order
    (frontend/src/pages/Mobile/CartMobile.js). */
module CartMobile {
  import opened Js
  import opened MenuItemsMobile
  import OrderBackend

  /** `cart.reduce((subTotal, item) => subTotal + item.total_price, 0)`. */
  function SubTotal(cart: seq<Line>): (t: real)
    ensures (forall i :: 0 <= i < |cart| ==> cart[i].totalPrice >= 0.0) ==> t >= 0.0
  {
    if cart == [] then 0.0 else SubTotal(cart[..|cart| - 1]) + cart[|cart| - 1].totalPrice
  }

  // ---------------------------------------------------------------- remove

  /** `cart.filter(item => !(item.item_id === itemId && item.remarks === remarks))`. */
  function RemoveItem(cart: seq<Line>, itemId: nat, remarks: string): (r: seq<Line>)
    ensures |r| <= |cart|
    ensures forall l :: l in r <==> l in cart && !SameVariant(l, itemId, remarks)
  {
    if cart == [] then []
    else (if SameVariant(cart[0], itemId, remarks) then [] else [cart[0]]) + RemoveItem(cart[1..], itemId, remarks)
  }

  /** Removing keeps the order of the remaining lines: it distributes over
      concatenation. */
  lemma {:induction false} RemoveItemAppend(a: seq<Line>, b: seq<Line>, itemId: nat, remarks: string)
    ensures RemoveItem(a + b, itemId, remarks) == RemoveItem(a, itemId, remarks) + RemoveItem(b, itemId, remarks)
  {
    if a == [] {
      assert a + b == b;
    } else {
      var h := if SameVariant(a[0], itemId, remarks) then [] else [a[0]];
      var ab := a + b;
      assert ab[0] == a[0] && ab[1..] == a[1..] + b;
      RemoveItemAppend(a[1..], b, itemId, remarks);
      var x, y := RemoveItem(a[1..], itemId, remarks), RemoveItem(b, itemId, remarks);
      calc {
        RemoveItem(ab, itemId, remarks);
        h + RemoveItem(a[1..] + b, itemId, remarks);
        h + (x + y);
        { assert h + (x + y) == (h + x) + y; }
        (h + x) + y;
      }
    }
  }

  /** After removing a variant none of it is left in the cart, and every other variant
      keeps its in-cart quantity. */
  lemma {:induction false} RemoveItemInCart(cart: seq<Line>, itemId: nat, remarks: string, otherId: nat, otherRemarks: string)
    ensures InCartQty(RemoveItem(cart, itemId, remarks), itemId, remarks) == 0
    ensures (otherId != itemId || otherRemarks != remarks) ==>
      InCartQty(RemoveItem(cart, itemId, remarks), otherId, otherRemarks) == InCartQty(cart, otherId, otherRemarks)
  {
    var r := RemoveItem(cart, itemId, remarks);
    assert forall i :: 0 <= i < |r| ==> r[i] in r;
    if otherId != itemId || otherRemarks != remarks {
      RemoveOtherVariant(cart, itemId, remarks, otherId, otherRemarks);
    }
  }

  lemma {:induction false} RemoveOtherVariant(cart: seq<Line>, itemId: nat, remarks: string, otherId: nat, otherRemarks: string)
    requires otherId != itemId || otherRemarks != remarks
    ensures InCartQty(RemoveItem(cart, itemId, remarks), otherId, otherRemarks) == InCartQty(cart, otherId, otherRemarks)
  {
    if cart != [] {
      RemoveOtherVariant(cart[1..], itemId, remarks, otherId, otherRemarks);
      var t := RemoveItem(cart[1..], itemId, remarks);
      if !SameVariant(cart[0], itemId, remarks) {
        assert RemoveItem(cart, itemId, remarks) == [cart[0]] + t;
        assert ([cart[0]] + t)[1..] == t;
      } else {
        assert RemoveItem(cart, itemId, remarks) == t;
      }
    }
  }

  // ---------------------------------------------------------------- discounts

  /** One of the customer's redeemed discounts as the page receives it. */
  datatype DiscountRow = DiscountRow(code: string, discountId: int)

  /** `d.discount_code && d.discount_id`. */
  predicate Usable(d: DiscountRow) {
    d.code != [] && d.discountId != 0
  }

  /** The `reduce` into `code -> discount_id`, skipping rows without both fields; a later
      row with the same code overwrites an earlier one. */
  function DiscountMap(rows: seq<DiscountRow>): (m: map<string, int>)
    ensures forall c :: c in m <==> exists i :: 0 <= i < |rows| && Usable(rows[i]) && rows[i].code == c
    ensures forall c :: c in m ==> m[c] != 0
  {
    if rows == [] then map[]
    else
      var m := DiscountMap(rows[..|rows| - 1]);
      var d := rows[|rows| - 1];
      assert forall i :: 0 <= i < |rows| - 1 ==> rows[..|rows| - 1][i] == rows[i];
      if Usable(d) then m[d.code := d.discountId] else m
  }

  /** The id kept for a code is the one of the last usable row with that code. */
  lemma {:induction false} DiscountMapLastWins(rows: seq<DiscountRow>, i: int)
    requires 0 <= i < |rows| && Usable(rows[i])
    requires forall j :: i < j < |rows| ==> !(Usable(rows[j]) && rows[j].code == rows[i].code)
    ensures rows[i].code in DiscountMap(rows) && DiscountMap(rows)[rows[i].code] == rows[i].discountId
  {
    var init := rows[..|rows| - 1];
    if i < |rows| - 1 {
      assert init[i] == rows[i];
      forall j | i < j < |init| ensures !(Usable(init[j]) && init[j].code == init[i].code) {
        assert init[j] == rows[j];
      }
      DiscountMapLastWins(init, i);
    }
  }

  /** `!discountCode || !discountMap[discountCode]`: the apply request is not sent. A map
      without zero ids, such as the one `DiscountMap` builds, refuses exactly the empty and
      the unknown codes. */
  predicate ApplyRefused(code: string, m: map<string, int>)
    ensures (forall c :: c in m ==> m[c] != 0) ==> (ApplyRefused(code, m) <==> code == [] || code !in m)
  {
    code == [] || code !in m || m[code] == 0
  }

  /** The discount shown after pressing Apply. A refused code changes nothing; a failed
      request (None) resets it to 0; an answer sets `parseFloat(discountAmount) || 0`. */
  function DiscountAfterApply(code: string, m: map<string, int>, current: real, answer: Option<JsVal>): (d: real)
    ensures ApplyRefused(code, m) ==> d == current
    ensures !ApplyRefused(code, m) && answer.None? ==> d == 0.0
    ensures !ApplyRefused(code, m) && answer.Some? ==>
      d == (if ParseFloatOf(answer.value).Some? then ParseFloatOf(answer.value).value else 0.0)
  {
    if ApplyRefused(code, m) then current
    else match answer
      case None => 0.0
      case Some(v) => ParseFloatOf(v).GetOr(0.0)
  }

  /** The Apply button: `disabled={!discountCode || !discountMap[discountCode] || discountAmount > 0}`. */
  predicate ApplyEnabled(code: string, m: map<string, int>, current: real)
    ensures current > 0.0 ==> !ApplyEnabled(code, m, current)
    ensures ApplyEnabled(code, m, current) ==> code != [] && code in m
  {
    !ApplyRefused(code, m) && !(current > 0.0)
  }

  /** Pressing Apply: a disabled button sends nothing and keeps the discount; an enabled
      one runs the handler. The flag says whether the apply request was sent. */
  function PressApply(code: string, m: map<string, int>, current: real, answer: Option<JsVal>): (r: (real, bool))
    ensures r.1 <==> ApplyEnabled(code, m, current)
    ensures !r.1 ==> r.0 == current
    ensures r.1 && answer.None? ==> r.0 == 0.0
    ensures r.1 && answer.Some? ==>
      r.0 == (if ParseFloatOf(answer.value).Some? then ParseFloatOf(answer.value).value else 0.0)
  {
    if ApplyEnabled(code, m, current) then (DiscountAfterApply(code, m, current, answer), true)
    else (current, false)
  }

  /** Once a discount is shown, no later press sends another apply request, whatever code
      is typed, so the page consumes at most one use per discount shown. */
  lemma ApplyOnce(code: string, m: map<string, int>, current: real, answer: Option<JsVal>,
                  code2: string, answer2: Option<JsVal>)
    requires PressApply(code, m, current, answer).0 > 0.0
    ensures var d := PressApply(code, m, current, answer).0;
      PressApply(code2, m, d, answer2) == (d, false)
  {
  }

  /** `Math.max(0, subTotal - discountAmount)`. */
  function DisplayedTotal(subTotal: real, discount: real): (t: real)
    ensures t >= 0.0 && t >= subTotal - discount
    ensures t == 0.0 || t == subTotal - discount
  {
    MaxR(0.0, subTotal - discount)
  }

  // ---------------------------------------------------------------- placing the order

  /** The `sales` array of the order request. */
  function Payload(cart: seq<Line>): (lines: seq<OrderBackend.SaleLine>)
    ensures |lines| == |cart|
    ensures forall i :: 0 <= i < |cart| ==>
      lines[i] == OrderBackend.SaleLine(cart[i].itemId, cart[i].quantity, cart[i].totalPrice, cart[i].remarks)
  {
    seq(|cart|, i requires 0 <= i < |cart| =>
      OrderBackend.SaleLine(cart[i].itemId, cart[i].quantity, cart[i].totalPrice, cart[i].remarks))
  }

  /** The backend's subtotal of the payload is the subtotal the cart shows. */
  lemma {:induction false} PayloadSubTotal(cart: seq<Line>)
    ensures OrderBackend.SubTotal(Payload(cart)) == SubTotal(cart)
  {
    if cart != [] {
      var n := |cart| - 1;
      assert Payload(cart)[..n] == Payload(cart[..n]);
      PayloadSubTotal(cart[..n]);
    }
  }

  /** For any discount the page holds, the final total it shows is the total the backend
      stores for the order. */
  lemma DisplayedTotalIsStored(cart: seq<Line>, discount: real)
    ensures var sub := OrderBackend.SubTotal(Payload(cart));
            DisplayedTotal(SubTotal(cart), discount) ==
            OrderBackend.FinalTotal(sub, OrderBackend.ActualDiscount(Some(discount), sub))
  {
    PayloadSubTotal(cart);
  }

  /** What pressing Confirm does: a local refusal with its message, or the request. */
  datatype Confirm = Refused(message: string) | Sent(request: OrderBackend.OrderRequest)

  /** `handleConfirmOrder`: refuses without a logged-in customer, then a preorder without
      a pickup time; otherwise sends the cart, the code, the discount and the order type,
      with `preorder_datetime` only for a preorder. */
  function ConfirmOrder(customerId: Option<string>, orderType: string, preorderTime: string,
                        cart: seq<Line>, discountCode: string, discount: real): (c: Confirm)
    ensures (customerId.None? || customerId.value == []) <==> c == Refused("Please log in to place an order")
    ensures customerId.Some? && customerId.value != [] && orderType == "preorder" && preorderTime == [] <==>
      c == Refused("Please select pickup time")
    ensures c.Sent? ==>
      c.request.customerId == IdText(customerId.value) &&
      c.request.sales == Some(Payload(cart)) &&
      c.request.orderType == Some(orderType) &&
      c.request.discountCode == Some(discountCode) && c.request.discountAmount == Some(discount) &&
      (c.request.preorderDatetime.Some? <==> orderType == "preorder") &&
      (orderType == "preorder" ==> c.request.preorderDatetime == Some(preorderTime))
  {
    if customerId.None? || customerId.value == [] then Refused("Please log in to place an order")
    else if orderType == "preorder" && preorderTime == [] then Refused("Please select pickup time")
    else Sent(OrderBackend.OrderRequest(
      IdText(customerId.value), Some(Payload(cart)), Some(discountCode), Some(discount), Some(orderType),
      if orderType == "preorder" then Some(preorderTime) else None))
  }

  /** A request the page sends passes the backend's guards exactly when the stored
      customer id is a number and the cart is not empty; an empty cart is sent and
      refused by the backend as malformed sales data. */
  lemma SentOrderAccepted(customerId: Option<string>, orderType: string, preorderTime: string,
                          cart: seq<Line>, discountCode: string, discount: real)
    requires ConfirmOrder(customerId, orderType, preorderTime, cart, discountCode, discount).Sent?
    ensures var req := ConfirmOrder(customerId, orderType, preorderTime, cart, discountCode, discount).request;
            OrderBackend.Accepted(req) <==> !BadId(IdText(customerId.value)) && cart != []
  {
  }

  /** The cart after the order request: emptied on success (the new order id), kept
      as it was when the request failed (None). */
  function CartAfterOrder(cart: seq<Line>, answer: Option<int>): (r: seq<Line>)
    ensures answer.None? ==> r == cart
    ensures answer.Some? ==> r == []
  {
    if answer.Some? then [] else cart
  }

  /** Pressing Confirm again after a placed order sends an empty cart, which the backend
      refuses, so the same cart is never ordered twice; after a failed request it sends
      the same request again. */
  lemma ConfirmAgain(customerId: Option<string>, orderType: string, preorderTime: string,
                     cart: seq<Line>, discountCode: string, discount: real, answer: Option<int>)
    requires ConfirmOrder(customerId, orderType, preorderTime, cart, discountCode, discount).Sent?
    ensures var again := ConfirmOrder(customerId, orderType, preorderTime, CartAfterOrder(cart, answer), discountCode, discount);
            again.Sent? &&
            (answer.Some? ==> !OrderBackend.Accepted(again.request)) &&
            (answer.None? ==> again == ConfirmOrder(customerId, orderType, preorderTime, cart, discountCode, discount))
  {
    SentOrderAccepted(customerId, orderType, preorderTime, CartAfterOrder(cart, answer), discountCode, discount);
  }
}
