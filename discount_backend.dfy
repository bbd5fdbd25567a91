/** Redeeming points for discounts, applying a discount to an order, and the admin
    CRUD on discounts (backend/controller/discountBackendController.js). */
module DiscountBackend {
  import opened Js
  import opened Tables

  /** The body of a successful redeem: the discount's code and amount. */
  datatype Redeemed = Redeemed(code: string, discountAmount: real)

  /** `remaining_uses` after one more redemption: old + 1, or 1 for a new row. */
  function Bump(redemptions: map<(int, int), int>, key: (int, int)): (r: map<(int, int), int>)
    ensures r.Keys == redemptions.Keys + {key}
    ensures forall p :: p in redemptions && p != key ==> r[p] == redemptions[p]
    ensures key in redemptions ==> r[key] == redemptions[key] + 1
    ensures key !in redemptions ==> r[key] == 1
    ensures UsesNonNegative(redemptions) ==> UsesNonNegative(r) && r[key] >= 1
  {
    redemptions[key := if key in redemptions then redemptions[key] + 1 else 1]
  }

  /** What `POST` redeem does once customer `c` and discount `d` are found, from the
      customer and counter tables before (`customers0`, `uses0`) to those after: below
      `points_required` it is refused with 400 and nothing changes; otherwise it
      succeeds: the (customer, discount) counter is raised by one, the points are debited, and the
      answer carries the discount's code and amount. */
  predicate RedeemedFrom(customers0: map<int, Customer>, uses0: map<(int, int), int>,
                         customers: map<int, Customer>, uses: map<(int, int), int>,
                         c: int, d: int, discount: Discount, r: Response<Redeemed>)
  {
    c in customers0 &&
    (customers0[c].points < discount.pointsRequired ==> r == Err(400, "Not enough points")) &&
    (customers0[c].points >= discount.pointsRequired ==> r.Ok?) &&
    (r.Err? ==> r == Err(400, "Not enough points") && customers == customers0 && uses == uses0) &&
    (r.Ok? ==>
       customers0[c].points >= discount.pointsRequired &&
       r.value == Redeemed(discount.code, discount.amount) &&
       uses == Bump(uses0, (c, d)) &&
       customers == customers0[c := customers0[c].(points := customers0[c].points - discount.pointsRequired)])
  }

  /** `POST` redeem: the customer must exist (404), then the discount (404); past that,
      the outcome is `RedeemedFrom`. */
  method RedeemDiscount(db: Db, customerId: IdParam, discountId: IdParam) returns (r: Response<Redeemed>)
    requires db.Valid()
    modifies db`customers, db`redemptions
    ensures db.Valid()
    ensures r == Err(404, "Customer not found") || r == Err(404, "Discount not found") ==>
      db.customers == old(db.customers) && db.redemptions == old(db.redemptions)
    ensures !Has(old(db.customers), IdOf(customerId)) ==> r == Err(404, "Customer not found")
    ensures Has(old(db.customers), IdOf(customerId)) && !Has(db.discounts, IdOf(discountId)) ==>
      r == Err(404, "Discount not found")
    ensures Has(old(db.customers), IdOf(customerId)) && Has(db.discounts, IdOf(discountId)) ==>
      var d := IdOf(discountId).value;
      RedeemedFrom(old(db.customers), old(db.redemptions), db.customers, db.redemptions,
                   IdOf(customerId).value, d, db.discounts[d], r)
    ensures r.Ok? ==> Has(old(db.customers), IdOf(customerId)) && Has(db.discounts, IdOf(discountId))
    ensures PointsNonNegative(old(db.customers)) ==> PointsNonNegative(db.customers)
    ensures UsesNonNegative(old(db.redemptions)) ==> UsesNonNegative(db.redemptions)
  {
    var c := IdOf(customerId);
    if !Has(db.customers, c) {
      return Err(404, "Customer not found");
    }
    var d := IdOf(discountId);
    if !Has(db.discounts, d) {
      return Err(404, "Discount not found");
    }
    r := RedeemFound(db, c.value, d.value);
  }

  /** The redeem once both rows are found. */
  method RedeemFound(db: Db, c: int, d: int) returns (r: Response<Redeemed>)
    requires db.Valid() && c in db.customers && d in db.discounts
    modifies db`customers, db`redemptions
    ensures db.Valid()
    ensures RedeemedFrom(old(db.customers), old(db.redemptions), db.customers, db.redemptions, c, d, db.discounts[d], r)
    ensures r.Ok? ==> db.customers[c].points >= 0
    ensures PointsNonNegative(old(db.customers)) ==> PointsNonNegative(db.customers)
    ensures UsesNonNegative(old(db.redemptions)) ==> UsesNonNegative(db.redemptions)
  {
    var customer, discount := db.customers[c], db.discounts[d];
    if customer.points < discount.pointsRequired {
      return Err(400, "Not enough points");
    }
    Redeem(db, (c, d));
    Debit(db, c, discount.pointsRequired);
    return Ok(200, Redeemed(discount.code, discount.amount));
  }

  /** The upsert of the (customer, discount) counter. */
  method Redeem(db: Db, key: (int, int))
    requires db.Valid()
    modifies db`redemptions
    ensures db.Valid()
    ensures db.redemptions == Bump(old(db.redemptions), key)
  {
    db.redemptions := Bump(db.redemptions, key);
  }

  /** `UPDATE customer SET points = points - ? WHERE customerId = ?` on a customer
      holding at least `p` points. */
  method Debit(db: Db, c: int, p: int)
    requires db.Valid() && c in db.customers && db.customers[c].points >= p
    modifies db`customers
    ensures db.Valid()
    ensures db.customers == old(db.customers)[c := old(db.customers)[c].(points := old(db.customers)[c].points - p)]
    ensures db.customers[c].points >= 0
    ensures PointsNonNegative(old(db.customers)) ==> PointsNonNegative(db.customers)
  {
    db.customers := db.customers[c := db.customers[c].(points := db.customers[c].points - p)];
  }

  /** `SELECT * FROM discounts WHERE code = ?`: a missing code matches no row. */
  function DiscountByCode(discounts: map<int, Discount>, next: int, code: Option<string>): (id: Option<int>)
    requires KeysBelow(discounts, next)
    ensures id.Some? ==> code.Some? && id.value in discounts && discounts[id.value].code == code.value
    ensures id.None? ==> code.None? || forall k :: k in discounts ==> discounts[k].code != code.value
  {
    if code.None? then None
    else First(discounts, (d: Discount) => d.code == code.value, next)
  }

  /** The counter `applyDiscount` reads, if the customer id is a number and the row exists. */
  function UsesOf(redemptions: map<(int, int), int>, customerId: IdParam, d: int): (u: Option<int>)
    ensures u.Some? <==> IdOf(customerId).Some? && (IdOf(customerId).value, d) in redemptions
    ensures u.Some? ==> u.value == redemptions[(IdOf(customerId).value, d)]
  {
    var c := IdOf(customerId);
    if c.Some? && (c.value, d) in redemptions then Some(redemptions[(c.value, d)]) else None
  }

  /** The order already carries a discount (`discount_id IS NOT NULL`). */
  predicate Discounted(orders: map<int, Order>, orderId: IdParam) {
    Has(orders, IdOf(orderId)) && orders[IdOf(orderId).value].discountId.Some?
  }

  /** What `POST` apply does once the code names discount `d` of the given `amount`,
      from the order and counter tables before (`orders0`, `uses0`) to those after: no
      counter row or a counter at 0 or below is 400; an order that already has a
      discount is 400; an error changes nothing. Otherwise the apply succeeds: the order
      (if the id names one) records the amount and `d`, and one use of the customer's
      counter is consumed. */
  predicate Applied(orders0: map<int, Order>, uses0: map<(int, int), int>,
                    orders: map<int, Order>, uses: map<(int, int), int>,
                    customerId: IdParam, d: int, orderId: IdParam, amount: real, r: Response<real>)
  {
    var u := UsesOf(uses0, customerId, d);
    ((u.None? || u.value <= 0) ==> r == Err(400, "No remaining uses for this discount")) &&
    (u.Some? && u.value > 0 && Discounted(orders0, orderId) ==>
       r == Err(400, "Discount already applied to this order")) &&
    (u.Some? && u.value > 0 && !Discounted(orders0, orderId) ==> r.Ok?) &&
    (r.Err? ==> orders == orders0 && uses == uses0) &&
    (r.Ok? ==> IdOf(customerId).Some? && !Discounted(orders0, orderId) && r.value == amount) &&
    (r.Ok? ==>
       var key := (IdOf(customerId).value, d);
       key in uses0 && uses0[key] > 0 && uses == uses0[key := uses0[key] - 1]) &&
    (r.Ok? ==> orders == MarkOrder(orders0, orderId, amount, d))
  }

  /** `POST` apply: an unknown code is 404; past that, the outcome is `Applied`. The
      order's `total_price` is not recomputed. */
  method ApplyDiscount(db: Db, customerId: IdParam, discountCode: Option<string>, orderId: IdParam)
    returns (r: Response<real>)
    requires db.Valid()
    modifies db`orders, db`redemptions
    ensures db.Valid()
    ensures r.Err? ==> db.orders == old(db.orders) && db.redemptions == old(db.redemptions)
    ensures DiscountByCode(db.discounts, db.nextDiscount, discountCode).None? ==>
      r == Err(404, "Invalid discount code")
    ensures var c := DiscountByCode(db.discounts, db.nextDiscount, discountCode);
      c.Some? ==>
        c.value in db.discounts &&
        Applied(old(db.orders), old(db.redemptions), db.orders, db.redemptions,
                customerId, c.value, orderId, db.discounts[c.value].amount, r)
    ensures UsesNonNegative(old(db.redemptions)) ==> UsesNonNegative(db.redemptions)
  {
    var d := DiscountByCode(db.discounts, db.nextDiscount, discountCode);
    if d.None? {
      return Err(404, "Invalid discount code");
    }
    r := UseDiscount(db, customerId, d.value, orderId);
    assert DiscountByCode(db.discounts, db.nextDiscount, discountCode) == d;
  }

  /** The rest of `POST` apply once the code names discount `d`: the uses check, the
      order check, then the two writes. */
  method UseDiscount(db: Db, customerId: IdParam, d: int, orderId: IdParam) returns (r: Response<real>)
    requires db.Valid() && d in db.discounts
    modifies db`orders, db`redemptions
    ensures db.Valid()
    ensures Applied(old(db.orders), old(db.redemptions), db.orders, db.redemptions,
                    customerId, d, orderId, db.discounts[d].amount, r)
    ensures UsesNonNegative(old(db.redemptions)) ==> UsesNonNegative(db.redemptions)
  {
    var uses := UsesOf(db.redemptions, customerId, d);
    if uses.None? || uses.value <= 0 {
      r := Err(400, "No remaining uses for this discount");
      AppliedRefused(db.orders, db.redemptions, customerId, d, orderId, db.discounts[d].amount, r);
      return;
    }
    if Discounted(db.orders, orderId) {
      r := Err(400, "Discount already applied to this order");
      AppliedRefused(db.orders, db.redemptions, customerId, d, orderId, db.discounts[d].amount, r);
      return;
    }
    var discount := db.discounts[d];
    var key := (IdOf(customerId).value, d);
    ghost var orders0, uses0 := db.orders, db.redemptions;
    RecordDiscount(db, orderId, discount.amount, d);
    ConsumeUse(db, key);
    r := Ok(200, discount.amount);
    AppliedOk(orders0, uses0, customerId, d, orderId, discount.amount);
  }

  /** A refusal for no remaining uses or for an order already discounted, with nothing
      written, meets `Applied`. */
  lemma AppliedRefused(orders0: map<int, Order>, uses0: map<(int, int), int>,
                       customerId: IdParam, d: int, orderId: IdParam, amount: real, r: Response<real>)
    requires var u := UsesOf(uses0, customerId, d);
      if u.None? || u.value <= 0 then r == Err(400, "No remaining uses for this discount")
      else Discounted(orders0, orderId) && r == Err(400, "Discount already applied to this order")
    ensures Applied(orders0, uses0, orders0, uses0, customerId, d, orderId, amount, r)
  {
  }

  /** The successful apply meets `Applied`. */
  lemma AppliedOk(orders0: map<int, Order>, uses0: map<(int, int), int>,
                  customerId: IdParam, d: int, orderId: IdParam, amount: real)
    requires var u := UsesOf(uses0, customerId, d); u.Some? && u.value > 0
    requires !Discounted(orders0, orderId)
    ensures var key := (IdOf(customerId).value, d);
      Applied(orders0, uses0, MarkOrder(orders0, orderId, amount, d), uses0[key := uses0[key] - 1],
              customerId, d, orderId, amount, Ok(200, amount))
  {
  }

  /** The orders after `UPDATE orders SET discount_applied = ?, discount_id = ?
      WHERE order_id = ?`: no row changes when the id names no order. */
  function MarkOrder(orders: map<int, Order>, orderId: IdParam, amount: real, d: int): (m: map<int, Order>)
    ensures m.Keys == orders.Keys
    ensures Has(orders, IdOf(orderId)) ==>
      var o := IdOf(orderId).value;
      m == orders[o := orders[o].(discountApplied := amount, discountId := Some(d))]
    ensures !Has(orders, IdOf(orderId)) ==> m == orders
  {
    var o := IdOf(orderId);
    if Has(orders, o) then orders[o.value := orders[o.value].(discountApplied := amount, discountId := Some(d))]
    else orders
  }

  /** The write of `MarkOrder`. */
  method RecordDiscount(db: Db, orderId: IdParam, amount: real, d: int)
    requires db.Valid()
    modifies db`orders
    ensures db.Valid()
    ensures db.orders == MarkOrder(old(db.orders), orderId, amount, d)
  {
    db.orders := MarkOrder(db.orders, orderId, amount, d);
  }

  /** `UPDATE customer_discounts SET remaining_uses = remaining_uses - 1`. */
  method ConsumeUse(db: Db, key: (int, int))
    requires db.Valid() && key in db.redemptions && db.redemptions[key] > 0
    modifies db`redemptions
    ensures db.Valid()
    ensures db.redemptions == old(db.redemptions)[key := old(db.redemptions)[key] - 1]
    ensures UsesNonNegative(old(db.redemptions)) ==> UsesNonNegative(db.redemptions)
  {
    db.redemptions := db.redemptions[key := db.redemptions[key] - 1];
  }

  /** `POST` discount: inserts one row under the next key. */
  method CreateDiscount(db: Db, code: string, description: string, amount: real, pointsRequired: int)
    returns (r: Response<string>)
    requires db.Valid()
    modifies db`discounts, db`nextDiscount
    ensures db.Valid()
    ensures r == Ok(201, "Discount created successfully")
    ensures db.discounts == old(db.discounts)[old(db.nextDiscount) := Discount(code, description, amount, pointsRequired)]
    ensures old(db.nextDiscount) !in old(db.discounts) && db.nextDiscount == old(db.nextDiscount) + 1
  {
    db.discounts := db.discounts[db.nextDiscount := Discount(code, description, amount, pointsRequired)];
    db.nextDiscount := db.nextDiscount + 1;
    return Ok(201, "Discount created successfully");
  }

  /** `PUT` discount: overwrites all four fields of that id; an unknown id changes nothing
      and is still answered with success. */
  method UpdateDiscount(db: Db, id: IdParam, code: string, description: string, amount: real, pointsRequired: int)
    returns (r: Response<string>)
    requires db.Valid()
    modifies db`discounts
    ensures db.Valid()
    ensures r == Ok(200, "Discount updated successfully")
    ensures Has(old(db.discounts), IdOf(id)) ==>
      db.discounts == old(db.discounts)[IdOf(id).value := Discount(code, description, amount, pointsRequired)]
    ensures !Has(old(db.discounts), IdOf(id)) ==> db.discounts == old(db.discounts)
  {
    var k := IdOf(id);
    if Has(db.discounts, k) {
      db.discounts := db.discounts[k.value := Discount(code, description, amount, pointsRequired)];
    }
    return Ok(200, "Discount updated successfully");
  }

  /** `DELETE` discount: removes exactly that id. */
  method DeleteDiscount(db: Db, id: IdParam) returns (r: Response<string>)
    requires db.Valid()
    modifies db`discounts
    ensures db.Valid()
    ensures r == Ok(200, "Discount deleted successfully")
    ensures IdOf(id).Some? ==> db.discounts == old(db.discounts) - {IdOf(id).value}
    ensures IdOf(id).None? ==> db.discounts == old(db.discounts)
  {
    var k := IdOf(id);
    if k.Some? {
      db.discounts := db.discounts - {k.value};
    }
    return Ok(200, "Discount deleted successfully");
  }
}
