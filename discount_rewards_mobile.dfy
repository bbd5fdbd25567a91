/** The customer's rewards page: the remaining-uses map, the redeem button and what a
    redeem answer does to the counters and the points
    (frontend/src/pages/Mobile/DiscountRewardsMobile.js). */
module DiscountRewardsMobile {
  import opened Js
  import DiscountBackend
  import Tables

  /** What the page does on load: without a stored customer id it goes back to the start
      page and fetches nothing. */
  datatype Load = Redirect | Fetch(customerId: string)

  function OnLoad(customerId: Option<string>): (l: Load)
    ensures l == Redirect <==> customerId.None? || customerId.value == []
    ensures l.Fetch? ==> l.customerId == customerId.value
  {
    if customerId.None? || customerId.value == [] then Redirect else Fetch(customerId.value)
  }

  /** One row of the customer's redeemed discounts. */
  datatype Held = Held(discountId: int, remainingUses: int)

  /** `discountMap[d.discount_id] = d.remaining_uses` over the rows: a later row with the
      same id overwrites an earlier one. */
  function RemainingMap(rows: seq<Held>): (m: map<int, int>)
    ensures forall d :: d in m <==> exists i :: 0 <= i < |rows| && rows[i].discountId == d
  {
    if rows == [] then map[]
    else
      var init := rows[..|rows| - 1];
      assert forall i :: 0 <= i < |init| ==> init[i] == rows[i];
      RemainingMap(init)[rows[|rows| - 1].discountId := rows[|rows| - 1].remainingUses]
  }

  /** The count kept for an id is the one of its last row. */
  lemma {:induction false} RemainingMapLastWins(rows: seq<Held>, i: int)
    requires 0 <= i < |rows|
    requires forall j :: i < j < |rows| ==> rows[j].discountId != rows[i].discountId
    ensures RemainingMap(rows)[rows[i].discountId] == rows[i].remainingUses
  {
    var init := rows[..|rows| - 1];
    if i < |rows| - 1 {
      assert init[i] == rows[i];
      forall j | i < j < |init| ensures init[j].discountId != init[i].discountId {
        assert init[j] == rows[j];
      }
      RemainingMapLastWins(init, i);
    }
  }

  /** One card: the discount's id and the points it needs. */
  datatype Card = Card(discountId: int, pointsRequired: int)

  /** `disabled={points < discount.points_required}`: enabled exactly when redeeming would
      leave a balance of at least 0. */
  predicate RedeemEnabled(points: int, c: Card)
    ensures RedeemEnabled(points, c) <==> points - c.pointsRequired >= 0
  {
    points >= c.pointsRequired
  }

  /** The first card with the id (`discounts.find`). */
  function FindCard(cards: seq<Card>, id: int): (c: Option<Card>)
    ensures c.None? <==> forall i :: 0 <= i < |cards| ==> cards[i].discountId != id
    ensures c.Some? ==>
      (exists i :: 0 <= i < |cards| && cards[i] == c.value && (forall j :: 0 <= j < i ==> cards[j].discountId != id))
    ensures c.Some? ==> c.value.discountId == id
  {
    if cards == [] then None
    else if cards[0].discountId == id then Some(cards[0])
    else
      var r := FindCard(cards[1..], id);
      if r.Some? then
        var k :| 0 <= k < |cards[1..]| && cards[1..][k] == r.value &&
                 (forall j :: 0 <= j < k ==> cards[1..][j].discountId != id);
        assert cards[k + 1] == r.value;
        r
      else r
  }

  /** `prev - find(...)?.points_required || 0`, which groups as `(prev - required) || 0`:
      the points drop by the card's requirement when the card is found (a difference of 0
      stays 0), and fall to 0 when it is not (the difference is NaN). */
  function PointsAfter(prev: int, cards: seq<Card>, id: int): (p: int)
    ensures FindCard(cards, id).Some? ==> p == prev - FindCard(cards, id).value.pointsRequired
    ensures FindCard(cards, id).None? ==> p == 0
  {
    var c := FindCard(cards, id);
    if c.None? then 0 else prev - c.value.pointsRequired
  }

  /** The page's state. */
  datatype Page = Page(cards: seq<Card>, remaining: map<int, int>, points: int)

  /** `handleRedeem`'s answer: a toast, and on success the counter of the discount up by
      one and the points debited; a refusal shows the backend's error, or the generic one
      when there is none (None: no answer). */
  function AfterRedeem(p: Page, id: int, answer: Option<Response<DiscountBackend.Redeemed>>): (r: (Page, string))
    ensures (answer.None? || answer.value.Err?) ==> r.0 == p
    ensures answer.None? ==> r.1 == "Failed to redeem discount"
    ensures answer.Some? && answer.value.Err? ==>
      r.1 == (if |answer.value.error| > 0 then answer.value.error else "Failed to redeem discount")
    ensures answer.Some? && answer.value.Ok? ==>
      r.1 == "Discount Redeemed! Code: " + answer.value.value.code &&
      r.0.cards == p.cards &&
      r.0.remaining == p.remaining[id := CountOr0(p.remaining, id) + 1] &&
      r.0.points == PointsAfter(p.points, p.cards, id)
  {
    match answer
    case None => (p, "Failed to redeem discount")
    case Some(Err(_, e)) => (p, if |e| > 0 then e else "Failed to redeem discount")
    case Some(Ok(_, v)) =>
      (p.(remaining := p.remaining[id := CountOr0(p.remaining, id) + 1],
          points := PointsAfter(p.points, p.cards, id)),
       "Discount Redeemed! Code: " + v.code)
  }

  /** When the page's counter and points agree with the store, a successful redeem keeps
      them in agreement: the counter follows the store's `remaining_uses + 1` (or 1 for
      a first redeem) and the points follow the store's debit. */
  lemma RedeemKeepsPageInStep(p: Page, id: int, customerId: int,
                              redemptions: map<(int, int), int>, storedPoints: int, required: int,
                              answer: Response<DiscountBackend.Redeemed>)
    requires answer.Ok?
    requires (customerId, id) in redemptions <==> id in p.remaining
    requires id in p.remaining ==> p.remaining[id] == redemptions[(customerId, id)]
    requires p.points == storedPoints
    requires FindCard(p.cards, id).Some? && FindCard(p.cards, id).value.pointsRequired == required
    ensures var q := AfterRedeem(p, id, Some(answer)).0;
            q.remaining[id] == DiscountBackend.Bump(redemptions, (customerId, id))[(customerId, id)] &&
            q.points == storedPoints - required
  {
  }

  /** Pressing an enabled button, while the page's points are the stored ones and the
      card asks what the stored discount asks, is answered with success by the redeem
      endpoint: it never meets the "Not enough points" refusal, and the customer keeps
      a non-negative balance. */
  lemma EnabledMeansEnoughPoints(points: int, c: Card,
                                 customers0: map<int, Tables.Customer>, uses0: map<(int, int), int>,
                                 customers: map<int, Tables.Customer>, uses: map<(int, int), int>,
                                 customerId: int, discount: Tables.Discount,
                                 r: Response<DiscountBackend.Redeemed>)
    requires RedeemEnabled(points, c)
    requires customerId in customers0 && customers0[customerId].points == points
    requires discount.pointsRequired == c.pointsRequired
    requires DiscountBackend.RedeemedFrom(customers0, uses0, customers, uses, customerId, c.discountId, discount, r)
    ensures r.Ok? && r.value == DiscountBackend.Redeemed(discount.code, discount.amount)
    ensures customers[customerId].points == points - c.pointsRequired >= 0
  {
  }

  /** Redeeming a card the page does not list zeroes the points it shows. */
  lemma MissingCardZeroesPoints(p: Page, id: int, answer: Response<DiscountBackend.Redeemed>)
    requires answer.Ok? && forall i :: 0 <= i < |p.cards| ==> p.cards[i].discountId != id
    ensures AfterRedeem(p, id, Some(answer)).0.points == 0
  {
  }
}
