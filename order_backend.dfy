/** Placing an order and listing a customer's orders
    (backend/controller/orderBackendController.js). */
module OrderBackend {
  import opened Js
  import opened Tables

  /** One element of the request's `sales` array; `remarks` is "" when the field is
      missing. */
  datatype SaleLine = SaleLine(itemId: int, quantity: int, totalPrice: real, remarks: string)

  /** The JSON body of `POST` order. `sales` is None when it is missing or not an array;
      `orderType` is None when the field is missing. */
  datatype OrderRequest = OrderRequest(
    customerId: IdParam,
    sales: Option<seq<SaleLine>>,
    discountCode: Option<string>,
    discountAmount: Option<real>,
    orderType: Option<string>,
    preorderDatetime: Option<string>)

  /** A missing or empty pickup time. */
  predicate Blank(s: Option<string>) {
    s.None? || s.value == []
  }

  /** The three guards of placeOrder all pass. */
  predicate Accepted(req: OrderRequest) {
    !BadId(req.customerId) &&
    req.sales.Some? && req.sales.value != [] &&
    !(req.orderType == Some("preorder") && Blank(req.preorderDatetime))
  }

  // ---------------------------------------------------------------- totals and points

  /** `sales.reduce((sum, item) => sum + item.total_price, 0)`. */
  function SubTotal(lines: seq<SaleLine>): (t: real)
    ensures (forall i :: 0 <= i < |lines| ==> lines[i].totalPrice >= 0.0) ==> t >= 0.0
  {
    if lines == [] then 0.0 else SubTotal(lines[..|lines| - 1]) + lines[|lines| - 1].totalPrice
  }

  /** `Math.min(discountAmount || 0, subTotal)`: the discount actually granted. */
  function ActualDiscount(claimed: Option<real>, subTotal: real): (d: real)
    ensures d <= subTotal
    ensures d <= claimed.GetOr(0.0)
    ensures d == subTotal || d == claimed.GetOr(0.0)
  {
    MinR(claimed.GetOr(0.0), subTotal)
  }

  /** `Math.max(subTotal - actualDiscount, 0)`. */
  function FinalTotal(subTotal: real, discount: real): (t: real)
    ensures t >= 0.0 && t >= subTotal - discount
    ensures t == subTotal - discount || t == 0.0
  {
    MaxR(subTotal - discount, 0.0)
  }

  /** With a non-negative subtotal and claim, the granted discount and the stored total
      both lie between 0 and the subtotal, and they add up to it. */
  lemma TotalsBounded(claimed: Option<real>, subTotal: real)
    requires subTotal >= 0.0 && claimed.GetOr(0.0) >= 0.0
    ensures 0.0 <= ActualDiscount(claimed, subTotal) <= subTotal
    ensures 0.0 <= FinalTotal(subTotal, ActualDiscount(claimed, subTotal)) <= subTotal
    ensures FinalTotal(subTotal, ActualDiscount(claimed, subTotal)) + ActualDiscount(claimed, subTotal) == subTotal
  {
  }

  /** `parseFloat(rateResult[0]?.setting_value) || 10`: a missing, unparsable or zero
      setting falls back to 10. */
  function ConversionRate(setting: Option<JsVal>): (rate: real)
    ensures rate != 0.0
    ensures setting.None? ==> rate == 10.0
    ensures setting.Some? && ParseFloatOf(setting.value).None? ==> rate == 10.0
    ensures setting.Some? && ParseFloatOf(setting.value) == Some(0.0) ==> rate == 10.0
    ensures setting.Some? && ParseFloatOf(setting.value).Some? && ParseFloatOf(setting.value).value != 0.0 ==>
      rate == ParseFloatOf(setting.value).value
  {
    if setting.None? then 10.0
    else match ParseFloatOf(setting.value)
      case None => 10.0
      case Some(x) => if x == 0.0 then 10.0 else x
  }

  /** `Math.floor(subTotal / rate)`: the largest whole number of points not above
      subTotal / rate. */
  function MembershipPoints(subTotal: real, rate: real): (p: int)
    requires rate != 0.0
    ensures p as real <= subTotal / rate < p as real + 1.0
  {
    (subTotal / rate).Floor
  }

  lemma EarnedPointsNonNegative(subTotal: real, rate: real)
    requires subTotal >= 0.0 && rate > 0.0
    ensures MembershipPoints(subTotal, rate) >= 0
  {
    assert subTotal / rate >= 0.0;
  }

  // ---------------------------------------------------------------- discount code

  /** `discountCode && discountCode.trim()`, then the first discount with exactly that
      code; a blank or unknown code gives no discount id rather than an error. */
  function ResolveDiscount(discounts: map<int, Discount>, next: int, code: Option<string>): (id: Option<int>)
    requires KeysBelow(discounts, next)
    ensures code.None? || Trim(code.value) == [] ==> id.None?
    ensures id.Some? ==> id.value in discounts && discounts[id.value].code == code.value
    ensures code.Some? && Trim(code.value) != [] && (exists k :: k in discounts && discounts[k].code == code.value)
      ==> id.Some?
  {
    if code.None? || Trim(code.value) == [] then None
    else First(discounts, (d: Discount) => d.code == code.value, next)
  }

  // ---------------------------------------------------------------- the per-line loop

  /** The row `INSERT INTO sales` writes for one line. */
  function SaleOf(orderId: int, line: SaleLine): Sale {
    Sale(orderId, line.itemId, line.quantity, line.totalPrice,
         if line.remarks == [] then None else Some(line.remarks))
  }

  /** `UPDATE menuitems SET available_amount = available_amount - q
      WHERE item_id = i AND available_amount >= q`. */
  function Decrement(menu: map<int, MenuItem>, line: SaleLine): (m: map<int, MenuItem>)
    ensures m.Keys == menu.Keys
    ensures forall k :: k in menu && k != line.itemId ==> m[k] == menu[k]
    ensures line.itemId in menu ==>
      m[line.itemId].stock ==
        (if menu[line.itemId].stock >= line.quantity then menu[line.itemId].stock - line.quantity
         else menu[line.itemId].stock)
    ensures line.itemId in menu ==> m[line.itemId] == menu[line.itemId].(stock := m[line.itemId].stock)
    ensures StockNonNegative(menu) ==> StockNonNegative(m)
  {
    var i := line.itemId;
    if i in menu && menu[i].stock >= line.quantity then
      menu[i := menu[i].(stock := menu[i].stock - line.quantity)]
    else menu
  }

  /** The menu after the guarded decrements of `lines`, in order. */
  function StockAfter(menu: map<int, MenuItem>, lines: seq<SaleLine>): (m: map<int, MenuItem>)
    ensures m.Keys == menu.Keys
    ensures StockNonNegative(menu) ==> StockNonNegative(m)
    ensures forall k :: k in menu && (forall j :: 0 <= j < |lines| ==> lines[j].itemId != k) ==> m[k] == menu[k]
  {
    if lines == [] then menu
    else Decrement(StockAfter(menu, lines[..|lines| - 1]), lines[|lines| - 1])
  }

  /** The sales table after one row per line was inserted from key `next` on. */
  function SalesAfter(sales: map<int, Sale>, next: int, orderId: int, lines: seq<SaleLine>): map<int, Sale> {
    if lines == [] then sales
    else
      var n := |lines| - 1;
      SalesAfter(sales, next, orderId, lines[..n])[next + n := SaleOf(orderId, lines[n])]
  }

  /** The rows already in the table are kept as they were: every new key is at or above
      `next`. */
  lemma {:induction false} SalesAfterKeepsOld(sales: map<int, Sale>, next: int, orderId: int, lines: seq<SaleLine>)
    requires KeysBelow(sales, next)
    ensures forall k :: k in sales ==> k in SalesAfter(sales, next, orderId, lines) &&
                                       SalesAfter(sales, next, orderId, lines)[k] == sales[k]
  {
    if lines != [] {
      SalesAfterKeepsOld(sales, next, orderId, lines[..|lines| - 1]);
    }
  }

  /** The only new keys are `next .. next + |lines| - 1`. */
  lemma {:induction false} SalesAfterKeys(sales: map<int, Sale>, next: int, orderId: int, lines: seq<SaleLine>)
    ensures forall k :: k in SalesAfter(sales, next, orderId, lines) <==> k in sales || next <= k < next + |lines|
  {
    if lines != [] {
      SalesAfterKeys(sales, next, orderId, lines[..|lines| - 1]);
    }
  }

  /** Every line got its own sale row: line `j` is the row with key `next + j`. */
  lemma {:induction false} SalesAfterRows(sales: map<int, Sale>, next: int, orderId: int, lines: seq<SaleLine>, j: int)
    requires 0 <= j < |lines|
    ensures next + j in SalesAfter(sales, next, orderId, lines)
    ensures SalesAfter(sales, next, orderId, lines)[next + j] == SaleOf(orderId, lines[j])
  {
    var n := |lines| - 1;
    if j < n {
      SalesAfterRows(sales, next, orderId, lines[..n], j);
    }
  }

  /** `UPDATE customer SET points = points + p WHERE customerId = c`. */
  function Credit(customers: map<int, Customer>, c: int, p: int): (r: map<int, Customer>)
    ensures r.Keys == customers.Keys
    ensures forall k :: k in customers && k != c ==> r[k] == customers[k]
    ensures c in customers ==> r[c] == customers[c].(points := customers[c].points + p)
  {
    if c in customers then customers[c := customers[c].(points := customers[c].points + p)] else customers
  }

  /** `formatToMySQLDatetime`: no time stays NULL. The reformatting of the date into
      local `YYYY-MM-DD hh:mm:ss` is not modelled; the text is stored as sent. */
  function PreorderStored(dt: Option<string>): (r: Option<string>)
    ensures r.None? <==> Blank(dt)
  {
    if Blank(dt) then None else dt
  }

  /** `String(n).padStart(2, '0')`: at least two digits that read back as `n`. */
  function Pad(n: nat): (s: string)
    ensures AllDigits(s) && |s| >= 2
    ensures n < 100 ==> |s| == 2
    ensures DigitsValue(s) == n
  {
    var t := NatToString(n);
    DigitsValueOfNatToString(n);
    if |t| >= 2 then t
    else
      LeadingZero(t);
      "0" + t
  }

  lemma {:induction false} LeadingZero(t: string)
    requires AllDigits(t)
    ensures AllDigits("0" + t) && DigitsValue("0" + t) == DigitsValue(t)
  {
    if t != [] {
      var u := "0" + t;
      assert u[..|u| - 1] == "0" + t[..|t| - 1];
      LeadingZero(t[..|t| - 1]);
    }
  }

  // ---------------------------------------------------------------- placeOrder

  /** The row `INSERT INTO orders` writes: the final total, the points earned on the
      subtotal before the discount, the granted discount, the resolved discount id,
      `order_type` defaulting to 'dine_in', and the column default status 'Preparing'. */
  function NewOrder(req: OrderRequest, discountId: Option<int>, rate: real, now: int): (o: Order)
    requires Accepted(req) && rate != 0.0
    ensures o.discountApplied <= SubTotal(req.sales.value)
    ensures o.totalPrice >= 0.0
    ensures o.orderType == "preorder" ==> o.preorderAt.Some?
  {
    var sub := SubTotal(req.sales.value);
    var d := ActualDiscount(req.discountAmount, sub);
    Order(IdOf(req.customerId).value, FinalTotal(sub, d), MembershipPoints(sub, rate), now,
          discountId, d, req.orderType.GetOr("dine_in"), PreorderStored(req.preorderDatetime), "Preparing")
  }

  /** `POST` order: validates, resolves the discount, inserts the order, then for every
      line inserts a sale row and decrements stock when enough remains, and finally
      credits the customer's points. Each statement is applied as it runs. */
  method PlaceOrder(db: Db, req: OrderRequest, now: int) returns (r: Response<int>)
    requires db.Valid()
    modifies db`customers, db`menu, db`orders, db`sales, db`nextOrder, db`nextSale
    ensures db.Valid()
    ensures BadId(req.customerId) ==> r == Err(400, "Invalid customerId") && unchanged(db)
    ensures !BadId(req.customerId) && (req.sales.None? || req.sales.value == []) ==>
      r == Err(400, "Invalid sales data format") && unchanged(db)
    ensures (!BadId(req.customerId) && req.sales.Some? && req.sales.value != [] &&
             req.orderType == Some("preorder") && Blank(req.preorderDatetime)) ==>
      r == Err(400, "Pre-order time is required for pre-order orders") && unchanged(db)
    ensures r.Ok? <==> Accepted(req)
    ensures Accepted(req) ==>
      var o := NewOrder(req, old(ResolveDiscount(db.discounts, db.nextDiscount, req.discountCode)),
                        old(ConversionRate(SettingOf(db.settings, RateKey))), now);
      r == Ok(201, old(db.nextOrder)) &&
      db.orders == old(db.orders)[old(db.nextOrder) := o] && db.nextOrder == old(db.nextOrder) + 1 &&
      db.sales == SalesAfter(old(db.sales), old(db.nextSale), old(db.nextOrder), req.sales.value) &&
      db.nextSale == old(db.nextSale) + |req.sales.value| &&
      db.menu == StockAfter(old(db.menu), req.sales.value) &&
      db.customers == Credit(old(db.customers), o.customerId, o.membershipPoints)
    ensures StockNonNegative(old(db.menu)) ==> StockNonNegative(db.menu)
  {
    if BadId(req.customerId) {
      return Err(400, "Invalid customerId");
    }
    if req.sales.None? || req.sales.value == [] {
      return Err(400, "Invalid sales data format");
    }
    if req.orderType == Some("preorder") && Blank(req.preorderDatetime) {
      return Err(400, "Pre-order time is required for pre-order orders");
    }
    var orderId := Commit(db, req, now);
    return Ok(201, orderId);
  }

  /** The writes of an accepted order: the order row, the loop over the lines, the
      points credit. */
  method Commit(db: Db, req: OrderRequest, now: int) returns (orderId: int)
    requires db.Valid() && Accepted(req)
    modifies db`customers, db`menu, db`orders, db`sales, db`nextOrder, db`nextSale
    ensures db.Valid()
    ensures orderId == old(db.nextOrder) && db.nextOrder == old(db.nextOrder) + 1
    ensures db.orders == old(db.orders)[old(db.nextOrder) :=
              NewOrder(req, old(ResolveDiscount(db.discounts, db.nextDiscount, req.discountCode)),
                       old(ConversionRate(SettingOf(db.settings, RateKey))), now)]
    ensures db.sales == SalesAfter(old(db.sales), old(db.nextSale), old(db.nextOrder), req.sales.value)
    ensures db.nextSale == old(db.nextSale) + |req.sales.value|
    ensures db.menu == StockAfter(old(db.menu), req.sales.value)
    ensures db.customers == Credit(old(db.customers), db.orders[orderId].customerId, db.orders[orderId].membershipPoints)
  {
    var discountId := ResolveDiscount(db.discounts, db.nextDiscount, req.discountCode);
    var rate := ConversionRate(SettingOf(db.settings, RateKey));
    var order := NewOrder(req, discountId, rate, now);
    orderId := InsertOrder(db, order);
    RecordLines(db, orderId, req.sales.value);
    CreditPoints(db, order.customerId, order.membershipPoints);
  }

  /** `INSERT INTO orders`: the row takes the next key. */
  method InsertOrder(db: Db, order: Order) returns (orderId: int)
    requires db.Valid()
    modifies db`orders, db`nextOrder
    ensures db.Valid()
    ensures orderId == old(db.nextOrder) && db.nextOrder == old(db.nextOrder) + 1
    ensures db.orders == old(db.orders)[orderId := order]
  {
    orderId := db.nextOrder;
    db.orders := db.orders[orderId := order];
    db.nextOrder := db.nextOrder + 1;
  }

  /** `UPDATE customer SET points = points + ? WHERE customerId = ?`. */
  method CreditPoints(db: Db, c: int, p: int)
    requires db.Valid()
    modifies db`customers
    ensures db.Valid()
    ensures db.customers == Credit(old(db.customers), c, p)
  {
    db.customers := Credit(db.customers, c, p);
  }

  /** The loop of placeOrder: for each line, `INSERT INTO sales` and the guarded
      stock decrement. */
  method RecordLines(db: Db, orderId: int, lines: seq<SaleLine>)
    requires db.Valid()
    modifies db`menu, db`sales, db`nextSale
    ensures db.Valid()
    ensures db.menu == StockAfter(old(db.menu), lines)
    ensures db.sales == SalesAfter(old(db.sales), old(db.nextSale), orderId, lines)
    ensures db.nextSale == old(db.nextSale) + |lines|
  {
    ghost var menu0, sales0, next0 := db.menu, db.sales, db.nextSale;
    for i := 0 to |lines|
      invariant db.menu == StockAfter(menu0, lines[..i])
      invariant db.sales == SalesAfter(sales0, next0, orderId, lines[..i])
      invariant KeysBelow(sales0, next0) && db.nextSale == next0 + i
      invariant KeysBelow(db.sales, db.nextSale)
    {
      assert lines[..i + 1] == lines[..i] + [lines[i]];
      SalesAfterSnoc(sales0, next0, orderId, lines[..i], lines[i]);
      StockAfterSnoc(menu0, lines[..i], lines[i]);
      db.sales := db.sales[db.nextSale := SaleOf(orderId, lines[i])];
      db.nextSale := db.nextSale + 1;
      db.menu := Decrement(db.menu, lines[i]);
    }
    assert lines[..|lines|] == lines;
  }

  lemma SalesAfterSnoc(sales: map<int, Sale>, next: int, orderId: int, lines: seq<SaleLine>, line: SaleLine)
    ensures SalesAfter(sales, next, orderId, lines + [line]) ==
      SalesAfter(sales, next, orderId, lines)[next + |lines| := SaleOf(orderId, line)]
  {
    var all := lines + [line];
    assert all[..|all| - 1] == lines && all[|all| - 1] == line;
  }

  lemma StockAfterSnoc(menu: map<int, MenuItem>, lines: seq<SaleLine>, line: SaleLine)
    ensures StockAfter(menu, lines + [line]) == Decrement(StockAfter(menu, lines), line)
  {
    assert (lines + [line])[..|lines|] == lines;
  }

  /** The row of the settings table under `key`, if there is one. */
  function SettingOf(settings: map<string, JsVal>, key: string): (v: Option<JsVal>)
    ensures v.Some? <==> key in settings
    ensures v.Some? ==> v.value == settings[key]
  {
    if key in settings then Some(settings[key]) else None
  }

  /** A successful order keeps every customer's points non-negative when its lines have
      non-negative totals and the rate setting is positive, missing or unparsable. */
  lemma OrderKeepsPointsNonNegative(customers: map<int, Customer>, c: int, lines: seq<SaleLine>, setting: Option<JsVal>)
    requires PointsNonNegative(customers)
    requires forall i :: 0 <= i < |lines| ==> lines[i].totalPrice >= 0.0
    requires setting.None? || ParseFloatOf(setting.value).None? || ParseFloatOf(setting.value).value >= 0.0
    ensures PointsNonNegative(Credit(customers, c, MembershipPoints(SubTotal(lines), ConversionRate(setting))))
  {
    var rate := ConversionRate(setting);
    EarnedPointsNonNegative(SubTotal(lines), rate);
  }

  // ---------------------------------------------------------------- order history

  /** One entry of `GET` orders: `order_id, created_date_time, total_price, status`. */
  datatype OrderSummary = OrderSummary(orderId: int, created: int, totalPrice: real, status: string)

  function Created(s: OrderSummary): int { s.created }

  function OrderIdOf(s: OrderSummary): int { s.orderId }

  function SummaryOf(id: int, o: Order): OrderSummary {
    OrderSummary(id, o.created, o.totalPrice, o.status)
  }

  /** The summaries of the orders `ids`, in that order. */
  function Summaries(orders: map<int, Order>, ids: seq<int>): (rows: seq<OrderSummary>)
    requires forall k :: k in ids ==> k in orders
    ensures |rows| == |ids|
    ensures forall i :: 0 <= i < |ids| ==> rows[i] == SummaryOf(ids[i], orders[ids[i]])
    ensures forall s :: s in rows <==> s.orderId in ids && s == SummaryOf(s.orderId, orders[s.orderId])
  {
    if ids == [] then [] else [SummaryOf(ids[0], orders[ids[0]])] + Summaries(orders, ids[1..])
  }

  /** `GET` orders of a customer: the customer's orders and nothing else, newest first. */
  function GetOrdersByCustomerId(orders: map<int, Order>, next: int, customerId: IdParam): (r: Response<seq<OrderSummary>>)
    requires KeysBelow(orders, next)
    ensures r.Err? <==> BadId(customerId)
    ensures r.Err? ==> r == Err(400, "Invalid customerId")
    ensures r.Ok? ==> SortedDesc(r.value, Created)
    ensures r.Ok? ==> forall s :: s in r.value <==>
      s.orderId in orders && orders[s.orderId].customerId == IdOf(customerId).value &&
      s == SummaryOf(s.orderId, orders[s.orderId])
    ensures r.Ok? ==> DistinctKeys(r.value, OrderIdOf)
  {
    if BadId(customerId) then Err(400, "Invalid customerId")
    else
      var c := IdOf(customerId).value;
      var ids := Select(orders, (o: Order) => o.customerId == c, 1, next);
      var rows := Summaries(orders, ids);
      assert DistinctKeys(rows, OrderIdOf) by {
        forall i, j | 0 <= i < j < |rows| ensures rows[i].orderId != rows[j].orderId {
          assert ids[i] < ids[j];
        }
      }
      SortDescMembers(rows, Created);
      PermutationDistinctKeys(SortDesc(rows, Created), rows, OrderIdOf);
      Ok(200, SortDesc(rows, Created))
  }
}
