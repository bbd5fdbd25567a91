/** The admin's order list formatting, bulk delete and status change
    (backend/controller/orderAdminController.js). */
module OrderAdmin {
  import opened Js
  import opened Tables

  /** One row of the admin order query as MySQL returns it; NULL columns are None. */
  datatype OrderRow = OrderRow(
    orderId: int, customerId: int, customerName: Option<string>, totalPrice: Option<real>,
    discountApplied: Option<real>, created: int, membershipPoints: Option<int>,
    preorderAt: Option<string>, status: Option<string>)

  /** The same row after the defaults of `getAllOrders`. */
  datatype AdminOrder = AdminOrder(
    orderId: int, customerId: int, customerName: Option<string>, totalPrice: real,
    discountApplied: real, created: int, membershipPoints: int,
    preorderAt: Option<string>, status: string)

  const Statuses: seq<string> := ["Preparing", "Completed", "Cancelled"]

  /** A falsy total or discount becomes 0, missing points become 0, an empty pickup time
      becomes NULL and a missing or empty status becomes "Preparing"; every other
      column is passed through. */
  function FormatOrder(row: OrderRow): (o: AdminOrder)
    ensures o.orderId == row.orderId && o.customerId == row.customerId && o.created == row.created
    ensures o.customerName == row.customerName
    ensures o.totalPrice == row.totalPrice.GetOr(0.0)
    ensures o.discountApplied == row.discountApplied.GetOr(0.0)
    ensures o.membershipPoints == row.membershipPoints.GetOr(0)
    ensures o.preorderAt.None? <==> row.preorderAt.None? || row.preorderAt.value == []
    ensures o.preorderAt.Some? ==> o.preorderAt == row.preorderAt
    ensures o.status != [] && (o.status == "Preparing" || Some(o.status) == row.status)
    ensures (row.status.None? || row.status.value == []) ==> o.status == "Preparing"
  {
    AdminOrder(
      row.orderId, row.customerId, row.customerName,
      row.totalPrice.GetOr(0.0), row.discountApplied.GetOr(0.0), row.created,
      row.membershipPoints.GetOr(0),
      if row.preorderAt.None? || row.preorderAt.value == [] then None else row.preorderAt,
      if row.status.None? || row.status.value == [] then "Preparing" else row.status.value)
  }

  /** `results.map(...)`: one formatted row per row, in the same order. */
  function FormatOrders(rows: seq<OrderRow>): (r: seq<AdminOrder>)
    ensures |r| == |rows|
    ensures forall i :: 0 <= i < |rows| ==> r[i] == FormatOrder(rows[i])
  {
    seq(|rows|, i requires 0 <= i < |rows| => FormatOrder(rows[i]))
  }

  /** `DELETE` orders: a missing or empty id list is refused; otherwise exactly those
      orders are removed. */
  method DeleteOrders(db: Db, orderIds: Option<seq<int>>) returns (r: Response<string>)
    requires db.Valid()
    modifies db`orders
    ensures db.Valid()
    ensures (orderIds.None? || orderIds.value == []) <==> r == Err(400, "No orders selected for deletion")
    ensures orderIds.Some? && orderIds.value != [] ==> r.Ok?
    ensures (orderIds.None? || orderIds.value == []) ==> unchanged(db)
    ensures r.Ok? ==> db.orders == old(db.orders) - set i | i in orderIds.value
    ensures r.Ok? ==> forall k :: k in db.orders <==> k in old(db.orders) && k !in orderIds.value
  {
    if orderIds.None? || orderIds.value == [] {
      return Err(400, "No orders selected for deletion");
    }
    db.orders := db.orders - set i | i in orderIds.value;
    return Ok(200, "Orders deleted successfully!");
  }

  /** `PUT` status: a falsy id or a status outside the three allowed values is refused.
      Otherwise any allowed status replaces any other and nothing but `status` changes. */
  method UpdateOrderStatus(db: Db, orderId: IdParam, status: Option<string>) returns (r: Response<string>)
    requires db.Valid()
    modifies db`orders
    ensures db.Valid()
    ensures (!IdTruthy(orderId) || status.None? || status.value !in Statuses) <==> r == Err(400, "Invalid input")
    ensures IdTruthy(orderId) && status.Some? && status.value in Statuses ==> r.Ok?
    ensures r.Err? ==> unchanged(db)
    ensures r.Ok? && Has(old(db.orders), IdOf(orderId)) ==>
      var k := IdOf(orderId).value;
      db.orders == old(db.orders)[k := old(db.orders)[k].(status := status.value)]
    ensures r.Ok? && !Has(old(db.orders), IdOf(orderId)) ==> db.orders == old(db.orders)
  {
    if !IdTruthy(orderId) || status.None? || status.value !in Statuses {
      return Err(400, "Invalid input");
    }
    var k := IdOf(orderId);
    if Has(db.orders, k) {
      var id := k.value;
      db.orders := db.orders[id := db.orders[id].(status := status.value)];
      assert db.orders.Keys == old(db.orders).Keys;
      assert KeysBelow(db.orders, db.nextOrder);
    }
    r := Ok(200, "Status updated successfully");
  }
}
