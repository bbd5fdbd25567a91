/** The read-only invoice of one order (backend/controller/invoiceController.js). */
module InvoiceController {
  import opened Js
  import opened Tables

  /** One row of `sales JOIN menuitems`: the sale with its item's name, price and image. */
  datatype InvoiceItem = InvoiceItem(
    saleId: int, name: string, quantity: int, price: real, totalPrice: real,
    remarks: Option<string>, imageUrl: string)

  datatype Invoice = Invoice(
    orderId: int, items: seq<InvoiceItem>, discountApplied: real, finalTotal: real,
    created: int, membershipPoints: int, orderType: string, preorderAt: Option<string>)

  function ItemRow(k: int, s: Sale, m: MenuItem): InvoiceItem {
    InvoiceItem(k, m.name, s.quantity, m.price, s.totalPrice, s.remarks, m.imageUrl)
  }

  /** The sale belongs to order `o` and its item still exists (the inner join drops
      sales whose item was deleted). */
  predicate OnInvoice(s: Sale, o: int, menu: map<int, MenuItem>) {
    s.orderId == o && s.itemId in menu
  }

  /** `SELECT ... FROM sales s JOIN menuitems m ... WHERE s.order_id = ?` in sale order. */
  function InvoiceItems(sales: map<int, Sale>, next: int, menu: map<int, MenuItem>, o: int)
    : (items: seq<InvoiceItem>)
    requires KeysBelow(sales, next)
    ensures forall i :: 0 <= i < |items| ==>
      var k := items[i].saleId;
      k in sales && OnInvoice(sales[k], o, menu) && items[i] == ItemRow(k, sales[k], menu[sales[k].itemId])
    ensures forall k :: k in sales && OnInvoice(sales[k], o, menu) ==>
      exists i :: 0 <= i < |items| && items[i].saleId == k
    ensures forall i, j :: 0 <= i < j < |items| ==> items[i].saleId < items[j].saleId
  {
    var ids := Select(sales, (s: Sale) => OnInvoice(s, o, menu), 1, next);
    var items := seq(|ids|, i requires 0 <= i < |ids| => ItemRow(ids[i], sales[ids[i]], menu[sales[ids[i]].itemId]));
    forall k | k in sales && OnInvoice(sales[k], o, menu) ensures exists i :: 0 <= i < |items| && items[i].saleId == k {
      assert k in ids;
      var i :| 0 <= i < |ids| && ids[i] == k;
      assert items[i].saleId == k;
    }
    items
  }

  /** `GET` invoice: a falsy id is 400. An order with no (joinable) sale rows is 404
      "Invoice not found", which is decided before a missing order row is 404 "Order not
      found". Otherwise the invoice carries the sale rows and the order's stored
      `total_price` as the final total; nothing is written. */
  function GetInvoice(db: Db, orderId: IdParam): (r: Response<Invoice>)
    reads db
    requires db.Valid()
    ensures !IdTruthy(orderId) <==> r == Err(400, "Missing orderId parameter")
    ensures IdTruthy(orderId) &&
            (IdOf(orderId).None? || InvoiceItems(db.sales, db.nextSale, db.menu, IdOf(orderId).value) == []) ==>
      r == Err(404, "Invoice not found")
    ensures r == Err(404, "Order not found") ==>
      IdOf(orderId).Some? && InvoiceItems(db.sales, db.nextSale, db.menu, IdOf(orderId).value) != [] &&
      IdOf(orderId).value !in db.orders
    ensures r.Ok? ==> IdTruthy(orderId) && Has(db.orders, IdOf(orderId))
    ensures r.Ok? && Has(db.orders, IdOf(orderId)) ==>
      var k := IdOf(orderId).value;
      var o := db.orders[k];
      r.value.items == InvoiceItems(db.sales, db.nextSale, db.menu, k) && r.value.items != [] &&
      r.value.orderId == k && r.value.finalTotal == o.totalPrice &&
      r.value.discountApplied == o.discountApplied && r.value.created == o.created &&
      r.value.membershipPoints == o.membershipPoints && r.value.orderType == o.orderType &&
      r.value.preorderAt == o.preorderAt
    ensures (IdTruthy(orderId) && IdOf(orderId).Some? && IdOf(orderId).value in db.orders &&
             InvoiceItems(db.sales, db.nextSale, db.menu, IdOf(orderId).value) != []) ==> r.Ok?
  {
    if !IdTruthy(orderId) then Err(400, "Missing orderId parameter")
    else if IdOf(orderId).None? then Err(404, "Invoice not found")
    else
      var k := IdOf(orderId).value;
      var items := InvoiceItems(db.sales, db.nextSale, db.menu, k);
      if items == [] then Err(404, "Invoice not found")
      else if k !in db.orders then Err(404, "Order not found")
      else
        var o := db.orders[k];
        Ok(200, Invoice(k, items, o.discountApplied, o.totalPrice, o.created,
                        o.membershipPoints, o.orderType, o.preorderAt))
  }

  /** Sales whose order row is gone still produce an invoice lookup that reaches the
      order check: the answer is "Order not found", not "Invoice not found". */
  lemma OrphanSalesReachOrderCheck(db: Db, k: int)
    requires db.Valid()
    requires k >= 1 && k !in db.orders && InvoiceItems(db.sales, db.nextSale, db.menu, k) != []
    ensures GetInvoice(db, IdNum(k)) == Err(404, "Order not found")
  {
  }
}
