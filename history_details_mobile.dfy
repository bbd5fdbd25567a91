/** The customer's order details page: the amount recomputed from the item rows, the
    voucher row, the grand total, the order type label and the pickup row
    (frontend/src/pages/Mobile/HistoryDetailsMobile.js). */
module HistoryDetailsMobile {
  import opened Js
  import InvoiceController
  import InvoiceMobile
  import OrderBackend

  /** What the page received: the invoice, with its `items` possibly not an array (None).
      A failed request leaves the page on "Loading order details..." and is not a state
      of this datatype. */
  datatype Details = Details(items: Option<seq<InvoiceController.InvoiceItem>>, discountApplied: real,
                             orderType: string, preorderAt: Option<string>)

  function FromInvoice(inv: InvoiceController.Invoice): (d: Details)
    ensures d.items == Some(inv.items) && d.discountApplied == inv.discountApplied
  {
    Details(Some(inv.items), inv.discountApplied, inv.orderType, inv.preorderAt)
  }

  /** "Amount": the item rows' totals added up, 0 when `items` is not an array. It is the
      invoice page's subtotal of the same rows. */
  function Amount(d: Details): (a: real)
    ensures d.items.None? ==> a == 0.0
    ensures d.items.Some? ==> a == InvoiceMobile.Subtotal(d.items.value)
  {
    if d.items.None? then 0.0 else InvoiceMobile.Subtotal(d.items.value)
  }

  /** "Voucher": `discount_applied ? parseFloat(discount_applied) : 0`. */
  function Voucher(d: Details): (v: real)
    ensures v == d.discountApplied
  {
    if d.discountApplied != 0.0 then d.discountApplied else 0.0
  }

  /** "Grand Total" as the page computes it: the amount again, with the voucher not
      taken off. */
  function GrandTotalAsWritten(d: Details): (t: real)
    ensures t == Amount(d)
  {
    Amount(d)
  }

  /** An order of 20.00 with a 5.00 voucher shows a grand total of 20.00, while the total
      the order stored, and the invoice page's total payable, are 15.00. */
  lemma GrandTotalIgnoresVoucher(inv: InvoiceController.Invoice)
    requires InvoiceMobile.Subtotal(inv.items) == 20.0
    requires inv.discountApplied == OrderBackend.ActualDiscount(Some(5.0), 20.0)
    requires inv.finalTotal == OrderBackend.FinalTotal(20.0, inv.discountApplied)
    ensures GrandTotalAsWritten(FromInvoice(inv)) == 20.0
    ensures inv.finalTotal == 15.0
    ensures InvoiceMobile.TotalPayable(InvoiceMobile.OnAnswer(InvoiceMobile.Received(inv))) == 15.0
  {
  }

  /** The grand total with the voucher taken off. */
  function GrandTotal(d: Details): (t: real)
    ensures t + Voucher(d) == Amount(d)
  {
    Amount(d) - Voucher(d)
  }

  /** For an order placed through the order endpoint whose rows add up to the subtotal it
      was placed with, the corrected grand total is the total the order stored and the
      invoice page's total payable. */
  lemma GrandTotalIsStored(inv: InvoiceController.Invoice, claimed: Option<real>, subTotal: real)
    requires subTotal >= 0.0
    requires InvoiceMobile.Subtotal(inv.items) == subTotal
    requires inv.discountApplied == OrderBackend.ActualDiscount(claimed, subTotal)
    requires inv.finalTotal == OrderBackend.FinalTotal(subTotal, inv.discountApplied)
    ensures GrandTotal(FromInvoice(inv)) == inv.finalTotal
    ensures GrandTotal(FromInvoice(inv)) == InvoiceMobile.TotalPayable(InvoiceMobile.OnAnswer(InvoiceMobile.Received(inv)))
  {
    InvoiceMobile.TotalPayableIsStored(inv, claimed, subTotal);
  }

  /** "Takeaway / Preorder" for a preorder, "Dine In" for anything else. */
  function OrderTypeLabel(d: Details): (s: string)
    ensures d.orderType == "preorder" <==> s == "Takeaway / Preorder"
    ensures d.orderType != "preorder" <==> s == "Dine In"
  {
    if d.orderType == "preorder" then "Takeaway / Preorder" else "Dine In"
  }

  /** The pickup row: only for a preorder with a pickup time. */
  predicate ShowsPickup(d: Details)
    ensures ShowsPickup(d) ==> OrderTypeLabel(d) == "Takeaway / Preorder"
  {
    d.orderType == "preorder" && d.preorderAt.Some? && |d.preorderAt.value| > 0
  }

  /** Every order the order endpoint stores as a preorder carries its pickup time, so its
      details show the pickup row; a dine-in order never does. */
  lemma PickupRowFollowsOrderType(inv: InvoiceController.Invoice)
    requires inv.orderType == "preorder" ==> inv.preorderAt.Some? && |inv.preorderAt.value| > 0
    ensures ShowsPickup(FromInvoice(inv)) <==> inv.orderType == "preorder"
    ensures ShowsPickup(FromInvoice(inv)) <==> OrderTypeLabel(FromInvoice(inv)) == "Takeaway / Preorder"
  {
  }
}
