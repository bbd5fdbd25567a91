/** The customer's invoice page: the fallback on a bad answer, the subtotal recomputed
    from the item rows, the discount row and the total payable
    (frontend/src/pages/Mobile/InvoiceMobile.js). */
module InvoiceMobile {
  import opened Js
  import InvoiceController
  import OrderBackend

  type Item = InvoiceController.InvoiceItem

  /** The invoice request's outcome: no answer, an answer without an item array, or the
      invoice. */
  datatype Answer = Failed | Malformed | Received(invoice: InvoiceController.Invoice)

  /** What the page renders from: the items and the discount (`{ items: [] }` after a bad
      answer, whose missing discount counts as 0), and the toast shown, if any. */
  datatype Shown = Shown(items: seq<Item>, discount: real, toast: Option<string>)

  function OnAnswer(a: Answer): (s: Shown)
    ensures a.Received? <==> s.toast.None?
    ensures a.Received? ==> s.items == a.invoice.items && s.discount == a.invoice.discountApplied
    ensures !a.Received? ==> s.items == [] && s.discount == 0.0
    ensures a == Malformed ==> s.toast == Some("Invoice format error")
    ensures a == Failed ==> s.toast == Some("Error fetching invoice")
  {
    match a
    case Failed => Shown([], 0.0, Some("Error fetching invoice"))
    case Malformed => Shown([], 0.0, Some("Invoice format error"))
    case Received(inv) => Shown(inv.items, inv.discountApplied, None)
  }

  /** `items.reduce((sum, item) => sum + parseFloat(item.total_price || 0), 0)`. */
  function Subtotal(items: seq<Item>): (t: real)
    ensures (forall i :: 0 <= i < |items| ==> items[i].totalPrice >= 0.0) ==> t >= 0.0
    ensures items == [] ==> t == 0.0
  {
    if items == [] then 0.0 else Subtotal(items[..|items| - 1]) + items[|items| - 1].totalPrice
  }

  /** "Total Payable": the subtotal minus the discount, not clamped at 0. */
  function TotalPayable(s: Shown): (t: real)
    ensures t + s.discount == Subtotal(s.items)
    ensures s.discount <= Subtotal(s.items) ==> t >= 0.0
  {
    Subtotal(s.items) - s.discount
  }

  /** The discount row appears only for a positive discount. */
  predicate ShowsDiscount(s: Shown)
    ensures ShowsDiscount(s) <==> TotalPayable(s) < Subtotal(s.items)
  {
    s.discount > 0.0
  }

  /** A bad answer shows an empty invoice: subtotal 0, no discount row, total 0. */
  lemma BadAnswerShowsZero(a: Answer)
    requires !a.Received?
    ensures Subtotal(OnAnswer(a).items) == 0.0 && !ShowsDiscount(OnAnswer(a)) && TotalPayable(OnAnswer(a)) == 0.0
  {
  }

  /** For an order placed through the order endpoint, whose item rows all still join and
      add up to the subtotal the order was placed with, the page's total payable is the
      total the order stored, and the discount row appears exactly when a positive
      discount was granted. */
  lemma TotalPayableIsStored(inv: InvoiceController.Invoice, claimed: Option<real>, subTotal: real)
    requires subTotal >= 0.0
    requires Subtotal(inv.items) == subTotal
    requires inv.discountApplied == OrderBackend.ActualDiscount(claimed, subTotal)
    requires inv.finalTotal == OrderBackend.FinalTotal(subTotal, inv.discountApplied)
    ensures TotalPayable(OnAnswer(Received(inv))) == inv.finalTotal
    ensures ShowsDiscount(OnAnswer(Received(inv))) <==> OrderBackend.ActualDiscount(claimed, subTotal) > 0.0
  {
  }

  /** When the claimed discount exceeds the subtotal of the rows that still join (an item
      of the order was deleted since), the total payable goes negative although the order
      stored a total of at least 0. */
  lemma DeletedItemCanMakeTotalNegative(inv: InvoiceController.Invoice)
    requires inv.discountApplied > Subtotal(inv.items) && inv.finalTotal >= 0.0
    ensures TotalPayable(OnAnswer(Received(inv))) < 0.0 <= inv.finalTotal
  {
  }
}
