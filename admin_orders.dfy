/** The admin's order list page: the search, date and status filters, reset, bulk
    delete, the status change and the status colours
    (frontend/src/pages/Admin/AdminOrders.js). The rows are the ones the admin order
    query formats. */
module AdminOrders {
  import opened Js
  import OrderAdmin

  type Order = OrderAdmin.AdminOrder

  /** The filter inputs. `range` holds the start of the first picked day and the end of
      the last one, as instants; None when no range is picked. */
  datatype Filters = Filters(searchText: string, range: Option<(int, int)>, status: string)

  const Cleared := Filters("", None, "")

  /** The three filters, each one only when its input is set. */
  predicate NameOk(f: Filters, o: Order) {
    |f.searchText| == 0 || (o.customerName.Some? && IncludesIgnoreCase(o.customerName.value, f.searchText))
  }

  /** `isAfter(start.startOf('day')) && isBefore(end.endOf('day'))`: both bounds are
      strict. */
  predicate DateOk(f: Filters, o: Order) {
    f.range.None? || (f.range.value.0 < o.created < f.range.value.1)
  }

  predicate StatusOk(f: Filters, o: Order) {
    |f.status| == 0 || o.status == f.status
  }

  predicate Shown(f: Filters, o: Order) {
    NameOk(f, o) && DateOk(f, o) && StatusOk(f, o)
  }

  /** The orders passing every set filter, in list order. */
  function Select(orders: seq<Order>, f: Filters): (r: seq<Order>)
    ensures |r| <= |orders|
    ensures forall o :: o in r <==> o in orders && Shown(f, o)
  {
    if orders == [] then []
    else (if Shown(f, orders[0]) then [orders[0]] else []) + Select(orders[1..], f)
  }

  /** A filter pass that adds one condition to the ones already applied gives the
      selection under all of them. */
  lemma {:induction false} SelectNarrowed(orders: seq<Order>, f: Filters, g: Filters, h: Filters)
    requires forall o :: Shown(h, o) <==> Shown(f, o) && Shown(g, o)
    ensures Select(Select(orders, f), g) == Select(orders, h)
  {
    if orders != [] {
      SelectNarrowed(orders[1..], f, g, h);
      var o := orders[0];
      var t := Select(orders[1..], f);
      if Shown(f, o) {
        var u := [o] + t;
        assert Select(orders, f) == u;
        assert u[0] == o && u[1..] == t;
        assert Select(u, g) == (if Shown(g, o) then [o] else []) + Select(t, g);
      } else {
        assert Select(orders, f) == t;
      }
    }
  }

  /** Some order lost its customer (the customer row was deleted): its name is NULL. */
  predicate HasNamelessOrder(orders: seq<Order>) {
    exists i :: 0 <= i < |orders| && orders[i].customerName.None?
  }

  /** `handleFilter`: narrows a copy of the list by name, then date range, then status.
      The name pass calls `toLowerCase` on every customer name, so with a search text
      and a nameless order the handler throws and the shown list is not replaced
      (None). Otherwise the result is the one-pass selection under all three filters. */
  method HandleFilter(orders: seq<Order>, f: Filters) returns (filtered: Option<seq<Order>>)
    ensures filtered.None? <==> |f.searchText| > 0 && HasNamelessOrder(orders)
    ensures filtered.Some? ==> filtered.value == Select(orders, f)
    ensures filtered.Some? ==> forall o :: o in filtered.value <==> o in orders && Shown(f, o)
  {
    if |f.searchText| > 0 && exists i :: 0 <= i < |orders| && orders[i].customerName.None? {
      return None;
    }
    var current := orders;
    SelectAll(orders);
    if |f.searchText| > 0 {
      NameStep(orders, f.searchText);
      current := Select(current, Filters(f.searchText, None, ""));
    }
    assert current == Select(orders, Filters(f.searchText, None, ""));
    if f.range.Some? {
      DateStep(orders, f.searchText, f.range.value);
      current := Select(current, Filters("", f.range, ""));
    }
    assert current == Select(orders, Filters(f.searchText, f.range, ""));
    if |f.status| > 0 {
      StatusStep(orders, f);
      current := Select(current, Filters("", None, f.status));
    }
    assert f == Filters(f.searchText, f.range, f.status);
    return Some(current);
  }

  lemma NameStep(orders: seq<Order>, t: string)
    ensures Select(Select(orders, Cleared), Filters(t, None, "")) == Select(orders, Filters(t, None, ""))
  {
    SelectNarrowed(orders, Cleared, Filters(t, None, ""), Filters(t, None, ""));
  }

  lemma DateStep(orders: seq<Order>, t: string, range: (int, int))
    ensures Select(Select(orders, Filters(t, None, "")), Filters("", Some(range), "")) ==
            Select(orders, Filters(t, Some(range), ""))
  {
    SelectNarrowed(orders, Filters(t, None, ""), Filters("", Some(range), ""), Filters(t, Some(range), ""));
  }

  lemma StatusStep(orders: seq<Order>, f: Filters)
    ensures Select(Select(orders, Filters(f.searchText, f.range, "")), Filters("", None, f.status)) ==
            Select(orders, Filters(f.searchText, f.range, f.status))
  {
    SelectNarrowed(orders, Filters(f.searchText, f.range, ""), Filters("", None, f.status),
                   Filters(f.searchText, f.range, f.status));
  }

  /** With every input cleared nothing is filtered out. */
  lemma {:induction false} SelectAll(orders: seq<Order>)
    ensures Select(orders, Cleared) == orders
  {
    if orders != [] {
      SelectAll(orders[1..]);
      assert orders == [orders[0]] + orders[1..];
    }
  }

  /** An order placed exactly at midnight starting the first picked day is not shown:
      the range's lower bound is strict. */
  lemma MidnightOrderExcluded(orders: seq<Order>, o: Order, from: int, to: int)
    requires o in orders && o.created == from
    ensures o !in Select(orders, Filters("", Some((from, to)), ""))
  {
  }

  // ---------------------------------------------------------------- page state

  /** What the page holds: the loaded orders, the rows shown, the ticked order ids and the
      filter inputs. */
  datatype Page = Page(orders: seq<Order>, filtered: seq<Order>, selected: seq<int>, filters: Filters)

  /** `handleReset`: inputs cleared and the whole list shown, which is what filtering
      with the cleared inputs shows. */
  function Reset(p: Page): (q: Page)
    ensures q.filters == Cleared && q.orders == p.orders && q.selected == p.selected
    ensures q.filtered == Select(p.orders, Cleared)
  {
    SelectAll(p.orders);
    p.(filters := Cleared, filtered := p.orders)
  }

  /** The ids sent by "delete selected": None (only a warning) when nothing is ticked. */
  function DeleteRequest(p: Page): (ids: Option<seq<int>>)
    ensures ids.None? <==> p.selected == []
    ensures ids.Some? ==> ids.value == p.selected
  {
    if p.selected == [] then None else Some(p.selected)
  }

  /** The orders whose id is not in `ids`, in list order. */
  function WithoutIds(orders: seq<Order>, ids: seq<int>): (r: seq<Order>)
    ensures |r| <= |orders|
    ensures forall o :: o in r <==> o in orders && o.orderId !in ids
  {
    if orders == [] then []
    else (if orders[0].orderId in ids then [] else [orders[0]]) + WithoutIds(orders[1..], ids)
  }

  /** The page after the delete answer: on success the deleted ids leave the list, the
      shown list becomes the whole remaining list (the filters are not applied again)
      and the selection is cleared; on failure nothing changes. */
  function AfterDelete(p: Page, success: bool): (q: Page)
    ensures !success ==> q == p
    ensures success ==> q.orders == WithoutIds(p.orders, p.selected) && q.filtered == q.orders &&
                        q.selected == [] && q.filters == p.filters
  {
    if success then
      var rest := WithoutIds(p.orders, p.selected);
      p.(orders := rest, filtered := rest, selected := [])
    else p
  }

  /** The ids of a list of orders. */
  function Ids(orders: seq<Order>): (s: set<int>)
    ensures forall k :: k in s <==> exists o :: o in orders && o.orderId == k
  {
    set o | o in orders :: o.orderId
  }

  /** When the page lists exactly the stored orders, after a successful delete it lists
      exactly the ones the backend keeps: the stored ids minus the ticked ones. */
  lemma DeleteKeepsPageInStep(p: Page, stored: set<int>)
    requires Ids(p.orders) == stored && p.selected != []
    ensures Ids(AfterDelete(p, true).orders) == stored - set i | i in p.selected
  {
    var q := AfterDelete(p, true).orders;
    forall k | k in stored - set i | i in p.selected
      ensures k in Ids(q)
    {
      var o :| o in p.orders && o.orderId == k;
      assert o in q;
    }
  }

  /** Every order with a new status: `order_id === orderId ? {...order, status} : order`. */
  function WithStatus(orders: seq<Order>, orderId: int, status: string): (r: seq<Order>)
    ensures |r| == |orders|
    ensures forall i :: 0 <= i < |orders| ==>
      r[i] == (if orders[i].orderId == orderId then orders[i].(status := status) else orders[i])
  {
    seq(|orders|, i requires 0 <= i < |orders| =>
      if orders[i].orderId == orderId then orders[i].(status := status) else orders[i])
  }

  /** The page after the status answer: on success the order takes the new status and
      the shown list becomes the whole list; on failure nothing changes. */
  function AfterStatusChange(p: Page, orderId: int, status: string, success: bool): (q: Page)
    ensures !success ==> q == p
    ensures success ==> q.orders == WithStatus(p.orders, orderId, status) && q.filtered == q.orders &&
                        q.selected == p.selected && q.filters == p.filters
  {
    if success then
      var updated := WithStatus(p.orders, orderId, status);
      p.(orders := updated, filtered := updated)
    else p
  }

  /** A successful status change shows every order again, even while a filter that
      hides some of them is still set. */
  lemma StatusChangeDropsFilter(p: Page, orderId: int, status: string, o: Order)
    requires o in p.orders && o.orderId != orderId && !Shown(p.filters, o)
    ensures o in AfterStatusChange(p, orderId, status, true).filtered
    ensures !Shown(AfterStatusChange(p, orderId, status, true).filters, o)
  {
    var i :| 0 <= i < |p.orders| && p.orders[i] == o;
    assert WithStatus(p.orders, orderId, status)[i] == o;
  }

  /** `getStatusColor`: one colour per status, grey for anything else. */
  function StatusColor(status: string): (c: string)
    ensures status == "Completed" <==> c == "#52c41a"
    ensures status == "Cancelled" <==> c == "#ff4d4f"
    ensures status == "Preparing" <==> c == "#faad14"
    ensures status !in OrderAdmin.Statuses <==> c == "#d9d9d9"
  {
    if status == "Completed" then "#52c41a"
    else if status == "Cancelled" then "#ff4d4f"
    else if status == "Preparing" then "#faad14"
    else "#d9d9d9"
  }
}
