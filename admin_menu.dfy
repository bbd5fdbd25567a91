/** The admin's menu page: list filters, the low-stock view, the add-stock counters and
    their confirmation, the edit payload and the add-item guard
    (frontend/src/pages/Admin/AdminMenu.js). */
module AdminMenu {
  import opened Js
  import MenuController
  import MenuBackend

  /** A row of the item list as the page holds it; `name` may be null. */
  datatype MenuRow = MenuRow(
    itemId: int, name: Option<string>, categoryId: int, totalSales: real, salesToday: real, stock: int)

  /** The filter inputs: a selected category (or none), the two minimum-sales text boxes
      and the name box. */
  datatype Filters = Filters(category: Option<int>, minSales: string, minSalesToday: string, name: string)

  /** One `filtered.filter(...)` step. */
  datatype Criterion =
    | InCategory(c: int)
    | MinTotalSales(text: string)
    | MinSalesToday(text: string)
    | NameContains(sub: string)
    | StockAtMost(t: int)

  /** `x >= parseFloat(text)`: false for every x when the text is not a number. */
  predicate AtLeast(x: real, text: string) {
    ParseFloat(text).Some? && x >= ParseFloat(text).value
  }

  predicate Meets(c: Criterion, x: MenuRow) {
    match c
    case InCategory(k) => x.categoryId == k
    case MinTotalSales(t) => AtLeast(x.totalSales, t)
    case MinSalesToday(t) => AtLeast(x.salesToday, t)
    // `item.name?.toLowerCase().includes(...)` is undefined, so false, for a null name
    case NameContains(n) => x.name.Some? && IncludesIgnoreCase(x.name.value, n)
    case StockAtMost(t) => x.stock <= t
  }

  /** `x` meets every criterion of `cs`. */
  predicate MeetsAll(cs: seq<Criterion>, x: MenuRow) {
    cs == [] || (Meets(cs[0], x) && MeetsAll(cs[1..], x))
  }

  lemma {:induction false} MeetsAllAppend(a: seq<Criterion>, b: seq<Criterion>, x: MenuRow)
    ensures MeetsAll(a + b, x) <==> MeetsAll(a, x) && MeetsAll(b, x)
  {
    if a == [] {
      assert a + b == b;
    } else {
      assert (a + b)[0] == a[0];
      assert (a + b)[1..] == a[1..] + b;
      MeetsAllAppend(a[1..], b, x);
    }
  }

  /** The rows of `s` that meet every criterion of `cs`, in their order. */
  function Keep(s: seq<MenuRow>, cs: seq<Criterion>): (r: seq<MenuRow>)
    ensures |r| <= |s|
    ensures forall x :: x in r <==> x in s && MeetsAll(cs, x)
  {
    if s == [] then []
    else (if MeetsAll(cs, s[0]) then [s[0]] else []) + Keep(s[1..], cs)
  }

  /** Keeping preserves order: it distributes over concatenation. */
  lemma {:induction false} KeepAppend(a: seq<MenuRow>, b: seq<MenuRow>, cs: seq<Criterion>)
    ensures Keep(a + b, cs) == Keep(a, cs) + Keep(b, cs)
  {
    if a == [] {
      assert a + b == b;
    } else {
      assert (a + b)[0] == a[0];
      assert (a + b)[1..] == a[1..] + b;
      KeepAppend(a[1..], b, cs);
    }
  }

  /** With no criterion every row stays. */
  lemma {:induction false} KeepNone(s: seq<MenuRow>)
    ensures Keep(s, []) == s
  {
    if s != [] {
      KeepNone(s[1..]);
    }
  }

  /** Filtering again by one more criterion is filtering once by both. */
  lemma {:induction false} KeepSnoc(s: seq<MenuRow>, cs: seq<Criterion>, c: Criterion)
    ensures Keep(Keep(s, cs), [c]) == Keep(s, cs + [c])
  {
    if s != [] {
      KeepSnoc(s[1..], cs, c);
      MeetsAllAppend(cs, [c], s[0]);
      var head := if MeetsAll(cs, s[0]) then [s[0]] else [];
      KeepAppend(head, Keep(s[1..], cs), [c]);
      if head != [] {
        assert head[1..] == [];
        assert Keep(head[1..], [c]) == [];
      }
    }
  }

  /** The criteria switched on by the inputs, in the order `applyFilters` applies them:
      a category when one is selected, each text box when it is not empty. */
  function Active(f: Filters): (cs: seq<Criterion>)
    ensures f == Filters(None, "", "", "") ==> cs == []
  {
    (if f.category.Some? then [InCategory(f.category.value)] else []) +
    (if f.minSales != [] then [MinTotalSales(f.minSales)] else []) +
    (if f.minSalesToday != [] then [MinSalesToday(f.minSalesToday)] else []) +
    (if f.name != [] then [NameContains(f.name)] else [])
  }

  /** The page's filter condition written out as one conjunction. */
  predicate Passes(f: Filters, x: MenuRow) {
    (f.category.None? || x.categoryId == f.category.value) &&
    (f.minSales == [] || AtLeast(x.totalSales, f.minSales)) &&
    (f.minSalesToday == [] || AtLeast(x.salesToday, f.minSalesToday)) &&
    (f.name == [] || (x.name.Some? && IncludesIgnoreCase(x.name.value, f.name)))
  }

  lemma ActiveMeansPasses(f: Filters, x: MenuRow)
    ensures MeetsAll(Active(f), x) <==> Passes(f, x)
  {
    var a := if f.category.Some? then [InCategory(f.category.value)] else [];
    var b := if f.minSales != [] then [MinTotalSales(f.minSales)] else [];
    var c := if f.minSalesToday != [] then [MinSalesToday(f.minSalesToday)] else [];
    var d := if f.name != [] then [NameContains(f.name)] else [];
    MeetsAllAppend(a + b + c, d, x);
    MeetsAllAppend(a + b, c, x);
    MeetsAllAppend(a, b, x);
    MeetsAllOne(a, x);
    MeetsAllOne(b, x);
    MeetsAllOne(c, x);
    MeetsAllOne(d, x);
  }

  lemma MeetsAllOne(cs: seq<Criterion>, x: MenuRow)
    requires |cs| <= 1
    ensures MeetsAll(cs, x) <==> cs == [] || Meets(cs[0], x)
  {
    if cs != [] {
      assert cs[1..] == [];
    }
  }

  /** `applyFilters`: starts from the whole list and narrows it by each active filter in
      turn. The result keeps exactly the rows that pass every active filter, in list
      order. */
  method ApplyFilters(items: seq<MenuRow>, f: Filters) returns (filtered: seq<MenuRow>)
    ensures filtered == Keep(items, Active(f))
    ensures forall x :: x in filtered <==> x in items && Passes(f, x)
  {
    ghost var a := if f.category.Some? then [InCategory(f.category.value)] else [];
    ghost var b := if f.minSales != [] then [MinTotalSales(f.minSales)] else [];
    ghost var c := if f.minSalesToday != [] then [MinSalesToday(f.minSalesToday)] else [];
    ghost var d := if f.name != [] then [NameContains(f.name)] else [];
    assert Active(f) == a + b + c + d;
    KeepNone(items);
    filtered := items;
    if f.category.Some? {
      KeepSnoc(items, [], InCategory(f.category.value));
      filtered := Keep(filtered, [InCategory(f.category.value)]);
    }
    assert a == [] + a;
    assert filtered == Keep(items, a);
    if f.minSales != [] {
      KeepSnoc(items, a, MinTotalSales(f.minSales));
      filtered := Keep(filtered, [MinTotalSales(f.minSales)]);
    } else {
      assert a + b == a;
    }
    assert filtered == Keep(items, a + b);
    if f.minSalesToday != [] {
      KeepSnoc(items, a + b, MinSalesToday(f.minSalesToday));
      filtered := Keep(filtered, [MinSalesToday(f.minSalesToday)]);
    } else {
      assert a + b + c == a + b;
    }
    assert filtered == Keep(items, a + b + c);
    if f.name != [] {
      KeepSnoc(items, a + b + c, NameContains(f.name));
      filtered := Keep(filtered, [NameContains(f.name)]);
    } else {
      assert a + b + c + d == a + b + c;
    }
    forall x | x in items {
      ActiveMeansPasses(f, x);
    }
  }

  /** A minimum-sales box holding text that is not a number empties the list. */
  lemma UnparsableMinimumKeepsNothing(items: seq<MenuRow>, f: Filters)
    requires f.minSales != [] && ParseFloat(f.minSales).None?
    ensures Keep(items, Active(f)) == []
  {
    var r := Keep(items, Active(f));
    if r != [] {
      assert r[0] in r;
      ActiveMeansPasses(f, r[0]);
      assert false;
    }
  }

  /** `handleResetFilter`: the inputs are cleared and the whole list is shown, which is
      what applying the cleared filters shows. */
  lemma ResetShowsAll(items: seq<MenuRow>)
    ensures Keep(items, Active(Filters(None, "", "", ""))) == items
  {
    KeepNone(items);
  }

  // ---------------------------------------------------------------- low stock

  /** The "low stock" button: without a loaded threshold only a warning (None); otherwise
      the rows whose stock is at most the threshold. */
  function LowStockView(items: seq<MenuRow>, threshold: Option<int>): (view: Option<seq<MenuRow>>)
    ensures threshold.None? <==> view.None?
    ensures view.Some? ==> view.value == Keep(items, [StockAtMost(threshold.value)])
    ensures view.Some? ==> forall x :: x in view.value <==> x in items && x.stock <= threshold.value
  {
    if threshold.None? then None
    else
      var r := Keep(items, [StockAtMost(threshold.value)]);
      LowStockRows(items, threshold.value);
      Some(r)
  }

  lemma LowStockRows(items: seq<MenuRow>, t: int)
    ensures forall x :: x in Keep(items, [StockAtMost(t)]) <==> x in items && x.stock <= t
  {
    forall x | x in items {
      MeetsAllOne([StockAtMost(t)], x);
    }
  }

  /** The list shown after the stock update reloads the items: the low-stock view when
      that view was on and a threshold is known, the filtered list otherwise. */
  function ViewAfterReload(latest: seq<MenuRow>, lowStockOnly: bool, threshold: Option<int>, f: Filters)
    : (view: seq<MenuRow>)
    ensures lowStockOnly && threshold.Some? ==> Some(view) == LowStockView(latest, threshold)
    ensures !(lowStockOnly && threshold.Some?) ==> view == Keep(latest, Active(f))
  {
    if lowStockOnly && threshold.Some? then Keep(latest, [StockAtMost(threshold.value)])
    else Keep(latest, Active(f))
  }

  // ---------------------------------------------------------------- add-stock counters

  /** `fetchMenuItems`: every listed item without a counter gets one at 0; existing
      counters keep their value. */
  function RefreshCounters(counters: map<int, int>, items: seq<MenuRow>): (r: map<int, int>)
    ensures forall k :: k in r <==> k in counters || exists i :: 0 <= i < |items| && items[i].itemId == k
    ensures forall k :: k in counters ==> r[k] == counters[k]
    ensures forall k :: k in r && k !in counters ==> r[k] == 0
  {
    var ids := set i | 0 <= i < |items| :: items[i].itemId;
    map k | k in counters.Keys + ids :: if k in counters then counters[k] else 0
  }

  /** `menuItems.find(item => item.item_id === id)?.available_amount || 0`. */
  function SnapshotStock(items: seq<MenuRow>, id: int): (n: int)
    ensures (forall i :: 0 <= i < |items| ==> items[i].itemId != id) ==> n == 0
    ensures forall i :: (0 <= i < |items| && items[i].itemId == id &&
      forall j :: 0 <= j < i ==> items[j].itemId != id) ==> n == items[i].stock
  {
    if items == [] then 0
    else if items[0].itemId == id then items[0].stock
    else SnapshotStock(items[1..], id)
  }

  /** `handleConfirmStockUpdate`: one absolute stock per counter, the snapshot stock plus
      the counter, followed by every counter reset to 0. */
  datatype StockConfirm = StockConfirm(updates: map<int, int>, counters: map<int, int>)

  function ConfirmStockUpdate(items: seq<MenuRow>, counters: map<int, int>): (r: StockConfirm)
    ensures r.updates.Keys == counters.Keys && r.counters.Keys == counters.Keys
    ensures forall k :: k in counters ==> r.updates[k] == SnapshotStock(items, k) + counters[k]
    ensures forall k :: k in counters ==> r.counters[k] == 0
  {
    StockConfirm(map k | k in counters :: SnapshotStock(items, k) + counters[k],
                 map k | k in counters :: 0)
  }

  /** Pressing '+' on an item and confirming sends its snapshot stock plus one; a second
      confirmation straight after sends the snapshot stock itself, since the counters are
      back at 0. */
  lemma PlusThenConfirm(items: seq<MenuRow>, counters: map<int, int>, id: int)
    requires id in counters && counters[id] == 0
    ensures var c := ConfirmStockUpdate(items, MenuController.Increment(counters, id));
            c.updates[id] == SnapshotStock(items, id) + 1 &&
            ConfirmStockUpdate(items, c.counters).updates[id] == SnapshotStock(items, id)
  {
  }

  /** Pressing '-' on a zero counter leaves it at 0, so confirming changes no stock. */
  lemma MinusAtZero(items: seq<MenuRow>, counters: map<int, int>, id: int)
    requires id in counters && counters[id] == 0
    ensures MenuController.Decrement(counters, id) == counters
    ensures ConfirmStockUpdate(items, MenuController.Decrement(counters, id)).updates[id] == SnapshotStock(items, id)
  {
  }

  // ---------------------------------------------------------------- edit and add

  /** The item being edited; inputs hold text or the numbers loaded from the list. */
  datatype Editing = Editing(
    name: Option<string>, description: Option<string>, price: JsVal, stock: JsVal,
    categoryId: JsVal, imageUrl: Option<string>)

  /** The `PUT` body: `categoryId` is None when it is not a number. */
  datatype EditPayload = EditPayload(
    name: string, description: string, price: real, stock: real,
    categoryId: Option<real>, imageUrl: Option<string>)

  /** `Number(v) || 0`: NaN and 0 both become 0. */
  function NumberOr0(v: JsVal): (x: real)
    ensures NumberOf(v).None? ==> x == 0.0
    ensures NumberOf(v).Some? ==> x == NumberOf(v).value
  {
    NumberOf(v).GetOr(0.0)
  }

  /** `handleEditSave`'s payload: the name trimmed (a missing one as ""), a missing
      description as "", a non-numeric price or stock as 0, an empty image URL as null. */
  function EditPayloadOf(e: Editing): (p: EditPayload)
    ensures p.name == Trim(e.name.GetOr(""))
    ensures Trimmed(p.name)
    ensures e.description.Some? ==> p.description == e.description.value
    ensures e.description.None? ==> p.description == []
    ensures IsNaN(e.price) ==> p.price == 0.0
    ensures !IsNaN(e.price) ==> p.price == NumberOf(e.price).value
    ensures IsNaN(e.stock) ==> p.stock == 0.0
    ensures !IsNaN(e.stock) ==> p.stock == NumberOf(e.stock).value
    ensures p.categoryId == NumberOf(e.categoryId)
    ensures p.imageUrl.None? <==> e.imageUrl.None? || e.imageUrl.value == []
    ensures p.imageUrl.Some? ==> p.imageUrl == e.imageUrl
  {
    EditPayload(Trim(e.name.GetOr("")), e.description.GetOr(""), NumberOr0(e.price), NumberOr0(e.stock),
      NumberOf(e.categoryId),
      if e.imageUrl.None? || e.imageUrl.value == [] then None else e.imageUrl)
  }

  /** The form holding a payload's own values. */
  function Reloaded(p: EditPayload): Editing {
    Editing(Some(p.name), Some(p.description), Num(p.price), Num(p.stock),
      if p.categoryId.Some? then Num(p.categoryId.value) else Undef, p.imageUrl)
  }

  /** Saving is stable: editing an item to the payload's values and saving again sends
      the same payload. */
  lemma EditPayloadStable(e: Editing)
    ensures EditPayloadOf(Reloaded(EditPayloadOf(e))) == EditPayloadOf(e)
  {
    var p := EditPayloadOf(e);
    TrimIdempotent(e.name.GetOr(""));
    ReloadedPayload(p);
  }

  /** A payload whose name is already trimmed and whose image URL is not empty text is
      sent unchanged from a form holding its own values. */
  lemma ReloadedPayload(p: EditPayload)
    requires Trim(p.name) == p.name && p.imageUrl != Some([])
    ensures EditPayloadOf(Reloaded(p)) == p
  {
    var q := EditPayloadOf(Reloaded(p));
    assert q.name == p.name && q.description == p.description;
    assert q.price == p.price && q.stock == p.stock;
    assert q.categoryId == p.categoryId && q.imageUrl == p.imageUrl;
  }

  /** The new-item form: price and stock are the text of their inputs. */
  datatype NewItem = NewItem(name: string, price: string, stock: string, categoryId: Option<int>)

  /** `!name || !price || !available_amount || !categoryId`: "Please fill all fields". */
  predicate AddItemRefused(n: NewItem)
    ensures !AddItemRefused(n) ==> Truthy(Str(n.price)) && Truthy(Str(n.stock))
  {
    n.name == [] || n.price == [] || n.stock == [] || n.categoryId.GetOr(0) == 0
  }

  /** The form as it is reset after an item was added; it is refused until filled in. */
  const EmptyNewItem := NewItem("", "", "", None)

  /** The reset form is refused, while a stock typed as "0" is accepted: the guard looks at
      the text, not its value. */
  lemma AddItemGuard(n: NewItem)
    requires n.name != [] && n.price != [] && n.categoryId.Some? && n.categoryId.value != 0
    ensures AddItemRefused(EmptyNewItem)
    ensures !AddItemRefused(n.(stock := "0"))
    ensures AddItemRefused(n) <==> n.stock == []
  {
  }

  /** The body `handleAddItem` posts: the form's text fields with the description and the
      uploaded image URL the form also holds. */
  function Posted(n: NewItem, description: string, imageUrl: string): MenuBackend.ItemFields {
    MenuBackend.ItemFields(n.name, Some(description), Str(n.price), Str(n.stock), n.categoryId, imageUrl)
  }

  /** Once an image is uploaded, the page and the endpoint refuse the same forms except one
      with empty stock text, which only the page refuses; a price typed as "0" passes both. */
  lemma PageGuardAgrees(n: NewItem, description: string, imageUrl: string)
    requires imageUrl != []
    ensures !AddItemRefused(n) ==> !MenuBackend.MissingField(Posted(n, description, imageUrl))
    ensures AddItemRefused(n) && n.stock != [] ==> MenuBackend.MissingField(Posted(n, description, imageUrl))
    ensures n.stock == [] ==>
      AddItemRefused(n) &&
      (MenuBackend.MissingField(Posted(n, description, imageUrl)) <==> AddItemRefused(n.(stock := "0")))
    ensures !AddItemRefused(n) ==> !AddItemRefused(n.(price := "0"))
  {
  }
}
