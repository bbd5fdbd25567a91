/** The admin's writes on menu items (backend/controller/menuBackendController.js). */
module MenuBackend {
  import opened Js
  import opened Tables

  /** The fields of a new menu item as the request body carries them. The admin page posts
      price and stock as the text of its number inputs, so both are JavaScript values; a
      missing name or image URL is "", a missing category None. */
  datatype ItemFields = ItemFields(
    name: string, description: Option<string>, price: JsVal,
    availableAmount: JsVal, categoryId: Option<int>, imageUrl: string)

  /** `!name || !price || available_amount == null || !categoryId || !image_url`
      (`null` and `undefined` are both `Undef`): the price is tested for truthiness and the
      stock only for presence. */
  predicate MissingField(f: ItemFields)
    ensures f.price == Num(0.0) || f.price == Str([]) ==> MissingField(f)
    ensures f.availableAmount == Num(0.0) || f.availableAmount == Str([]) ==>
      (MissingField(f) <==> f.name == [] || !Truthy(f.price) || f.categoryId.GetOr(0) == 0 || f.imageUrl == [])
  {
    f.name == [] || !Truthy(f.price) || f.availableAmount.Undef? ||
    f.categoryId.GetOr(0) == 0 || f.imageUrl == []
  }

  /** A number in a numeric column: a number is stored as itself and text as the number it
      spells; blank or non-numeric text makes the insert fail (None). */
  function ColumnNumber(v: JsVal): Option<real> {
    match v
    case Num(x) => Some(x)
    case Str(s) => if Trim(s) == [] then None else ToNumber(s)
    case Undef => None
  }

  /** The row the insert stores, `is_available = TRUE`; None when the database refuses the
      price or the stock (a stock must be a whole number). */
  function Stored(f: ItemFields): (m: Option<MenuItem>)
    requires !MissingField(f)
    ensures m.Some? <==> (ColumnNumber(f.price).Some? && ColumnNumber(f.availableAmount).Some? &&
                          ColumnNumber(f.availableAmount).value == ColumnNumber(f.availableAmount).value.Floor as real)
    ensures m.Some? ==> (m.value.name == f.name && m.value.description == f.description &&
                         m.value.price == ColumnNumber(f.price).value &&
                         m.value.stock as real == ColumnNumber(f.availableAmount).value &&
                         m.value.categoryId == f.categoryId.value && m.value.isAvailable == 1 &&
                         m.value.imageUrl == f.imageUrl)
  {
    var price := ColumnNumber(f.price);
    var stock := ColumnNumber(f.availableAmount);
    if price.None? || stock.None? || stock.value != stock.value.Floor as real then None
    else Some(MenuItem(f.name, f.description, price.value, stock.value.Floor,
      f.categoryId.value, 1, f.imageUrl))
  }

  /** A stock of 0, as a number or as text, passes the guard; a price of 0 does only as
      text: the number 0 is falsy, the text "0" is not, and it is stored as a price of 0. */
  lemma ZeroValuesGuard(f: ItemFields)
    requires f.name != [] && f.imageUrl != [] && f.categoryId == Some(1)
    requires f.price == Str("0") && (f.availableAmount == Num(0.0) || f.availableAmount == Str("0"))
    ensures !MissingField(f)
    ensures MissingField(f.(price := Num(0.0)))
    ensures Stored(f) == Some(MenuItem(f.name, f.description, 0.0, 0, 1, 1, f.imageUrl))
  {
    ZeroTextColumn();
    var zero := ColumnNumber(f.availableAmount);
    assert zero == Some(0.0);
    assert Stored(f).Some?;
  }

  /** The text "0" is stored as the number 0. */
  lemma ZeroTextColumn()
    ensures ColumnNumber(Str("0")) == Some(0.0)
  {
    var s := "0";
    assert AllDigits(s) && s[..0] == [];
    assert DigitsValue(s) == 0;
    NumberOfDigits(s);
    TrimWithoutSpace(s);
    assert Trim(s) != [];
  }

  /** Empty text passes the stock's `== null` test, and the insert then fails. */
  lemma EmptyStockText(f: ItemFields)
    requires f.name != [] && f.imageUrl != [] && f.categoryId == Some(1) && f.price == Num(1.0)
    requires f.availableAmount == Str([])
    ensures !MissingField(f) && Stored(f).None?
  {
  }

  /** `POST` menu item: a missing field is refused; otherwise the row is inserted under the
      next key, or the insert fails with 500 when the database refuses the price or stock. */
  method AddMenuItem(db: Db, f: ItemFields) returns (r: Response<string>)
    requires db.Valid()
    modifies db`menu, db`nextItem
    ensures db.Valid()
    ensures MissingField(f) <==> r == Err(400, "Missing required fields")
    ensures MissingField(f) ==> unchanged(db)
    ensures !MissingField(f) && Stored(f).None? ==> r == Err(500, "Failed to add item") && unchanged(db)
    ensures !MissingField(f) && Stored(f).Some? ==>
      r == Ok(201, "Item added with image") &&
      old(db.nextItem) !in old(db.menu) &&
      db.menu == old(db.menu)[old(db.nextItem) := Stored(f).value] &&
      db.nextItem == old(db.nextItem) + 1
  {
    if MissingField(f) {
      return Err(400, "Missing required fields");
    }
    var m := Stored(f);
    if m.None? {
      return Err(500, "Failed to add item");
    }
    db.menu := db.menu[db.nextItem := m.value];
    db.nextItem := db.nextItem + 1;
    return Ok(201, "Item added with image");
  }

  /** `currentStatus === 1 ? 0 : 1`. */
  function Toggled(status: int): (s: int)
    ensures s == 0 || s == 1
    ensures s == 1 <==> status != 1
  {
    if status == 1 then 0 else 1
  }

  /** Toggling twice restores a 0/1 flag; any other stored value ends up as 0. */
  lemma ToggleTwice(status: int)
    ensures status == 0 || status == 1 ==> Toggled(Toggled(status)) == status
    ensures status != 0 && status != 1 ==> Toggled(Toggled(status)) == 0
  {
  }

  /** `PATCH` flag: 404 for an unknown item, otherwise flips `is_available` and answers
      the new value. */
  method FlagMenuItem(db: Db, itemId: IdParam) returns (r: Response<int>)
    requires db.Valid()
    modifies db`menu
    ensures db.Valid()
    ensures !Has(old(db.menu), IdOf(itemId)) ==> r == Err(404, "Menu item not found") && unchanged(db)
    ensures Has(old(db.menu), IdOf(itemId)) ==>
      var k := IdOf(itemId).value;
      var s := Toggled(old(db.menu)[k].isAvailable);
      r == Ok(200, s) && db.menu == old(db.menu)[k := old(db.menu)[k].(isAvailable := s)]
  {
    var k := IdOf(itemId);
    if !Has(db.menu, k) {
      return Err(404, "Menu item not found");
    }
    var s := Toggled(db.menu[k.value].isAvailable);
    db.menu := db.menu[k.value := db.menu[k.value].(isAvailable := s)];
    return Ok(200, s);
  }

  /** `PUT` stock: overwrites `available_amount` with the absolute value sent, without
      any check; an unknown id changes nothing. */
  method UpdateStock(db: Db, itemId: IdParam, amount: int) returns (r: Response<bool>)
    requires db.Valid()
    modifies db`menu
    ensures db.Valid()
    ensures r == Ok(200, true)
    ensures Has(old(db.menu), IdOf(itemId)) ==>
      db.menu == old(db.menu)[IdOf(itemId).value := old(db.menu)[IdOf(itemId).value].(stock := amount)]
    ensures !Has(old(db.menu), IdOf(itemId)) ==> db.menu == old(db.menu)
    ensures StockNonNegative(old(db.menu)) && amount >= 0 ==> StockNonNegative(db.menu)
  {
    var k := IdOf(itemId);
    if Has(db.menu, k) {
      db.menu := db.menu[k.value := db.menu[k.value].(stock := amount)];
    }
    return Ok(200, true);
  }

  /** `DELETE` menu item: removes exactly that item. */
  method DeleteMenuItem(db: Db, itemId: IdParam) returns (r: Response<string>)
    requires db.Valid()
    modifies db`menu
    ensures db.Valid()
    ensures r == Ok(200, "Item deleted")
    ensures IdOf(itemId).Some? ==> db.menu == old(db.menu) - {IdOf(itemId).value}
    ensures IdOf(itemId).None? ==> db.menu == old(db.menu)
  {
    var k := IdOf(itemId);
    if k.Some? {
      db.menu := db.menu - {k.value};
    }
    return Ok(200, "Item deleted");
  }

  /** The row after `UPDATE menuitems SET name, description, price, available_amount,
      categoryId, image_url`: six fields replaced, `is_available` kept. */
  function Edited(item: MenuItem, name: string, description: Option<string>, price: real,
                  stock: int, categoryId: int, imageUrl: string): (e: MenuItem)
    ensures e.isAvailable == item.isAvailable
    ensures e.name == name && e.description == description && e.price == price
    ensures e.stock == stock && e.categoryId == categoryId && e.imageUrl == imageUrl
  {
    item.(name := name, description := description, price := price, stock := stock,
          categoryId := categoryId, imageUrl := imageUrl)
  }

  /** `PUT` menu item: overwrites six fields of that id and leaves `is_available` alone;
      an unknown id changes nothing and is still answered with success. */
  method UpdateMenuItem(db: Db, itemId: IdParam, name: string, description: Option<string>, price: real,
                        stock: int, categoryId: int, imageUrl: string) returns (r: Response<string>)
    requires db.Valid()
    modifies db`menu
    ensures db.Valid()
    ensures r == Ok(200, "Menu item updated")
    ensures Has(old(db.menu), IdOf(itemId)) ==>
      var k := IdOf(itemId).value;
      db.menu == old(db.menu)[k := Edited(old(db.menu)[k], name, description, price, stock, categoryId, imageUrl)]
    ensures !Has(old(db.menu), IdOf(itemId)) ==> db.menu == old(db.menu)
  {
    var k := IdOf(itemId);
    if Has(db.menu, k) {
      db.menu := db.menu[k.value := Edited(db.menu[k.value], name, description, price, stock, categoryId, imageUrl)];
    }
    return Ok(200, "Menu item updated");
  }
}
