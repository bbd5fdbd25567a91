/** Admin accounts, the two numeric settings and the low-stock list
    (backend/controller/adminController.js). */
module AdminController {
  import opened Js
  import opened Tables
  import OrderBackend

  // ---------------------------------------------------------------- admin accounts

  /** No two admins share a username. */
  ghost predicate UniqueUsernames(admins: map<int, Admin>) {
    forall a, b :: a in admins && b in admins && a != b ==> admins[a].username != admins[b].username
  }

  predicate UsernameTaken(admins: map<int, Admin>, username: string) {
    exists k :: k in admins && admins[k].username == username
  }

  /** `POST` admin: an empty username or password is 400, a taken username is 409;
      otherwise one admin is inserted under the next key. */
  method RegisterAdmin(db: Db, username: string, password: string) returns (r: Response<string>)
    requires db.Valid()
    modifies db`admins, db`nextAdmin
    ensures db.Valid()
    ensures r.Err? ==> unchanged(db)
    ensures (username == [] || password == []) <==> r == Err(400, "Username and password are required")
    ensures username != [] && password != [] ==>
      (UsernameTaken(old(db.admins), username) <==> r == Err(409, "Username already exists"))
    ensures username != [] && password != [] && !UsernameTaken(old(db.admins), username) ==> r.Ok?
    ensures r.Ok? ==>
      r.value == "Admin registered successfully" &&
      old(db.nextAdmin) !in old(db.admins) &&
      db.admins == old(db.admins)[old(db.nextAdmin) := Admin(username, password)] &&
      db.nextAdmin == old(db.nextAdmin) + 1
    ensures UniqueUsernames(old(db.admins)) ==> UniqueUsernames(db.admins)
  {
    if username == [] || password == [] {
      return Err(400, "Username and password are required");
    }
    if UsernameTaken(db.admins, username) {
      return Err(409, "Username already exists");
    }
    db.admins := db.admins[db.nextAdmin := Admin(username, password)];
    db.nextAdmin := db.nextAdmin + 1;
    return Ok(200, "Admin registered successfully");
  }

  /** `PUT` admin: both fields are required; the row is overwritten without looking at
      other admins' usernames, and an unknown id changes nothing. */
  method UpdateAdmin(db: Db, id: IdParam, username: string, password: string) returns (r: Response<string>)
    requires db.Valid()
    modifies db`admins
    ensures db.Valid()
    ensures (username == [] || password == []) <==> r == Err(400, "Username and password are required")
    ensures username != [] && password != [] ==> r.Ok?
    ensures r.Err? ==> unchanged(db)
    ensures r.Ok? ==> r.value == "Admin updated successfully"
    ensures r.Ok? && Has(old(db.admins), IdOf(id)) ==>
      db.admins == old(db.admins)[IdOf(id).value := Admin(username, password)]
    ensures r.Ok? && !Has(old(db.admins), IdOf(id)) ==> db.admins == old(db.admins)
  {
    if username == [] || password == [] {
      return Err(400, "Username and password are required");
    }
    var k := IdOf(id);
    if Has(db.admins, k) {
      db.admins := db.admins[k.value := Admin(username, password)];
    }
    return Ok(200, "Admin updated successfully");
  }

  /** Renaming an admin to another admin's username is accepted and leaves two admins
      with one username. */
  lemma UpdateAdminMayDuplicateUsernames()
    ensures var before := map[1 := Admin("root", "pw"), 2 := Admin("clerk", "pw")];
            var after := before[2 := Admin("root", "pw2")];
            UniqueUsernames(before) && !UniqueUsernames(after)
  {
    var before := map[1 := Admin("root", "pw"), 2 := Admin("clerk", "pw")];
    var after := before[2 := Admin("root", "pw2")];
    assert before.Keys == {1, 2};
    assert after[1].username == after[2].username;
  }

  /** `DELETE` admin: removes exactly that id. */
  method DeleteAdmin(db: Db, id: IdParam) returns (r: Response<string>)
    requires db.Valid()
    modifies db`admins
    ensures db.Valid()
    ensures r == Ok(200, "Admin deleted successfully")
    ensures IdOf(id).Some? ==> db.admins == old(db.admins) - {IdOf(id).value}
    ensures IdOf(id).None? ==> db.admins == old(db.admins)
  {
    var k := IdOf(id);
    if k.Some? {
      db.admins := db.admins - {k.value};
    }
    return Ok(200, "Admin deleted successfully");
  }

  // ---------------------------------------------------------------- settings

  /** `GET` conversion rate: 404 when the settings row is missing. */
  function GetPointsConversionRate(settings: map<string, JsVal>): (r: Response<JsVal>)
    ensures RateKey !in settings <==> r == Err(404, "Conversion rate not set")
    ensures RateKey in settings ==> r == Ok(200, settings[RateKey])
  {
    if RateKey !in settings then Err(404, "Conversion rate not set") else Ok(200, settings[RateKey])
  }

  /** `!newRate || isNaN(newRate) || newRate <= 0`. */
  predicate BadRate(v: JsVal) {
    !Truthy(v) || IsNaN(v) || NumberOf(v).value <= 0.0
  }

  /** `PUT` conversion rate: a missing, non-numeric or non-positive rate is 400; otherwise
      the rate is written into the existing settings row (no row is created). */
  method UpdatePointsConversionRate(db: Db, newRate: JsVal) returns (r: Response<string>)
    modifies db`settings
    ensures BadRate(newRate) <==> r == Err(400, "Invalid conversion rate")
    ensures !BadRate(newRate) ==> r.Ok?
    ensures r.Err? ==> unchanged(db)
    ensures r.Ok? ==> r.value == "Conversion rate updated successfully"
    ensures r.Ok? && RateKey in old(db.settings) ==> db.settings == old(db.settings)[RateKey := newRate]
    ensures r.Ok? && RateKey !in old(db.settings) ==> db.settings == old(db.settings)
  {
    if BadRate(newRate) {
      return Err(400, "Invalid conversion rate");
    }
    if RateKey in db.settings {
      db.settings := db.settings[RateKey := newRate];
    }
    return Ok(200, "Conversion rate updated successfully");
  }

  /** A rate the admin is allowed to store is exactly the rate `placeOrder` divides by:
      `parseFloat` of the stored value agrees with the `Number` the guard checked, and
      it is never the fallback 10 unless 10 was stored. */
  lemma AcceptedRateIsUsed(v: JsVal)
    requires !BadRate(v)
    ensures OrderBackend.ConversionRate(Some(v)) == NumberOf(v).value
    ensures OrderBackend.ConversionRate(Some(v)) > 0.0
  {
    if v.Str? {
      ParseFloatAgreesWithNumber(v.s);
    }
  }

  /** `GET` threshold: 404 when the settings row is missing. */
  function GetLowStockAmount(settings: map<string, JsVal>): (r: Response<JsVal>)
    ensures ThresholdKey !in settings <==> r == Err(404, "Threshold not set")
    ensures ThresholdKey in settings ==> r == Ok(200, settings[ThresholdKey])
  {
    if ThresholdKey !in settings then Err(404, "Threshold not set") else Ok(200, settings[ThresholdKey])
  }

  /** `!threshold || isNaN(threshold)`: 0 is refused, a negative number is not. */
  predicate BadThreshold(v: JsVal) {
    !Truthy(v) || IsNaN(v)
  }

  /** `PUT` threshold: a falsy or non-numeric value is 400; otherwise it is written into
      the existing settings row. */
  method UpdateLowStockAmount(db: Db, threshold: JsVal) returns (r: Response<string>)
    modifies db`settings
    ensures BadThreshold(threshold) <==> r == Err(400, "Invalid threshold value.")
    ensures !BadThreshold(threshold) ==> r.Ok?
    ensures r.Err? ==> unchanged(db)
    ensures r.Ok? ==> r.value == "Threshold updated successfully."
    ensures r.Ok? && ThresholdKey in old(db.settings) ==> db.settings == old(db.settings)[ThresholdKey := threshold]
    ensures r.Ok? && ThresholdKey !in old(db.settings) ==> db.settings == old(db.settings)
  {
    if BadThreshold(threshold) {
      return Err(400, "Invalid threshold value.");
    }
    if ThresholdKey in db.settings {
      db.settings := db.settings[ThresholdKey := threshold];
    }
    return Ok(200, "Threshold updated successfully.");
  }

  // ---------------------------------------------------------------- low stock

  datatype LowStockItem = LowStockItem(itemId: int, name: string, stock: int)

  datatype LowStockReport = LowStockReport(threshold: int, items: seq<LowStockItem>)

  /** `thresholdRows[0]?.setting_value || '3'`: a missing or falsy setting reads as "3". */
  function ThresholdSetting(settings: map<string, JsVal>): (v: JsVal)
    ensures ThresholdKey !in settings || !Truthy(settings[ThresholdKey]) ==> v == Str("3")
    ensures ThresholdKey in settings && Truthy(settings[ThresholdKey]) ==> v == settings[ThresholdKey]
  {
    if ThresholdKey in settings && Truthy(settings[ThresholdKey]) then settings[ThresholdKey] else Str("3")
  }

  function LowRow(k: int, item: MenuItem): LowStockItem {
    LowStockItem(k, item.name, item.stock)
  }

  /** `SELECT item_id, name, available_amount FROM menuitems WHERE available_amount <= t`
      in key order. */
  function LowRows(menu: map<int, MenuItem>, next: int, t: int): (items: seq<LowStockItem>)
    requires KeysBelow(menu, next)
    ensures forall i :: 0 <= i < |items| ==>
      var k := items[i].itemId;
      k in menu && items[i] == LowRow(k, menu[k]) && menu[k].stock <= t
    ensures forall k :: k in menu && menu[k].stock <= t ==>
      exists i :: 0 <= i < |items| && items[i].itemId == k
    ensures forall i, j :: 0 <= i < j < |items| ==> items[i].itemId < items[j].itemId
  {
    var ids := Select(menu, (m: MenuItem) => m.stock <= t, 1, next);
    var items := seq(|ids|, i requires 0 <= i < |ids| => LowRow(ids[i], menu[ids[i]]));
    forall k | k in menu && menu[k].stock <= t ensures exists i :: 0 <= i < |items| && items[i].itemId == k {
      assert k in ids;
      var i :| 0 <= i < |ids| && ids[i] == k;
      assert items[i].itemId == k;
    }
    items
  }

  /** `GET` low stock: the threshold is `parseInt` of the setting (3 by default); a NaN
      threshold makes the query fail (500). Otherwise the answer lists exactly the items
      with `available_amount <= threshold`, in key order. */
  function GetLowStockItems(menu: map<int, MenuItem>, next: int, settings: map<string, JsVal>)
    : (r: Response<LowStockReport>)
    requires KeysBelow(menu, next)
    ensures r.Err? <==> ParseIntOf(ThresholdSetting(settings)).None?
    ensures r.Err? ==> r.status == 500
    ensures r.Ok? ==> r.value.threshold == ParseIntOf(ThresholdSetting(settings)).value
    ensures r.Ok? ==> r.value.items == LowRows(menu, next, r.value.threshold)
  {
    match ParseIntOf(ThresholdSetting(settings))
    case None => Err(500, "threshold is not a number")
    case Some(t) => Ok(200, LowStockReport(t, LowRows(menu, next, t)))
  }

  /** With no threshold stored, items with at most 3 left are low. */
  lemma DefaultThreshold(settings: map<string, JsVal>)
    requires ThresholdKey !in settings
    ensures ParseIntOf(ThresholdSetting(settings)) == Some(3)
  {
    assert "3" == NatToString(3);
    ParseIntOfNatToString(3);
  }

  /** A threshold written as a whole number of digits is accepted and is the threshold
      the low-stock list then uses. */
  lemma DigitThresholdRoundTrip(n: nat, settings: map<string, JsVal>)
    requires n > 0
    requires ThresholdKey in settings && settings[ThresholdKey] == Str(NatToString(n))
    ensures !BadThreshold(Str(NatToString(n)))
    ensures ParseIntOf(ThresholdSetting(settings)) == Some(n)
  {
    NumberOfDigits(NatToString(n));
    ParseIntOfNatToString(n);
  }

  /** The threshold guard and the low-stock reader disagree: a blank " " passes
      `isNaN` (it is the number 0) and is stored, and `parseInt` then reads NaN, so the
      low-stock list fails with 500. */
  lemma BlankThresholdAcceptedButUnreadable(settings: map<string, JsVal>)
    requires ThresholdKey in settings && settings[ThresholdKey] == Str(" ")
    ensures !BadThreshold(Str(" "))
    ensures ParseIntOf(ThresholdSetting(settings)) == None
  {
    assert TrimStart(" ") == [];
    assert Trim(" ") == [];
  }
}
