/** Customer profile, admin customer edits and the top-customers list
    (backend/controller/customerController.js). */
module CustomerController {
  import opened Js
  import opened Tables

  // ---------------------------------------------------------------- email format

  /** No white space and no '@'. */
  predicate PlainChars(s: string) {
    forall i :: 0 <= i < |s| ==> !IsSpace(s[i]) && s[i] != '@'
  }

  /** `[^\s@]+\.[^\s@]+`: plain characters with a '.' that is neither first nor last. */
  predicate DomainOk(d: string) {
    PlainChars(d) && exists j :: 0 < j < |d| - 1 && d[j] == '.'
  }

  /** `/^[^\s@]+@[^\s@]+\.[^\s@]+$/`: a non-empty local part, one '@', and a domain
      with an inner dot. */
  predicate EmailValid(s: string)
    ensures EmailValid(s) ==> 5 <= |s| && '@' in s && s[0] != '@'
  {
    exists i :: 0 < i < |s| && s[i] == '@' && PlainChars(s[..i]) && DomainOk(s[i + 1..])
  }

  /** A valid email has exactly one '@' and no white space. */
  lemma EmailValidShape(s: string)
    requires EmailValid(s)
    ensures forall a, b :: 0 <= a < |s| && 0 <= b < |s| && s[a] == '@' && s[b] == '@' ==> a == b
    ensures forall k :: 0 <= k < |s| ==> !IsSpace(s[k])
  {
    var i :| 0 < i < |s| && s[i] == '@' && PlainChars(s[..i]) && DomainOk(s[i + 1..]);
    SplitChars(s, i);
  }

  /** Around the '@' at `i`, every character is plain. */
  lemma SplitChars(s: string, i: int)
    requires 0 < i < |s| && s[i] == '@' && PlainChars(s[..i]) && PlainChars(s[i + 1..])
    ensures forall k :: 0 <= k < |s| ==> !IsSpace(s[k]) && (k != i ==> s[k] != '@')
  {
    forall k | 0 <= k < |s| ensures !IsSpace(s[k]) && (k != i ==> s[k] != '@') {
      if k < i {
        assert s[k] == s[..i][k];
      } else if k > i {
        assert s[k] == s[i + 1..][k - i - 1];
      }
    }
  }

  // ---------------------------------------------------------------- profile

  datatype Profile = Profile(name: string, email: string, phone: string, points: int)

  /** `GET` profile: a falsy id is 400, an id naming no customer is 404. */
  function GetProfile(customers: map<int, Customer>, customerId: IdParam): (r: Response<Profile>)
    ensures !IdTruthy(customerId) <==> r == Err(400, "customerId is required")
    ensures IdTruthy(customerId) && !Has(customers, IdOf(customerId)) <==> r == Err(404, "Customer not found")
    ensures IdTruthy(customerId) && Has(customers, IdOf(customerId)) ==> r.Ok?
    ensures r.Ok? ==>
      Has(customers, IdOf(customerId)) &&
      var c := customers[IdOf(customerId).value];
      r.value == Profile(c.name, c.email, c.phone, c.points)
  {
    if !IdTruthy(customerId) then Err(400, "customerId is required")
    else if !Has(customers, IdOf(customerId)) then Err(404, "Customer not found")
    else
      var c := customers[IdOf(customerId).value];
      Ok(200, Profile(c.name, c.email, c.phone, c.points))
  }

  /** Row `k` is another customer than the id sent. A non-numeric id compares unequal
      to every row. */
  predicate Other(k: int, id: Option<int>) {
    id.None? || k != id.value
  }

  /** `SELECT customerId FROM customer WHERE email = ? AND customerId != ?`. */
  predicate EmailHeldByOther(customers: map<int, Customer>, email: string, id: Option<int>) {
    exists k :: k in customers && Other(k, id) && customers[k].email == email
  }

  /** `SELECT customerId FROM customer WHERE phoneNumber = ? AND customerId != ?`. */
  predicate PhoneHeldByOther(customers: map<int, Customer>, phone: string, id: Option<int>) {
    exists k :: k in customers && Other(k, id) && customers[k].phone == phone
  }

  /** The row after `updateProfile`'s statement: name, email and phone replaced, the
      password only when a new one was sent, the points untouched. */
  function Updated(c: Customer, name: string, email: string, phone: string, newPassword: string): (u: Customer)
    ensures u.name == name && u.email == email && u.phone == phone && u.points == c.points
    ensures u.password == (if newPassword == [] then c.password else newPassword)
  {
    c.(name := name, email := email, phone := phone,
       password := if newPassword == [] then c.password else newPassword)
  }

  predicate ProfileFieldsMissing(customerId: IdParam, email: string, name: string, phone: string) {
    !IdTruthy(customerId) || email == [] || name == [] || phone == []
  }

  /** `PUT` profile: all four fields are required (400), then the email format (400),
      then an email (409) or a phone (409) held by a different customer is refused.
      The customer's own email and phone are allowed. */
  method UpdateProfile(db: Db, customerId: IdParam, email: string, name: string, phone: string, newPassword: string)
    returns (r: Response<string>)
    requires db.Valid()
    modifies db`customers
    ensures db.Valid()
    ensures r.Err? ==> unchanged(db)
    ensures ProfileFieldsMissing(customerId, email, name, phone) ==>
      r == Err(400, "customerId, email, customerName, and phoneNumber are required")
    ensures !ProfileFieldsMissing(customerId, email, name, phone) && !EmailValid(email) ==>
      r == Err(400, "Invalid email format")
    ensures !ProfileFieldsMissing(customerId, email, name, phone) && EmailValid(email) &&
            EmailHeldByOther(old(db.customers), email, IdOf(customerId)) ==>
      r == Err(409, "Email already in use by another account")
    ensures !ProfileFieldsMissing(customerId, email, name, phone) && EmailValid(email) &&
            !EmailHeldByOther(old(db.customers), email, IdOf(customerId)) &&
            PhoneHeldByOther(old(db.customers), phone, IdOf(customerId)) ==>
      r == Err(409, "Phone number already in use by another account")
    ensures r.Ok? <==>
      (!ProfileFieldsMissing(customerId, email, name, phone) && EmailValid(email) &&
       !EmailHeldByOther(old(db.customers), email, IdOf(customerId)) &&
       !PhoneHeldByOther(old(db.customers), phone, IdOf(customerId)))
    ensures r.Ok? && Has(old(db.customers), IdOf(customerId)) ==>
      var k := IdOf(customerId).value;
      db.customers == old(db.customers)[k := Updated(old(db.customers)[k], name, email, phone, newPassword)]
    ensures r.Ok? && !Has(old(db.customers), IdOf(customerId)) ==> db.customers == old(db.customers)
    ensures UniqueEmails(old(db.customers)) ==> UniqueEmails(db.customers)
    ensures UniquePhones(old(db.customers)) ==> UniquePhones(db.customers)
  {
    if ProfileFieldsMissing(customerId, email, name, phone) {
      return Err(400, "customerId, email, customerName, and phoneNumber are required");
    }
    if !EmailValid(email) {
      return Err(400, "Invalid email format");
    }
    r := UpdateUnique(db, IdOf(customerId), email, name, phone, newPassword);
  }

  /** The uniqueness checks of `PUT` profile and the update they guard. */
  method UpdateUnique(db: Db, id: Option<int>, email: string, name: string, phone: string, newPassword: string)
    returns (r: Response<string>)
    requires db.Valid()
    modifies db`customers
    ensures db.Valid()
    ensures r.Err? ==> unchanged(db)
    ensures EmailHeldByOther(old(db.customers), email, id) ==> r == Err(409, "Email already in use by another account")
    ensures !EmailHeldByOther(old(db.customers), email, id) && PhoneHeldByOther(old(db.customers), phone, id) ==>
      r == Err(409, "Phone number already in use by another account")
    ensures r.Ok? <==> !EmailHeldByOther(old(db.customers), email, id) && !PhoneHeldByOther(old(db.customers), phone, id)
    ensures r.Ok? && Has(old(db.customers), id) ==>
      db.customers == old(db.customers)[id.value := Updated(old(db.customers)[id.value], name, email, phone, newPassword)]
    ensures r.Ok? && !Has(old(db.customers), id) ==> db.customers == old(db.customers)
    ensures UniqueEmails(old(db.customers)) ==> UniqueEmails(db.customers)
    ensures UniquePhones(old(db.customers)) ==> UniquePhones(db.customers)
  {
    if EmailHeldByOther(db.customers, email, id) {
      return Err(409, "Email already in use by another account");
    }
    if PhoneHeldByOther(db.customers, phone, id) {
      return Err(409, "Phone number already in use by another account");
    }
    if Has(db.customers, id) {
      WriteProfile(db, id.value, name, email, phone, newPassword);
    }
    return Ok(200, "Updated successfully");
  }

  /** `UPDATE customer SET ... WHERE customerId = ?` once no other customer holds the
      email or the phone. */
  method WriteProfile(db: Db, k: int, name: string, email: string, phone: string, newPassword: string)
    requires db.Valid() && k in db.customers
    requires !EmailHeldByOther(db.customers, email, Some(k)) && !PhoneHeldByOther(db.customers, phone, Some(k))
    modifies db`customers
    ensures db.Valid()
    ensures db.customers == old(db.customers)[k := Updated(old(db.customers)[k], name, email, phone, newPassword)]
    ensures UniqueEmails(old(db.customers)) ==> UniqueEmails(db.customers)
    ensures UniquePhones(old(db.customers)) ==> UniquePhones(db.customers)
  {
    db.customers := db.customers[k := Updated(db.customers[k], name, email, phone, newPassword)];
  }

  /** `updateProfile` does not look at names: it can give two customers the same name. */
  lemma UpdateProfileMayDuplicateNames()
    ensures var before := map[1 := Customer("ann", "a@x.io", "0111", "pw", 0),
                               2 := Customer("bob", "b@x.io", "0222", "pw", 0)];
            var after := before[2 := Updated(before[2], "ann", "b@x.io", "0222", "")];
            UniqueNames(before) && !EmailHeldByOther(before, "b@x.io", Some(2)) &&
            !PhoneHeldByOther(before, "0222", Some(2)) && !UniqueNames(after)
  {
    var before := map[1 := Customer("ann", "a@x.io", "0111", "pw", 0),
                      2 := Customer("bob", "b@x.io", "0222", "pw", 0)];
    var after := before[2 := Updated(before[2], "ann", "b@x.io", "0222", "")];
    assert before.Keys == {1, 2};
    assert before[1].email != "b@x.io" && before[1].phone != "0222";
    assert after[1].name == after[2].name;
  }

  // ---------------------------------------------------------------- admin edits

  /** `PUT` customer (admin): all three fields are required (400), then a phone held by
      a different customer is refused (409); only name and phone change. */
  method UpdateCustomer(db: Db, customerId: IdParam, name: string, phone: string) returns (r: Response<string>)
    requires db.Valid()
    modifies db`customers
    ensures db.Valid()
    ensures r.Err? ==> unchanged(db)
    ensures (!IdTruthy(customerId) || name == [] || phone == []) <==> r == Err(400, "Missing fields")
    ensures IdTruthy(customerId) && name != [] && phone != [] ==>
      (PhoneHeldByOther(old(db.customers), phone, IdOf(customerId)) <==> r == Err(409, "Phone number already in use"))
    ensures var free := !PhoneHeldByOther(old(db.customers), phone, IdOf(customerId));
      IdTruthy(customerId) && name != [] && phone != [] && free ==> r.Ok?
    ensures r.Ok? && Has(old(db.customers), IdOf(customerId)) ==>
      var k := IdOf(customerId).value;
      db.customers == old(db.customers)[k := old(db.customers)[k].(name := name, phone := phone)]
    ensures r.Ok? && !Has(old(db.customers), IdOf(customerId)) ==> db.customers == old(db.customers)
    ensures UniquePhones(old(db.customers)) ==> UniquePhones(db.customers)
  {
    if !IdTruthy(customerId) || name == [] || phone == [] {
      return Err(400, "Missing fields");
    }
    var id := IdOf(customerId);
    if PhoneHeldByOther(db.customers, phone, id) {
      return Err(409, "Phone number already in use");
    }
    if Has(db.customers, id) {
      WriteNameAndPhone(db, id.value, name, phone);
    }
    return Ok(200, "Customer updated successfully");
  }

  /** `UPDATE customer SET customerName = ?, phoneNumber = ? WHERE customerId = ?` once
      no other customer holds the phone. */
  method WriteNameAndPhone(db: Db, k: int, name: string, phone: string)
    requires db.Valid() && k in db.customers && !PhoneHeldByOther(db.customers, phone, Some(k))
    modifies db`customers
    ensures db.Valid()
    ensures db.customers == old(db.customers)[k := old(db.customers)[k].(name := name, phone := phone)]
    ensures UniquePhones(old(db.customers)) ==> UniquePhones(db.customers)
  {
    db.customers := db.customers[k := db.customers[k].(name := name, phone := phone)];
  }

  /** `DELETE` customer: 404 when no row was removed. */
  method DeleteCustomer(db: Db, customerId: IdParam) returns (r: Response<string>)
    requires db.Valid()
    modifies db`customers
    ensures db.Valid()
    ensures !Has(old(db.customers), IdOf(customerId)) <==> r == Err(404, "Customer not found")
    ensures Has(old(db.customers), IdOf(customerId)) ==> r.Ok?
    ensures r.Err? ==> unchanged(db)
    ensures r.Ok? ==> db.customers == old(db.customers) - {IdOf(customerId).value}
  {
    var id := IdOf(customerId);
    if !Has(db.customers, id) {
      return Err(404, "Customer not found");
    }
    db.customers := db.customers - {id.value};
    return Ok(200, "Customer deleted successfully");
  }

  // ---------------------------------------------------------------- top customers

  datatype TopCustomer = TopCustomer(name: string, phone: string, points: int)

  function Points(t: TopCustomer): int { t.points }

  function TopRow(c: Customer): TopCustomer {
    TopCustomer(c.name, c.phone, c.points)
  }

  /** Every customer's row exactly once, most points first. */
  function RankedRows(customers: map<int, Customer>, next: int): (s: seq<TopCustomer>)
    requires KeysBelow(customers, next)
    ensures SortedDesc(s, Points)
    ensures |s| == |customers|
    ensures forall t :: t in s ==> exists k :: k in customers && t == TopRow(customers[k])
    ensures forall k :: k in customers ==> TopRow(customers[k]) in s
  {
    var ids := Select(customers, (c: Customer) => true, 1, next);
    var rows := seq(|ids|, i requires 0 <= i < |ids| => TopRow(customers[ids[i]]));
    RowsOfAll(customers, next, ids, rows, SortDesc(rows, Points));
    KeysCount(ids, customers);
    SortDesc(rows, Points)
  }

  /** `ORDER BY points DESC LIMIT 3`: at most three customers, most points first, and
      no customer left out has more points than any listed one. */
  function GetTopCustomers(customers: map<int, Customer>, next: int): (r: seq<TopCustomer>)
    requires KeysBelow(customers, next)
    ensures |r| == if |customers| < 3 then |customers| else 3
    ensures r == RankedRows(customers, next)[..|r|]
    ensures SortedDesc(r, Points)
    ensures forall t :: t in r ==> exists k :: k in customers && t == TopRow(customers[k])
    ensures forall k :: k in customers && TopRow(customers[k]) !in r ==>
      |r| == 3 && forall i :: 0 <= i < |r| ==> r[i].points >= customers[k].points
  {
    var s := RankedRows(customers, next);
    var n := if |s| < 3 then |s| else 3;
    TopCut(customers, s, n);
    s[..n]
  }

  lemma RowsOfAll(customers: map<int, Customer>, next: int, ids: seq<int>, rows: seq<TopCustomer>, s: seq<TopCustomer>)
    requires KeysBelow(customers, next)
    requires ids == Select(customers, (c: Customer) => true, 1, next)
    requires rows == seq(|ids|, i requires 0 <= i < |ids| => TopRow(customers[ids[i]]))
    requires s == SortDesc(rows, Points)
    ensures forall t :: t in s ==> exists k :: k in customers && t == TopRow(customers[k])
    ensures forall k :: k in customers ==> TopRow(customers[k]) in s
  {
    SortDescMembers(rows, Points);
    forall t | t in s ensures exists k :: k in customers && t == TopRow(customers[k]) {
      var i :| 0 <= i < |rows| && rows[i] == t;
      assert ids[i] in ids;
    }
    forall k | k in customers ensures TopRow(customers[k]) in s {
      assert k in ids;
      var i :| 0 <= i < |ids| && ids[i] == k;
      assert rows[i] == TopRow(customers[k]);
    }
  }

  lemma TopCut(customers: map<int, Customer>, s: seq<TopCustomer>, n: int)
    requires 0 <= n <= |s| && SortedDesc(s, Points)
    requires forall k :: k in customers ==> TopRow(customers[k]) in s
    ensures SortedDesc(s[..n], Points)
    ensures forall t :: t in s[..n] ==> t in s
    ensures forall k :: k in customers && TopRow(customers[k]) !in s[..n] ==>
      n < |s| && forall i :: 0 <= i < n ==> s[i].points >= customers[k].points
  {
    assert s[..|s|] == s;
    forall k | k in customers && TopRow(customers[k]) !in s[..n]
      ensures n < |s| && forall i :: 0 <= i < n ==> s[i].points >= customers[k].points
    {
      var j :| 0 <= j < |s| && s[j] == TopRow(customers[k]);
      assert forall i :: 0 <= i < n ==> Points(s[i]) >= Points(s[j]);
    }
    forall t | t in s[..n] ensures t in s {
      var i :| 0 <= i < n && s[..n][i] == t;
      assert s[i] == t;
    }
  }
}
