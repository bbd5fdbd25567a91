/** Customer self-registration (backend/controller/customerRegister.js). */
module CustomerRegister {
  import opened Js
  import opened Tables

  /** `/^[0-9-]{7,12}$/`: 7 to 12 characters, each a digit or a dash. */
  predicate PhoneFormatOk(phone: string)
    ensures AllDigits(phone) ==> (PhoneFormatOk(phone) <==> 7 <= |phone| <= 12)
    ensures PhoneFormatOk(phone) ==> |DigitsOf(phone)| <= 12
  {
    7 <= |phone| <= 12 && forall i :: 0 <= i < |phone| ==> IsDigit(phone[i]) || phone[i] == '-'
  }

  predicate NameTaken(customers: map<int, Customer>, name: string) {
    exists k :: k in customers && customers[k].name == name
  }

  predicate EmailTaken(customers: map<int, Customer>, email: string) {
    exists k :: k in customers && customers[k].email == email
  }

  predicate PhoneTaken(customers: map<int, Customer>, phone: string) {
    exists k :: k in customers && customers[k].phone == phone
  }

  /** `POST` register: the phone format is checked before any lookup; then a taken name,
      a taken email and a taken phone are refused, in that order. Success inserts one
      customer with 0 points and answers its new id. */
  method Register(db: Db, name: string, email: string, phone: string, password: string)
    returns (r: Response<int>)
    requires db.Valid()
    modifies db`customers, db`nextCustomer
    ensures db.Valid()
    ensures r.Err? ==> db.customers == old(db.customers) && db.nextCustomer == old(db.nextCustomer)
    ensures !PhoneFormatOk(phone) ==>
      r == Err(400, "Invalid phone number format. Use numbers and dashes only (max 12 characters).")
    ensures PhoneFormatOk(phone) && NameTaken(old(db.customers), name) ==>
      r == Err(400, "Customer name is already registered.")
    ensures PhoneFormatOk(phone) && !NameTaken(old(db.customers), name) && EmailTaken(old(db.customers), email) ==>
      r == Err(400, "Email is already registered.")
    ensures PhoneFormatOk(phone) && !NameTaken(old(db.customers), name) && !EmailTaken(old(db.customers), email) &&
            PhoneTaken(old(db.customers), phone) ==>
      r == Err(400, "Phone number is already in use.")
    ensures r.Ok? <==> PhoneFormatOk(phone) && !NameTaken(old(db.customers), name) &&
                       !EmailTaken(old(db.customers), email) && !PhoneTaken(old(db.customers), phone)
    ensures r.Ok? ==>
      r.value == old(db.nextCustomer) && r.value !in old(db.customers) &&
      db.customers == old(db.customers)[r.value := Customer(name, email, phone, password, 0)] &&
      db.nextCustomer == old(db.nextCustomer) + 1
    ensures UniqueCustomers(old(db.customers)) ==> UniqueCustomers(db.customers)
    ensures PointsNonNegative(old(db.customers)) ==> PointsNonNegative(db.customers)
  {
    if !PhoneFormatOk(phone) {
      return Err(400, "Invalid phone number format. Use numbers and dashes only (max 12 characters).");
    }
    if NameTaken(db.customers, name) {
      return Err(400, "Customer name is already registered.");
    }
    if EmailTaken(db.customers, email) {
      return Err(400, "Email is already registered.");
    }
    if PhoneTaken(db.customers, phone) {
      return Err(400, "Phone number is already in use.");
    }
    var id := InsertCustomer(db, Customer(name, email, phone, password, 0));
    return Ok(201, id);
  }

  /** The insert of a customer whose name, email and phone no stored customer holds. */
  method InsertCustomer(db: Db, c: Customer) returns (id: int)
    requires db.Valid()
    requires !NameTaken(db.customers, c.name) && !EmailTaken(db.customers, c.email) &&
             !PhoneTaken(db.customers, c.phone)
    modifies db`customers, db`nextCustomer
    ensures db.Valid()
    ensures id == old(db.nextCustomer) && id !in old(db.customers)
    ensures db.customers == old(db.customers)[id := c] && db.nextCustomer == old(db.nextCustomer) + 1
    ensures UniqueCustomers(old(db.customers)) ==> UniqueCustomers(db.customers)
    ensures PointsNonNegative(old(db.customers)) && c.points >= 0 ==> PointsNonNegative(db.customers)
  {
    id := db.nextCustomer;
    db.customers := db.customers[id := c];
    db.nextCustomer := db.nextCustomer + 1;
  }
}
