/** Customer feedback: submission and the admin's list
    (backend/controller/feedbackController.js). */
module FeedbackController {
  import opened Js
  import opened Tables

  /** `rating !== undefined ? parseFloat(rating) : null`: None is SQL NULL; a rating
      that parses to NaN is Some(None), which the INSERT cannot store. */
  function RatingOf(rating: JsVal): (r: Option<Option<real>>)
    ensures rating.Undef? ==> r == Some(None)
    ensures rating.Num? ==> r == Some(Some(rating.x))
    ensures !rating.Undef? ==> (r.None? <==> ParseFloatOf(rating).None?)
    ensures !rating.Undef? && r.Some? ==> r.value == ParseFloatOf(rating)
  {
    if rating.Undef? then Some(None)
    else match ParseFloatOf(rating)
      case None => None
      case Some(x) => Some(Some(x))
  }

  /** `SELECT customerId FROM customer WHERE phoneNumber = ?`, first row. */
  function OwnerOf(db: Db, phone: string): (c: Option<int>)
    reads db
    requires db.Valid()
    ensures c.None? <==> forall k :: k in db.customers ==> db.customers[k].phone != phone
    ensures c.Some? ==> c.value in db.customers && db.customers[c.value].phone == phone
  {
    First(db.customers, (x: Customer) => x.phone == phone, db.nextCustomer)
  }

  /** `POST` feedback: a missing phone number is 401, checked before a missing text (400).
      The feedback is linked to the customer holding that phone number, or to nobody,
      and is stored either way, stamped with the insertion time `now`. A rating that is
      not a number makes the INSERT fail (500) and nothing is stored. */
  method SubmitFeedback(db: Db, phone: string, text: string, rating: JsVal, now: int)
    returns (r: Response<string>)
    requires db.Valid()
    modifies db`feedbacks, db`nextFeedback
    ensures db.Valid()
    ensures r.Err? ==> unchanged(db)
    ensures phone == [] ==> r == Err(401, "User not logged in")
    ensures phone != [] && text == [] ==> r == Err(400, "Feedback is required")
    ensures phone != [] && text != [] && RatingOf(rating).None? ==> r == Err(500, "Failed to submit feedback")
    ensures r.Ok? <==> phone != [] && text != [] && RatingOf(rating).Some?
    ensures r.Ok? ==>
      r == Ok(201, "Feedback submitted successfully") &&
      old(db.nextFeedback) !in old(db.feedbacks) &&
      db.feedbacks == old(db.feedbacks)[old(db.nextFeedback) :=
        Feedback(phone, text, RatingOf(rating).value, old(OwnerOf(db, phone)), now)] &&
      db.nextFeedback == old(db.nextFeedback) + 1
  {
    if phone == [] {
      return Err(401, "User not logged in");
    }
    if text == [] {
      return Err(400, "Feedback is required");
    }
    var customerId := OwnerOf(db, phone);
    var stored := RatingOf(rating);
    if stored.None? {
      return Err(500, "Failed to submit feedback");
    }
    db.feedbacks := db.feedbacks[db.nextFeedback := Feedback(phone, text, stored.value, customerId, now)];
    db.nextFeedback := db.nextFeedback + 1;
    assert KeysBelow(db.feedbacks, db.nextFeedback);
    r := Ok(201, "Feedback submitted successfully");
  }

  /** A row of `feedbacks LEFT JOIN customer`: the customer's name is NULL when the
      feedback has no customer or the customer no longer exists. */
  datatype FeedbackRow = FeedbackRow(
    feedbackId: int, phone: string, text: string, rating: Option<real>, createdAt: int,
    customerId: Option<int>, customerName: Option<string>)

  function CreatedAt(f: FeedbackRow): int { f.createdAt }

  function JoinRow(k: int, f: Feedback, customers: map<int, Customer>): (row: FeedbackRow)
    ensures row.feedbackId == k && row.createdAt == f.createdAt && row.customerId == f.customerId
    ensures row.customerName.Some? <==> Has(customers, f.customerId)
    ensures row.customerName.Some? ==> row.customerName.value == customers[f.customerId.value].name
  {
    FeedbackRow(k, f.phone, f.text, f.rating, f.createdAt, f.customerId,
      if Has(customers, f.customerId) then Some(customers[f.customerId.value].name) else None)
  }

  /** `GET` feedback: every feedback exactly once with its customer's name, newest first. */
  function GetAllFeedbacks(feedbacks: map<int, Feedback>, next: int, customers: map<int, Customer>)
    : (r: seq<FeedbackRow>)
    requires KeysBelow(feedbacks, next)
    ensures SortedDesc(r, CreatedAt)
    ensures |r| == |feedbacks|
    ensures forall row :: row in r ==>
      row.feedbackId in feedbacks && row == JoinRow(row.feedbackId, feedbacks[row.feedbackId], customers)
    ensures forall k :: k in feedbacks ==> JoinRow(k, feedbacks[k], customers) in r
  {
    var ids := Select(feedbacks, (f: Feedback) => true, 1, next);
    var rows := seq(|ids|, i requires 0 <= i < |ids| => JoinRow(ids[i], feedbacks[ids[i]], customers));
    JoinedRows(feedbacks, next, customers, ids, rows);
    SortDescMembers(rows, CreatedAt);
    SortDesc(rows, CreatedAt)
  }

  lemma JoinedRows(feedbacks: map<int, Feedback>, next: int, customers: map<int, Customer>,
                   ids: seq<int>, rows: seq<FeedbackRow>)
    requires KeysBelow(feedbacks, next)
    requires ids == Select(feedbacks, (f: Feedback) => true, 1, next)
    requires rows == seq(|ids|, i requires 0 <= i < |ids| => JoinRow(ids[i], feedbacks[ids[i]], customers))
    ensures |rows| == |feedbacks|
    ensures forall row :: row in rows ==>
      row.feedbackId in feedbacks && row == JoinRow(row.feedbackId, feedbacks[row.feedbackId], customers)
    ensures forall k :: k in feedbacks ==> JoinRow(k, feedbacks[k], customers) in rows
  {
    assert forall k :: k in ids <==> k in feedbacks;
    JoinedRowsOf(feedbacks, customers, ids, rows);
    KeysCount(ids, feedbacks);
  }

  /** The rows joined from a list of exactly the feedback keys are the joined rows of
      every feedback. */
  lemma JoinedRowsOf(feedbacks: map<int, Feedback>, customers: map<int, Customer>,
                     ids: seq<int>, rows: seq<FeedbackRow>)
    requires forall k :: k in ids <==> k in feedbacks
    requires |rows| == |ids|
    requires forall i :: 0 <= i < |ids| ==> rows[i] == JoinRow(ids[i], feedbacks[ids[i]], customers)
    ensures forall row :: row in rows ==>
      row.feedbackId in feedbacks && row == JoinRow(row.feedbackId, feedbacks[row.feedbackId], customers)
    ensures forall k :: k in feedbacks ==> JoinRow(k, feedbacks[k], customers) in rows
  {
    forall row | row in rows
      ensures row.feedbackId in feedbacks && row == JoinRow(row.feedbackId, feedbacks[row.feedbackId], customers)
    {
      var i :| 0 <= i < |rows| && rows[i] == row;
      assert ids[i] in ids;
    }
    forall k | k in feedbacks ensures JoinRow(k, feedbacks[k], customers) in rows {
      var i :| 0 <= i < |ids| && ids[i] == k;
      assert rows[i] == JoinRow(k, feedbacks[k], customers);
    }
  }
}
