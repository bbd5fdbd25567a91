/** The admin's feedback page: the rating, date and keyword filters, reset, the rating
    column's sort key and the export (frontend/src/pages/Admin/AdminFeedback.js). The
    rows are the ones the feedback list query joins. */
module AdminFeedback {
  import opened Js
  import FeedbackController

  type Row = FeedbackController.FeedbackRow

  /** The rating select's value: `null` before any pick and after a reset (Unset), the
      `undefined` its clear button stores (ClearedPick), or the minimum picked. */
  datatype RatingPick = Unset | ClearedPick | AtLeast(min: real)

  /** The filter inputs: the rating select, the start of the first picked day and the end
      of the last one (None when no range is picked), and the keyword box. */
  datatype Filters = Filters(rating: RatingPick, range: Option<(int, int)>, keyword: string)

  const Cleared := Filters(Unset, None, "")

  /** `ratingFilter !== null` guards `f.rating && parseFloat(f.rating) >= ratingFilter`:
      with no pick every row passes; a missing or zero rating never passes a pick; and
      after the clear button nothing passes, since a comparison with `undefined` is
      false. */
  predicate RatingOk(f: Filters, x: Row) {
    match f.rating
    case Unset => true
    case ClearedPick => false
    case AtLeast(m) => x.rating.Some? && x.rating.value != 0.0 && x.rating.value >= m
  }

  /** Both bounds of the day range are strict. */
  predicate DateOk(f: Filters, x: Row) {
    f.range.None? || (f.range.value.0 < x.createdAt < f.range.value.1)
  }

  /** A keyword of only white space is ignored; any other keyword is matched lower-cased
      but not trimmed, so its surrounding spaces must occur in the feedback too. */
  predicate KeywordOk(f: Filters, x: Row) {
    AllSpace(f.keyword) || (|x.text| > 0 && Includes(ToLower(x.text), ToLower(f.keyword)))
  }

  predicate Shown(f: Filters, x: Row) {
    RatingOk(f, x) && DateOk(f, x) && KeywordOk(f, x)
  }

  /** The rows passing every set filter, in list order. */
  function Select(rows: seq<Row>, f: Filters): (r: seq<Row>)
    ensures |r| <= |rows|
    ensures forall x :: x in r <==> x in rows && Shown(f, x)
  {
    if rows == [] then []
    else (if Shown(f, rows[0]) then [rows[0]] else []) + Select(rows[1..], f)
  }

  /** A pass that adds one filter to those already applied gives the selection under all
      of them. */
  lemma {:induction false} SelectNarrowed(rows: seq<Row>, f: Filters, g: Filters, h: Filters)
    requires forall x :: Shown(h, x) <==> Shown(f, x) && Shown(g, x)
    ensures Select(Select(rows, f), g) == Select(rows, h)
  {
    if rows != [] {
      SelectNarrowed(rows[1..], f, g, h);
      var x := rows[0];
      var t := Select(rows[1..], f);
      if Shown(f, x) {
        var u := [x] + t;
        assert Select(rows, f) == u;
        assert u[0] == x && u[1..] == t;
        assert Select(u, g) == (if Shown(g, x) then [x] else []) + Select(t, g);
      } else {
        assert Select(rows, f) == t;
      }
    }
  }

  /** With every input cleared nothing is filtered out. */
  lemma {:induction false} SelectAll(rows: seq<Row>)
    ensures Select(rows, Cleared) == rows
  {
    if rows != [] {
      SelectAll(rows[1..]);
      assert rows == [rows[0]] + rows[1..];
    }
  }

  lemma RatingStep(rows: seq<Row>, m: RatingPick)
    ensures Select(Select(rows, Cleared), Filters(m, None, "")) == Select(rows, Filters(m, None, ""))
  {
    SelectNarrowed(rows, Cleared, Filters(m, None, ""), Filters(m, None, ""));
  }

  lemma DateStep(rows: seq<Row>, m: RatingPick, range: (int, int))
    ensures Select(Select(rows, Filters(m, None, "")), Filters(Unset, Some(range), "")) ==
            Select(rows, Filters(m, Some(range), ""))
  {
    SelectNarrowed(rows, Filters(m, None, ""), Filters(Unset, Some(range), ""), Filters(m, Some(range), ""));
  }

  lemma KeywordStep(rows: seq<Row>, f: Filters)
    ensures Select(Select(rows, Filters(f.rating, f.range, "")), Filters(Unset, None, f.keyword)) ==
            Select(rows, f)
  {
    SelectNarrowed(rows, Filters(f.rating, f.range, ""), Filters(Unset, None, f.keyword), f);
  }

  /** `handleApplyFilters`: narrows a copy of the loaded list by rating, then date range,
      then keyword. The result is the one-pass selection under all three filters. */
  method ApplyFilters(all: seq<Row>, f: Filters) returns (shown: seq<Row>)
    ensures shown == Select(all, f)
    ensures forall x :: x in shown <==> x in all && Shown(f, x)
  {
    shown := all;
    SelectAll(all);
    if f.rating != Unset {
      RatingStep(all, f.rating);
      shown := Select(shown, Filters(f.rating, None, ""));
    }
    assert shown == Select(all, Filters(f.rating, None, ""));
    if f.range.Some? {
      DateStep(all, f.rating, f.range.value);
      shown := Select(shown, Filters(Unset, f.range, ""));
    }
    assert shown == Select(all, Filters(f.rating, f.range, ""));
    BlankTrim(f.keyword);
    if |Trim(f.keyword)| > 0 {
      KeywordStep(all, f);
      shown := Select(shown, Filters(Unset, None, f.keyword));
    } else {
      BlankKeyword(all, f);
    }
  }

  lemma BlankKeyword(rows: seq<Row>, f: Filters)
    requires AllSpace(f.keyword)
    ensures Select(rows, Filters(f.rating, f.range, "")) == Select(rows, f)
  {
    SelectSame(rows, Filters(f.rating, f.range, ""), f);
  }

  /** Filters that show the same rows select the same list. */
  lemma {:induction false} SelectSame(rows: seq<Row>, f: Filters, g: Filters)
    requires forall x :: Shown(f, x) <==> Shown(g, x)
    ensures Select(rows, f) == Select(rows, g)
  {
    if rows != [] {
      SelectSame(rows[1..], f, g);
    }
  }

  /** A keyword typed with a trailing space does not find feedback that ends with the
      word. */
  lemma TrailingSpaceMisses(x: Row)
    requires x.text == "good"
    ensures !KeywordOk(Filters(Unset, None, "good "), x)
  {
    assert !IsSpace("good "[0]);
    var t := ToLower(x.text);
    var k := ToLower("good ");
    assert |t| == 4 && |k| == 5;
    NoLongerInclude(t, k);
  }

  /** A longer text never occurs in a shorter one. */
  lemma {:induction false} NoLongerInclude(s: string, sub: string)
    requires |sub| > |s|
    ensures !Includes(s, sub)
  {
    if |s| > 0 {
      NoLongerInclude(s[1..], sub);
    }
  }

  /** Once the rating select's clear button is pressed, applying the filters shows no
      feedback at all, whatever the other inputs, until a reset sets the select back to
      `null` and shows everything again. */
  lemma {:induction false} ClearedPickShowsNothing(all: seq<Row>, f: Filters)
    requires f.rating == ClearedPick
    ensures Select(all, f) == []
    ensures Select(all, Reset(all).0) == all
  {
    if all != [] {
      ClearedPickShowsNothing(all[1..], f);
    }
  }

  /** `handleResetFilters`: inputs cleared and the whole loaded list shown, which is what
      applying the cleared inputs shows. */
  function Reset(all: seq<Row>): (r: (Filters, seq<Row>))
    ensures r.0 == Cleared && r.1 == Select(all, Cleared)
  {
    SelectAll(all);
    (Cleared, all)
  }

  /** The rating column's sort key: a missing rating counts as -1. */
  function RatingKey(x: Row): (k: real)
    ensures x.rating.None? ==> k == -1.0
    ensures x.rating.Some? ==> k == x.rating.value
  {
    if x.rating.None? then -1.0 else x.rating.value
  }

  /** Sorting by rating puts rows without a rating below every row rated above -1. */
  lemma UnratedSortFirst(x: Row, y: Row)
    requires x.rating.None? && y.rating.Some? && y.rating.value > -1.0
    ensures RatingKey(x) < RatingKey(y)
  {
  }

  /** One line of the exported sheet; `rating` None is written as "No Rating". */
  datatype ExportRow = ExportRow(submitter: string, phone: string, text: string, rating: Option<real>, createdAt: int)

  /** `f.customerName || 'Guest'`. */
  function Submitter(x: Row): (s: string)
    ensures x.customerName.Some? && |x.customerName.value| > 0 ==> s == x.customerName.value
    ensures (x.customerName.None? || |x.customerName.value| == 0) ==> s == "Guest"
  {
    if x.customerName.Some? && |x.customerName.value| > 0 then x.customerName.value else "Guest"
  }

  /** `handleExportExcel`: nothing but a warning (None) for an empty list; otherwise one
      line per shown row, in the shown order. */
  function Export(shown: seq<Row>): (e: Option<seq<ExportRow>>)
    ensures e.None? <==> shown == []
    ensures e.Some? ==> |e.value| == |shown|
    ensures e.Some? ==> forall i :: 0 <= i < |shown| ==>
      e.value[i].submitter == Submitter(shown[i]) && e.value[i].phone == shown[i].phone &&
      e.value[i].text == shown[i].text && e.value[i].createdAt == shown[i].createdAt &&
      (e.value[i].rating.Some? <==> shown[i].rating.Some? && shown[i].rating.value != 0.0)
  {
    if shown == [] then None
    else Some(seq(|shown|, i requires 0 <= i < |shown| =>
      ExportRow(Submitter(shown[i]), shown[i].phone, shown[i].text,
                if shown[i].rating.Some? && shown[i].rating.value != 0.0 then shown[i].rating else None,
                shown[i].createdAt)))
  }

  /** A guest's feedback (no customer) is exported under "Guest". */
  lemma GuestExportedAsGuest(shown: seq<Row>, i: int)
    requires 0 <= i < |shown| && shown[i].customerId.None?
    requires shown[i].customerName.Some? ==> shown[i].customerId.Some?
    ensures Export(shown).Some? && Export(shown).value[i].submitter == "Guest"
  {
  }
}
