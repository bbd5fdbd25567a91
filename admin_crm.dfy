/** The admin's customer list: phone normalising and formatting, the search filter, the
    phone validator, the edit form's save rules and the active-customer change percent
    (frontend/src/pages/Admin/AdminCRM.js). */
module AdminCrm {
  import opened Js
  import CustomerRegister

  // ---------------------------------------------------------------- phone text

  /** `normalizePhone`: every non-digit removed. */
  function NormalizePhone(s: string): (d: string)
    ensures AllDigits(d) && |d| <= |s|
    ensures AllDigits(s) ==> d == s
    ensures NoDigits(s) ==> d == []
    ensures DigitsOf(d) == d
  {
    DigitsOf(s)
  }

  /** `digits.slice(0, n)`. */
  function Take(d: string, n: nat): (r: string)
    ensures |r| == Min(n, |d|) && r == d[..|r|]
  {
    if |d| <= n then d else d[..n]
  }

  /** The dash after the third digit once there are more than three. */
  function Layout(d: string): (r: string)
    requires AllDigits(d)
    ensures DigitsOf(r) == d
    ensures |d| <= 3 ==> r == d
    ensures |d| > 3 ==> |r| == |d| + 1 && r[3] == '-'
  {
    if |d| <= 3 then d
    else
      DigitsOfAppend(d[..3] + "-", d[3..]);
      DigitsOfAppend(d[..3], "-");
      assert DigitsOf("-") == [];
      assert AllDigits(d[..3]) && AllDigits(d[3..]);
      assert d[..3] + d[3..] == d;
      d[..3] + "-" + d[3..]
  }

  /** `formatPhone`: at most 11 digits, with a dash after the third. Normalising the
      result gives back the first 11 digits of the input. */
  function FormatPhone(s: string): (r: string)
    ensures NormalizePhone(r) == Take(NormalizePhone(s), 11)
    ensures |NormalizePhone(r)| <= 11 && |r| <= 12
    ensures |NormalizePhone(s)| > 3 ==> r[3] == '-'
  {
    Layout(Take(DigitsOf(s), 11))
  }

  /** Formatting an already formatted number changes nothing. */
  lemma FormatPhoneIdempotent(s: string)
    ensures FormatPhone(FormatPhone(s)) == FormatPhone(s)
  {
    var d := Take(DigitsOf(s), 11);
    assert Take(DigitsOf(FormatPhone(s)), 11) == d;
  }

  /** A number typed into the phone input never keeps a twelfth digit. */
  lemma FormattedInputAtMostEleven(typed: string)
    ensures |NormalizePhone(FormatPhone(typed))| <= 11
    ensures |NormalizePhone(typed)| <= 11 ==> NormalizePhone(FormatPhone(typed)) == NormalizePhone(typed)
  {
  }

  /** `/^01\d{8,10}$/` on the digits: "01" followed by 8 to 10 more digits. */
  predicate MobileDigits(d: string)
    ensures MobileDigits(d) ==> NormalizePhone(d) == d && 10 <= |d| && d[..2] == "01"
  {
    10 <= |d| <= 12 && d[0] == '0' && d[1] == '1' && AllDigits(d)
  }

  /** The phone field's validator: an error message, or None when the value is accepted. */
  function PhoneError(value: string): (e: Option<string>)
    ensures e.None? <==> MobileDigits(NormalizePhone(value))
    ensures NormalizePhone(value) == [] ==> e == Some("Phone number is required.")
    ensures NormalizePhone(value) != [] && !MobileDigits(NormalizePhone(value)) ==>
      e == Some("Use a valid phone number")
  {
    var d := NormalizePhone(value);
    if d == [] then Some("Phone number is required.")
    else if !MobileDigits(d) then Some("Use a valid phone number")
    else None
  }

  /** The name field's rules, `required` with `whitespace: true` and then `min: 2`: the
      first message the field shows, or None when the name is accepted. The length is
      that of the text as typed, before the save trims it. */
  function NameError(value: string): (e: Option<string>)
    ensures e.None? <==> !AllSpace(value) && |value| >= 2
    ensures AllSpace(value) ==> e == Some("Name is required.")
    ensures !AllSpace(value) && |value| < 2 ==> e == Some("Name should be at least 2 characters.")
  {
    if AllSpace(value) then Some("Name is required.")
    else if |value| < 2 then Some("Name should be at least 2 characters.")
    else None
  }

  // ---------------------------------------------------------------- search

  datatype CrmCustomer = CrmCustomer(customerId: int, name: string, phone: string)

  /** The name box matches case-insensitively; the phone box matches on digits only. */
  predicate Matches(c: CrmCustomer, searchName: string, searchPhone: string)
    ensures searchName == [] && searchPhone == [] ==> Matches(c, searchName, searchPhone)
    ensures NoDigits(searchPhone) ==>
      (Matches(c, searchName, searchPhone) <==> searchName == [] || IncludesIgnoreCase(c.name, searchName))
  {
    (searchName == [] || IncludesIgnoreCase(c.name, searchName)) &&
    (searchPhone == [] || Includes(NormalizePhone(c.phone), NormalizePhone(searchPhone)))
  }

  /** `handleFilter`: the customers matching both boxes, in list order. */
  function HandleFilter(cs: seq<CrmCustomer>, searchName: string, searchPhone: string): (r: seq<CrmCustomer>)
    ensures |r| <= |cs|
    ensures forall c :: c in r <==> c in cs && Matches(c, searchName, searchPhone)
  {
    if cs == [] then []
    else (if Matches(cs[0], searchName, searchPhone) then [cs[0]] else []) +
         HandleFilter(cs[1..], searchName, searchPhone)
  }

  /** Filtering distributes over concatenation, so the matches keep the list's order. */
  lemma {:induction false} HandleFilterAppend(a: seq<CrmCustomer>, b: seq<CrmCustomer>, searchName: string, searchPhone: string)
    ensures HandleFilter(a + b, searchName, searchPhone) ==
            HandleFilter(a, searchName, searchPhone) + HandleFilter(b, searchName, searchPhone)
  {
    if a == [] {
      assert a + b == b;
    } else {
      var ab := a + b;
      assert ab[0] == a[0] && ab[1..] == a[1..] + b;
      HandleFilterAppend(a[1..], b, searchName, searchPhone);
      var h := if Matches(a[0], searchName, searchPhone) then [a[0]] else [];
      var x, y := HandleFilter(a[1..], searchName, searchPhone), HandleFilter(b, searchName, searchPhone);
      assert h + (x + y) == (h + x) + y;
    }
  }

  /** Searching by a formatted number finds what searching by the raw number finds, as
      long as it has at most 11 digits; and a phone search without any digit filters
      nothing out. */
  lemma {:induction false} PhoneSearchOnDigits(cs: seq<CrmCustomer>, searchName: string, searchPhone: string)
    ensures |NormalizePhone(searchPhone)| <= 11 ==>
      HandleFilter(cs, searchName, FormatPhone(searchPhone)) == HandleFilter(cs, searchName, searchPhone)
    ensures NormalizePhone(searchPhone) == [] ==> HandleFilter(cs, searchName, searchPhone) == HandleFilter(cs, searchName, "")
  {
    if cs != [] {
      PhoneSearchOnDigits(cs[1..], searchName, searchPhone);
      var c := cs[0];
      if NormalizePhone(searchPhone) == [] {
        assert [] <= NormalizePhone(c.phone);
        assert Includes(NormalizePhone(c.phone), []);
        assert NormalizePhone(FormatPhone(searchPhone)) == [];
      } else if |NormalizePhone(searchPhone)| <= 11 {
        assert FormatPhone(searchPhone) != [];
      }
    }
  }

  // ---------------------------------------------------------------- editing

  /** The edit form's two fields. */
  datatype EditForm = EditForm(name: string, phone: string)

  /** The update the Save button sends: trimmed name, digits-only phone. */
  datatype SaveRequest = SaveRequest(customerId: int, name: string, phone: string)

  /** `handleEdit`: the form opens on the stored name and the formatted stored phone. */
  function OpenEdit(c: CrmCustomer): (f: EditForm)
    ensures f.name == c.name && NormalizePhone(f.phone) == Take(NormalizePhone(c.phone), 11)
  {
    EditForm(c.name, FormatPhone(c.phone))
  }

  /** `handleSaveEdit`: None ("No changes to save.") when the trimmed name equals the
      stored name and the phone digits equal the stored digits; otherwise the request. */
  function SaveEdit(c: CrmCustomer, f: EditForm): (r: Option<SaveRequest>)
    ensures r.None? <==> Trim(f.name) == c.name && NormalizePhone(f.phone) == NormalizePhone(c.phone)
    ensures r.Some? ==> r.value.customerId == c.customerId && r.value.name == Trim(f.name) &&
                        r.value.phone == NormalizePhone(f.phone) && AllDigits(r.value.phone)
  {
    var name := Trim(f.name);
    var digits := NormalizePhone(f.phone);
    if name == c.name && digits == NormalizePhone(c.phone) then None
    else Some(SaveRequest(c.customerId, name, digits))
  }

  /** A save that passes the form's rules sends a non-empty name and a non-empty phone,
      so the update endpoint's "required" refusal is never met from this form. */
  lemma ValidatedSaveHasFields(c: CrmCustomer, f: EditForm)
    requires NameError(f.name).None? && PhoneError(f.phone).None?
    requires SaveEdit(c, f).Some?
    ensures SaveEdit(c, f).value.name != [] && SaveEdit(c, f).value.phone != []
  {
    BlankTrim(f.name);
  }

  /** `canSave`: a customer is selected, no field has an error, and a field differs from
      the stored text (`?? ''` for a field not yet watched). */
  predicate CanSave(selected: Option<CrmCustomer>, hasErrors: bool, name: Option<string>, phone: Option<string>)
    ensures selected.Some? && name == Some(selected.value.name) && phone == Some(selected.value.phone) ==>
      !CanSave(selected, hasErrors, name, phone)
  {
    selected.Some? && !hasErrors &&
    (name.GetOr("") != selected.value.name || phone.GetOr("") != selected.value.phone)
  }

  /** `canSave` compares the formatted phone with the stored text: right after opening a
      customer with a plain 4- to 11-digit phone, Save is enabled although nothing was
      changed, and saving then answers "No changes to save.". */
  lemma SaveEnabledWithoutChange(c: CrmCustomer)
    requires AllDigits(c.phone) && 3 < |c.phone| <= 11 && Trim(c.name) == c.name
    ensures var f := OpenEdit(c);
            CanSave(Some(c), false, Some(f.name), Some(f.phone)) && SaveEdit(c, f).None?
  {
    var f := OpenEdit(c);
    assert f.phone[3] == '-';
    assert !IsDigit(f.phone[3]);
  }

  /** A stored 12-digit phone, which both the register check and the phone validator
      accept, is cut to 11 digits by the form: saving sends the phone without its twelfth
      digit, whatever the name, so even an unchanged edit sends an update. */
  lemma TwelveDigitPhoneTruncated(c: CrmCustomer, name: string)
    requires MobileDigits(c.phone) && |c.phone| == 12
    ensures CustomerRegister.PhoneFormatOk(c.phone)
    ensures var r := SaveEdit(c, OpenEdit(c).(name := name));
            r.Some? && r.value.phone == c.phone[..11] && r.value.phone != NormalizePhone(c.phone)
  {
    FormattedKeepsEleven(c.phone);
    assert NormalizePhone(c.phone) == c.phone;
  }

  /** The formatted form of a number of only digits keeps its first eleven. */
  lemma FormattedKeepsEleven(p: string)
    requires AllDigits(p) && |p| >= 11
    ensures NormalizePhone(FormatPhone(p)) == p[..11]
  {
    assert NormalizePhone(p) == p;
  }

  /** Keeping up to 12 digits, the number of digits the validator accepts. */
  function FormatPhoneKeepingTwelve(s: string): (r: string)
    ensures NormalizePhone(r) == Take(NormalizePhone(s), 12)
  {
    Layout(Take(DigitsOf(s), 12))
  }

  function OpenEditKeepingTwelve(c: CrmCustomer): (f: EditForm)
    ensures f.name == c.name && NormalizePhone(f.phone) == Take(NormalizePhone(c.phone), 12)
  {
    EditForm(c.name, FormatPhoneKeepingTwelve(c.phone))
  }

  /** With 12 digits kept, opening any customer whose phone passed the register check
      and saving without a change sends nothing. */
  lemma UnchangedEditIsNoOp(c: CrmCustomer)
    requires CustomerRegister.PhoneFormatOk(c.phone) && Trim(c.name) == c.name
    ensures SaveEdit(c, OpenEditKeepingTwelve(c)).None?
  {
  }

  // ---------------------------------------------------------------- active customers

  /** The change of today's active customers against yesterday's, in percent, before
      rounding: 100 when yesterday had none and today has some, 0 when both are 0. */
  function ChangePercent(today: nat, yesterday: nat): (p: real)
    ensures yesterday == 0 && today > 0 ==> p == 100.0
    ensures yesterday == 0 && today == 0 ==> p == 0.0
    ensures yesterday > 0 ==> (p > 0.0 <==> today > yesterday) && (p < 0.0 <==> today < yesterday)
    ensures yesterday > 0 ==> p >= -100.0
  {
    if yesterday == 0 then (if today > 0 then 100.0 else 0.0)
    else ((today - yesterday) as real / yesterday as real) * 100.0
  }
}
