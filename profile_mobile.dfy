/** The customer's profile page: password strength, phone formatting, the form check
    before an update, and cancelling an edit (frontend/src/pages/Mobile/ProfileMobile.js). */
module ProfileMobile {
  import opened Js
  import Tables
  import AdminCrm
  import CustomerController

  // ---------------------------------------------------------------- password strength

  /** `/[A-Z]/`, `/[0-9]/` and `/[^A-Za-z0-9]/`. */
  predicate HasUpper(p: string) { exists i :: 0 <= i < |p| && IsUpper(p[i]) }
  predicate HasDigit(p: string) { exists i :: 0 <= i < |p| && IsDigit(p[i]) }
  predicate HasSpecial(p: string) { exists i :: 0 <= i < |p| && !IsAlnum(p[i]) }

  datatype Strength = TooShort | AddUppercase | AddNumbers | AddSpecial | Good | Strong {
    function Label(): string {
      match this
      case TooShort => "Too short"
      case AddUppercase => "Add uppercase"
      case AddNumbers => "Add numbers"
      case AddSpecial => "Add special char"
      case Good => "Good"
      case Strong => "Strong password"
    }
    function Color(): string {
      match this
      case TooShort => "red"
      case Good => "lightgreen"
      case Strong => "green"
      case _ => "orange"
    }
    /** Position in the chain, weakest first. */
    function Rank(): nat {
      match this
      case TooShort => 0
      case AddUppercase => 1
      case AddNumbers => 2
      case AddSpecial => 3
      case Good => 4
      case Strong => 5
    }
  }

  /** `getPasswordStrength`: the first failing check names the level; a password passing
      all of them is Strong from 10 characters on and Good below. */
  function PasswordStrength(p: string): (s: Strength)
    ensures s == TooShort <==> |p| < 8
    ensures s == AddUppercase <==> |p| >= 8 && !HasUpper(p)
    ensures s == AddNumbers <==> |p| >= 8 && HasUpper(p) && !HasDigit(p)
    ensures s == AddSpecial <==> |p| >= 8 && HasUpper(p) && HasDigit(p) && !HasSpecial(p)
    ensures s.Rank() >= 4 <==> |p| >= 8 && HasUpper(p) && HasDigit(p) && HasSpecial(p)
    ensures s == Strong <==> |p| >= 10 && HasUpper(p) && HasDigit(p) && HasSpecial(p)
  {
    if |p| < 8 then TooShort
    else if !HasUpper(p) then AddUppercase
    else if !HasDigit(p) then AddNumbers
    else if !HasSpecial(p) then AddSpecial
    else if |p| >= 10 then Strong
    else Good
  }

  /** Typing more characters never lowers the strength: each check, once passed, stays
      passed. */
  lemma StrengthMonotone(p: string, q: string)
    requires p <= q
    ensures PasswordStrength(p).Rank() <= PasswordStrength(q).Rank()
  {
    if HasUpper(p) {
      var i :| 0 <= i < |p| && IsUpper(p[i]);
      assert q[i] == p[i];
    }
    if HasDigit(p) {
      var i :| 0 <= i < |p| && IsDigit(p[i]);
      assert q[i] == p[i];
    }
    if HasSpecial(p) {
      var i :| 0 <= i < |p| && !IsAlnum(p[i]);
      assert q[i] == p[i];
    }
  }

  /** The strength bar's width in percent: `Math.min(length * 10, 100)`. */
  function BarWidth(p: string): (w: nat)
    ensures w <= 100 && (w == 100 <==> |p| >= 10)
    ensures |p| < 10 ==> w == 10 * |p|
  {
    Min(10 * |p|, 100)
  }

  /** A strong password fills the bar; a good one fills 80 or 90 percent of it. */
  lemma BarMatchesStrength(p: string)
    ensures PasswordStrength(p) == Strong ==> BarWidth(p) == 100
    ensures PasswordStrength(p) == Good ==> BarWidth(p) == 80 || BarWidth(p) == 90
    ensures PasswordStrength(p) == TooShort ==> BarWidth(p) < 80
  {
  }

  // ---------------------------------------------------------------- phone

  /** `formatPhoneNum` is the admin list's `formatPhone`: at most 11 digits with a dash
      after the third. The formatted text, dash included, is what an update sends, so
      it is not the text a plain registration stored: while every stored phone is plain
      digits, the backend's "phone held by another customer" check lets the update
      through even though another customer holds the same number. */
  lemma FormattedPhoneEscapesUniqueness(customers: map<int, Tables.Customer>, self: int, other: int, p: string)
    requires AllDigits(p) && 3 < |p| <= 11
    requires other in customers && other != self && customers[other].phone == p
    requires forall k :: k in customers ==> AllDigits(customers[k].phone)
    ensures AdminCrm.NormalizePhone(AdminCrm.FormatPhone(p)) == p
    ensures AdminCrm.FormatPhone(p) == p[..3] + "-" + p[3..]
    ensures !CustomerController.PhoneHeldByOther(customers, AdminCrm.FormatPhone(p), Some(self))
  {
    var f := AdminCrm.FormatPhone(p);
    assert AdminCrm.NormalizePhone(p) == p;
    assert !IsDigit(f[3]);
  }

  // ---------------------------------------------------------------- validate

  /** The editable part of the profile. */
  datatype ProfileForm = ProfileForm(name: string, email: string, phone: string)

  /** What `validate` accepts. */
  predicate ProfileValid(c: ProfileForm, newPassword: string)
    ensures ProfileValid(c, newPassword) ==> 5 <= |Trim(c.email)| && 10 <= |DigitsOf(c.phone)| <= 12
  {
    |Trim(c.name)| > 0 && CustomerController.EmailValid(Trim(c.email)) &&
    AdminCrm.MobileDigits(DigitsOf(c.phone)) && (|newPassword| == 0 || |newPassword| >= 8)
  }

  /** The keys of the page's error map. */
  datatype Field = CustomerName | Email | PhoneNumber | NewPassword

  /** The email check of `validate` on the trimmed email: required, then the pattern. */
  function EmailMessage(email: string): (m: Option<string>)
    ensures m.None? <==> CustomerController.EmailValid(email)
    ensures m.Some? ==> m.value == (if |email| == 0 then "Email is required." else "Invalid email address.")
  {
    if |email| == 0 then Some("Email is required.")
    else if !CustomerController.EmailValid(email) then Some("Invalid email address.")
    else None
  }

  /** The phone check of `validate` on the phone's digits: required, then the pattern. */
  function PhoneMessage(digits: string): (m: Option<string>)
    ensures m.None? <==> AdminCrm.MobileDigits(digits)
    ensures m.Some? ==>
      m.value == (if |digits| == 0 then "Phone number is required." else "Use XXX-XXXXXXX or XXX-XXXXXXXX")
  {
    if |digits| == 0 then Some("Phone number is required.")
    else if !AdminCrm.MobileDigits(digits) then Some("Use XXX-XXXXXXX or XXX-XXXXXXXX")
    else None
  }

  /** `validate`: fills a fresh error map field by field and succeeds when it stays
      empty. */
  method Validate(c: ProfileForm, newPassword: string) returns (errors: map<Field, string>, ok: bool)
    ensures ok <==> errors.Keys == {}
    ensures ok <==> ProfileValid(c, newPassword)
    ensures CustomerName in errors <==> |Trim(c.name)| == 0
    ensures Email in errors <==> !CustomerController.EmailValid(Trim(c.email))
    ensures PhoneNumber in errors <==> !AdminCrm.MobileDigits(DigitsOf(c.phone))
    ensures NewPassword in errors <==> 0 < |newPassword| < 8
    ensures CustomerName in errors ==> errors[CustomerName] == "Username cannot be empty."
    ensures Email in errors ==> Some(errors[Email]) == EmailMessage(Trim(c.email))
    ensures PhoneNumber in errors ==> Some(errors[PhoneNumber]) == PhoneMessage(DigitsOf(c.phone))
    ensures NewPassword in errors ==> errors[NewPassword] == "Password must be at least 8 characters."
  {
    errors := CollectErrors(|Trim(c.name)| == 0, EmailMessage(Trim(c.email)), PhoneMessage(DigitsOf(c.phone)),
                            0 < |newPassword| < 8);
    ok := errors.Keys == {};
  }

  /** The error map from the outcome of each field's check. */
  function CollectErrors(nameMissing: bool, email: Option<string>, phone: Option<string>, shortPassword: bool)
    : (errors: map<Field, string>)
    ensures CustomerName in errors <==> nameMissing
    ensures Email in errors <==> email.Some?
    ensures PhoneNumber in errors <==> phone.Some?
    ensures NewPassword in errors <==> shortPassword
    ensures CustomerName in errors ==> errors[CustomerName] == "Username cannot be empty."
    ensures Email in errors ==> errors[Email] == email.value
    ensures PhoneNumber in errors ==> errors[PhoneNumber] == phone.value
    ensures NewPassword in errors ==> errors[NewPassword] == "Password must be at least 8 characters."
    ensures errors.Keys == {} <==> !nameMissing && email.None? && phone.None? && !shortPassword
  {
    var e0: map<Field, string> := map[];
    var e1 := if nameMissing then e0[CustomerName := "Username cannot be empty."] else e0;
    var e2 := if email.Some? then e1[Email := email.value] else e1;
    var e3 := if phone.Some? then e2[PhoneNumber := phone.value] else e2;
    if shortPassword then e3[NewPassword := "Password must be at least 8 characters."] else e3
  }

  /** A form that passes `validate`, sent trimmed by a logged-in customer, passes the
      backend's required-fields and email-format checks. */
  lemma ValidatedUpdatePassesFieldChecks(c: ProfileForm, newPassword: string, customerId: string)
    requires ProfileValid(c, newPassword) && customerId != []
    ensures !CustomerController.ProfileFieldsMissing(IdText(customerId), Trim(c.email), Trim(c.name), Trim(c.phone))
    ensures CustomerController.EmailValid(Trim(c.email))
  {
    DigitsSurviveTrim(c.phone);
  }

  // ---------------------------------------------------------------- cancel

  /** The page state `handleCancelEdit` touches. */
  datatype ProfilePage = ProfilePage(
    customer: ProfileForm, original: Option<ProfileForm>, newPassword: string,
    errors: map<Field, string>, editMode: bool)

  /** `handleCancelEdit`: the loaded profile comes back (when one was loaded), the new
      password and the errors are cleared and edit mode ends. */
  function CancelEdit(s: ProfilePage): (t: ProfilePage)
    ensures t.original == s.original && t.newPassword == [] && t.errors == map[] && !t.editMode
    ensures s.original.Some? ==> t.customer == s.original.value
    ensures s.original.None? ==> t.customer == s.customer
  {
    s.(customer := if s.original.Some? then s.original.value else s.customer,
       newPassword := "", errors := map[], editMode := false)
  }

  /** Whatever was typed into the form or the password box, cancelling gives the same
      page as cancelling straight away. */
  lemma CancelDiscardsEdits(s: ProfilePage, typed: ProfileForm, password: string)
    requires s.original.Some?
    ensures CancelEdit(s.(customer := typed, newPassword := password)) == CancelEdit(s)
  {
  }
}
