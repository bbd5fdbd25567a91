/** The customer's sign-up page: the phone input's cleaning, the checks before the
    request, the strength bar and what the page does with the answer
    (frontend/src/pages/Mobile/CustomerRegisterMobile.js). */
module CustomerRegisterMobile {
  import opened Js
  import opened Tables
  import CustomerController
  import CustomerRegister
  import ProfileMobile

  /** The phone input's `val.replace(/[^0-9-]/g, '')`: only digits and dashes stay. */
  function CleanPhone(val: string): (r: string)
    ensures |r| <= |val|
    ensures forall i :: 0 <= i < |r| ==> IsDigit(r[i]) || r[i] == '-'
    ensures forall i :: 0 <= i < |val| && (IsDigit(val[i]) || val[i] == '-') ==> val[i] in r
    ensures (forall i :: 0 <= i < |val| ==> IsDigit(val[i]) || val[i] == '-') ==> r == val
  {
    if val == [] then []
    else (if IsDigit(val[0]) || val[0] == '-' then [val[0]] else []) + CleanPhone(val[1..])
  }

  /** Cleaning distributes over concatenation: every digit and dash is kept, in the
      order typed, and everything else is dropped. */
  lemma {:induction false} CleanPhoneAppend(a: string, b: string)
    ensures CleanPhone(a + b) == CleanPhone(a) + CleanPhone(b)
  {
    if a == [] {
      assert a + b == b;
    } else {
      var ab := a + b;
      assert ab[0] == a[0] && ab[1..] == a[1..] + b;
      CleanPhoneAppend(a[1..], b);
      var h := if IsDigit(a[0]) || a[0] == '-' then [a[0]] else [];
      assert h + (CleanPhone(a[1..]) + CleanPhone(b)) == (h + CleanPhone(a[1..])) + CleanPhone(b);
    }
  }

  /** Cleaning text that is already clean changes nothing. */
  lemma {:induction false} CleanPhoneIdempotent(val: string)
    ensures CleanPhone(CleanPhone(val)) == CleanPhone(val)
  {
    if val != [] {
      CleanPhoneIdempotent(val[1..]);
      var t := CleanPhone(val[1..]);
      if IsDigit(val[0]) || val[0] == '-' {
        var u := [val[0]] + t;
        assert CleanPhone(val) == u;
        assert u[0] == val[0] && u[1..] == t;
        assert CleanPhone(u) == [u[0]] + CleanPhone(u[1..]);
      } else {
        assert CleanPhone(val) == t;
      }
    }
  }

  /** The input holds at most 12 characters, so what it holds passes the backend's phone
      format check exactly when at least 7 characters survived the cleaning. */
  lemma CleanedPhoneFormat(val: string)
    requires |val| <= 12
    ensures CustomerRegister.PhoneFormatOk(CleanPhone(val)) <==> |CleanPhone(val)| >= 7
  {
  }

  /** `handleRegister`'s checks, in order: all four fields filled, the email pattern,
      a password of at least 8 characters. None means the request is sent. */
  function RegisterCheck(name: string, email: string, phone: string, password: string): (e: Option<string>)
    ensures e.None? <==>
      |name| > 0 && |email| > 0 && |phone| > 0 && |password| > 0 &&
      CustomerController.EmailValid(email) && |password| >= 8
    ensures (|name| == 0 || |email| == 0 || |phone| == 0 || |password| == 0) <==>
      e == Some("Please fill in all required fields")
    ensures e == Some("Please enter a valid email address") <==>
      |name| > 0 && |email| > 0 && |phone| > 0 && |password| > 0 && !CustomerController.EmailValid(email)
    ensures e == Some("Password must be at least 8 characters long") <==>
      |name| > 0 && |email| > 0 && |phone| > 0 && CustomerController.EmailValid(email) && 0 < |password| < 8
  {
    if |name| == 0 || |email| == 0 || |phone| == 0 || |password| == 0 then
      Some("Please fill in all required fields")
    else if !CustomerController.EmailValid(email) then Some("Please enter a valid email address")
    else if |password| < 8 then Some("Password must be at least 8 characters long")
    else None
  }

  /** A sent registration never carries a password the strength meter calls too short. */
  lemma SentPasswordNotTooShort(name: string, email: string, phone: string, password: string)
    requires RegisterCheck(name, email, phone, password).None?
    ensures ProfileMobile.PasswordStrength(password) != ProfileMobile.TooShort
    ensures ProfileMobile.PasswordStrength(password).Label() != "Too short"
  {
  }

  /** The strength bar: `password ? Math.min(length * 10, 100) : 0`, which is the
      profile page's bar for every password. */
  function RegisterBarWidth(password: string): (w: nat)
    ensures w == ProfileMobile.BarWidth(password)
    ensures password == [] ==> w == 0
  {
    if |password| == 0 then 0 else Min(10 * |password|, 100)
  }

  /** What the page does with the answer. */
  datatype Outcome = GoBack(notice: string) | ShowError(message: string)

  /** `data.success` goes back after "Registration Successful"; a refusal shows
      `data.message || 'Registration Failed'`; no answer at all (None) shows the generic
      error. */
  function AfterRegister(answer: Option<Response<int>>): (o: Outcome)
    ensures answer.Some? && answer.value.Ok? <==> o == GoBack("Registration Successful")
    ensures answer.None? ==> o == ShowError("Something went wrong, please try again")
    ensures answer.Some? && answer.value.Err? && |answer.value.error| > 0 ==> o == ShowError(answer.value.error)
    ensures answer.Some? && answer.value.Err? && |answer.value.error| == 0 ==> o == ShowError("Registration Failed")
  {
    match answer
    case None => ShowError("Something went wrong, please try again")
    case Some(Ok(_, _)) => GoBack("Registration Successful")
    case Some(Err(_, m)) => if |m| > 0 then ShowError(m) else ShowError("Registration Failed")
  }

  /** The page lets through a cleaned phone of 1 to 6 characters, which the backend's
      format check then refuses. */
  lemma ShortPhoneReachesBackend(name: string, email: string, val: string, password: string)
    requires |val| <= 12 && 0 < |CleanPhone(val)| < 7
    requires |name| > 0 && |email| > 0 && CustomerController.EmailValid(email) && |password| >= 8
    ensures RegisterCheck(name, email, CleanPhone(val), password).None?
    ensures !CustomerRegister.PhoneFormatOk(CleanPhone(val))
  {
    CleanedPhoneFormat(val);
  }
}
