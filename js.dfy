/** The small part of the JavaScript runtime that the controllers and pages lean on:
    optional values, request fields, truthiness, `isNaN`, `Number()`, `parseFloat`,
    `parseInt`, and the string operations the filters and validators use. */
module Js {

  datatype Option<T> = None | Some(value: T) {
    /** `x || d` / `x ?? d` for a value that may be absent. */
    function GetOr(d: T): T {
      if Some? then value else d
    }
  }

  /** What an HTTP handler answers: a status code with a payload, or an error status with
      the message it puts in the JSON body. */
  datatype Response<T> = Ok(status: int, value: T) | Err(status: int, error: string)

  /** A request field that carries an id: missing, a JSON number, or a string
      (ids kept in the browser's local storage travel as strings). */
  datatype IdParam = Absent | IdNum(n: int) | IdText(s: string)

  /** A request field or stored setting that carries a number: missing, a JSON number,
      or a string. */
  datatype JsVal = Undef | Num(x: real) | Str(s: string)

  function Max(a: int, b: int): int { if a < b then b else a }
  function Min(a: int, b: int): int { if a < b then a else b }
  function MaxR(a: real, b: real): real { if a < b then b else a }
  function MinR(a: real, b: real): real { if a < b then a else b }

  // ---------------------------------------------------------------- characters

  predicate IsDigit(c: char) { '0' <= c <= '9' }
  predicate IsUpper(c: char) { 'A' <= c <= 'Z' }
  predicate IsLower(c: char) { 'a' <= c <= 'z' }
  predicate IsAlnum(c: char) { IsDigit(c) || IsUpper(c) || IsLower(c) }
  /** The white space and line terminators that `trim`, `Number`, `parseFloat` and a
      regular expression's `\s` treat as space: tab, line feed, vertical tab, form feed,
      carriage return, space, no-break space, the byte order mark, the line and
      paragraph separators and the other Unicode space separators. */
  predicate IsSpace(c: char) {
    c == ' ' || c == '\t' || c == '\n' || c == '\r' || c == '\U{B}' || c == '\U{C}' ||
    c == '\U{A0}' || c == '\U{1680}' || ('\U{2000}' <= c <= '\U{200A}') ||
    c == '\U{2028}' || c == '\U{2029}' || c == '\U{202F}' || c == '\U{205F}' ||
    c == '\U{3000}' || c == '\U{FEFF}'
  }

  predicate AllDigits(s: string) { forall i :: 0 <= i < |s| ==> IsDigit(s[i]) }
  predicate NoDigits(s: string) { forall i :: 0 <= i < |s| ==> !IsDigit(s[i]) }

  function DigitValue(c: char): (d: nat)
    requires IsDigit(c)
    ensures d < 10
  {
    (c as int) - ('0' as int)
  }

  function DigitChar(d: nat): (c: char)
    requires d < 10
    ensures IsDigit(c) && DigitValue(c) == d
  {
    (('0' as int) + d) as char
  }

  // ---------------------------------------------------------------- strings

  /** `s.toLowerCase()` on ASCII letters. */
  function ToLower(s: string): (r: string)
    ensures |r| == |s|
    ensures forall i :: 0 <= i < |s| ==> r[i] == (if IsUpper(s[i]) then (s[i] as int + 32) as char else s[i])
  {
    if s == [] then []
    else [if IsUpper(s[0]) then (s[0] as int + 32) as char else s[0]] + ToLower(s[1..])
  }

  /** `s.includes(sub)`: `sub` occurs somewhere in `s`. */
  predicate Includes(s: string, sub: string)
    decreases |s|
  {
    sub <= s || (|s| > 0 && Includes(s[1..], sub))
  }

  /** `s.toLowerCase().includes(sub.toLowerCase())`. */
  predicate IncludesIgnoreCase(s: string, sub: string) {
    Includes(ToLower(s), ToLower(sub))
  }

  function TrimStart(s: string): (r: string)
    ensures |r| <= |s| && r == s[|s| - |r|..]
    ensures r == [] || !IsSpace(r[0])
    ensures forall i :: 0 <= i < |s| - |r| ==> IsSpace(s[i])
  {
    if s != [] && IsSpace(s[0]) then
      var r := TrimStart(s[1..]);
      assert s[1..][|s| - 1 - |r|..] == s[|s| - |r|..];
      assert forall i :: 1 <= i < |s| ==> s[i] == s[1..][i - 1];
      r
    else s
  }

  function TrimEnd(s: string): (r: string)
    ensures |r| <= |s| && r == s[..|r|]
    ensures r == [] || !IsSpace(r[|r| - 1])
    ensures forall i :: |r| <= i < |s| ==> IsSpace(s[i])
  {
    if s != [] && IsSpace(s[|s| - 1]) then
      var r := TrimEnd(s[..|s| - 1]);
      assert s[..|s| - 1][..|r|] == s[..|r|];
      r
    else s
  }

  /** Neither starts nor ends with white space. */
  predicate Trimmed(s: string) {
    s == [] || (!IsSpace(s[0]) && !IsSpace(s[|s| - 1]))
  }

  /** `r` is `s` from position `i` on, with only white space cut off on either side. */
  predicate SpaceCutAt(s: string, r: string, i: int) {
    0 <= i <= |s| - |r| && r == s[i..i + |r|] &&
    (forall k :: 0 <= k < i ==> IsSpace(s[k])) && (forall k :: i + |r| <= k < |s| ==> IsSpace(s[k]))
  }

  /** `s.trim()`. */
  function Trim(s: string): (r: string)
    ensures r == [] || (!IsSpace(r[0]) && !IsSpace(r[|r| - 1]))
    ensures exists i :: SpaceCutAt(s, r, i)
  {
    var t := TrimStart(s);
    var r := TrimEnd(t);
    var i := |s| - |t|;
    assert t == s[i..];
    assert r == s[i..i + |r|];
    forall k | i + |r| <= k < |s| ensures IsSpace(s[k]) {
      assert s[k] == t[k - i];
    }
    assert SpaceCutAt(s, r, i);
    r
  }

  /** Trimming a string without white space changes nothing. */
  lemma TrimWithoutSpace(s: string)
    requires forall k :: 0 <= k < |s| ==> !IsSpace(s[k])
    ensures Trim(s) == s
  {
    assert TrimStart(s) == s;
  }

  /** Every character is white space (the empty string included). */
  predicate AllSpace(s: string) {
    forall i :: 0 <= i < |s| ==> IsSpace(s[i])
  }

  /** `s.trim() === ''` exactly when `s` is all white space. */
  lemma BlankTrim(s: string)
    ensures |Trim(s)| == 0 <==> AllSpace(s)
  {
    var t := TrimStart(s);
  }

  /** Trimming twice is trimming once. */
  lemma TrimIdempotent(s: string)
    ensures Trim(Trim(s)) == Trim(s)
  {
    var r := Trim(s);
    assert TrimStart(r) == r;
    assert TrimEnd(r) == r;
  }

  /** `s.replace(/\D/g, '')`: the digits of `s`, in order. */
  function DigitsOf(s: string): (r: string)
    ensures AllDigits(r) && |r| <= |s|
    ensures AllDigits(s) ==> r == s
    ensures NoDigits(s) ==> r == []
  {
    if s == [] then []
    else (if IsDigit(s[0]) then [s[0]] else []) + DigitsOf(s[1..])
  }

  /** Digit extraction distributes over concatenation. */
  lemma {:induction false} DigitsOfAppend(a: string, b: string)
    ensures DigitsOf(a + b) == DigitsOf(a) + DigitsOf(b)
  {
    if a == [] {
      assert a + b == b;
    } else {
      var ab := a + b;
      assert ab[0] == a[0] && ab[1..] == a[1..] + b;
      DigitsOfAppend(a[1..], b);
      var h := if IsDigit(a[0]) then [a[0]] else [];
      assert DigitsOf(ab) == h + DigitsOf(ab[1..]);
      assert DigitsOf(a) == h + DigitsOf(a[1..]);
      assert h + (DigitsOf(a[1..]) + DigitsOf(b)) == (h + DigitsOf(a[1..])) + DigitsOf(b);
    }
  }

  /** A string with a digit in it does not trim to "". */
  lemma {:induction false} DigitsSurviveTrim(s: string)
    requires DigitsOf(s) != []
    ensures Trim(s) != []
  {
    if !IsDigit(s[0]) {
      assert DigitsOf(s) == DigitsOf(s[1..]);
      DigitsSurviveTrim(s[1..]);
    }
  }

  // ---------------------------------------------------------------- numbers

  /** The number written by a run of decimal digits. */
  function DigitsValue(s: string): (n: nat)
    requires AllDigits(s)
  {
    if s == [] then 0 else 10 * DigitsValue(s[..|s| - 1]) + DigitValue(s[|s| - 1])
  }

  /** Length of the run of digits that starts `s`. */
  function DigitRun(s: string): (k: nat)
    ensures k <= |s| && forall i :: 0 <= i < k ==> IsDigit(s[i])
    ensures k < |s| ==> !IsDigit(s[k])
  {
    if s != [] && IsDigit(s[0]) then 1 + DigitRun(s[1..]) else 0
  }

  /** The value of the digits after a decimal point: `0.frac`. */
  function FractionValue(frac: string): (v: real)
    requires AllDigits(frac)
    ensures 0.0 <= v <= 1.0
  {
    if frac == [] then 0.0 else (DigitValue(frac[0]) as real + FractionValue(frac[1..])) / 10.0
  }

  /** The value of `whole.frac` for two digit strings. */
  function Decimal(whole: string, frac: string): (v: real)
    requires AllDigits(whole) && AllDigits(frac)
    ensures v >= DigitsValue(whole) as real
  {
    DigitsValue(whole) as real + FractionValue(frac)
  }

  /** What a scan read: the number and how many characters it took. */
  datatype Scan = Scan(value: real, length: int)

  /** Scans `digits [ '.' digits ]` with at least one digit at the start of `s`. */
  function ScanUnsigned(s: string): (r: Option<Scan>)
    ensures r.Some? ==> 0 < r.value.length <= |s| && r.value.value >= 0.0
  {
    var a := DigitRun(s);
    if a < |s| && s[a] == '.' then
      var b := DigitRun(s[a + 1..]);
      if a + b == 0 then None
      else Some(Scan(Decimal(s[..a], s[a + 1..][..b]), a + 1 + b))
    else if a == 0 then None
    else Some(Scan(DigitsValue(s[..a]) as real, a))
  }

  /** Like `ScanUnsigned`, after an optional sign. */
  function ScanSigned(s: string): (r: Option<Scan>)
    ensures r.Some? ==> 0 < r.value.length <= |s|
  {
    if s != [] && (s[0] == '-' || s[0] == '+') then
      match ScanUnsigned(s[1..])
      case None => None
      case Some(Scan(v, n)) => Some(Scan(if s[0] == '-' then -v else v, n + 1))
    else ScanUnsigned(s)
  }

  /** `parseFloat(s)`: the longest decimal prefix after leading white space; None is NaN. */
  function ParseFloat(s: string): (r: Option<real>)
    ensures r.Some? ==> exists n :: ScanSigned(TrimStart(s)) == Some(Scan(r.value, n))
  {
    match ScanSigned(TrimStart(s))
    case None => None
    case Some(Scan(v, _)) => Some(v)
  }

  /** `Number(s)`: blank is 0, otherwise the whole trimmed text must be a decimal. */
  function ToNumber(s: string): (r: Option<real>)
    ensures Trim(s) == [] ==> r == Some(0.0)
  {
    var t := Trim(s);
    if t == [] then Some(0.0)
    else match ScanSigned(t)
      case Some(Scan(v, n)) => if n == |t| then Some(v) else None
      case None => None
  }

  /** `parseInt(s, 10)`: optional sign and the longest digit prefix after white space. */
  function ParseInt(s: string): Option<int> {
    var t := TrimStart(s);
    var neg := t != [] && t[0] == '-';
    var u := if t != [] && (t[0] == '-' || t[0] == '+') then t[1..] else t;
    var k := DigitRun(u);
    if k == 0 then None
    else Some(if neg then -(DigitsValue(u[..k]) as int) else DigitsValue(u[..k]))
  }

  /** A digit run that fills `t` ends where `t` does, when no digit follows. */
  lemma {:induction false} DigitRunExtend(t: string, w: string)
    requires DigitRun(t) == |t|
    requires w == [] || !IsDigit(w[0])
    ensures DigitRun(t + w) == |t|
  {
    if t != [] {
      assert (t + w)[1..] == t[1..] + w;
      DigitRunExtend(t[1..], w);
    }
  }

  /** A digit run that stops inside `t` is not changed by what follows `t`. */
  lemma {:induction false} DigitRunPrefix(t: string, w: string)
    requires DigitRun(t) < |t|
    ensures DigitRun(t + w) == DigitRun(t)
  {
    if IsDigit(t[0]) {
      assert (t + w)[1..] == t[1..] + w;
      DigitRunPrefix(t[1..], w);
    }
  }

  /** An unsigned decimal that takes all of `t` takes the same prefix of `t + w` when `w`
      does not go on with a digit or a '.'. */
  lemma ScanUnsignedExtend(t: string, w: string, v: real)
    requires ScanUnsigned(t) == Some(Scan(v, |t|))
    requires w == [] || (!IsDigit(w[0]) && w[0] != '.')
    ensures ScanUnsigned(t + w) == Some(Scan(v, |t|))
  {
    var a := DigitRun(t);
    if a == |t| {
      WholeRunExtend(t, w);
    } else {
      FractionExtend(t, w, a, DigitRun(t[a + 1..]));
    }
  }

  /** The digits-only case of `ScanUnsignedExtend`. */
  lemma WholeRunExtend(t: string, w: string)
    requires DigitRun(t) == |t| > 0
    requires w == [] || (!IsDigit(w[0]) && w[0] != '.')
    ensures ScanUnsigned(t + w) == ScanUnsigned(t)
  {
    var s := t + w;
    DigitRunExtend(t, w);
    AppendSlices(t, w, |t|);
    assert !(|t| < |s| && s[|t|] == '.');
  }

  /** The case of `ScanUnsignedExtend` with a '.' after the first digit run. */
  lemma FractionExtend(t: string, w: string, a: nat, b: nat)
    requires a == DigitRun(t) < |t| && t[a] == '.' && b == DigitRun(t[a + 1..]) && a + 1 + b == |t|
    requires w == [] || (!IsDigit(w[0]) && w[0] != '.')
    ensures ScanUnsigned(t + w) == ScanUnsigned(t)
  {
    var s := t + w;
    DigitRunPrefix(t, w);
    AppendSlices(t, w, a);
    AppendSlices(t, w, a + 1);
    var f := t[a + 1..];
    DigitRunExtend(f, w);
    AppendSlices(f, w, b);
    ScanFraction(s, a, b);
    ScanFraction(t, a, b);
  }

  /** `ScanUnsigned` on a digit run `a` long followed by '.' and a digit run `b` long. */
  lemma ScanFraction(s: string, a: nat, b: nat)
    requires a == DigitRun(s) < |s| && s[a] == '.' && b == DigitRun(s[a + 1..])
    ensures ScanUnsigned(s) == if a + b == 0 then None else Some(Scan(Decimal(s[..a], s[a + 1..][..b]), a + 1 + b))
  {
    if a + b != 0 {
      assert ScanUnsigned(s).Some?;
      assert ScanUnsigned(s).value.length == a + 1 + b;
      assert ScanUnsigned(s).value.value == Decimal(s[..a], s[a + 1..][..b]);
    }
  }

  /** Slicing `t + w` within `t`. */
  lemma AppendSlices(t: string, w: string, a: nat)
    requires a <= |t|
    ensures (t + w)[..a] == t[..a] && (t + w)[a..] == t[a..] + w
    ensures a < |t| ==> (t + w)[a] == t[a]
  {
  }

  lemma ScanSignedExtend(t: string, w: string, v: real)
    requires ScanSigned(t) == Some(Scan(v, |t|))
    requires w == [] || (!IsDigit(w[0]) && w[0] != '.')
    ensures ScanSigned(t + w) == Some(Scan(v, |t|))
  {
    AppendSlices(t, w, 1);
    if t[0] == '-' || t[0] == '+' {
      var p := ScanUnsigned(t[1..]).value;
      ScanUnsignedExtend(t[1..], w, p.value);
    } else {
      ScanUnsignedExtend(t, w, v);
    }
  }

  /** `s.trimStart()` is `s.trim()` followed by white space only. */
  lemma TrimStartSplit(s: string)
    ensures |Trim(s)| <= |TrimStart(s)|
    ensures TrimStart(s) == Trim(s) + TrimStart(s)[|Trim(s)|..]
    ensures |Trim(s)| == |TrimStart(s)| || IsSpace(TrimStart(s)[|Trim(s)|])
  {
    TrimEndSplit(TrimStart(s));
  }

  /** `s` is `trimEnd(s)` followed by white space only. */
  lemma TrimEndSplit(a: string)
    ensures a == TrimEnd(a) + a[|TrimEnd(a)|..]
    ensures |TrimEnd(a)| == |a| || IsSpace(a[|TrimEnd(a)|])
  {
    var r := TrimEnd(a);
    assert r == a[..|r|];
  }

  /** Where `Number(s)` reads a non-blank decimal, `parseFloat(s)` reads the same value. */
  lemma ParseFloatAgreesWithNumber(s: string)
    requires ToNumber(s).Some? && Trim(s) != []
    ensures ParseFloat(s) == ToNumber(s)
  {
    var t := Trim(s);
    assert ScanSigned(t) == Some(Scan(ToNumber(s).value, |t|));
    TrimStartSplit(s);
    ScanSignedExtend(t, TrimStart(s)[|t|..], ToNumber(s).value);
  }

  lemma {:induction false} DigitRunOfDigits(s: string)
    requires AllDigits(s)
    ensures DigitRun(s) == |s|
  {
    if s != [] { DigitRunOfDigits(s[1..]); }
  }

  /** `String(n)` for a natural number. */
  function NatToString(n: nat): (s: string)
    ensures s != [] && AllDigits(s)
  {
    if n < 10 then [DigitChar(n)] else NatToString(n / 10) + [DigitChar(n % 10)]
  }

  lemma {:induction false} DigitsValueOfNatToString(n: nat)
    ensures DigitsValue(NatToString(n)) == n
  {
    if n >= 10 {
      var s := NatToString(n);
      assert s[..|s| - 1] == NatToString(n / 10);
      DigitsValueOfNatToString(n / 10);
    }
  }

  /** A non-empty run of digits reads back as the number it writes. */
  lemma ParseIntOfDigits(s: string)
    requires s != [] && AllDigits(s)
    ensures ParseInt(s) == Some(DigitsValue(s) as int)
  {
    assert IsDigit(s[0]);
    assert TrimStart(s) == s;
    DigitRunOfDigits(s);
    assert s[..|s|] == s;
  }

  /** `Number(s)` of a non-empty run of digits is the number it writes. */
  lemma NumberOfDigits(s: string)
    requires s != [] && AllDigits(s)
    ensures ToNumber(s) == Some(DigitsValue(s) as real)
  {
    DigitRunOfDigits(s);
    TrimWithoutSpace(s);
    assert s[..|s|] == s;
    assert ScanUnsigned(s) == Some(Scan(DigitsValue(s) as real, |s|));
  }

  /** `parseInt(String(n)) === n`: the decimal rendering of a natural number reads back. */
  lemma ParseIntOfNatToString(n: nat)
    ensures ParseInt(NatToString(n)) == Some(n)
  {
    ParseIntOfDigits(NatToString(n));
    DigitsValueOfNatToString(n);
  }

  /** Distinct natural numbers render as distinct strings. */
  lemma NatToStringInjective(a: nat, b: nat)
    requires NatToString(a) == NatToString(b)
    ensures a == b
  {
    ParseIntOfNatToString(a);
    ParseIntOfNatToString(b);
  }

  // ---------------------------------------------------------------- request values

  /** `counts[key] || 0` on an object of counts: a key with no entry reads as 0 and a
      stored count reads as itself (a stored 0 stays 0). */
  function CountOr0<K>(counts: map<K, int>, key: K): (n: int)
    ensures key !in counts ==> n == 0
    ensures key in counts ==> n == counts[key]
  {
    if key in counts then counts[key] else 0
  }

  /** JavaScript truthiness of an id field: missing, `0` and `""` are falsy. */
  predicate IdTruthy(p: IdParam) {
    match p
    case Absent => false
    case IdNum(n) => n != 0
    case IdText(s) => s != []
  }

  /** The integer an id field denotes once `isNaN` has passed, as MySQL compares it
      against an integer column; None when it is NaN. A string with a fraction
      part ("1.5") is taken as not an id. */
  function IdOf(p: IdParam): (r: Option<int>)
    ensures p.IdNum? ==> r == Some(p.n)
    ensures p.Absent? ==> r.None?
  {
    match p
    case Absent => None
    case IdNum(n) => Some(n)
    case IdText(s) =>
      match ToNumber(s)
      case Some(v) => if v == v.Floor as real then Some(v.Floor) else None
      case None => None
  }

  /** `!id || isNaN(id)`, the guard the handlers use to reject an id, read through `IdOf`:
      text with a fraction part ("1.5") is rejected here although `isNaN` lets it through. */
  predicate BadId(p: IdParam) {
    !IdTruthy(p) || IdOf(p).None?
  }

  predicate Truthy(v: JsVal) {
    match v
    case Undef => false
    case Num(x) => x != 0.0
    case Str(s) => s != []
  }

  /** `Number(v)`; None is NaN. */
  function NumberOf(v: JsVal): (r: Option<real>)
    ensures v.Num? ==> r == Some(v.x)
    ensures v.Undef? ==> r.None?
  {
    match v
    case Undef => None
    case Num(x) => Some(x)
    case Str(s) => ToNumber(s)
  }

  predicate IsNaN(v: JsVal) { NumberOf(v).None? }

  /** `parseFloat(v)` of a stored value; a number reads back as itself. */
  function ParseFloatOf(v: JsVal): (r: Option<real>)
    ensures v.Num? ==> r == Some(v.x)
  {
    match v
    case Undef => None
    case Num(x) => Some(x)
    case Str(s) => ParseFloat(s)
  }

  /** `parseInt(v)` of a stored value; a number is truncated toward zero. */
  function ParseIntOf(v: JsVal): (r: Option<int>)
    ensures v.Num? && v.x >= 0.0 ==> r == Some(v.x.Floor)
  {
    match v
    case Undef => None
    case Num(x) => Some(if x >= 0.0 then x.Floor else -((-x).Floor))
    case Str(s) => ParseInt(s)
  }
}
