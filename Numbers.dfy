/** Decimal integers as the catalogue reads and writes them: JavaScript's
    `parseInt(s)` (leading white space, an optional sign, then the leading
    decimal digits; NaN when there are none), `parseInt(s) || 0`, and the
    decimal rendering `String(n)` used in file names and joined form fields. */
module Numbers {
  import opened Common
  import opened Text

  predicate IsDigit(c: char) {
    '0' <= c <= '9'
  }

  predicate AllDigits(s: string) {
    forall k :: 0 <= k < |s| ==> IsDigit(s[k])
  }

  function DigitValue(c: char): nat
    requires IsDigit(c)
  {
    c as int - '0' as int
  }

  function DigitChar(d: nat): (c: char)
    requires d < 10
    ensures IsDigit(c) && DigitValue(c) == d
  {
    ('0' as int + d) as char
  }

  /** The value of a string of decimal digits, most significant first
      (a character that is not a digit would count as 0). */
  function DigitsValue(ds: string): nat {
    if ds == [] then 0
    else DigitsValue(ds[..|ds| - 1]) * 10 + (if IsDigit(ds[|ds| - 1]) then DigitValue(ds[|ds| - 1]) else 0)
  }

  /** The longest prefix of `s` made of decimal digits. */
  function LeadingDigits(s: string): (r: string)
    ensures |r| <= |s|
  {
    if s != [] && IsDigit(s[0]) then [s[0]] + LeadingDigits(s[1..]) else []
  }

  /** `LeadingDigits` is a prefix of digits that cannot be extended. */
  lemma {:induction false} LeadingDigitsMaximal(s: string)
    ensures AllDigits(LeadingDigits(s)) && StartsWith(s, LeadingDigits(s))
    ensures LeadingDigits(s) == s || !IsDigit(s[|LeadingDigits(s)|])
  {
    if s != [] && IsDigit(s[0]) {
      LeadingDigitsMaximal(s[1..]);
      assert s == [s[0]] + s[1..];
    }
  }

  /** `String(n)` for a natural number: decimal digits, no leading zero. */
  function NatToString(n: nat): (r: string)
    ensures |r| > 0 && AllDigits(r)
    ensures DigitsValue(r) == n
  {
    if n < 10 then [DigitChar(n)]
    else
      var p := NatToString(n / 10);
      var r := p + [DigitChar(n % 10)];
      assert r[..|r| - 1] == p;
      r
  }

  /** `String(n)` for an integer. */
  function IntToString(n: int): (r: string)
    ensures |r| > 0
    ensures n >= 0 ==> r == NatToString(n)
    ensures n < 0 ==> r == "-" + NatToString(-n)
  {
    if n < 0 then "-" + NatToString(-n) else NatToString(n)
  }

  /** `parseInt(s)` with radix 10; `None` stands for NaN. */
  function ParseInt(s: string): (r: Option<int>)
  {
    var t := TrimStart(s);
    var negative := t != [] && t[0] == '-';
    var body := if t != [] && (t[0] == '-' || t[0] == '+') then t[1..] else t;
    var ds := LeadingDigits(body);
    var magnitude: int := DigitsValue(ds);
    if ds == [] then None else Some(if negative then -magnitude else magnitude)
  }

  /** `parseInt(s) || 0`: NaN (and -0) become 0. */
  function IntOrZero(s: string): int {
    match ParseInt(s)
    case Some(n) => n
    case None => 0
  }

  /** `ParseInt` yields NaN exactly when no digit follows the white space and the optional sign. */
  lemma ParseIntNaN(s: string)
    ensures ParseInt(s) == None <==>
      var t := TrimStart(s);
      var body := if t != [] && (t[0] == '-' || t[0] == '+') then t[1..] else t;
      body == [] || !IsDigit(body[0])
  {
  }

  /** A string of digits is all leading digits. */
  lemma {:induction false} LeadingDigitsOfDigits(s: string)
    requires AllDigits(s)
    ensures LeadingDigits(s) == s
  {
    if s != [] {
      LeadingDigitsOfDigits(s[1..]);
    }
  }

  /** Round trip: `parseInt(String(n)) == n`, for every integer. */
  lemma ParseIntToString(n: int)
    ensures ParseInt(IntToString(n)) == Some(n)
    ensures IntOrZero(IntToString(n)) == n
  {
    var r := IntToString(n);
    var p := NatToString(if n < 0 then -n else n);
    LeadingDigitsOfDigits(p);
    assert !IsSpace(r[0]);
    assert TrimStart(r) == r;
    if n < 0 {
      assert r[1..] == p;
    } else {
      assert r[0] != '-' && r[0] != '+';
    }
  }

  /** Distinct numbers are rendered differently. */
  lemma NatToStringInjective(a: nat, b: nat)
    requires NatToString(a) == NatToString(b)
    ensures a == b
  {
  }

  /** A rendered integer has no white space at either end and never contains a comma. */
  lemma IntToStringPlain(n: int)
    ensures Trimmed(IntToString(n))
    ensures ',' !in IntToString(n)
  {
    var r := IntToString(n);
    assert forall k :: 0 <= k < |r| ==> r[k] == '-' || IsDigit(r[k]);
  }
}
