/** Decimal integer text, as read by Go's strconv.Atoi / strconv.ParseInt(s, 10, 64)
    on the server and as written for integer query parameters and `%d`
    messages. */
module Decimal {
  import opened Common

  const MinInt64: int := -0x8000_0000_0000_0000
  const MaxInt64: int := 0x7fff_ffff_ffff_ffff

  predicate IsDigit(c: char) {
    '0' <= c <= '9'
  }

  predicate AllDigits(s: string) {
    forall i :: 0 <= i < |s| ==> IsDigit(s[i])
  }

  /** The value of a string of decimal digits (the empty string is 0). */
  function DigitsValue(s: string): nat
    requires AllDigits(s)
  {
    if s == [] then 0
    else DigitsValue(s[..|s| - 1]) * 10 + (s[|s| - 1] as int - '0' as int)
  }

  /** An optional sign followed by at least one digit. */
  predicate WellFormed(s: string) {
    if |s| > 0 && (s[0] == '+' || s[0] == '-') then |s| > 1 && AllDigits(s[1..])
    else |s| > 0 && AllDigits(s)
  }

  /** The integer `s` denotes, ignoring the 64-bit range. */
  function Value(s: string): int
    requires WellFormed(s)
  {
    if s[0] == '-' then -(DigitsValue(s[1..]) as int)
    else if s[0] == '+' then DigitsValue(s[1..])
    else DigitsValue(s)
  }

  /** strconv.ParseInt(s, 10, 64), and strconv.Atoi on a 64-bit platform:
      a syntax error (the empty string included) and a value outside int64 are
      both errors. */
  function ParseInt(s: string): (r: Option<int>)
    ensures r.Some? ==> MinInt64 <= r.value <= MaxInt64
  {
    if WellFormed(s) && MinInt64 <= Value(s) <= MaxInt64 then Some(Value(s)) else None
  }

  function DigitChar(d: nat): (c: char)
    requires d < 10
    ensures IsDigit(c) && c as int - '0' as int == d
  {
    ('0' as int + d) as char
  }

  /** The shortest decimal spelling of a natural number. */
  function FormatNat(n: nat): (s: string)
    ensures |s| > 0 && AllDigits(s)
  {
    if n < 10 then [DigitChar(n)] else FormatNat(n / 10) + [DigitChar(n % 10)]
  }

  /** How an integer is written as text: a query-string number, or Go's `%d`. */
  function Format(n: int): (s: string)
    ensures WellFormed(s)
  {
    if n < 0 then "-" + FormatNat(-n) else FormatNat(n)
  }

  lemma {:induction false} FormatNatValue(n: nat)
    ensures DigitsValue(FormatNat(n)) == n
  {
    if n >= 10 {
      var s := FormatNat(n);
      assert s[..|s| - 1] == FormatNat(n / 10);
      FormatNatValue(n / 10);
    }
  }

  /** Writing an int64 and reading it back gives the same number. */
  lemma ParseFormat(n: int)
    requires MinInt64 <= n <= MaxInt64
    ensures ParseInt(Format(n)) == Some(n)
  {
    var s := Format(n);
    if n < 0 {
      assert s[0] == '-' && s[1..] == FormatNat(-n);
      FormatNatValue(-n);
      assert Value(s) == n;
    } else {
      assert s == FormatNat(n) && s[0] != '-' && s[0] != '+';
      FormatNatValue(n);
      assert Value(s) == n;
    }
  }
}
