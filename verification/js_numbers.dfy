/**
 * The two JavaScript string-to-number conversions the core uses, `Number(s)`
 * and `parseInt(s, 10)`, and the decimal rendering of an integer used when
 * line numbers are written into messages.
 */
module JsNumbers {
  import opened Wrappers
  import opened Strings

  /** A JavaScript number as the core observes it: NaN, or an integer value. */
  datatype JsNum = NaN | Num(value: int)

  predicate IsDigit(c: char) {
    '0' <= c <= '9'
  }

  predicate AllDigits(s: string) {
    forall i :: 0 <= i < |s| ==> IsDigit(s[i])
  }

  /** The value of a decimal digit string, most significant digit first. */
  function DigitsValue(s: string): nat
    requires AllDigits(s)
    decreases |s|
  {
    if |s| == 0 then 0 else DigitsValue(s[..|s| - 1]) * 10 + (s[|s| - 1] as int - '0' as int)
  }

  /** The longest prefix of `s` made of decimal digits. */
  function LeadingDigits(s: string): (r: string)
    ensures AllDigits(r) && StartsWith(s, r)
    ensures |r| == |s| || !IsDigit(s[|r|])
    decreases |s|
  {
    if |s| > 0 && IsDigit(s[0]) then [s[0]] + LeadingDigits(s[1..]) else ""
  }

  /** The part of `t` after an optional leading sign character. */
  function Unsigned(t: string): string {
    if |t| > 0 && (t[0] == '-' || t[0] == '+') then t[1..] else t
  }

  /**
   * `parseInt(s, 10)`: leading whitespace is skipped, one sign is accepted,
   * then the longest run of digits is read; None stands for NaN (no digits).
   */
  function ParseInt(s: string): Option<int> {
    var t := TrimStart(s);
    var digits := LeadingDigits(Unsigned(t));
    var magnitude: int := if digits == "" then 0 else DigitsValue(digits);
    if digits == "" then None
    else if t[0] == '-' then Some(-magnitude)
    else Some(magnitude)
  }

  /**
   * `Number(s)` for the integer forms: surrounding whitespace is ignored, the
   * blank string is 0, an optionally signed run of digits is its value, and
   * every other string is NaN.
   */
  function ToNumber(s: string): JsNum {
    var t := Trim(s);
    var body := Unsigned(t);
    var magnitude: int := if AllDigits(body) then DigitsValue(body) else 0;
    if t == "" then Num(0)
    else if body == "" || !AllDigits(body) then NaN
    else if t[0] == '-' then Num(-magnitude)
    else Num(magnitude)
  }

  function DigitChar(d: nat): char
    requires d < 10
  {
    ('0' as int + d) as char
  }

  /** Decimal rendering of a natural number, without leading zeros. */
  function NatToString(n: nat): (r: string)
    ensures |r| >= 1 && AllDigits(r)
    ensures |r| > 1 ==> r[0] != '0'
    decreases n
  {
    if n < 10 then [DigitChar(n)] else NatToString(n / 10) + [DigitChar(n % 10)]
  }

  /** JavaScript's `String(n)` for an integer-valued number. */
  function IntToString(n: int): string {
    if n < 0 then "-" + NatToString(-n) else NatToString(n)
  }

  /** Reading back the decimal rendering of `n` gives `n`. */
  lemma {:induction false} NatToStringValue(n: nat)
    ensures DigitsValue(NatToString(n)) == n
    decreases n
  {
    if n >= 10 {
      NatToStringValue(n / 10);
      var r := NatToString(n);
      assert r[..|r| - 1] == NatToString(n / 10);
    }
  }

  lemma {:induction false} LeadingDigitsAll(s: string)
    requires AllDigits(s)
    ensures LeadingDigits(s) == s
    decreases |s|
  {
    if |s| > 0 {
      LeadingDigitsAll(s[1..]);
    }
  }

  /** Signs are stripped once, and a digit string carries none. */
  lemma UnsignedDigits(d: string)
    requires |d| > 0 && AllDigits(d)
    ensures Unsigned(d) == d && Unsigned("-" + d) == d
    ensures !IsWhitespace(d[0]) && !IsWhitespace(d[|d| - 1])
    ensures ("-" + d)[|d|] == d[|d| - 1]
  {
    assert IsDigit(d[0]) && IsDigit(d[|d| - 1]);
    assert ("-" + d)[1..] == d;
  }

  /** `parseInt` reads a digit string as its value. */
  lemma ParseIntDigits(d: string)
    requires |d| > 0 && AllDigits(d)
    ensures ParseInt(d) == Some(DigitsValue(d))
  {
    LeadingDigitsAll(d);
    UnsignedDigits(d);
    TrimStartNoop(d);
  }

  /** `parseInt` reads a negated digit string as the negated value. */
  lemma ParseIntNegatedDigits(d: string)
    requires |d| > 0 && AllDigits(d)
    ensures ParseInt("-" + d) == Some(-(DigitsValue(d) as int))
  {
    LeadingDigitsAll(d);
    UnsignedDigits(d);
    TrimStartNoop("-" + d);
  }

  /** `Number` reads a digit string as its value. */
  lemma ToNumberDigits(d: string)
    requires |d| > 0 && AllDigits(d)
    ensures ToNumber(d) == Num(DigitsValue(d))
  {
    UnsignedDigits(d);
    TrimNoop(d);
  }

  /** `Number` reads a negated digit string as the negated value. */
  lemma ToNumberNegatedDigits(d: string)
    requires |d| > 0 && AllDigits(d)
    ensures ToNumber("-" + d) == Num(-(DigitsValue(d) as int))
  {
    UnsignedDigits(d);
    TrimNoop("-" + d);
  }

  /** `parseInt` inverts the decimal rendering of every integer. */
  lemma ParseIntIntToString(n: int)
    ensures ParseInt(IntToString(n)) == Some(n)
  {
    var m: nat := if n < 0 then -n else n;
    NatToStringValue(m);
    if n < 0 {
      ParseIntNegatedDigits(NatToString(m));
    } else {
      ParseIntDigits(NatToString(m));
    }
  }

  /** `Number` inverts the decimal rendering of every integer. */
  lemma ToNumberIntToString(n: int)
    ensures ToNumber(IntToString(n)) == Num(n)
  {
    var m: nat := if n < 0 then -n else n;
    NatToStringValue(m);
    if n < 0 {
      ToNumberNegatedDigits(NatToString(m));
    } else {
      ToNumberDigits(NatToString(m));
    }
  }
}
