/**
  The few java.lang.String and java.lang.Long operations the core relies on:
  equalsIgnoreCase, String.valueOf(long), Long.parseLong and substring-based truncation.
  Characters are compared with ASCII case folding.
*/
module Text {
  import opened Wrappers

  const MinLong: int := -0x8000_0000_0000_0000
  const MaxLong: int := 0x7FFF_FFFF_FFFF_FFFF

  /** Maps 'A'..'Z' to 'a'..'z' and leaves every other character alone. */
  function Lower(c: char): char
  {
    if 'A' <= c <= 'Z' then (c as int + 32) as char else c
  }

  /** String.equalsIgnoreCase on two non-null strings. */
  function EqualsIgnoreCase(a: string, b: string): (r: bool)
    ensures r <==> |a| == |b| && forall i :: 0 <= i < |a| ==> Lower(a[i]) == Lower(b[i])
  {
    if |a| != |b| then false
    else if |a| == 0 then true
    else Lower(a[0]) == Lower(b[0]) && EqualsIgnoreCase(a[1..], b[1..])
  }

  /** `x.equalsIgnoreCase(y)` where `x` is non-null and `y` may be null. */
  function EqualsIgnoreCaseNullable(a: string, b: Option<string>): (r: bool)
    ensures r <==> b.Some? && EqualsIgnoreCase(a, b.value)
  {
    match b
    case None => false
    case Some(s) => EqualsIgnoreCase(a, s)
  }

  lemma EqualsIgnoreCaseReflexive(a: string)
    ensures EqualsIgnoreCase(a, a)
  {
  }

  lemma EqualsIgnoreCaseSymmetric(a: string, b: string)
    ensures EqualsIgnoreCase(a, b) <==> EqualsIgnoreCase(b, a)
  {
  }

  // ---------------------------------------------------------------
  // Decimal rendering and parsing of longs
  // ---------------------------------------------------------------

  predicate IsDigit(c: char)
  {
    '0' <= c <= '9'
  }

  function DigitChar(d: nat): (c: char)
    requires d < 10
    ensures IsDigit(c) && c as int - '0' as int == d
  {
    ('0' as int + d) as char
  }

  /** The decimal digits of a natural number, most significant first, without leading zeros. */
  function Digits(n: nat): (s: string)
    ensures |s| > 0 && forall i :: 0 <= i < |s| ==> IsDigit(s[i])
    decreases n
  {
    if n < 10 then [DigitChar(n)] else Digits(n / 10) + [DigitChar(n % 10)]
  }

  /** String.valueOf(long). */
  function DecimalString(n: int): (s: string)
    ensures |s| > 0
    ensures n >= 0 ==> s == Digits(n)
    ensures n < 0 ==> s == ['-'] + Digits(-n)
  {
    if n >= 0 then Digits(n) else ['-'] + Digits(-n)
  }

  /** The value of a non-empty string of digits. */
  function DigitsValue(s: string): (v: nat)
    requires |s| > 0 && forall i :: 0 <= i < |s| ==> IsDigit(s[i])
    decreases |s|
  {
    assert IsDigit(s[|s| - 1]);
    var last: nat := s[|s| - 1] as int - '0' as int;
    if |s| == 1 then last else DigitsValue(s[..|s| - 1]) * 10 + last
  }

  predicate AllDigits(s: string)
  {
    forall i :: 0 <= i < |s| ==> IsDigit(s[i])
  }

  /**
    Long.parseLong: an optional '+' or '-' followed by at least one digit, whose value
    fits in 64 bits. Anything else (including null) raises NumberFormatException, which
    is `None` here.
  */
  function ParseLong(s: Option<string>): (r: Option<int>)
    ensures r.Some? ==> MinLong <= r.value <= MaxLong
    ensures r.Some? <==> s.Some? && LongText(s.value) && MinLong <= SignedValue(s.value) <= MaxLong
    ensures r.Some? ==> r.value == SignedValue(s.value)
  {
    match s
    case None => None
    case Some(str) =>
      if |str| == 0 then None
      else
        var negative := str[0] == '-';
        var body := if str[0] == '-' || str[0] == '+' then str[1..] else str;
        if |body| == 0 || !AllDigits(body) then None
        else
          var magnitude: int := DigitsValue(body);
          var v := if negative then -magnitude else magnitude;
          if MinLong <= v <= MaxLong then Some(v) else None
  }

  /** The text after an optional leading '+' or '-'. */
  function Unsigned(t: string): (u: string)
    ensures |t| > 0 && (t[0] == '-' || t[0] == '+') ==> u == t[1..]
    ensures |t| == 0 || (t[0] != '-' && t[0] != '+') ==> u == t
  {
    if |t| > 0 && (t[0] == '-' || t[0] == '+') then t[1..] else t
  }

  /** Text of the form Long.parseLong accepts before its range check: an optional sign, then ASCII digits. */
  predicate LongText(t: string)
  {
    |t| > 0 && |Unsigned(t)| > 0 && AllDigits(Unsigned(t))
  }

  /** The value such a text denotes, negated under a leading '-'. */
  function SignedValue(t: string): int
    requires LongText(t)
  {
    var magnitude: int := DigitsValue(Unsigned(t));
    if t[0] == '-' then -magnitude else magnitude
  }

  /** Any character other than a digit, past an optional leading sign, makes the text unparsable. */
  lemma ParseLongRejectsNonDigit(t: string, i: int)
    requires 0 <= i < |t| && !IsDigit(t[i])
    requires i == 0 ==> t[0] != '-' && t[0] != '+'
    ensures ParseLong(Some(t)) == None
  {
    if t[0] == '-' || t[0] == '+' {
      assert !IsDigit(Unsigned(t)[i - 1]);
    } else {
      assert !IsDigit(Unsigned(t)[i]);
    }
  }

  /** A leading '+' is accepted: "+" followed by the digits of n parses to n. */
  lemma ParseLongAcceptsPlus(n: nat)
    requires n <= MaxLong
    ensures ParseLong(Some(['+'] + Digits(n))) == Some(n)
  {
    DigitsRoundTrip(n);
    assert (['+'] + Digits(n))[1..] == Digits(n);
  }

  lemma {:induction false} DigitsRoundTrip(n: nat)
    ensures DigitsValue(Digits(n)) == n
    decreases n
  {
    if n >= 10 {
      DigitsRoundTrip(n / 10);
      var s := Digits(n);
      assert s[..|s| - 1] == Digits(n / 10);
    }
  }

  /** Parsing what String.valueOf printed gives the same long back. */
  lemma ParseLongOfDecimalString(n: int)
    requires MinLong <= n <= MaxLong
    ensures ParseLong(Some(DecimalString(n))) == Some(n)
  {
    var s := DecimalString(n);
    if n >= 0 {
      DigitsRoundTrip(n);
      assert s[0] != '-' && s[0] != '+';
    } else {
      DigitsRoundTrip(-n);
      assert s[1..] == Digits(-n);
    }
  }

  // ---------------------------------------------------------------
  // Truncation with substring(0, cap)
  // ---------------------------------------------------------------

  /** `s.length() > cap ? s.substring(0, cap) : s`. */
  function Truncate(s: string, cap: nat): (r: string)
    ensures |r| <= cap
    ensures r <= s
    ensures r == s <==> |s| <= cap
    ensures |s| > cap ==> |r| == cap
  {
    if |s| > cap then s[..cap] else s
  }
}
