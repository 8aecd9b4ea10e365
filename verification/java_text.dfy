/**
 * The few pieces of java.lang text handling the services rely on: how a
 * number is printed by string concatenation, `Long.parseLong`, and Apache
 * commons-lang's `StringUtils.isNumeric`. Only ASCII digits are treated as
 * digits.
 */
module JavaText {
  import opened Wrappers

  /** Bounds of a Java `long`. */
  const LongMin: int := -0x8000_0000_0000_0000
  const LongMax: int := 0x7FFF_FFFF_FFFF_FFFF

  predicate InLongRange(n: int) {
    LongMin <= n <= LongMax
  }

  predicate IsDigit(c: char) {
    '0' <= c <= '9'
  }

  predicate AllDigits(s: string) {
    forall i :: 0 <= i < |s| ==> IsDigit(s[i])
  }

  function DigitValue(c: char): (d: nat)
    requires IsDigit(c)
    ensures d < 10
  {
    (c as int) - ('0' as int)
  }

  function DigitChar(d: nat): (c: char)
    requires d < 10
    ensures IsDigit(c) && DigitValue(c) == d
  {
    ('0' as int + d) as char
  }

  /** Decimal digits of `n`, most significant first, without leading zeros. */
  function NatText(n: nat): (s: string)
    ensures |s| > 0 && AllDigits(s)
    ensures s[0] == '0' ==> n == 0
    decreases n
  {
    if n < 10 then [DigitChar(n)] else NatText(n / 10) + [DigitChar(n % 10)]
  }

  /** How Java prints an integer (`"" + n`, `Long.toString(n)`). */
  function DecimalText(n: int): (s: string)
    ensures |s| > 0
    ensures s[0] == '-' <==> n < 0
    ensures n >= 0 ==> AllDigits(s)
  {
    if n < 0 then "-" + NatText(-n) else NatText(n)
  }

  /** How Java string concatenation prints a possibly-null string. */
  function NullableText(s: Option<string>): string {
    match s
    case None => "null"
    case Some(t) => t
  }

  /** The value of a run of decimal digits, with no width limit. */
  function DigitsValue(s: string): nat
    requires AllDigits(s)
  {
    if |s| == 0 then 0 else DigitsValue(s[..|s| - 1]) * 10 + DigitValue(s[|s| - 1])
  }

  function Pow10(k: nat): (p: nat)
    ensures p >= 1
  {
    if k == 0 then 1 else 10 * Pow10(k - 1)
  }

  /**
   * `Long.parseLong(s)`: an optional `-` or `+` followed by one or more
   * digits whose signed value fits in a `long`. A null string, an empty
   * string, a lone sign, any other character or an out-of-range value throw
   * `NumberFormatException`, which is `None` here.
   */
  function ParseLong(s: Option<string>): (r: Option<int>)
    ensures r.Some? ==> InLongRange(r.value)
    ensures r.Some? ==> s.Some? && |s.value| > 0
  {
    match s
    case None => None
    case Some(t) =>
      if |t| == 0 then None
      else
        var negative := t[0] == '-';
        var digits := if t[0] == '-' || t[0] == '+' then t[1..] else t;
        if |digits| == 0 || !AllDigits(digits) then None
        else
          var v: int := if negative then -(DigitsValue(digits) as int) else DigitsValue(digits);
          if InLongRange(v) then Some(v) else None
  }

  /**
   * Apache commons-lang `StringUtils.isNumeric`: a non-null, non-empty string
   * made of digits only. No sign is accepted and there is no width limit.
   */
  predicate CommonsIsNumeric(s: Option<string>) {
    s.Some? && |s.value| > 0 && AllDigits(s.value)
  }

  lemma {:induction false} DigitsValueOfAppend(s: string, c: char)
    requires AllDigits(s) && IsDigit(c)
    ensures AllDigits(s + [c])
    ensures DigitsValue(s + [c]) == DigitsValue(s) * 10 + DigitValue(c)
  {
    assert (s + [c])[..|s + [c]| - 1] == s;
  }

  /** Reading back the digits `NatText` prints gives the number printed. */
  lemma {:induction false} NatTextRoundTrip(n: nat)
    ensures DigitsValue(NatText(n)) == n
    decreases n
  {
    if n >= 10 {
      NatTextRoundTrip(n / 10);
      DigitsValueOfAppend(NatText(n / 10), DigitChar(n % 10));
    }
  }

  /** A run of `k` digits is worth less than `10^k`. */
  lemma {:induction false} DigitsValueBound(s: string)
    requires AllDigits(s)
    ensures DigitsValue(s) < Pow10(|s|)
    decreases |s|
  {
    if |s| > 0 {
      DigitsValueBound(s[..|s| - 1]);
    }
  }

  /** `Long.parseLong` reads back every `long` Java prints. */
  lemma ParseLongOfDecimalText(n: int)
    requires InLongRange(n)
    ensures ParseLong(Some(DecimalText(n))) == Some(n)
  {
    if n < 0 {
      NatTextRoundTrip(-n);
      assert DecimalText(n)[1..] == NatText(-n);
    } else {
      NatTextRoundTrip(n);
    }
  }

  /** Distinct integers print as distinct texts. */
  lemma DecimalTextInjective(a: int, b: int)
    requires DecimalText(a) == DecimalText(b)
    ensures a == b
  {
    if a < 0 {
      assert DecimalText(a)[1..] == NatText(-a);
      assert DecimalText(b)[1..] == NatText(-b);
      NatTextRoundTrip(-a);
      NatTextRoundTrip(-b);
    } else {
      NatTextRoundTrip(a);
      NatTextRoundTrip(b);
    }
  }

  /**
   * On digit strings of at most 18 characters the two numeric tests agree;
   * beyond that, or with a sign, they part ways.
   */
  lemma ShortDigitRunsAreLongs(s: string)
    requires CommonsIsNumeric(Some(s)) && |s| <= 18
    ensures ParseLong(Some(s)) == Some(DigitsValue(s))
  {
    DigitsValueBound(s);
    PowMonotone(|s|, 18);
    Pow10Eighteen();
  }

  lemma Pow10Eighteen()
    ensures Pow10(18) == 1_000_000_000_000_000_000
  {
    assert Pow10(2) == 100;
    assert Pow10(6) == 1_000_000;
    assert Pow10(12) == 1_000_000_000_000;
  }

  lemma {:induction false} PowMonotone(i: nat, j: nat)
    requires i <= j
    ensures Pow10(i) <= Pow10(j)
    decreases j - i
  {
    if i < j {
      PowMonotone(i + 1, j);
    }
  }

  /** A leading sign is enough for the two tests to disagree. */
  lemma SignedLongIsNotCommonsNumeric(n: int)
    requires InLongRange(n) && n < 0
    ensures ParseLong(Some(DecimalText(n))).Some?
    ensures !CommonsIsNumeric(Some(DecimalText(n)))
  {
    ParseLongOfDecimalText(n);
  }
}
