/** Signed decimal text: what `%ld` prints and what `atol` reads back from a checked string. */
module DecimalText {

  predicate IsDigit(c: char)
  {
    '0' <= c <= '9'
  }

  predicate AllDigits(s: seq<char>)
  {
    forall i :: 0 <= i < |s| ==> IsDigit(s[i])
  }

  function DigitChar(d: nat): (c: char)
    requires d < 10
    ensures IsDigit(c)
  {
    (('0' as int) + d) as char
  }

  function DigitValue(c: char): (d: nat)
    requires IsDigit(c)
    ensures d < 10 && DigitChar(d) == c
  {
    (c as int) - ('0' as int)
  }

  function Pow10(k: nat): (p: int)
    ensures p >= 1
  {
    if k == 0 then 1 else 10 * Pow10(k - 1)
  }

  /** The digits of `n`, most significant first, without leading zeros. */
  function Digits(n: nat): (s: seq<char>)
    ensures |s| >= 1 && AllDigits(s)
  {
    if n < 10 then [DigitChar(n)] else Digits(n / 10) + [DigitChar(n % 10)]
  }

  /** The value of a digit string read most significant digit first. */
  function DigitsValue(s: seq<char>): (v: int)
    requires AllDigits(s)
    ensures v >= 0
  {
    if s == [] then 0 else DigitsValue(s[..|s| - 1]) * 10 + DigitValue(s[|s| - 1])
  }

  /** What getarg_num accepts: every character a digit, except a `-` in first position. */
  predicate NumberText(t: seq<char>)
  {
    forall i :: 0 <= i < |t| ==> IsDigit(t[i]) || (i == 0 && t[i] == '-')
  }

  /** `%ld`: a `-` for a negative value, then the digits of the magnitude. */
  function DecText(v: int): (t: seq<char>)
    ensures |t| >= 1 && NumberText(t)
    ensures '&' !in t && '=' !in t && '\0' !in t
  {
    if v < 0 then ['-'] + Digits(-v) else Digits(v)
  }

  /** `atol` on a text that passed the check: an empty text and a lone `-` both read as 0. */
  function ParseDecimal(t: seq<char>): (v: int)
    requires NumberText(t)
    ensures v < 0 ==> |t| > 1 && t[0] == '-'
    ensures (|t| == 0 || t[0] != '-') ==> v >= 0
  {
    if |t| > 0 && t[0] == '-' then -DigitsValue(t[1..]) else DigitsValue(t)
  }

  lemma {:induction false} DigitsRoundTrip(n: nat)
    ensures DigitsValue(Digits(n)) == n
  {
    if n >= 10 {
      DigitsRoundTrip(n / 10);
      var s := Digits(n);
      assert s[..|s| - 1] == Digits(n / 10);
    }
  }

  /** `atol` reads back exactly what `%ld` printed. */
  lemma DecTextRoundTrip(v: int)
    ensures ParseDecimal(DecText(v)) == v
  {
    if v < 0 {
      DigitsRoundTrip(-v);
      assert DecText(v)[1..] == Digits(-v);
    } else {
      DigitsRoundTrip(v);
    }
  }

  /** A digit string of length `k` has a value below 10^k. */
  lemma {:induction false} DigitsValueBound(s: seq<char>)
    requires AllDigits(s)
    ensures DigitsValue(s) < Pow10(|s|)
  {
    if s != [] {
      DigitsValueBound(s[..|s| - 1]);
    }
  }

  /** A value below 10^k has at most k digits. */
  lemma {:induction false} DigitsLength(n: nat, k: nat)
    requires k >= 1 && n < Pow10(k)
    ensures |Digits(n)| <= k
  {
    if n >= 10 {
      DigitsLength(n / 10, k - 1);
    }
  }

  /**
   * A checked text of at most 15 characters reads as a value above -10^14 (a `-` and at most 14
   * digits) and below 10^15; this is why the 16-byte buffer of getarg_num keeps `atol` far from
   * the range of a 64-bit long.
   */
  lemma ParseBound(t: seq<char>)
    requires NumberText(t) && |t| <= 15
    ensures -Pow10(14) < ParseDecimal(t) < Pow10(15)
  {
    if |t| > 0 && t[0] == '-' {
      DigitsValueBound(t[1..]);
      PowMonotone(|t| - 1, 14);
    } else {
      DigitsValueBound(t);
      PowMonotone(|t|, 15);
      PowMonotone(14, 15);
    }
  }

  lemma {:induction false} PowMonotone(j: nat, k: nat)
    requires j <= k
    ensures Pow10(j) <= Pow10(k)
  {
    if j < k {
      PowMonotone(j, k - 1);
    }
  }

  /** `%ld` of `v` has at most 15 characters exactly when -10^14 < v < 10^15. */
  lemma DecTextLength(v: int)
    ensures |DecText(v)| <= 15 <==> -Pow10(14) < v < Pow10(15)
  {
    var n := if v < 0 then -v else v;
    var k := if v < 0 then 14 else 15;
    if n < Pow10(k) {
      DigitsLength(n, k);
    }
    if |Digits(n)| <= k {
      DigitsValueBound(Digits(n));
      DigitsRoundTrip(n);
      PowMonotone(|Digits(n)|, k);
    }
  }
}
