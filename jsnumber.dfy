/**
 * JavaScript numbers as far as the dashboard uses them: `Number(text)` on a
 * string, `Number.isFinite`, and `String(number)`. Values are exact integers
 * or one of the two infinities or NaN.
 */
module JsNumber {
  import opened Text

  datatype Number = Finite(value: int) | Infinity(negative: bool) | NaN

  /**
   * 2^1024 - 2^970: the least magnitude that IEEE-754 double rounding sends
   * to Infinity (round-to-nearest-even, with 2^1024 counting as even).
   */
  const Overflow: int := 0xfffffffffffffc00000000000000000000000000000000000000000000000000000000000000000000000000000000000000000000000000000000000000000000000000000000000000000000000000000000000000000000000000000000000000000000000000000000000000000000000000000000000000000000000000

  /**
   * The same threshold written as 16^256 - 4 * 16^242: the largest finite
   * double, 2^1024 - 2^971, lies below it, and 2^1024 at or above.
   */
  lemma OverflowValue()
    ensures Overflow == 0x10000000000000000000000000000000000000000000000000000000000000000000000000000000000000000000000000000000000000000000000000000000000000000000000000000000000000000000000000000000000000000000000000000000000000000000000000000000000000000000000000000000000000000 - 0x400000000000000000000000000000000000000000000000000000000000000000000000000000000000000000000000000000000000000000000000000000000000000000000000000000000000000000000000000000000000000000000000000000000000000000000000000000000000000000000000000
  {
  }

  /** The number a magnitude and a sign round to. */
  function FromMagnitude(m: nat, negative: bool): (r: Number)
    ensures r.Finite? <==> m < Overflow
    ensures r.Finite? ==> r.value == (if negative then -(m as int) else m as int)
    ensures !r.Finite? ==> r == Infinity(negative)
  {
    if m >= Overflow then Infinity(negative) else Finite(if negative then -(m as int) else m as int)
  }

  /**
   * `Number(s)` for a string: surrounding whitespace is ignored, a blank
   * string is 0, an optionally signed run of decimal digits is its value
   * (or an infinity when too large), "Infinity" with an optional sign is an
   * infinity, and any other text is NaN.
   */
  function ParseNumber(s: string): (r: Number)
    ensures AllSpace(s) ==> r == Finite(0)
    ensures AllDigits(s) ==> r == FromMagnitude(DecimalValue(s), false)
  {
    DigitsAreTrimmed(s);
    var t := Trim(s);
    if AllDigits(t) then FromMagnitude(DecimalValue(t), false)
    else if t == "Infinity" || t == "+Infinity" then Infinity(false)
    else if t == "-Infinity" then Infinity(true)
    else if |t| >= 2 && (t[0] == '+' || t[0] == '-') && AllDigits(t[1..]) then
      FromMagnitude(DecimalValue(t[1..]), t[0] == '-')
    else NaN
  }

  /** `String(n)` for a number (plain decimal notation for finite values). */
  function NumberToString(n: Number): (r: string)
    ensures r != []
    ensures n.Finite? ==> AllDigits(r) || (r[0] == '-' && AllDigits(r[1..]))
  {
    match n
    case Finite(v) => IntToString(v)
    case Infinity(negative) => if negative then "-Infinity" else "Infinity"
    case NaN => "NaN"
  }

  /** Trimmed text that is a '-' followed by digits takes the signed branch of `Number`. */
  lemma ParseSignedBranch(t: string)
    requires Trim(t) == t && |t| >= 2 && t[0] == '-' && AllDigits(t[1..])
    ensures ParseNumber(t) == FromMagnitude(DecimalValue(t[1..]), true)
  {
    assert !AllDigits(t) by { assert !IsDigit(t[0]); }
    assert t != "Infinity" && t != "+Infinity" by { assert t[0] == '-'; }
    assert t != "-Infinity" by { assert IsDigit(t[1]); }
  }

  /** A '-' followed by digits reads as the negated value of the digits. */
  lemma ParseNegative(d: string)
    requires d != [] && AllDigits(d)
    ensures ParseNumber("-" + d) == FromMagnitude(DecimalValue(d), true)
  {
    var s := "-" + d;
    assert s[1..] == d;
    assert IsTrimmed(s) by { assert IsDigit(s[|s| - 1]); }
    TrimOfTrimmed(s);
    ParseSignedBranch(s);
  }

  /** A word such as "Infinity" or "NaN" is left alone by `trim` and is not a digit string. */
  lemma ParseWord(s: string)
    requires s != [] && IsTrimmed(s) && !IsDigit(s[|s| - 1])
    ensures Trim(s) == s && !AllDigits(s)
  {
    TrimOfTrimmed(s);
  }

  /** "Infinity" and "-Infinity" read back as the infinities they name. */
  lemma InfinityRoundTrip(negative: bool)
    ensures ParseNumber(NumberToString(Infinity(negative))) == Infinity(negative)
  {
    var w := NumberToString(Infinity(negative));
    assert w[0] == (if negative then '-' else 'I') && w[|w| - 1] == 'y';
    ParseWord(w);
  }

  /** "NaN" reads back as NaN. */
  lemma NaNRoundTrip()
    ensures ParseNumber(NumberToString(NaN)) == NaN
  {
    var w := NumberToString(NaN);
    assert w[0] == 'N' && w[|w| - 1] == 'N';
    ParseWord(w);
  }

  /** The decimal text of an integer reads back as that integer, rounded to an infinity when too large. */
  lemma FiniteRoundTrip(v: int)
    ensures ParseNumber(NumberToString(Finite(v))) == FromMagnitude(if v < 0 then -v else v, v < 0)
  {
    if v >= 0 {
      NatToStringRoundTrip(v);
    } else {
      NatToStringRoundTrip(-v);
      ParseNegative(NatToString(-v));
    }
  }

  /**
   * Reading back what `String` wrote gives the same number; a finite value
   * at or beyond the overflow threshold, which no double holds, reads back as
   * the infinity of its sign.
   */
  lemma NumberRoundTrip(n: Number)
    ensures (n.Finite? ==> -Overflow < n.value < Overflow) ==> ParseNumber(NumberToString(n)) == n
    ensures n.Finite? && !(-Overflow < n.value < Overflow) ==> ParseNumber(NumberToString(n)) == Infinity(n.value < 0)
  {
    match n
    case Finite(v) =>
      FiniteRoundTrip(v);
    case Infinity(negative) =>
      InfinityRoundTrip(negative);
    case NaN =>
      NaNRoundTrip();
  }
}
