/**
 * String operations the dashboard relies on, restricted to ASCII:
 * `trim`/`trimEnd` remove the ASCII whitespace characters, `toLowerCase`
 * folds A-Z, `includes` is substring search, and the digit helpers stand for
 * `replace(/\D/g, "")` and decimal notation.
 */
module Text {

  predicate IsSpace(c: char) {
    c == ' ' || c == '\t' || c == '\n' || c == '\r' || c == '\U{000B}' || c == '\U{000C}'
  }

  predicate IsDigit(c: char) {
    '0' <= c <= '9'
  }

  predicate AllDigits(s: string) {
    forall i :: 0 <= i < |s| ==> IsDigit(s[i])
  }

  predicate AllSpace(s: string) {
    forall i :: 0 <= i < |s| ==> IsSpace(s[i])
  }

  /** The number of whitespace characters `s` starts with. */
  function StartOfText(s: string): (b: nat)
    ensures b <= |s|
    ensures forall i :: 0 <= i < b ==> IsSpace(s[i])
    ensures b < |s| ==> !IsSpace(s[b])
  {
    if s != [] && IsSpace(s[0]) then StartOfText(s[1..]) + 1 else 0
  }

  /** The position where the whitespace that ends `s` begins. */
  function EndOfText(s: string): (e: nat)
    ensures e <= |s|
    ensures forall i :: e <= i < |s| ==> IsSpace(s[i])
    ensures e > 0 ==> !IsSpace(s[e - 1])
  {
    if s != [] && IsSpace(s[|s| - 1]) then EndOfText(s[..|s| - 1]) else |s|
  }

  /** `s.trimStart()`: drops the leading whitespace and keeps the rest as it is. */
  function TrimStart(s: string): (r: string)
    ensures |r| <= |s| && r == s[|s| - |r|..]
    ensures forall i :: 0 <= i < |s| - |r| ==> IsSpace(s[i])
    ensures r != [] ==> !IsSpace(r[0])
  {
    s[StartOfText(s)..]
  }

  /** `s.trimEnd()`: drops the trailing whitespace and keeps the rest as it is. */
  function TrimEnd(s: string): (r: string)
    ensures |r| <= |s| && r == s[..|r|]
    ensures forall i :: |r| <= i < |s| ==> IsSpace(s[i])
    ensures r != [] ==> !IsSpace(r[|r| - 1])
  {
    s[..EndOfText(s)]
  }

  /** `s.trim()`: `TrimEnd`, then `TrimStart`, so a contiguous piece of `s` with no whitespace at either end. */
  function Trim(s: string): (r: string)
    ensures |r| <= |s|
    ensures IsTrimmed(r)
    ensures r == [] <==> AllSpace(s)
  {
    TrimEnds(s);
    TrimStart(TrimEnd(s))
  }

  /** Trimming the end, then the start, leaves no whitespace at either end, and nothing only for blank text. */
  lemma TrimEnds(s: string)
    ensures IsTrimmed(TrimStart(TrimEnd(s)))
    ensures TrimStart(TrimEnd(s)) == [] <==> AllSpace(s)
  {
    var e := EndOfText(s);
    var t := s[..e];
    var b := StartOfText(t);
    var r := t[b..];
    assert TrimStart(TrimEnd(s)) == r;
    if r != [] {
      assert r[0] == t[b];
      assert r[|r| - 1] == s[e - 1];
      assert !IsSpace(s[e - 1]);
    } else {
      assert e == 0;
    }
  }

  /** A string of digits has no whitespace to trim. */
  lemma DigitsAreTrimmed(s: string)
    ensures AllDigits(s) ==> Trim(s) == s
  {
    if AllDigits(s) && s != [] {
      assert IsDigit(s[0]) && IsDigit(s[|s| - 1]);
      TrimOfTrimmed(s);
    }
  }

  /** Neither end of `s` is whitespace. */
  predicate IsTrimmed(s: string) {
    s == [] || (!IsSpace(s[0]) && !IsSpace(s[|s| - 1]))
  }

  /** The strings `trim` leaves alone are exactly those with no whitespace at either end. */
  lemma TrimOfTrimmed(s: string)
    ensures Trim(s) == s <==> IsTrimmed(s)
  {
  }

  lemma TrimIdempotent(s: string)
    ensures Trim(Trim(s)) == Trim(s)
  {
    TrimOfTrimmed(Trim(s));
  }

  function LowerChar(c: char): (r: char)
    ensures 'A' <= c <= 'Z' ==> r as int == c as int + 32
    ensures !('A' <= c <= 'Z') ==> r == c
  {
    if 'A' <= c <= 'Z' then (c as int + 32) as char else c
  }

  /** `s.toLowerCase()` restricted to ASCII letters. */
  function ToLower(s: string): (r: string)
    ensures |r| == |s|
    ensures forall i :: 0 <= i < |s| ==> r[i] == LowerChar(s[i])
  {
    seq(|s|, i requires 0 <= i < |s| => LowerChar(s[i]))
  }

  predicate StartsWith(s: string, prefix: string) {
    |prefix| <= |s| && s[..|prefix|] == prefix
  }

  /** Some window of `hay` spells `needle`. */
  ghost predicate OccursAt(hay: string, needle: string, i: int) {
    0 <= i && i + |needle| <= |hay| && hay[i..i + |needle|] == needle
  }

  /** `hay.includes(needle)`, by trying each start position in turn. */
  function Contains(hay: string, needle: string): (r: bool)
    ensures r <==> exists i :: OccursAt(hay, needle, i)
    decreases |hay|
  {
    if StartsWith(hay, needle) then
      assert OccursAt(hay, needle, 0);
      true
    else if hay == [] then
      assert forall i :: !OccursAt(hay, needle, i);
      false
    else
      var r := Contains(hay[1..], needle);
      assert r ==> exists i :: OccursAt(hay, needle, i) by {
        if r {
          var i :| OccursAt(hay[1..], needle, i);
          assert hay[1..][i..i + |needle|] == hay[i + 1..i + 1 + |needle|];
          assert OccursAt(hay, needle, i + 1);
        }
      }
      assert (exists i :: OccursAt(hay, needle, i)) ==> r by {
        if exists i :: OccursAt(hay, needle, i) {
          var i :| OccursAt(hay, needle, i);
          assert i != 0;
          assert hay[1..][i - 1..i - 1 + |needle|] == hay[i..i + |needle|];
          assert OccursAt(hay[1..], needle, i - 1);
        }
      }
      r
  }

  /** Searching for a one-character string is membership of that character. */
  lemma ContainsChar(s: string, c: char)
    ensures Contains(s, [c]) <==> c in s
  {
    if c in s {
      var i :| 0 <= i < |s| && s[i] == c;
      assert OccursAt(s, [c], i);
    }
    if Contains(s, [c]) {
      var i :| OccursAt(s, [c], i);
      assert s[i] == s[i..i + 1][0];
    }
  }

  /** `s.replace(/\D/g, "")`: the digits of `s`, in order. */
  function Digits(s: string): (r: string)
    ensures AllDigits(r) && |r| <= |s|
  {
    if s == [] then []
    else if IsDigit(s[0]) then [s[0]] + Digits(s[1..])
    else Digits(s[1..])
  }

  lemma {:induction false} DigitsAppend(a: string, b: string)
    ensures Digits(a + b) == Digits(a) + Digits(b)
  {
    if a != [] {
      assert (a + b)[1..] == a[1..] + b;
      DigitsAppend(a[1..], b);
    } else {
      assert a + b == b;
    }
  }

  lemma DigitsDropNonDigit(a: string, b: string, c: char)
    requires !IsDigit(c)
    ensures Digits(a + [c] + b) == Digits(a + b)
  {
    DigitsAppend(a + [c], b);
    DigitsAppend(a, [c]);
    DigitsAppend(a, b);
    assert Digits([c]) == [];
  }

  /** `s.replace(/[$,]/g, "")`: every '$' and ',' removed, the rest kept in order. */
  function StripCurrency(s: string): (r: string)
    ensures |r| <= |s|
    ensures forall i :: 0 <= i < |r| ==> r[i] != '$' && r[i] != ','
  {
    if s == [] then []
    else if s[0] == '$' || s[0] == ',' then StripCurrency(s[1..])
    else [s[0]] + StripCurrency(s[1..])
  }

  lemma {:induction false} StripCurrencyAppend(a: string, b: string)
    ensures StripCurrency(a + b) == StripCurrency(a) + StripCurrency(b)
  {
    if a != [] {
      assert (a + b)[1..] == a[1..] + b;
      StripCurrencyAppend(a[1..], b);
    } else {
      assert a + b == b;
    }
  }

  lemma StripCurrencyDropsSeparator(a: string, b: string, sep: char)
    requires sep == '$' || sep == ','
    ensures StripCurrency(a + [sep] + b) == StripCurrency(a + b)
  {
    StripCurrencyAppend(a + [sep], b);
    StripCurrencyAppend(a, [sep]);
    StripCurrencyAppend(a, b);
    assert StripCurrency([sep]) == [];
  }

  function DigitValue(c: char): (d: nat)
    requires IsDigit(c)
    ensures d < 10
  {
    c as int - '0' as int
  }

  function DigitChar(d: nat): (c: char)
    requires d < 10
    ensures IsDigit(c) && DigitValue(c) == d
  {
    ('0' as int + d) as char
  }

  /** The value of a string of decimal digits; the empty string reads as 0. */
  function DecimalValue(s: string): nat
    requires AllDigits(s)
  {
    if s == [] then 0 else DecimalValue(s[..|s| - 1]) * 10 + DigitValue(s[|s| - 1])
  }

  /** Decimal notation of a natural number, without leading zeros. */
  function NatToString(n: nat): (r: string)
    ensures r != [] && AllDigits(r)
    ensures r[0] == '0' ==> n == 0
  {
    if n < 10 then [DigitChar(n)] else NatToString(n / 10) + [DigitChar(n % 10)]
  }

  lemma {:induction false} NatToStringRoundTrip(n: nat)
    ensures DecimalValue(NatToString(n)) == n
  {
    if n >= 10 {
      NatToStringRoundTrip(n / 10);
      var s := NatToString(n);
      assert s[..|s| - 1] == NatToString(n / 10);
    }
  }

  /** Decimal notation of an integer, with a leading '-' when negative. */
  function IntToString(i: int): (r: string)
    ensures r != [] && (r[0] == '-' <==> i < 0)
  {
    if i < 0 then "-" + NatToString(-i) else NatToString(i)
  }

  lemma Regroup(a: string, b: string, c: string, t: string)
    ensures a + b + c + t == a + (b + (c + t))
  {
  }

  /** `parts.join(sep)`. */
  function Join(parts: seq<string>, sep: string): (r: string)
    ensures |parts| == 1 ==> r == parts[0]
    decreases |parts|
  {
    if parts == [] then []
    else if |parts| == 1 then parts[0]
    else parts[0] + sep + Join(parts[1..], sep)
  }
}
