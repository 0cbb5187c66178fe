/** Character-level helpers shared by the date and URL parsers. */
module Text {

  /** The longest prefix of `s` holding none of the characters in `stops`. */
  function UpTo(s: string, stops: set<char>): (r: string)
    ensures r <= s
    ensures forall i :: 0 <= i < |r| ==> r[i] !in stops
    ensures |r| < |s| ==> s[|r|] in stops
  {
    if s == [] || s[0] in stops then [] else [s[0]] + UpTo(s[1..], stops)
  }

  /** A prefix that already contains no stop character is read past unchanged. */
  lemma {:induction false} UpToAppend(s: string, t: string, stops: set<char>)
    requires forall i :: 0 <= i < |s| ==> s[i] !in stops
    ensures UpTo(s + t, stops) == s + UpTo(t, stops)
  {
    if s == [] {
      assert s + t == t;
    } else {
      assert (s + t)[0] == s[0];
      assert (s + t)[1..] == s[1..] + t;
      UpToAppend(s[1..], t, stops);
      assert s == [s[0]] + s[1..];
    }
  }

  predicate IsDigit(c: char) {
    '0' <= c <= '9'
  }

  predicate AllDigits(s: string) {
    forall i :: 0 <= i < |s| ==> IsDigit(s[i])
  }

  function DigitValue(c: char): (n: nat)
    requires IsDigit(c)
    ensures n < 10
  {
    c as int - '0' as int
  }

  function DigitChar(n: nat): (c: char)
    requires n < 10
    ensures IsDigit(c) && DigitValue(c) == n
  {
    ('0' as int + n) as char
  }

  function Pow10(n: nat): (p: nat)
    ensures p >= 1
  {
    if n == 0 then 1 else 10 * Pow10(n - 1)
  }

  /** The number a string of decimal digits denotes (leading zeros allowed). */
  function DecimalValue(s: string): (n: nat)
    requires AllDigits(s)
    ensures n < Pow10(|s|)
  {
    if s == [] then 0 else DecimalValue(s[..|s| - 1]) * 10 + DigitValue(s[|s| - 1])
  }

  /** `n` written with exactly `width` decimal digits, zero-padded on the left. */
  function Decimal(n: nat, width: nat): (s: string)
    ensures |s| == width && AllDigits(s)
  {
    if width == 0 then [] else Decimal(n / 10, width - 1) + [DigitChar(n % 10)]
  }

  /** Reading back a padded decimal gives the number, when it fits the width. */
  lemma {:induction false} DecimalRoundTrip(n: nat, width: nat)
    requires n < Pow10(width)
    ensures DecimalValue(Decimal(n, width)) == n
  {
    if width > 0 {
      var s := Decimal(n / 10, width - 1);
      DecimalRoundTrip(n / 10, width - 1);
      assert Decimal(n, width)[..width - 1] == s;
    }
  }

  /** Writing back the value of a digit string gives the same string. */
  lemma {:induction false} DigitsRoundTrip(s: string)
    requires AllDigits(s)
    ensures Decimal(DecimalValue(s), |s|) == s
  {
    if s != [] {
      var init, last := s[..|s| - 1], s[|s| - 1];
      DigitsRoundTrip(init);
      var a, v := DecimalValue(init), DigitValue(last);
      var n := DecimalValue(s);
      assert n == a * 10 + v;
      SplitLastDigit(a, v);
      assert Decimal(n, |s|) == Decimal(n / 10, |s| - 1) + [DigitChar(n % 10)];
      assert Decimal(n / 10, |s| - 1) == init;
      assert DigitChar(v) == last;
      assert s == init + [last];
    }
  }

  lemma SplitLastDigit(a: nat, v: nat)
    requires v < 10
    ensures (a * 10 + v) / 10 == a && (a * 10 + v) % 10 == v
  {
  }
}
