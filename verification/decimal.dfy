/** Decimal rendering of integers the way Go's `%d` verb prints an `int`:
    an optional minus sign followed by the shortest digit string. A parser is
    defined alongside it so that "the rendering loses no information" can be
    stated as a round trip. */
module Decimal {

  predicate IsDigit(c: char) {
    '0' <= c <= '9'
  }

  predicate AllDigits(s: string) {
    forall i :: 0 <= i < |s| ==> IsDigit(s[i])
  }

  /** A string `%d` can produce: digits, optionally after one leading '-'. */
  predicate WellFormed(s: string) {
    && |s| > 0
    && if s[0] == '-' then |s| > 1 && AllDigits(s[1..]) else AllDigits(s)
  }

  /** The digits of a well-formed string, after the sign if there is one. */
  function Magnitude(s: string): (d: string)
    requires WellFormed(s)
    ensures |d| > 0 && AllDigits(d)
  {
    if s[0] == '-' then s[1..] else s
  }

  /** Exactly the strings `%d` produces: well formed, no leading zero, and no
      "-0". */
  predicate Canonical(s: string) {
    && WellFormed(s)
    && (|Magnitude(s)| > 1 ==> Magnitude(s)[0] != '0')
    && (s[0] == '-' ==> Magnitude(s) != "0")
  }

  function DigitChar(d: nat): (c: char)
    requires d < 10
    ensures IsDigit(c)
  {
    (d + '0' as int) as char
  }

  function DigitValue(c: char): (d: nat)
    requires IsDigit(c)
    ensures d < 10
  {
    c as int - '0' as int
  }

  /** The shortest decimal spelling of `n`. */
  function NatToString(n: nat): (s: string)
    ensures |s| > 0 && AllDigits(s)
    ensures |s| > 1 ==> s[0] != '0'
    decreases n
  {
    if n < 10 then [DigitChar(n)] else NatToString(n / 10) + [DigitChar(n % 10)]
  }

  function ParseNat(s: string): (n: nat)
    requires AllDigits(s)
  {
    if |s| == 0 then 0 else ParseNat(s[..|s| - 1]) * 10 + DigitValue(s[|s| - 1])
  }

  /** What `fmt.Sprintf("%d", n)` yields. */
  function IntToString(n: int): (s: string)
    ensures Canonical(s)
    ensures s[0] == '-' <==> n < 0
  {
    if n < 0 then
      var s := "-" + NatToString(-n);
      assert Magnitude(s) == NatToString(-n);
      assert NatToString(-n) != "0" by {
        ParseNatToString(-n);
      }
      s
    else NatToString(n)
  }

  function ParseInt(s: string): (n: int)
    requires WellFormed(s)
  {
    if s[0] == '-' then -(ParseNat(s[1..]) as int) else ParseNat(s)
  }

  lemma {:induction false} ParseNatToString(n: nat)
    ensures ParseNat(NatToString(n)) == n
    decreases n
  {
    if n >= 10 {
      var s := NatToString(n / 10);
      var t := s + [DigitChar(n % 10)];
      assert t[..|t| - 1] == s;
      ParseNatToString(n / 10);
    }
  }

  /** Parsing undoes rendering, for every integer. */
  lemma ParseIntToString(n: int)
    ensures ParseInt(IntToString(n)) == n
  {
    if n < 0 {
      var s := "-" + NatToString(-n);
      assert s[1..] == NatToString(-n);
      ParseNatToString(-n);
    } else {
      ParseNatToString(n);
    }
  }

  /** Distinct integers render as distinct strings. */
  lemma IntToStringInjective(a: int, b: int)
    ensures IntToString(a) == IntToString(b) <==> a == b
  {
    ParseIntToString(a);
    ParseIntToString(b);
  }

  lemma DigitRoundTrip(c: char)
    requires IsDigit(c)
    ensures DigitChar(DigitValue(c)) == c
  {
  }

  /** A digit string that does not start with '0' denotes a positive number. */
  lemma {:induction false} LeadingDigitPositive(d: string)
    requires |d| > 0 && AllDigits(d) && d[0] != '0'
    ensures ParseNat(d) > 0
  {
    if |d| > 1 {
      LeadingDigitPositive(d[..|d| - 1]);
    }
  }

  /** A digit string without a leading zero is the shortest spelling of its
      value. */
  lemma {:induction false} NatToStringParse(d: string)
    requires |d| > 0 && AllDigits(d) && (|d| > 1 ==> d[0] != '0')
    ensures NatToString(ParseNat(d)) == d
  {
    var init, c := d[..|d| - 1], d[|d| - 1];
    DigitRoundTrip(c);
    if |d| > 1 {
      LeadingDigitPositive(init);
      NatToStringParse(init);
      assert d == init + [c];
    }
  }

  /** Rendering undoes parsing on canonical strings: a canonical string is
      the `%d` text of the number it denotes, and of no other. */
  lemma IntToStringParse(s: string)
    requires Canonical(s)
    ensures IntToString(ParseInt(s)) == s
  {
    var d := Magnitude(s);
    NatToStringParse(d);
    if s[0] == '-' {
      LeadingDigitPositive(d);
      assert s == "-" + d;
    }
  }
}
