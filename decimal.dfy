/**
 * Decimal text for integers: the rendering Java's string concatenation
 * gives an `int` or `long`, and the `Long.parseLong` reading of a string.
 */
module Decimal {
  import opened Wrappers

  const MinLong: int := -0x8000_0000_0000_0000
  const MaxLong: int := 0x7FFF_FFFF_FFFF_FFFF

  predicate InLongRange(n: int)
  {
    MinLong <= n <= MaxLong
  }

  predicate IsDigit(c: char)
  {
    '0' <= c <= '9'
  }

  predicate AllDigits(s: string)
  {
    forall i | 0 <= i < |s| :: IsDigit(s[i])
  }

  function DigitChar(d: nat): (c: char)
    requires d < 10
    ensures IsDigit(c) && c as int - '0' as int == d
  {
    ('0' as int + d) as char
  }

  /** The value of a string of ASCII digits, most significant first. */
  function DigitsValue(s: string): (v: nat)
    requires AllDigits(s)
    decreases |s|
  {
    if s == [] then 0
    else DigitsValue(s[..|s| - 1]) * 10 + (s[|s| - 1] as int - '0' as int)
  }

  /** Decimal rendering of a natural number, with no leading zero. */
  function NatToString(n: nat): (s: string)
    ensures |s| > 0 && AllDigits(s)
    ensures DigitsValue(s) == n
    ensures |s| > 1 ==> s[0] != '0'
    decreases n
  {
    if n < 10 then [DigitChar(n)]
    else
      var prefix := NatToString(n / 10);
      var s := prefix + [DigitChar(n % 10)];
      assert s[..|s| - 1] == prefix;
      s
  }

  /** Decimal rendering of an integer: a '-' before the digits when negative. */
  function IntToString(n: int): (s: string)
    ensures |s| > 0
    ensures n >= 0 ==> AllDigits(s)
    ensures n < 0 ==> s[0] == '-' && AllDigits(s[1..]) && |s| > 1
    ensures '/' !in s
  {
    if n >= 0 then NatToString(n) else "-" + NatToString(-n)
  }

  predicate IsSign(c: char)
  {
    c == '-' || c == '+'
  }

  /** The shape `Long.parseLong` accepts: an optional sign, then at least one digit. */
  predicate WellFormedLong(s: string)
  {
    && |s| > 0
    && (if IsSign(s[0]) then |s| > 1 && AllDigits(s[1..]) else AllDigits(s))
  }

  /** The value a well-formed text denotes, before any range check. */
  function SignedValue(s: string): int
    requires WellFormedLong(s)
  {
    if s[0] == '-' then -(DigitsValue(s[1..]) as int)
    else if s[0] == '+' then DigitsValue(s[1..])
    else DigitsValue(s)
  }

  /**
   * `Long.parseLong`: an optional '+' or '-' followed by at least one digit,
   * whose value fits in 64 bits; anything else is a NumberFormatException,
   * here None.
   */
  function ParseLong(s: string): (r: Option<int>)
    ensures r.Some? <==> WellFormedLong(s) && InLongRange(SignedValue(s))
    ensures r.Some? ==> r.value == SignedValue(s)
    ensures r.Some? ==> InLongRange(r.value)
    ensures r.Some? ==> |s| > 0
    ensures |s| > 0 && !IsDigit(s[0]) && s[0] != '-' && s[0] != '+' ==> r == None
    ensures (exists i | 1 <= i < |s| :: !IsDigit(s[i])) ==> r == None
  {
    if |s| == 0 then None
    else if s[0] == '-' || s[0] == '+' then
      if |s| == 1 || !AllDigits(s[1..]) then None
      else
        var magnitude: int := DigitsValue(s[1..]);
        var v: int := if s[0] == '-' then -magnitude else magnitude;
        if InLongRange(v) then Some(v) else None
    else if !AllDigits(s) then None
    else
      var v := DigitsValue(s);
      if v <= MaxLong then Some(v) else None
  }

  /** Every 64-bit value survives rendering and parsing. */
  lemma ParseLongInvertsIntToString(n: int)
    requires InLongRange(n)
    ensures ParseLong(IntToString(n)) == Some(n)
  {
    if n < 0 {
      var s := IntToString(n);
      assert s[1..] == NatToString(-n);
    }
  }

  /** A parsed value renders back to the parsed text when that text is canonical. */
  lemma IntToStringInvertsParseLong(s: string)
    requires ParseLong(s).Some?
    requires |s| > 0 && s[0] != '+'
    requires s[0] == '-' ==> s[1] != '0'
    requires s[0] != '-' && |s| > 1 ==> s[0] != '0'
    ensures IntToString(ParseLong(s).value) == s
  {
    if s[0] == '-' {
      DigitsRoundTrip(s[1..]);
      assert s == "-" + s[1..];
    } else {
      DigitsRoundTrip(s);
    }
  }

  lemma {:induction false} DigitsRoundTrip(s: string)
    requires |s| > 0 && AllDigits(s)
    requires |s| > 1 ==> s[0] != '0'
    ensures NatToString(DigitsValue(s)) == s
    decreases |s|
  {
    var init := s[..|s| - 1];
    var d := s[|s| - 1] as int - '0' as int;
    if |s| == 1 {
      assert DigitsValue(s) == DigitsValue(init) * 10 + d;
    } else {
      assert AllDigits(init);
      DigitsRoundTrip(init);
      DigitsNoLeadingZero(init);
      var v := DigitsValue(s);
      assert v == DigitsValue(init) * 10 + d;
      assert v / 10 == DigitsValue(init) && v % 10 == d;
      assert v >= 10;
      assert NatToString(v) == NatToString(v / 10) + [DigitChar(v % 10)];
      assert s == init + [s[|s| - 1]];
    }
  }

  /** A digit string with no leading zero and more than one digit is at least 10. */
  lemma {:induction false} DigitsNoLeadingZero(s: string)
    requires |s| > 0 && AllDigits(s)
    requires |s| > 1 ==> s[0] != '0'
    ensures s[0] != '0' ==> DigitsValue(s) > 0
    decreases |s|
  {
    if |s| > 1 {
      var init := s[..|s| - 1];
      assert init[0] == s[0];
      DigitsNoLeadingZero(init);
    }
  }
}
