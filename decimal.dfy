/** Decimal rendering of integers, as strconv.Itoa does it, together with
    the parser that inverts it. */
module Decimal {
  import opened Wrappers

  predicate IsDigit(c: char) {
    '0' <= c <= '9'
  }

  predicate AllDigits(s: string) {
    forall i :: 0 <= i < |s| ==> IsDigit(s[i])
  }

  function DigitChar(d: nat): (c: char)
    requires d < 10
    ensures IsDigit(c)
  {
    ('0' as int + d) as char
  }

  function DigitValue(c: char): (d: nat)
    requires IsDigit(c)
    ensures d < 10
    ensures DigitChar(d) == c
  {
    c as int - '0' as int
  }

  /** Base-10 rendering of a natural number, most significant digit first. */
  function NatToDec(n: nat): (s: string)
    ensures |s| > 0 && AllDigits(s)
    ensures n == 0 <==> s == "0"
    ensures n > 0 ==> s[0] != '0'
    decreases n
  {
    if n < 10 then [DigitChar(n)] else NatToDec(n / 10) + [DigitChar(n % 10)]
  }

  /** strconv.Itoa: a minus sign for negative values, then the digits, with
      no leading zero and no "-0". */
  function Itoa(i: int): (s: string)
    ensures |s| > 0
    ensures i >= 0 ==> AllDigits(s)
    ensures i < 0 ==> |s| > 1 && s[0] == '-' && AllDigits(s[1..])
    ensures i == 0 <==> s == "0"
    ensures i > 0 ==> s[0] != '0'
    ensures i < 0 ==> s[1] != '0'
    ensures ':' !in s
  {
    var digits := if i < 0 then NatToDec(-i) else NatToDec(i);
    assert IsDigit(digits[0]);
    if i < 0 then
      var s := "-" + digits;
      assert s[1..] == digits && s[1] == digits[0];
      s
    else digits
  }

  /** The value of a string of decimal digits, read most significant first. */
  function DecValue(s: string): nat
    requires AllDigits(s)
  {
    if s == [] then 0 else DecValue(s[..|s| - 1]) * 10 + DigitValue(s[|s| - 1])
  }

  /** Parses what Itoa produces: an optional minus sign and at least one digit. */
  function ParseInt(s: string): Option<int> {
    if |s| > 1 && s[0] == '-' && AllDigits(s[1..]) then Some(-(DecValue(s[1..]) as int))
    else if |s| > 0 && AllDigits(s) then Some(DecValue(s))
    else None
  }

  lemma {:induction false} DecValueOfNatToDec(n: nat)
    ensures DecValue(NatToDec(n)) == n
    decreases n
  {
    if n >= 10 {
      var p := NatToDec(n / 10);
      var s := NatToDec(n);
      assert s == p + [DigitChar(n % 10)];
      assert s[..|s| - 1] == p;
      DecValueOfNatToDec(n / 10);
    }
  }

  /** Itoa is inverted by ParseInt, so no two integers share a rendering. */
  lemma ParseItoa(i: int)
    ensures ParseInt(Itoa(i)) == Some(i)
  {
    var s := Itoa(i);
    if i < 0 {
      var d := NatToDec(-i);
      assert s == "-" + d;
      assert s[1..] == d;
      DecValueOfNatToDec(-i);
      assert ParseInt(s) == Some(-(DecValue(d) as int));
    } else {
      var d := NatToDec(i);
      assert s == d;
      assert IsDigit(s[0]);
      DecValueOfNatToDec(i);
      assert ParseInt(s) == Some(DecValue(d));
    }
  }

  lemma ItoaInjective(a: int, b: int)
    requires Itoa(a) == Itoa(b)
    ensures a == b
  {
    ParseItoa(a);
    ParseItoa(b);
  }
}
