// Decimal text of integers: `to_string` and the parse of a signed 64-bit number.

module Decimal {
  import opened Base

  function Digit(d: nat): char
    requires d < 10
  {
    "0123456789"[d]
  }

  predicate IsDigit(c: char) {
    '0' <= c <= '9'
  }

  function Value(c: char): nat
    requires IsDigit(c)
  {
    c as int - '0' as int
  }

  function Digits(n: nat): (s: string)
    ensures s != [] && forall k :: 0 <= k < |s| ==> IsDigit(s[k])
  {
    if n < 10 then [Digit(n)] else Digits(n / 10) + [Digit(n % 10)]
  }

  function ToString(i: int): string {
    if i < 0 then "-" + Digits(-i) else Digits(i)
  }

  function ParseDigits(s: string): Option<nat> {
    if s == [] || !IsDigit(s[|s| - 1]) then None
    else if |s| == 1 then Some(Value(s[0]))
    else
      match ParseDigits(s[..|s| - 1])
      case None => None
      case Some(high) => Some(10 * high + Value(s[|s| - 1]))
  }

  /** `str::parse::<i64>`: an optional sign, at least one digit, and a value in range. */
  function ParseI64(s: string): Option<int64> {
    if s == [] then None
    else
      var signed := s[0] == '-' || s[0] == '+';
      match ParseDigits(if signed then s[1..] else s)
      case None => None
      case Some(n) =>
        var v := if s[0] == '-' then 0 - n else n;
        if -I64_MAX - 1 <= v <= I64_MAX then Some(v) else None
  }

  lemma {:induction false} ParseOfDigits(n: nat)
    ensures ParseDigits(Digits(n)) == Some(n)
  {
    if n < 10 {
    } else {
      ParseOfDigits(n / 10);
      assert Digits(n)[..|Digits(n)| - 1] == Digits(n / 10);
    }
  }

  lemma ParseUnsigned(n: nat)
    requires n <= I64_MAX
    ensures ParseI64(Digits(n)) == Some(n)
  {
    ParseOfDigits(n);
    hide Digits, ParseDigits;
    assert IsDigit(Digits(n)[0]);
  }

  lemma ParseNegated(n: nat)
    requires 0 < n <= I64_MAX + 1
    ensures ParseI64("-" + Digits(n)) == Some(0 - n)
  {
    ParseOfDigits(n);
    hide Digits, ParseDigits;
    assert ("-" + Digits(n))[1..] == Digits(n);
  }

  /** Parsing inverts printing for every 64-bit number. */
  lemma ParseOfToString(i: int64)
    ensures ParseI64(ToString(i)) == Some(i)
  {
    hide Digits, ParseI64;
    if i < 0 {
      ParseNegated(0 - i);
    } else {
      ParseUnsigned(i);
    }
  }

  /** Text is decimal: a digit more at the end is ten times as much and that digit. */
  lemma IsDecimal(n: nat, d: nat)
    requires d < 10
    ensures ToString(10 * n + d) == (if n == 0 then "" else ToString(n)) + ["0123456789"[d]]
    ensures n > 0 ==> ToString(0 - n) == "-" + ToString(n)
  {
    assert (10 * n + d) / 10 == n && (10 * n + d) % 10 == d;
  }

  /** Printing is injective on the naturals, so in particular "0" is the text of zero alone. */
  lemma {:induction false} DigitsInjective(a: nat, b: nat)
    ensures Digits(a) == Digits(b) <==> a == b
  {
    ParseOfDigits(a);
    ParseOfDigits(b);
  }

  lemma {:induction false} ZeroText(n: nat)
    ensures ToString(n) == "0" <==> n == 0
  {
    DigitsInjective(n, 0);
    assert Digits(0) == "0";
  }
}
