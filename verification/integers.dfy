/**
 * Java `int` arithmetic and decimal conversions: the 32-bit wrap-around used by
 * the hash codes, `Integer.parseInt` in radix 10 (as the age parser), and the
 * `%d` rendering used in error messages.
 */
module Integers {
  import opened Wrappers

  const MinInt32: int := -0x8000_0000
  const MaxInt32: int := 0x7fff_ffff
  const TwoTo32: int := 0x1_0000_0000

  predicate IsInt32(x: int) { MinInt32 <= x <= MaxInt32 }

  /** Values of Java's `int`. */
  type Int32 = x: int | IsInt32(x)

  /** The two's-complement wrap-around that Java applies to every `int` result. */
  function Wrap32(x: int): (r: int)
    ensures IsInt32(r)
    ensures IsInt32(x) ==> r == x
  {
    (x - MinInt32) % TwoTo32 + MinInt32
  }

  /** Wrap-around forgets multiples of 2^32. */
  lemma WrapCongruent(x: int, y: int, k: int)
    requires x == y + k * TwoTo32
    ensures Wrap32(x) == Wrap32(y)
  {
    var a := y - MinInt32;
    var q, r := a / TwoTo32, a % TwoTo32;
    assert a == q * TwoTo32 + r;
    assert x - MinInt32 == (q + k) * TwoTo32 + r;
  }

  /** Wrapping an intermediate result first does not change the wrapped total:
      this is why Java's step-by-step `int` arithmetic equals one final wrap. */
  lemma WrapLinear(c: int, x: int, y: int)
    ensures Wrap32(c * Wrap32(x) + y) == Wrap32(c * x + y)
  {
    var k := (x - MinInt32) / TwoTo32;
    assert Wrap32(x) == x - k * TwoTo32;
    assert c * Wrap32(x) + y == c * x + y + (-c * k) * TwoTo32;
    WrapCongruent(c * Wrap32(x) + y, c * x + y, -c * k);
  }

  predicate IsDigit(c: char) { '0' <= c <= '9' }

  predicate AllDigits(s: string) { forall i :: 0 <= i < |s| ==> IsDigit(s[i]) }

  function DigitValue(c: char): (d: nat)
    requires IsDigit(c)
    ensures d < 10
  {
    c as int - '0' as int
  }

  function DigitChar(d: nat): (c: char)
    requires d < 10
    ensures IsDigit(c) && DigitValue(c) == d
  {
    ('0' as int + d) as char
  }

  /** The value of a string of decimal digits, most significant first. */
  function DigitsValue(ds: string): nat
    requires AllDigits(ds)
  {
    if ds == [] then 0 else 10 * DigitsValue(ds[..|ds| - 1]) + DigitValue(ds[|ds| - 1])
  }

  /**
   * `Integer.parseInt(s)`: an optional `-` or `+` sign followed by at least one
   * decimal digit, whose value lies in the `int` range; `None` is the
   * `NumberFormatException` raised otherwise.
   */
  function ParseInt(s: string): (r: Option<int>)
    ensures r.Some? ==> IsInt32(r.value)
    ensures r.Some? ==> |s| > 0 && (IsDigit(s[0]) || s[0] == '-' || s[0] == '+')
    ensures r.Some? ==> (r.value < 0 ==> s[0] == '-')
  {
    var signed := |s| > 0 && (s[0] == '-' || s[0] == '+');
    var digits := if signed then s[1..] else s;
    if digits == [] || !AllDigits(digits) then None
    else
      var v: int := if signed && s[0] == '-' then 0 - DigitsValue(digits) as int else DigitsValue(digits);
      if IsInt32(v) then Some(v) else None
  }

  /** The decimal digits of `n`, without leading zeros. */
  function NatToDecimal(n: nat): (s: string)
    ensures s != [] && AllDigits(s)
    ensures |s| > 1 ==> s[0] != '0'
  {
    if n < 10 then [DigitChar(n)] else NatToDecimal(n / 10) + [DigitChar(n % 10)]
  }

  /** `String.valueOf(n)` / `%d`: a `-` sign for negative values, then the digits. */
  function IntToDecimal(n: int): (s: string)
    ensures s != []
  {
    if n < 0 then "-" + NatToDecimal(-n) else NatToDecimal(n)
  }

  lemma {:induction false} DigitsOfDecimal(n: nat)
    ensures DigitsValue(NatToDecimal(n)) == n
  {
    if n >= 10 {
      DigitsOfDecimal(n / 10);
      var s := NatToDecimal(n);
      assert s[..|s| - 1] == NatToDecimal(n / 10);
    }
  }

  /** Parsing what `%d` prints gives back the number: the two conversions are inverse on `int`. */
  lemma ParseIntOfDecimal(n: int)
    requires IsInt32(n)
    ensures ParseInt(IntToDecimal(n)) == Some(n)
  {
    if n < 0 {
      DigitsOfDecimal(-n);
      assert IntToDecimal(n)[1..] == NatToDecimal(-n);
    } else {
      DigitsOfDecimal(n);
    }
  }

  /** Concrete behaviour of `Integer.parseInt` on the inputs the age check cares about. */
  lemma ParseIntExamples()
    ensures ParseInt("25") == Some(25)
    ensures ParseInt("0") == Some(0)
    ensures ParseInt("-5") == Some(-5)
    ensures ParseInt("+7") == Some(7)
    ensures ParseInt("30") == Some(30)
  {
    assert "25"[..1] == "2";
    assert AllDigits("25");
    assert DigitsValue("25") == 25;
    assert "30"[..1] == "3";
    assert AllDigits("30");
    assert DigitsValue("30") == 30;
    assert "-5"[1..] == "5";
    assert "+7"[1..] == "7";
  }

  /** Text that is not an optionally signed run of digits is refused. */
  lemma ParseIntRejects()
    ensures ParseInt("") == None
    ensures ParseInt("-") == None
    ensures ParseInt("2x") == None
    ensures ParseInt(" 25") == None
  {
    assert !AllDigits("2x") by { assert !IsDigit("2x"[1]); }
    assert !AllDigits(" 25") by { assert !IsDigit(" 25"[0]); }
  }

  lemma DigitsOfMinInt32(ds: string)
    requires ds == "2147483648"
    ensures AllDigits(ds) && DigitsValue(ds) == 2147483648
  {
    DigitsOfMinInt32Prefix(ds);
    DigitsPrefixStep(ds, 5, 21474);
    DigitsPrefixStep(ds, 6, 214748);
    DigitsPrefixStep(ds, 7, 2147483);
    DigitsPrefixStep(ds, 8, 21474836);
    DigitsPrefixStep(ds, 9, 214748364);
    assert ds[..10] == ds;
  }

  /** The first five digits of 2^31. */
  lemma DigitsOfMinInt32Prefix(ds: string)
    requires |ds| >= 5 && ds[0] == '2' && ds[1] == '1' && ds[2] == '4' && ds[3] == '7' && ds[4] == '4'
    ensures AllDigits(ds[..5]) && DigitsValue(ds[..5]) == 21474
  {
    assert ds[..0] == [];
    DigitsPrefixStep(ds, 0, 0);
    DigitsPrefixStep(ds, 1, 2);
    DigitsPrefixStep(ds, 2, 21);
    DigitsPrefixStep(ds, 3, 214);
    DigitsPrefixStep(ds, 4, 2147);
  }

  /** Taking one more digit multiplies the value by ten and adds that digit. */
  lemma DigitsPrefixStep(ds: string, i: int, v: nat)
    requires 0 <= i < |ds| && AllDigits(ds[..i]) && DigitsValue(ds[..i]) == v && IsDigit(ds[i])
    ensures AllDigits(ds[..i + 1]) && DigitsValue(ds[..i + 1]) == 10 * v + DigitValue(ds[i])
  {
    assert ds[..i + 1][..i] == ds[..i];
  }

  /** The `int` range is enforced: 2^31 overflows, -2^31 does not. */
  lemma ParseIntRange(big: string, negative: string)
    requires big == "2147483648" && negative == "-2147483648"
    ensures ParseInt(big) == None
    ensures ParseInt(negative) == Some(MinInt32)
  {
    DigitsOfMinInt32(big);
    assert negative[1..] == big;
  }
}
