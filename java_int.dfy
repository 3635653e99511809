/**
 * Java `int` arithmetic (32-bit two's complement, wrapping on overflow) and
 * `Integer.toString` decimal rendering.
 */
module JavaInt {

  const INT_MIN: int := -0x8000_0000
  const INT_MAX: int := 0x7FFF_FFFF
  const TWO_32: int := 0x1_0000_0000

  /** The values of a Java `int`. */
  type Int32 = x: int | -0x8000_0000 <= x <= 0x7FFF_FFFF

  /** The Java `int` that the mathematical value `x` wraps to. */
  function Wrap(x: int): (r: Int32)
    ensures (r - x) % TWO_32 == 0
    ensures INT_MIN <= x <= INT_MAX ==> r == x
  {
    (x + 0x8000_0000) % 0x1_0000_0000 - 0x8000_0000
  }

  /** Two values wrap to the same `int` exactly when they differ by a multiple of 2^32. */
  lemma WrapSame(a: int, b: int)
    ensures Wrap(a) == Wrap(b) <==> (a - b) % TWO_32 == 0
  {
    var ra, rb := Wrap(a), Wrap(b);
    var qa, qb := (ra - a) / TWO_32, (rb - b) / TWO_32;
    assert ra - a == qa * TWO_32;
    assert rb - b == qb * TWO_32;
    if (a - b) % TWO_32 == 0 {
      var q := (a - b) / TWO_32;
      assert a - b == q * TWO_32;
      assert ra - rb == (qa - qb + q) * TWO_32;
      assert -TWO_32 < ra - rb < TWO_32;
    }
    if ra == rb {
      assert a - b == (qb - qa) * TWO_32;
    }
  }

  /** Adding after wrapping wraps like adding first. */
  lemma WrapAdd(x: int, k: int)
    ensures Wrap(Wrap(x) + k) == Wrap(x + k)
  {
    WrapSame(Wrap(x) + k, x + k);
  }

  /** Values less than 2^32 apart wrap to different `int`s. */
  lemma WrapDistinct(a: int, b: int)
    requires a < b < a + TWO_32
    ensures Wrap(a) != Wrap(b)
  {
    var qa, qb := (a + 0x8000_0000) / TWO_32, (b + 0x8000_0000) / TWO_32;
    assert Wrap(a) == a - qa * TWO_32;
    assert Wrap(b) == b - qb * TWO_32;
    if qa == qb {
      assert Wrap(b) - Wrap(a) == b - a;
    } else {
      assert qb > qa;
      assert Wrap(b) - Wrap(a) == b - a - (qb - qa) * TWO_32;
    }
  }

  /** Values exactly 2^32 apart wrap to the same `int`. */
  lemma WrapPeriod(a: int)
    ensures Wrap(a) == Wrap(a + TWO_32)
  {
    var qa, qb := (a + 0x8000_0000) / TWO_32, (a + TWO_32 + 0x8000_0000) / TWO_32;
    assert Wrap(a) == a - qa * TWO_32;
    assert Wrap(a + TWO_32) == a + TWO_32 - qb * TWO_32;
    assert qb == qa + 1;
  }

  /** The decimal digit for `d`. */
  function DigitChar(d: int): char
    requires 0 <= d < 10
  {
    ('0' as int + d) as char
  }

  /** Whether every character of `s` is a decimal digit. */
  predicate AllDigits(s: string) {
    forall i :: 0 <= i < |s| ==> '0' <= s[i] <= '9'
  }

  /** The decimal digits of `n`, most significant first, without leading zeros. */
  function NatToDecimal(n: nat): (s: string)
    ensures |s| >= 1 && AllDigits(s)
  {
    if n < 10 then [DigitChar(n)] else NatToDecimal(n / 10) + [DigitChar(n % 10)]
  }

  /** The number a string of decimal digits denotes. */
  function DecimalValue(s: string): nat
    requires AllDigits(s)
  {
    if s == [] then 0 else DecimalValue(s[..|s| - 1]) * 10 + (s[|s| - 1] as int - '0' as int)
  }

  /** Reading back the rendered digits gives the number: rendering is one-to-one. */
  lemma {:induction false} DecimalRoundTrip(n: nat)
    ensures DecimalValue(NatToDecimal(n)) == n
  {
    if n >= 10 {
      DecimalRoundTrip(n / 10);
      var s := NatToDecimal(n);
      assert s[..|s| - 1] == NatToDecimal(n / 10);
    }
  }

  /** `Integer.toString` (which string concatenation with an `int` uses). */
  function IntToString(n: int): (s: string)
    ensures |s| >= 1
    ensures s[0] == '-' <==> n < 0
    ensures n >= 0 ==> AllDigits(s)
  {
    if n < 0 then "-" + NatToDecimal(-n) else NatToDecimal(n)
  }

  /** Different natural numbers have different digits. */
  lemma NatToDecimalInjective(a: nat, b: nat)
    requires NatToDecimal(a) == NatToDecimal(b)
    ensures a == b
  {
    DecimalRoundTrip(a);
    DecimalRoundTrip(b);
  }

  /** A negative number renders as a minus sign followed by the digits of its magnitude. */
  lemma NegativeDigits(n: int)
    requires n < 0
    ensures IntToString(n)[1..] == NatToDecimal(-n)
  {
    var digits := NatToDecimal(-n);
    assert ("-" + digits)[1..] == digits;
  }

  /** Different numbers render differently. */
  lemma IntToStringInjective(a: int, b: int)
    requires IntToString(a) == IntToString(b)
    ensures a == b
  {
    if a < 0 {
      NegativeDigits(a);
      NegativeDigits(b);
      NatToDecimalInjective(-a, -b);
    } else {
      NatToDecimalInjective(a, b);
    }
  }
}
