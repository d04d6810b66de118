/**
 The portable form of a floating-point number (ext/dlib/float_details.h): an
 integer mantissa and a power of two, compacted by shifting out low zero bytes,
 with three reserved exponents for the infinities and NaN.
 */
module FloatDetails {
  import opened IntegerCodec

  const IS_INF := 32000
  const IS_NINF := 32001
  const IS_NAN := 32002

  datatype Details = Details(mantissa: int, exponent: int)

  /** What frexp reports: a finite value is units * 2^scale for the full-width integer mantissa `units`. */
  datatype Number = Finite(units: int, scale: int) | PosInf | NegInf | NaN

  /** The value a receiver reconstructs. */
  datatype Value = Number(v: real) | Infinity | NegInfinity | NotANumber

  function Pow2(e: int): (p: real)
    ensures p > 0.0
    decreases Abs(e)
  {
    if e == 0 then 1.0 else if e > 0 then 2.0 * Pow2(e - 1) else Pow2(e + 1) / 2.0
  }

  /** The number mantissa * 2^exponent. */
  function Scaled(mantissa: int, exponent: int): real {
    (mantissa as real) * Pow2(exponent)
  }

  function ValueOf(n: Number): Value {
    match n
    case Finite(units, scale) => Number(Scaled(units, scale))
    case PosInf => Infinity
    case NegInf => NegInfinity
    case NaN => NotANumber
  }

  // -------------------------------------------------------------- compaction

  /** The compaction loop with at most n passes left. */
  function Compacted(d: Details, n: nat): Details
    decreases n
  {
    if n == 0 || d.mantissa % 256 != 0 then d
    else Compacted(Details(d.mantissa / 256, d.exponent + 8), n - 1)
  }

  method Compact(d: Details) returns (r: Details)
    ensures r == Compacted(d, 8)
  {
    r := d;
    var i := 0;
    while i < 8 && r.mantissa % 256 == 0
      invariant 0 <= i <= 8 && Compacted(d, 8) == Compacted(r, 8 - i)
    {
      r := Details(r.mantissa / 256, r.exponent + 8);
      i := i + 1;
    }
  }

  lemma {:induction false} Pow2Steps(e: int)
    ensures Pow2(e + 8) == 256.0 * Pow2(e)
  {
    Pow2Next(e);
    Pow2Next(e + 1);
    Pow2Next(e + 2);
    Pow2Next(e + 3);
    Pow2Next(e + 4);
    Pow2Next(e + 5);
    Pow2Next(e + 6);
    Pow2Next(e + 7);
  }

  lemma Pow2Next(e: int)
    ensures Pow2(e + 1) == 2.0 * Pow2(e)
  {
  }

  /** Compaction never changes the number. */
  lemma {:induction false} CompactKeepsValue(d: Details, n: nat)
    ensures Scaled(Compacted(d, n).mantissa, Compacted(d, n).exponent) == Scaled(d.mantissa, d.exponent)
    decreases n
  {
    if n > 0 && d.mantissa % 256 == 0 {
      var m := d.mantissa / 256;
      CompactKeepsValue(Details(m, d.exponent + 8), n - 1);
      Pow2Steps(d.exponent);
      var p := Pow2(d.exponent);
      assert d.mantissa == 256 * m;
      assert (m as real) * (256.0 * p) == (256.0 * (m as real)) * p;
    }
  }

  /**
   Enough passes leave a nonzero low byte, or zero; an already compact nonzero
   mantissa is left alone; and the exponent grows by whole bytes only.
   */
  lemma {:induction false} CompactIsNormal(d: Details, n: nat)
    requires n >= 1 && Abs(d.mantissa) < Pow256(n)
    ensures var r := Compacted(d, n);
      && (r.mantissa == 0 <==> d.mantissa == 0)
      && (d.mantissa != 0 ==> r.mantissa % 256 != 0 && r.exponent <= d.exponent + 8 * (n - 1))
      && (d.mantissa % 256 != 0 ==> r == d)
      && (d.mantissa == 0 ==> r.exponent == d.exponent + 8 * n)
      && Abs(r.mantissa) <= Abs(d.mantissa) && d.exponent <= r.exponent
    decreases n
  {
    if d.mantissa % 256 == 0 {
      var next := Details(d.mantissa / 256, d.exponent + 8);
      if n == 1 {
        assert Pow256(1) == 256 * Pow256(0);
        assert Compacted(next, 0) == next;
      } else {
        assert Pow256(n) == 256 * Pow256(n - 1);
        CompactIsNormal(next, n - 1);
      }
    }
  }

  // -------------------------------------------------------------- conversion

  function ConvertFrom(n: Number): Details {
    match n
    case Finite(units, scale) => Compacted(Details(units, scale), 8)
    case PosInf => Details(0, IS_INF)
    case NegInf => Details(0, IS_NINF)
    case NaN => Details(0, IS_NAN)
  }

  function ConvertTo(d: Details): Value {
    if d.exponent < IS_INF then Number(Scaled(d.mantissa, d.exponent))
    else if d.exponent == IS_INF then Infinity
    else if d.exponent == IS_NINF then NegInfinity
    else NotANumber
  }

  /** A mantissa of at most 63 bits, and an exponent that leaves room for the compaction below the reserved ones. */
  predicate Representable(n: Number) {
    n.Finite? ==> 2 * Abs(n.units) < Pow256(8) && -32768 <= n.scale && n.scale + 64 < IS_INF
  }

  /** Converting to the portable form and back recovers every number, either sign, and the special values. */
  lemma ConversionRoundTrip(n: Number)
    requires Representable(n)
    ensures ConvertTo(ConvertFrom(n)) == ValueOf(n)
    ensures InRange(IntType(true, 8), ConvertFrom(n).mantissa)
    ensures InRange(IntType(true, 2), ConvertFrom(n).exponent)
  {
    assert Pow256(2) == 65536 by {
      assert Pow256(1) == 256 * Pow256(0);
    }
    HalfPower(8);
    if n.Finite? {
      CompactKeepsValue(Details(n.units, n.scale), 8);
      CompactIsNormal(Details(n.units, n.scale), 8);
    }
  }

  /** The reserved exponents, which are those of the format. */
  lemma SpecialForms(m: int)
    ensures ConvertFrom(PosInf) == Details(0, 32000) && ConvertTo(Details(m, 32000)) == Infinity
    ensures ConvertFrom(NegInf) == Details(0, 32001) && ConvertTo(Details(m, 32001)) == NegInfinity
    ensures ConvertFrom(NaN) == Details(0, 32002) && ConvertTo(Details(m, 32002)) == NotANumber
  {
  }

  // ------------------------------------------------------- splitting a number

  /** The library function ldexp: x doubled e times, or halved -e times. */
  function Ldexp(x: real, e: int): real
    decreases Abs(e)
  {
    if e == 0 then x else if e > 0 then 2.0 * Ldexp(x, e - 1) else Ldexp(x, e + 1) / 2.0
  }

  lemma ScaledNext(m: int, e: int)
    ensures Scaled(m, e + 1) == 2.0 * Scaled(m, e)
  {
    Pow2Next(e);
    DoubledProduct(m as real, Pow2(e), Pow2(e + 1));
  }

  lemma DoubledProduct(x: real, p: real, p2: real)
    requires p2 == 2.0 * p
    ensures x * p2 == 2.0 * (x * p)
  {
  }

  lemma {:induction false} LdexpIsScaled(m: int, e: int)
    ensures Ldexp(m as real, e) == Scaled(m, e)
    decreases Abs(e)
  {
    if e > 0 {
      LdexpIsScaled(m, e - 1);
      ScaledNext(m, e - 1);
    } else if e < 0 {
      LdexpIsScaled(m, e + 1);
      ScaledNext(m, e);
    }
  }

  lemma LdexpNext(x: real, e: int)
    ensures Ldexp(x, e + 1) == 2.0 * Ldexp(x, e)
  {
  }

  lemma {:induction false} LdexpTwice(x: real, a: int, b: int)
    ensures Ldexp(Ldexp(x, a), b) == Ldexp(x, a + b)
    decreases Abs(b)
  {
    if b > 0 {
      LdexpTwice(x, a, b - 1);
      LdexpNext(x, a + b - 1);
    } else if b < 0 {
      LdexpTwice(x, a, b + 1);
      LdexpNext(x, a + b);
    }
  }

  function Magnitude(r: real): real {
    if r < 0.0 then -r else r
  }

  /** Scaling keeps the order of magnitudes. */
  lemma {:induction false} LdexpOrder(x: real, y: real, e: int)
    ensures Magnitude(x) < y <==> Magnitude(Ldexp(x, e)) < Ldexp(y, e)
    ensures Magnitude(Ldexp(x, e)) == Ldexp(Magnitude(x), e)
    decreases Abs(e)
  {
    if e > 0 {
      LdexpOrder(x, y, e - 1);
    } else if e < 0 {
      LdexpOrder(x, y, e + 1);
    }
  }

  lemma {:induction false} LdexpGrows(a: int, b: int)
    requires a <= b
    ensures 0.0 < Ldexp(1.0, a) <= Ldexp(1.0, b)
    decreases b - a
  {
    LdexpOrder(0.0, 1.0, a);
    LdexpOrder(0.0, 0.0, a);
    if a < b {
      LdexpNext(1.0, b - 1);
      LdexpGrows(a, b - 1);
    }
  }

  /** Doubling a whole number gives a whole number. */
  lemma {:induction false} LdexpIsWhole(u: int, n: nat) returns (p: int)
    ensures Ldexp(u as real, n) == p as real
  {
    if n == 0 {
      p := u;
    } else {
      var q := LdexpIsWhole(u, n - 1);
      p := 2 * q;
    }
  }

  /** What the library function frexp promises of the fraction and the exponent it splits x into. */
  predicate IsFrexp(x: real, fr: real, exp: int) {
    && x == Ldexp(fr, exp)
    && if x == 0.0 then fr == 0.0 && exp == 0 else 0.5 <= Magnitude(fr) < 1.0
  }

  /** Conversion to an integer drops what is behind the point. */
  function Truncated(r: real): int {
    if r >= 0.0 then r.Floor else -(-r).Floor
  }

  /** That is, towards zero. */
  lemma TruncatedTowardsZero(r: real)
    ensures Magnitude(Truncated(r) as real) <= Magnitude(r) < Magnitude(Truncated(r) as real) + 1.0
    ensures r >= 0.0 ==> Truncated(r) >= 0
    ensures r <= 0.0 ==> Truncated(r) <= 0
  {
  }

  /** The first `digits` binary digits of the fraction become the mantissa. */
  function Split(fr: real, exp: int, digits: nat): Number {
    Finite(Truncated(Ldexp(fr, digits)), exp - digits)
  }

  /** x is the integer u, of at most the given number of binary digits, scaled by 2^e. */
  predicate IsShort(x: real, digits: nat, u: int, e: int) {
    x == Ldexp(u as real, e) && (Abs(u) as real) < Ldexp(1.0, digits)
  }

  /** x has at most the given number of significant binary digits. */
  ghost predicate HasDigits(x: real, digits: nat) {
    exists u: int, e: int :: IsShort(x, digits, u, e)
  }

  lemma MantissaFits(x: real, fr: real, exp: int, digits: nat)
    requires IsFrexp(x, fr, exp)
    ensures (Abs(Split(fr, exp, digits).units) as real) < Ldexp(1.0, digits)
  {
    LdexpOrder(fr, 1.0, digits);
  }

  /** A number of few enough digits does not begin beyond them. */
  lemma ExponentBound(x: real, fr: real, exp: int, digits: nat, u: int, e: int)
    requires IsFrexp(x, fr, exp) && x != 0.0
    requires IsShort(x, digits, u, e)
    ensures exp <= digits + e
  {
    LdexpOrder(u as real, Ldexp(1.0, digits), e);
    LdexpTwice(1.0, digits, e);
    assert Magnitude(x) < Ldexp(1.0, digits + e);
    LdexpOrder(fr, 0.5, exp);
    HalfOfNext(exp);
    if exp > digits + e {
      LdexpGrows(digits + e, exp - 1);
    }
  }

  lemma {:induction false} HalfOfNext(e: int)
    ensures Ldexp(0.5, e) == Ldexp(1.0, e - 1)
  {
    LdexpTwice(1.0, -1, e);
    assert Ldexp(1.0, -1) == Ldexp(1.0, 0) / 2.0 == 0.5;
  }

  /** Such a number's fraction, scaled up by its digits, is whole. */
  lemma ScaledFractionIsWhole(x: real, fr: real, exp: int, digits: nat, u: int, e: int)
    requires IsFrexp(x, fr, exp) && x == Ldexp(u as real, e) && exp <= digits + e
    ensures Ldexp(fr, digits) == (Truncated(Ldexp(fr, digits)) as real)
  {
    LdexpTwice(fr, exp, digits - exp);
    LdexpTwice(u as real, e, digits - exp);
    var p := LdexpIsWhole(u, e + (digits - exp));
  }

  /** The split keeps the number exactly if it has no more digits than the mantissa takes. */
  lemma SplitIsExactIff(x: real, fr: real, exp: int, digits: nat)
    requires IsFrexp(x, fr, exp)
    ensures ValueOf(Split(fr, exp, digits)) == Number(x) <==> HasDigits(x, digits)
  {
    var n := Split(fr, exp, digits);
    MantissaFits(x, fr, exp, digits);
    LdexpIsScaled(n.units, n.scale);
    if ValueOf(n) == Number(x) {
      assert IsShort(x, digits, n.units, n.scale);
    }
    if HasDigits(x, digits) {
      LdexpTwice(fr, digits, exp - digits);
      if x == 0.0 {
        LdexpOfZero(digits);
        LdexpOfZero(n.scale);
      } else {
        var u: int, e: int :| IsShort(x, digits, u, e);
        ExponentBound(x, fr, exp, digits, u, e);
        ScaledFractionIsWhole(x, fr, exp, digits, u, e);
      }
    }
  }

  lemma {:induction false} LdexpOfZero(e: int)
    ensures Ldexp(0.0, e) == 0.0
    decreases Abs(e)
  {
    if e > 0 {
      LdexpOfZero(e - 1);
    } else if e < 0 {
      LdexpOfZero(e + 1);
    }
  }

  lemma LdexpByte(e: int)
    ensures Ldexp(1.0, e + 8) == 256.0 * Ldexp(1.0, e)
  {
    LdexpNext(1.0, e);
    LdexpNext(1.0, e + 1);
    LdexpNext(1.0, e + 2);
    LdexpNext(1.0, e + 3);
    LdexpNext(1.0, e + 4);
    LdexpNext(1.0, e + 5);
    LdexpNext(1.0, e + 6);
    LdexpNext(1.0, e + 7);
  }

  lemma TwoToThe63()
    ensures Ldexp(1.0, 63) == 0x8000_0000_0000_0000 as real
  {
    LdexpByte(0);
    LdexpByte(8);
    LdexpByte(16);
    LdexpByte(24);
    LdexpByte(32);
    LdexpByte(40);
    LdexpByte(48);
    LdexpByte(56);
    LdexpNext(1.0, 63);
  }

  /** With at most 63 digits, and an exponent away from the reserved ones, the split can be written. */
  lemma SplitIsRepresentable(x: real, fr: real, exp: int, digits: nat)
    requires IsFrexp(x, fr, exp) && digits <= 63 && -32768 <= exp - digits && exp - digits + 64 < IS_INF
    ensures Representable(Split(fr, exp, digits))
  {
    MantissaFits(x, fr, exp, digits);
    LdexpGrows(digits, 63);
    TwoToThe63();
    LimitIsPower();
  }
}
