/**
 The integer square root of ext/dlib/algs.h: a tabulated start, four Newton
 steps and one correction, for values of up to 32 bits held in a wider word.
 */
module SquareRoot {

  /** u is the square root of v, rounded up. */
  predicate IsCeilRoot(v: nat, u: nat) {
    v <= u * u && (u == 0 || (u - 1) * (u - 1) < v)
  }

  function CeilRoot(v: nat): (u: nat)
    ensures IsCeilRoot(v, u)
  {
    if v == 0 then 0
    else
      var u := CeilRoot(v - 1);
      if u * u >= v then u else u + 1
  }

  function NewtonStep(v: nat, x: nat): nat
    requires x > 0
  {
    (x + v / x) / 2
  }

  lemma ProductMonotone(a: int, b: int, c: int, d: int)
    requires 0 <= a <= c && 0 <= b <= d
    ensures a * b <= c * d
  {
    assert a * b <= c * b <= c * d;
  }

  lemma SquareOfDifference(x: int, s: int)
    ensures (x - s) * (x - s) == x * x - 2 * (x * s) + s * s
    ensures (x - s) * (x - s) >= 0
  {
  }

  lemma QuotientBounds(v: nat, x: nat)
    requires x > 0
    ensures x * (v / x) <= v < x * (v / x) + x
  {
  }

  /** No Newton step, from any positive start, falls below the floor square root. */
  lemma StepNotBelow(v: nat, x: nat, s: nat)
    requires x > 0 && s * s <= v
    ensures NewtonStep(v, x) >= s
  {
    var q := v / x;
    QuotientBounds(v, x);
    if x + q < 2 * s {
      var r := 2 * s - x;
      assert q + 1 <= r;
      assert x * (q + 1) <= x * r;
      assert x * (q + 1) == x * q + x;
      assert x * r == 2 * (x * s) - x * x;
      SquareOfDifference(x, s);
      assert false;
    }
  }

  /** A Newton step overshoots the root by at most (x - u)^2 / 2x, rounded down. */
  lemma StepError(v: nat, u: nat, x: nat, e: nat)
    requires x > 0 && v <= u * u
    requires (x - u) * (x - u) < 2 * (e + 1) * x
    ensures NewtonStep(v, x) <= u + e
  {
    var q := v / x;
    QuotientBounds(v, x);
    if x + q >= 2 * (u + e + 1) {
      var r := 2 * (u + e + 1) - x;
      assert x * r <= x * q;
      assert x * r == 2 * (x * u) + 2 * (e + 1) * x - x * x by {
        assert x * r == x * (2 * u) + x * (2 * (e + 1)) - x * x;
      }
      SquareOfDifference(x, u);
      assert false;
    }
  }

  /** The error bounds of two successive steps, for roots of at least lo. */
  lemma NextError(v: nat, u: nat, lo: nat, x: nat, d: nat, e: nat)
    requires IsCeilRoot(v, u) && 2 <= lo <= u
    requires u - 1 <= x <= u + d && d * d < 2 * (e + 1) * (lo + d)
    ensures u - 1 <= NewtonStep(v, x) <= u + e
  {
    StepNotBelow(v, x, u - 1);
    if x < u {
      assert (x - u) * (x - u) == 1;
      assert 2 * (e + 1) * x >= 2 * x by {
        assert 2 * (e + 1) * x == 2 * x + 2 * (e * x);
        ProductMonotone(0, 0, e, x);
      }
    } else {
      ErrorShrinks(x - u, d, u, lo, 2 * (e + 1));
    }
    StepError(v, u, x, e);
  }

  /** t^2 / (u + t) grows with t and falls with u. */
  lemma ErrorShrinks(t: nat, d: nat, u: nat, lo: nat, k: nat)
    requires t <= d && 1 <= lo <= u && d * d < k * (lo + d)
    ensures t * t < k * (u + t)
  {
    assert k > 0 by {
      assert k == 0 ==> k * (lo + d) == 0;
    }
    assert k * (lo + t) == k * lo + k * t && k * (u + t) == k * u + k * t;
    ProductMonotone(k, lo, k, u);
    ProductMonotone(1, 1, k, lo);
    if t < k {
      ProductMonotone(t, t, k, t);
    } else {
      // growing t to d adds (d - t) * (d + t) on the left and only k * (d - t) on the right
      assert d * d == t * t + (d - t) * (d + t);
      ProductMonotone(k, d - t, d + t, d - t);
      assert k * (lo + d) == k * (lo + t) + k * (d - t);
    }
  }

  /** Error bounds e1 .. e3 of the first three steps that make the fourth exact, for roots between lo and hi. */
  predicate Converges(x0: nat, lo: nat, hi: nat, e1: nat, e2: nat, e3: nat) {
    && 2 <= lo <= hi && 1 <= x0
    && (x0 - lo) * (x0 - lo) < 2 * (e1 + 1) * x0
    && (x0 - hi) * (x0 - hi) < 2 * (e1 + 1) * x0
    && e1 * e1 < 2 * (e2 + 1) * (lo + e1)
    && e2 * e2 < 2 * (e3 + 1) * (lo + e2)
    && e3 * e3 < 2 * (lo + e3)
  }

  lemma FarthestEnd(x0: int, u: int, lo: int, hi: int, bound: int)
    requires lo <= u <= hi
    requires (x0 - lo) * (x0 - lo) < bound && (x0 - hi) * (x0 - hi) < bound
    ensures (x0 - u) * (x0 - u) < bound
  {
    if x0 >= u {
      ProductMonotone(x0 - u, x0 - u, x0 - lo, x0 - lo);
    } else {
      ProductMonotone(u - x0, u - x0, hi - x0, hi - x0);
      assert (x0 - u) * (x0 - u) == (u - x0) * (u - x0) && (x0 - hi) * (x0 - hi) == (hi - x0) * (hi - x0);
    }
  }

  /** Four steps from a suitable start end at the root rounded up, or one below it. */
  lemma FourSteps(v: nat, u: nat, x0: nat, lo: nat, hi: nat, e1: nat, e2: nat, e3: nat)
    requires IsCeilRoot(v, u) && lo <= u <= hi && Converges(x0, lo, hi, e1, e2, e3)
    ensures var x1 := NewtonStep(v, x0);
      && x1 > 0 && var x2 := NewtonStep(v, x1);
      && x2 > 0 && var x3 := NewtonStep(v, x2);
      && x3 > 0 && u - 1 <= NewtonStep(v, x3) <= u
  {
    var x1 := NewtonStep(v, x0);
    FarthestEnd(x0, u, lo, hi, 2 * (e1 + 1) * x0);
    StepNotBelow(v, x0, u - 1);
    StepError(v, u, x0, e1);
    NextError(v, u, lo, x1, e1, e2);
    var x2 := NewtonStep(v, x1);
    NextError(v, u, lo, x2, e2, e3);
    var x3 := NewtonStep(v, x2);
    NextError(v, u, lo, x3, e3, 0);
  }

  lemma SquareReflects(a: nat, b: nat)
    ensures a * a <= b * b ==> a <= b
    ensures a * a < b * b ==> a < b
  {
    if a >= b {
      ProductMonotone(b, b, a, a);
    }
    if a > b {
      ProductMonotone(b + 1, b + 1, a, a);
    }
  }

  lemma RootBetween(v: nat, u: nat, lo: nat, hi: nat)
    requires IsCeilRoot(v, u) && 0 < lo && lo * lo <= v <= hi * hi
    ensures lo <= u <= hi
  {
    SquareReflects(lo, u);
    if u > 0 {
      SquareReflects(u - 1, hi);
    }
  }

  /** The root of every value of at most 32 bits, rounded up. */
  method IntegerSquareRoot(value: nat) returns (r: nat)
    requires value <= 0xFFFF_FFFF
    ensures IsCeilRoot(value, r) && r == CeilRoot(value)
  {
    ghost var u := CeilRoot(value);
    var x: nat;
    if value < 3 {
      assert CeilRoot(0) == 0 && CeilRoot(1) == 1 && CeilRoot(2) == 2;
      return value;
    } else if value < 4096 {
      x := 45;
      RootAtLeastTwo(value, u);
      RootBetween(value, u, 1, 64);
      FourSteps(value, u, x, 2, 64, 20, 9, 3);
    } else if value < 65536 {
      x := 179;
      RootBetween(value, u, 64, 256);
      FourSteps(value, u, x, 64, 256, 36, 6, 0);
    } else if value < 1048576 {
      x := 717;
      RootBetween(value, u, 256, 1024);
      FourSteps(value, u, x, 256, 1024, 148, 27, 1);
    } else if value < 16777216 {
      x := 2867;
      RootBetween(value, u, 1024, 4096);
      FourSteps(value, u, x, 1024, 4096, 592, 108, 5);
    } else if value < 268435456 {
      x := 11469;
      RootBetween(value, u, 4096, 16384);
      FourSteps(value, u, x, 4096, 16384, 2369, 434, 20);
    } else {
      x := 45875;
      RootBetween(value, u, 16384, 65536);
      FourSteps(value, u, x, 16384, 65536, 9479, 1737, 83);
    }
    x := NewtonStep(value, x);
    x := NewtonStep(value, x);
    x := NewtonStep(value, x);
    x := NewtonStep(value, x);
    r := Correct(value, x, u);
  }

  lemma RootAtLeastTwo(v: nat, u: nat)
    requires IsCeilRoot(v, u) && v >= 2
    ensures u >= 2
  {
  }

  /** The final correction: one below the root is noticed, the root itself is kept. */
  method Correct(value: nat, x: nat, ghost u: nat) returns (r: nat)
    requires IsCeilRoot(value, u) && u >= 1 && u - 1 <= x <= u
    ensures r == u
  {
    if x * x < value {
      r := x + 1;
    } else {
      r := x;
    }
  }
}
