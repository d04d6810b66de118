/**
 The RGB <-> HSL conversions of ext/dlib/pixel.h over the reals: hue in
 degrees, saturation and lightness between 0 and 1.
 */
module Colour {

  datatype Rgb = Rgb(r: real, g: real, b: real)
  datatype Hsl = Hsl(h: real, s: real, l: real)

  function Min(x: real, y: real): real {
    if y < x then y else x
  }

  function Max(x: real, y: real): real {
    if x < y then y else x
  }

  predicate InUnitCube(c: Rgb) {
    0.0 <= c.r <= 1.0 && 0.0 <= c.g <= 1.0 && 0.0 <= c.b <= 1.0
  }

  function Lowest(c: Rgb): real {
    Min(c.r, Min(c.g, c.b))
  }

  function Highest(c: Rgb): real {
    Max(c.r, Max(c.g, c.b))
  }

  function Lightness(lo: real, hi: real): real {
    (lo + hi) / 2.0
  }

  function Saturation(delta: real, l: real): real {
    if 0.0 < l < 1.0 then delta / (if l < 0.5 then 2.0 * l else 2.0 - 2.0 * l) else 0.0
  }

  /** The three conditions are tried one after the other and would add up; ties make at most one of them hold. */
  function Hue(c: Rgb, hi: real, delta: real): real {
    if delta > 0.0 then
      var h0 := if hi == c.r && hi != c.g then (c.g - c.b) / delta else 0.0;
      var h1 := if hi == c.g && hi != c.b then h0 + (2.0 + (c.b - c.r) / delta) else h0;
      var h2 := if hi == c.b && hi != c.r then h1 + (4.0 + (c.r - c.g) / delta) else h1;
      h2 * 60.0
    else 0.0
  }

  function RgbToHsl(c: Rgb): Hsl {
    var lo, hi := Lowest(c), Highest(c);
    var l := Lightness(lo, hi);
    Hsl(Hue(c, hi, hi - lo), Saturation(hi - lo, l), l)
  }

  /** The fully saturated colour of a hue. */
  function Pure(h: real): Rgb {
    var c :=
      if h < 120.0 then Rgb((120.0 - h) / 60.0, h / 60.0, 0.0)
      else if h < 240.0 then Rgb(0.0, (240.0 - h) / 60.0, (h - 120.0) / 60.0)
      else Rgb((h - 240.0) / 60.0, 0.0, (360.0 - h) / 60.0);
    Rgb(Min(c.r, 1.0), Min(c.g, 1.0), Min(c.b, 1.0))
  }

  /** One component of the colour with saturation s and lightness l whose pure component is x. */
  function Shade(x: real, s: real, l: real): real {
    var t := 2.0 * s * x + (1.0 - s);
    if l < 0.5 then l * t else (1.0 - l) * t + 2.0 * l - 1.0
  }

  function HslToRgb(c: Hsl): Rgb {
    var p := Pure(c.h);
    Rgb(Shade(p.r, c.s, c.l), Shade(p.g, c.s, c.l), Shade(p.b, c.s, c.l))
  }

  // -------------------------------------------------------------- round trip

  lemma QuotientTimes(a: real, b: real)
    requires b != 0.0
    ensures a / b * b == a
  {
  }

  /** The value at the share x of the way from lo to lo + delta. */
  function Blend(lo: real, x: real, delta: real): real {
    lo + x * delta
  }

  /** Both lightness halves put a component at the share x of the way from the lowest to the highest one. */
  lemma ShadeInterpolates(lo: real, hi: real, x: real)
    requires 0.0 <= lo <= hi <= 1.0
    ensures var l := Lightness(lo, hi); Shade(x, Saturation(hi - lo, l), l) == Blend(lo, x, hi - lo)
  {
    var l, delta := Lightness(lo, hi), hi - lo;
    var s := Saturation(delta, l);
    if l < 0.5 {
      assert 2.0 * l * s == delta by {
        if l > 0.0 {
          QuotientTimes(delta, 2.0 * l);
        }
      }
      assert l * (2.0 * s * x + (1.0 - s)) == (2.0 * l * s) * x + l - (2.0 * l * s) / 2.0;
    } else {
      assert (2.0 - 2.0 * l) * s == delta by {
        if l < 1.0 {
          QuotientTimes(delta, 2.0 - 2.0 * l);
        }
      }
      var m := 1.0 - l;
      assert m * (2.0 * s * x + (1.0 - s)) == (2.0 * m * s) * x + m - (2.0 * m * s) / 2.0;
      assert 2.0 * m * s == delta;
    }
  }

  lemma PositiveProduct(x: real, y: real)
    requires x > 0.0 && y > 0.0
    ensures x * y > 0.0
  {
  }

  lemma QuotientBetween(a: real, b: real)
    requires 0.0 <= a <= b && b > 0.0
    ensures 0.0 <= a / b <= 1.0 && a / b * b == a
    ensures a / b == 0.0 <==> a == 0.0
    ensures a / b == 1.0 <==> a == b
  {
    var q := a / b;
    QuotientTimes(a, b);
    assert q < 0.0 ==> -q * b > 0.0 by {
      if q < 0.0 {
        PositiveProduct(-q, b);
      }
    }
    assert q > 1.0 ==> (q - 1.0) * b > 0.0 by {
      if q > 1.0 {
        PositiveProduct(q - 1.0, b);
      }
    }
    assert -q * b == -a && (q - 1.0) * b == a - b;
  }

  /** The share of the way from the lowest to the highest component. */
  function Share(v: real, lo: real, delta: real): real {
    if delta > 0.0 then (v - lo) / delta else 0.0
  }

  lemma ShareBack(v: real, lo: real, hi: real)
    requires lo <= v <= hi
    ensures Blend(lo, Share(v, lo, hi - lo), hi - lo) == v
    ensures 0.0 <= Share(v, lo, hi - lo) <= 1.0
    ensures v == lo ==> Share(v, lo, hi - lo) == 0.0
    ensures v == hi > lo ==> Share(v, lo, hi - lo) == 1.0
    ensures lo < v ==> Share(v, lo, hi - lo) > 0.0
  {
    if hi > lo {
      QuotientBetween(v - lo, hi - lo);
    }
  }

  /** The hue of a colour whose blue does not sit between green and the highest red names its pure colour. */
  lemma HueNamesPure(c: Rgb)
    requires InUnitCube(c) && Lowest(c) < Highest(c) && !(c.g < c.b <= c.r)
    ensures var lo, hi := Lowest(c), Highest(c);
      Pure(Hue(c, hi, hi - lo)) == Rgb(Share(c.r, lo, hi - lo), Share(c.g, lo, hi - lo), Share(c.b, lo, hi - lo))
  {
    var lo, hi := Lowest(c), Highest(c);
    ShareBack(c.r, lo, hi);
    ShareBack(c.g, lo, hi);
    ShareBack(c.b, lo, hi);
    var d := hi - lo;
    var x, y, z := Share(c.r, lo, d), Share(c.g, lo, d), Share(c.b, lo, d);
    QuotientOfDifference(c.g, c.b, lo, d);
    QuotientOfDifference(c.b, c.r, lo, d);
    QuotientOfDifference(c.r, c.g, lo, d);
  }

  lemma QuotientOfDifference(v: real, w: real, lo: real, d: real)
    requires d > 0.0
    ensures (v - w) / d == Share(v, lo, d) - Share(w, lo, d)
  {
    assert (v - w) / d == ((v - lo) - (w - lo)) / d;
  }

  /** Where the hue comes out negative, blue is given the lowest component's value. */
  lemma NegativeHueLosesBlue(c: Rgb)
    requires InUnitCube(c) && c.g < c.b <= c.r
    ensures RgbToHsl(c).h < 0.0 && HslToRgb(RgbToHsl(c)).b == c.g
  {
    var lo, hi := Lowest(c), Highest(c);
    ShareBack(c.b, lo, hi);
    QuotientOfDifference(c.g, c.b, lo, hi - lo);
    ShareBack(c.g, lo, hi);
    var h := Hue(c, hi, hi - lo);
    assert h == -Share(c.b, lo, hi - lo) * 60.0;
    assert Pure(h).b == 0.0;
    ShadeInterpolates(lo, hi, 0.0);
  }

  /** Once the pure colour is right, every component comes back. */
  lemma SharesRestore(c: Rgb)
    requires InUnitCube(c)
    requires var lo, hi := Lowest(c), Highest(c);
      lo == hi ||
      Pure(Hue(c, hi, hi - lo)) == Rgb(Share(c.r, lo, hi - lo), Share(c.g, lo, hi - lo), Share(c.b, lo, hi - lo))
    ensures HslToRgb(RgbToHsl(c)) == c
  {
    var lo, hi := Lowest(c), Highest(c);
    var p := Pure(Hue(c, hi, hi - lo));
    ShareBack(c.r, lo, hi);
    ShareBack(c.g, lo, hi);
    ShareBack(c.b, lo, hi);
    ShadeInterpolates(lo, hi, p.r);
    ShadeInterpolates(lo, hi, p.g);
    ShadeInterpolates(lo, hi, p.b);
    if lo == hi {
      assert Blend(lo, p.r, 0.0) == Blend(lo, p.g, 0.0) == Blend(lo, p.b, 0.0) == lo;
    }
  }

  lemma HueNotNegative(c: Rgb)
    requires InUnitCube(c) && !(c.g < c.b <= c.r)
    ensures RgbToHsl(c).h >= 0.0
  {
    var lo, hi := Lowest(c), Highest(c);
    var d := hi - lo;
    if d > 0.0 {
      ShareBack(c.r, lo, hi);
      ShareBack(c.g, lo, hi);
      ShareBack(c.b, lo, hi);
      QuotientOfDifference(c.g, c.b, lo, d);
      QuotientOfDifference(c.b, c.r, lo, d);
      QuotientOfDifference(c.r, c.g, lo, d);
    }
  }

  /**
   HslToRgb undoes RgbToHsl on exactly the colours of the unit cube that do not
   have green below blue and blue at most red: there the hue is negative.
   */
  lemma RoundTrip(c: Rgb)
    requires InUnitCube(c)
    ensures HslToRgb(RgbToHsl(c)) == c <==> !(c.g < c.b <= c.r)
    ensures RgbToHsl(c).h < 0.0 <==> c.g < c.b <= c.r
  {
    if c.g < c.b <= c.r {
      NegativeHueLosesBlue(c);
    } else {
      HueNotNegative(c);
      if Lowest(c) < Highest(c) {
        HueNamesPure(c);
      }
      SharesRestore(c);
    }
  }

  // ---------------------------------------------------- the other direction

  predicate InRange(c: Hsl) {
    0.0 <= c.h <= 360.0 && 0.0 <= c.s <= 1.0 && 0.0 <= c.l <= 1.0
  }

  /** Half the distance between the lowest and the highest component. */
  function HalfSpread(c: Hsl): real {
    var m := if c.l < 0.5 then c.l else 1.0 - c.l;
    c.s * m
  }

  /** The component at share x of a spread of d to either side of l. */
  function Spread(x: real, l: real, d: real): real {
    l + d * (2.0 * x - 1.0)
  }

  /** Both lightness halves spread a pure component around the lightness. */
  lemma ShadeSpreads(x: real, c: Hsl)
    requires InRange(c)
    ensures Shade(x, c.s, c.l) == Spread(x, c.l, HalfSpread(c))
  {
    var s, l := c.s, c.l;
    var t := 2.0 * s * x + (1.0 - s);
    assert t == 1.0 + s * (2.0 * x - 1.0) by {
      assert s * (2.0 * x - 1.0) == 2.0 * s * x - s;
    }
    if l < 0.5 {
      SpreadProduct(l, s, 2.0 * x - 1.0);
    } else {
      SpreadProduct(1.0 - l, s, 2.0 * x - 1.0);
    }
  }

  lemma SpreadProduct(l: real, s: real, y: real)
    ensures l * (1.0 + s * y) == l + (s * l) * y
  {
  }

  /** A full component, a missing one and one in between, for every hue of the wheel. */
  lemma PureComponents(h: real)
    requires 0.0 <= h <= 360.0
    ensures var p := Pure(h);
      && 0.0 <= p.r <= 1.0 && 0.0 <= p.g <= 1.0 && 0.0 <= p.b <= 1.0
      && Lowest(p) == 0.0 && Highest(p) == 1.0
      && Hue(p, 1.0, 1.0) == if h < 300.0 then h else h - 360.0
  {
  }

  /** A hue depends on which components are highest and on their differences in units of the spread. */
  lemma SameHue(c: Rgb, hi: real, delta: real, p: Rgb)
    requires delta > 0.0
    requires (hi == c.r <==> p.r == 1.0) && (hi == c.g <==> p.g == 1.0) && (hi == c.b <==> p.b == 1.0)
    requires (c.g - c.b) / delta == p.g - p.b
    requires (c.b - c.r) / delta == p.b - p.r
    requires (c.r - c.g) / delta == p.r - p.g
    ensures Hue(c, hi, delta) == Hue(p, 1.0, 1.0)
  {
  }

  lemma ExtremesOf(c: Rgb, lo: real, hi: real)
    requires lo <= c.r <= hi && lo <= c.g <= hi && lo <= c.b <= hi
    requires lo in {c.r, c.g, c.b} && hi in {c.r, c.g, c.b}
    ensures Lowest(c) == lo && Highest(c) == hi
  {
  }

  /** Spreading the components around the lightness changes no comparison and scales every difference. */
  lemma SpreadKeepsHue(p: Rgb, c: Rgb, l: real, d: real)
    requires d > 0.0 && Lowest(p) == 0.0 && Highest(p) == 1.0
    requires c == Rgb(Spread(p.r, l, d), Spread(p.g, l, d), Spread(p.b, l, d))
    ensures Lowest(c) == l - d && Highest(c) == l + d
    ensures Hue(c, l + d, 2.0 * d) == Hue(p, 1.0, 1.0)
  {
    SpreadBetween(p.r, l, d);
    SpreadBetween(p.g, l, d);
    SpreadBetween(p.b, l, d);
    ExtremesOf(c, l - d, l + d);
    SpreadDifference(p.g, p.b, l, d);
    SpreadDifference(p.b, p.r, l, d);
    SpreadDifference(p.r, p.g, l, d);
    SameHue(c, l + d, 2.0 * d, p);
  }

  lemma SpreadBetween(x: real, l: real, d: real)
    requires d > 0.0 && 0.0 <= x <= 1.0
    ensures l - d <= Spread(x, l, d) <= l + d
    ensures Spread(x, l, d) == l - d <==> x == 0.0
    ensures Spread(x, l, d) == l + d <==> x == 1.0
  {
    assert d * (2.0 * x - 1.0) == 2.0 * (d * x) - d;
    assert x > 0.0 ==> d * x > 0.0;
    assert x < 1.0 ==> d * (1.0 - x) > 0.0;
    assert d * (1.0 - x) == d - d * x;
  }

  lemma SpreadDifference(x: real, y: real, l: real, d: real)
    requires d > 0.0
    ensures (Spread(x, l, d) - Spread(y, l, d)) / (2.0 * d) == x - y
  {
    var e := 2.0 * d;
    assert Spread(x, l, d) - Spread(y, l, d) == (x - y) * e;
    ProductOver(x - y, e);
  }

  lemma ProductOver(a: real, b: real)
    requires b != 0.0
    ensures (a * b) / b == a
  {
  }

  lemma SaturationBack(c: Hsl)
    requires InRange(c) && 0.0 < c.l < 1.0
    ensures Saturation(2.0 * HalfSpread(c), c.l) == c.s
  {
    var m := if c.l < 0.5 then c.l else 1.0 - c.l;
    assert 2.0 * HalfSpread(c) == c.s * (2.0 * m);
    ProductOver(c.s, 2.0 * m);
  }

  lemma PositiveHalfSpread(s: real, m: real, d: real)
    requires s > 0.0 && m > 0.0 && d == s * m
    ensures d > 0.0
  {
    PositiveProduct(s, m);
  }

  lemma ColouredIsSpread(c: Hsl)
    requires 0.0 < c.s && 0.0 < c.l < 1.0
    ensures HalfSpread(c) > 0.0
  {
    var m := if c.l < 0.5 then c.l else 1.0 - c.l;
    PositiveHalfSpread(c.s, m, HalfSpread(c));
  }

  lemma GreyHasNoSpread(c: Hsl)
    requires InRange(c) && (c.s == 0.0 || c.l == 0.0 || c.l == 1.0)
    ensures HalfSpread(c) == 0.0
  {
  }

  /** The colour of c is its pure colour spread around its lightness. */
  lemma RgbIsSpread(c: Hsl)
    requires InRange(c)
    ensures var p, d := Pure(c.h), HalfSpread(c);
      HslToRgb(c) == Rgb(Spread(p.r, c.l, d), Spread(p.g, c.l, d), Spread(p.b, c.l, d))
  {
    var p := Pure(c.h);
    ShadeSpreads(p.r, c);
    ShadeSpreads(p.g, c);
    ShadeSpreads(p.b, c);
  }

  lemma HslOfExtremes(c: Rgb, lo: real, hi: real)
    requires Lowest(c) == lo && Highest(c) == hi
    ensures RgbToHsl(c) == Hsl(Hue(c, hi, hi - lo), Saturation(hi - lo, (lo + hi) / 2.0), (lo + hi) / 2.0)
  {
  }

  lemma ColouredRoundTrip(c: Hsl)
    requires InRange(c) && 0.0 < c.s && 0.0 < c.l < 1.0
    ensures RgbToHsl(HslToRgb(c)) == Hsl(if c.h < 300.0 then c.h else c.h - 360.0, c.s, c.l)
  {
    var d, rgb := HalfSpread(c), HslToRgb(c);
    ColouredIsSpread(c);
    PureComponents(c.h);
    RgbIsSpread(c);
    SpreadKeepsHue(Pure(c.h), rgb, c.l, d);
    HslOfExtremes(rgb, c.l - d, c.l + d);
    SaturationBack(c);
    assert (c.l + d) - (c.l - d) == 2.0 * d && ((c.l - d) + (c.l + d)) / 2.0 == c.l;
  }

  lemma SpreadOfNothing(x: real, l: real)
    ensures Spread(x, l, 0.0) == l
  {
  }

  lemma GreyRoundTrip(c: Hsl)
    requires InRange(c) && (c.s == 0.0 || c.l == 0.0 || c.l == 1.0)
    ensures RgbToHsl(HslToRgb(c)) == Hsl(0.0, 0.0, c.l)
  {
    var p := Pure(c.h);
    GreyHasNoSpread(c);
    RgbIsSpread(c);
    SpreadOfNothing(p.r, c.l);
    SpreadOfNothing(p.g, c.l);
    SpreadOfNothing(p.b, c.l);
    HslOfExtremes(HslToRgb(c), c.l, c.l);
  }

  /** Hues from 300 on come back as the negative hues they are a full turn away from, and greys without a hue. */
  lemma HslRoundTrip(c: Hsl)
    requires InRange(c)
    ensures 0.0 < c.s && 0.0 < c.l < 1.0 ==>
      RgbToHsl(HslToRgb(c)) == Hsl(if c.h < 300.0 then c.h else c.h - 360.0, c.s, c.l)
    ensures c.s == 0.0 || c.l == 0.0 || c.l == 1.0 ==> RgbToHsl(HslToRgb(c)) == Hsl(0.0, 0.0, c.l)
  {
    if 0.0 < c.s && 0.0 < c.l < 1.0 {
      ColouredRoundTrip(c);
    } else {
      GreyRoundTrip(c);
    }
  }

  /** RgbToHsl undoes HslToRgb on exactly the coloured triples with a hue below 300 and the greys with hue 0. */
  lemma HslRoundTripIff(c: Hsl)
    requires InRange(c)
    ensures RgbToHsl(HslToRgb(c)) == c <==>
            (c.s > 0.0 && 0.0 < c.l < 1.0 && c.h < 300.0) || (c.s == 0.0 && c.h == 0.0)
  {
    HslRoundTrip(c);
  }

  /** Where the primary and the mixed colours lie on the wheel; magenta's 300 degrees come out as -60. */
  lemma Landmarks(grey: real)
    requires 0.0 <= grey <= 1.0
    ensures RgbToHsl(Rgb(1.0, 0.0, 0.0)) == Hsl(0.0, 1.0, 0.5) && RgbToHsl(Rgb(1.0, 1.0, 0.0)) == Hsl(60.0, 1.0, 0.5)
    ensures RgbToHsl(Rgb(0.0, 1.0, 0.0)) == Hsl(120.0, 1.0, 0.5) && RgbToHsl(Rgb(0.0, 1.0, 1.0)) == Hsl(180.0, 1.0, 0.5)
    ensures RgbToHsl(Rgb(0.0, 0.0, 1.0)) == Hsl(240.0, 1.0, 0.5) && RgbToHsl(Rgb(1.0, 0.0, 1.0)) == Hsl(-60.0, 1.0, 0.5)
    ensures RgbToHsl(Rgb(grey, grey, grey)) == Hsl(0.0, 0.0, grey)
    ensures HslToRgb(Hsl(336.0, 1.0, 0.5)) == Rgb(1.0, 0.0, 0.4)
  {
  }
}
