/**
 Trying one step backwards and one step forwards from the current point and
 keeping the better of what improves: the move coordinate descent and the
 Powell variant share.
 */
module LineProbe {
  import opened LinearAlgebra
  import opened Objectives

  datatype Probed = Probed(x: Vector, value: real, success: bool)

  /** Both trial points start from x; the forward one must beat whatever is best by then. */
  function Probe(f: Vector -> real, x: Vector, best: real, step: Vector): (p: Probed)
    requires |x| == |step|
    ensures |p.x| == |x|
  {
    var back, forth := Sub(x, step), Add(x, step);
    var first := if f(back) < best then Probed(back, f(back), true) else Probed(x, best, false);
    if f(forth) < first.value then Probed(forth, f(forth), true) else first
  }

  /** The two points a probe evaluates. */
  function Asked(x: Vector, step: Vector): (r: seq<Vector>)
    requires |x| == |step|
    ensures |r| == 2
  {
    [Sub(x, step), Add(x, step)]
  }

  method ProbeBothWays(fn: ObjectiveFunction, x: Vector, best: real, step: Vector)
    returns (x': Vector, best': real, success: bool)
    requires fn.Valid() && |x| == |step| == fn.dim
    modifies fn.log
    ensures fn.Valid() && fn.log.calls == old(fn.log.calls) + Asked(x, step)
    ensures Probed(x', best', success) == Probe(fn.f, x, best, step)
  {
    x', best', success := x, best, false;
    var x1 := Sub(x, step);
    var f1 := fn.Evaluate(x1);
    var x2 := Add(x, step);
    var f2 := fn.Evaluate(x2);
    if f1 < best' {
      best', x', success := f1, x1, true;
    }
    if f2 < best' {
      best', x', success := f2, x2, true;
    }
  }

  /** The point t steps away from x. */
  ghost predicate StepsAway(x: Vector, step: Vector, t: real, y: Vector) {
    |x| == |step| == |y| && forall j | 0 <= j < |x| :: y[j] == x[j] + t * step[j]
  }

  /**
   What a probe does: it asks for the point one step back and then for the point
   one step forth, and moves to the forth one if that beats both the old best
   and the other, else to the back one if that beats the old best, else nowhere.
   */
  lemma ProbeLaw(f: Vector -> real, x: Vector, best: real, step: Vector)
    requires |x| == |step|
    ensures var p, asked := Probe(f, x, best, step), Asked(x, step);
      && |asked| == 2 && StepsAway(x, step, -1.0, asked[0]) && StepsAway(x, step, 1.0, asked[1])
      && var back, forth := f(asked[0]), f(asked[1]);
      && p.success == (back < best || forth < best)
      && p.x == (if forth < best && forth < back then asked[1] else if back < best then asked[0] else x)
      && p.value == (if forth < best && forth < back then forth else if back < best then back else best)
  {
  }

  /** A probe keeps "the best of everything evaluated", succeeds only on improvement and otherwise stays put. */
  lemma ProbeKeepsBest(f: Vector -> real, x: Vector, best: real, step: Vector, evaluated: seq<Vector>)
    requires |x| == |step| && Attains(f, x, best, evaluated)
    ensures var p := Probe(f, x, best, step);
      && Attains(f, p.x, p.value, evaluated + Asked(x, step))
      && (p.success <==> p.value < best) && (!p.success ==> p.x == x)
  {
    var p := Probe(f, x, best, step);
    var all := evaluated + Asked(x, step);
    assert all[|evaluated|] == Sub(x, step) && all[|evaluated| + 1] == Add(x, step);
    var k :| 0 <= k < |evaluated| && evaluated[k] == x;
    assert all[k] == x;
    forall i | 0 <= i < |all| ensures p.value <= f(all[i]) {
      if i < |evaluated| {
        assert all[i] == evaluated[i];
      }
    }
  }
}
