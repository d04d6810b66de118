/**
 Objective functions and the decorators stacked around them
 (src/math: CallbackFunction, RevertedFunction, ConstrainedFunction,
 MappedFunction), with the box constraint and the parameter mapping they use.
 The only state an evaluation changes is the log its callback appends to.
 */
module Objectives {
  import opened LinearAlgebra

  datatype Range = Range(lo: real, hi: real)

  /** How one parameter is carried from one range to another. */
  datatype Transform = Transform(before: Range, after: Range)

  datatype LogEntry = LogEntry(args: Vector, result: real)

  datatype Objective =
    | User(f: Vector -> real)
    | Callback(inner: Objective)
    | Reverted(inner: Objective)
    | Constrained(inner: Objective, ranges: seq<Range>, defaultValue: real)
    | Mapped(inner: Objective, transforms: seq<Transform>)

  // -------------------------------------------------- constraint and mapping

  predicate InBox(x: Vector, ranges: seq<Range>)
    requires |x| == |ranges|
  {
    forall i | 0 <= i < |x| :: ranges[i].lo <= x[i] <= ranges[i].hi
  }

  method IsMetBy(params: Vector, ranges: seq<Range>) returns (met: bool)
    requires |params| == |ranges|
    ensures met == InBox(params, ranges)
    ensures met <==> forall i | 0 <= i < |params| :: ranges[i].lo <= params[i] && params[i] <= ranges[i].hi
  {
    for i := 0 to |params|
      invariant forall k | 0 <= k < i :: ranges[k].lo <= params[k] <= ranges[k].hi
    {
      if params[i] < ranges[i].lo || params[i] > ranges[i].hi {
        return false;
      }
    }
    return true;
  }

  predicate Nondegenerate(r: Range) {
    r.lo != r.hi
  }

  function MapParameter(p: real, before: Range, after: Range): real
    requires Nondegenerate(before)
  {
    var p0 := (p - before.lo) / (before.hi - before.lo);
    after.lo + p0 * (after.hi - after.lo)
  }

  function MapVector(x: Vector, m: seq<Transform>): (r: Vector)
    requires |x| == |m| && forall i | 0 <= i < |m| :: Nondegenerate(m[i].before)
    ensures |r| == |x|
  {
    seq(|x|, i requires 0 <= i < |x| => MapParameter(x[i], m[i].before, m[i].after))
  }

  /** The same transforms read from right to left. */
  function Inverse(m: seq<Transform>): (r: seq<Transform>)
    ensures |r| == |m|
  {
    seq(|m|, i requires 0 <= i < |m| => Transform(m[i].after, m[i].before))
  }

  method MapParameters(params: Vector, m: seq<Transform>) returns (r: Vector)
    requires |params| == |m| && forall i | 0 <= i < |m| :: Nondegenerate(m[i].before)
    ensures r == MapVector(params, m)
  {
    r := Const(|params|, 0.0);
    for i := 0 to |params|
      invariant |r| == |params|
      invariant forall k | 0 <= k < i :: r[k] == MapParameter(params[k], m[k].before, m[k].after)
    {
      r := r[i := MapParameter(params[i], m[i].before, m[i].after)];
    }
  }

  method UnmapParameters(params: Vector, m: seq<Transform>) returns (r: Vector)
    requires |params| == |m| && forall i | 0 <= i < |m| :: Nondegenerate(m[i].after)
    ensures r == MapVector(params, Inverse(m))
  {
    r := Const(|params|, 0.0);
    for i := 0 to |params|
      invariant |r| == |params|
      invariant forall k | 0 <= k < i :: r[k] == MapParameter(params[k], m[k].after, m[k].before)
    {
      r := r[i := MapParameter(params[i], m[i].after, m[i].before)];
    }
  }

  lemma QuotientOfProduct(q: real, w: real)
    requires w != 0.0
    ensures (q * w) / w == q
  {
  }

  lemma MapParameterRoundTrip(p: real, a: Range, b: Range)
    requires Nondegenerate(a) && Nondegenerate(b)
    ensures MapParameter(MapParameter(p, a, b), b, a) == p
  {
    var v, w := a.hi - a.lo, b.hi - b.lo;
    var q := (p - a.lo) / v;
    var there := MapParameter(p, a, b);
    assert there == b.lo + q * w;
    assert (there - b.lo) / w == q by {
      assert there - b.lo == q * w;
      QuotientOfProduct(q, w);
    }
    assert MapParameter(there, b, a) == a.lo + q * v;
  }

  /** The mapping takes the ends of one range to the ends of the other and keeps proportions. */
  lemma MapParameterIsAffine(p: real, q: real, a: Range, b: Range)
    requires Nondegenerate(a)
    ensures MapParameter(a.lo, a, b) == b.lo && MapParameter(a.hi, a, b) == b.hi
    ensures (MapParameter(p, a, b) - MapParameter(q, a, b)) * (a.hi - a.lo) == (p - q) * (b.hi - b.lo)
  {
    var v, w := a.hi - a.lo, b.hi - b.lo;
    var x, y := (p - a.lo) / v, (q - a.lo) / v;
    assert x * v == p - a.lo && y * v == q - a.lo;
    assert MapParameter(p, a, b) - MapParameter(q, a, b) == x * w - y * w;
    assert (x * w - y * w) * v == (x * v) * w - (y * v) * w;
  }

  /** Mapping out of and back into the normalized space gives every parameter back. */
  lemma MappingRoundTrip(x: Vector, m: seq<Transform>)
    requires |x| == |m|
    requires forall i | 0 <= i < |m| :: Nondegenerate(m[i].before) && Nondegenerate(m[i].after)
    ensures MapVector(MapVector(x, Inverse(m)), m) == x
    ensures MapVector(MapVector(x, m), Inverse(m)) == x
  {
    forall i | 0 <= i < |x|
      ensures MapVector(MapVector(x, Inverse(m)), m)[i] == x[i]
      ensures MapVector(MapVector(x, m), Inverse(m))[i] == x[i]
    {
      MapParameterRoundTrip(x[i], m[i].after, m[i].before);
      MapParameterRoundTrip(x[i], m[i].before, m[i].after);
    }
  }

  // ------------------------------------------------------ decorated functions

  /** Evaluation at n parameters gets past every size check of the stack (the source throws otherwise). */
  predicate Accepts(o: Objective, n: nat) {
    match o
    case User(_) => true
    case Callback(inner) => Accepts(inner, n)
    case Reverted(inner) => Accepts(inner, n)
    case Constrained(inner, ranges, _) => n == |ranges| && Accepts(inner, n)
    case Mapped(inner, m) =>
      n == |m| && (forall i | 0 <= i < |m| :: Nondegenerate(m[i].before)) && Accepts(inner, n)
  }

  /** What the stack returns at x. */
  function Value(o: Objective, x: Vector): real
    requires Accepts(o, |x|)
  {
    match o
    case User(f) => f(x)
    case Callback(inner) => Value(inner, x)
    case Reverted(inner) => -Value(inner, x)
    case Constrained(inner, ranges, defaultValue) =>
      if InBox(x, ranges) then Value(inner, x) else defaultValue
    case Mapped(inner, m) => Value(inner, MapVector(x, m))
  }

  /** What one evaluation at x appends to the log. */
  function Logged(o: Objective, x: Vector): seq<LogEntry>
    requires Accepts(o, |x|)
  {
    match o
    case User(_) => []
    case Callback(inner) => Logged(inner, x) + [LogEntry(x, Value(inner, x))]
    case Reverted(inner) => Logged(inner, x)
    case Constrained(inner, ranges, _) => if InBox(x, ranges) then Logged(inner, x) else []
    case Mapped(inner, m) => Logged(inner, MapVector(x, m))
  }

  /** What evaluating at the points xs, in order, appends to the log. */
  function LoggedAll(o: Objective, xs: seq<Vector>): seq<LogEntry> {
    if xs == [] then []
    else
      var x := xs[|xs| - 1];
      LoggedAll(o, xs[..|xs| - 1]) + (if Accepts(o, |x|) then Logged(o, x) else [])
  }

  /** The log of an optimization; `calls` remembers every point the outermost function was asked for. */
  class EvaluationLog {
    var entries: seq<LogEntry>
    ghost var calls: seq<Vector>

    constructor ()
      ensures entries == [] && calls == []
    {
      entries := [];
      calls := [];
    }

    method Clear()
      modifies this
      ensures entries == [] && calls == []
    {
      entries := [];
      calls := [];
    }
  }

  method EvaluateLayer(o: Objective, x: Vector, log: EvaluationLog) returns (v: real)
    requires Accepts(o, |x|)
    modifies log`entries
    ensures v == Value(o, x)
    ensures log.entries == old(log.entries) + Logged(o, x)
    decreases o
  {
    match o
    case User(f) =>
      v := f(x);
    case Callback(inner) =>
      v := EvaluateLayer(inner, x, log);
      log.entries := log.entries + [LogEntry(x, v)];
    case Reverted(inner) =>
      var r := EvaluateLayer(inner, x, log);
      v := -r;
    case Constrained(inner, ranges, defaultValue) =>
      var met := IsMetBy(x, ranges);
      if !met {
        return defaultValue;
      }
      v := EvaluateLayer(inner, x, log);
    case Mapped(inner, m) =>
      var mapped := MapParameters(x, m);
      v := EvaluateLayer(inner, mapped, log);
  }

  /**
   A decorated function together with the log its callback writes to: what an
   optimizer is handed. `f` is the function of `dim` parameters it computes.
   The triggers keep clients, who only speak of `f`, from unfolding the stack.
   */
  class ObjectiveFunction {
    const stack: Objective
    const log: EvaluationLog
    ghost const dim: nat
    ghost const f: Vector -> real

    constructor (stack: Objective, log: EvaluationLog, ghost dim: nat)
      requires Accepts(stack, dim)
      requires log.entries == [] && log.calls == []
      ensures this.stack == stack && this.log == log && this.dim == dim && Valid()
    {
      this.stack := stack;
      this.log := log;
      this.dim := dim;
      this.f := x => if Accepts(stack, |x|) then Value(stack, x) else 0.0;
    }

    ghost predicate Valid()
      reads log
    {
      && (forall n {:trigger Accepts(stack, n)} :: n == dim ==> Accepts(stack, n))
      && (forall x {:trigger Value(stack, x)} :: |x| == dim ==> f(x) == Value(stack, x))
      && (forall xs {:trigger LoggedAll(stack, xs)} ::
          xs == log.calls ==> log.entries == LoggedAll(stack, xs) && Dim(xs, dim))
    }

    method Evaluate(x: Vector) returns (v: real)
      requires Valid() && |x| == dim
      modifies log
      ensures Valid() && log.calls == old(log.calls) + [x]
      ensures v == f(x)
    {
      ghost var before := LoggedAll(stack, log.calls);
      assert Accepts(stack, |x|);
      ghost var goal := Value(stack, x);
      v := EvaluateLayer(stack, x, log);
      log.calls := log.calls + [x];
      assert log.calls[..|log.calls| - 1] == old(log.calls);
    }
  }

  // ----------------------------------------------------- what a search found

  /** `best` was evaluated, `value` is f there, and no evaluated point does better. */
  ghost predicate Attains(f: Vector -> real, best: Vector, value: real, evaluated: seq<Vector>) {
    && best in evaluated
    && value == f(best)
    && forall i | 0 <= i < |evaluated| :: value <= f(evaluated[i])
  }
}
