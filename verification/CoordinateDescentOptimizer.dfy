/**
 Coordinate descent (src/optimization/CoordinateDescentOptimizer.cpp). The
 length `norm` of the vector of step sizes is left arbitrary. The evaluation
 limit is a signed integer that is compared with an unsigned counter, which
 turns a negative limit into a very large one.
 */
module CoordinateDescentOptimizer {
  import opened Arithmetic
  import opened LinearAlgebra
  import opened LineProbe
  import opened Objectives
  import opened Runs

  datatype Configuration = Configuration(initialStepSize: real, finalStepSize: real, kSuccessful: real,
                                         kUnsuccessful: real, maxEvaluations: Int32)

  type Int32 = i: int | -0x8000_0000 <= i < 0x8000_0000

  /** The limit as the comparison sees it: converted to an unsigned 32-bit integer. */
  function Limit(maxEvaluations: Int32): (n: nat)
    ensures n == maxEvaluations % 0x1_0000_0000
  {
    if maxEvaluations < 0 then 0x1_0000_0000 + maxEvaluations else maxEvaluations
  }

  datatype State = State(m: Vector, best: real, stepSizes: Vector, ix: nat, evaluated: seq<Vector>)

  predicate WellFormed(dim: nat, s: State) {
    |s.m| == dim && |s.stepSizes| == dim && s.ix < dim
  }

  /** The step along coordinate ix alone. */
  function StepAlong(stepSizes: Vector, ix: nat): (r: Vector)
    requires ix < |stepSizes|
    ensures |r| == |stepSizes|
  {
    Const(|stepSizes|, 0.0)[ix := stepSizes[ix]]
  }

  /** The current step size, lengthened after a success and shortened otherwise. */
  function Resized(conf: Configuration, stepSizes: Vector, ix: nat, success: bool): (r: Vector)
    requires ix < |stepSizes|
    ensures |r| == |stepSizes|
  {
    if success then stepSizes[ix := Mul(stepSizes[ix], conf.kSuccessful)]
    else stepSizes[ix := Mul(stepSizes[ix], conf.kUnsuccessful)]
  }

  ghost predicate Init(f: Vector -> real, conf: Configuration, guess: Vector, s: State) {
    s == State(guess, f(guess), Const(|guess|, conf.initialStepSize), 0, [guess])
  }

  ghost predicate Step(f: Vector -> real, conf: Configuration, dim: nat, s: State, t: State) {
    && WellFormed(dim, s)
    && var p := Probe(f, s.m, s.best, StepAlong(s.stepSizes, s.ix));
    && t.m == p.x && t.best == p.value
    && t.stepSizes == Resized(conf, s.stepSizes, s.ix, p.success)
    && t.ix == (s.ix + 1) % dim
    && t.evaluated == s.evaluated + Asked(s.m, StepAlong(s.stepSizes, s.ix))
  }

  ghost predicate Continues(conf: Configuration, norm: Vector -> real, s: State) {
    !(norm(s.stepSizes) < conf.finalStepSize || |s.evaluated| > Limit(conf.maxEvaluations))
  }

  ghost function Loop(f: Vector -> real, conf: Configuration, norm: Vector -> real, guess: Vector): Machine<State> {
    Machine(s => Init(f, conf, guess, s),
            (s, t) => Step(f, conf, |guess|, s, t),
            s => Continues(conf, norm, s))
  }

  method PickStep(stepSizes: Vector, ix: nat) returns (step: Vector)
    requires ix < |stepSizes|
    ensures step == StepAlong(stepSizes, ix)
  {
    step := Const(|stepSizes|, 0.0);
    step := step[ix := stepSizes[ix]];
  }

  method Resize(conf: Configuration, before: Vector, ix: nat, success: bool) returns (stepSizes: Vector)
    requires ix < |before|
    ensures stepSizes == Resized(conf, before, ix, success)
  {
    stepSizes := before;
    if success {
      stepSizes := stepSizes[ix := Mul(stepSizes[ix], conf.kSuccessful)];
    } else {
      stepSizes := stepSizes[ix := Mul(stepSizes[ix], conf.kUnsuccessful)];
    }
  }

  /** The body of the optimization loop, up to the stopping condition. */
  method Pass(fn: ObjectiveFunction, conf: Configuration, x: Vector, best: real, sizes: Vector, ix: nat,
              ghost s: State, ghost base: seq<Vector>)
    returns (m: Vector, fbest: real, stepSizes: Vector, ghost t: State)
    requires s == State(x, best, sizes, ix, s.evaluated) && WellFormed(fn.dim, s)
    requires fn.Valid() && fn.log.calls == base + s.evaluated
    modifies fn.log
    ensures t == State(m, fbest, stepSizes, (ix + 1) % fn.dim, t.evaluated) && WellFormed(fn.dim, t)
    ensures Step(fn.f, conf, fn.dim, s, t) && |t.evaluated| == |s.evaluated| + 2
    ensures fn.Valid() && fn.log.calls == base + t.evaluated
  {
    var step := PickStep(sizes, ix);
    var success;
    m, fbest, success := ProbeBothWays(fn, x, best, step);
    stepSizes := Resize(conf, sizes, ix, success);
    t := State(m, fbest, stepSizes, (ix + 1) % fn.dim, s.evaluated + Asked(x, step));
  }

  method Minimize(fn: ObjectiveFunction, conf: Configuration, norm: Vector -> real, guess: Vector)
    returns (result: Vector, ghost run: seq<State>)
    requires fn.Valid() && |guess| == fn.dim >= 1
    modifies fn.log
    ensures fn.Valid() && IsRun(Loop(fn.f, conf, norm, guess), run)
    ensures fn.log.calls == old(fn.log.calls) + Last(run).evaluated
    ensures result == Last(run).m
  {
    var dim := |guess|;
    ghost var loop, base := Loop(fn.f, conf, norm, guess), fn.log.calls;
    var fbest := fn.Evaluate(guess);
    var fev := 1;
    var m := guess;
    var stepSizes := Const(dim, conf.initialStepSize);
    ghost var s := State(m, fbest, stepSizes, 0, [guess]);
    run := [s];
    var ix: nat := 0;
    var stop := false;
    while !stop
      invariant fn.Valid() && fn.log.calls == base + s.evaluated
      invariant s == State(m, fbest, stepSizes, ix, s.evaluated) && WellFormed(dim, s)
      invariant IsPrefix(loop, run) && Last(run) == s && fev == |s.evaluated|
      invariant if stop then |run| >= 2 && !loop.continues(s) else |run| == 1 || loop.continues(s)
      decreases !stop, Limit(conf.maxEvaluations) - fev
    {
      ghost var t;
      m, fbest, stepSizes, t := Pass(fn, conf, m, fbest, stepSizes, ix, s, base);
      fev := fev + 2;
      var rho := norm(stepSizes);
      stop := rho < conf.finalStepSize || fev > Limit(conf.maxEvaluations);
      ix := (ix + 1) % dim;
      Extend(loop, run, t);
      run, s := run + [t], t;
    }
    result := m;
  }

  // ---------------------------------------------------------------- all runs

  /** In every state of every run the current point is the minimum of everything evaluated so far. */
  lemma RunFindsBest(f: Vector -> real, conf: Configuration, norm: Vector -> real, guess: Vector,
                     run: seq<State>, i: nat)
    requires |guess| >= 1 && IsPrefix(Loop(f, conf, norm, guess), run) && i < |run|
    ensures |run[i].m| == |guess|
    ensures Attains(f, run[i].m, run[i].best, run[i].evaluated) && run[i].evaluated[0] == guess
  {
    var m := Loop(f, conf, norm, guess);
    var inv := (s: State) => |s.m| == |guess| && Attains(f, s.m, s.best, s.evaluated)
                           && s.evaluated[0] == guess;
    forall s, t | inv(s) && m.step(s, t) ensures inv(t) {
      ProbeKeepsBest(f, s.m, s.best, StepAlong(s.stepSizes, s.ix), s.evaluated);
    }
    Invariant(m, inv, run, i);
  }

  lemma {:induction false} RunTurns(f: Vector -> real, conf: Configuration, norm: Vector -> real, guess: Vector,
                                    run: seq<State>, i: nat)
    requires |guess| >= 1 && IsPrefix(Loop(f, conf, norm, guess), run) && i < |run|
    ensures WellFormed(|guess|, run[i]) && run[i].ix == i % |guess| && |run[i].evaluated| == 2 * i + 1
  {
    var m := Loop(f, conf, norm, guess);
    if i == 0 {
      assert m.init(run[0]);
    } else {
      RunTurns(f, conf, norm, guess, run, i - 1);
      assert m.step(run[i - 1], run[i]);
      NextIndex(i - 1, |guess|);
    }
  }

  /** A step moves the current coordinate only, by its step size at most. */
  lemma StepMovesOneCoordinate(f: Vector -> real, conf: Configuration, dim: nat, s: State, t: State, k: nat)
    requires Step(f, conf, dim, s, t) && k < dim
    ensures |t.m| == dim
    ensures if k == s.ix then t.m[k] - s.m[k] in {0.0, s.stepSizes[k], -s.stepSizes[k]} else t.m[k] == s.m[k]
  {
  }

  /** Pass i moves coordinate i modulo dim only, by its step size at most, and each pass costs two evaluations. */
  lemma RunCyclesThroughCoordinates(f: Vector -> real, conf: Configuration, norm: Vector -> real,
                                    guess: Vector, run: seq<State>, i: nat)
    requires |guess| >= 1 && IsPrefix(Loop(f, conf, norm, guess), run) && i < |run|
    ensures WellFormed(|guess|, run[i]) && run[i].ix == i % |guess| && |run[i].evaluated| == 2 * i + 1
    ensures i + 1 < |run| ==>
      forall k | 0 <= k < |guess| ::
        |run[i + 1].m| == |guess| &&
        if k == i % |guess| then run[i + 1].m[k] - run[i].m[k] in {0.0, run[i].stepSizes[k], -run[i].stepSizes[k]}
        else run[i + 1].m[k] == run[i].m[k]
  {
    RunTurns(f, conf, norm, guess, run, i);
    if i + 1 < |run| {
      var s, t, ix := run[i], run[i + 1], run[i].ix;
      assert Step(f, conf, |guess|, s, t) by {
        assert Loop(f, conf, norm, guess).step(run[i], run[i + 1]);
      }
      forall k | 0 <= k < |guess|
        ensures |t.m| == |guess|
        ensures if k == ix then t.m[k] - s.m[k] in {0.0, s.stepSizes[k], -s.stepSizes[k]} else t.m[k] == s.m[k]
      {
        StepMovesOneCoordinate(f, conf, |guess|, s, t, k);
      }
    }
  }

  /**
   How a run goes on. Pass i probes along coordinate i modulo dim and multiplies
   the step size of that coordinate by the factor for success exactly if the
   best value has improved; all others stay.
   */
  lemma RunPassLaw(f: Vector -> real, conf: Configuration, norm: Vector -> real, guess: Vector,
                   run: seq<State>, i: nat)
    requires |guess| >= 1 && IsPrefix(Loop(f, conf, norm, guess), run) && i + 1 < |run|
    ensures var dim, s, t := |guess|, run[i], run[i + 1];
      var k := i % dim;
      var step := seq(dim, j => if j == k && k < |s.stepSizes| then s.stepSizes[k] else 0.0);
      && |s.m| == dim && |s.stepSizes| == |t.stepSizes| == dim
      && t.evaluated == s.evaluated + Asked(s.m, step)
      && t.m == Probe(f, s.m, s.best, step).x && t.best == Probe(f, s.m, s.best, step).value
      && t.stepSizes[k] == s.stepSizes[k] * (if t.best < s.best then conf.kSuccessful else conf.kUnsuccessful)
      && forall j | 0 <= j < dim && j != k :: t.stepSizes[j] == s.stepSizes[j]
  {
    var dim, s, t := |guess|, run[i], run[i + 1];
    assert Step(f, conf, dim, s, t) by {
      assert Loop(f, conf, norm, guess).step(run[i], run[i + 1]);
    }
    RunCyclesThroughCoordinates(f, conf, norm, guess, run, i);
    RunFindsBest(f, conf, norm, guess, run, i);
    ProbeKeepsBest(f, s.m, s.best, StepAlong(s.stepSizes, s.ix), s.evaluated);
    assert StepAlong(s.stepSizes, s.ix) ==
           seq(dim, j => if j == s.ix && s.ix < |s.stepSizes| then s.stepSizes[s.ix] else 0.0);
  }

  /** How a run starts and when it goes on after a pass. */
  lemma RunStartsAndStops(f: Vector -> real, conf: Configuration, norm: Vector -> real, guess: Vector,
                          run: seq<State>, i: nat)
    requires IsRun(Loop(f, conf, norm, guess), run) && 0 < i < |run|
    ensures var s := run[0];
      && s.m == guess && s.best == f(guess) && s.evaluated == [guess] && |s.stepSizes| == |guess|
      && forall j | 0 <= j < |guess| :: s.stepSizes[j] == conf.initialStepSize
    ensures i < |run| - 1 <==>
            norm(run[i].stepSizes) >= conf.finalStepSize && |run[i].evaluated| <= Limit(conf.maxEvaluations)
  {
    var m := Loop(f, conf, norm, guess);
    assert m.init(run[0]);
    assert i < |run| - 1 ==> m.continues(run[i]);
    assert i == |run| - 1 ==> !m.continues(run[i]);
  }

  /** A complete run evaluates the objective at most max(limit, 1) + 2 times. */
  lemma RunWithinBudget(f: Vector -> real, conf: Configuration, norm: Vector -> real, guess: Vector, run: seq<State>)
    requires |guess| >= 1 && IsRun(Loop(f, conf, norm, guess), run)
    ensures |Last(run).evaluated| == 2 * |run| - 1 <= Max(Limit(conf.maxEvaluations), 1) + 2
  {
    var m, n := Loop(f, conf, norm, guess), |run| - 2;
    RunCyclesThroughCoordinates(f, conf, norm, guess, run, n);
    RunCyclesThroughCoordinates(f, conf, norm, guess, run, n + 1);
    assert n > 0 ==> m.continues(run[n]);
  }
}
