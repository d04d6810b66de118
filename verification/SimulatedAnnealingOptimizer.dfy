/**
 Simulated annealing (src/optimization/SimulatedAnnealingOptimizer.cpp). The
 random generator is an arbitrary input: displacement k and draw k of pass k.
 `exp` is an arbitrary function with values in [0, 1] on nonpositive arguments.
 */
module SimulatedAnnealingOptimizer {
  import opened Arithmetic
  import opened LinearAlgebra
  import opened Objectives
  import opened Runs

  datatype Configuration = Configuration(maxEvaluations: nat)

  datatype Random = Random(displacement: nat -> Vector, draw: nat -> real)

  datatype State = State(current: Vector, currentValue: real, best: Vector, bestValue: real, temperature: real,
                         evaluated: seq<Vector>)

  const MAX_T := 1000.0

  ghost predicate IsRandom(rnd: Random, dim: nat) {
    forall k: nat :: |rnd.displacement(k)| == dim && 0.0 <= rnd.draw(k) < 1.0
  }

  ghost predicate ExpLike(exp: real -> real) {
    forall x :: x <= 0.0 ==> 0.0 <= exp(x) <= 1.0
  }

  function Abs(x: real): real {
    if x < 0.0 then -x else x
  }

  /** Improvements are certain; at temperature zero nothing else is accepted. */
  function AcceptanceProbability(exp: real -> real, e0: real, e1: real, t: real): (p: real)
    requires ExpLike(exp) && t >= 0.0
    ensures 0.0 <= p <= 1.0
    ensures e1 < e0 ==> p == 1.0
  {
    if e1 < e0 then 1.0
    else if t == 0.0 then 0.0
    else
      assert -Abs(e0 - e1) / t <= 0.0;
      exp(-Abs(e0 - e1) / t)
  }

  /** One cooling step. Dividing by a zero limit gives an infinite step, which cools to zero at once. */
  function Cooled(conf: Configuration, t: real): (r: real)
    ensures r >= 0.0
  {
    if conf.maxEvaluations == 0 then 0.0
    else
      var next := t - MAX_T / (conf.maxEvaluations as real);
      if next < 0.0 then 0.0 else next
  }

  ghost predicate Init(f: Vector -> real, guess: Vector, s: State) {
    s == State(guess, f(guess), guess, f(guess), MAX_T, [guess])
  }

  ghost predicate Step(f: Vector -> real, conf: Configuration, exp: real -> real, rnd: Random, dim: nat,
                       s: State, t: State)
    requires ExpLike(exp) && IsRandom(rnd, dim)
  {
    && |s.current| == dim && s.temperature >= 0.0 && |s.evaluated| >= 1
    && var k := |s.evaluated| - 1;
    && var x := Add(s.current, rnd.displacement(k));
    && var accepted := rnd.draw(k) < AcceptanceProbability(exp, s.currentValue, f(x), s.temperature);
    && t.evaluated == s.evaluated + [x]
    && t.current == (if accepted then x else s.current)
    && t.currentValue == (if accepted then f(x) else s.currentValue)
    && t.best == (if t.currentValue < s.bestValue then t.current else s.best)
    && t.bestValue == (if t.currentValue < s.bestValue then t.currentValue else s.bestValue)
    && t.temperature == Cooled(conf, s.temperature)
  }

  ghost predicate Continues(conf: Configuration, s: State) {
    s.temperature > 0.0 && |s.evaluated| < conf.maxEvaluations
  }

  ghost function Loop(f: Vector -> real, conf: Configuration, exp: real -> real, rnd: Random, guess: Vector)
    : Machine<State>
    requires ExpLike(exp) && IsRandom(rnd, |guess|)
  {
    Machine(s => Init(f, guess, s),
            (s, t) => Step(f, conf, exp, rnd, |guess|, s, t),
            s => Continues(conf, s))
  }

  /** The body of the optimization loop, up to the cooling. */
  method Pass(fn: ObjectiveFunction, conf: Configuration, exp: real -> real, rnd: Random, k: nat,
              current: Vector, value: real, best: Vector, value': real, temperature: real,
              ghost s: State, ghost base: seq<Vector>)
    returns (currentState: Vector, currentValue: real, bestState: Vector, bestValue: real, ghost t: State)
    requires ExpLike(exp) && IsRandom(rnd, fn.dim)
    requires s == State(current, value, best, value', temperature, s.evaluated)
    requires |current| == fn.dim && temperature >= 0.0 && |s.evaluated| == k + 1
    requires fn.Valid() && fn.log.calls == base + s.evaluated
    modifies fn.log
    ensures t == State(currentState, currentValue, bestState, bestValue, Cooled(conf, temperature), t.evaluated)
    ensures |currentState| == fn.dim && |t.evaluated| == k + 2
    ensures Step(fn.f, conf, exp, rnd, fn.dim, s, t)
    ensures fn.Valid() && fn.log.calls == base + t.evaluated
  {
    currentState, currentValue, bestState, bestValue := current, value, best, value';
    var newState := Add(currentState, rnd.displacement(k));
    var newValue := fn.Evaluate(newState);
    var p := AcceptanceProbability(exp, currentValue, newValue, temperature);
    if rnd.draw(k) < p {
      currentState, currentValue := newState, newValue;
    }
    if currentValue < bestValue {
      bestState, bestValue := currentState, currentValue;
    }
    t := State(currentState, currentValue, bestState, bestValue, Cooled(conf, temperature), s.evaluated + [newState]);
  }

  method Minimize(fn: ObjectiveFunction, conf: Configuration, exp: real -> real, rnd: Random, guess: Vector)
    returns (result: Vector, ghost run: seq<State>)
    requires fn.Valid() && |guess| == fn.dim
    requires ExpLike(exp) && IsRandom(rnd, |guess|)
    modifies fn.log
    ensures fn.Valid() && IsRun(Loop(fn.f, conf, exp, rnd, guess), run)
    ensures fn.log.calls == old(fn.log.calls) + Last(run).evaluated
    ensures result == Last(run).best
  {
    var temperature := MAX_T;
    var fev := 0;
    ghost var m, base := Loop(fn.f, conf, exp, rnd, guess), fn.log.calls;
    var currentState, bestState := guess, guess;
    var currentValue := fn.Evaluate(currentState);
    fev := fev + 1;
    var bestValue := currentValue;
    ghost var s := State(currentState, currentValue, bestState, bestValue, temperature, [guess]);
    run := [s];
    var again := true;
    while again
      invariant fn.Valid() && fn.log.calls == base + s.evaluated
      invariant s == State(currentState, currentValue, bestState, bestValue, temperature, s.evaluated)
      invariant |currentState| == fn.dim && temperature >= 0.0 && fev == |s.evaluated| >= 1
      invariant IsPrefix(m, run) && Last(run) == s
      invariant if again then |run| == 1 || m.continues(s) else |run| >= 2 && !m.continues(s)
      decreases again, conf.maxEvaluations - fev
    {
      ghost var t;
      currentState, currentValue, bestState, bestValue, t :=
        Pass(fn, conf, exp, rnd, fev - 1, currentState, currentValue, bestState, bestValue, temperature, s, base);
      fev := fev + 1;
      temperature := Cooled(conf, temperature);
      again := temperature > 0.0 && fev < conf.maxEvaluations;
      Extend(m, run, t);
      run, s := run + [t], t;
    }
    result := bestState;
  }

  // ---------------------------------------------------------------- all runs

  /** The invariant of the search: no accepted state is better than the best, so rejected ones are not either. */
  ghost predicate Found(f: Vector -> real, dim: nat, s: State) {
    && |s.current| == |s.best| == dim
    && s.currentValue == f(s.current) && s.bestValue <= s.currentValue
    && Attains(f, s.best, s.bestValue, s.evaluated)
  }

  lemma StepKeepsFound(f: Vector -> real, conf: Configuration, exp: real -> real, rnd: Random, dim: nat,
                       s: State, t: State)
    requires ExpLike(exp) && IsRandom(rnd, dim)
    requires Found(f, dim, s) && Step(f, conf, exp, rnd, dim, s, t)
    ensures Found(f, dim, t)
  {
    var n := |s.evaluated|;
    var x := t.evaluated[n];
    var i :| 0 <= i < n && s.evaluated[i] == s.best;
    assert t.evaluated[i] == s.best;
    assert rnd.draw(n - 1) < 1.0;
    assert t.bestValue <= f(x);
    forall k | 0 <= k <= n ensures t.bestValue <= f(t.evaluated[k]) {
      if k < n {
        assert t.evaluated[k] == s.evaluated[k];
      }
    }
  }

  /** In every state of every run the best state is the minimum of everything evaluated, accepted or not. */
  lemma RunFindsBest(f: Vector -> real, conf: Configuration, exp: real -> real, rnd: Random, guess: Vector,
                     run: seq<State>, i: nat)
    requires ExpLike(exp) && IsRandom(rnd, |guess|)
    requires IsPrefix(Loop(f, conf, exp, rnd, guess), run) && i < |run|
    ensures |run[i].best| == |guess|
    ensures Attains(f, run[i].best, run[i].bestValue, run[i].evaluated) && run[i].evaluated[0] == guess
  {
    var m := Loop(f, conf, exp, rnd, guess);
    var inv := (s: State) => Found(f, |guess|, s) && s.evaluated[0] == guess;
    forall s, t | inv(s) && m.step(s, t) ensures inv(t) {
      StepKeepsFound(f, conf, exp, rnd, |guess|, s, t);
    }
    Invariant(m, inv, run, i);
  }

  lemma CoolingArithmetic(n: nat, i: nat, t: real)
    requires i < n && t * (n as real) == MAX_T * ((n - i) as real)
    ensures Cooled(Configuration(n), t) * (n as real) == MAX_T * ((n - i - 1) as real)
    ensures i + 1 < n <==> Cooled(Configuration(n), t) > 0.0
  {
    var d := MAX_T / (n as real);
    assert d * (n as real) == MAX_T;
    var r := t - d;
    assert r * (n as real) == MAX_T * ((n - i - 1) as real);
    assert r >= 0.0;
  }

  /** After pass i the temperature has fallen linearly to zero at pass maxEvaluations, one evaluation a pass. */
  lemma {:induction false} RunCoolsLinearly(f: Vector -> real, conf: Configuration, exp: real -> real, rnd: Random,
                                            guess: Vector, run: seq<State>, i: nat)
    requires ExpLike(exp) && IsRandom(rnd, |guess|)
    requires IsPrefix(Loop(f, conf, exp, rnd, guess), run) && i < |run|
    ensures |run[i].evaluated| == i + 1
    ensures i <= conf.maxEvaluations && conf.maxEvaluations > 0 ==>
      run[i].temperature * (conf.maxEvaluations as real) == MAX_T * ((conf.maxEvaluations - i) as real)
    ensures i > 0 ==> (run[i].temperature > 0.0 <==> i < conf.maxEvaluations)
  {
    var m, n := Loop(f, conf, exp, rnd, guess), conf.maxEvaluations;
    if i == 0 {
      assert m.init(run[0]);
    } else {
      RunCoolsLinearly(f, conf, exp, rnd, guess, run, i - 1);
      assert m.step(run[i - 1], run[i]);
      if i - 1 < n {
        CoolingArithmetic(n, i - 1, run[i - 1].temperature);
      }
    }
  }

  /**
   What annealing accepts: every improvement; and, while it is warm, a
   worsening by d if the draw is below exp(-d / temperature). When it is cold
   nothing but improvements. The best state follows the current one exactly
   when that is strictly better.
   */
  lemma RunPassLaw(f: Vector -> real, conf: Configuration, exp: real -> real, rnd: Random, guess: Vector,
                   run: seq<State>, i: nat)
    requires ExpLike(exp) && IsRandom(rnd, |guess|)
    requires IsPrefix(Loop(f, conf, exp, rnd, guess), run) && i + 1 < |run|
    ensures var s, t := run[i], run[i + 1];
      && |s.current| == |guess| && |t.evaluated| == i + 2 && t.evaluated[..i + 1] == s.evaluated
      && var x := t.evaluated[i + 1];
      && |x| == |guess| && (forall j | 0 <= j < |guess| :: x[j] == s.current[j] + rnd.displacement(i)[j])
      && var d := f(x) - s.currentValue;
      && var accepted := d < 0.0 || (s.temperature > 0.0 && rnd.draw(i) < exp(-d / s.temperature));
      && t.current == (if accepted then x else s.current)
      && t.currentValue == f(t.current)
      && t.best == (if f(t.current) < s.bestValue then t.current else s.best)
      && t.bestValue == f(t.best)
  {
    var m := Loop(f, conf, exp, rnd, guess);
    var s, t := run[i], run[i + 1];
    RunCoolsLinearly(f, conf, exp, rnd, guess, run, i);
    RunKeepsFound(f, conf, exp, rnd, guess, run, i);
    RunKeepsFound(f, conf, exp, rnd, guess, run, i + 1);
    assert m.step(run[i], run[i + 1]);
  }

  lemma RunKeepsFound(f: Vector -> real, conf: Configuration, exp: real -> real, rnd: Random, guess: Vector,
                      run: seq<State>, i: nat)
    requires ExpLike(exp) && IsRandom(rnd, |guess|)
    requires IsPrefix(Loop(f, conf, exp, rnd, guess), run) && i < |run|
    ensures Found(f, |guess|, run[i]) && run[i].temperature >= 0.0
  {
    var m := Loop(f, conf, exp, rnd, guess);
    var inv := (s: State) => Found(f, |guess|, s) && s.temperature >= 0.0;
    forall s, t | inv(s) && m.step(s, t) ensures inv(t) {
      StepKeepsFound(f, conf, exp, rnd, |guess|, s, t);
    }
    Invariant(m, inv, run, i);
  }

  /** A complete run evaluates the objective exactly max(2, maxEvaluations) times. */
  lemma RunEvaluationCount(f: Vector -> real, conf: Configuration, exp: real -> real, rnd: Random, guess: Vector,
                           run: seq<State>)
    requires ExpLike(exp) && IsRandom(rnd, |guess|)
    requires IsRun(Loop(f, conf, exp, rnd, guess), run)
    ensures |Last(run).evaluated| == Max(2, conf.maxEvaluations)
  {
    var m, n := Loop(f, conf, exp, rnd, guess), |run| - 1;
    RunCoolsLinearly(f, conf, exp, rnd, guess, run, n);
    if n > 1 {
      RunCoolsLinearly(f, conf, exp, rnd, guess, run, n - 1);
      assert m.continues(run[n - 1]);
    }
  }
}
