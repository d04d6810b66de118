/**
 The direction-set optimizer (src/optimization/PowellOptimizer.cpp).
 `Step` says what one pass of its loop does, `Minimize` is the imperative
 optimizer, and the theorems are about all runs. The length `norm` of a
 direction is left arbitrary.
 */
module PowellOptimizer {
  import opened Arithmetic
  import opened LinearAlgebra
  import opened LineProbe
  import opened Objectives
  import opened Runs
  import opened StdSort

  datatype Configuration = Configuration(rho0: real, rhoFinal: real, kSuccessful: real, kUnsuccessful: real,
                                         maxEvaluations: int)

  /** `rho` is the mean length of the directions, measured before the longest one is replaced. */
  datatype State = State(guess: Vector, best: real, dirs: seq<Vector>, idx: nat, rho: real, evaluated: seq<Vector>)

  predicate WellFormed(dim: nat, s: State) {
    |s.guess| == dim && |s.dirs| == dim && Dim(s.dirs, dim) && s.idx < dim
  }

  function AxisDirection(dim: nat, rho: real, i: nat): (r: Vector)
    requires i < dim
    ensures |r| == dim
  {
    Const(dim, 0.0)[i := rho]
  }

  function AxisDirections(dim: nat, rho: real): (r: seq<Vector>)
    ensures |r| == dim
  {
    seq(dim, i requires 0 <= i < dim => AxisDirection(dim, rho, i))
  }

  function TotalLength(norm: Vector -> real, dirs: seq<Vector>): real {
    if dirs == [] then 0.0
    else TotalLength(norm, dirs[..|dirs| - 1]) + norm(dirs[|dirs| - 1])
  }

  /** The sum of all directions. */
  function Total(dirs: seq<Vector>, dim: nat): (r: Vector)
    requires Dim(dirs, dim)
    ensures |r| == dim
  {
    seq(dim, j requires 0 <= j < dim => Sum(Col(dirs, j)))
  }

  function MeanDirection(dirs: seq<Vector>, dim: nat): (r: Vector)
    requires Dim(dirs, dim) && |dirs| > 0
    ensures |r| == dim
  {
    Divide(Total(dirs, dim), |dirs| as real)
  }

  /** The current direction, lengthened after a success and shortened otherwise. */
  function Rescaled(conf: Configuration, dirs: seq<Vector>, idx: nat, success: bool): (r: seq<Vector>)
    requires idx < |dirs|
    ensures |r| == |dirs|
  {
    dirs[idx := Scale(if success then conf.kSuccessful else conf.kUnsuccessful, dirs[idx])]
  }

  /** In some order by length, the last and longest direction has given way to the mean of all of them. */
  ghost predicate LongestReplaced(norm: Vector -> real, dim: nat, before: seq<Vector>, after: seq<Vector>) {
    && |before| > 0
    && exists sorted ::
         && SortedPermutation(before, sorted, norm)
         && |sorted| == |before| && Dim(sorted, dim)
         && after == sorted[|sorted| - 1 := MeanDirection(sorted, dim)]
  }

  /** On to the next direction, or, after the last one, to a new cycle. */
  ghost predicate Advanced(norm: Vector -> real, dim: nat, dirs: seq<Vector>, idx: nat,
                           dirs': seq<Vector>, idx': nat) {
    if idx + 1 < dim then idx' == idx + 1 && dirs' == dirs
    else idx' == 0 && LongestReplaced(norm, dim, dirs, dirs')
  }

  ghost predicate Init(f: Vector -> real, conf: Configuration, guess: Vector, s: State) {
    && s.guess == guess && s.best == f(guess) && s.idx == 0
    && s.dirs == AxisDirections(|guess|, conf.rho0)
    && s.evaluated == [guess]
  }

  ghost predicate Step(f: Vector -> real, conf: Configuration, norm: Vector -> real, dim: nat, s: State, t: State) {
    && WellFormed(dim, s)
    && var p := Probe(f, s.guess, s.best, s.dirs[s.idx]);
    && t.guess == p.x && t.best == p.value
    && t.evaluated == s.evaluated + Asked(s.guess, s.dirs[s.idx])
    && t.rho == TotalLength(norm, Rescaled(conf, s.dirs, s.idx, p.success)) / (dim as real)
    && Advanced(norm, dim, Rescaled(conf, s.dirs, s.idx, p.success), s.idx, t.dirs, t.idx)
  }

  ghost predicate Continues(conf: Configuration, s: State) {
    !(s.rho < conf.rhoFinal || |s.evaluated| > conf.maxEvaluations)
  }

  ghost function Loop(f: Vector -> real, conf: Configuration, norm: Vector -> real, guess: Vector): Machine<State> {
    Machine(s => Init(f, conf, guess, s),
            (s, t) => Step(f, conf, norm, |guess|, s, t),
            s => Continues(conf, s))
  }

  // ------------------------------------------------------------ the optimizer

  method InitialDirections(dim: nat, rho: real) returns (dirs: seq<Vector>)
    ensures dirs == AxisDirections(dim, rho)
  {
    dirs := [];
    for i := 0 to dim
      invariant |dirs| == i
      invariant forall k | 0 <= k < i :: dirs[k] == AxisDirection(dim, rho, k)
    {
      var baseDir := Const(dim, 0.0);
      baseDir := baseDir[i := rho];
      dirs := dirs + [baseDir];
    }
  }

  method MeanLength(norm: Vector -> real, dirs: seq<Vector>) returns (rho: real)
    requires |dirs| > 0
    ensures rho == TotalLength(norm, dirs) / (|dirs| as real)
  {
    rho := 0.0;
    for i := 0 to |dirs|
      invariant rho == TotalLength(norm, dirs[..i])
    {
      rho := rho + norm(dirs[i]);
      assert dirs[..i + 1][..i] == dirs[..i];
    }
    assert dirs[..|dirs|] == dirs;
    rho := rho / (|dirs| as real);
  }

  lemma SumSnoc(dirs: seq<Vector>, d: Vector, dim: nat)
    requires Dim(dirs, dim) && |d| == dim
    ensures Total(dirs + [d], dim) == Add(Total(dirs, dim), d)
  {
    forall j | 0 <= j < dim ensures Sum(Col(dirs + [d], j)) == Sum(Col(dirs, j)) + d[j] {
      assert Col(dirs + [d], j) == Col(dirs, j) + [d[j]];
      SumSplit(Col(dirs, j), [d[j]]);
    }
  }

  /** End of a cycle: sort the directions and replace the longest by their mean. */
  method NewCycle(norm: Vector -> real, dim: nat, before: seq<Vector>) returns (dirs: seq<Vector>)
    requires |before| == dim >= 1 && Dim(before, dim)
    ensures LongestReplaced(norm, dim, before, dirs) && |dirs| == dim && Dim(dirs, dim)
  {
    var sorted := SortBy(before, norm);
    DimReordered(before, sorted, dim);
    var newDir := Const(dim, 0.0);
    assert newDir == Total([], dim);
    for i := 0 to |sorted|
      invariant |newDir| == dim && newDir == Total(sorted[..i], dim)
    {
      SumSnoc(sorted[..i], sorted[i], dim);
      assert sorted[..i + 1] == sorted[..i] + [sorted[i]];
      newDir := Add(newDir, sorted[i]);
    }
    assert sorted[..|sorted|] == sorted;
    newDir := Divide(newDir, |sorted| as real);
    dirs := sorted[..|sorted| - 1];
    dirs := dirs + [newDir];
    assert dirs == sorted[|sorted| - 1 := MeanDirection(sorted, dim)];
  }

  method Rescale(conf: Configuration, before: seq<Vector>, dirIdx: nat, success: bool) returns (dirSet: seq<Vector>)
    requires dirIdx < |before|
    ensures dirSet == Rescaled(conf, before, dirIdx, success)
  {
    dirSet := before;
    if success {
      dirSet := dirSet[dirIdx := Scale(conf.kSuccessful, dirSet[dirIdx])];
    } else {
      dirSet := dirSet[dirIdx := Scale(conf.kUnsuccessful, dirSet[dirIdx])];
    }
  }

  method NextDirection(norm: Vector -> real, before: seq<Vector>, idx: nat, ghost dim: nat)
    returns (dirSet: seq<Vector>, dirIdx: nat)
    requires |before| == dim && Dim(before, dim) && idx < dim
    ensures Advanced(norm, dim, before, idx, dirSet, dirIdx)
    ensures dirIdx < |dirSet| == dim && Dim(dirSet, dim)
  {
    dirSet, dirIdx := before, idx + 1;
    if dirIdx >= |dirSet| {
      dirSet := NewCycle(norm, |dirSet|, dirSet);
      dirIdx := 0;
    }
  }

  /** The body of the optimization loop. */
  method Pass(fn: ObjectiveFunction, conf: Configuration, norm: Vector -> real, guess: Vector, bestValue: real,
              dirs: seq<Vector>, idx: nat, ghost s: State, ghost base: seq<Vector>)
    returns (currentGuess: Vector, best: real, dirSet: seq<Vector>, dirIdx: nat, rho: real, ghost t: State)
    requires s == State(guess, bestValue, dirs, idx, s.rho, s.evaluated) && WellFormed(fn.dim, s)
    requires fn.Valid() && fn.log.calls == base + s.evaluated
    modifies fn.log
    ensures t == State(currentGuess, best, dirSet, dirIdx, rho, t.evaluated) && WellFormed(fn.dim, t)
    ensures Step(fn.f, conf, norm, fn.dim, s, t) && |t.evaluated| == |s.evaluated| + 2
    ensures fn.Valid() && fn.log.calls == base + t.evaluated
  {
    var step := dirs[idx];
    var success;
    currentGuess, best, success := ProbeBothWays(fn, guess, bestValue, step);
    dirSet := Rescale(conf, dirs, idx, success);
    rho := MeanLength(norm, dirSet);
    dirSet, dirIdx := NextDirection(norm, dirSet, idx, fn.dim);
    t := State(currentGuess, best, dirSet, dirIdx, rho, s.evaluated + Asked(guess, step));
  }

  method Minimize(fn: ObjectiveFunction, conf: Configuration, norm: Vector -> real, guess: Vector)
    returns (result: Vector, ghost run: seq<State>)
    requires fn.Valid() && |guess| == fn.dim >= 1
    modifies fn.log
    ensures fn.Valid() && IsRun(Loop(fn.f, conf, norm, guess), run)
    ensures fn.log.calls == old(fn.log.calls) + Last(run).evaluated
    ensures result == Last(run).guess
  {
    var fev: int := 0;
    ghost var m, base := Loop(fn.f, conf, norm, guess), fn.log.calls;
    var bestValue := fn.Evaluate(guess);
    fev := fev + 1;
    var currentGuess := guess;
    var dirSet := InitialDirections(|guess|, conf.rho0);
    ghost var s := State(currentGuess, bestValue, dirSet, 0, 0.0, [guess]);
    run := [s];
    var dirIdx, stop := 0, false;
    while !stop
      invariant fn.Valid() && fn.log.calls == base + s.evaluated
      invariant s == State(currentGuess, bestValue, dirSet, dirIdx, s.rho, s.evaluated) && WellFormed(fn.dim, s)
      invariant IsPrefix(m, run) && Last(run) == s && fev == |s.evaluated|
      invariant if stop then |run| >= 2 && !m.continues(s) else |run| == 1 || m.continues(s)
      decreases !stop, conf.maxEvaluations - fev
    {
      var rho;
      ghost var t;
      currentGuess, bestValue, dirSet, dirIdx, rho, t :=
        Pass(fn, conf, norm, currentGuess, bestValue, dirSet, dirIdx, s, base);
      fev := fev + 2;
      stop := rho < conf.rhoFinal || fev > conf.maxEvaluations;
      Extend(m, run, t);
      run, s := run + [t], t;
    }
    result := currentGuess;
  }

  // ---------------------------------------------------------------- all runs

  lemma AxisDirectionsAreBasis(dim: nat, rho: real)
    requires rho != 0.0
    ensures Basis(AxisDirections(dim, rho), dim)
  {
    var vs := AxisDirections(dim, rho);
    forall c, j | |c| == dim && 0 <= j < dim ensures Dot(c, Col(vs, j)) == Mul(rho, c[j]) {
      DotBump(c, Col(vs, j), j, 0.0, rho);
    }
    forall c | Yields(c, vs, Const(dim, 0.0)) ensures IsZero(c) {
      forall i | 0 <= i < |c| ensures c[i] == 0.0 {
        assert Mul(rho, c[i]) == 0.0;
      }
    }
    forall x: Vector | |x| == dim ensures Reaches(vs, x) {
      var c := Divide(x, rho);
      forall j | 0 <= j < dim ensures Mul(rho, c[j]) == x[j] {
      }
      assert Yields(c, vs, x);
    }
  }

  /** Rescaling one direction by a nonzero factor keeps the basis. */
  lemma ScalingKeepsBasis(vs: seq<Vector>, dim: nat, k: nat, a: real)
    requires Basis(vs, dim) && k < dim && a != 0.0
    ensures Basis(vs[k := Scale(a, vs[k])], dim)
  {
    var w := Const(dim, 0.0)[k := a];
    forall j | 0 <= j < dim ensures Dot(w, Col(vs, j)) == Scale(a, vs[k])[j] {
      DotSpike(w, Col(vs, j), k);
    }
    Exchange(vs, dim, k, w, Scale(a, vs[k]));
  }

  /** Replacing any direction by the mean of all keeps the basis: the mean holds each one with weight 1/dim. */
  lemma MeanKeepsBasis(vs: seq<Vector>, dim: nat, k: nat)
    requires Basis(vs, dim) && k < dim
    ensures Basis(vs[k := MeanDirection(vs, dim)], dim)
  {
    var a := 1.0 / (dim as real);
    var w := Const(dim, a);
    forall j | 0 <= j < dim ensures Dot(w, Col(vs, j)) == MeanDirection(vs, dim)[j] {
      DotConst(w, Col(vs, j), a);
    }
    Exchange(vs, dim, k, w, MeanDirection(vs, dim));
  }

  lemma StepKeepsBasis(f: Vector -> real, conf: Configuration, norm: Vector -> real, dim: nat, s: State, t: State)
    requires conf.kSuccessful != 0.0 && conf.kUnsuccessful != 0.0
    requires Step(f, conf, norm, dim, s, t) && Basis(s.dirs, dim)
    ensures WellFormed(dim, t) && Basis(t.dirs, dim)
  {
    var success := Probe(f, s.guess, s.best, s.dirs[s.idx]).success;
    var scaled := Rescaled(conf, s.dirs, s.idx, success);
    ScalingKeepsBasis(s.dirs, dim, s.idx, if success then conf.kSuccessful else conf.kUnsuccessful);
    if s.idx + 1 >= dim {
      var sorted :| SortedPermutation(scaled, sorted, norm) && |sorted| == dim && Dim(sorted, dim)
                    && t.dirs == sorted[|sorted| - 1 := MeanDirection(sorted, dim)];
      Reordered(scaled, sorted, dim);
      MeanKeepsBasis(sorted, dim, dim - 1);
    }
  }

  /**
   With a nonzero initial length and nonzero factors, in every state of every
   run there are exactly dim directions, independent and together reaching
   every point of the space.
   */
  lemma RunKeepsBasis(f: Vector -> real, conf: Configuration, norm: Vector -> real, guess: Vector,
                      run: seq<State>, i: nat)
    requires |guess| >= 1 && conf.rho0 != 0.0 && conf.kSuccessful != 0.0 && conf.kUnsuccessful != 0.0
    requires IsPrefix(Loop(f, conf, norm, guess), run) && i < |run|
    ensures |run[i].dirs| == |guess| && Independent(run[i].dirs, |guess|) && Spanning(run[i].dirs, |guess|)
  {
    var m, dim := Loop(f, conf, norm, guess), |guess|;
    var inv := (s: State) => WellFormed(dim, s) && Basis(s.dirs, dim);
    forall s | m.init(s) ensures inv(s) {
      AxisDirectionsAreBasis(dim, conf.rho0);
    }
    forall s, t | inv(s) && m.step(s, t) ensures inv(t) {
      StepKeepsBasis(f, conf, norm, dim, s, t);
    }
    Invariant(m, inv, run, i);
  }

  /** The lengths of the directions. */
  function Lengths(norm: Vector -> real, dirs: seq<Vector>): (r: seq<real>)
    ensures |r| == |dirs|
  {
    seq(|dirs|, i requires 0 <= i < |dirs| => norm(dirs[i]))
  }

  lemma {:induction false} TotalLengthIsSum(norm: Vector -> real, dirs: seq<Vector>)
    ensures TotalLength(norm, dirs) == Sum(Lengths(norm, dirs))
  {
    if dirs != [] {
      var n := |dirs| - 1;
      TotalLengthIsSum(norm, dirs[..n]);
      assert Lengths(norm, dirs) == Lengths(norm, dirs[..n]) + [norm(dirs[n])];
      SumSplit(Lengths(norm, dirs[..n]), [norm(dirs[n])]);
    }
  }

  /** The directions d with the one at idx multiplied by a, coordinate by coordinate. */
  ghost predicate OneMultiplied(d: seq<Vector>, idx: nat, a: real, e: seq<Vector>) {
    && idx < |d| == |e|
    && (forall k | 0 <= k < |d| && k != idx :: e[k] == d[k])
    && |e[idx]| == |d[idx]| && forall j | 0 <= j < |d[idx]| :: e[idx][j] == d[idx][j] * a
  }

  /** Ordered by length, the longest direction of `sorted` gives way to a new one, the mean of all. */
  ghost predicate LongestToMean(norm: Vector -> real, dim: nat, sorted: seq<Vector>, e: seq<Vector>) {
    && |sorted| == dim == |e| && dim >= 1 && Dim(sorted, dim) && Dim(e, dim)
    && (forall i, j | 0 <= i < j < dim :: norm(sorted[i]) <= norm(sorted[j]))
    && (forall i | 0 <= i < dim - 1 :: e[i] == sorted[i])
    && forall j | 0 <= j < dim :: Mul(dim as real, e[dim - 1][j]) == Sum(Col(sorted, j))
  }

  /** The end of a cycle. */
  ghost predicate NewCycleOf(norm: Vector -> real, dim: nat, d: seq<Vector>, e: seq<Vector>) {
    exists sorted: seq<Vector> :: multiset(sorted) == multiset(d) && LongestToMean(norm, dim, sorted, e)
  }

  lemma MeanReplacesLongest(norm: Vector -> real, dim: nat, sorted: seq<Vector>)
    requires |sorted| == dim >= 1 && Dim(sorted, dim) && Ascending(sorted, norm)
    ensures LongestToMean(norm, dim, sorted, sorted[dim - 1 := MeanDirection(sorted, dim)])
  {
    var e := MeanDirection(sorted, dim);
    forall j | 0 <= j < dim ensures Mul(dim as real, e[j]) == Sum(Col(sorted, j)) {
      QuotientTimes(Sum(Col(sorted, j)), dim as real);
    }
  }

  lemma ReplacedIsNewCycle(norm: Vector -> real, dim: nat, d: seq<Vector>, e: seq<Vector>)
    requires |d| == dim >= 1 && LongestReplaced(norm, dim, d, e)
    ensures NewCycleOf(norm, dim, d, e)
  {
    var sorted :| SortedPermutation(d, sorted, norm) && |sorted| == dim && Dim(sorted, dim)
                  && e == sorted[|sorted| - 1 := MeanDirection(sorted, dim)];
    MeanReplacesLongest(norm, dim, sorted);
    assert LongestToMean(norm, dim, sorted, e);
  }

  lemma QuotientTimes(a: real, b: real)
    requires b != 0.0
    ensures b * (a / b) == a
  {
  }

  /** How a run starts: along the axes. */
  lemma RunStartsAlongAxes(f: Vector -> real, conf: Configuration, norm: Vector -> real, guess: Vector,
                           run: seq<State>)
    requires |guess| >= 1 && IsPrefix(Loop(f, conf, norm, guess), run)
    ensures var s := run[0];
      && s.guess == guess && s.best == f(guess) && s.evaluated == [guess] && s.idx == 0 && |s.dirs| == |guess|
      && forall i | 0 <= i < |guess| :: |s.dirs[i]| == |guess| &&
           forall j | 0 <= j < |guess| :: s.dirs[i][j] == if i == j then conf.rho0 else 0.0
  {
    assert Init(f, conf, guess, run[0]);
  }

  /** The law of a pass; `scaled` are the directions it goes on with. */
  ghost predicate LawfulPass(f: Vector -> real, conf: Configuration, norm: Vector -> real, dim: nat,
                             s: State, t: State, scaled: seq<Vector>)
    requires WellFormed(dim, s) && dim >= 1
  {
    && t.evaluated == s.evaluated + Asked(s.guess, s.dirs[s.idx])
    && t.guess == Probe(f, s.guess, s.best, s.dirs[s.idx]).x
    && OneMultiplied(s.dirs, s.idx, if t.best < s.best then conf.kSuccessful else conf.kUnsuccessful, scaled)
    && Mul(t.rho, dim as real) == Sum(Lengths(norm, scaled))
    && if s.idx + 1 < dim then t.dirs == scaled else NewCycleOf(norm, dim, scaled, t.dirs)
  }

  lemma RescaledIsMultiplied(conf: Configuration, dirs: seq<Vector>, idx: nat, success: bool)
    requires idx < |dirs|
    ensures OneMultiplied(dirs, idx, if success then conf.kSuccessful else conf.kUnsuccessful,
                          Rescaled(conf, dirs, idx, success))
  {
  }

  lemma MeanLengthTimes(norm: Vector -> real, dirs: seq<Vector>, d: real)
    requires d != 0.0
    ensures Mul(TotalLength(norm, dirs) / d, d) == Sum(Lengths(norm, dirs))
  {
    TotalLengthIsSum(norm, dirs);
    QuotientTimes(TotalLength(norm, dirs), d);
  }

  lemma StepIsLawful(f: Vector -> real, conf: Configuration, norm: Vector -> real, dim: nat, s: State, t: State)
    returns (scaled: seq<Vector>)
    requires Step(f, conf, norm, dim, s, t) && dim >= 1 && Attains(f, s.guess, s.best, s.evaluated)
    ensures LawfulPass(f, conf, norm, dim, s, t, scaled)
  {
    ProbeKeepsBest(f, s.guess, s.best, s.dirs[s.idx], s.evaluated);
    scaled := Rescaled(conf, s.dirs, s.idx, t.best < s.best);
    RescaledIsMultiplied(conf, s.dirs, s.idx, t.best < s.best);
    MeanLengthTimes(norm, scaled, dim as real);
    if s.idx + 1 >= dim {
      ReplacedIsNewCycle(norm, dim, scaled, t.dirs);
    }
  }

  /**
   How a run goes on. Pass i probes along direction i modulo dim and multiplies
   it by the factor for success exactly if the best value has improved. rho is
   the mean length of the directions after that. Then the next one has its turn,
   or a new cycle begins.
   */
  lemma RunPassLaw(f: Vector -> real, conf: Configuration, norm: Vector -> real, guess: Vector,
                   run: seq<State>, i: nat)
    returns (scaled: seq<Vector>)
    requires |guess| >= 1 && IsPrefix(Loop(f, conf, norm, guess), run) && i + 1 < |run|
    ensures WellFormed(|guess|, run[i]) && run[i].idx == i % |guess|
    ensures LawfulPass(f, conf, norm, |guess|, run[i], run[i + 1], scaled)
  {
    assert Step(f, conf, norm, |guess|, run[i], run[i + 1]) by {
      assert Loop(f, conf, norm, guess).step(run[i], run[i + 1]);
    }
    RunTurns(f, conf, norm, guess, run, i);
    RunFindsBest(f, conf, norm, guess, run, i);
    scaled := StepIsLawful(f, conf, norm, |guess|, run[i], run[i + 1]);
  }

  lemma {:induction false} RunTurns(f: Vector -> real, conf: Configuration, norm: Vector -> real, guess: Vector,
                                    run: seq<State>, i: nat)
    requires |guess| >= 1 && IsPrefix(Loop(f, conf, norm, guess), run) && i < |run|
    ensures run[i].idx == i % |guess|
  {
    var m := Loop(f, conf, norm, guess);
    if i == 0 {
      assert m.init(run[0]);
    } else {
      RunTurns(f, conf, norm, guess, run, i - 1);
      assert m.step(run[i - 1], run[i]);
      NextTurn(i - 1, |guess|, run[i].idx);
    }
  }

  /** When a run goes on after a pass: while the directions are long on average and evaluations are left. */
  lemma RunStopsInTime(f: Vector -> real, conf: Configuration, norm: Vector -> real, guess: Vector,
                       run: seq<State>, i: nat)
    requires IsRun(Loop(f, conf, norm, guess), run) && 0 < i < |run|
    ensures i < |run| - 1 <==> run[i].rho >= conf.rhoFinal && |run[i].evaluated| <= conf.maxEvaluations
  {
    var m := Loop(f, conf, norm, guess);
    assert i < |run| - 1 ==> m.continues(run[i]);
    assert i == |run| - 1 ==> !m.continues(run[i]);
  }

  /** In every state of every run the current guess is the minimum of everything evaluated so far. */
  lemma RunFindsBest(f: Vector -> real, conf: Configuration, norm: Vector -> real, guess: Vector,
                     run: seq<State>, i: nat)
    requires |guess| >= 1 && IsPrefix(Loop(f, conf, norm, guess), run) && i < |run|
    ensures |run[i].guess| == |guess|
    ensures Attains(f, run[i].guess, run[i].best, run[i].evaluated) && run[i].evaluated[0] == guess
  {
    var m := Loop(f, conf, norm, guess);
    var inv := (s: State) => |s.guess| == |guess| && Attains(f, s.guess, s.best, s.evaluated)
                           && s.evaluated[0] == guess;
    forall s, t | inv(s) && m.step(s, t) ensures inv(t) {
      ProbeKeepsBest(f, s.guess, s.best, s.dirs[s.idx], s.evaluated);
    }
    Invariant(m, inv, run, i);
  }

  /** A complete run evaluates the objective an odd number of times, at most max(maxEvaluations, 1) + 2. */
  lemma RunWithinBudget(f: Vector -> real, conf: Configuration, norm: Vector -> real, guess: Vector, run: seq<State>)
    requires |guess| >= 1 && IsRun(Loop(f, conf, norm, guess), run)
    ensures |Last(run).evaluated| == 2 * |run| - 1
    ensures |Last(run).evaluated| <= Max(conf.maxEvaluations, 1) + 2
  {
    var m, n := Loop(f, conf, norm, guess), |run| - 2;
    CountEvaluations(f, conf, norm, guess, run, n);
    assert m.step(run[n], run[n + 1]);
    assert n > 0 ==> m.continues(run[n]);
  }

  lemma {:induction false} CountEvaluations(f: Vector -> real, conf: Configuration, norm: Vector -> real,
                                            guess: Vector, run: seq<State>, i: nat)
    requires IsPrefix(Loop(f, conf, norm, guess), run) && i < |run|
    ensures |run[i].evaluated| == 2 * i + 1
  {
    var m := Loop(f, conf, norm, guess);
    if i == 0 {
      assert m.init(run[0]);
    } else {
      CountEvaluations(f, conf, norm, guess, run, i - 1);
      assert m.step(run[i - 1], run[i]);
    }
  }
}
