/**
 The optimization manager (src/optimization/OptimizationManager.cpp): it wraps
 the user's function in a logging callback, a sign reversal, a box constraint
 and a mapping from the unit box, runs an optimizer on the stack, and maps the
 answer back. `Optimize` ties what the caller gets (a point and a log, both in
 user coordinates) to the points the optimizer asked for.
 */
module OptimizationManager {
  import opened Arithmetic
  import opened LinearAlgebra
  import opened Objectives
  import opened Runs
  import SX = SimplexOptimizer
  import SimplexSearch
  import CD = CoordinateDescentOptimizer
  import PW = PowellOptimizer
  import SA = SimulatedAnnealingOptimizer

  datatype Optimizer =
    | Simplex(sx: SX.Configuration, norm: Vector -> real)
    | CoordinateDescent(cd: CD.Configuration, norm: Vector -> real)
    | Powell(pw: PW.Configuration, norm: Vector -> real)
    | SimulatedAnnealing(sa: SA.Configuration, exp: real -> real, rnd: SA.Random)

  /** Thrown stands for the size-mismatch exceptions of the mapping and of the box constraint. */
  datatype Result = Optimum(point: Vector) | Thrown

  /** The random source of annealing is one of dim-dimensional displacements and draws in [0, 1). */
  ghost predicate Usable(opt: Optimizer, dim: nat) {
    opt.SimulatedAnnealing? ==> SA.ExpLike(opt.exp) && SA.IsRandom(opt.rnd, dim)
  }

  /** Some run of the optimizer on g, started at `start`, evaluates exactly these points and answers x. */
  ghost predicate Answers(opt: Optimizer, g: Vector -> real, start: Vector, x: Vector, evaluated: seq<Vector>)
    requires Usable(opt, |start|)
  {
    match opt
    case Simplex(conf, norm) =>
      exists run :: IsRun(SX.Loop(g, conf, norm, start), run) && evaluated == Last(run).evaluated
        && |Last(run).vertices| > 0 && x == Last(run).vertices[0].point
    case CoordinateDescent(conf, norm) =>
      exists run :: IsRun(CD.Loop(g, conf, norm, start), run) && evaluated == Last(run).evaluated && x == Last(run).m
    case Powell(conf, norm) =>
      exists run :: IsRun(PW.Loop(g, conf, norm, start), run) && evaluated == Last(run).evaluated
        && x == Last(run).guess
    case SimulatedAnnealing(conf, exp, rnd) =>
      exists run :: IsRun(SA.Loop(g, conf, exp, rnd, start), run) && evaluated == Last(run).evaluated
        && x == Last(run).best
  }

  /** The numbers of evaluations the optimizer may take in dim dimensions. */
  predicate WithinBudget(opt: Optimizer, dim: nat, n: nat) {
    match opt
    case Simplex(conf, _) => dim + 2 <= n <= Max(conf.maxEvaluations - 1, dim + 1) + dim + 2
    case CoordinateDescent(conf, _) => n <= Max(CD.Limit(conf.maxEvaluations), 1) + 2
    case Powell(conf, _) => n <= Max(conf.maxEvaluations, 1) + 2
    case SimulatedAnnealing(conf, _, _) => n == Max(2, conf.maxEvaluations)
  }

  /** The virtual call every optimizer answers. */
  method MinimizeWith(opt: Optimizer, fn: ObjectiveFunction, guess: Vector)
    returns (result: Vector, ghost evaluated: seq<Vector>)
    requires fn.Valid() && |guess| == fn.dim >= 1 && Usable(opt, fn.dim)
    modifies fn.log
    ensures fn.Valid() && fn.log.calls == old(fn.log.calls) + evaluated
    ensures |result| == fn.dim && Attains(fn.f, result, fn.f(result), evaluated)
    ensures evaluated[0] == guess && Answers(opt, fn.f, guess, result, evaluated)
    ensures WithinBudget(opt, fn.dim, |evaluated|)
  {
    match opt
    case Simplex(conf, norm) =>
      ghost var run;
      result, run := SX.Minimize(fn, conf, norm, guess);
      SimplexSearch.RunFindsBest(fn.f, conf, norm, guess, run, |run| - 1);
      SimplexSearch.RunWithinBudget(fn.f, conf, norm, guess, run);
      evaluated := Last(run).evaluated;
    case CoordinateDescent(conf, norm) =>
      ghost var run;
      result, run := CD.Minimize(fn, conf, norm, guess);
      CD.RunFindsBest(fn.f, conf, norm, guess, run, |run| - 1);
      CD.RunWithinBudget(fn.f, conf, norm, guess, run);
      evaluated := Last(run).evaluated;
    case Powell(conf, norm) =>
      ghost var run;
      result, run := PW.Minimize(fn, conf, norm, guess);
      PW.RunFindsBest(fn.f, conf, norm, guess, run, |run| - 1);
      PW.RunWithinBudget(fn.f, conf, norm, guess, run);
      evaluated := Last(run).evaluated;
    case SimulatedAnnealing(conf, exp, rnd) =>
      ghost var run;
      result, run := SA.Minimize(fn, conf, exp, rnd, guess);
      SA.RunFindsBest(fn.f, conf, exp, rnd, guess, run, |run| - 1);
      SA.RunEvaluationCount(fn.f, conf, exp, rnd, guess, run);
      evaluated := Last(run).evaluated;
  }

  // ----------------------------------------------- what the stack amounts to

  const UNIT := Range(0.0, 1.0)

  function Transforms(ranges: seq<Range>, dim: nat): (m: seq<Transform>)
    ensures |m| == (if |ranges| > 0 then |ranges| else dim)
  {
    if |ranges| > 0 then seq(|ranges|, i requires 0 <= i < |ranges| => Transform(UNIT, ranges[i]))
    else seq(dim, i => Transform(UNIT, UNIT))
  }

  /** The two ways the sizes of the guess, the ranges and the constraint can disagree. */
  predicate SizesDisagree(dim: nat, ranges: seq<Range>, constrained: bool) {
    if |ranges| > 0 then dim != |ranges| else constrained && dim != 0
  }

  function Signed(maximize: bool, v: real): real {
    if maximize then -v else v
  }

  predicate Allowed(ranges: seq<Range>, constrained: bool, x: Vector) {
    constrained ==> |x| == |ranges| && InBox(x, ranges)
  }

  /** What the optimizer minimizes, seen at a point x in user coordinates. */
  function Goal(f: Vector -> real, maximize: bool, ranges: seq<Range>, constrained: bool, x: Vector): real {
    if Allowed(ranges, constrained, x) then Signed(maximize, f(x)) else 0.0
  }

  /** The log of evaluating f at those of the points xs that are allowed, in order, unreversed. */
  function Entries(f: Vector -> real, ranges: seq<Range>, constrained: bool, xs: seq<Vector>): seq<LogEntry> {
    if xs == [] then []
    else
      var x := xs[|xs| - 1];
      Entries(f, ranges, constrained, xs[..|xs| - 1])
      + (if Allowed(ranges, constrained, x) then [LogEntry(x, f(x))] else [])
  }

  /** The stack of decorators `optimize` builds. */
  function Stack(f: Vector -> real, maximize: bool, ranges: seq<Range>, constrained: bool, dim: nat): Objective {
    Mapped(Boxed(f, maximize, ranges, constrained), Transforms(ranges, dim))
  }

  function Directed(f: Vector -> real, maximize: bool): Objective {
    if maximize then Reverted(Callback(User(f))) else Callback(User(f))
  }

  function Boxed(f: Vector -> real, maximize: bool, ranges: seq<Range>, constrained: bool): Objective {
    if constrained then Constrained(Directed(f, maximize), ranges, 0.0) else Directed(f, maximize)
  }

  lemma DirectedMeaning(f: Vector -> real, maximize: bool, x: Vector)
    ensures Accepts(Directed(f, maximize), |x|)
    ensures Value(Directed(f, maximize), x) == Signed(maximize, f(x))
    ensures Logged(Directed(f, maximize), x) == [LogEntry(x, f(x))]
  {
    var inner := Callback(User(f));
    assert Logged(User(f), x) == [];
    assert Value(inner, x) == f(x) && Logged(inner, x) == [LogEntry(x, f(x))];
  }

  lemma BoxedMeaning(f: Vector -> real, maximize: bool, ranges: seq<Range>, constrained: bool, x: Vector)
    requires constrained ==> |x| == |ranges|
    ensures Accepts(Boxed(f, maximize, ranges, constrained), |x|)
    ensures Value(Boxed(f, maximize, ranges, constrained), x) == Goal(f, maximize, ranges, constrained, x)
    ensures Logged(Boxed(f, maximize, ranges, constrained), x) ==
            if Allowed(ranges, constrained, x) then [LogEntry(x, f(x))] else []
  {
    DirectedMeaning(f, maximize, x);
  }

  /** A point of the optimizer's space in user coordinates. */
  function ToUser(ranges: seq<Range>, x: Vector): (r: Vector)
    requires |ranges| > 0 ==> |x| == |ranges|
    ensures |r| == |x|
  {
    MapVector(x, Transforms(ranges, |x|))
  }

  /** With ranges the unit interval of a coordinate is stretched over its range; without, nothing is mapped. */
  lemma UserCoordinate(ranges: seq<Range>, x: Vector, i: nat)
    requires (|ranges| > 0 ==> |x| == |ranges|) && i < |x|
    ensures ToUser(ranges, x)[i] ==
            if |ranges| > 0 then ranges[i].lo + Mul(x[i], ranges[i].hi - ranges[i].lo) else x[i]
  {
    assert (x[i] - 0.0) / (1.0 - 0.0) == x[i];
  }

  /** A point in user coordinates as the optimizer sees it. */
  function FromUser(ranges: seq<Range>, u: Vector): (r: Vector)
    requires (|ranges| > 0 ==> |u| == |ranges|) && forall i | 0 <= i < |ranges| :: Nondegenerate(ranges[i])
    ensures |r| == |u|
  {
    MapVector(u, Inverse(Transforms(ranges, |u|)))
  }

  /** g is what the stack computes of the user's function f. */
  ghost predicate ComputesGoal(g: Vector -> real, f: Vector -> real, maximize: bool, ranges: seq<Range>,
                               constrained: bool, dim: nat)
    requires |ranges| > 0 ==> dim == |ranges|
  {
    forall x: Vector {:trigger g(x)} ::
      |x| == dim ==> g(x) == Goal(f, maximize, ranges, constrained, ToUser(ranges, x))
  }

  function AllToUser(ranges: seq<Range>, dim: nat, xs: seq<Vector>): (r: seq<Vector>)
    requires Dim(xs, dim) && (|ranges| > 0 ==> dim == |ranges|)
    ensures |r| == |xs| && forall i | 0 <= i < |r| :: r[i] == ToUser(ranges, xs[i])
  {
    seq(|xs|, i requires 0 <= i < |xs| => ToUser(ranges, xs[i]))
  }

  /**
   Optimizing f from the guess may ask for exactly the points `asked`, in order,
   and return `point`: one and the same run of the optimizer does both.
   */
  ghost predicate CanAnswer(opt: Optimizer, f: Vector -> real, maximize: bool, ranges: seq<Range>,
                            constrained: bool, guess: Vector, point: Vector, asked: seq<Vector>)
    requires (|ranges| > 0 ==> |guess| == |ranges|) && forall i | 0 <= i < |ranges| :: Nondegenerate(ranges[i])
  {
    Usable(opt, |guess|) &&
    exists g: Vector -> real, x: Vector, evaluated: seq<Vector> ::
      |x| == |guess| && Dim(evaluated, |guess|) && Answers(opt, g, FromUser(ranges, guess), x, evaluated)
      && ComputesGoal(g, f, maximize, ranges, constrained, |guess|)
      && point == ToUser(ranges, x) && asked == AllToUser(ranges, |guess|, evaluated)
  }

  lemma StackMeaning(f: Vector -> real, maximize: bool, ranges: seq<Range>, constrained: bool, x: Vector)
    requires !SizesDisagree(|x|, ranges, constrained)
    ensures var o := Stack(f, maximize, ranges, constrained, |x|);
      && Accepts(o, |x|)
      && Value(o, x) == Goal(f, maximize, ranges, constrained, ToUser(ranges, x))
      && Logged(o, x) == Entries(f, ranges, constrained, [ToUser(ranges, x)])
  {
    BoxedMeaning(f, maximize, ranges, constrained, ToUser(ranges, x));
    assert Entries(f, ranges, constrained, []) == [];
    assert [ToUser(ranges, x)][..0] == [];
  }

  lemma {:induction false} StackLog(f: Vector -> real, maximize: bool, ranges: seq<Range>, constrained: bool,
                                    dim: nat, xs: seq<Vector>)
    requires Dim(xs, dim) && !SizesDisagree(dim, ranges, constrained)
    ensures LoggedAll(Stack(f, maximize, ranges, constrained, dim), xs) ==
            Entries(f, ranges, constrained, AllToUser(ranges, dim, xs))
  {
    if xs != [] {
      var n := |xs| - 1;
      StackLog(f, maximize, ranges, constrained, dim, xs[..n]);
      StackMeaning(f, maximize, ranges, constrained, xs[n]);
      var us := AllToUser(ranges, dim, xs);
      assert us[..n] == AllToUser(ranges, dim, xs[..n]);
      assert [us[n]][..0] == [];
    }
  }

  // ---------------------------------------------------------------- the manager

  class Manager {
    var optimizer: Optimizer
    var ranges: seq<Range>
    var constrained: bool
    const log: EvaluationLog

    constructor (optimizer: Optimizer, ranges: seq<Range>, constrained: bool)
      ensures this.optimizer == optimizer && this.ranges == ranges && this.constrained == constrained
      ensures fresh(log) && log.entries == []
    {
      this.optimizer, this.ranges, this.constrained := optimizer, ranges, constrained;
      this.log := new EvaluationLog();
    }

    /**
     `asked` lists, in user coordinates and in order, the points the optimizer asked for.
     The ranges must be nondegenerate, since the mapping divides by their widths.
     */
    method Optimize(f: Vector -> real, guess: Vector, dir: string) returns (r: Result, ghost asked: seq<Vector>)
      requires |guess| >= 1 && Usable(optimizer, |guess|)
      requires forall i | 0 <= i < |ranges| :: Nondegenerate(ranges[i])
      modifies log
      ensures r.Thrown? <==> SizesDisagree(|guess|, ranges, constrained)
      ensures r.Thrown? <==> if |ranges| > 0 then |guess| != |ranges| else constrained
      ensures r.Thrown? ==> log.entries == []
      ensures r.Optimum? ==> IsSearch(f, dir == "maximize", ranges, constrained, guess, asked, r.point)
      ensures r.Optimum? ==> log.entries == Entries(f, ranges, constrained, asked)
      ensures r.Optimum? ==> CanAnswer(optimizer, f, dir == "maximize", ranges, constrained, guess, r.point, asked)
      ensures r.Optimum? ==> WithinBudget(optimizer, |guess|, |asked|) && |log.entries| <= |asked|
      ensures r.Optimum? && (constrained ==> GoodStart(f, dir == "maximize", ranges, guess)) ==>
        Allowed(ranges, constrained, r.point) && BestOfLog(f, dir == "maximize", log.entries, r.point)
    {
      log.Clear();
      asked := [];
      var objective := Callback(User(f));
      if dir == "maximize" {
        objective := Reverted(objective);
      }
      if constrained {
        objective := Constrained(objective, ranges, 0.0);
      }
      var m := BuildMap(|guess|);
      objective := Mapped(objective, m);
      if |guess| != |m| {
        return Thrown, asked;
      }
      if constrained && |guess| != |ranges| {
        // the box constraint throws at the very first evaluation, before anything is logged
        return Thrown, asked;
      }
      var point;
      point, asked := Search(f, dir == "maximize", guess, m, objective);
      r := Optimum(point);
      EntriesAtMostAsked(f, ranges, constrained, asked);
      if constrained ==> GoodStart(f, dir == "maximize", ranges, guess) {
        AnswerIsBestOfLog(f, dir == "maximize", ranges, constrained, guess, asked, point, guess);
      }
    }

    method BuildMap(dim: nat) returns (m: seq<Transform>)
      ensures m == Transforms(ranges, dim)
    {
      m := [];
      if |ranges| > 0 {
        for i := 0 to |ranges|
          invariant |m| == i && forall k | 0 <= k < i :: m[k] == Transform(UNIT, ranges[k])
        {
          m := m + [Transform(UNIT, ranges[i])];
        }
      } else {
        for i := 0 to dim
          invariant |m| == i && forall k | 0 <= k < i :: m[k] == Transform(UNIT, UNIT)
        {
          m := m + [Transform(UNIT, UNIT)];
        }
      }
    }

    /** The optimization proper, on the finished stack. */
    method Search(f: Vector -> real, ghost maximize: bool, guess: Vector, m: seq<Transform>, objective: Objective)
      returns (point: Vector, ghost asked: seq<Vector>)
      requires |guess| >= 1 && Usable(optimizer, |guess|) && log.entries == [] && log.calls == []
      requires forall i | 0 <= i < |ranges| :: Nondegenerate(ranges[i])
      requires !SizesDisagree(|guess|, ranges, constrained)
      requires m == Transforms(ranges, |guess|) && objective == Stack(f, maximize, ranges, constrained, |guess|)
      modifies log
      ensures IsSearch(f, maximize, ranges, constrained, guess, asked, point)
      ensures log.entries == Entries(f, ranges, constrained, asked)
      ensures CanAnswer(optimizer, f, maximize, ranges, constrained, guess, point, asked)
      ensures WithinBudget(optimizer, |guess|, |asked|)
    {
      var result;
      ghost var evaluated, g;
      result, evaluated, g := MinimizeStack(f, maximize, guess, m, objective);
      point := MapParameters(result, m);
      asked := AllToUser(ranges, |guess|, evaluated);
      SearchSeenByUser(optimizer, f, maximize, ranges, constrained, guess, g, result, evaluated);
    }

    /** The optimizer's own run, in its own coordinates. */
    method MinimizeStack(ghost f: Vector -> real, ghost maximize: bool, guess: Vector, m: seq<Transform>,
                         objective: Objective)
      returns (result: Vector, ghost evaluated: seq<Vector>, ghost g: Vector -> real)
      requires |guess| >= 1 && Usable(optimizer, |guess|) && log.entries == [] && log.calls == []
      requires forall i | 0 <= i < |ranges| :: Nondegenerate(ranges[i])
      requires !SizesDisagree(|guess|, ranges, constrained)
      requires m == Transforms(ranges, |guess|) && objective == Stack(f, maximize, ranges, constrained, |guess|)
      modifies log
      ensures ComputesGoal(g, f, maximize, ranges, constrained, |guess|)
      ensures Dim(evaluated, |guess|) && |result| == |guess| && Attains(g, result, g(result), evaluated)
      ensures evaluated[0] == FromUser(ranges, guess)
      ensures Answers(optimizer, g, FromUser(ranges, guess), result, evaluated)
      ensures WithinBudget(optimizer, |guess|, |evaluated|)
      ensures log.entries == LoggedAll(objective, evaluated)
    {
      StackMeaning(f, maximize, ranges, constrained, guess);
      var fn := new ObjectiveFunction(objective, log, |guess|);
      g := fn.f;
      StackComputesGoal(f, maximize, ranges, constrained, |guess|, g);
      var start := UnmapParameters(guess, m);
      result, evaluated := MinimizeWith(optimizer, fn, start);
      assert fn.log.calls == evaluated;
      assert log.entries == LoggedAll(fn.stack, evaluated);
    }
  }

  /** What the optimizer did in its own space, in user coordinates. */
  lemma SearchSeenByUser(opt: Optimizer, f: Vector -> real, maximize: bool, ranges: seq<Range>, constrained: bool,
                         guess: Vector, g: Vector -> real, result: Vector, evaluated: seq<Vector>)
    requires !SizesDisagree(|guess|, ranges, constrained) && Usable(opt, |guess|)
    requires forall i | 0 <= i < |ranges| :: Nondegenerate(ranges[i])
    requires ComputesGoal(g, f, maximize, ranges, constrained, |guess|)
    requires Dim(evaluated, |guess|) && |result| == |guess| && Attains(g, result, g(result), evaluated)
    requires evaluated[0] == FromUser(ranges, guess)
    requires Answers(opt, g, FromUser(ranges, guess), result, evaluated)
    ensures var asked := AllToUser(ranges, |guess|, evaluated);
      && IsSearch(f, maximize, ranges, constrained, guess, asked, ToUser(ranges, result))
      && LoggedAll(Stack(f, maximize, ranges, constrained, |guess|), evaluated) ==
         Entries(f, ranges, constrained, asked)
      && CanAnswer(opt, f, maximize, ranges, constrained, guess, ToUser(ranges, result), asked)
  {
    StackLog(f, maximize, ranges, constrained, |guess|, evaluated);
    MappingRoundTrip(guess, Transforms(ranges, |guess|));
    SearchInUserSpace(f, maximize, ranges, constrained, guess, g, result, evaluated);
  }

  /** The guess lies in the box and beats the default value 0. */
  predicate GoodStart(f: Vector -> real, maximize: bool, ranges: seq<Range>, guess: Vector) {
    |guess| == |ranges| && InBox(guess, ranges) && Signed(maximize, f(guess)) < 0.0
  }

  /** The point is in the log with its true value, and no logged value is better in the requested direction. */
  ghost predicate BestOfLog(f: Vector -> real, maximize: bool, entries: seq<LogEntry>, point: Vector) {
    && LogEntry(point, f(point)) in entries
    && forall e | e in entries :: if maximize then f(point) >= e.result else f(point) <= e.result
  }

  lemma StackComputesGoal(f: Vector -> real, maximize: bool, ranges: seq<Range>, constrained: bool, dim: nat,
                          g: Vector -> real)
    requires !SizesDisagree(dim, ranges, constrained)
    requires var o := Stack(f, maximize, ranges, constrained, dim);
      Accepts(o, dim) && forall x: Vector {:trigger Value(o, x)} :: |x| == dim ==> g(x) == Value(o, x)
    ensures ComputesGoal(g, f, maximize, ranges, constrained, dim)
  {
    forall x: Vector | |x| == dim ensures g(x) == Goal(f, maximize, ranges, constrained, ToUser(ranges, x)) {
      StackMeaning(f, maximize, ranges, constrained, x);
    }
  }

  /** The points asked for include the guess, and none of them beats the answer. */
  ghost predicate IsSearch(f: Vector -> real, maximize: bool, ranges: seq<Range>, constrained: bool,
                           guess: Vector, asked: seq<Vector>, point: Vector) {
    && guess in asked && point in asked && Dim(asked, |guess|)
    && forall i | 0 <= i < |asked| ::
         Goal(f, maximize, ranges, constrained, point) <= Goal(f, maximize, ranges, constrained, asked[i])
  }

  lemma SearchInUserSpace(f: Vector -> real, maximize: bool, ranges: seq<Range>, constrained: bool, guess: Vector,
                          g: Vector -> real, result: Vector, evaluated: seq<Vector>)
    requires !SizesDisagree(|guess|, ranges, constrained)
    requires Dim(evaluated, |guess|) && |result| == |guess|
    requires Attains(g, result, g(result), evaluated) && ToUser(ranges, evaluated[0]) == guess
    requires ComputesGoal(g, f, maximize, ranges, constrained, |guess|)
    ensures IsSearch(f, maximize, ranges, constrained, guess, AllToUser(ranges, |guess|, evaluated),
                     ToUser(ranges, result))
  {
    var asked := AllToUser(ranges, |guess|, evaluated);
    assert asked[0] == guess;
    var k :| 0 <= k < |evaluated| && evaluated[k] == result;
    assert asked[k] == ToUser(ranges, result);
    forall i | 0 <= i < |asked|
      ensures Goal(f, maximize, ranges, constrained, ToUser(ranges, result))
              <= Goal(f, maximize, ranges, constrained, asked[i])
    {
      assert g(result) <= g(evaluated[i]);
    }
  }

  // ------------------------------------------------------------- end to end

  lemma {:induction false} EntriesAtMostAsked(f: Vector -> real, ranges: seq<Range>, constrained: bool,
                                              xs: seq<Vector>)
    ensures |Entries(f, ranges, constrained, xs)| <= |xs|
    ensures !constrained ==> |Entries(f, ranges, constrained, xs)| == |xs|
  {
    if xs != [] {
      EntriesAtMostAsked(f, ranges, constrained, xs[..|xs| - 1]);
    }
  }

  /** The log of one sequence of evaluations after another, and of a single one. */
  lemma {:induction false} EntriesInOrder(f: Vector -> real, ranges: seq<Range>, constrained: bool,
                                          xs: seq<Vector>, ys: seq<Vector>, x: Vector)
    ensures Entries(f, ranges, constrained, xs + ys) ==
            Entries(f, ranges, constrained, xs) + Entries(f, ranges, constrained, ys)
    ensures Entries(f, ranges, constrained, [x]) ==
            if constrained && !(|x| == |ranges| && forall i | 0 <= i < |x| :: ranges[i].lo <= x[i] <= ranges[i].hi)
            then [] else [LogEntry(x, f(x))]
    decreases |ys|
  {
    assert [x][..0] == [];
    if ys == [] {
      assert xs + ys == xs;
    } else {
      var n := |ys| - 1;
      assert (xs + ys)[..|xs| + n] == xs + ys[..n];
      EntriesInOrder(f, ranges, constrained, xs, ys[..n], x);
    }
  }

  lemma {:induction false} EntriesAreAllowedPoints(f: Vector -> real, ranges: seq<Range>, constrained: bool,
                                                   xs: seq<Vector>, e: LogEntry)
    ensures e in Entries(f, ranges, constrained, xs) <==>
            e.args in xs && e.result == f(e.args) && Allowed(ranges, constrained, e.args)
  {
    if xs != [] {
      var n := |xs| - 1;
      assert xs == xs[..n] + [xs[n]];
      EntriesAreAllowedPoints(f, ranges, constrained, xs[..n], e);
    }
  }

  /**
   If some point asked for is allowed and beats the default value 0 -- for
   instance the guess -- then the answer is allowed, it is in the log with its
   true value, and no logged value is better in the requested direction.
   */
  lemma AnswerIsBestOfLog(f: Vector -> real, maximize: bool, ranges: seq<Range>, constrained: bool, guess: Vector,
                          asked: seq<Vector>, point: Vector, good: Vector)
    requires IsSearch(f, maximize, ranges, constrained, guess, asked, point)
    requires !constrained || (good in asked && Goal(f, maximize, ranges, constrained, good) < 0.0)
    ensures Allowed(ranges, constrained, point)
    ensures BestOfLog(f, maximize, Entries(f, ranges, constrained, asked), point)
  {
    EntriesAreAllowedPoints(f, ranges, constrained, asked, LogEntry(point, f(point)));
    forall e | e in Entries(f, ranges, constrained, asked)
      ensures if maximize then f(point) >= e.result else f(point) <= e.result
    {
      EntriesAreAllowedPoints(f, ranges, constrained, asked, e);
      assert Goal(f, maximize, ranges, constrained, point) <= Goal(f, maximize, ranges, constrained, e.args);
    }
  }
}
