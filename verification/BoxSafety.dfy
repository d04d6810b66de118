/**
 Does a constrained optimization answer inside the box? Outside the box the
 constrained function has the default value 0, so the question is settled by
 the sign of the objective at the guess. `AnswersInsideIff` decides it for each
 optimizer: over all its configurations and runs on the one hand, by a test of
 the guess on the other.
 */
module BoxSafety {
  import opened LinearAlgebra
  import opened Objectives
  import opened LineProbe
  import opened StdSort
  import opened Runs
  import opened OptimizationManager
  import SX = SimplexOptimizer
  import SimplexSearch
  import SG = SimplexGeometry
  import CD = CoordinateDescentOptimizer
  import PW = PowellOptimizer
  import SA = SimulatedAnnealingOptimizer

  datatype Kind = NelderMead | Coordinates | Directions | Annealing

  function KindOf(opt: Optimizer): Kind {
    match opt
    case Simplex(_, _) => NelderMead
    case CoordinateDescent(_, _) => Coordinates
    case Powell(_, _) => Directions
    case SimulatedAnnealing(_, _, _) => Annealing
  }

  /** The optimizer measures lengths with norm and draws with exp, the two library functions left arbitrary. */
  ghost predicate Uses(opt: Optimizer, norm: Vector -> real, exp: real -> real) {
    if opt.SimulatedAnnealing? then opt.exp == exp else opt.norm == norm
  }

  /** A guess in a box of nondegenerate ranges. */
  predicate Feasible(ranges: seq<Range>, guess: Vector) {
    && |guess| == |ranges| >= 1 && InBox(guess, ranges)
    && forall i | 0 <= i < |ranges| :: Nondegenerate(ranges[i])
  }

  predicate Inside(ranges: seq<Range>, x: Vector)
    requires |x| == |ranges|
  {
    InBox(ToUser(ranges, x), ranges)
  }

  /** Every answer of every optimizer of the kind lies in the box. */
  ghost predicate AlwaysInside(kind: Kind, norm: Vector -> real, exp: real -> real,
                               f: Vector -> real, maximize: bool, ranges: seq<Range>, guess: Vector)
    requires Feasible(ranges, guess)
  {
    forall opt, point, asked {:trigger CanAnswer(opt, f, maximize, ranges, true, guess, point, asked)} ::
      KindOf(opt) == kind && Uses(opt, norm, exp)
      && CanAnswer(opt, f, maximize, ranges, true, guess, point, asked) ==>
        Allowed(ranges, true, point)
  }

  // ---------------------------------------------------------------- the box

  lemma GuessInUnit(ranges: seq<Range>, guess: Vector, i: nat)
    requires Feasible(ranges, guess) && i < |ranges|
    ensures ranges[i].lo < ranges[i].hi && 0.0 <= FromUser(ranges, guess)[i] <= 1.0
    ensures ToUser(ranges, FromUser(ranges, guess)) == guess
  {
    var a, w := guess[i] - ranges[i].lo, ranges[i].hi - ranges[i].lo;
    ShareInUnit(a, w);
    assert FromUser(ranges, guess)[i] == 0.0 + a / w * 1.0;
    MappingRoundTrip(guess, Transforms(ranges, |guess|));
  }

  lemma ShareInUnit(a: real, w: real)
    requires 0.0 <= a <= w && w > 0.0
    ensures 0.0 <= a / w <= 1.0
  {
    var q := a / w;
    assert q * w == a;
    assert q < 0.0 ==> q * w < 0.0;
    assert q > 1.0 ==> (q - 1.0) * w > 0.0;
    assert (q - 1.0) * w == q * w - w;
  }

  /** A coordinate above 1 is above its range in user coordinates. */
  lemma AboveIsOutside(ranges: seq<Range>, x: Vector, i: nat)
    requires |x| == |ranges| && i < |ranges| && ranges[i].lo < ranges[i].hi && x[i] > 1.0
    ensures !Inside(ranges, x)
  {
    UserCoordinate(ranges, x, i);
    ProductSigns(x[i], ranges[i].hi - ranges[i].lo);
    assert ToUser(ranges, x)[i] > ranges[i].hi;
  }

  /** So is one below 0. */
  lemma BelowIsOutside(ranges: seq<Range>, x: Vector, i: nat)
    requires |x| == |ranges| && i < |ranges| && ranges[i].lo < ranges[i].hi && x[i] < 0.0
    ensures !Inside(ranges, x)
  {
    UserCoordinate(ranges, x, i);
    ProductSigns(x[i], ranges[i].hi - ranges[i].lo);
    assert ToUser(ranges, x)[i] < ranges[i].lo;
  }

  lemma ProductSigns(p: real, w: real)
    requires w > 0.0
    ensures p < 0.0 ==> Mul(p, w) < 0.0
    ensures p > 1.0 ==> Mul(p, w) > w
  {
    assert p > 1.0 ==> (p - 1.0) * w > 0.0;
    assert (p - 1.0) * w == p * w - w;
  }

  /** What the optimizer minimizes, as a function of its own coordinates. */
  function GoalOf(f: Vector -> real, maximize: bool, ranges: seq<Range>): (g: Vector -> real)
    requires |ranges| >= 1
    ensures ComputesGoal(g, f, maximize, ranges, true, |ranges|)
  {
    x => if |x| == |ranges| then Goal(f, maximize, ranges, true, ToUser(ranges, x)) else 0.0
  }

  /** g is 0 outside the box. */
  ghost predicate ZeroOutside(g: Vector -> real, ranges: seq<Range>) {
    forall x: Vector {:trigger g(x)} :: |x| == |ranges| && !Inside(ranges, x) ==> g(x) == 0.0
  }

  lemma GoalIsZeroOutside(g: Vector -> real, f: Vector -> real, maximize: bool, ranges: seq<Range>, guess: Vector)
    requires Feasible(ranges, guess) && ComputesGoal(g, f, maximize, ranges, true, |guess|)
    ensures ZeroOutside(g, ranges)
    ensures g(FromUser(ranges, guess)) == Signed(maximize, f(guess)) && Inside(ranges, FromUser(ranges, guess))
  {
    GuessInUnit(ranges, guess, 0);
  }

  // ------------------------------------------------------- staying in the box

  /** Strictly improving on a value of at most 0 never leads outside. */
  lemma ProbeStaysInside(g: Vector -> real, ranges: seq<Range>, x: Vector, best: real, step: Vector)
    requires |x| == |step| == |ranges| && ZeroOutside(g, ranges) && Inside(ranges, x) && best <= 0.0
    ensures var p := Probe(g, x, best, step); Inside(ranges, p.x) && p.value <= 0.0
  {}

  lemma CoordinatesStayInside(g: Vector -> real, conf: CD.Configuration, norm: Vector -> real, ranges: seq<Range>,
                              start: Vector, run: seq<CD.State>, i: nat)
    requires |start| == |ranges| >= 1 && ZeroOutside(g, ranges) && Inside(ranges, start) && g(start) <= 0.0
    requires IsPrefix(CD.Loop(g, conf, norm, start), run) && i < |run|
    ensures |run[i].m| == |ranges| && Inside(ranges, run[i].m)
  {
    var m := CD.Loop(g, conf, norm, start);
    var inv := (s: CD.State) => |s.m| == |ranges| && Inside(ranges, s.m) && s.best <= 0.0;
    forall s, t | inv(s) && m.step(s, t) ensures inv(t) {
      ProbeStaysInside(g, ranges, s.m, s.best, CD.StepAlong(s.stepSizes, s.ix));
    }
    Invariant(m, inv, run, i);
  }

  lemma DirectionsStayInside(g: Vector -> real, conf: PW.Configuration, norm: Vector -> real, ranges: seq<Range>,
                             start: Vector, run: seq<PW.State>, i: nat)
    requires |start| == |ranges| >= 1 && ZeroOutside(g, ranges) && Inside(ranges, start) && g(start) <= 0.0
    requires IsPrefix(PW.Loop(g, conf, norm, start), run) && i < |run|
    ensures |run[i].guess| == |ranges| && Inside(ranges, run[i].guess)
  {
    var m := PW.Loop(g, conf, norm, start);
    var inv := (s: PW.State) => |s.guess| == |ranges| && Inside(ranges, s.guess) && s.best <= 0.0;
    forall s, t | inv(s) && m.step(s, t) ensures inv(t) {
      ProbeStaysInside(g, ranges, s.guess, s.best, s.dirs[s.idx]);
    }
    Invariant(m, inv, run, i);
  }

  /** The current state of annealing may leave the box, its best state does not. */
  lemma AnnealingStaysInside(g: Vector -> real, conf: SA.Configuration, exp: real -> real, rnd: SA.Random,
                             ranges: seq<Range>, start: Vector, run: seq<SA.State>, i: nat)
    requires |start| == |ranges| >= 1 && ZeroOutside(g, ranges) && Inside(ranges, start) && g(start) <= 0.0
    requires SA.ExpLike(exp) && SA.IsRandom(rnd, |start|)
    requires IsPrefix(SA.Loop(g, conf, exp, rnd, start), run) && i < |run|
    ensures |run[i].best| == |ranges| && Inside(ranges, run[i].best)
  {
    var m := SA.Loop(g, conf, exp, rnd, start);
    var inv := (s: SA.State) => |s.current| == |s.best| == |ranges| && s.currentValue == g(s.current)
                              && Inside(ranges, s.best) && s.bestValue <= 0.0;
    forall s, t | inv(s) && m.step(s, t) ensures inv(t) {
      assert t.best == s.best || (t.best == t.current && t.currentValue < 0.0);
    }
    Invariant(m, inv, run, i);
  }

  /** A negative value at the start is enough for the simplex, too. */
  lemma NelderMeadEndsInside(g: Vector -> real, conf: SX.Configuration, norm: Vector -> real, ranges: seq<Range>,
                             start: Vector, run: seq<SX.State>)
    requires |start| == |ranges| >= 1 && ZeroOutside(g, ranges) && g(start) < 0.0
    requires IsRun(SX.Loop(g, conf, norm, start), run)
    ensures |Last(run).vertices| > 0 && |Last(run).vertices[0].point| == |ranges|
    ensures Inside(ranges, Last(run).vertices[0].point)
  {
    SimplexSearch.RunFindsBest(g, conf, norm, start, run, |run| - 1);
    assert Last(run).vertices[0].value <= g(Last(run).evaluated[0]);
  }

  predicate SafeStart(kind: Kind, value: real) {
    if kind.NelderMead? then value < 0.0 else value <= 0.0
  }

  lemma SafeStartAnswersInside(opt: Optimizer, f: Vector -> real, maximize: bool, ranges: seq<Range>, guess: Vector,
                               point: Vector, asked: seq<Vector>)
    requires Feasible(ranges, guess) && SafeStart(KindOf(opt), Signed(maximize, f(guess)))
    requires CanAnswer(opt, f, maximize, ranges, true, guess, point, asked)
    ensures Allowed(ranges, true, point)
  {
    var start := FromUser(ranges, guess);
    var g: Vector -> real, x: Vector, evaluated: seq<Vector> :|
      |x| == |guess| && Dim(evaluated, |guess|) && Answers(opt, g, start, x, evaluated)
      && ComputesGoal(g, f, maximize, ranges, true, |guess|)
      && point == ToUser(ranges, x) && asked == AllToUser(ranges, |guess|, evaluated);
    GoalIsZeroOutside(g, f, maximize, ranges, guess);
    match opt
    case Simplex(conf, norm) =>
      var run :| IsRun(SX.Loop(g, conf, norm, start), run)
        && |Last(run).vertices| > 0 && x == Last(run).vertices[0].point;
      NelderMeadEndsInside(g, conf, norm, ranges, start, run);
    case CoordinateDescent(conf, norm) =>
      var run :| IsRun(CD.Loop(g, conf, norm, start), run) && x == Last(run).m;
      CoordinatesStayInside(g, conf, norm, ranges, start, run, |run| - 1);
    case Powell(conf, norm) =>
      var run :| IsRun(PW.Loop(g, conf, norm, start), run) && x == Last(run).guess;
      DirectionsStayInside(g, conf, norm, ranges, start, run, |run| - 1);
    case SimulatedAnnealing(conf, exp, rnd) =>
      var run :| IsRun(SA.Loop(g, conf, exp, rnd, start), run) && x == Last(run).best;
      AnnealingStaysInside(g, conf, exp, rnd, ranges, start, run, |run| - 1);
  }

  // ------------------------------------------------------- leaving the box

  /** A start in the unit box, and what the wrapped function is there and outside. */
  ghost predicate StartsAt(g: Vector -> real, ranges: seq<Range>, start: Vector, value: real) {
    && |start| == |ranges| >= 1 && ZeroOutside(g, ranges) && g(start) == value
    && forall i | 0 <= i < |ranges| :: ranges[i].lo < ranges[i].hi && 0.0 <= start[i] <= 1.0
  }

  /** One step of two unit widths back from a positive value: the default value looks better. */
  lemma CoordinatesLeave(norm: Vector -> real, g: Vector -> real, ranges: seq<Range>, start: Vector)
    returns (x: Vector, evaluated: seq<Vector>)
    requires StartsAt(g, ranges, start, g(start)) && g(start) > 0.0
    ensures x == start[0 := start[0] - 2.0] && !Inside(ranges, x)
    ensures Answers(CoordinateDescent(CD.Configuration(2.0, 0.0, 1.0, 1.0, 0), norm), g, start, x, evaluated)
    ensures Dim(evaluated, |start|)
  {
    var dim, conf := |start|, CD.Configuration(2.0, 0.0, 1.0, 1.0, 0);
    var s := CD.State(start, g(start), Const(dim, 2.0), 0, [start]);
    var step := CD.StepAlong(s.stepSizes, 0);
    x := Sub(start, step);
    assert x == start[0 := start[0] - 2.0];
    evaluated := [start] + Asked(start, step);
    BelowIsOutside(ranges, x, 0);
    AboveIsOutside(ranges, Add(start, step), 0);
    var t := CD.State(x, 0.0, CD.Resized(conf, s.stepSizes, 0, true), 1 % dim, evaluated);
    OnePass(CD.Loop(g, conf, norm, start), s, t);
  }

  lemma DirectionsLeave(norm: Vector -> real, g: Vector -> real, ranges: seq<Range>, start: Vector)
    returns (x: Vector, evaluated: seq<Vector>)
    requires StartsAt(g, ranges, start, g(start)) && g(start) > 0.0
    ensures |x| == |ranges| && !Inside(ranges, x)
    ensures Answers(Powell(PW.Configuration(2.0, 0.0, 1.0, 1.0, 0), norm), g, start, x, evaluated)
    ensures Dim(evaluated, |start|)
  {
    var dim, conf := |start|, PW.Configuration(2.0, 0.0, 1.0, 1.0, 0);
    var s := PW.State(start, g(start), PW.AxisDirections(dim, 2.0), 0, 0.0, [start]);
    var step := s.dirs[0];
    x := Sub(start, step);
    BelowIsOutside(ranges, x, 0);
    AboveIsOutside(ranges, Add(start, step), 0);
    assert Probe(g, start, g(start), step) == Probed(x, 0.0, true);
    var t := SomeStep(norm, conf, g, s, dim);
    OnePass(PW.Loop(g, conf, norm, start), s, t);
    evaluated := t.evaluated;
  }

  lemma SomeStep(norm: Vector -> real, conf: PW.Configuration, g: Vector -> real, s: PW.State, dim: nat)
    returns (t: PW.State)
    requires PW.WellFormed(dim, s) && s.idx == 0
    ensures PW.Step(g, conf, norm, dim, s, t) && t.evaluated == s.evaluated + Asked(s.guess, s.dirs[0])
  {
    var p := Probe(g, s.guess, s.best, s.dirs[0]);
    var dirs := PW.Rescaled(conf, s.dirs, 0, p.success);
    var dirs', idx' := SomeAdvance(norm, dim, dirs);
    t := PW.State(p.x, p.value, dirs', idx', PW.TotalLength(norm, dirs) / (dim as real),
                  s.evaluated + Asked(s.guess, s.dirs[0]));
  }

  lemma SomeAdvance(norm: Vector -> real, dim: nat, dirs: seq<Vector>) returns (dirs': seq<Vector>, idx': nat)
    requires |dirs| == dim >= 1 && Dim(dirs, dim)
    ensures PW.Advanced(norm, dim, dirs, 0, dirs', idx')
  {
    if dim > 1 {
      dirs', idx' := dirs, 1;
    } else {
      dirs', idx' := dirs[0 := PW.MeanDirection(dirs, dim)], 0;
      assert SortedPermutation(dirs, dirs, norm);
    }
  }

  /** A displacement by two unit widths in every coordinate, drawn and accepted. */
  lemma AnnealingLeaves(exp: real -> real, g: Vector -> real, ranges: seq<Range>, start: Vector)
    returns (opt: Optimizer, x: Vector, evaluated: seq<Vector>)
    requires SA.ExpLike(exp) && StartsAt(g, ranges, start, g(start)) && g(start) > 0.0
    ensures opt.SimulatedAnnealing? && opt.exp == exp && Usable(opt, |start|) && |x| == |ranges| && !Inside(ranges, x)
    ensures Answers(opt, g, start, x, evaluated)
    ensures Dim(evaluated, |start|)
  {
    var dim, conf := |start|, SA.Configuration(0);
    var rnd := SA.Random(k => Const(dim, 2.0), k => 0.0);
    opt := SimulatedAnnealing(conf, exp, rnd);
    x := Add(start, Const(dim, 2.0));
    AboveIsOutside(ranges, x, 0);
    var s := SA.State(start, g(start), start, g(start), SA.MAX_T, [start]);
    var t := SA.State(x, 0.0, x, 0.0, 0.0, [start, x]);
    assert [start] + [x] == [start, x];
    OnePass(SA.Loop(g, conf, exp, rnd, start), s, t);
    evaluated := t.evaluated;
  }

  /** The initial vertices, the guess last: the others are outside, so this is sorted if the guess is not negative. */
  function GuessLast(g: Vector -> real, start: Vector, size: real): (vs: seq<SX.Vertex>)
    ensures SX.IsSimplex(g, |start|, vs)
  {
    var corners := SX.Corners(g, start, size);
    corners[1..] + [corners[0]]
  }

  lemma RestIsOutside(g: Vector -> real, ranges: seq<Range>, start: Vector, size: real, i: nat)
    requires StartsAt(g, ranges, start, g(start)) && size > 1.0 && i < |start|
    ensures var v := GuessLast(g, start, size)[i];
      v.value == 0.0 && v.point == start[i := start[i] + size] && !Inside(ranges, v.point)
  {
    assert GuessLast(g, start, size)[i] == SX.Corners(g, start, size)[i + 1];
    AboveIsOutside(ranges, start[i := start[i] + size], i);
  }

  lemma GuessLastIsInit(g: Vector -> real, ranges: seq<Range>, start: Vector, conf: SX.Configuration)
    requires StartsAt(g, ranges, start, g(start)) && g(start) >= 0.0 && conf.initialSize > 1.0
    ensures SX.Init(g, conf, start,
                    SX.State(GuessLast(g, start, conf.initialSize), SX.CornerPoints(start, conf.initialSize)))
  {
    var corners, vs := SX.Corners(g, start, conf.initialSize), GuessLast(g, start, conf.initialSize);
    forall i | 0 <= i < |start| ensures SX.ValueOf(vs[i]) == 0.0 {
      RestIsOutside(g, ranges, start, conf.initialSize, i);
    }
    assert SX.ValueOf(vs[|start|]) == g(start);
    assert Ascending(vs, SX.ValueOf);
    assert corners == [corners[0]] + corners[1..];
    assert multiset(corners) == multiset(vs);
  }

  lemma SumOfFirstCoordinates(g: Vector -> real, start: Vector, size: real)
    requires |start| >= 1
    ensures Sum(Col(SX.Points(GuessLast(g, start, size)), 0)) == Mul(start[0], (|start| + 1) as real) + size
  {
    var dim, ones := |start|, Const(|start| + 1, 1.0);
    var col := Col(SX.Points(GuessLast(g, start, size)), 0);
    assert col == Const(dim + 1, start[0])[0 := start[0] + size];
    DotBump(ones, col, 0, start[0], size);
    DotConst(ones, col, 1.0);
    SG.SumConst(dim + 1, 1.0);
  }

  /** The first coordinate of the mean of the others lies size / dim to the right of the guess's. */
  lemma CentroidOfRest(g: Vector -> real, start: Vector, size: real)
    requires |start| >= 1
    ensures var dim, vs := |start|, GuessLast(g, start, size);
      (dim as real) * SX.Centroid(SX.Points(vs), dim, dim)[0] == (dim as real) * start[0] + size
  {
    var dim, vs := |start|, GuessLast(g, start, size);
    SumOfFirstCoordinates(g, start, size);
    SG.ProbesOnLine(g, dim, vs, 0);
    assert vs[dim].point[0] == start[0];
    OneMore(start[0], dim as real);
  }

  lemma OneMore(a: real, d: real)
    ensures Mul(a, d + 1.0) == d * a + a
  {
  }

  lemma Divided(d: real, c: real, a: real, size: real)
    requires d > 0.0 && d * c == d * a + size && size == 4.0 * d
    ensures c == a + 4.0
  {
    assert (c - a - 4.0) * d == d * c - d * a - 4.0 * d;
    QuotientOfProduct(c - a - 4.0, d);
  }

  /** With edges of four unit widths per dimension, reflecting and contracting end up outside. */
  lemma ProbesOutside(g: Vector -> real, ranges: seq<Range>, start: Vector, size: real)
    requires StartsAt(g, ranges, start, g(start)) && size == 4.0 * (|start| as real)
    ensures var vs := GuessLast(g, start, size);
      var reflected, contracted := SX.Probe(g, |start|, vs, SX.K_REFLECTION), SX.Probe(g, |start|, vs, SX.K_CONTRACTION);
      && reflected.value == 0.0 && contracted.value == 0.0 && !Inside(ranges, contracted.point)
  {
    var dim, vs := |start|, GuessLast(g, start, size);
    CentroidOfRest(g, start, size);
    var d, c, a := dim as real, SX.Centroid(SX.Points(vs), dim, dim)[0], start[0];
    assert d * c == d * a + size;
    Divided(d, c, a, size);
    SG.ProbesOnLine(g, dim, vs, 0);
    AboveIsOutside(ranges, SX.Probe(g, dim, vs, SX.K_REFLECTION).point, 0);
    AboveIsOutside(ranges, SX.Probe(g, dim, vs, SX.K_CONTRACTION).point, 0);
  }

  /** So does reducing. */
  lemma ShrunkOutside(g: Vector -> real, ranges: seq<Range>, start: Vector, size: real, i: nat)
    requires StartsAt(g, ranges, start, g(start)) && size > 1.0 && i <= |start|
    ensures var v := SX.Shrunk(g, |start|, GuessLast(g, start, size))[i];
      v.value == 0.0 && !Inside(ranges, v.point)
  {
    var vs := GuessLast(g, start, size);
    RestIsOutside(g, ranges, start, size, 0);
    if i > 0 {
      var v := SX.Shrunk(g, |start|, vs)[i];
      if i < |start| {
        RestIsOutside(g, ranges, start, size, i);
      }
      assert vs[i].point[0] == start[0] && vs[0].point[0] == start[0] + size;
      assert v.point[0] == (start[0] + size) + 0.5 * size;
      AboveIsOutside(ranges, v.point, 0);
    }
  }

  /** The first pass leaves only vertices outside the box. */
  lemma FirstPassOutside(g: Vector -> real, ranges: seq<Range>, start: Vector, size: real, i: nat)
    requires StartsAt(g, ranges, start, g(start)) && g(start) >= 0.0
    requires size == 4.0 * (|start| as real) && i <= |start|
    ensures var v := SX.Move(g, |start|, GuessLast(g, start, size)).vertices[i];
      v.value == 0.0 && |v.point| == |start| && !Inside(ranges, v.point)
  {
    var dim, vs := |start|, GuessLast(g, start, size);
    ProbesOutside(g, ranges, start, size);
    ShrunkOutside(g, ranges, start, size, i);
    RestIsOutside(g, ranges, start, size, 0);
    RestIsOutside(g, ranges, start, size, dim - 1);
    if i < dim {
      RestIsOutside(g, ranges, start, size, i);
    }
    assert SX.Move(g, dim, vs).vertices == SX.ContractOrReduce(g, dim, vs).vertices;
  }

  /** A value of 0 at the guess is a tie with the default, which the sort may break either way. */
  lemma NelderMeadLeaves(norm: Vector -> real, g: Vector -> real, ranges: seq<Range>, start: Vector)
    returns (opt: Optimizer, x: Vector, evaluated: seq<Vector>)
    requires StartsAt(g, ranges, start, g(start)) && g(start) >= 0.0
    ensures opt.Simplex? && opt.norm == norm && |x| == |ranges| && !Inside(ranges, x)
    ensures Answers(opt, g, start, x, evaluated)
    ensures Dim(evaluated, |start|)
  {
    var dim, size := |start|, 4.0 * (|start| as real);
    var conf := SX.Configuration(size, 0.0, 0);
    opt := Simplex(conf, norm);
    GuessLastIsInit(g, ranges, start, conf);
    var vs := GuessLast(g, start, size);
    var s := SX.State(vs, SX.CornerPoints(start, size));
    var out := SX.Move(g, dim, vs);
    SX.MovedSimplex(g, dim, vs);
    forall i | 0 <= i <= dim ensures out.vertices[i].value == 0.0 && !Inside(ranges, out.vertices[i].point) {
      FirstPassOutside(g, ranges, start, size, i);
    }
    assert SortedPermutation(out.vertices, out.vertices, SX.ValueOf);
    var t := SX.State(out.vertices, s.evaluated + out.asked);
    x := out.vertices[0].point;
    OnePass(SX.Loop(g, conf, norm, start), s, t);
    SX.MovedAsks(g, dim, vs);
    evaluated := t.evaluated;
  }

  // ------------------------------------------------------------ the decision

  lemma AnswerInUserSpace(opt: Optimizer, f: Vector -> real, maximize: bool, ranges: seq<Range>, guess: Vector,
                          x: Vector, evaluated: seq<Vector>)
    requires Feasible(ranges, guess) && Usable(opt, |guess|) && |x| == |guess| && Dim(evaluated, |guess|)
    requires Answers(opt, GoalOf(f, maximize, ranges), FromUser(ranges, guess), x, evaluated)
    ensures CanAnswer(opt, f, maximize, ranges, true, guess, ToUser(ranges, x),
                      AllToUser(ranges, |guess|, evaluated))
  {}

  lemma UnsafeStartLeaves(kind: Kind, norm: Vector -> real, exp: real -> real,
                          f: Vector -> real, maximize: bool, ranges: seq<Range>, guess: Vector)
    returns (opt: Optimizer, point: Vector, asked: seq<Vector>)
    requires SA.ExpLike(exp) && Feasible(ranges, guess) && !SafeStart(kind, Signed(maximize, f(guess)))
    ensures KindOf(opt) == kind && Uses(opt, norm, exp)
    ensures CanAnswer(opt, f, maximize, ranges, true, guess, point, asked)
    ensures !Allowed(ranges, true, point)
  {
    var g, start := GoalOf(f, maximize, ranges), FromUser(ranges, guess);
    GoalIsZeroOutside(g, f, maximize, ranges, guess);
    forall i | 0 <= i < |ranges| ensures ranges[i].lo < ranges[i].hi && 0.0 <= start[i] <= 1.0 {
      GuessInUnit(ranges, guess, i);
    }
    var x, evaluated;
    match kind {
      case NelderMead =>
        opt, x, evaluated := NelderMeadLeaves(norm, g, ranges, start);
      case Coordinates =>
        opt := CoordinateDescent(CD.Configuration(2.0, 0.0, 1.0, 1.0, 0), norm);
        x, evaluated := CoordinatesLeave(norm, g, ranges, start);
      case Directions =>
        opt := Powell(PW.Configuration(2.0, 0.0, 1.0, 1.0, 0), norm);
        x, evaluated := DirectionsLeave(norm, g, ranges, start);
      case Annealing =>
        opt, x, evaluated := AnnealingLeaves(exp, g, ranges, start);
    }
    AnswerInUserSpace(opt, f, maximize, ranges, guess, x, evaluated);
    point, asked := ToUser(ranges, x), AllToUser(ranges, |guess|, evaluated);
  }

  /**
   From a guess in the box, every configuration and run of coordinate descent,
   Powell and annealing answers inside the box if and only if the signed value
   at the guess is at most the default value 0; for the simplex, whose sort may
   put either of two equal vertices first, if and only if it is below 0.
   */
  lemma AnswersInsideIff(kind: Kind, norm: Vector -> real, exp: real -> real,
                         f: Vector -> real, maximize: bool, ranges: seq<Range>, guess: Vector)
    requires SA.ExpLike(exp) && Feasible(ranges, guess)
    ensures AlwaysInside(kind, norm, exp, f, maximize, ranges, guess) <==>
            if kind.NelderMead? then Signed(maximize, f(guess)) < 0.0 else Signed(maximize, f(guess)) <= 0.0
  {
    if SafeStart(kind, Signed(maximize, f(guess))) {
      forall opt, point, asked | KindOf(opt) == kind && CanAnswer(opt, f, maximize, ranges, true, guess, point, asked)
        ensures Allowed(ranges, true, point)
      {
        SafeStartAnswersInside(opt, f, maximize, ranges, guess, point, asked);
      }
    } else {
      var opt, point, asked := UnsafeStartLeaves(kind, norm, exp, f, maximize, ranges, guess);
    }
  }

  const ONE: Vector -> real := x => 1.0

  /** In one dimension: minimizing the constant 1 over [0, 1] from 0.5 may answer -1.5. */
  lemma ConstantOneLeavesBox(norm: Vector -> real)
    ensures exists asked ::
      CanAnswer(CoordinateDescent(CD.Configuration(2.0, 0.0, 1.0, 1.0, 0), norm),
                ONE, false, [Range(0.0, 1.0)], true, [0.5], [-1.5], asked)
    ensures !Allowed([Range(0.0, 1.0)], true, [-1.5]) && Allowed([Range(0.0, 1.0)], true, [0.5])
  {
    var asked := ConstantLeavesBox(norm, ONE, [Range(0.0, 1.0)], [0.5]);
  }

  /** The optimizer's side of it: the start 0.5 of value 1, and the answer -1.5. */
  lemma ConstantRun(norm: Vector -> real, g: Vector -> real, ranges: seq<Range>, start: Vector)
    returns (evaluated: seq<Vector>)
    requires |ranges| == 1 && ranges[0] == Range(0.0, 1.0) && start == [0.5]
    requires ZeroOutside(g, ranges) && g(start) == 1.0
    ensures Answers(CoordinateDescent(CD.Configuration(2.0, 0.0, 1.0, 1.0, 0), norm), g, start, [-1.5], evaluated)
    ensures Dim(evaluated, 1) && !Inside(ranges, [-1.5])
  {
    var x;
    x, evaluated := CoordinatesLeave(norm, g, ranges, start);
    assert x == [-1.5];
  }

  lemma ConstantLeavesBox(norm: Vector -> real, f: Vector -> real, ranges: seq<Range>, guess: Vector)
    returns (asked: seq<Vector>)
    requires ranges == [Range(0.0, 1.0)] && guess == [0.5] && f(guess) == 1.0
    ensures CanAnswer(CoordinateDescent(CD.Configuration(2.0, 0.0, 1.0, 1.0, 0), norm),
                      f, false, ranges, true, guess, [-1.5], asked)
    ensures !Allowed(ranges, true, [-1.5]) && Allowed(ranges, true, guess)
  {
    var start := FromUser(ranges, guess);
    GoalIsZeroOutside(GoalOf(f, false, ranges), f, false, ranges, guess);
    GuessInUnit(ranges, guess, 0);
    UnitRangeIsIdentity(start);
    UnitRangeIsIdentity([-1.5]);
    var evaluated := ConstantRun(norm, GoalOf(f, false, ranges), ranges, start);
    asked := AllToUser(ranges, 1, evaluated);
    AnswerInUserSpace(CoordinateDescent(CD.Configuration(2.0, 0.0, 1.0, 1.0, 0), norm), f, false, ranges, guess,
                      [-1.5], evaluated);
  }

  lemma UnitRangeIsIdentity(x: Vector)
    requires |x| == 1
    ensures ToUser([Range(0.0, 1.0)], x) == x
  {
    UserCoordinate([Range(0.0, 1.0)], x, 0);
    assert Mul(x[0], 1.0) == x[0];
  }
}
