/**
 What a Nelder-Mead run finds and what it costs: its best vertex is the minimum
 of everything it evaluated, and the evaluations stay within a fixed budget.
 */
module SimplexSearch {
  import opened Arithmetic
  import opened LinearAlgebra
  import opened Objectives
  import opened StdSort
  import opened Runs
  import opened SimplexOptimizer

  ghost predicate BestFirst(vs: seq<Vertex>) {
    |vs| > 0 && forall i | 0 <= i < |vs| :: vs[0].value <= vs[i].value
  }

  /** Some vertex is at least as good as the value v. */
  ghost predicate Covers(vs: seq<Vertex>, v: real) {
    exists i :: 0 <= i < |vs| && vs[i].value <= v
  }

  /** What a pass makes of sorted vertices: the worst one strictly improves, or the simplex is reduced. */
  ghost predicate ReplacesWorst(f: Vector -> real, dim: nat, vs: seq<Vertex>, us: seq<Vertex>)
    requires IsSimplex(f, dim, vs) && dim >= 1
  {
    var reflected, contracted := Probe(f, dim, vs, K_REFLECTION), Probe(f, dim, vs, K_CONTRACTION);
    if reflected.value >= vs[dim - 1].value && contracted.value >= vs[dim].value then
      us == Shrunk(f, dim, vs)
    else
      && |us| == dim + 1 && us[..dim] == vs[..dim] && us[dim].value < vs[dim].value
      && (reflected.value < vs[dim - 1].value ==> us[dim].value <= reflected.value)
      && (reflected.value < vs[0].value ==> us[dim].value <= Probe(f, dim, vs, K_EXPANSION).value)
  }

  /**
   No pass evaluates a point that beats every vertex it leaves, every vertex it
   leaves was evaluated, the best one stays, and the worst one strictly
   improves unless neither reflecting nor contracting helps.
   */
  lemma MoveCoversAsked(f: Vector -> real, dim: nat, vs: seq<Vertex>)
    requires IsSimplex(f, dim, vs) && dim >= 1 && BestFirst(vs)
    ensures var out := Move(f, dim, vs);
      && |out.vertices| == dim + 1 && out.vertices[0] == vs[0]
      && (forall k | 0 <= k < |out.asked| :: Covers(out.vertices, f(out.asked[k])))
      && (forall i | 0 <= i <= dim :: out.vertices[i] == vs[i] || out.vertices[i].point in out.asked)
      && 1 <= |out.asked| <= dim + 2
    ensures vs[dim - 1].value <= vs[dim].value ==> ReplacesWorst(f, dim, vs, Move(f, dim, vs).vertices)
  {
    var out := Move(f, dim, vs);
    var us := out.vertices;
    var shrunk := Shrunk(f, dim, vs);
    forall k | 0 <= k < |out.asked| ensures Covers(us, f(out.asked[k])) {
      if k < 2 {
        assert us[0].value <= f(out.asked[k]) || us[dim].value <= f(out.asked[k]);
      } else {
        assert us == shrunk && out.asked[k] == Points(shrunk)[k - 1];
        assert us[k - 1].value <= f(out.asked[k]);
      }
    }
    if us == shrunk && |out.asked| == dim + 2 {
      forall i | 1 <= i <= dim ensures us[i].point in out.asked {
        assert out.asked[i + 1] == Points(shrunk)[i];
      }
    }
  }

  /** The invariant of the search. */
  ghost predicate Found(f: Vector -> real, dim: nat, s: State) {
    && IsSimplex(f, dim, s.vertices)
    && (forall i | 0 <= i <= dim :: s.vertices[i].point in s.evaluated)
    && (forall k | 0 <= k < |s.evaluated| :: s.vertices[0].value <= f(s.evaluated[k]))
  }

  lemma FoundIsBestFirst(f: Vector -> real, dim: nat, s: State)
    requires Found(f, dim, s)
    ensures BestFirst(s.vertices)
  {
    forall i | 0 <= i < |s.vertices| ensures s.vertices[0].value <= s.vertices[i].value {
      assert s.vertices[i].point in s.evaluated;
    }
  }

  lemma SortedHeadCovers(us: seq<Vertex>, vs: seq<Vertex>, v: real)
    requires SortedPermutation(us, vs, ValueOf) && Covers(us, v)
    ensures |vs| > 0 && vs[0].value <= v
  {
    var i :| 0 <= i < |us| && us[i].value <= v;
    assert us[i] in multiset(vs);
    var k :| 0 <= k < |vs| && vs[k] == us[i];
    assert ValueOf(vs[0]) <= ValueOf(vs[k]);
  }

  lemma StepKeepsFound(f: Vector -> real, dim: nat, s: State, t: State)
    requires Found(f, dim, s) && Step(f, dim, s, t)
    ensures Found(f, dim, t)
  {
    FoundIsBestFirst(f, dim, s);
    MoveCoversAsked(f, dim, s.vertices);
    var out := Move(f, dim, s.vertices);
    MovedSimplex(f, dim, s.vertices);
    SortedSimplex(f, dim, out.vertices, t.vertices);
    forall i | 0 <= i <= dim ensures t.vertices[i].point in t.evaluated {
      assert t.vertices[i] in multiset(out.vertices);
    }
    forall k | 0 <= k < |t.evaluated| ensures t.vertices[0].value <= f(t.evaluated[k]) {
      if k < |s.evaluated| {
        assert s.vertices[0].value <= f(s.evaluated[k]);
        assert out.vertices[0].value <= f(t.evaluated[k]);
      } else {
        assert t.evaluated[k] == out.asked[k - |s.evaluated|];
      }
      assert Covers(out.vertices, f(t.evaluated[k]));
      SortedHeadCovers(out.vertices, t.vertices, f(t.evaluated[k]));
    }
  }

  lemma InitFound(f: Vector -> real, conf: Configuration, guess: Vector, s: State)
    requires Init(f, conf, guess, s)
    ensures Found(f, |guess|, s)
  {
    var corners := Corners(f, guess, conf.initialSize);
    SortedSimplex(f, |guess|, corners, s.vertices);
    forall i | 0 <= i <= |guess| ensures s.vertices[i].point in s.evaluated {
      assert s.vertices[i] in multiset(corners);
    }
    forall k | 0 <= k < |s.evaluated| ensures s.vertices[0].value <= f(s.evaluated[k]) {
      assert corners[k].value <= f(s.evaluated[k]);
      SortedHeadCovers(corners, s.vertices, f(s.evaluated[k]));
    }
  }

  /**
   In every state of every run the first vertex is the minimum of everything
   evaluated so far, and every vertex carries the objective at its own point.
   */
  lemma RunFindsBest(f: Vector -> real, conf: Configuration, norm: Vector -> real, guess: Vector,
                     run: seq<State>, i: nat)
    requires |guess| >= 1 && IsPrefix(Loop(f, conf, norm, guess), run) && i < |run|
    ensures IsSimplex(f, |guess|, run[i].vertices)
    ensures Attains(f, run[i].vertices[0].point, run[i].vertices[0].value, run[i].evaluated)
    ensures run[i].evaluated[0] == guess
  {
    var m := Loop(f, conf, norm, guess);
    var inv := (s: State) => Found(f, |guess|, s) && |s.evaluated| > 0 && s.evaluated[0] == guess;
    forall s | m.init(s) ensures inv(s) {
      InitFound(f, conf, guess, s);
    }
    forall s, t | inv(s) && m.step(s, t) ensures inv(t) {
      StepKeepsFound(f, |guess|, s, t);
    }
    Invariant(m, inv, run, i);
  }

  /** The point reached from the guess by one step along coordinate i. */
  ghost predicate IsCorner(guess: Vector, size: real, i: nat, x: Vector) {
    |x| == |guess| && forall j | 0 <= j < |guess| :: x[j] == guess[j] + if j == i then size else 0.0
  }

  ghost predicate ByValue(vs: seq<Vertex>) {
    forall i, j | 0 <= i < j < |vs| :: vs[i].value <= vs[j].value
  }

  function Valued(f: Vector -> real, xs: seq<Vector>): (vs: seq<Vertex>)
    ensures |vs| == |xs| && forall i | 0 <= i < |xs| :: vs[i] == Vertex(xs[i], f(xs[i]))
  {
    seq(|xs|, i requires 0 <= i < |xs| => Vertex(xs[i], f(xs[i])))
  }

  lemma SortedIsByValue(us: seq<Vertex>, vs: seq<Vertex>)
    requires SortedPermutation(us, vs, ValueOf)
    ensures ByValue(vs)
  {
    forall i, j | 0 <= i < j < |vs| ensures vs[i].value <= vs[j].value {
      assert ValueOf(vs[i]) <= ValueOf(vs[j]);
    }
  }

  /** How a run starts: the guess and one corner per coordinate are asked for, and sorted by their values. */
  lemma RunStartsAtCorners(f: Vector -> real, conf: Configuration, norm: Vector -> real, guess: Vector,
                           run: seq<State>)
    requires |guess| >= 1 && IsPrefix(Loop(f, conf, norm, guess), run)
    ensures var asked, vs := run[0].evaluated, run[0].vertices;
      && |asked| == |guess| + 1 && asked[0] == guess
      && (forall i | 1 <= i <= |guess| :: IsCorner(guess, conf.initialSize, i - 1, asked[i]))
      && multiset(vs) == multiset(Valued(f, asked)) && ByValue(vs)
  {
    var s := run[0];
    assert Init(f, conf, guess, s);
    assert Valued(f, s.evaluated) == Corners(f, guess, conf.initialSize);
    SortedIsByValue(Corners(f, guess, conf.initialSize), s.vertices);
  }

  /** How a run goes on: every pass obeys the law, and what it leaves is sorted by value. */
  lemma RunMakesLawfulPasses(f: Vector -> real, conf: Configuration, norm: Vector -> real, guess: Vector,
                             run: seq<State>, i: nat)
    returns (us: seq<Vertex>, asked: seq<Vector>)
    requires |guess| >= 1 && IsPrefix(Loop(f, conf, norm, guess), run) && i + 1 < |run|
    ensures IsSimplex(f, |guess|, run[i].vertices) && LawfulPass(f, |guess|, run[i].vertices, us, asked)
    ensures run[i + 1].evaluated == run[i].evaluated + asked
    ensures multiset(run[i + 1].vertices) == multiset(us) && ByValue(run[i + 1].vertices)
  {
    var s, t := run[i], run[i + 1];
    assert Step(f, |guess|, s, t) by {
      assert Loop(f, conf, norm, guess).step(run[i], run[i + 1]);
    }
    var out := Move(f, |guess|, s.vertices);
    us, asked := out.vertices, out.asked;
    PassIsLawful(f, |guess|, s.vertices);
    SortedIsByValue(us, t.vertices);
  }

  /** When a run goes on after a pass: while the best and the worst vertex are far apart and evaluations are left. */
  lemma RunStopsInTime(f: Vector -> real, conf: Configuration, norm: Vector -> real, guess: Vector,
                       run: seq<State>, i: nat)
    requires |guess| >= 1 && IsRun(Loop(f, conf, norm, guess), run) && 0 < i < |run|
    ensures |run[i].vertices| == |guess| + 1
    ensures |run[i].vertices[0].point| == |run[i].vertices[|guess|].point| == |guess|
    ensures i < |run| - 1 <==>
            norm(Sub(run[i].vertices[0].point, run[i].vertices[|guess|].point)) > conf.finalSize
            && |run[i].evaluated| < conf.maxEvaluations
  {
    RunFindsBest(f, conf, norm, guess, run, i);
    var m := Loop(f, conf, norm, guess);
    assert i < |run| - 1 ==> m.continues(run[i]);
    assert i == |run| - 1 ==> !m.continues(run[i]);
  }

  /** A complete run evaluates the objective at most max(maxEvaluations - 1, dim + 1) + dim + 2 times. */
  lemma RunWithinBudget(f: Vector -> real, conf: Configuration, norm: Vector -> real, guess: Vector, run: seq<State>)
    requires |guess| >= 1 && IsRun(Loop(f, conf, norm, guess), run)
    ensures |guess| + 2 <= |Last(run).evaluated|
    ensures |Last(run).evaluated| <= Max(conf.maxEvaluations - 1, |guess| + 1) + |guess| + 2
  {
    var m, dim, n := Loop(f, conf, norm, guess), |guess|, |run| - 2;
    var inv := (s: State) => Found(f, dim, s) && |s.evaluated| >= dim + 1;
    forall s | m.init(s) ensures inv(s) {
      InitFound(f, conf, guess, s);
    }
    forall s, t | inv(s) && m.step(s, t) ensures inv(t) {
      StepKeepsFound(f, dim, s, t);
    }
    Invariant(m, inv, run, n);
    var s, t := run[n], run[n + 1];
    FoundIsBestFirst(f, dim, s);
    assert m.step(s, t);
    MoveCoversAsked(f, dim, s.vertices);
    assert n > 0 ==> m.continues(s);
    assert n == 0 ==> m.init(s);
  }
}
