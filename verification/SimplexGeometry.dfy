/**
 The simplex never collapses: in every state of every run the dim + 1 vertices
 are affinely independent and every point has barycentric coordinates in them.
 The proof appends a coordinate 1 to each vertex, which turns every vertex
 replacement into one basis exchange.
 */
module SimplexGeometry {
  import opened LinearAlgebra
  import opened StdSort
  import opened Runs
  import opened SimplexOptimizer

  /** No vertex is an affine combination of the others. */
  ghost predicate AffinelyIndependent(ps: seq<Vector>, dim: nat) {
    && Dim(ps, dim)
    && forall c :: Sum(c) == 0.0 && Yields(c, ps, Const(dim, 0.0)) ==> IsZero(c)
  }

  ghost predicate HasCoordinates(ps: seq<Vector>, x: Vector) {
    exists c :: Sum(c) == 1.0 && Yields(c, ps, x)
  }

  /** A full-dimensional simplex: dim + 1 affinely independent vertices whose affine hull is the whole space. */
  ghost predicate Nondegenerate(ps: seq<Vector>, dim: nat) {
    && |ps| == dim + 1
    && AffinelyIndependent(ps, dim)
    && forall x: Vector {:trigger HasCoordinates(ps, x)} :: |x| == dim ==> HasCoordinates(ps, x)
  }

  function Lift(vs: seq<Vertex>): (r: seq<Vector>)
    ensures |r| == |vs| && forall i | 0 <= i < |r| :: r[i] == vs[i].point + [1.0]
  {
    seq(|vs|, i requires 0 <= i < |vs| => vs[i].point + [1.0])
  }

  ghost predicate Full(vs: seq<Vertex>, dim: nat) {
    (forall i | 0 <= i < |vs| :: |vs[i].point| == dim) && Basis(Lift(vs), dim + 1)
  }

  lemma LiftColumns(vs: seq<Vertex>, dim: nat)
    requires forall i | 0 <= i < |vs| :: |vs[i].point| == dim
    ensures Dim(Lift(vs), dim + 1) && Dim(Points(vs), dim)
    ensures forall j | 0 <= j < dim :: Col(Lift(vs), j) == Col(Points(vs), j)
    ensures Col(Lift(vs), dim) == Const(|vs|, 1.0)
  {
  }

  lemma {:induction false} DotOnes(c: seq<real>)
    ensures Dot(c, Const(|c|, 1.0)) == Sum(c)
  {
    if c != [] {
      assert Const(|c|, 1.0)[1..] == Const(|c[1..]|, 1.0);
      DotOnes(c[1..]);
    }
  }

  lemma LiftDot(c: seq<real>, vs: seq<Vertex>, dim: nat, j: nat)
    requires |c| == |vs| && (forall i | 0 <= i < |vs| :: |vs[i].point| == dim) && j <= dim
    ensures Dot(c, Col(Lift(vs), j)) == if j < dim then Dot(c, Col(Points(vs), j)) else Sum(c)
  {
    LiftColumns(vs, dim);
    DotOnes(c);
  }

  lemma LiftYields(c: seq<real>, vs: seq<Vertex>, x: Vector, s: real)
    requires |c| == |vs| && forall i | 0 <= i < |vs| :: |vs[i].point| == |x|
    ensures Yields(c, Lift(vs), x + [s]) <==> Yields(c, Points(vs), x) && Sum(c) == s
  {
    var y := x + [s];
    forall j | 0 <= j <= |x|
      ensures Dot(c, Col(Lift(vs), j)) == if j < |x| then Dot(c, Col(Points(vs), j)) else Sum(c)
    {
      LiftDot(c, vs, |x|, j);
    }
    assert forall j | 0 <= j < |x| :: y[j] == x[j];
    assert y[|x|] == s;
  }

  /** Linear independence of the lifted vertices is affine independence of the vertices. */
  lemma FullIsNondegenerate(vs: seq<Vertex>, dim: nat)
    requires Full(vs, dim)
    ensures Nondegenerate(Points(vs), dim)
  {
    var ps := Points(vs);
    LiftColumns(vs, dim);
    forall c | Sum(c) == 0.0 && Yields(c, ps, Const(dim, 0.0)) ensures IsZero(c) {
      LiftYields(c, vs, Const(dim, 0.0), 0.0);
      assert Const(dim, 0.0) + [0.0] == Const(dim + 1, 0.0);
    }
    forall x: Vector | |x| == dim ensures HasCoordinates(ps, x) {
      assert Reaches(Lift(vs), x + [1.0]);
      var c :| Yields(c, Lift(vs), x + [1.0]);
      LiftYields(c, vs, x, 1.0);
    }
  }

  // ----------------------------------------------------- replacing a vertex

  lemma LiftUpdate(vs: seq<Vertex>, k: nat, v: Vertex)
    requires k < |vs|
    ensures Lift(vs[k := v]) == Lift(vs)[k := v.point + [1.0]]
  {
  }

  lemma ReplaceVertex(vs: seq<Vertex>, dim: nat, k: nat, v: Vertex, w: seq<real>)
    requires Full(vs, dim) && k < |vs| && |v.point| == dim && |w| == |vs|
    requires Yields(w, Points(vs), v.point) && Sum(w) == 1.0 && w[k] != 0.0
    ensures Full(vs[k := v], dim)
  {
    LiftYields(w, vs, v.point, 1.0);
    LiftUpdate(vs, k, v);
    Exchange(Lift(vs), dim + 1, k, w, v.point + [1.0]);
  }

  /**
   Where the probes lie: the centroid c is the mean of all vertices but the
   worst, reflecting mirrors the worst one in c, expanding goes twice as far,
   and contracting stops half-way between the worst vertex and c.
   */
  lemma ProbesOnLine(f: Vector -> real, dim: nat, vs: seq<Vertex>, j: nat)
    requires IsSimplex(f, dim, vs) && dim >= 1 && j < dim
    ensures var c, worst := Centroid(Points(vs), dim, dim)[j], vs[dim].point[j];
      && (dim as real) * c + worst == Sum(Col(Points(vs), j))
      && Probe(f, dim, vs, K_REFLECTION).point[j] + worst == 2.0 * c
      && Probe(f, dim, vs, K_EXPANSION).point[j] - c == 2.0 * (c - worst)
      && 2.0 * Probe(f, dim, vs, K_CONTRACTION).point[j] == c + worst
  {
    var x := Col(Points(vs), j);
    SumExceptPrefix(x, dim, dim + 1);
    assert x[..dim + 1] == x;
    var c := Centroid(Points(vs), dim, dim)[j];
    assert c == SumExcept(x, dim, dim + 1) / (dim as real);
    assert (dim as real) * c == SumExcept(x, dim, dim + 1);
  }

  /** Reducing keeps the best vertex, halves every edge and turns it around. */
  lemma ReductionHalvesEdges(f: Vector -> real, dim: nat, vs: seq<Vertex>, i: nat, k: nat, j: nat)
    requires IsSimplex(f, dim, vs) && i <= dim && k <= dim && j < dim
    ensures var us := Shrunk(f, dim, vs);
      && us[0] == vs[0] && us[i].value == f(us[i].point)
      && (i > 0 && k > 0 ==>
            us[i].point[j] - us[k].point[j] == -0.5 * (vs[i].point[j] - vs[k].point[j]))
      && (i > 0 ==> us[i].point[j] - us[0].point[j] == -0.5 * (vs[i].point[j] - vs[0].point[j]))
  {
  }

  function ProbeWeights(dim: nat, t: real): (w: seq<real>)
    requires dim >= 1
    ensures |w| == dim + 1
  {
    Const(dim, (1.0 + t) / (dim as real)) + [-t]
  }

  lemma {:induction false} SumConst(n: nat, a: real)
    ensures Sum(Const(n, a)) == (n as real) * a
  {
    if n > 0 {
      assert Const(n, a)[1..] == Const(n - 1, a);
      SumConst(n - 1, a);
      assert (n as real) * a == a + ((n - 1) as real) * a;
    }
  }

  lemma ProbeCoordinate(s: real, n: real, t: real, x: real)
    requires n != 0.0
    ensures Mul((1.0 + t) / n, s) + Mul(-t, x) == s / n + Mul(t, s / n - x)
  {
    var a := (1.0 + t) / n;
    var c := s / n;
    assert a * n == 1.0 + t && c * n == s;
    assert a * (c * n) == (a * n) * c;
  }

  lemma ProbeWeightsSum(dim: nat, t: real)
    requires dim >= 1
    ensures Sum(ProbeWeights(dim, t)) == 1.0
  {
    var a := (1.0 + t) / (dim as real);
    SumSplit(Const(dim, a), [-t]);
    SumConst(dim, a);
    assert Sum([-t]) == -t;
  }

  lemma ProbeWeightsDot(dim: nat, t: real, x: seq<real>)
    requires dim >= 1 && |x| == dim + 1
    ensures var c := SumExcept(x, dim, dim + 1) / (dim as real);
      Dot(ProbeWeights(dim, t), x) == c + Mul(t, c - x[dim])
  {
    DotWeights(ProbeWeights(dim, t), x, dim, (1.0 + t) / (dim as real));
    ProbeCoordinate(SumExcept(x, dim, dim + 1), dim as real, t, x[dim]);
  }

  /** The probed point is the affine combination of the vertices with the weights above. */
  lemma ProbeIsCombination(f: Vector -> real, vs: seq<Vertex>, dim: nat, t: real)
    requires IsSimplex(f, dim, vs) && dim >= 1
    ensures Yields(ProbeWeights(dim, t), Points(vs), Probe(f, dim, vs, t).point)
    ensures Sum(ProbeWeights(dim, t)) == 1.0
  {
    var w, ps, p := ProbeWeights(dim, t), Points(vs), Probe(f, dim, vs, t).point;
    ProbeWeightsSum(dim, t);
    forall j | 0 <= j < dim ensures Dot(w, Col(ps, j)) == p[j] {
      ProbeWeightsDot(dim, t, Col(ps, j));
    }
  }

  /** Reflecting, expanding or contracting keeps the worst vertex with weight -t, so nothing collapses. */
  lemma ProbeKeepsFull(f: Vector -> real, vs: seq<Vertex>, dim: nat, t: real)
    requires IsSimplex(f, dim, vs) && dim >= 1 && Full(vs, dim) && t != 0.0
    ensures Full(vs[dim := Probe(f, dim, vs, t)], dim)
  {
    ProbeIsCombination(f, vs, dim, t);
    ReplaceVertex(vs, dim, dim, Probe(f, dim, vs, t), ProbeWeights(dim, t));
  }

  /** The vertices part-way through the reduction loop. */
  function PartlyShrunk(f: Vector -> real, dim: nat, vs: seq<Vertex>, i: nat): (r: seq<Vertex>)
    requires IsSimplex(f, dim, vs) && i <= |vs|
    ensures |r| == |vs|
  {
    Shrunk(f, dim, vs)[..i] + vs[i..]
  }

  lemma DotTwo(w: seq<real>, x: seq<real>, i: nat)
    requires |w| == |x| && 0 < i < |w|
    requires forall k | 0 < k < |w| && k != i :: w[k] == 0.0
    ensures Dot(w, x) == Mul(w[0], x[0]) + Mul(w[i], x[i])
  {
    DotUpdate(w, x, i, x[i]);
    assert x[i := x[i]] == x;
    DotSpike(w[i := 0.0], x, 0);
  }

  lemma ShrinkOneKeepsFull(f: Vector -> real, us: seq<Vertex>, dim: nat, i: nat)
    requires Full(us, dim) && 0 < i < |us| == dim + 1
    ensures Full(us[i := At(f, Flip(us[0].point, K_REDUCTION, us[i].point))], dim)
  {
    var v := At(f, Flip(us[0].point, K_REDUCTION, us[i].point));
    var w := Const(dim + 1, 0.0)[0 := 1.5][i := -0.5];
    var ps := Points(us);
    forall j | 0 <= j < dim ensures Dot(w, Col(ps, j)) == v.point[j] {
      DotTwo(w, Col(ps, j), i);
    }
    DotTwo(w, Const(dim + 1, 1.0), i);
    DotOnes(w);
    ReplaceVertex(us, dim, i, v, w);
  }

  /** Each step of the reduction moves one vertex by a homothety of factor -1/2 about the best one. */
  lemma {:induction false} ShrinkKeepsFull(f: Vector -> real, vs: seq<Vertex>, dim: nat, i: nat)
    requires IsSimplex(f, dim, vs) && Full(vs, dim) && 1 <= i <= dim + 1
    ensures Full(PartlyShrunk(f, dim, vs, i), dim)
  {
    var us := PartlyShrunk(f, dim, vs, i);
    if i == 1 {
      assert us == vs;
    } else {
      ShrinkKeepsFull(f, vs, dim, i - 1);
      var before := PartlyShrunk(f, dim, vs, i - 1);
      ShrinkOneKeepsFull(f, before, dim, i - 1);
      assert before[0] == vs[0] && before[i - 1] == vs[i - 1];
      assert us == before[i - 1 := Shrunk(f, dim, vs)[i - 1]];
    }
  }

  /** No branch of a pass collapses the simplex. */
  lemma MoveKeepsFull(f: Vector -> real, vs: seq<Vertex>, dim: nat)
    requires IsSimplex(f, dim, vs) && dim >= 1 && Full(vs, dim)
    ensures Full(Move(f, dim, vs).vertices, dim)
  {
    ProbeKeepsFull(f, vs, dim, K_REFLECTION);
    ProbeKeepsFull(f, vs, dim, K_EXPANSION);
    ProbeKeepsFull(f, vs, dim, K_CONTRACTION);
    ShrinkKeepsFull(f, vs, dim, dim + 1);
    assert PartlyShrunk(f, dim, vs, dim + 1) == Shrunk(f, dim, vs);
  }

  function Lifted(v: Vertex): Vector {
    v.point + [1.0]
  }

  lemma SortKeepsFull(us: seq<Vertex>, vs: seq<Vertex>, dim: nat)
    requires Full(us, dim) && multiset(us) == multiset(vs)
    ensures Full(vs, dim)
  {
    ImageReordered(us, vs, Lifted);
    assert Image(us, Lifted) == Lift(us) && Image(vs, Lifted) == Lift(vs);
    Reordered(Lift(us), Lift(vs), dim + 1);
  }

  // ------------------------------------------------------ the initial simplex

  lemma CornerColumn(f: Vector -> real, start: Vector, size: real, c: seq<real>, j: nat)
    requires j < |start| && |c| == |start| + 1
    ensures |Corners(f, start, size)| == |c|
    ensures Dot(c, Col(Points(Corners(f, start, size)), j)) == Mul(start[j], Sum(c)) + Mul(size, c[j + 1])
  {
    DotBump(c, Col(Points(Corners(f, start, size)), j), j + 1, start[j], size);
  }

  lemma CornersIndependent(f: Vector -> real, start: Vector, size: real)
    requires size != 0.0
    ensures Independent(Lift(Corners(f, start, size)), |start| + 1)
  {
    var vs, dim := Corners(f, start, size), |start|;
    LiftColumns(vs, dim);
    forall c | Yields(c, Lift(vs), Const(dim + 1, 0.0)) ensures IsZero(c) {
      assert Const(dim, 0.0) + [0.0] == Const(dim + 1, 0.0);
      LiftYields(c, vs, Const(dim, 0.0), 0.0);
      forall i | 1 <= i < |c| ensures c[i] == 0.0 {
        CornerColumn(f, start, size, c, i - 1);
        assert Mul(size, c[i]) == 0.0;
      }
      DotWeights(Const(|c|, 1.0), c, 0, 1.0);
      DotSpike(c, Const(|c|, 1.0), 0);
      DotOnes(c);
    }
  }

  lemma CornersSpan(f: Vector -> real, start: Vector, size: real)
    requires size != 0.0
    ensures Spanning(Lift(Corners(f, start, size)), |start| + 1)
  {
    var vs, dim := Corners(f, start, size), |start|;
    LiftColumns(vs, dim);
    forall y: Vector | |y| == dim + 1 ensures Reaches(Lift(vs), y) {
      var x, s := y[..dim], y[dim];
      var tail := seq(dim, j requires 0 <= j < dim => (x[j] - Mul(start[j], s)) / size);
      var c := [s - Sum(tail)] + tail;
      assert c[1..] == tail && Sum(c) == s;
      forall j | 0 <= j < dim ensures Dot(c, Col(Points(vs), j)) == x[j] {
        CornerColumn(f, start, size, c, j);
        assert Mul(size, c[j + 1]) == x[j] - Mul(start[j], s);
      }
      LiftYields(c, vs, x, s);
      assert x + [s] == y;
    }
  }

  // ---------------------------------------------------------------- all runs

  /**
   With a nonzero initial size, in every state of every run, whatever the
   objective and the dimension, the simplex is nondegenerate.
   */
  lemma RunStaysNondegenerate(f: Vector -> real, conf: Configuration, norm: Vector -> real, guess: Vector,
                              run: seq<State>, i: nat)
    requires |guess| >= 1 && conf.initialSize != 0.0
    requires IsPrefix(Loop(f, conf, norm, guess), run) && i < |run|
    ensures Nondegenerate(Points(run[i].vertices), |guess|)
  {
    var dim := |guess|;
    var m := Loop(f, conf, norm, guess);
    var inv := (s: State) => IsSimplex(f, dim, s.vertices) && Full(s.vertices, dim);
    forall s | m.init(s) ensures inv(s) {
      CornersIndependent(f, guess, conf.initialSize);
      CornersSpan(f, guess, conf.initialSize);
      SortKeepsFull(Corners(f, guess, conf.initialSize), s.vertices, dim);
      SortedSimplex(f, dim, Corners(f, guess, conf.initialSize), s.vertices);
    }
    forall s, t | inv(s) && m.step(s, t) ensures inv(t) {
      MoveKeepsFull(f, s.vertices, dim);
      MovedSimplex(f, dim, s.vertices);
      SortKeepsFull(Move(f, dim, s.vertices).vertices, t.vertices, dim);
      SortedSimplex(f, dim, Move(f, dim, s.vertices).vertices, t.vertices);
    }
    Invariant(m, inv, run, i);
    FullIsNondegenerate(run[i].vertices, dim);
  }
}
