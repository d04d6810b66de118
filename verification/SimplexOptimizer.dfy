/**
 The Nelder-Mead optimizer (src/optimization/SimplexOptimizer.cpp).
 `Move` says what one pass of the optimization loop does to the sorted
 vertices, `Loop` what the whole loop is, and `Minimize` is the imperative
 optimizer, proved to produce a run of it. The theorems are about all runs.
 The distance `norm` between the best and the worst vertex is left arbitrary.
 */
module SimplexOptimizer {
  import opened LinearAlgebra
  import opened Objectives
  import opened StdSort
  import opened Runs

  datatype Configuration = Configuration(initialSize: real, finalSize: real, maxEvaluations: nat)

  const K_REFLECTION := 1.0
  const K_EXPANSION := 2.0
  const K_CONTRACTION := -0.5
  const K_REDUCTION := 0.5

  datatype Vertex = Vertex(point: Vector, value: real)

  /** The sorted vertices between two passes, and every point evaluated so far. */
  datatype State = State(vertices: seq<Vertex>, evaluated: seq<Vector>)

  /** The vertices a pass leaves before sorting, and the points it evaluated, in order. */
  datatype Outcome = Outcome(vertices: seq<Vertex>, asked: seq<Vector>)

  function ValueOf(v: Vertex): real {
    v.value
  }

  function At(f: Vector -> real, x: Vector): (v: Vertex)
  {
    Vertex(x, f(x))
  }

  function Points(vs: seq<Vertex>): (r: seq<Vector>)
    ensures |r| == |vs| && forall i | 0 <= i < |r| :: r[i] == vs[i].point
  {
    seq(|vs|, i requires 0 <= i < |vs| => vs[i].point)
  }

  /** dim + 1 vertices in dim coordinates, each carrying the objective at its own point. */
  predicate IsSimplex(f: Vector -> real, dim: nat, vs: seq<Vertex>) {
    && |vs| == dim + 1
    && forall i | 0 <= i < |vs| :: |vs[i].point| == dim && vs[i].value == f(vs[i].point)
  }

  // -------------------------------------------------------- the transitions

  function CornerPoint(start: Vector, size: real, i: nat): (r: Vector)
    requires i <= |start|
    ensures |r| == |start|
  {
    if i == 0 then start else start[i - 1 := start[i - 1] + size]
  }

  function CornerPoints(start: Vector, size: real): (r: seq<Vector>)
    ensures |r| == |start| + 1
  {
    seq(|start| + 1, i requires 0 <= i <= |start| => CornerPoint(start, size, i))
  }

  /** The mean of all points but the k-th. */
  function Centroid(ps: seq<Vector>, k: nat, dim: nat): (r: Vector)
    requires |ps| >= 2 && Dim(ps, dim)
    ensures |r| == dim
  {
    seq(dim, j requires 0 <= j < dim => SumExcept(Col(ps, j), k, |ps|) / ((|ps| - 1) as real))
  }

  /** The point c + t * (c - x). */
  function Flip(c: Vector, t: real, x: Vector): (r: Vector)
    requires |c| == |x|
    ensures |r| == |c|
  {
    Add(c, Scale(t, Sub(c, x)))
  }

  function Shrunk(f: Vector -> real, dim: nat, vs: seq<Vertex>): (r: seq<Vertex>)
    requires IsSimplex(f, dim, vs)
    ensures |r| == |vs|
  {
    seq(|vs|, i requires 0 <= i < |vs| =>
      if i == 0 then vs[0] else At(f, Flip(vs[0].point, K_REDUCTION, vs[i].point)))
  }

  /** The vertex on the line from the worst vertex through the centroid of the others. */
  function Probe(f: Vector -> real, dim: nat, vs: seq<Vertex>, t: real): (v: Vertex)
    requires IsSimplex(f, dim, vs) && dim >= 1
    ensures |v.point| == dim && v.value == f(v.point)
  {
    At(f, Flip(Centroid(Points(vs), dim, dim), t, vs[dim].point))
  }

  /** What happens when reflecting did not beat the second worst vertex. */
  function ContractOrReduce(f: Vector -> real, dim: nat, vs: seq<Vertex>): Outcome
    requires IsSimplex(f, dim, vs) && dim >= 1
  {
    var contracted := Probe(f, dim, vs, K_CONTRACTION);
    if contracted.value < vs[dim].value then
      Outcome(vs[dim := contracted], [contracted.point])
    else
      Outcome(Shrunk(f, dim, vs), [contracted.point] + Points(Shrunk(f, dim, vs))[1..])
  }

  /** What happens when reflecting beat the best vertex. */
  function Expand(f: Vector -> real, dim: nat, vs: seq<Vertex>, reflected: Vertex): Outcome
    requires IsSimplex(f, dim, vs) && dim >= 1
  {
    var expanded := Probe(f, dim, vs, K_EXPANSION);
    Outcome(vs[dim := if expanded.value < reflected.value then expanded else reflected], [expanded.point])
  }

  function AfterReflection(f: Vector -> real, dim: nat, vs: seq<Vertex>, reflected: Vertex): Outcome
    requires IsSimplex(f, dim, vs) && dim >= 1
  {
    if reflected.value < vs[0].value then Expand(f, dim, vs, reflected)
    else if reflected.value < vs[dim - 1].value then Outcome(vs[dim := reflected], [])
    else ContractOrReduce(f, dim, vs)
  }

  /** One pass of the loop: reflection, then expansion, contraction, reduction or nothing more. */
  function Move(f: Vector -> real, dim: nat, vs: seq<Vertex>): Outcome
    requires IsSimplex(f, dim, vs) && dim >= 1
  {
    var reflected := Probe(f, dim, vs, K_REFLECTION);
    var rest := AfterReflection(f, dim, vs, reflected);
    Outcome(rest.vertices, [reflected.point] + rest.asked)
  }

  ghost predicate Init(f: Vector -> real, conf: Configuration, guess: Vector, s: State)
  {
    && s.evaluated == CornerPoints(guess, conf.initialSize)
    && SortedPermutation(Corners(f, guess, conf.initialSize), s.vertices, ValueOf)
  }

  function Corners(f: Vector -> real, guess: Vector, size: real): (r: seq<Vertex>)
    ensures IsSimplex(f, |guess|, r)
  {
    var corners := CornerPoints(guess, size);
    seq(|corners|, i requires 0 <= i < |corners| => At(f, corners[i]))
  }

  ghost predicate Step(f: Vector -> real, dim: nat, s: State, t: State) {
    && IsSimplex(f, dim, s.vertices) && dim >= 1
    && SortedPermutation(Move(f, dim, s.vertices).vertices, t.vertices, ValueOf)
    && t.evaluated == s.evaluated + Move(f, dim, s.vertices).asked
  }

  /** The loop condition. */
  ghost predicate Continues(conf: Configuration, dim: nat, norm: Vector -> real, s: State) {
    && |s.vertices| == dim + 1
    && |s.vertices[0].point| == |s.vertices[dim].point|
    && norm(Sub(s.vertices[0].point, s.vertices[dim].point)) > conf.finalSize
    && |s.evaluated| < conf.maxEvaluations
  }

  /** The optimization loop, started at `guess`. */
  ghost function Loop(f: Vector -> real, conf: Configuration, norm: Vector -> real, guess: Vector): Machine<State>
  {
    Machine(s => Init(f, conf, guess, s),
            (s, t) => Step(f, |guess|, s, t),
            s => Continues(conf, |guess|, norm, s))
  }

  // ------------------------------------------------------------ the optimizer

  method BuildSimplex(start: Vector, size: real) returns (corners: seq<Vector>)
    ensures corners == CornerPoints(start, size)
  {
    corners := [start];
    for i := 0 to |start|
      invariant |corners| == i + 1
      invariant forall k | 0 <= k <= i :: corners[k] == CornerPoint(start, size, k)
    {
      var v := start;
      v := v[i := v[i] + size];
      corners := corners + [v];
    }
  }

  method GetCentroid(vertices: seq<Vertex>, ve: nat, dim: nat) returns (centroid: Vector)
    requires ve < |vertices| && |vertices| >= 2
    requires forall i | 0 <= i < |vertices| :: |vertices[i].point| == dim
    ensures centroid == Centroid(Points(vertices), ve, dim)
  {
    var n := |vertices|;
    centroid := Const(dim, 0.0);
    for i := 0 to n
      invariant |centroid| == dim
      invariant forall j | 0 <= j < dim :: centroid[j] == SumExcept(Col(Points(vertices), j), ve, i)
    {
      if i != ve {
        centroid := Add(centroid, vertices[i].point);
      }
    }
    centroid := Divide(centroid, (n - 1) as real);
  }

  method InitialSimplex(fn: ObjectiveFunction, guess: Vector, size: real) returns (vertices: seq<Vertex>)
    requires fn.Valid() && |guess| == fn.dim
    modifies fn.log
    ensures fn.Valid() && fn.log.calls == old(fn.log.calls) + CornerPoints(guess, size)
    ensures vertices == Corners(fn.f, guess, size)
  {
    var corners := BuildSimplex(guess, size);
    vertices := [];
    for i := 0 to |corners|
      invariant i == |vertices| && fn.Valid()
      invariant fn.log.calls == old(fn.log.calls) + corners[..i]
      invariant forall k | 0 <= k < i :: vertices[k] == At(fn.f, corners[k])
    {
      var value := fn.Evaluate(corners[i]);
      vertices := vertices + [Vertex(corners[i], value)];
    }
    assert corners[..|corners|] == corners;
  }

  /** Everything before the loop: the evaluated and sorted initial simplex. */
  method Start(fn: ObjectiveFunction, conf: Configuration, guess: Vector)
    returns (vertices: seq<Vertex>, ghost s: State)
    requires fn.Valid() && |guess| == fn.dim
    modifies fn.log
    ensures Init(fn.f, conf, guess, s) && s.vertices == vertices && |s.evaluated| == |guess| + 1
    ensures IsSimplex(fn.f, |guess|, vertices)
    ensures fn.Valid() && fn.log.calls == old(fn.log.calls) + s.evaluated
  {
    var corners := InitialSimplex(fn, guess, conf.initialSize);
    vertices := SortBy(corners, ValueOf);
    SortedSimplex(fn.f, |guess|, corners, vertices);
    s := State(vertices, CornerPoints(guess, conf.initialSize));
  }

  /** The body of the optimization loop. */
  method Iterate(fn: ObjectiveFunction, dim: nat, before: seq<Vertex>, ghost s: State, ghost base: seq<Vector>)
    returns (vertices: seq<Vertex>, nEvaluated: nat, ghost t: State)
    requires IsSimplex(fn.f, dim, before) && dim == fn.dim >= 1 && s.vertices == before
    requires fn.Valid() && fn.log.calls == base + s.evaluated
    modifies fn.log
    ensures Step(fn.f, dim, s, t) && t.vertices == vertices && IsSimplex(fn.f, dim, vertices)
    ensures |t.evaluated| == |s.evaluated| + nEvaluated && nEvaluated > 0
    ensures fn.Valid() && fn.log.calls == base + t.evaluated
  {
    ghost var move;
    MovedSimplex(fn.f, dim, before);
    vertices, nEvaluated, move := Pass(fn, dim, before);
    vertices := SortBy(vertices, ValueOf);
    SortedSimplex(fn.f, dim, move.vertices, vertices);
    t := State(vertices, s.evaluated + move.asked);
  }

  method Minimize(fn: ObjectiveFunction, conf: Configuration, norm: Vector -> real, guess: Vector)
    returns (result: Vector, ghost run: seq<State>)
    requires |guess| >= 1 && fn.Valid() && |guess| == fn.dim
    modifies fn.log
    ensures fn.Valid() && IsRun(Loop(fn.f, conf, norm, guess), run)
    ensures fn.log.calls == old(fn.log.calls) + Last(run).evaluated
    ensures |Last(run).vertices| > 0 && result == Last(run).vertices[0].point
  {
    var dim := |guess|;
    ghost var m, base := Loop(fn.f, conf, norm, guess), fn.log.calls;
    ghost var s, t;
    var vertices, n;
    vertices, s := Start(fn, conf, guess);
    var fev := dim + 1;
    run := [s];
    result := guess;
    var again := true;
    while again
      invariant IsSimplex(fn.f, dim, vertices) && fn.Valid()
      invariant IsPrefix(m, run) && Last(run) == s && s.vertices == vertices
      invariant fev == |s.evaluated| && fn.log.calls == base + s.evaluated
      invariant again ==> |run| == 1 || m.continues(s)
      invariant !again ==> |run| >= 2 && !m.continues(s) && result == vertices[0].point
      decreases again, conf.maxEvaluations - fev
    {
      vertices, n, t := Iterate(fn, dim, vertices, s, base);
      fev := fev + n;
      result := vertices[0].point;
      var rho := norm(Sub(vertices[0].point, vertices[dim].point));
      again := rho > conf.finalSize && fev < conf.maxEvaluations;
      Extend(m, run, t);
      run, s := run + [t], t;
    }
  }

  lemma SortedSimplex(f: Vector -> real, dim: nat, us: seq<Vertex>, vs: seq<Vertex>)
    requires IsSimplex(f, dim, us) && SortedPermutation(us, vs, ValueOf)
    ensures IsSimplex(f, dim, vs)
  {
    assert |us| == |multiset(us)| == |vs|;
    forall i | 0 <= i < |vs| ensures |vs[i].point| == dim && vs[i].value == f(vs[i].point) {
      assert vs[i] in multiset(us);
    }
  }

  lemma MovedSimplex(f: Vector -> real, dim: nat, vs: seq<Vertex>)
    requires IsSimplex(f, dim, vs) && dim >= 1
    ensures IsSimplex(f, dim, Move(f, dim, vs).vertices)
  {
    var vs' := Shrunk(f, dim, vs);
    assert IsSimplex(f, dim, vs');
  }

  /**
   The law of a pass, branch by branch: which vertices us it leaves before the
   sort and which points it asks for, in order.
   */
  ghost predicate LawfulPass(f: Vector -> real, dim: nat, vs: seq<Vertex>, us: seq<Vertex>, asked: seq<Vector>)
    requires IsSimplex(f, dim, vs) && dim >= 1
  {
    var reflected, expanded := Probe(f, dim, vs, 1.0), Probe(f, dim, vs, 2.0);
    var contracted, shrunk := Probe(f, dim, vs, -0.5), Shrunk(f, dim, vs);
    && (reflected.value < vs[0].value ==>
          us == vs[dim := if expanded.value < reflected.value then expanded else reflected]
          && asked == [reflected.point, expanded.point])
    && (vs[0].value <= reflected.value < vs[dim - 1].value ==>
          us == vs[dim := reflected] && asked == [reflected.point])
    && (reflected.value >= vs[0].value && reflected.value >= vs[dim - 1].value ==>
          if contracted.value < vs[dim].value then
            us == vs[dim := contracted] && asked == [reflected.point, contracted.point]
          else
            us == shrunk && asked == [reflected.point, contracted.point] + Points(shrunk)[1..])
  }

  lemma PassIsLawful(f: Vector -> real, dim: nat, vs: seq<Vertex>)
    requires IsSimplex(f, dim, vs) && dim >= 1
    ensures LawfulPass(f, dim, vs, Move(f, dim, vs).vertices, Move(f, dim, vs).asked)
  {
  }

  /** A pass only asks for points of the space. */
  lemma MovedAsks(f: Vector -> real, dim: nat, vs: seq<Vertex>)
    requires IsSimplex(f, dim, vs) && dim >= 1
    ensures Dim(Move(f, dim, vs).asked, dim)
  {
    assert Dim(Points(Shrunk(f, dim, vs))[1..], dim);
  }

  method Try(fn: ObjectiveFunction, dim: nat, vs: seq<Vertex>, centroid: Vector, t: real)
    returns (v: Vertex)
    requires IsSimplex(fn.f, dim, vs) && dim == fn.dim >= 1 && fn.Valid()
    requires centroid == Centroid(Points(vs), dim, dim)
    modifies fn.log
    ensures v == Probe(fn.f, dim, vs, t)
    ensures fn.Valid() && fn.log.calls == old(fn.log.calls) + [v.point]
  {
    v := Vertex(Flip(centroid, t, vs[dim].point), 0.0);
    var value := fn.Evaluate(v.point);
    v := v.(value := value);
  }

  /** The part of the loop body that comes before the sort. */
  method Pass(fn: ObjectiveFunction, dim: nat, before: seq<Vertex>)
    returns (vertices: seq<Vertex>, nEvaluated: nat, ghost out: Outcome)
    requires IsSimplex(fn.f, dim, before) && dim == fn.dim >= 1 && fn.Valid()
    modifies fn.log
    ensures out == Move(fn.f, dim, before) && vertices == out.vertices && nEvaluated == |out.asked| > 0
    ensures fn.Valid() && fn.log.calls == old(fn.log.calls) + out.asked
  {
    var centroid := GetCentroid(before, dim, dim);
    var reflected := Try(fn, dim, before, centroid, K_REFLECTION);
    vertices, nEvaluated, out := PassReflected(fn, dim, before, centroid, reflected);
    nEvaluated := nEvaluated + 1;
    out := Outcome(vertices, [reflected.point] + out.asked);
  }

  method PassReflected(fn: ObjectiveFunction, dim: nat, before: seq<Vertex>, centroid: Vector, reflected: Vertex)
    returns (vertices: seq<Vertex>, nEvaluated: nat, ghost out: Outcome)
    requires IsSimplex(fn.f, dim, before) && dim == fn.dim >= 1 && fn.Valid()
    requires centroid == Centroid(Points(before), dim, dim)
    modifies fn.log
    ensures out == AfterReflection(fn.f, dim, before, reflected)
    ensures vertices == out.vertices && nEvaluated == |out.asked|
    ensures fn.Valid() && fn.log.calls == old(fn.log.calls) + out.asked
  {
    if reflected.value < before[0].value {
      vertices, nEvaluated, out := PassExpand(fn, dim, before, centroid, reflected);
    } else if reflected.value < before[dim - 1].value {
      vertices, nEvaluated := before[dim := reflected], 0;
      out := Outcome(vertices, []);
    } else {
      vertices, nEvaluated, out := PassContract(fn, dim, before, centroid);
    }
  }

  method PassExpand(fn: ObjectiveFunction, dim: nat, before: seq<Vertex>, centroid: Vector, reflected: Vertex)
    returns (vertices: seq<Vertex>, nEvaluated: nat, ghost out: Outcome)
    requires IsSimplex(fn.f, dim, before) && dim == fn.dim >= 1 && fn.Valid()
    requires centroid == Centroid(Points(before), dim, dim)
    modifies fn.log
    ensures out == Expand(fn.f, dim, before, reflected) && vertices == out.vertices && nEvaluated == |out.asked|
    ensures fn.Valid() && fn.log.calls == old(fn.log.calls) + out.asked
  {
    vertices := before;
    var expanded := Try(fn, dim, vertices, centroid, K_EXPANSION);
    nEvaluated := 1;
    if expanded.value < reflected.value {
      vertices := vertices[dim := expanded];
    } else {
      vertices := vertices[dim := reflected];
    }
    out := Outcome(vertices, [expanded.point]);
  }

  method PassContract(fn: ObjectiveFunction, dim: nat, before: seq<Vertex>, centroid: Vector)
    returns (vertices: seq<Vertex>, nEvaluated: nat, ghost out: Outcome)
    requires IsSimplex(fn.f, dim, before) && dim == fn.dim >= 1 && fn.Valid()
    requires centroid == Centroid(Points(before), dim, dim)
    modifies fn.log
    ensures out == ContractOrReduce(fn.f, dim, before) && vertices == out.vertices && nEvaluated == |out.asked|
    ensures fn.Valid() && fn.log.calls == old(fn.log.calls) + out.asked
  {
    vertices := before;
    var contracted := Try(fn, dim, vertices, centroid, K_CONTRACTION);
    nEvaluated := 1;
    if contracted.value < vertices[dim].value {
      vertices := vertices[dim := contracted];
    } else {
      vertices := Reduce(fn, dim, vertices);
      nEvaluated := nEvaluated + dim;
    }
    out := ContractOrReduce(fn.f, dim, before);
  }

  method Reduce(fn: ObjectiveFunction, dim: nat, before: seq<Vertex>) returns (vertices: seq<Vertex>)
    requires IsSimplex(fn.f, dim, before) && dim == fn.dim >= 1 && fn.Valid()
    modifies fn.log
    ensures vertices == Shrunk(fn.f, dim, before)
    ensures fn.Valid() && fn.log.calls == old(fn.log.calls) + Points(Shrunk(fn.f, dim, before))[1..]
  {
    vertices := before;
    var best := vertices[0];
    ghost var goal := Shrunk(fn.f, dim, before);
    for i := 1 to |vertices|
      invariant |vertices| == dim + 1 && fn.Valid()
      invariant forall k | 0 <= k < |vertices| :: vertices[k] == if k < i then goal[k] else before[k]
      invariant fn.log.calls == old(fn.log.calls) + Points(goal)[1..i]
    {
      var p := Flip(best.point, K_REDUCTION, vertices[i].point);
      var value := fn.Evaluate(p);
      vertices := vertices[i := Vertex(p, value)];
      assert Points(goal)[1..i + 1] == Points(goal)[1..i] + [p];
    }
    assert Points(goal)[1..|vertices|] == Points(goal)[1..];
  }
}
