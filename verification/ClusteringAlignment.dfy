/**
 Alignment by clustering (src/evaluation/ClusteringAlignment.cpp): a greedy
 pass marks every point lying in the box around a still unmarked one, and the
 alignment of an axis is the share of points marked. `Greedy` is the pass on
 plain sequences; the methods are the loops over shared point objects.
 */
module ClusteringAlignment {
  import opened GraspStatus
  import LinearAlgebra

  datatype Versor = Versor(x: real, y: real, z: real)

  /** A rotation matrix, by rows. */
  datatype Rotation = Rotation(r0: Versor, r1: Versor, r2: Versor)

  function Dot(a: Versor, b: Versor): real {
    a.x * b.x + a.y * b.y + a.z * b.z
  }

  function Apply(r: Rotation, v: Versor): Versor {
    Versor(Dot(r.r0, v), Dot(r.r1, v), Dot(r.r2, v))
  }

  /** The rotation part of the inverse of a rigid transform. */
  function InverseRotation(r: Rotation): Rotation {
    Rotation(Versor(r.r0.x, r.r1.x, r.r2.x), Versor(r.r0.y, r.r1.y, r.r2.y), Versor(r.r0.z, r.r1.z, r.r2.z))
  }

  // --------------------------------------------------------- the greedy pass

  /** q lies in the box of the given radius around k. */
  predicate InBox(k: Versor, radius: real, q: Versor) {
    && k.x - radius <= q.x <= k.x + radius
    && k.y - radius <= q.y <= k.y + radius
    && k.z - radius <= q.z <= k.z + radius
  }

  function Distance(a: real, b: real): real {
    if a < b then b - a else a - b
  }

  /** The box holds the points no coordinate of which is further away than the radius. */
  lemma BoxIsCloseness(k: Versor, radius: real, q: Versor)
    ensures InBox(k, radius, q) <==>
            Distance(k.x, q.x) <= radius && Distance(k.y, q.y) <= radius && Distance(k.z, q.z) <= radius
  {
  }

  /** An unmarked point with key k marks a point with key q. */
  predicate Marks(k: Versor, radius: real, q: Versor) {
    InBox(k, radius, q) && q != k
  }

  /** The flags after point i had its turn. */
  function Turn(keys: seq<Versor>, radius: real, flags: seq<bool>, i: nat): (r: seq<bool>)
    requires |flags| == |keys| && i < |keys|
    ensures |r| == |keys|
  {
    if flags[i] then flags
    else seq(|keys|, k requires 0 <= k < |keys| => flags[k] || Marks(keys[i], radius, keys[k]))
  }

  /** The flags after the first n points had their turns. */
  function Greedy(keys: seq<Versor>, radius: real, n: nat): (r: seq<bool>)
    requires n <= |keys|
    ensures |r| == |keys|
  {
    if n == 0 then seq(|keys|, k => false) else Turn(keys, radius, Greedy(keys, radius, n - 1), n - 1)
  }

  /** Point k survives the whole pass. */
  predicate Kept(keys: seq<Versor>, radius: real, k: nat)
    requires k < |keys|
  {
    !Greedy(keys, radius, |keys|)[k]
  }

  /** Some unmarked point among the first n, and before k, marks point k. */
  ghost predicate Dominated(keys: seq<Versor>, radius: real, flags: seq<bool>, n: nat, k: nat)
    requires n <= |keys| == |flags| && k < |keys|
  {
    exists j :: 0 <= j < n && j < k && !flags[j] && Marks(keys[j], radius, keys[k])
  }

  /** The invariant of the pass. */
  ghost predicate Consistent(keys: seq<Versor>, radius: real, flags: seq<bool>, n: nat)
    requires n <= |keys| == |flags|
  {
    && (forall j, k | 0 <= j < n && !flags[j] && 0 <= k < |keys| && Marks(keys[j], radius, keys[k]) :: flags[k])
    && (forall k | 0 <= k < |keys| && flags[k] :: Dominated(keys, radius, flags, n, k))
    && (forall j, k | 0 <= j < |keys| && 0 <= k < |keys| && keys[j] == keys[k] :: flags[j] == flags[k])
  }

  lemma TurnKeepsConsistent(keys: seq<Versor>, radius: real, flags: seq<bool>, i: nat, after: seq<bool>)
    requires i < |keys| == |flags| && Consistent(keys, radius, flags, i)
    requires after == Turn(keys, radius, flags, i)
    ensures Consistent(keys, radius, after, i + 1)
  {
    forall k | 0 <= k < |keys| && after[k] ensures Dominated(keys, radius, after, i + 1, k) {
      if flags[k] {
        var j :| 0 <= j < i && j < k && !flags[j] && Marks(keys[j], radius, keys[k]);
        MarksIsSymmetric(keys[i], radius, keys[j]);
        assert !after[j];
      } else {
        // marking an earlier survivor would mean it had marked point i before
        MarksIsSymmetric(keys[i], radius, keys[k]);
        assert !after[i];
      }
    }
  }

  lemma MarksIsSymmetric(k: Versor, radius: real, q: Versor)
    ensures Marks(k, radius, q) <==> Marks(q, radius, k)
  {
  }

  lemma NothingMarkedIsConsistent(keys: seq<Versor>, radius: real, flags: seq<bool>)
    requires |flags| == |keys| && forall k | 0 <= k < |flags| :: !flags[k]
    ensures Consistent(keys, radius, flags, 0)
  {
  }

  lemma {:induction false} GreedyIsConsistent(keys: seq<Versor>, radius: real, n: nat)
    requires n <= |keys|
    ensures Consistent(keys, radius, Greedy(keys, radius, n), n)
  {
    if n == 0 {
      NothingMarkedIsConsistent(keys, radius, Greedy(keys, radius, 0));
    } else {
      GreedyIsConsistent(keys, radius, n - 1);
      TurnKeepsConsistent(keys, radius, Greedy(keys, radius, n - 1), n - 1, Greedy(keys, radius, n));
    }
  }

  /**
   The survivors are a maximal separated set: no survivor lies in the box of
   another with a different key, every removed point lies in the box of an
   earlier survivor, and points with one key share one fate.
   */
  lemma SurvivorsAreMaximalSeparated(keys: seq<Versor>, radius: real)
    ensures forall j, k | 0 <= j < |keys| && 0 <= k < |keys| && Kept(keys, radius, j) && Kept(keys, radius, k) ::
              keys[j] == keys[k] || !InBox(keys[j], radius, keys[k])
    ensures forall k | 0 <= k < |keys| && !Kept(keys, radius, k) ::
              exists j :: 0 <= j < k && Kept(keys, radius, j) && Marks(keys[j], radius, keys[k])
    ensures forall j, k | 0 <= j < |keys| && 0 <= k < |keys| && keys[j] == keys[k] ::
              Kept(keys, radius, j) == Kept(keys, radius, k)
  {
    GreedyIsConsistent(keys, radius, |keys|);
    var flags := Greedy(keys, radius, |keys|);
    forall k | 0 <= k < |keys| && !Kept(keys, radius, k)
      ensures exists j :: 0 <= j < k && Kept(keys, radius, j) && Marks(keys[j], radius, keys[k])
    {
      assert Dominated(keys, radius, flags, |keys|, k);
      var j :| 0 <= j < |keys| && j < k && !flags[j] && Marks(keys[j], radius, keys[k]);
      assert Kept(keys, radius, j);
    }
  }

  /** Survival is decided by the earlier survivors alone. */
  lemma KeptIffNoEarlierSurvivorMarks(keys: seq<Versor>, radius: real, k: nat)
    requires k < |keys|
    ensures Kept(keys, radius, k) <==>
            forall j | 0 <= j < k && Kept(keys, radius, j) :: !Marks(keys[j], radius, keys[k])
  {
    SurvivorsAreMaximalSeparated(keys, radius);
  }

  /** The flags mark exactly the points that some earlier unmarked point marks. */
  ghost predicate Recurrent(keys: seq<Versor>, radius: real, flags: seq<bool>) {
    && |flags| == |keys|
    && forall k | 0 <= k < |keys| ::
         flags[k] <==> exists j :: 0 <= j < k && !flags[j] && Marks(keys[j], radius, keys[k])
  }

  /** That determines the flags: they are the ones the pass leaves. */
  lemma OnlyGreedyIsRecurrent(keys: seq<Versor>, radius: real, flags: seq<bool>)
    ensures Recurrent(keys, radius, flags) <==> flags == Greedy(keys, radius, |keys|)
  {
    var greedy := Greedy(keys, radius, |keys|);
    GreedyIsRecurrent(keys, radius);
    if Recurrent(keys, radius, flags) {
      forall k | 0 <= k < |keys| ensures flags[k] == greedy[k] {
        RecurrentFlagsAgree(keys, radius, flags, greedy, k);
      }
    }
  }

  lemma GreedyIsRecurrent(keys: seq<Versor>, radius: real)
    ensures Recurrent(keys, radius, Greedy(keys, radius, |keys|))
  {
    var flags := Greedy(keys, radius, |keys|);
    forall k | 0 <= k < |keys|
      ensures flags[k] <==> exists j :: 0 <= j < k && !flags[j] && Marks(keys[j], radius, keys[k])
    {
      KeptIffNoEarlierSurvivorMarks(keys, radius, k);
      assert forall j | 0 <= j < |keys| :: Kept(keys, radius, j) == !flags[j];
    }
  }

  lemma {:induction false} RecurrentFlagsAgree(keys: seq<Versor>, radius: real, f: seq<bool>, g: seq<bool>, k: nat)
    requires Recurrent(keys, radius, f) && Recurrent(keys, radius, g) && k < |keys|
    ensures f[k] == g[k]
    decreases k
  {
    forall j | 0 <= j < k ensures f[j] == g[j] {
      RecurrentFlagsAgree(keys, radius, f, g, j);
    }
    if f[k] {
      MarkedInBoth(keys, radius, f, g, k);
    }
    if g[k] {
      MarkedInBoth(keys, radius, g, f, k);
    }
  }

  lemma MarkedInBoth(keys: seq<Versor>, radius: real, f: seq<bool>, g: seq<bool>, k: nat)
    requires Recurrent(keys, radius, f) && Recurrent(keys, radius, g) && k < |keys|
    requires f[k] && forall j | 0 <= j < k :: f[j] == g[j]
    ensures g[k]
  {
    var j :| 0 <= j < k && !f[j] && Marks(keys[j], radius, keys[k]);
    assert !g[j];
  }

  // --------------------------------------------------------------- counting

  /** The points whose flag is down, in order. */
  function Unmarked(keys: seq<Versor>, flags: seq<bool>, n: nat): (r: seq<Versor>)
    requires n <= |keys| == |flags|
    ensures |r| <= n
    ensures n > 0 && !flags[0] ==> |r| >= 1
  {
    if n == 0 then []
    else Unmarked(keys, flags, n - 1) + (if flags[n - 1] then [] else [keys[n - 1]])
  }

  function Survivors(keys: seq<Versor>, radius: real): seq<Versor> {
    Unmarked(keys, Greedy(keys, radius, |keys|), |keys|)
  }

  /** 1 - survivors / points, and 0 without points. */
  function AxisAlignment(keys: seq<Versor>, radius: real): real {
    if |keys| == 0 then 0.0 else 1.0 - (|Survivors(keys, radius)| as real) / (|keys| as real)
  }

  lemma ShareOfWhole(m: real, n: real)
    requires 0.0 < m <= n
    ensures 0.0 < m / n <= 1.0
  {
    var q := m / n;
    assert q * n == m;
    assert q <= 0.0 ==> q * n <= 0.0;
    assert q > 1.0 ==> (q - 1.0) * n > 0.0;
    assert (q - 1.0) * n == q * n - n;
  }

  /** The first point always survives, so an alignment is at least 0 and below 1. */
  lemma AlignmentInRange(keys: seq<Versor>, radius: real)
    ensures 0.0 <= AxisAlignment(keys, radius) < 1.0
    ensures |keys| > 0 ==> keys[0] in Survivors(keys, radius) && 1 <= |Survivors(keys, radius)| <= |keys|
  {
    if |keys| > 0 {
      KeptIffNoEarlierSurvivorMarks(keys, radius, 0);
      FirstUnmarked(keys, Greedy(keys, radius, |keys|), |keys|);
      ShareOfWhole(|Survivors(keys, radius)| as real, |keys| as real);
    }
  }

  lemma {:induction false} FirstUnmarked(keys: seq<Versor>, flags: seq<bool>, n: nat)
    requires 0 < n <= |keys| == |flags| && !flags[0]
    ensures keys[0] in Unmarked(keys, flags, n)
  {
    if n > 1 {
      FirstUnmarked(keys, flags, n - 1);
    }
  }

  // ------------------------------------------------------------- the methods

  class Point {
    const point: Versor
    var filtered: bool

    constructor (v: Versor)
      ensures point == v && !filtered
    {
      point := v;
      filtered := false;
    }
  }

  datatype Node = Node(key: Versor, value: Point)

  /** Each node has its own point, which carries the node's key. */
  ghost predicate ValidNodes(nodes: seq<Node>) {
    && (forall i | 0 <= i < |nodes| :: nodes[i].value.point == nodes[i].key)
    && forall i, j | 0 <= i < j < |nodes| :: nodes[i].value != nodes[j].value
  }

  ghost function PointsOf(nodes: seq<Node>): set<Point> {
    set n | n in nodes :: n.value
  }

  function KeysOf(nodes: seq<Node>): (r: seq<Versor>)
    ensures |r| == |nodes|
  {
    seq(|nodes|, i requires 0 <= i < |nodes| => nodes[i].key)
  }

  ghost function FlagsOf(nodes: seq<Node>): (r: seq<bool>)
    reads PointsOf(nodes)
    ensures |r| == |nodes|
  {
    seq(|nodes|, i requires 0 <= i < |nodes| reads PointsOf(nodes) =>
      assert nodes[i] in nodes; nodes[i].value.filtered)
  }

  method MakeNodes(points: seq<Versor>) returns (nodes: seq<Node>)
    ensures KeysOf(nodes) == points && ValidNodes(nodes) && fresh(PointsOf(nodes))
    ensures forall i | 0 <= i < |nodes| :: !nodes[i].value.filtered
  {
    nodes := [];
    for i := 0 to |points|
      invariant |nodes| == i && ValidNodes(nodes) && fresh(PointsOf(nodes))
      invariant forall k | 0 <= k < i :: nodes[k].key == points[k] && !nodes[k].value.filtered
    {
      var p := new Point(points[i]);
      ghost var before := nodes;
      nodes := nodes + [Node(points[i], p)];
      assert PointsOf(nodes) == PointsOf(before) + {p};
    }
  }

  /** Building the search tree may reorder the nodes in any way. */
  method BuildTree(nodes: seq<Node>) returns (ordered: seq<Node>)
    ensures multiset(ordered) == multiset(nodes)
  {
    ordered := nodes;
  }

  /** The stored nodes inside the box around a key: the contract of the search tree. */
  method SearchRect(nodes: seq<Node>, key: Versor, radius: real) returns (result: seq<Node>)
    ensures forall n :: n in result <==> n in nodes && InBox(key, radius, n.key)
  {
    result := [];
    for i := 0 to |nodes|
      invariant forall n :: n in result <==> n in nodes[..i] && InBox(key, radius, n.key)
    {
      if InBox(key, radius, nodes[i].key) {
        result := result + [nodes[i]];
      }
      assert nodes[..i + 1] == nodes[..i] + [nodes[i]];
    }
    assert nodes[..|nodes|] == nodes;
  }

  /** One turn of the pass: an unmarked node marks what the search finds around it. */
  method TakeTurn(nodes: seq<Node>, i: nat, radius: real)
    requires i < |nodes| && ValidNodes(nodes)
    modifies PointsOf(nodes)
    ensures FlagsOf(nodes) == Turn(KeysOf(nodes), radius, old(FlagsOf(nodes)), i)
  {
    var node := nodes[i];
    if node.value.filtered {
      return;
    }
    var result := SearchRect(nodes, node.key, radius);
    for r := 0 to |result|
      invariant forall k | 0 <= k < |nodes| ::
        nodes[k].value.filtered ==
        (old(nodes[k].value.filtered) || (nodes[k] in result[..r] && nodes[k].key != node.key))
    {
      assert result[..r + 1] == result[..r] + [result[r]];
      assert result[r] in nodes;
      if result[r].key != node.key {
        result[r].value.filtered := true;
      }
    }
    assert result[..|result|] == result;
  }

  /** The marking loop over all nodes. */
  method MarkAll(nodes: seq<Node>, radius: real)
    requires ValidNodes(nodes) && forall i | 0 <= i < |nodes| :: !nodes[i].value.filtered
    modifies PointsOf(nodes)
    ensures FlagsOf(nodes) == Greedy(KeysOf(nodes), radius, |nodes|)
  {
    for i := 0 to |nodes|
      invariant FlagsOf(nodes) == Greedy(KeysOf(nodes), radius, i)
    {
      TakeTurn(nodes, i, radius);
    }
  }

  method CollectUnmarked(nodes: seq<Node>) returns (filtered: seq<Versor>)
    requires ValidNodes(nodes)
    ensures filtered == Unmarked(KeysOf(nodes), FlagsOf(nodes), |nodes|)
  {
    filtered := [];
    for i := 0 to |nodes|
      invariant filtered == Unmarked(KeysOf(nodes), FlagsOf(nodes), i)
    {
      if !nodes[i].value.filtered {
        filtered := filtered + [nodes[i].value.point];
      }
    }
  }

  /** `keys` are the points in the order the tree left them. */
  method FilterPoints(points: seq<Versor>, radius: real) returns (filtered: seq<Versor>, ghost keys: seq<Versor>)
    ensures multiset(keys) == multiset(points) && |keys| == |points|
    ensures filtered == Survivors(keys, radius)
    ensures MaximalSeparated(points, radius, filtered)
  {
    var made := MakeNodes(points);
    var nodes := BuildTree(made);
    OrderedNodes(made, nodes);
    keys := KeysOf(nodes);
    forall i | 0 <= i < |nodes| ensures !nodes[i].value.filtered {
      assert nodes[i] in multiset(made);
    }
    MarkAll(nodes, radius);
    filtered := CollectUnmarked(nodes);
    SurvivorsOfReordered(points, keys, radius);
  }

  /** How often p occurs in s. */
  function Times<T(==)>(s: seq<T>, p: T): nat {
    if s == [] then 0 else Times(s[..|s| - 1], p) + if s[|s| - 1] == p then 1 else 0
  }

  lemma TimesWithOneMore<T>(s: seq<T>, x: T, p: T)
    ensures Times(s + [x], p) == Times(s, p) + if x == p then 1 else 0
  {
    assert (s + [x])[..|s|] == s;
  }

  lemma {:induction false} TimesCounts<T>(s: seq<T>, p: T)
    ensures multiset(s)[p] == Times(s, p)
  {
    if s != [] {
      TimesCounts(s[..|s| - 1], p);
      assert s == s[..|s| - 1] + [s[|s| - 1]];
    }
  }

  lemma TimesInPrefix<T>(s: seq<T>, n: nat, p: T)
    requires n < |s|
    ensures Times(s[..n + 1], p) == Times(s[..n], p) + if s[n] == p then 1 else 0
  {
    assert s[..n + 1][..n] == s[..n];
  }

  /** When equal points share one fate, every point is kept as often as it occurs or not at all. */
  lemma {:induction false} UnmarkedCount(keys: seq<Versor>, flags: seq<bool>, n: nat, p: Versor, lost: bool)
    requires n <= |keys| == |flags|
    requires forall j | 0 <= j < |keys| && keys[j] == p :: flags[j] == lost
    ensures Times(Unmarked(keys, flags, n), p) == if lost then 0 else Times(keys[..n], p)
  {
    if n > 0 {
      UnmarkedCount(keys, flags, n - 1, p, lost);
      TimesInPrefix(keys, n - 1, p);
      TimesWithOneMore(Unmarked(keys, flags, n - 1), keys[n - 1], p);
      assert flags[n - 1] ==> Unmarked(keys, flags, n) == Unmarked(keys, flags, n - 1);
    }
  }

  lemma {:induction false} UnmarkedAreKeys(keys: seq<Versor>, flags: seq<bool>, n: nat, p: Versor)
    requires n <= |keys| == |flags| && p in Unmarked(keys, flags, n)
    ensures exists k :: 0 <= k < n && keys[k] == p && !flags[k]
  {
    if flags[n - 1] || p != keys[n - 1] {
      UnmarkedAreKeys(keys, flags, n - 1, p);
    }
  }

  /** The survivors as a collection of points. */
  ghost predicate MaximalSeparated(points: seq<Versor>, radius: real, kept: seq<Versor>) {
    && (forall p | p in kept :: p in points && multiset(kept)[p] == multiset(points)[p])
    && (forall p, q | p in kept && q in kept :: p == q || !InBox(p, radius, q))
    && (forall p | p in points && p !in kept :: exists q :: q in kept && Marks(q, radius, p))
  }

  lemma KeptIsSurvivor(keys: seq<Versor>, radius: real, k: nat)
    requires k < |keys|
    ensures multiset(Survivors(keys, radius))[keys[k]] == if Kept(keys, radius, k) then multiset(keys)[keys[k]] else 0
    ensures keys[k] in Survivors(keys, radius) <==> Kept(keys, radius, k)
  {
    SurvivorsAreMaximalSeparated(keys, radius);
    var flags := Greedy(keys, radius, |keys|);
    forall j | 0 <= j < |keys| && keys[j] == keys[k] ensures flags[j] == flags[k] {
      assert Kept(keys, radius, j) == Kept(keys, radius, k);
    }
    UnmarkedCount(keys, flags, |keys|, keys[k], flags[k]);
    TimesCounts(keys, keys[k]);
    TimesCounts(Survivors(keys, radius), keys[k]);
    assert keys[..|keys|] == keys;
    assert keys[k] in multiset(keys);
    assert keys[k] in Survivors(keys, radius) <==> keys[k] in multiset(Survivors(keys, radius));
  }

  lemma SurvivorIsKept(keys: seq<Versor>, radius: real, p: Versor) returns (k: nat)
    requires p in Survivors(keys, radius)
    ensures k < |keys| && keys[k] == p && Kept(keys, radius, k)
  {
    var flags := Greedy(keys, radius, |keys|);
    UnmarkedAreKeys(keys, flags, |keys|, p);
    k :| 0 <= k < |keys| && keys[k] == p && !flags[k];
  }

  /** Whatever order the points are taken in. */
  lemma SurvivorsOfReordered(points: seq<Versor>, keys: seq<Versor>, radius: real)
    requires multiset(keys) == multiset(points)
    ensures MaximalSeparated(points, radius, Survivors(keys, radius))
  {
    var kept := Survivors(keys, radius);
    SurvivorsAreMaximalSeparated(keys, radius);
    forall p | p in kept ensures p in points && multiset(kept)[p] == multiset(points)[p] {
      var k := SurvivorIsKept(keys, radius, p);
      KeptIsSurvivor(keys, radius, k);
      assert p in multiset(keys);
    }
    forall p, q | p in kept && q in kept ensures p == q || !InBox(p, radius, q) {
      var j := SurvivorIsKept(keys, radius, p);
      var k := SurvivorIsKept(keys, radius, q);
    }
    forall p | p in points && p !in kept ensures exists q :: q in kept && Marks(q, radius, p) {
      assert p in multiset(keys);
      var k :| 0 <= k < |keys| && keys[k] == p;
      KeptIsSurvivor(keys, radius, k);
      var j :| 0 <= j < k && Kept(keys, radius, j) && Marks(keys[j], radius, keys[k]);
      KeptIsSurvivor(keys, radius, j);
    }
  }

  function KeyOf(n: Node): Versor {
    n.key
  }

  lemma {:induction false} DistinctCount(s: seq<Node>, x: Node)
    requires forall i, j | 0 <= i < j < |s| :: s[i] != s[j]
    ensures multiset(s)[x] <= 1
  {
    if s != [] {
      assert s == [s[0]] + s[1..];
      DistinctCount(s[1..], x);
      assert s[0] !in s[1..];
    }
  }

  lemma RepeatedCount(s: seq<Node>, i: nat, j: nat)
    requires i < j < |s| && s[i] == s[j]
    ensures multiset(s)[s[i]] >= 2
  {
    assert s == s[..j] + s[j..];
    assert s[i] == s[..j][i] && s[j] == s[j..][0];
    assert s[i] in multiset(s[..j]) && s[j] in multiset(s[j..]);
  }

  /** Reordering keeps the nodes' points distinct and their keys the same. */
  lemma OrderedNodes(made: seq<Node>, nodes: seq<Node>)
    requires ValidNodes(made) && multiset(made) == multiset(nodes)
    ensures ValidNodes(nodes) && PointsOf(nodes) == PointsOf(made)
    ensures multiset(KeysOf(nodes)) == multiset(KeysOf(made)) && |nodes| == |made|
  {
    forall n ensures n in nodes <==> n in made {
      assert n in multiset(made) <==> n in multiset(nodes);
    }
    forall i | 0 <= i < |nodes| ensures nodes[i].value.point == nodes[i].key {
      assert nodes[i] in made;
    }
    forall i, j | 0 <= i < j < |nodes| ensures nodes[i].value != nodes[j].value {
      if nodes[i].value == nodes[j].value {
        assert nodes[i] in made && nodes[j] in made;
        RepeatedCount(nodes, i, j);
        DistinctCount(made, nodes[i]);
      }
    }
    LinearAlgebra.ImageReordered(made, nodes, KeyOf);
    assert forall i | 0 <= i < |made| :: LinearAlgebra.Image(made, KeyOf)[i] == KeyOf(made[i]) == KeysOf(made)[i];
    assert forall i | 0 <= i < |nodes| :: LinearAlgebra.Image(nodes, KeyOf)[i] == KeyOf(nodes[i]) == KeysOf(nodes)[i];
    assert LinearAlgebra.Image(made, KeyOf) == KeysOf(made);
    assert LinearAlgebra.Image(nodes, KeyOf) == KeysOf(nodes);
    assert |multiset(made)| == |multiset(nodes)|;
  }

  // ---------------------------------------------------------------- alignment

  /** A target as the alignment sees it: its outcome and the rotation of the object in the tool frame after lifting. */
  datatype Target = Target(status: Status, lifted: Rotation)

  predicate Counts(t: Target) {
    t.status == Success || t.status == Interference
  }

  /** The axis as the counted targets turn it, in order. */
  function Versors(axis: Versor, targets: seq<Target>): (r: seq<Versor>)
    ensures |r| <= |targets|
  {
    if targets == [] then []
    else
      var t := targets[|targets| - 1];
      Versors(axis, targets[..|targets| - 1])
      + (if Counts(t) then [Apply(InverseRotation(t.lifted), axis)] else [])
  }

  /** Rows of length 1, at right angles to each other. */
  predicate Orthonormal(r: Rotation) {
    && r.r0.x * r.r0.x + r.r0.y * r.r0.y + r.r0.z * r.r0.z == 1.0
    && r.r1.x * r.r1.x + r.r1.y * r.r1.y + r.r1.z * r.r1.z == 1.0
    && r.r2.x * r.r2.x + r.r2.y * r.r2.y + r.r2.z * r.r2.z == 1.0
    && r.r0.x * r.r1.x + r.r0.y * r.r1.y + r.r0.z * r.r1.z == 0.0
    && r.r0.x * r.r2.x + r.r0.y * r.r2.y + r.r0.z * r.r2.z == 0.0
    && r.r1.x * r.r2.x + r.r1.y * r.r2.y + r.r1.z * r.r2.z == 0.0
  }

  /** r turns the vector v into w: each coordinate of w is the product of a row with v. */
  predicate TurnsInto(r: Rotation, v: Versor, w: Versor) {
    && w.x == r.r0.x * v.x + r.r0.y * v.y + r.r0.z * v.z
    && w.y == r.r1.x * v.x + r.r1.y * v.y + r.r1.z * v.z
    && w.z == r.r2.x * v.x + r.r2.y * v.y + r.r2.z * v.z
  }

  /** The combination of three rows with the weights of v. */
  function Combined(r: Rotation, v: Versor): Versor {
    Versor(r.r0.x * v.x + r.r1.x * v.y + r.r2.x * v.z,
           r.r0.y * v.x + r.r1.y * v.y + r.r2.y * v.z,
           r.r0.z * v.x + r.r1.z * v.y + r.r2.z * v.z)
  }

  /** The product of u with a combination is the combination of the products d0, d1, d2 of u with the rows. */
  lemma RowOfCombination(u: Versor, r: Rotation, v: Versor, d0: real, d1: real, d2: real)
    requires d0 == u.x * r.r0.x + u.y * r.r0.y + u.z * r.r0.z
    requires d1 == u.x * r.r1.x + u.y * r.r1.y + u.z * r.r1.z
    requires d2 == u.x * r.r2.x + u.y * r.r2.y + u.z * r.r2.z
    ensures u.x * Combined(r, v).x + u.y * Combined(r, v).y + u.z * Combined(r, v).z == d0 * v.x + d1 * v.y + d2 * v.z
  {
    Distributed(u.x, r.r0.x, r.r1.x, r.r2.x, v);
    Distributed(u.y, r.r0.y, r.r1.y, r.r2.y, v);
    Distributed(u.z, r.r0.z, r.r1.z, r.r2.z, v);
    Gathered(u.x * r.r0.x, u.y * r.r0.y, u.z * r.r0.z, v.x, d0);
    Gathered(u.x * r.r1.x, u.y * r.r1.y, u.z * r.r1.z, v.y, d1);
    Gathered(u.x * r.r2.x, u.y * r.r2.y, u.z * r.r2.z, v.z, d2);
  }

  lemma Distributed(a: real, p: real, q: real, r: real, v: Versor)
    ensures a * (p * v.x + q * v.y + r * v.z) == (a * p) * v.x + (a * q) * v.y + (a * r) * v.z
  {
  }

  lemma Gathered(a: real, b: real, c: real, x: real, d: real)
    requires d == a + b + c
    ensures a * x + b * x + c * x == d * x
  {
  }

  predicate Counted(t: Target) {
    t.status == Success || t.status == Interference
  }

  /** The vector is what the lifted rotation of t turns into the axis. */
  ghost predicate IsKeyOf(axis: Versor, t: Target, key: Versor) {
    && (Orthonormal(t.lifted) ==> TurnsInto(t.lifted, key, axis))
    && (axis == Versor(1.0, 0.0, 0.0) ==> key == t.lifted.r0)
    && (axis == Versor(0.0, 1.0, 0.0) ==> key == t.lifted.r1)
    && (axis == Versor(0.0, 0.0, 1.0) ==> key == t.lifted.r2)
  }

  lemma InverseCombines(r: Rotation, axis: Versor)
    ensures Apply(InverseRotation(r), axis) == Combined(r, axis)
  {
  }

  lemma CombinationTurnsBack(r: Rotation, axis: Versor)
    requires Orthonormal(r)
    ensures TurnsInto(r, Combined(r, axis), axis)
  {
    RowOfCombination(r.r0, r, axis, 1.0, 0.0, 0.0);
    RowOfCombination(r.r1, r, axis, 0.0, 1.0, 0.0);
    RowOfCombination(r.r2, r, axis, 0.0, 0.0, 1.0);
  }

  lemma CombinationOfAxes(r: Rotation)
    ensures Combined(r, Versor(1.0, 0.0, 0.0)) == r.r0
    ensures Combined(r, Versor(0.0, 1.0, 0.0)) == r.r1
    ensures Combined(r, Versor(0.0, 0.0, 1.0)) == r.r2
  {
  }

  lemma InverseGivesKey(axis: Versor, t: Target)
    ensures IsKeyOf(axis, t, Apply(InverseRotation(t.lifted), axis))
  {
    InverseCombines(t.lifted, axis);
    CombinationOfAxes(t.lifted);
    if Orthonormal(t.lifted) {
      CombinationTurnsBack(t.lifted, axis);
    }
  }

  /** The positions of the counted targets. */
  function CountedPositions(targets: seq<Target>): (ps: set<nat>) {
    set i: nat | i < |targets| && Counted(targets[i])
  }

  /** Exactly the targets marked Success or Interference contribute one key each. */
  lemma {:induction false} OneKeyPerCountedTarget(axis: Versor, targets: seq<Target>)
    ensures |Versors(axis, targets)| == |CountedPositions(targets)|
    ensures forall k | 0 <= k < |Versors(axis, targets)| ::
              exists i :: i in CountedPositions(targets) && IsKeyOf(axis, targets[i], Versors(axis, targets)[k])
  {
    var keys := Versors(axis, targets);
    if targets != [] {
      var n := |targets| - 1;
      var before := Versors(axis, targets[..n]);
      OneKeyPerCountedTarget(axis, targets[..n]);
      InverseGivesKey(axis, targets[n]);
      assert CountedPositions(targets) ==
             CountedPositions(targets[..n]) + if Counted(targets[n]) then {n} else {};
      forall k | 0 <= k < |keys|
        ensures exists i :: i in CountedPositions(targets) && IsKeyOf(axis, targets[i], keys[k])
      {
        if k < |before| {
          var i :| i in CountedPositions(targets[..n]) && IsKeyOf(axis, targets[..n][i], before[k]);
          assert i in CountedPositions(targets) && targets[i] == targets[..n][i];
        } else {
          assert n in CountedPositions(targets);
        }
      }
    }
  }

  /** Key by key, in the order of the targets. */
  lemma KeysInOrder(axis: Versor, targets: seq<Target>, t: Target) returns (key: Versor)
    ensures Versors(axis, []) == [] && IsKeyOf(axis, t, key)
    ensures Versors(axis, targets + [t]) == Versors(axis, targets) + if Counted(t) then [key] else []
  {
    key := Apply(InverseRotation(t.lifted), axis);
    InverseGivesKey(axis, t);
    assert (targets + [t])[..|targets|] == targets;
  }

  /** The positions among the first n whose flag is up. */
  function MarkedPositions(flags: seq<bool>, n: nat): set<nat>
    requires n <= |flags|
  {
    set k: nat | k < n && flags[k]
  }

  lemma {:induction false} MarkedAndUnmarked(keys: seq<Versor>, flags: seq<bool>, n: nat)
    requires n <= |keys| == |flags|
    ensures |Unmarked(keys, flags, n)| + |MarkedPositions(flags, n)| == n
  {
    if n > 0 {
      MarkedAndUnmarked(keys, flags, n - 1);
      assert MarkedPositions(flags, n) ==
             MarkedPositions(flags, n - 1) + if flags[n - 1] then {n - 1} else {};
    }
  }

  /** The points the pass removes. */
  function Removed(keys: seq<Versor>, radius: real): set<nat> {
    set k: nat | k < |keys| && !Kept(keys, radius, k)
  }

  /** An axis alignment is the share of points removed. */
  lemma AlignmentIsShareRemoved(keys: seq<Versor>, radius: real)
    ensures AxisAlignment(keys, radius) * (|keys| as real) == |Removed(keys, radius)| as real
    ensures keys == [] ==> AxisAlignment(keys, radius) == 0.0
  {
    var flags := Greedy(keys, radius, |keys|);
    assert Removed(keys, radius) == MarkedPositions(flags, |keys|);
    MarkedAndUnmarked(keys, flags, |keys|);
    if |keys| > 0 {
      ShareLeft(|Survivors(keys, radius)| as real, |keys| as real);
    }
  }

  lemma ShareLeft(m: real, n: real)
    requires n > 0.0
    ensures (1.0 - m / n) * n == n - m
  {
    var q := m / n;
    assert q * n == m;
    assert (1.0 - q) * n == n - q * n;
  }

  method GetAxisAlignment(axis: Versor, rotations: seq<Rotation>, radius: real)
    returns (alignment: real, ghost keys: seq<Versor>)
    ensures |keys| == |rotations|
    ensures multiset(keys) == multiset(Turned(axis, rotations))
    ensures alignment == AxisAlignment(keys, radius)
  {
    var versors := [];
    for i := 0 to |rotations|
      invariant |versors| == i && forall k | 0 <= k < i :: versors[k] == Apply(rotations[k], axis)
    {
      versors := versors + [Apply(rotations[i], axis)];
    }
    assert versors == Turned(axis, rotations);
    if |versors| == 0 {
      keys := [];
      return 0.0, keys;
    }
    var filtered;
    filtered, keys := FilterPoints(versors, radius);
    alignment := 1.0 - (|filtered| as real) / (|versors| as real);
  }

  const X_AXIS := Versor(1.0, 0.0, 0.0)
  const Y_AXIS := Versor(0.0, 1.0, 0.0)
  const Z_AXIS := Versor(0.0, 0.0, 1.0)

  /** Whatever orders the three search trees leave the points in, the mean alignment is at least 0 and below 1. */
  method CalculateAlignment(targets: seq<Target>, radius: real)
    returns (alignment: real, ghost xs: seq<Versor>, ghost ys: seq<Versor>, ghost zs: seq<Versor>)
    ensures multiset(xs) == multiset(Versors(X_AXIS, targets))
    ensures multiset(ys) == multiset(Versors(Y_AXIS, targets))
    ensures multiset(zs) == multiset(Versors(Z_AXIS, targets))
    ensures alignment == (AxisAlignment(xs, radius) + AxisAlignment(ys, radius) + AxisAlignment(zs, radius)) / 3.0
    ensures 0.0 <= alignment < 1.0
  {
    var after: seq<Rotation> := [];
    for i := 0 to |targets|
      invariant Turned(X_AXIS, after) == Versors(X_AXIS, targets[..i])
      invariant Turned(Y_AXIS, after) == Versors(Y_AXIS, targets[..i])
      invariant Turned(Z_AXIS, after) == Versors(Z_AXIS, targets[..i])
    {
      assert targets[..i + 1][..i] == targets[..i];
      if Counts(targets[i]) {
        after := after + [InverseRotation(targets[i].lifted)];
      }
    }
    assert targets[..|targets|] == targets;
    var x, y, z;
    x, xs := GetAxisAlignment(X_AXIS, after, radius);
    y, ys := GetAxisAlignment(Y_AXIS, after, radius);
    z, zs := GetAxisAlignment(Z_AXIS, after, radius);
    AlignmentInRange(xs, radius);
    AlignmentInRange(ys, radius);
    AlignmentInRange(zs, radius);
    alignment := (x + y + z) / 3.0;
  }

  function Turned(axis: Versor, rotations: seq<Rotation>): (r: seq<Versor>)
    ensures |r| == |rotations|
  {
    seq(|rotations|, i requires 0 <= i < |rotations| => Apply(rotations[i], axis))
  }
}
