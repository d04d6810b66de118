/**
 Finite sums over real vectors, and what it means for a list of vectors to be
 a basis. The two facts the optimizers live on are `Exchange` (overwriting one
 basis vector by a combination in which it keeps a nonzero weight leaves a
 basis) and `Reordered` (so does any permutation).
 */
module LinearAlgebra {

  type Vector = seq<real>

  function Add(x: Vector, y: Vector): (r: Vector)
    requires |x| == |y|
    ensures |r| == |x|
  {
    seq(|x|, i requires 0 <= i < |x| => x[i] + y[i])
  }

  function Sub(x: Vector, y: Vector): (r: Vector)
    requires |x| == |y|
    ensures |r| == |x|
  {
    seq(|x|, i requires 0 <= i < |x| => x[i] - y[i])
  }

  function Scale(a: real, x: Vector): (r: Vector)
    ensures |r| == |x|
  {
    seq(|x|, i requires 0 <= i < |x| => Mul(a, x[i]))
  }

  function Divide(x: Vector, a: real): (r: Vector)
    requires a != 0.0
    ensures |r| == |x|
  {
    seq(|x|, i requires 0 <= i < |x| => x[i] / a)
  }

  function Const(n: nat, a: real): (r: Vector)
    ensures |r| == n
  {
    seq(n, i => a)
  }

  function Sum(x: seq<real>): real {
    if x == [] then 0.0 else x[0] + Sum(x[1..])
  }

  /** The sum of the first i entries of x, leaving out entry k. */
  function SumExcept(x: seq<real>, k: nat, i: nat): real
    requires i <= |x|
  {
    if i == 0 then 0.0 else SumExcept(x, k, i - 1) + (if i - 1 == k then 0.0 else x[i - 1])
  }

  /** A named product: the verifier compares two of these by their arguments. */
  function Mul(a: real, b: real): real {
    a * b
  }

  /** The sum of c[i] * x[i]. */
  function Dot(c: seq<real>, x: seq<real>): real
    requires |c| == |x|
  {
    if c == [] then 0.0 else Mul(c[0], x[0]) + Dot(c[1..], x[1..])
  }

  /** Every vector of the list has n coordinates. */
  predicate Dim(vs: seq<Vector>, n: nat) {
    forall i | 0 <= i < |vs| :: |vs[i]| == n
  }

  /** Coordinate j of every vector of the list. */
  function Col(vs: seq<Vector>, j: nat): (r: seq<real>)
    requires forall i | 0 <= i < |vs| :: j < |vs[i]|
    ensures |r| == |vs|
  {
    seq(|vs|, i requires 0 <= i < |vs| => vs[i][j])
  }

  /** x is the combination of the vectors vs with the coefficients c. */
  ghost predicate Yields(c: seq<real>, vs: seq<Vector>, x: Vector) {
    && |c| == |vs|
    && Dim(vs, |x|)
    && forall j | 0 <= j < |x| :: Dot(c, Col(vs, j)) == x[j]
  }

  ghost predicate Reaches(vs: seq<Vector>, x: Vector) {
    exists c :: Yields(c, vs, x)
  }

  ghost predicate IsZero(c: seq<real>) {
    forall i | 0 <= i < |c| :: c[i] == 0.0
  }

  ghost predicate Independent(vs: seq<Vector>, n: nat) {
    && Dim(vs, n)
    && forall c :: Yields(c, vs, Const(n, 0.0)) ==> IsZero(c)
  }

  ghost predicate Spanning(vs: seq<Vector>, n: nat) {
    && Dim(vs, n)
    && forall x: Vector {:trigger Reaches(vs, x)} :: |x| == n ==> Reaches(vs, x)
  }

  ghost predicate Basis(vs: seq<Vector>, n: nat) {
    |vs| == n && Independent(vs, n) && Spanning(vs, n)
  }

  // ---------------------------------------------------------------- sums

  lemma {:induction false} SumSplit(x: seq<real>, y: seq<real>)
    ensures Sum(x + y) == Sum(x) + Sum(y)
  {
    if x == [] {
      assert x + y == y;
    } else {
      assert (x + y)[1..] == x[1..] + y;
      SumSplit(x[1..], y);
    }
  }

  lemma {:induction false} DotSplit(c: seq<real>, x: seq<real>, d: seq<real>, y: seq<real>)
    requires |c| == |x| && |d| == |y|
    ensures Dot(c + d, x + y) == Dot(c, x) + Dot(d, y)
  {
    if c == [] {
      assert c + d == d && x + y == y;
    } else {
      assert (c + d)[1..] == c[1..] + d && (x + y)[1..] == x[1..] + y;
      DotSplit(c[1..], x[1..], d, y);
    }
  }

  /** Weights that are all equal factor out. */
  lemma {:induction false} DotConst(c: seq<real>, x: seq<real>, a: real)
    requires |c| == |x| && forall i | 0 <= i < |c| :: c[i] == a
    ensures Dot(c, x) == a * Sum(x)
  {
    if c != [] {
      DotConst(c[1..], x[1..], a);
    }
  }

  /** Dot is linear in its coefficients. */
  lemma {:induction false} DotAxpy(z: seq<real>, x: seq<real>, a: real, y: seq<real>, col: seq<real>)
    requires |z| == |x| == |y| == |col|
    requires forall i | 0 <= i < |z| :: z[i] == x[i] + a * y[i]
    ensures Dot(z, col) == Dot(x, col) + a * Dot(y, col)
  {
    if z != [] {
      DotAxpy(z[1..], x[1..], a, y[1..], col[1..]);
      var p, q, r := x[0], y[0], col[0];
      assert z[0] * r == p * r + a * (q * r) by {
        assert z[0] == p + a * q;
        assert (a * q) * r == a * (q * r);
      }
      var s := Dot(y[1..], col[1..]);
      assert a * (q * r + s) == a * (q * r) + a * s;
    }
  }

  /** Only the single nonzero coefficient survives. */
  lemma {:induction false} DotSpike(c: seq<real>, x: seq<real>, k: nat)
    requires |c| == |x| && k < |c|
    requires forall i | 0 <= i < |c| && i != k :: c[i] == 0.0
    ensures Dot(c, x) == Mul(c[k], x[k])
  {
    if k == 0 {
      DotConst(c[1..], x[1..], 0.0);
    } else {
      DotSpike(c[1..], x[1..], k - 1);
    }
  }

  /** Overwriting entry k of x moves exactly the k-th term. */
  lemma {:induction false} DotUpdate(c: seq<real>, x: seq<real>, k: nat, p: real)
    requires |c| == |x| && k < |c|
    ensures Dot(c, x[k := p]) == Dot(c[k := 0.0], x) + Mul(c[k], p)
  {
    if k == 0 {
      assert c[0 := 0.0][1..] == c[1..];
      assert x[0 := p][1..] == x[1..];
    } else {
      DotUpdate(c[1..], x[1..], k - 1, p);
      assert c[k := 0.0][1..] == c[1..][k - 1 := 0.0];
      assert x[k := p][1..] == x[1..][k - 1 := p];
    }
  }

  lemma {:induction false} DotCommutes(c: seq<real>, x: seq<real>)
    requires |c| == |x|
    ensures Dot(c, x) == Dot(x, c)
  {
    if c != [] {
      DotCommutes(c[1..], x[1..]);
    }
  }

  lemma {:induction false} SumExceptPrefix(x: seq<real>, k: nat, i: nat)
    requires i <= |x|
    ensures Sum(x[..i]) == SumExcept(x, k, i) + (if k < i then x[k] else 0.0)
  {
    if i > 0 {
      SumExceptPrefix(x, k, i - 1);
      assert x[..i] == x[..i - 1] + [x[i - 1]];
      SumSplit(x[..i - 1], [x[i - 1]]);
    }
  }

  lemma {:induction false} DotWeightsPrefix(w: seq<real>, x: seq<real>, k: nat, a: real, i: nat)
    requires |w| == |x| && i <= |x|
    requires forall j | 0 <= j < |w| && j != k :: w[j] == a
    ensures Dot(w[..i], x[..i]) == Mul(a, SumExcept(x, k, i)) + (if k < i then Mul(w[k], x[k]) else 0.0)
  {
    if i > 0 {
      DotWeightsPrefix(w, x, k, a, i - 1);
      var p, y := w[i - 1], x[i - 1];
      assert w[..i] == w[..i - 1] + [p] && x[..i] == x[..i - 1] + [y];
      DotSplit(w[..i - 1], x[..i - 1], [p], [y]);
      assert Dot([p], [y]) == Mul(p, y);
      var s := SumExcept(x, k, i - 1);
      assert Mul(a, s + y) == Mul(a, s) + Mul(a, y);
    }
  }

  /** Equal weights everywhere but at k. */
  lemma DotWeights(w: seq<real>, x: seq<real>, k: nat, a: real)
    requires |w| == |x| && k < |x|
    requires forall j | 0 <= j < |w| && j != k :: w[j] == a
    ensures Dot(w, x) == Mul(a, SumExcept(x, k, |x|)) + Mul(w[k], x[k])
    ensures Sum(x) == SumExcept(x, k, |x|) + x[k]
  {
    DotWeightsPrefix(w, x, k, a, |x|);
    SumExceptPrefix(x, k, |x|);
    assert w[..|x|] == w && x[..|x|] == x;
  }

  /** A column that is a everywhere but at k, where it is a + b. */
  lemma DotBump(c: seq<real>, col: seq<real>, k: nat, a: real, b: real)
    requires |c| == |col| && k < |c|
    requires forall i | 0 <= i < |col| :: col[i] == if i == k then a + b else a
    ensures Dot(c, col) == Mul(a, Sum(c)) + Mul(b, c[k])
  {
    DotCommutes(c, col);
    DotWeights(col, c, k, a);
    MulDistributes(a, SumExcept(c, k, |c|), b, c[k]);
  }

  lemma MulDistributes(a: real, s: real, b: real, x: real)
    ensures Mul(a, s) + Mul(a + b, x) == Mul(a, s + x) + Mul(b, x)
  {
  }

  function Without<T>(s: seq<T>, k: nat): (r: seq<T>)
    requires k < |s|
    ensures |r| == |s| - 1
  {
    s[..k] + s[k + 1..]
  }

  lemma {:induction false} DotWithout(c: seq<real>, x: seq<real>, k: nat)
    requires |c| == |x| && k < |c|
    ensures Dot(c, x) == Mul(c[k], x[k]) + Dot(Without(c, k), Without(x, k))
  {
    if k == 0 {
      assert Without(c, 0) == c[1..] && Without(x, 0) == x[1..];
    } else {
      DotWithout(c[1..], x[1..], k - 1);
      assert Without(c, k) == [c[0]] + Without(c[1..], k - 1);
      assert Without(x, k) == [x[0]] + Without(x[1..], k - 1);
    }
  }

  // ------------------------------------------------------------ exchange

  lemma YieldsAfterUpdate(c: seq<real>, vs: seq<Vector>, k: nat, p: Vector, x: Vector, y: Vector)
    requires |c| == |vs| && k < |vs| && Dim(vs, |p|) && |x| == |y| == |p|
    requires Yields(c[k := 0.0], vs, y)
    requires forall j | 0 <= j < |p| :: x[j] == y[j] + Mul(c[k], p[j])
    ensures Yields(c, vs[k := p], x)
  {
    forall j | 0 <= j < |p| ensures Dot(c, Col(vs[k := p], j)) == x[j] {
      DotUpdate(c, Col(vs, j), k, p[j]);
      assert Col(vs[k := p], j) == Col(vs, j)[k := p[j]];
    }
  }

  /** The coefficients x + a * y. */
  function Axpy(x: seq<real>, a: real, y: seq<real>): (z: seq<real>)
    requires |x| == |y|
    ensures |z| == |x|
  {
    seq(|x|, i requires 0 <= i < |x| => x[i] + a * y[i])
  }

  /** One coordinate of the exchange: weights that vanish with p in place k vanish once p is written out. */
  lemma ExchangeColumn(col: seq<real>, k: nat, w: seq<real>, p: real, c: seq<real>)
    requires |w| == |c| == |col| && k < |col|
    requires Dot(w, col) == p && Dot(c, col[k := p]) == 0.0
    ensures Dot(Axpy(c[k := 0.0], c[k], w), col) == 0.0
  {
    DotAxpy(Axpy(c[k := 0.0], c[k], w), c[k := 0.0], c[k], w, col);
    DotUpdate(c, col, k, p);
  }

  lemma ExchangeVanishes(vs: seq<Vector>, n: nat, k: nat, w: seq<real>, p: Vector, c: seq<real>)
    requires Dim(vs, n) && k < |vs| && |p| == n
    requires Yields(w, vs, p) && Yields(c, vs[k := p], Const(n, 0.0))
    ensures Yields(Axpy(c[k := 0.0], c[k], w), vs, Const(n, 0.0))
  {
    forall j | 0 <= j < n ensures Dot(Axpy(c[k := 0.0], c[k], w), Col(vs, j)) == 0.0 {
      assert Col(vs[k := p], j) == Col(vs, j)[k := p[j]];
      ExchangeColumn(Col(vs, j), k, w, p[j], c);
    }
  }

  lemma ExchangeIndependent(vs: seq<Vector>, n: nat, k: nat, w: seq<real>, p: Vector)
    requires Independent(vs, n) && k < |vs| && |p| == n
    requires Yields(w, vs, p) && w[k] != 0.0
    ensures Independent(vs[k := p], n)
  {
    forall c | Yields(c, vs[k := p], Const(n, 0.0)) ensures IsZero(c) {
      ExchangeVanishes(vs, n, k, w, p, c);
      var d := Axpy(c[k := 0.0], c[k], w);
      assert IsZero(d);
      var ck, wk := c[k], w[k];
      assert d[k] == 0.0 + ck * wk;
      assert ck == 0.0;
      forall i | 0 <= i < |c| ensures c[i] == 0.0 {
        if i != k {
          assert d[i] == c[i] + ck * w[i];
        }
      }
    }
  }

  /** With t = c[k] / w[k], removing t times p's coefficients cancels vs[k]; t times p then puts x back. */
  lemma ExchangeReaches(vs: seq<Vector>, k: nat, w: seq<real>, p: Vector, c: seq<real>, x: Vector)
    requires k < |vs| && |p| == |x|
    requires Yields(w, vs, p) && w[k] != 0.0 && Yields(c, vs, x)
    ensures Reaches(vs[k := p], x)
  {
    var t := c[k] / w[k];
    var d, y := Axpy(c, -t, w), Axpy(x, -t, p);
    assert d[k] == 0.0;
    forall j | 0 <= j < |x| ensures Dot(d, Col(vs, j)) == y[j] {
      DotAxpy(d, c, -t, w, Col(vs, j));
    }
    var e := d[k := t];
    assert e[k := 0.0] == d;
    forall j | 0 <= j < |x| ensures x[j] == y[j] + Mul(e[k], p[j]) {
    }
    YieldsAfterUpdate(e, vs, k, p, x, y);
  }

  lemma ExchangeSpanning(vs: seq<Vector>, n: nat, k: nat, w: seq<real>, p: Vector)
    requires Spanning(vs, n) && k < |vs| && |p| == n
    requires Yields(w, vs, p) && w[k] != 0.0
    ensures Spanning(vs[k := p], n)
  {
    forall x: Vector | |x| == n ensures Reaches(vs[k := p], x) {
      assert Reaches(vs, x);
      var c :| Yields(c, vs, x);
      ExchangeReaches(vs, k, w, p, c, x);
    }
  }

  /** Overwriting a basis vector by a combination in which it keeps a nonzero weight leaves a basis. */
  lemma Exchange(vs: seq<Vector>, n: nat, k: nat, w: seq<real>, p: Vector)
    requires Basis(vs, n) && k < n && |p| == n
    requires Yields(w, vs, p) && w[k] != 0.0
    ensures Basis(vs[k := p], n)
  {
    ExchangeIndependent(vs, n, k, w, p);
    ExchangeSpanning(vs, n, k, w, p);
  }

  // --------------------------------------------------------- permutations

  lemma WithoutMultiset<T>(s: seq<T>, k: nat)
    requires k < |s|
    ensures multiset(Without(s, k)) == multiset(s) - multiset{s[k]}
  {
    assert s == s[..k] + [s[k]] + s[k + 1..];
  }

  /** Coefficients for a reordered list of vectors, carrying each vector's own coefficient along. */
  lemma {:induction false} Realign(c: seq<real>, vs: seq<Vector>, ws: seq<Vector>, n: nat) returns (d: seq<real>)
    requires |c| == |vs| && Dim(vs, n) && Dim(ws, n)
    requires multiset(vs) == multiset(ws)
    ensures |d| == |ws| && multiset(d) == multiset(c)
    ensures forall j | 0 <= j < n :: Dot(d, Col(ws, j)) == Dot(c, Col(vs, j))
    decreases |vs|
  {
    assert |vs| == |multiset(vs)| == |ws|;
    if ws == [] {
      d := [];
    } else {
      var k := HeadElsewhere(ws, vs);
      var d' := Realign(Without(c, k), Without(vs, k), ws[1..], n);
      d := [c[k]] + d';
      MovedToFront(c, d', k);
      RealignColumns(c, vs, ws, d', k, n);
    }
  }

  lemma RealignColumns(c: seq<real>, vs: seq<Vector>, ws: seq<Vector>, d': seq<real>, k: nat, n: nat)
    requires |c| == |vs| == |ws| == |d'| + 1 && Dim(vs, n) && Dim(ws, n)
    requires k < |vs| && vs[k] == ws[0]
    requires forall j | 0 <= j < n :: Dot(d', Col(ws[1..], j)) == Dot(Without(c, k), Col(Without(vs, k), j))
    ensures forall j | 0 <= j < n :: Dot([c[k]] + d', Col(ws, j)) == Dot(c, Col(vs, j))
  {
    forall j | 0 <= j < n ensures Dot([c[k]] + d', Col(ws, j)) == Dot(c, Col(vs, j)) {
      ColumnsOfRest(vs, ws, k, j);
      DotToFront(c, Col(vs, j), d', Col(ws, j), k);
    }
  }

  lemma ColumnsOfRest(vs: seq<Vector>, ws: seq<Vector>, k: nat, j: nat)
    requires k < |vs| == |ws|
    requires forall i | 0 <= i < |vs| :: j < |vs[i]| && j < |ws[i]|
    ensures Without(Col(vs, j), k) == Col(Without(vs, k), j)
    ensures Col(ws, j)[1..] == Col(ws[1..], j)
  {
  }

  /** The first element of one list, found in a permutation of it. */
  lemma HeadElsewhere<T>(s: seq<T>, t: seq<T>) returns (k: nat)
    requires s != [] && multiset(s) == multiset(t)
    ensures k < |t| && t[k] == s[0] && multiset(s[1..]) == multiset(Without(t, k))
  {
    assert s[0] in multiset(t);
    k :| 0 <= k < |t| && t[k] == s[0];
    WithoutMultiset(t, k);
    assert s == [s[0]] + s[1..];
  }

  lemma MovedToFront<T>(c: seq<T>, d': seq<T>, k: nat)
    requires k < |c| && multiset(d') == multiset(Without(c, k))
    ensures multiset([c[k]] + d') == multiset(c)
  {
    WithoutMultiset(c, k);
    assert c[k] in multiset(c);
    assert multiset([c[k]] + d') == multiset{c[k]} + multiset(d');
  }

  /** Moving the k-th term of a sum to the front. */
  lemma DotToFront(c: seq<real>, x: seq<real>, d': seq<real>, y: seq<real>, k: nat)
    requires |c| == |x| == |y| == |d'| + 1 && k < |x| && x[k] == y[0]
    requires Dot(d', y[1..]) == Dot(Without(c, k), Without(x, k))
    ensures Dot([c[k]] + d', y) == Dot(c, x)
  {
    DotWithout(c, x, k);
    var d := [c[k]] + d';
    assert d[1..] == d';
  }

  lemma DimReordered(vs: seq<Vector>, ws: seq<Vector>, n: nat)
    requires Dim(vs, n) && multiset(vs) == multiset(ws)
    ensures Dim(ws, n) && |vs| == |ws|
  {
    assert |vs| == |multiset(vs)| == |multiset(ws)| == |ws|;
    forall i | 0 <= i < |ws| ensures |ws[i]| == n {
      assert ws[i] in multiset(vs);
    }
  }

  /** Being a basis does not depend on the order of the vectors. */
  lemma Reordered(vs: seq<Vector>, ws: seq<Vector>, n: nat)
    requires Basis(vs, n) && multiset(vs) == multiset(ws)
    ensures Basis(ws, n)
  {
    DimReordered(vs, ws, n);
    forall c | Yields(c, ws, Const(n, 0.0)) ensures IsZero(c) {
      var d := Realign(c, ws, vs, n);
      assert Yields(d, vs, Const(n, 0.0));
      forall i | 0 <= i < |c| ensures c[i] == 0.0 {
        assert c[i] in multiset(d);
      }
    }
    forall x: Vector | |x| == n ensures Reaches(ws, x) {
      assert Reaches(vs, x);
      var c :| Yields(c, vs, x);
      var d := Realign(c, vs, ws, n);
      assert Yields(d, ws, x);
    }
  }

  function Image<A, B>(s: seq<A>, f: A -> B): (r: seq<B>)
    ensures |r| == |s|
  {
    seq(|s|, i requires 0 <= i < |s| => f(s[i]))
  }

  lemma {:induction false} ImageReordered<A, B>(s: seq<A>, t: seq<A>, f: A -> B)
    requires multiset(s) == multiset(t)
    ensures multiset(Image(s, f)) == multiset(Image(t, f))
    decreases |s|
  {
    assert |s| == |multiset(s)| == |t|;
    if s != [] {
      var k := HeadElsewhere(s, t);
      ImageReordered(s[1..], Without(t, k), f);
      assert Image(s, f) == [f(s[0])] + Image(s[1..], f);
      WithoutMultiset(Image(t, f), k);
      assert Without(Image(t, f), k) == Image(Without(t, k), f);
      assert Image(t, f)[k] in multiset(Image(t, f));
    }
  }
}
