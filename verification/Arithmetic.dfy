/** What several modules need to count with. */
module Arithmetic {

  function Max(a: int, b: int): int {
    if a < b then b else a
  }

  lemma NextIndex(i: nat, n: nat)
    requires n > 0
    ensures (i % n + 1) % n == (i + 1) % n
  {
    var q, r := i / n, i % n;
    assert i + 1 == n * q + (r + 1);
    if r + 1 < n {
      QuotientIsUnique(n, q, r + 1);
    } else {
      assert i + 1 == n * (q + 1) + 0;
      QuotientIsUnique(n, q + 1, 0);
      QuotientIsUnique(n, 1, 0);
    }
  }

  lemma NextTurn(i: nat, n: nat, next: nat)
    requires n > 0 && next == if i % n + 1 < n then i % n + 1 else 0
    ensures next == (i + 1) % n
  {
    NextIndex(i, n);
    QuotientIsUnique(n, 0, next);
    if next == 0 {
      QuotientIsUnique(n, 1, 0);
    }
  }

  lemma QuotientIsUnique(n: nat, q: nat, r: nat)
    requires r < n
    ensures (n * q + r) % n == r
  {
    var x := n * q + r;
    var k := x / n - q;
    assert n * (x / n) == n * q + n * k;
    assert n * k == r - x % n;
    assert k >= 1 ==> n * k >= n;
    assert k <= -1 ==> n * k + n <= 0;
  }
}
