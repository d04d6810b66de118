/**
 The library sort the optimizers call on their vertices and directions. Equal
 keys may end up in any order, so callers only know the contract of `SortBy`.
 */
module StdSort {

  ghost predicate Ascending<T(!new)>(r: seq<T>, key: T -> real) {
    forall i, j | 0 <= i < j < |r| :: key(r[i]) <= key(r[j])
  }

  ghost predicate SortedPermutation<T(!new)>(s: seq<T>, r: seq<T>, key: T -> real) {
    multiset(s) == multiset(r) && Ascending(r, key)
  }

  function Inserted<T>(r: seq<T>, k: nat, x: T): (t: seq<T>)
    requires k <= |r|
    ensures |t| == |r| + 1
  {
    r[..k] + [x] + r[k..]
  }

  lemma InsertionAdds<T>(r: seq<T>, k: nat, x: T)
    requires k <= |r|
    ensures multiset(Inserted(r, k, x)) == multiset(r) + multiset{x}
  {
    assert r == r[..k] + r[k..];
  }

  lemma PrefixAdds<T>(s: seq<T>, i: nat)
    requires i < |s|
    ensures multiset(s[..i + 1]) == multiset(s[..i]) + multiset{s[i]}
  {
    assert s[..i + 1] == s[..i] + [s[i]];
  }

  lemma InsertionKeepsOrder<T(!new)>(r: seq<T>, k: nat, x: T, key: T -> real)
    requires Ascending(r, key) && k <= |r|
    requires k > 0 ==> key(r[k - 1]) <= key(x)
    requires k < |r| ==> key(x) <= key(r[k])
    ensures Ascending(Inserted(r, k, x), key)
  {
    var t := Inserted(r, k, x);
    forall i, j | 0 <= i < j < |t| ensures key(t[i]) <= key(t[j]) {
      var i' := if i < k then i else i - 1;
      var j' := if j < k then j else j - 1;
      assert i < k ==> key(r[i]) <= key(r[k - 1]);
      assert j > k ==> key(r[k]) <= key(r[j - 1]);
      assert i != k ==> t[i] == r[i'];
      assert j != k ==> t[j] == r[j'];
    }
  }

  /** Where x goes in a sorted list, after everything that is not greater. */
  method InsertionPoint<T(!new)>(r: seq<T>, x: T, key: T -> real) returns (k: nat)
    ensures k <= |r| && (k > 0 ==> key(r[k - 1]) <= key(x)) && (k < |r| ==> key(x) <= key(r[k]))
  {
    k := |r|;
    while k > 0 && key(x) < key(r[k - 1])
      invariant k <= |r| && (k < |r| ==> key(x) <= key(r[k]))
    {
      k := k - 1;
    }
  }

  method SortBy<T(!new)>(s: seq<T>, key: T -> real) returns (r: seq<T>)
    ensures SortedPermutation(s, r, key)
  {
    r := [];
    for i := 0 to |s|
      invariant multiset(s[..i]) == multiset(r)
      invariant Ascending(r, key)
    {
      var k := InsertionPoint(r, s[i], key);
      InsertionKeepsOrder(r, k, s[i], key);
      InsertionAdds(r, k, s[i]);
      PrefixAdds(s, i);
      r := Inserted(r, k, s[i]);
    }
    assert s[..|s|] == s;
  }
}
