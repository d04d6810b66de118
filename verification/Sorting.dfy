/**
 The array sorts of ext/dlib/sort.h: quicksort with a depth budget, falling
 back to heapsort, falling back to insertion sort, all in place on the
 inclusive range left..right of a larger array.
 */
module Sorting {
  import opened Arithmetic

  // ------------------------------------------------------------------ orders

  /** Asymmetric, and "not before" is transitive. */
  ghost predicate Ordered<T(!new)>(comp: (T, T) -> bool) {
    && (forall x, y :: comp(x, y) ==> !comp(y, x))
    && (forall x, y, z :: !comp(y, x) && !comp(z, y) ==> !comp(z, x))
  }

  predicate Opened<T>(comp: (T, T) -> bool) {
    true
  }

  /**
   comp is a strict weak order. The trigger lets the methods below pass this
   fact along; a proof that compares elements opens it.
   */
  ghost predicate StrictWeakOrder<T(!new)>(comp: (T, T) -> bool) {
    forall c: (T, T) -> bool {:trigger Opened(c)} :: c == comp ==> Ordered(c)
  }

  lemma OrderLaws<T(!new)>(comp: (T, T) -> bool)
    requires StrictWeakOrder(comp)
    ensures Ordered(comp)
  {
    assert Opened(comp);
  }

  /** No element of s[lo..hi] comes before an element to its left. */
  ghost predicate Sorted<T(!new)>(comp: (T, T) -> bool, s: seq<T>, lo: nat, hi: nat)
    requires hi <= |s|
  {
    forall i, j | lo <= i < j < hi :: !comp(s[j], s[i])
  }

  // ---------------------------------------------------------- rearrangements

  function Middle<T>(s: seq<T>, lo: nat, hi: nat): seq<T> {
    if lo <= hi <= |s| then s[lo..hi] else []
  }

  /**
   t permutes s[lo..hi] and touches nothing else. The trigger lets the loops
   below carry this fact along unopened; a proof opens it by naming the middle.
   */
  ghost predicate Rearranged<T>(s: seq<T>, t: seq<T>, lo: nat, hi: nat) {
    && |s| == |t| && lo <= hi <= |s|
    && forall l {:trigger Middle(s, l, hi)} :: l == lo ==>
         s[..lo] == t[..lo] && s[hi..] == t[hi..] && multiset(Middle(s, l, hi)) == multiset(Middle(t, l, hi))
  }

  function Swapped<T>(s: seq<T>, i: nat, j: nat): (t: seq<T>)
    requires i < |s| && j < |s|
    ensures |t| == |s|
  {
    s[i := s[j]][j := s[i]]
  }

  lemma SwapRearranges<T>(s: seq<T>, i: nat, j: nat, lo: nat, hi: nat)
    requires lo <= i < hi <= |s| && lo <= j < hi
    ensures Rearranged(s, Swapped(s, i, j), lo, hi)
  {
    var u, t := Middle(s, lo, hi), Swapped(s, i, j);
    assert Middle(t, lo, hi) == u[i - lo := u[j - lo]][j - lo := u[i - lo]];
  }

  lemma RearrangedTransitive<T>(s: seq<T>, t: seq<T>, u: seq<T>, lo: nat, hi: nat)
    requires Rearranged(s, t, lo, hi) && Rearranged(t, u, lo, hi)
    ensures Rearranged(s, u, lo, hi)
  {
    assert multiset(Middle(s, lo, hi)) == multiset(Middle(t, lo, hi)) == multiset(Middle(u, lo, hi));
  }

  lemma RearrangedWiden<T>(s: seq<T>, t: seq<T>, lo: nat, hi: nat, lo': nat, hi': nat)
    requires Rearranged(s, t, lo, hi) && lo' <= lo && hi <= hi' <= |s|
    ensures Rearranged(s, t, lo', hi')
  {
    MiddleWidens(s, lo, hi, lo', hi');
    MiddleWidens(t, lo, hi, lo', hi');
    assert multiset(Middle(s, lo, hi)) == multiset(Middle(t, lo, hi));
    assert s[..lo'] == s[..lo][..lo'] && s[hi'..] == s[hi..][hi' - hi..];
    assert t[..lo'] == t[..lo][..lo'] && t[hi'..] == t[hi..][hi' - hi..];
  }

  lemma MiddleWidens<T>(s: seq<T>, lo: nat, hi: nat, lo': nat, hi': nat)
    requires lo' <= lo <= hi <= hi' <= |s|
    ensures Middle(s, lo', hi') == s[..lo][lo'..] + Middle(s, lo, hi) + s[hi..][..hi' - hi]
  {
  }

  /** In plain words. */
  lemma RearrangedMeaning<T>(s: seq<T>, t: seq<T>, lo: nat, hi: nat)
    requires Rearranged(s, t, lo, hi)
    ensures multiset(s[lo..hi]) == multiset(t[lo..hi])
    ensures forall k | 0 <= k < |s| && !(lo <= k < hi) :: t[k] == s[k]
  {
    assert multiset(Middle(s, lo, hi)) == multiset(Middle(t, lo, hi));
    forall k | 0 <= k < |s| && !(lo <= k < hi) ensures t[k] == s[k] {
      var j := RearrangedElement(s, t, lo, hi, k);
    }
  }

  /** Outside the range nothing moves; inside, every element comes from the range. */
  lemma RearrangedElement<T>(s: seq<T>, t: seq<T>, lo: nat, hi: nat, k: nat) returns (j: nat)
    requires Rearranged(s, t, lo, hi) && k < |t|
    ensures j < |s| && s[j] == t[k]
    ensures if lo <= k < hi then lo <= j < hi else j == k
  {
    assert multiset(Middle(s, lo, hi)) == multiset(Middle(t, lo, hi));
    if k < lo {
      assert s[..lo][k] == t[..lo][k];
      j := k;
    } else if k >= hi {
      assert s[hi..][k - hi] == t[hi..][k - hi];
      j := k;
    } else {
      assert t[lo..hi][k - lo] in multiset(s[lo..hi]);
      j :| lo <= j < hi && s[j] == t[k];
    }
  }

  /** Swaps two elements of a range that is being rearranged. */
  method Exchange<T>(a: array<T>, i: nat, j: nat, ghost was: seq<T>, ghost lo: nat, ghost hi: nat)
    requires lo <= i < hi <= a.Length && lo <= j < hi
    requires Rearranged(was, a[..], lo, hi)
    modifies a
    ensures a[..] == Swapped(old(a[..]), i, j)
    ensures Rearranged(was, a[..], lo, hi)
  {
    ghost var before := a[..];
    SwapRearranges(before, i, j, lo, hi);
    a[i], a[j] := a[j], a[i];
    assert a[..] == Swapped(before, i, j);
    RearrangedTransitive(was, before, a[..], lo, hi);
  }

  // ---------------------------------------------------------- insertion sort

  /** The range is sorted but for position pos, whose element belongs further left. */
  ghost predicate SortedBut<T(!new)>(comp: (T, T) -> bool, s: seq<T>, lo: nat, hi: nat, pos: nat)
    requires hi <= |s|
  {
    && (forall i, j | lo <= i < j < hi && i != pos && j != pos :: !comp(s[j], s[i]))
    && (forall j | pos < j < hi :: lo <= pos ==> !comp(s[j], s[pos]))
  }

  method IsortArray<T(!new)>(a: array<T>, left: nat, right: nat, comp: (T, T) -> bool)
    requires left <= right < a.Length && StrictWeakOrder(comp)
    modifies a
    ensures Rearranged(old(a[..]), a[..], left, right + 1)
    ensures Sorted(comp, a[..], left, right + 1)
  {
    var i := left + 1;
    while i <= right
      invariant left < i <= right + 1
      invariant Rearranged(old(a[..]), a[..], left, right + 1)
      invariant Sorted(comp, a[..], left, i)
    {
      InsertAt(a, left, right, i, comp, old(a[..]));
      i := i + 1;
    }
  }

  /** The inner loop: carry element i down to its place in the sorted prefix. */
  method InsertAt<T(!new)>(a: array<T>, left: nat, ghost right: nat, i: nat, comp: (T, T) -> bool, ghost was: seq<T>)
    requires left < i <= right < a.Length && StrictWeakOrder(comp)
    requires Sorted(comp, a[..], left, i) && Rearranged(was, a[..], left, right + 1)
    modifies a
    ensures Sorted(comp, a[..], left, i + 1) && Rearranged(was, a[..], left, right + 1)
  {
    var pos: nat := i;
    var j: nat := i - 1;
    var going := true;
    while going && comp(a[pos], a[j])
      invariant left <= pos <= i && left <= j
      invariant if going then pos == j + 1 else pos == left
      invariant Rearranged(was, a[..], left, right + 1)
      invariant SortedBut(comp, a[..], left, i + 1, pos)
      decreases going, j
    {
      CarryDown(comp, a[..], left, i + 1, pos);
      Exchange(a, pos, j, was, left, right + 1);
      pos := j;
      if j == left {
        going := false;
      } else {
        j := j - 1;
      }
    }
    InPlace(comp, a[..], left, i + 1, pos);
  }

  lemma CarryDown<T(!new)>(comp: (T, T) -> bool, s: seq<T>, lo: nat, hi: nat, pos: nat)
    requires StrictWeakOrder(comp) && lo < pos < hi <= |s|
    requires SortedBut(comp, s, lo, hi, pos) && comp(s[pos], s[pos - 1])
    ensures SortedBut(comp, Swapped(s, pos, pos - 1), lo, hi, pos - 1)
  {
    OrderLaws(comp);
  }

  lemma InPlace<T(!new)>(comp: (T, T) -> bool, s: seq<T>, lo: nat, hi: nat, pos: nat)
    requires StrictWeakOrder(comp) && lo <= pos < hi <= |s|
    requires SortedBut(comp, s, lo, hi, pos) && (pos == lo || !comp(s[pos], s[pos - 1]))
    ensures Sorted(comp, s, lo, hi)
  {
    OrderLaws(comp);
  }

  // --------------------------------------------------------------- quicksort

  /** What is before the pivot so far stands in left..i, what is not in i..j. */
  ghost predicate Split<T(!new)>(comp: (T, T) -> bool, s: seq<T>, left: nat, i: nat, j: nat, pivot: T)
    requires j <= |s|
  {
    && left <= i <= j
    && (forall k | left <= k < i :: comp(s[k], pivot))
    && (forall k | i <= k < j :: !comp(s[k], pivot))
  }

  lemma SplitGrows<T(!new)>(comp: (T, T) -> bool, s: seq<T>, left: nat, i: nat, j: nat, right: nat)
    requires j < right < |s| && Split(comp, s, left, i, j, s[right]) && comp(s[j], s[right])
    ensures Swapped(s, i, j)[right] == s[right] && Split(comp, Swapped(s, i, j), left, i + 1, j + 1, s[right])
  {
  }

  /** The body of the partitioning loop. */
  method PartitionOne<T(!new)>(a: array<T>, left: nat, right: nat, i: nat, j: nat, comp: (T, T) -> bool,
                               ghost was: seq<T>)
    returns (i': nat)
    requires j < right < a.Length && Split(comp, a[..], left, i, j, a[right])
    requires Rearranged(was, a[..], left, right + 1)
    modifies a
    ensures a[right] == old(a[right]) && Split(comp, a[..], left, i', j + 1, a[right])
    ensures Rearranged(was, a[..], left, right + 1)
  {
    i' := i;
    if comp(a[j], a[right]) {
      SplitGrows(comp, a[..], left, i, j, right);
      Exchange(a, i, j, was, left, right + 1);
      i' := i + 1;
    }
  }

  /** Position i holds the pivot: everything to its left is before it, nothing to its right is. */
  ghost predicate Pivoted<T(!new)>(comp: (T, T) -> bool, s: seq<T>, left: nat, i: nat, right: nat)
    requires i <= right < |s|
  {
    && (forall k | left <= k < i :: comp(s[k], s[i]))
    && (forall k | i < k <= right :: !comp(s[k], s[i]))
  }

  lemma PivotToMiddle<T(!new)>(comp: (T, T) -> bool, s: seq<T>, left: nat, i: nat, right: nat)
    requires i <= right < |s| && Split(comp, s, left, i, right, s[right])
    ensures Pivoted(comp, Swapped(s, i, right), left, i, right)
  {
  }

  method QsortPartition<T(!new)>(a: array<T>, left: nat, right: nat, comp: (T, T) -> bool) returns (i: nat)
    requires left < right < a.Length
    modifies a
    ensures left <= i <= right
    ensures Rearranged(old(a[..]), a[..], left, right + 1)
    ensures Pivoted(comp, a[..], left, i, right)
  {
    ChoosePivot(a, left, right);
    i := PartitionLoop(a, left, right, comp, old(a[..]));
    PlacePivot(a, left, i, right, comp, old(a[..]));
  }

  /** The middle element moves to the right end. */
  method ChoosePivot<T>(a: array<T>, left: nat, right: nat)
    requires left < right < a.Length
    modifies a
    ensures Rearranged(old(a[..]), a[..], left, right + 1)
  {
    Exchange(a, (right - left) / 2 + left, right, a[..], left, right + 1);
  }

  /** The pivot moves between the two parts. */
  method PlacePivot<T(!new)>(a: array<T>, left: nat, i: nat, right: nat, ghost comp: (T, T) -> bool,
                             ghost was: seq<T>)
    requires i <= right < a.Length && Split(comp, a[..], left, i, right, a[right])
    requires Rearranged(was, a[..], left, right + 1)
    modifies a
    ensures Pivoted(comp, a[..], left, i, right)
    ensures Rearranged(was, a[..], left, right + 1)
  {
    PivotToMiddle(comp, a[..], left, i, right);
    Exchange(a, i, right, was, left, right + 1);
  }

  method PartitionLoop<T(!new)>(a: array<T>, left: nat, right: nat, comp: (T, T) -> bool, ghost was: seq<T>)
    returns (i: nat)
    requires left < right < a.Length && Rearranged(was, a[..], left, right + 1)
    modifies a
    ensures Split(comp, a[..], left, i, right, a[right])
    ensures Rearranged(was, a[..], left, right + 1)
  {
    i := left;
    for j := left to right
      invariant Split(comp, a[..], left, i, j, a[right])
      invariant Rearranged(was, a[..], left, right + 1)
    {
      i := PartitionOne(a, left, right, i, j, comp, was);
    }
  }

  // ---------------------------------------------------------------- heapsort

  /** Heap positions are counted from `start`: the children of p are 2p + 1 - start and 2p + 2 - start. */
  function Parent(start: nat, k: nat): (p: nat)
    requires start < k
    ensures start <= p < k
    ensures k == 2 * p + 1 - start || k == 2 * p + 2 - start
  {
    start + (k - start - 1) / 2
  }

  /** k lies in the subtree rooted at i. */
  ghost predicate InSubtree(start: nat, i: nat, k: nat)
    requires start <= i
    decreases k
  {
    k == i || (k > i && InSubtree(start, i, Parent(start, k)))
  }

  /** Neither child of p, up to position end, beats p. */
  ghost predicate HeapAt<T(!new)>(comp: (T, T) -> bool, s: seq<T>, start: nat, end: nat, p: nat)
    requires end < |s| && start <= p
  {
    forall c | p < c <= end && Parent(start, c) == p :: !comp(s[p], s[c])
  }

  /** The subtree at i, cut off at position end, is a max-heap. */
  ghost predicate HeapSubtree<T(!new)>(comp: (T, T) -> bool, s: seq<T>, start: nat, end: nat, i: nat)
    requires end < |s| && start <= i
  {
    forall p | i <= p <= end && InSubtree(start, i, p) :: HeapAt(comp, s, start, end, p)
  }

  /** Every position from i on respects the heap order. */
  ghost predicate HeapFrom<T(!new)>(comp: (T, T) -> bool, s: seq<T>, start: nat, end: nat, i: nat)
    requires end < |s| && start <= i
  {
    forall p | i <= p <= end :: HeapAt(comp, s, start, end, p)
  }

  /** Where sifting stands: the subtree at i is a heap except possibly at c, whose children do not beat c's parent. */
  ghost predicate Sifting<T(!new)>(comp: (T, T) -> bool, s: seq<T>, start: nat, end: nat, i: nat, c: nat)
    requires end < |s| && start <= i
  {
    && i <= c <= end && InSubtree(start, i, c)
    && (forall p | i <= p <= end && p != c && InSubtree(start, i, p) :: HeapAt(comp, s, start, end, p))
    && (c > i ==> forall d | c < d <= end && Parent(start, d) == c :: !comp(s[Parent(start, c)], s[d]))
  }

  /** The child of c that beats c and is not beaten by its sibling. */
  ghost predicate IsLargestChild<T(!new)>(comp: (T, T) -> bool, s: seq<T>, start: nat, end: nat, c: nat, largest: nat)
    requires start <= c && end < |s|
  {
    && c < largest <= end && Parent(start, largest) == c && comp(s[c], s[largest])
    && forall d | c < d <= end && Parent(start, d) == c :: !comp(s[largest], s[d])
  }

  lemma SiftStep<T(!new)>(comp: (T, T) -> bool, s: seq<T>, start: nat, end: nat, i: nat, c: nat, largest: nat)
    requires StrictWeakOrder(comp) && end < |s| && start <= i && Sifting(comp, s, start, end, i, c)
    requires IsLargestChild(comp, s, start, end, c, largest)
    ensures Sifting(comp, Swapped(s, c, largest), start, end, i, largest)
  {
    OrderLaws(comp);
    var t := Swapped(s, c, largest);
    forall p | i <= p <= end && p != largest && InSubtree(start, i, p) ensures HeapAt(comp, t, start, end, p) {
      forall d | p < d <= end && Parent(start, d) == p ensures !comp(t[p], t[d]) {
        if p != c {
          assert HeapAt(comp, s, start, end, p);
          assert d != largest;
          assert !comp(s[p], s[d]);
        }
      }
    }
    assert HeapAt(comp, s, start, end, largest) by {
      assert InSubtree(start, i, largest);
    }
  }

  /** The position of the largest among c and its children. */
  method LargestOfThree<T(!new)>(a: array<T>, start: nat, end: nat, c: nat, comp: (T, T) -> bool)
    returns (largest: nat)
    requires start <= c <= end < a.Length && StrictWeakOrder(comp)
    ensures if largest == c then HeapAt(comp, a[..], start, end, c)
            else IsLargestChild(comp, a[..], start, end, c, largest)
  {
    OrderLaws(comp);
    var left := 2 * c + 1 - start;
    var right := left + 1;
    largest := c;
    if left <= end && comp(a[c], a[left]) {
      largest := left;
    }
    if right <= end && comp(a[largest], a[right]) {
      largest := right;
    }
  }

  /** Nothing outside the subtree at i differs. */
  ghost predicate SameOutside<T>(s: seq<T>, t: seq<T>, start: nat, end: nat, i: nat)
    requires start <= i
  {
    |s| == |t| && forall k | 0 <= k < |s| && !(i <= k <= end && InSubtree(start, i, k)) :: t[k] == s[k]
  }

  lemma SwapInsideSubtree<T>(was: seq<T>, s: seq<T>, start: nat, end: nat, i: nat, c: nat, largest: nat)
    requires start <= i <= c < largest <= end < |s| && InSubtree(start, i, c) && Parent(start, largest) == c
    requires SameOutside(was, s, start, end, i)
    ensures SameOutside(was, Swapped(s, c, largest), start, end, i)
  {
    assert InSubtree(start, i, largest);
  }

  method SiftOne<T(!new)>(a: array<T>, start: nat, end: nat, ghost i: nat, c: nat, largest: nat,
                          ghost comp: (T, T) -> bool, ghost was: seq<T>)
    requires StrictWeakOrder(comp) && end < a.Length && start <= i && Sifting(comp, a[..], start, end, i, c)
    requires IsLargestChild(comp, a[..], start, end, c, largest)
    requires Rearranged(was, a[..], start, end + 1) && SameOutside(was, a[..], start, end, i)
    modifies a
    ensures Sifting(comp, a[..], start, end, i, largest)
    ensures Rearranged(was, a[..], start, end + 1) && SameOutside(was, a[..], start, end, i)
  {
    SiftStep(comp, a[..], start, end, i, c, largest);
    SwapInsideSubtree(was, a[..], start, end, i, c, largest);
    Exchange(a, c, largest, was, start, end + 1);
  }

  method Heapify<T(!new)>(a: array<T>, start: nat, end: nat, i: nat, comp: (T, T) -> bool)
    requires start <= i <= end < a.Length && StrictWeakOrder(comp)
    requires forall p | i < p <= end && InSubtree(start, i, p) :: HeapAt(comp, a[..], start, end, p)
    modifies a
    ensures HeapSubtree(comp, a[..], start, end, i)
    ensures Rearranged(old(a[..]), a[..], start, end + 1) && SameOutside(old(a[..]), a[..], start, end, i)
  {
    var c: nat := i;
    var keepGoing := true;
    while keepGoing
      invariant Sifting(comp, a[..], start, end, i, c)
      invariant !keepGoing ==> HeapAt(comp, a[..], start, end, c)
      invariant Rearranged(old(a[..]), a[..], start, end + 1) && SameOutside(old(a[..]), a[..], start, end, i)
      decreases keepGoing, end - c
    {
      keepGoing := false;
      var largest := LargestOfThree(a, start, end, c, comp);
      if largest != c {
        SiftOne(a, start, end, i, c, largest, comp, old(a[..]));
        c := largest;
        keepGoing := true;
      }
    }
  }

  /** In a heap the root is beaten by nobody. */
  lemma {:induction false} RootIsLargest<T(!new)>(comp: (T, T) -> bool, s: seq<T>, start: nat, end: nat, k: nat)
    requires StrictWeakOrder(comp) && start <= k <= end < |s| && HeapFrom(comp, s, start, end, start)
    ensures !comp(s[start], s[k])
    decreases k
  {
    OrderLaws(comp);
    if k > start {
      RootIsLargest(comp, s, start, end, Parent(start, k));
      assert HeapAt(comp, s, start, end, Parent(start, k));
    }
  }

  lemma {:induction false} EverythingBelowRoot(start: nat, k: nat)
    requires start <= k
    ensures InSubtree(start, start, k)
    decreases k
  {
    if k > start {
      EverythingBelowRoot(start, Parent(start, k));
    }
  }

  /** Making the subtree at i a heap extends the heap-ordered tail of the range by one position. */
  lemma HeapifyExtends<T(!new)>(comp: (T, T) -> bool, s: seq<T>, t: seq<T>, start: nat, end: nat, i: nat)
    requires start <= i <= end < |s| == |t|
    requires HeapFrom(comp, s, start, end, i + 1)
    requires HeapSubtree(comp, t, start, end, i) && SameOutside(s, t, start, end, i)
    ensures HeapFrom(comp, t, start, end, i)
  {
    forall p | i <= p <= end ensures HeapAt(comp, t, start, end, p) {
      if !InSubtree(start, i, p) {
        assert HeapAt(comp, s, start, end, p);
        forall c | p < c <= end && Parent(start, c) == p ensures !comp(t[p], t[c]) {
          assert !InSubtree(start, i, c);
        }
      }
    }
  }

  /** The first loop of heapsort: turn the range into a max-heap from the last parent down. */
  method BuildHeap<T(!new)>(a: array<T>, left: nat, right: nat, comp: (T, T) -> bool)
    requires left <= right < a.Length && StrictWeakOrder(comp)
    modifies a
    ensures HeapFrom(comp, a[..], left, right, left)
    ensures Rearranged(old(a[..]), a[..], left, right + 1)
  {
    var i: nat := left + (right - left) / 2;
    var going := true;
    while going
      invariant left <= i <= right
      invariant HeapFrom(comp, a[..], left, right, if going then i + 1 else left)
      invariant Rearranged(old(a[..]), a[..], left, right + 1)
      decreases going, i
    {
      ghost var before := a[..];
      Heapify(a, left, right, i, comp);
      HeapifyExtends(comp, before, a[..], left, right, i);
      RearrangedTransitive(old(a[..]), before, a[..], left, right + 1);
      if i == left {
        going := false;
      } else {
        i := i - 1;
      }
    }
  }

  /** A heap prefix, none of whose elements comes after any element of the sorted suffix. */
  ghost predicate Extracting<T(!new)>(comp: (T, T) -> bool, s: seq<T>, left: nat, i: nat, right: nat)
    requires left <= i <= right < |s|
  {
    && HeapFrom(comp, s, left, i, left)
    && Sorted(comp, s, i + 1, right + 1)
    && forall p, q | left <= p <= i < q <= right :: !comp(s[q], s[p])
  }

  lemma ExtractOne<T(!new)>(comp: (T, T) -> bool, s: seq<T>, left: nat, i: nat, right: nat)
    requires StrictWeakOrder(comp) && left < i <= right < |s| && Extracting(comp, s, left, i, right)
    ensures var t := Swapped(s, i, left);
      && (forall p | left < p <= i - 1 && InSubtree(left, left, p) :: HeapAt(comp, t, left, i - 1, p))
      && Sorted(comp, t, i, right + 1)
      && forall p, q | left <= p < i <= q <= right :: !comp(t[q], t[p])
  {
    OrderLaws(comp);
    var t, e := Swapped(s, i, left), i - 1;
    forall p | left < p <= e ensures HeapAt(comp, t, left, e, p) {
      assert HeapAt(comp, s, left, i, p);
    }
    forall p | left <= p <= i ensures !comp(s[left], s[p]) {
      RootIsLargest(comp, s, left, i, p);
    }
  }

  lemma ExtractionContinues<T(!new)>(comp: (T, T) -> bool, t: seq<T>, u: seq<T>, left: nat, i: nat, right: nat)
    requires left < i <= right < |t|
    requires Rearranged(t, u, left, i) && HeapSubtree(comp, u, left, i - 1, left)
    requires Sorted(comp, t, i, right + 1)
    requires forall p, q | left <= p < i <= q <= right :: !comp(t[q], t[p])
    ensures Extracting(comp, u, left, i - 1, right)
  {
    var e := i - 1;
    forall p | left <= p <= e ensures HeapAt(comp, u, left, e, p) {
      EverythingBelowRoot(left, p);
    }
    RearrangedMeaning(t, u, left, i);
    forall p, q | left <= p < i <= q <= right ensures !comp(u[q], u[p]) {
      var j := RearrangedElement(t, u, left, i, p);
    }
  }

  /** The largest element moves to its final place; only the root of the heap may now be wrong. */
  method SwapOutMax<T(!new)>(a: array<T>, left: nat, i: nat, ghost right: nat, ghost comp: (T, T) -> bool,
                             ghost was: seq<T>)
    requires left < i <= right < a.Length && StrictWeakOrder(comp)
    requires Extracting(comp, a[..], left, i, right) && Rearranged(was, a[..], left, right + 1)
    modifies a
    ensures forall p | left < p <= i - 1 && InSubtree(left, left, p) :: HeapAt(comp, a[..], left, i - 1, p)
    ensures Sorted(comp, a[..], i, right + 1)
    ensures forall p, q | left <= p < i <= q <= right :: !comp(a[q], a[p])
    ensures Rearranged(was, a[..], left, right + 1)
  {
    ghost var s := a[..];
    ExtractOne(comp, s, left, i, right);
    Exchange(a, i, left, was, left, right + 1);
  }

  /** One pass of the second loop of heapsort. */
  method ExtractMax<T(!new)>(a: array<T>, left: nat, i: nat, ghost right: nat, comp: (T, T) -> bool,
                             ghost was: seq<T>)
    requires left < i <= right < a.Length && StrictWeakOrder(comp)
    requires Extracting(comp, a[..], left, i, right) && Rearranged(was, a[..], left, right + 1)
    modifies a
    ensures Extracting(comp, a[..], left, i - 1, right) && Rearranged(was, a[..], left, right + 1)
  {
    SwapOutMax(a, left, i, right, comp, was);
    ghost var t := a[..];
    Heapify(a, left, i - 1, left, comp);
    ExtractionContinues(comp, t, a[..], left, i, right);
    RearrangedWiden(t, a[..], left, i, left, right + 1);
    RearrangedTransitive(was, t, a[..], left, right + 1);
  }

  method HsortArray<T(!new)>(a: array<T>, left: nat, right: nat, comp: (T, T) -> bool)
    requires left <= right < a.Length && StrictWeakOrder(comp)
    modifies a
    ensures Rearranged(old(a[..]), a[..], left, right + 1)
    ensures Sorted(comp, a[..], left, right + 1)
  {
    if right - left < 30 {
      IsortArray(a, left, right, comp);
      return;
    }
    BuildHeap(a, left, right, comp);
    var i: nat := right;
    while i > left
      invariant left <= i <= right
      invariant Extracting(comp, a[..], left, i, right)
      invariant Rearranged(old(a[..]), a[..], left, right + 1)
    {
      ExtractMax(a, left, i, right, comp, old(a[..]));
      i := i - 1;
    }
  }

  // ------------------------------------------------------------ introspection

  /** The depth budget handed to both halves: halved, plus a sixteenth of the half. */
  function NextBudget(d: nat): nat {
    d / 2 + d / 2 / 16
  }

  function BitLength(n: nat): nat {
    if n == 0 then 0 else 1 + BitLength(n / 2)
  }

  lemma {:induction false} BitLengthMonotone(m: nat, n: nat)
    requires m <= n
    ensures BitLength(m) <= BitLength(n)
  {
    if m > 0 {
      BitLengthMonotone(m / 2, n / 2);
    }
  }

  /** How deep partitioning can nest on a budget. */
  function DepthOnBudget(d: nat): nat {
    if d == 0 then 0 else 1 + DepthOnBudget(NextBudget(d))
  }

  /** Two updates at least halve the budget, so the depth is at most twice the bit length. */
  lemma {:induction false} DepthIsLogarithmic(d: nat)
    ensures DepthOnBudget(d) <= 2 * BitLength(d)
  {
    var e := NextBudget(d);
    if d > 0 && e > 0 {
      var g := NextBudget(e);
      assert g <= d / 2;
      DepthIsLogarithmic(g);
      BitLengthMonotone(g, d / 2);
    }
  }

  lemma PartsSorted<T(!new)>(comp: (T, T) -> bool, s: seq<T>, t: seq<T>, u: seq<T>, left: nat, p: nat, right: nat)
    requires StrictWeakOrder(comp) && left <= p <= right < |s|
    requires Pivoted(comp, s, left, p, right)
    requires Rearranged(s, t, left, p) && Sorted(comp, t, left, p)
    requires Rearranged(t, u, p + 1, right + 1) && Sorted(comp, u, p + 1, right + 1)
    ensures Sorted(comp, u, left, right + 1)
  {
    OrderLaws(comp);
    RearrangedMeaning(s, t, left, p);
    RearrangedMeaning(t, u, p + 1, right + 1);
    forall k | left <= k < p ensures comp(u[k], u[p]) {
      var j := RearrangedElement(s, t, left, p, k);
    }
    forall k | p < k <= right ensures !comp(u[k], u[p]) {
      var j := RearrangedElement(t, u, p + 1, right + 1, k);
    }
    forall i, j | left <= i < j <= right ensures !comp(u[j], u[i]) {
      assert i < p < j ==> !comp(u[p], u[i]);
    }
  }

  lemma PartsRearranged<T>(was: seq<T>, s: seq<T>, t: seq<T>, u: seq<T>, left: nat, p: nat, right: nat)
    requires left <= p <= right < |s| && Rearranged(was, s, left, right + 1)
    requires Rearranged(s, t, left, p) && Rearranged(t, u, p + 1, right + 1)
    ensures Rearranged(was, u, left, right + 1)
  {
    RearrangedWiden(s, t, left, p, left, right + 1);
    RearrangedWiden(t, u, p + 1, right + 1, left, right + 1);
    RearrangedTransitive(was, s, t, left, right + 1);
    RearrangedTransitive(was, t, u, left, right + 1);
  }

  /** `depth` counts the partitioning calls nested inside this one, itself included. */
  method QsortArrayMain<T(!new)>(a: array<T>, left: nat, right: nat, depthCheck: nat, comp: (T, T) -> bool)
    returns (ghost depth: nat)
    requires left <= right + 1 && right < a.Length && StrictWeakOrder(comp)
    modifies a
    ensures Rearranged(old(a[..]), a[..], left, right + 1)
    ensures Sorted(comp, a[..], left, right + 1)
    ensures depth <= DepthOnBudget(depthCheck)
    decreases right + 1 - left
  {
    depth := 0;
    if left < right {
      if right - left < 30 || depthCheck == 0 {
        HsortArray(a, left, right, comp);
      } else {
        var budget := depthCheck / 2;
        budget := budget + budget / 16;
        ghost var was := a[..];
        var p := QsortPartition(a, left, right, comp);
        ghost var s := a[..];
        ghost var d1, d2 := 0, 0;
        if p > 0 {
          d1 := QsortArrayMain(a, left, p - 1, budget, comp);
        }
        ghost var t := a[..];
        d2 := QsortArrayMain(a, p + 1, right, budget, comp);
        PartsSorted(comp, s, t, a[..], left, p, right);
        PartsRearranged(was, s, t, a[..], left, p, right);
        depth := 1 + Max(d1, d2);
      }
    }
  }

  /** Sorts left..right in place, touches nothing else, and nests at most logarithmically deep. */
  method QsortArray<T(!new)>(a: array<T>, left: nat, right: nat, comp: (T, T) -> bool) returns (ghost depth: nat)
    requires left <= right < a.Length && StrictWeakOrder(comp)
    modifies a
    ensures forall i, j | left <= i < j <= right :: !comp(a[j], a[i])
    ensures multiset(a[left..right + 1]) == multiset(old(a[left..right + 1]))
    ensures forall k | 0 <= k < a.Length && !(left <= k <= right) :: a[k] == old(a[k])
    ensures depth <= 2 * BitLength(right - left)
  {
    ghost var was := a[..];
    depth := QsortArrayMain(a, left, right, right - left, comp);
    DepthIsLogarithmic(right - left);
    RearrangedMeaning(was, a[..], left, right + 1);
    assert was[left..right + 1] == old(a[left..right + 1]);
    assert a[..][left..right + 1] == a[left..right + 1];
  }
}
