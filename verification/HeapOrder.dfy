/**
  The sifting of container/heap on the items of the delay queue, as functions on sequences, and what it does to
  the heap order (common/timingwheel/delayqueue.go).
 */
module HeapOrder {

  /** An element of the priority queue; `Index` is its position, -1 once removed. */
  class Item<T> {
    const Value: T
    const Priority: int
    var Index: int

    constructor (value: T, priority: int)
      ensures Value == value && Priority == priority && Index == 0
    {
      Value, Priority, Index := value, priority, 0;
    }
  }

  function Parent(j: nat): (i: nat)
    ensures i <= j && (j > 0 ==> i < j)
  {
    if j == 0 then 0 else (j - 1) / 2
  }

  function Swapped<X>(s: seq<X>, i: nat, j: nat): (s': seq<X>)
    requires i < |s| && j < |s|
    ensures |s'| == |s|
  {
    s[i := s[j]][j := s[i]]
  }

  lemma SwapMultiset<X>(s: seq<X>, i: nat, j: nat)
    requires i < |s| && j < |s|
    ensures multiset(Swapped(s, i, j)) == multiset(s)
  {}

  /** `up` of container/heap. */
  function SiftUp<T>(s: seq<Item<T>>, j: nat): (s': seq<Item<T>>)
    requires j < |s|
    ensures |s'| == |s|
    decreases j
  {
    var i := Parent(j);
    if i == j || s[j].Priority >= s[i].Priority then s else SiftUp(Swapped(s, i, j), i)
  }

  /** Where `up` leaves the element that started at `j`. */
  function SiftUpTo<T>(s: seq<Item<T>>, j: nat): (k: nat)
    requires j < |s|
    ensures k <= j
    decreases j
  {
    var i := Parent(j);
    if i == j || s[j].Priority >= s[i].Priority then j else SiftUpTo(Swapped(s, i, j), i)
  }

  function LeastChild<T>(s: seq<Item<T>>, i: nat, n: nat): (j: nat)
    requires 2 * i + 1 < n <= |s|
    ensures i < j < n && Parent(j) == i
    ensures forall k | 0 < k < n && Parent(k) == i :: s[j].Priority <= s[k].Priority
  {
    if 2 * i + 2 < n && s[2 * i + 2].Priority < s[2 * i + 1].Priority then 2 * i + 2 else 2 * i + 1
  }

  /** `down` of container/heap, over the first `n` elements. */
  function SiftDown<T>(s: seq<Item<T>>, i: nat, n: nat): (s': seq<Item<T>>)
    requires i < |s| && n <= |s|
    ensures |s'| == |s|
    decreases n - i
  {
    if 2 * i + 1 >= n then s
    else
      var j := LeastChild(s, i, n);
      if s[j].Priority >= s[i].Priority then s else SiftDown(Swapped(s, i, j), j, n)
  }

  /** No element of the first `n` precedes its parent. */
  predicate Heap<T>(s: seq<Item<T>>, n: nat)
    requires n <= |s|
  {
    forall j | 0 < j < n :: s[Parent(j)].Priority <= s[j].Priority
  }

  /** A heap but for the element at `k`, which may precede its parent. */
  ghost predicate HeapAbove<T>(s: seq<Item<T>>, n: nat, k: nat)
    requires k < n <= |s|
  {
    && (forall j | 0 < j < n && j != k :: s[Parent(j)].Priority <= s[j].Priority)
    && (forall j | 0 < j < n && Parent(j) == k :: s[Parent(k)].Priority <= s[j].Priority)
  }

  /** A heap but for the element at `k`, which may follow its children. */
  ghost predicate HeapBelow<T>(s: seq<Item<T>>, n: nat, k: nat)
    requires k < |s| && n <= |s|
  {
    && (forall j | 0 < j < n && Parent(j) != k :: s[Parent(j)].Priority <= s[j].Priority)
    && (forall j | 0 < j < n && Parent(j) == k && k > 0 :: s[Parent(k)].Priority <= s[j].Priority)
  }

  lemma {:induction false} SiftUpHeap<T>(s: seq<Item<T>>, j: nat)
    requires j < |s| && HeapAbove(s, |s|, j)
    ensures Heap(SiftUp(s, j), |s|)
    ensures multiset(SiftUp(s, j)) == multiset(s)
    ensures SiftUpTo(s, j) < |s| && SiftUp(s, j)[SiftUpTo(s, j)] == s[j]
    decreases j
  {
    var i := Parent(j);
    if !(i == j || s[j].Priority >= s[i].Priority) {
      SwapMultiset(s, i, j);
      SiftUpHeap(Swapped(s, i, j), i);
    }
  }

  /** The root of a heap is a minimum. */
  lemma {:induction false} RootLeast<T>(s: seq<Item<T>>, n: nat, k: nat)
    requires k < n <= |s| && Heap(s, n)
    ensures s[0].Priority <= s[k].Priority
    decreases k
  {
    if k > 0 { RootLeast(s, n, Parent(k)); }
  }

  /** The new last element rises to the root iff it is strictly below everything else. */
  lemma {:induction false} RisesToRoot<T>(s: seq<Item<T>>, j: nat)
    requires j < |s| && HeapAbove(s, |s|, j) && (j > 0 ==> s[0].Priority <= s[Parent(j)].Priority)
    ensures SiftUpTo(s, j) == 0 <==> j == 0 || s[j].Priority < s[0].Priority
    decreases j
  {
    var i := Parent(j);
    if i != j && s[j].Priority < s[i].Priority && i > 0 {
      var s' := Swapped(s, i, j);
      assert HeapAbove(s', |s'|, i);
      RootBelow(s, j, Parent(i));
      RisesToRoot(s', i);
    }
  }

  /** Away from the misplaced element, the root is still below every ancestor. */
  lemma {:induction false} RootBelow<T>(s: seq<Item<T>>, j: nat, k: nat)
    requires k < j < |s| && HeapAbove(s, |s|, j)
    ensures s[0].Priority <= s[k].Priority
    decreases k
  {
    if k > 0 { RootBelow(s, j, Parent(k)); }
  }

  lemma {:induction false} SiftDownHeap<T>(s: seq<Item<T>>, i: nat, n: nat)
    requires i < |s| && n <= |s| && HeapBelow(s, n, i)
    ensures Heap(SiftDown(s, i, n), n)
    ensures multiset(SiftDown(s, i, n)) == multiset(s)
    ensures forall k | n <= k < |s| && k != i :: SiftDown(s, i, n)[k] == s[k]
    decreases n - i
  {
    if 2 * i + 1 < n {
      var j := LeastChild(s, i, n);
      if s[j].Priority < s[i].Priority {
        SwapMultiset(s, i, j);
        SiftDownHeap(Swapped(s, i, j), j, n);
      }
    }
  }

  /** The slice just before heap.Remove(pq, 0) drops its last element. */
  function HeadLast<T>(s: seq<Item<T>>): (t: seq<Item<T>>)
    requires s != []
    ensures |t| == |s|
  {
    var n: nat := |s| - 1;
    if n == 0 then s else SiftDown(Swapped(s, 0, n), 0, n)
  }

  lemma SwappedRootHeap<T>(s: seq<Item<T>>, n: nat)
    requires |s| == n + 1 && n > 0 && Heap(s, |s|)
    ensures HeapBelow(Swapped(s, 0, n), n, 0)
  {
    var t := Swapped(s, 0, n);
    forall j | 0 < j < n && Parent(j) != 0 ensures t[Parent(j)].Priority <= t[j].Priority {
      assert t[j] == s[j] && t[Parent(j)] == s[Parent(j)];
    }
  }

  lemma DropLast<T>(t: seq<Item<T>>, n: nat)
    requires |t| == n + 1 && Heap(t, n)
    ensures Heap(t[..n], n) && multiset(t[..n]) + multiset{t[n]} == multiset(t)
  {
    assert t == t[..n] + [t[n]];
    assert multiset(t) == multiset(t[..n]) + multiset{t[n]};
    forall j | 0 < j < n ensures t[..n][Parent(j)].Priority <= t[..n][j].Priority {
      assert t[Parent(j)].Priority <= t[j].Priority;
    }
  }

  lemma HeadLastHeap<T>(s: seq<Item<T>>)
    requires s != [] && Heap(s, |s|)
    ensures var t, n := HeadLast(s), |s| - 1;
            && t[n] == s[0]
            && Heap(t[..n], n)
            && multiset(t[..n]) + multiset{s[0]} == multiset(s)
  {
    var t, n: nat := HeadLast(s), |s| - 1;
    if n > 0 {
      SwapMultiset(s, 0, n);
      SwappedRootHeap(s, n);
      SiftDownHeap(Swapped(s, 0, n), 0, n);
    }
    DropLast(t, n);
  }

  /** heap.Push: the appended item rises to its place, which is the root iff it precedes everything else. */
  lemma PushedHeap<T>(before: seq<Item<T>>, x: Item<T>)
    requires Heap(before, |before|)
    ensures var j := |before|; var s' := SiftUp(before + [x], j); var k := SiftUpTo(before + [x], j);
            && Heap(s', |s'|)
            && multiset(s') == multiset(before) + multiset{x}
            && s'[k] == x
            && (k == 0 <==> forall y <- before :: x.Priority < y.Priority)
  {
    var j, s := |before|, before + [x];
    assert forall k | 0 <= k < j :: s[k] == before[k];
    SiftUpHeap(s, j);
    RootLeastAll(before);
    if j > 0 { assert s[0] == before[0] && s[Parent(j)] == before[Parent(j)]; }
    RisesToRoot(s, j);
    assert j > 0 ==> before[0] in before;
  }

  lemma RootLeastAll<T>(s: seq<Item<T>>)
    requires Heap(s, |s|)
    ensures forall k | 0 <= k < |s| :: s[0].Priority <= s[k].Priority
  {
    forall k | 0 <= k < |s| ensures s[0].Priority <= s[k].Priority { RootLeast(s, |s|, k); }
  }
}
