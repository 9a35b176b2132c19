/** The min-heap behind the delay queue: a slice of items grown and shrunk in place (common/timingwheel/delayqueue.go). */
module PriorityQueues {
  import opened HeapOrder

  class PriorityQueue<T> {
    /** The backing array; its length is the capacity of the slice. */
    var pq: array<Item?<T>>
    /** The length of the slice. */
    var len: nat
    /** Every item that has been in the queue. */
    ghost var Pool: set<Item<T>>

    /** The slice holds distinct items, all from the pool, that know their positions. */
    ghost predicate Linked()
      reads this, pq, Pool
    {
      && len <= pq.Length && pq.Length >= 1
      && (forall k | 0 <= k < len :: pq[k] != null && pq[k] in Pool && (pq[k] as Item<T>).Index == k)
    }

    ghost function Items(): (s: seq<Item<T>>)
      requires Linked()
      reads this, pq, Pool
      ensures |s| == len
    {
      pq[..len]
    }

    ghost predicate Valid()
      reads this, pq, Pool
    {
      Linked() && Heap(Items(), len)
    }

    constructor (capacity: nat)
      requires capacity >= 1
      ensures Valid() && fresh(pq) && Pool == {} && Items() == []
    {
      pq := new Item?<T>[capacity](_ => null);
      len := 0;
      new;
      Pool := {};
    }

    method Swap(i: nat, j: nat)
      requires Linked() && i < len && j < len
      modifies pq, Pool
      ensures Linked() && Items() == Swapped(old(Items()), i, j)
    {
      pq[i], pq[j] := pq[j], pq[i];
      pq[i].Index := i;
      pq[j].Index := j;
    }

    /** Appends `x`, doubling the backing array when it is full. */
    method Push(x: Item<T>)
      requires Linked() && x !in Items()
      modifies this, pq, x
      ensures Linked() && Items() == old(Items()) + [x]
      ensures (pq == old(pq) || fresh(pq)) && Pool == old(Pool) + {x}
      ensures pq.Length == if old(len) == old(pq.Length) then 2 * old(pq.Length) else old(pq.Length)
    {
      var n := len;
      if n + 1 > pq.Length {
        var npq := new Item?<T>[2 * pq.Length](_ => null);
        forall k | 0 <= k < n { npq[k] := pq[k]; }
        pq := npq;
      }
      len := n + 1;
      x.Index := n;
      pq[n] := x;
      Pool := Pool + {x};
    }

    /** Removes the last item, halving a backing array that is mostly empty. */
    method Pop() returns (x: Item<T>)
      requires Linked() && len > 0
      modifies this, pq[len - 1]
      ensures Linked()
      ensures Items() == old(Items())[..old(len) - 1] && x == old(Items())[old(len) - 1] && x.Index == -1
      ensures (pq == old(pq) || fresh(pq)) && Pool == old(Pool)
      ensures pq.Length == if old(len) < old(pq.Length) / 2 && old(pq.Length) > 25 then old(pq.Length) / 2 else old(pq.Length)
    {
      var n := len;
      if n < pq.Length / 2 && pq.Length > 25 {
        var npq := new Item?<T>[pq.Length / 2](_ => null);
        forall k | 0 <= k < n { npq[k] := pq[k]; }
        pq := npq;
      }
      x := pq[n - 1];
      x.Index := -1;
      len := n - 1;
    }

    method Up(j0: nat)
      requires Linked() && j0 < len
      modifies pq, Pool
      ensures Linked() && Items() == SiftUp(old(Items()), j0)
    {
      var j: nat := j0;
      while true
        invariant j < len && Linked()
        invariant SiftUp(Items(), j) == SiftUp(old(Items()), j0)
        decreases j
      {
        var i := Parent(j);
        if i == j || !(pq[j].Priority < pq[i].Priority) {
          break;
        }
        Swap(i, j);
        j := i;
      }
    }

    method Down(i0: nat, n: nat) returns (moved: bool)
      requires Linked() && i0 < len && n <= len
      modifies pq, Pool
      ensures Linked() && Items() == SiftDown(old(Items()), i0, n)
      ensures !moved ==> Items() == old(Items())
    {
      var i: nat := i0;
      while true
        invariant i0 <= i < len && Linked()
        invariant SiftDown(Items(), i, n) == SiftDown(old(Items()), i0, n)
        invariant i == i0 ==> Items() == old(Items())
        decreases n - i
      {
        var j1 := 2 * i + 1;
        if j1 >= n {
          break;
        }
        var j: nat := j1;
        var j2 := j1 + 1;
        if j2 < n && pq[j2].Priority < pq[j1].Priority {
          j := j2;
        }
        assert j == LeastChild(Items(), i, n);
        if !(pq[j].Priority < pq[i].Priority) {
          break;
        }
        Swap(i, j);
        i := j;
      }
      moved := i > i0;
    }

    /** heap.Push: the item joins the queue; its index is 0 iff it now precedes everything else. */
    method HeapPush(x: Item<T>)
      requires Valid() && x !in Items()
      modifies this, pq, Pool, x
      ensures Valid() && (pq == old(pq) || fresh(pq)) && Pool == old(Pool) + {x}
      ensures multiset(Items()) == multiset(old(Items())) + multiset{x}
      ensures 0 <= x.Index < len
      ensures x.Index == 0 <==> forall y <- old(Items()) :: x.Priority < y.Priority
    {
      ghost var before := Items();
      PushedHeap(before, x);
      Push(x);
      Up(len - 1);
      assert Items()[SiftUpTo(before + [x], |before|)] == x;
    }

    /** heap.Remove(pq, 0): swap the root with the last item, sift, and drop the last. */
    method RemoveHead() returns (x: Item<T>)
      requires Valid() && len > 0
      modifies this, pq, Pool
      ensures Valid() && (pq == old(pq) || fresh(pq)) && Pool == old(Pool)
      ensures x == old(Items())[0] && x.Index == -1
      ensures multiset(Items()) + multiset{x} == multiset(old(Items()))
    {
      ghost var before := Items();
      var n := len - 1;
      HeadLastHeap(before);
      if n != 0 {
        Swap(0, n);
        var moved := Down(0, n);
        if !moved {
          Up(0);
        }
      }
      assert Items() == HeadLast(before);
      x := Pop();
      assert Items() == HeadLast(before)[..n];
    }

    /** The earliest item if its priority is at most `max`; otherwise how much longer it has to wait, 0 for an empty queue. */
    method PeekAndShift(max: int) returns (x: Item?<T>, delta: int)
      requires Valid()
      modifies this, pq, Pool
      ensures Valid() && (pq == old(pq) || fresh(pq)) && Pool == old(Pool)
      ensures x == null ==> delta >= 0 && Items() == old(Items())
      ensures x == null ==> (delta == 0 <==> Items() == [])
      ensures x == null && delta > 0 ==>
                && (exists y <- Items() :: y.Priority == max + delta)
                && forall y <- Items() :: max + delta <= y.Priority
      ensures x != null ==>
                && delta == 0 && x.Priority <= max
                && (forall y <- old(Items()) :: x.Priority <= y.Priority)
                && multiset(Items()) + multiset{x as Item<T>} == multiset(old(Items()))
    {
      if len == 0 {
        return null, 0;
      }
      ghost var s := Items();
      RootLeastAll(s);
      x := pq[0];
      if x.Priority > max {
        delta := x.Priority - max;
        assert s[0].Priority == max + delta;
        x := null;
      } else {
        x := RemoveHead();
        delta := 0;
      }
    }
  }
}
