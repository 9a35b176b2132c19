/**
  The timing wheel as the source builds it: wheels, buckets and timers updated in place, chained through
  `overflowWheel` and sharing one delay queue. Each method is tied to its function in WheelSpec
  (common/timingwheel/timingwheel.go, bucket.go, delayqueue.go).
 */
module TimingWheels {
  import opened Wrappers
  import opened Truncation
  import opened HeapOrder
  import opened PriorityQueues
  import WheelSpec
  import WheelInvariant
  import WheelStep
  import WheelRefinement

  class Timer {
    const expiration: int
    const task: nat
    /** The bucket holding the timer, if any. */
    var b: Bucket?

    constructor (expiration: int, task: nat)
      ensures this.expiration == expiration && this.task == task && b == null
    {
      this.expiration, this.task, b := expiration, task, null;
    }

    ghost function Value(): WheelSpec.Timer {
      WheelSpec.Timer(task, expiration)
    }
  }

  ghost function Values(ts: seq<Timer>): (vs: seq<WheelSpec.Timer>)
    ensures |vs| == |ts|
  {
    seq(|ts|, k requires 0 <= k < |ts| => ts[k].Value())
  }

  lemma OthersStay(ts: seq<Timer>, cut: seq<Timer>, pos: int)
    requires 0 <= pos < |ts| && cut == ts[..pos] + ts[pos + 1..]
    ensures forall x <- ts | x != ts[pos] :: x in cut
  {
    forall k | 0 <= k < |ts| && ts[k] != ts[pos] ensures ts[k] in cut { assert ts[k] == cut[if k < pos then k else k - 1]; }
  }

  lemma ValuesCut(ts: seq<Timer>, pos: nat)
    requires pos < |ts|
    ensures Values(ts[..pos] + ts[pos + 1..]) == Values(ts)[..pos] + Values(ts)[pos + 1..]
  {}

  ghost predicate Distinct<X>(s: seq<X>) {
    forall i, j | 0 <= i < j < |s| :: s[i] != s[j]
  }

  class Bucket {
    var expiration: int
    /** The linked list of the source, front first. */
    var timers: seq<Timer>
    ghost const tick: int
    ghost const index: int

    constructor (ghost tick: int, ghost index: int)
      ensures expiration == -1 && timers == [] && this.tick == tick && this.index == index
    {
      expiration, timers := -1, [];
      this.tick, this.index := tick, index;
    }

    ghost function Abs(): WheelSpec.Bucket
      reads this
    {
      WheelSpec.Bucket(expiration, Values(timers))
    }

    /** The list and the back pointers of its timers agree. */
    ghost predicate Linked()
      reads this, timers
    {
      Distinct(timers) && forall t <- timers :: t.b == this
    }

    method SetExpiration(e: int) returns (changed: bool)
      modifies this`expiration
      ensures expiration == e && changed == (old(expiration) != e)
    {
      changed := expiration != e;
      expiration := e;
    }

    method Add(t: Timer)
      requires Linked() && t !in timers
      modifies this`timers, t
      ensures Linked() && timers == old(timers) + [t] && t.b == this
    {
      timers := timers + [t];
      t.b := this;
    }

    /** `Add` followed by `SetExpiration`, as the wheel does when it places a timer. */
    method Put(t: Timer, e: int) returns (changed: bool)
      requires Linked() && t !in timers
      modifies this, t
      ensures Linked() && timers == old(timers) + [t] && t.b == this && expiration == e && changed == (old(expiration) != e)
      ensures Abs() == WheelSpec.Bucket(e, old(Abs()).timers + [t.Value()])
    {
      Add(t);
      changed := SetExpiration(e);
    }

    /** Unlinks `t` if this bucket still holds it. */
    method Remove(t: Timer) returns (removed: bool)
      requires Linked() && (t.b == this ==> t in timers)
      modifies this`timers, t
      ensures Linked() && removed == (old(t.b) == this)
      ensures !removed ==> timers == old(timers) && t.b == old(t.b)
      ensures removed ==>
                && t.b == null && t !in timers
                && exists pos | 0 <= pos < |old(timers)| ::
                     old(timers)[pos] == t && timers == old(timers)[..pos] + old(timers)[pos + 1..]
    {
      if t.b != this {
        return false;
      }
      var pos := 0;
      while timers[pos] != t
        invariant 0 <= pos < |timers| && t in timers[pos..]
        decreases |timers| - pos
      {
        pos := pos + 1;
      }
      timers := timers[..pos] + timers[pos + 1..];
      t.b := null;
      return true;
    }
  }

  // ---------- the delay queue ----------

  ghost function EntryOf(it: Item<Bucket>): WheelSpec.Entry {
    WheelSpec.Entry(it.Priority, it.Value.tick, it.Value.index)
  }

  ghost function EntriesOf(items: seq<Item<Bucket>>): multiset<WheelSpec.Entry> {
    if items == [] then multiset{} else multiset{EntryOf(items[0])} + EntriesOf(items[1..])
  }

  lemma {:induction false} EntriesSplit(items: seq<Item<Bucket>>, k: nat)
    requires k < |items|
    ensures EntriesOf(items) == EntriesOf(items[..k] + items[k + 1..]) + multiset{EntryOf(items[k])}
    decreases k
  {
    var rest := items[..k] + items[k + 1..];
    if k == 0 {
      assert rest == items[1..];
    } else {
      EntriesSplit(items[1..], k - 1);
      assert rest[1..] == items[1..][..k - 1] + items[1..][k..];
      assert rest[0] == items[0];
    }
  }

  lemma TakeOut<X>(s: seq<X>, k: nat)
    requires k < |s|
    ensures multiset(s[..k] + s[k + 1..]) == multiset(s) - multiset{s[k]}
  {
    assert s == s[..k] + [s[k]] + s[k + 1..];
    assert multiset(s) == multiset(s[..k] + s[k + 1..]) + multiset{s[k]};
  }

  lemma SameHead<X>(s: seq<X>, s': seq<X>) returns (k: nat)
    requires s != [] && multiset(s) == multiset(s')
    ensures k < |s'| && s'[k] == s[0]
    ensures multiset(s[1..]) == multiset(s'[..k] + s'[k + 1..])
  {
    k := IndexIn(s', s[0]);
    TakeOut(s', k);
    assert s == [s[0]] + s[1..];
  }

  lemma IndexIn<X>(s: seq<X>, x: X) returns (k: nat)
    requires x in multiset(s)
    ensures k < |s| && s[k] == x
  {
    k :| 0 <= k < |s| && s[k] == x;
  }

  /** The order of the items does not matter. */
  lemma {:induction false} EntriesPermuted(s: seq<Item<Bucket>>, s': seq<Item<Bucket>>)
    requires multiset(s) == multiset(s')
    ensures EntriesOf(s) == EntriesOf(s')
    decreases |s|
  {
    if s == [] {
      assert |multiset(s')| == 0;
    } else {
      var k := SameHead(s, s');
      EntriesPermuted(s[1..], s'[..k] + s'[k + 1..]);
      EntriesSplit(s', k);
    }
  }

  lemma EntriesGain(s: seq<Item<Bucket>>, s': seq<Item<Bucket>>, x: Item<Bucket>)
    requires multiset(s') == multiset(s) + multiset{x}
    ensures EntriesOf(s') == EntriesOf(s) + multiset{EntryOf(x)}
  {
    assert multiset([x] + s) == multiset{x} + multiset(s);
    EntriesPermuted(s', [x] + s);
    assert ([x] + s)[1..] == s;
  }

  lemma {:induction false} EntryIn(s: seq<Item<Bucket>>, k: nat)
    requires k < |s|
    ensures EntryOf(s[k]) in EntriesOf(s)
    decreases k
  {
    if k > 0 { EntryIn(s[1..], k - 1); }
  }

  lemma {:induction false} EntryFrom(s: seq<Item<Bucket>>, e: WheelSpec.Entry) returns (k: nat)
    requires e in EntriesOf(s)
    ensures k < |s| && EntryOf(s[k]) == e
  {
    if e == EntryOf(s[0]) { k := 0; } else { k := EntryFrom(s[1..], e); k := k + 1; }
  }

  lemma GainedItems(before: seq<Item<Bucket>>, after: seq<Item<Bucket>>, it: Item<Bucket>)
    requires multiset(after) == multiset(before) + multiset{it}
    ensures forall x <- after :: x in before || x == it
  {
    forall x <- after ensures x in before || x == it { assert x in multiset(after); }
  }

  class DelayQueue {
    const pq: PriorityQueue<Bucket>
    /** The timers that have been in the buckets of the wheels sharing this queue. */
    ghost var Held: set<Timer>
    /** The buckets that have been offered. */
    ghost var Sent: set<Bucket>

    constructor (size: nat)
      requires size >= 1
      ensures fresh(pq) && pq.Valid() && fresh(pq.pq) && pq.Pool == {} && pq.Items() == [] && Sent == {} && Held == {}
    {
      pq := new PriorityQueue<Bucket>(size);
      Held, Sent := {}, {};
    }

    /** The queued entries; none if the heap is not in order. */
    ghost function Abs(): QueueView
      reads this`Sent, pq, pq.pq, pq.Pool
    {
      if pq.Valid() && (forall it <- pq.Items() :: it.Value in Sent) then Sound(EntriesOf(pq.Items())) else Broken
    }

    /** Nothing the queue uses has been replaced, except by fresh objects. */
    twostate predicate Fresh()
      reads this, pq
    {
      old(Held) <= Held && (pq.pq == old(pq.pq) || fresh(pq.pq)) && forall it <- pq.Pool :: it in old(pq.Pool) || fresh(it)
    }

    method Offer(elem: Bucket, expiration: int)
      requires Abs().Sound?
      modifies this`Sent, pq, pq.pq, pq.Pool
      ensures Fresh() && Sent == old(Sent) + {elem}
      ensures Abs() == Sound(old(Abs()).entries + multiset{WheelSpec.Entry(expiration, elem.tick, elem.index)})
    {
      ghost var before := pq.Items();
      var it := new Item<Bucket>(elem, expiration);
      pq.HeapPush(it);
      Sent := Sent + {elem};
      GainedItems(before, pq.Items(), it);
      EntriesGain(before, pq.Items(), it);
    }

    /** What `Poll` does under the lock: takes the earliest entry if it is due. */
    method Shift(now: int) returns (b: Bucket?, ghost e: WheelSpec.Entry)
      requires Abs().Sound?
      modifies pq, pq.pq, pq.Pool
      ensures Fresh()
      ensures b == null ==> Abs() == old(Abs()) && forall x <- Abs().entries :: now < x.expiration
      ensures b != null ==>
                && b in Sent && e.tick == b.tick && e.index == b.index
                && e in old(Abs()).entries && e.expiration <= now
                && (forall x <- old(Abs()).entries :: e.expiration <= x.expiration)
                && Abs() == Sound(old(Abs()).entries - multiset{e})
    {
      ghost var before := pq.Items();
      var x, delta := pq.PeekAndShift(now);
      b, e := null, WheelSpec.Entry(0, 0, 0);
      if x != null {
        b, e := x.Value, EntryOf(x);
        Shifted(before, pq.Items(), x);
      } else {
        EntriesBounded(before, now + 1);
      }
    }
  }

  /** Taking out a least item. */
  lemma Shifted(before: seq<Item<Bucket>>, after: seq<Item<Bucket>>, x: Item<Bucket>)
    requires multiset(after) + multiset{x} == multiset(before) && forall y <- before :: x.Priority <= y.Priority
    ensures x in before && EntryOf(x) in EntriesOf(before)
    ensures EntriesOf(after) == EntriesOf(before) - multiset{EntryOf(x)}
    ensures forall e <- EntriesOf(before) :: x.Priority <= e.expiration
    ensures forall y <- after :: y in before
  {
    EntriesGain(after, before, x);
    assert x in multiset(before);
    var k :| 0 <= k < |before| && before[k] == x;
    EntryIn(before, k);
    EntriesBounded(before, x.Priority);
    forall y <- after ensures y in before { assert y in multiset(after); assert y in multiset(before); }
  }

  lemma EntriesBounded(s: seq<Item<Bucket>>, x: int)
    requires forall it <- s :: x <= it.Priority
    ensures forall e <- EntriesOf(s) :: x <= e.expiration
  {
    forall e <- EntriesOf(s) ensures x <= e.expiration {
      var k := EntryFrom(s, e);
      assert s[k] in s;
    }
  }

  datatype QueueView = Broken | Sound(entries: multiset<WheelSpec.Entry>)

  /** Stands for the goroutines: the tasks started so far, in order. */
  class Runner {
    var started: seq<Timer>

    constructor ()
      ensures started == []
    {
      started := [];
    }

    method Go(t: Timer)
      modifies this
      ensures started == old(started) + [t]
    {
      started := started + [t];
    }
  }

  // ---------- the wheel ----------

  class TimingWheel {
    const tick: int
    const wheelSize: int
    const interval: int
    var currentTime: int
    const buckets: seq<Bucket>
    const queue: DelayQueue
    var overflowWheel: TimingWheel?
    const runner: Runner

    /** The wheels from this one up, and their buckets. */
    ghost var Levels: set<TimingWheel>
    ghost var Store: set<Bucket>

    /** The buckets of this wheel alone. */
    ghost function OwnSet(): set<Bucket> {
      set b | b in buckets
    }

    /** The buckets are distinct and know their place. */
    ghost predicate Tagged() {
      && |buckets| == wheelSize && Distinct(buckets)
      && (forall i | 0 <= i < |buckets| :: buckets[i].tick == tick && buckets[i].index == i)
    }

    /** How this wheel and its overflow wheel fit together. */
    ghost predicate Framed()
      reads this, Levels
    {
      && Tagged()
      && this in Levels && OwnSet() <= Store
      && (overflowWheel == null ==> Levels == {this} && Store == OwnSet())
      && (overflowWheel != null ==>
            && overflowWheel in Levels && overflowWheel.Levels == Levels - {this}
            && overflowWheel.Store == Store - OwnSet()
            && overflowWheel.queue == queue)
    }

    /** This wheel as a value, under the given overflow wheel. */
    ghost function Node(up: WheelSpec.Wheel): WheelSpec.Wheel
      reads this, buckets
    {
      WheelSpec.Wheel(tick, wheelSize, interval, currentTime, AbsBuckets(buckets), up)
    }

    /** The wheel as a value; NoWheel if the structure is broken. */
    ghost function Abs(): (w: WheelSpec.Wheel)
      reads this, Levels, Store
      decreases Levels
      ensures w.Wheel? ==> WheelSpec.Clocked(w)
      ensures w.Wheel? ==> w.tick == tick && w.wheelSize == wheelSize && w.interval == interval && w.currentTime == currentTime
    {
      if !Framed() then WheelSpec.NoWheel
      else
        var w := Node(Up());
        if WheelSpec.Clocked(w) && (overflowWheel != null ==> w.overflow.Wheel?) then w else WheelSpec.NoWheel
    }

    /** The overflow wheel as a value. */
    ghost function Up(): WheelSpec.Wheel
      requires Framed()
      reads this, Levels, Store
      decreases Levels, 0
    {
      if overflowWheel == null then WheelSpec.NoWheel else overflowWheel.Abs()
    }

    static method NewBuckets(tick: int, count: int) returns (bs: seq<Bucket>)
      requires count >= 0
      ensures |bs| == count && fresh(set b | b in bs) && Distinct(bs)
      ensures forall i | 0 <= i < |bs| :: bs[i].tick == tick && bs[i].index == i && bs[i].expiration == -1 && bs[i].timers == []
    {
      bs := [];
      while |bs| < count
        invariant |bs| <= count && fresh(set b | b in bs) && Distinct(bs)
        invariant forall i | 0 <= i < |bs| :: bs[i].tick == tick && bs[i].index == i && bs[i].expiration == -1 && bs[i].timers == []
      {
        var b := new Bucket(tick, |bs|);
        bs := bs + [b];
      }
    }

    constructor (tick: int, wheelSize: int, start: int, queue: DelayQueue, runner: Runner)
      requires tick >= 1 && wheelSize >= 2 && start >= 0
      ensures fresh(Levels) && fresh(Store)
      ensures this.tick == tick && this.wheelSize == wheelSize && this.queue == queue && this.runner == runner
      ensures Abs() == WheelSpec.NewWheel(tick, wheelSize, start)
      ensures forall b <- Store :: b.timers == []
    {
      var bs := NewBuckets(tick, wheelSize);
      this.tick, this.wheelSize, this.queue := tick, wheelSize, queue;
      interval := tick * wheelSize;
      currentTime := Truncate(start, tick);
      buckets := bs;
      overflowWheel := null;
      this.runner := runner;
      Levels, Store := {this}, set b | b in bs;
      new;
      IdleBuckets(buckets);
      IsNew(start);
    }

    /** A wheel alone with idle buckets is a new wheel of the specification. */
    lemma IsNew(start: int)
      requires tick >= 1 && wheelSize >= 2 && start >= 0
      requires Tagged() && overflowWheel == null && Levels == {this} && Store == OwnSet()
      requires interval == tick * wheelSize && currentTime == Truncate(start, tick)
      requires AbsBuckets(buckets) == seq(|buckets|, _ => WheelSpec.IDLE)
      ensures Abs() == WheelSpec.NewWheel(tick, wheelSize, start)
    {
      WheelSpec.NewWheelClocked(tick, wheelSize, start);
    }

    /** Appends `t` to bucket `i` of this wheel. */
    method PutOwn(i: int, t: Timer, e: int) returns (changed: bool)
      requires Tagged() && OwnSet() <= Store && LinkedAll(Store, queue.Held) && Free(Store, t) && 0 <= i < |buckets|
      modifies queue`Held, buckets[i], t
      ensures LinkedAll(Store, queue.Held) && Grown(Store, t) && queue.Held == old(queue.Held) + {t}
      ensures buckets[i].expiration == e && changed == (old(buckets[i].expiration) != e) && t.b == buckets[i] && t in buckets[i].timers
      ensures var bs := old(AbsBuckets(buckets));
              AbsBuckets(buckets) == bs[i := WheelSpec.Bucket(e, bs[i].timers + [t.Value()])]
    {
      ghost var level := AbsBuckets(buckets);
      assert buckets[i] in OwnSet();
      changed := buckets[i].Put(t, e);
      queue.Held := queue.Held + {t};
      assert AbsBuckets(buckets) == level[i := buckets[i].Abs()];
    }

    /** The same within the chain: the overflow wheels are untouched. */
    method PutAt(i: int, t: Timer, e: int) returns (changed: bool)
      requires Framed() && LinkedAll(Store, queue.Held) && Free(Store, t) && 0 <= i < |buckets|
      modifies queue`Held, buckets[i], t
      ensures Framed() && LinkedAll(Store, queue.Held) && Grown(Store, t) && queue.Held == old(queue.Held) + {t}
      ensures buckets[i].expiration == e && changed == (old(buckets[i].expiration) != e) && t.b == buckets[i] && t in buckets[i].timers
      ensures Up() == old(Up())
      ensures var bs := old(AbsBuckets(buckets));
              AbsBuckets(buckets) == bs[i := WheelSpec.Bucket(e, bs[i].timers + [t.Value()])]
    {
      hide Abs, AbsBuckets, LinkedAll, Free, Grown, Tagged;
      ghost var b, up := buckets[i], Up();
      assert b in OwnSet();
      assert overflowWheel != null ==> b !in overflowWheel.Store;
      changed := PutOwn(i, t, e);
      assert Up() == up;
    }

    /** Puts `t` into its bucket of this wheel; says which bucket to offer, if any. */
    method Place(t: Timer) returns (offer: Bucket?)
      requires Abs().Wheel? && LinkedAll(Store, queue.Held) && Free(Store, t)
      requires currentTime + tick <= t.expiration < currentTime + interval
      modifies queue`Held, Store, t
      ensures Abs() == WheelSpec.Add(old(Abs()), t.Value()).wheel
      ensures Offered(old(Abs()), t.Value()) == Offering(offer)
      ensures LinkedAll(Store, queue.Held) && Grown(Store, t) && old(queue.Held) <= queue.Held <= old(queue.Held) + {t}
      ensures (offer != null ==> offer in Store) && Backs(Store, t)
    {
      var virtualID := t.expiration / tick;
      var i := virtualID % wheelSize;
      var changed := PutAt(i, t, virtualID * tick);
      offer := if changed then buckets[i] else null;
    }

    /** The structure only grew, by fresh wheels and buckets. */
    twostate predicate Extended()
      reads this
    {
      && old(Levels) <= Levels && (forall w <- Levels :: w in old(Levels) || fresh(w))
      && old(Store) <= Store && (forall b <- Store :: b in old(Store) || fresh(b))
    }

    /** Creates the overflow wheel if there is none. `Regrow` takes the new wheel into account afterwards. */
    method EnsureOverflow(ghost t: Timer)
      requires Abs().Wheel? && LinkedAll(Store, queue.Held) && Free(Store, t)
      modifies this`overflowWheel
      ensures overflowWheel != null && overflowWheel.queue == queue && Tagged()
      ensures overflowWheel.Abs().Wheel? && overflowWheel.Abs() == WheelSpec.OverflowOf(old(Abs()))
      ensures old(Abs()).Wheel? && Node(overflowWheel.Abs()) == old(Abs()).(overflow := overflowWheel.Abs())
      ensures this !in overflowWheel.Levels && OwnSet() !! overflowWheel.Store
      ensures Levels <= {this} + overflowWheel.Levels && forall w <- overflowWheel.Levels :: w in Levels || fresh(w)
      ensures Store <= OwnSet() + overflowWheel.Store && forall b <- overflowWheel.Store :: b in Store || fresh(b)
      ensures LinkedAll(OwnSet() + overflowWheel.Store, queue.Held) && Free(OwnSet() + overflowWheel.Store, t)
    {
      if overflowWheel == null {
        ghost var level := AbsBuckets(buckets);
        var o := new TimingWheel(interval, wheelSize, currentTime, queue, runner);
        overflowWheel := o;
        assert AbsBuckets(buckets) == level;
      }
    }

    /** The overflow wheel's part of `InsertOver`; this wheel's own buckets stay as they are. */
    method InsertBeside(t: Timer) returns (ok: bool, offer: Bucket?)
      requires overflowWheel != null && overflowWheel.queue == queue && overflowWheel.Abs().Wheel?
      requires this !in overflowWheel.Levels && OwnSet() !! overflowWheel.Store
      requires LinkedAll(OwnSet() + overflowWheel.Store, queue.Held) && Free(OwnSet() + overflowWheel.Store, t)
      modifies overflowWheel.Levels, overflowWheel.Store, queue`Held, t
      ensures overflowWheel.Extended() && (offer != null ==> offer in overflowWheel.Store)
      ensures LinkedAll(OwnSet() + overflowWheel.Store, queue.Held) && Grown(OwnSet() + old(overflowWheel.Store), t)
      ensures AbsBuckets(buckets) == old(AbsBuckets(buckets)) && old(queue.Held) <= queue.Held <= old(queue.Held) + {t}
      ensures ok == WheelSpec.Add(old(overflowWheel.Abs()), t.Value()).ok
      ensures overflowWheel.Abs() == WheelSpec.Add(old(overflowWheel.Abs()), t.Value()).wheel
      ensures Offered(old(overflowWheel.Abs()), t.Value()) == Offering(offer)
      ensures if ok then Backs(overflowWheel.Store, t) else t.b == old(t.b)
      decreases WheelSpec.Beyond(overflowWheel.Abs(), t.expiration), 4
    {
      hide Abs, Framed, WheelSpec.Add, WheelSpec.Clocked, WheelSpec.Beyond, Tagged;
      ghost var level := AbsBuckets(buckets);
      LinkedSub(OwnSet() + overflowWheel.Store, overflowWheel.Store, queue.Held, t);
      ok, offer := overflowWheel.Insert(t);
      assert forall b <- OwnSet() :: b.timers == old(b.timers) && t !in b.timers;
      assert AbsBuckets(buckets) == level;
    }

    /** Creates the overflow wheel if need be and inserts `t` into it. */
    method InsertAbove(t: Timer) returns (ok: bool, offer: Bucket?)
      requires Abs().Wheel? && LinkedAll(Store, queue.Held) && Free(Store, t)
      requires t.expiration >= currentTime + interval
      modifies this`overflowWheel, Levels - {this}, Store, queue`Held, t
      ensures overflowWheel != null && overflowWheel.queue == queue && Tagged()
      ensures this !in overflowWheel.Levels && OwnSet() !! overflowWheel.Store
      ensures Levels <= {this} + overflowWheel.Levels && forall w <- overflowWheel.Levels :: w in Levels || fresh(w)
      ensures Store <= OwnSet() + overflowWheel.Store && forall b <- overflowWheel.Store :: b in Store || fresh(b)
      ensures old(queue.Held) <= queue.Held <= old(queue.Held) + {t} && (offer != null ==> offer in overflowWheel.Store)
      ensures LinkedAll(OwnSet() + overflowWheel.Store, queue.Held) && Grown(Store, t)
      ensures var r := WheelSpec.Add(old(Abs()), t.Value());
              ok == r.ok && overflowWheel.Abs().Wheel? && Node(overflowWheel.Abs()) == r.wheel
      ensures Offered(old(Abs()), t.Value()) == Offering(offer)
      ensures if ok then Backs(overflowWheel.Store, t) else t.b == old(t.b)
      decreases WheelSpec.Beyond(Abs(), t.expiration), 0
    {
      ghost var w := Abs();
      InsertUp(w, t.Value());
      assert this in Levels;
      hide WheelSpec.Add, WheelSpec.Clocked, WheelSpec.Beyond, Abs, Framed, AbsBuckets, Tagged, LinkedAll, Free, Offered, Offering;
      EnsureOverflow(t);
      ok, offer := InsertBeside(t);
    }

    lemma InChain()
      requires Abs().Wheel?
      ensures this in Levels && OwnSet() <= Store
    {}

    /** Inserts `t` into the overflow wheel. */
    method InsertOver(t: Timer) returns (ok: bool, offer: Bucket?)
      requires Abs().Wheel? && LinkedAll(Store, queue.Held) && Free(Store, t)
      requires t.expiration >= currentTime + interval
      modifies Levels, Store, queue`Held, t
      ensures Inserted(t, ok, offer)
      decreases WheelSpec.Beyond(Abs(), t.expiration), 1
    {
      hide WheelSpec.Add, WheelSpec.Beyond, Abs, Framed, AbsBuckets, Tagged, LinkedAll, Free, Offered, Grown, Offering;
      ghost var w := Abs();
      InChain();
      ok, offer := InsertAbove(t);
      Regrow(WheelSpec.Add(w, t.Value()).wheel);
    }

    /** Takes in what the overflow wheel has grown by. */
    ghost method Regrow(w: WheelSpec.Wheel)
      requires overflowWheel != null && WheelSpec.Clocked(w) && w == Node(overflowWheel.Abs()) && w.overflow.Wheel?
      requires Tagged() && overflowWheel.queue == queue
      requires this !in overflowWheel.Levels && OwnSet() !! overflowWheel.Store
      modifies this`Levels, this`Store
      ensures Levels == {this} + overflowWheel.Levels && Store == OwnSet() + overflowWheel.Store
      ensures Abs() == w
    {
      var up := overflowWheel.Abs();
      Levels := {this} + overflowWheel.Levels;
      Store := OwnSet() + overflowWheel.Store;
      assert overflowWheel.Abs() == up;
      assert overflowWheel in overflowWheel.Levels;
      assert Framed();
    }

    /** What inserting a timer does to the structure. */
    twostate predicate Inserted(t: Timer, ok: bool, new offer: Bucket?)
      requires old(Abs()).Wheel?
      reads this, Levels, Store, queue, queue.Held, t, offer
    {
      && Extended() && Grown(old(Store), t) && LinkedAll(Store, queue.Held) && old(queue.Held) <= queue.Held <= old(queue.Held) + {t}
      && ok == WheelSpec.Add(old(Abs()), t.Value()).ok
      && Abs() == WheelSpec.Add(old(Abs()), t.Value()).wheel
      && Offered(old(Abs()), t.Value()) == Offering(offer) && (offer != null ==> offer in Store)
      && (if ok then Backs(Store, t) else t.b == old(t.b))
    }

    /** `add` up to its last step: says which bucket, if any, is to be offered before it returns. */
    method Insert(t: Timer) returns (ok: bool, offer: Bucket?)
      requires Abs().Wheel? && LinkedAll(Store, queue.Held) && Free(Store, t)
      modifies Levels, Store, queue`Held, t
      ensures Inserted(t, ok, offer)
      decreases WheelSpec.Beyond(Abs(), t.expiration), 3
    {
      InsertCases(Abs(), t.Value());
      hide WheelSpec.Add, WheelSpec.Clocked, WheelSpec.Beyond, Abs, LinkedAll, Framed, AbsBuckets;
      if t.expiration < currentTime + tick {
        return false, null;
      } else if t.expiration < currentTime + interval {
        offer := Place(t);
        return true, offer;
      } else {
        ok, offer := InsertOver(t);
      }
    }

    /** Inserts `t` into this wheel or its overflow wheel; false if it is already due. */
    method Add(t: Timer) returns (ok: bool)
      requires Abs().Wheel? && queue.Abs().Sound? && LinkedAll(Store, queue.Held) && Free(Store, t)
      modifies Levels, Store, queue`Held, queue`Sent, queue.pq, queue.pq.pq, queue.pq.Pool, t
      ensures queue.Fresh() && Extended() && Grown(old(Store), t) && LinkedAll(Store, queue.Held)
      ensures queue.Sent <= old(queue.Sent) + Store && queue.Held <= old(queue.Held) + {t}
      ensures ok == WheelSpec.Add(old(Abs()), t.Value()).ok
      ensures Abs() == WheelSpec.Add(old(Abs()), t.Value()).wheel
      ensures queue.Abs() == Sound(old(queue.Abs()).entries + Offered(old(Abs()), t.Value()))
      ensures if ok then Backs(Store, t) else t.b == old(t.b)
    {
      hide WheelSpec.Add, WheelSpec.Clocked, Abs, LinkedAll, Framed, AbsBuckets, DelayQueue.Abs;
      var offer;
      ok, offer := Insert(t);
      if offer != null {
        queue.Offer(offer, offer.expiration);
      }
    }

    /** Moves the clocks of this wheel and, as far as needed, of its overflow wheels. */
    method AdvanceClock(expiration: int)
      requires Abs().Wheel? && expiration >= 0
      modifies Levels
      ensures Levels == old(Levels) && Store == old(Store)
      ensures Abs() == WheelSpec.AdvanceClock(old(Abs()), expiration)
      decreases Levels
    {
      ghost var w := Abs();
      WheelSpec.AdvanceClocked(w, expiration);
      if expiration >= currentTime + tick {
        TruncateFloor(expiration, tick);
        ghost var level := AbsBuckets(buckets);
        currentTime := Truncate(expiration, tick);
        if overflowWheel != null {
          assert overflowWheel.Abs() == w.overflow;
          overflowWheel.AdvanceClock(currentTime);
        }
        assert AbsBuckets(buckets) == level;
      }
    }

    /** The chain has the geometry of `w`, whatever its buckets hold. */
    ghost predicate Matches(w: WheelSpec.Wheel)
      reads this, Levels
      decreases Levels
    {
      && Framed() && w.Wheel?
      && w.tick == tick && w.wheelSize == wheelSize && w.interval == interval && w.currentTime == currentTime
      && |w.buckets| == |buckets|
      && (overflowWheel == null <==> w.overflow.NoWheel?)
      && (overflowWheel != null ==> overflowWheel.Matches(w.overflow))
    }

    lemma {:induction false} AbsMatches()
      requires Abs().Wheel?
      ensures Matches(Abs())
      decreases Levels
    {
      if overflowWheel != null { overflowWheel.AbsMatches(); }
    }

    /** A bucket of the chain is found in the value under its tick and index. */
    lemma {:induction false} Tags(w: WheelSpec.Wheel, b: Bucket)
      requires WheelSpec.Clocked(w) && Matches(w) && b in Store
      ensures WheelSpec.HasBucket(w, b.tick, b.index) && tick <= b.tick
      ensures b in OwnSet() ==> b.tick == tick && 0 <= b.index < |buckets| && buckets[b.index] == b
                                && WheelSpec.BucketAt(w, b.tick, b.index) == w.buckets[b.index]
      ensures b !in OwnSet() ==> overflowWheel != null && b in overflowWheel.Store && tick < b.tick
                                 && WheelSpec.HasBucket(w.overflow, b.tick, b.index)
                                 && WheelSpec.BucketAt(w, b.tick, b.index) == WheelSpec.BucketAt(w.overflow, b.tick, b.index)
      decreases Levels
    {
      if b in OwnSet() {
        var i :| 0 <= i < |buckets| && buckets[i] == b;
      } else {
        overflowWheel.Tags(w.overflow, b);
      }
    }

    /** The buckets outside `skip` hold what `w` says. */
    ghost predicate Agrees(w: WheelSpec.Wheel, skip: set<Bucket>)
      reads this, Store
    {
      forall b <- Store - skip :: WheelSpec.HasBucket(w, b.tick, b.index) && WheelSpec.BucketAt(w, b.tick, b.index) == b.Abs()
    }

    lemma {:induction false} AbsAgrees()
      requires Abs().Wheel?
      ensures Matches(Abs()) && Agrees(Abs(), {})
      decreases Levels
    {
      AbsMatches();
      forall b <- Store ensures WheelSpec.HasBucket(Abs(), b.tick, b.index) && WheelSpec.BucketAt(Abs(), b.tick, b.index) == b.Abs() {
        Tags(Abs(), b);
        if b !in OwnSet() { overflowWheel.AbsAgrees(); }
      }
    }

    /** A bucket of the chain is where its tags say. */
    lemma Found(b: Bucket)
      requires State().Some? && b in Store
      ensures var w := State().value.wheel;
              WheelSpec.HasBucket(w, b.tick, b.index) && WheelSpec.BucketAt(w, b.tick, b.index) == b.Abs()
    {
      AbsAgrees();
    }

    /** Each bucket of the value is one of the chain. */
    lemma {:induction false} BucketThere(w: WheelSpec.Wheel, tick: int, i: int) returns (b: Bucket)
      requires WheelSpec.Clocked(w) && Matches(w) && WheelSpec.HasBucket(w, tick, i)
      ensures b in Store && b.tick == tick && b.index == i
      decreases Levels
    {
      if tick == w.tick && 0 <= i < |w.buckets| { b := buckets[i]; } else { b := overflowWheel.BucketThere(w.overflow, tick, i); }
    }

    /** Geometry and buckets determine the value. */
    lemma {:induction false} AbsUnique(w: WheelSpec.Wheel)
      requires WheelSpec.Clocked(w) && Matches(w) && Agrees(w, {})
      ensures Abs() == w
      decreases Levels
    {
      forall i | 0 <= i < |buckets| ensures AbsBuckets(buckets)[i] == w.buckets[i] {
        assert buckets[i] in OwnSet();
        Tags(w, buckets[i]);
      }
      assert AbsBuckets(buckets) == w.buckets;
      if overflowWheel != null {
        forall b <- overflowWheel.Store
          ensures WheelSpec.HasBucket(w.overflow, b.tick, b.index) && WheelSpec.BucketAt(w.overflow, b.tick, b.index) == b.Abs()
        {
          Tags(w, b);
        }
        overflowWheel.AbsUnique(w.overflow);
      }
    }

    lemma {:induction false} MatchesWith(w: WheelSpec.Wheel, b: Bucket, v: WheelSpec.Bucket)
      requires WheelSpec.Clocked(w) && Matches(w) && b in Store && WheelSpec.HasBucket(w, b.tick, b.index)
      ensures Matches(WheelSpec.WithBucket(w, b.tick, b.index, v))
      decreases Levels
    {
      Tags(w, b);
      if b !in OwnSet() { overflowWheel.MatchesWith(w.overflow, b, v); }
    }

    /** Different buckets have different tags. */
    lemma {:induction false} TagsUnique(w: WheelSpec.Wheel, b: Bucket, c: Bucket)
      requires WheelSpec.Clocked(w) && Matches(w) && b in Store && c in Store
      requires b.tick == c.tick && b.index == c.index
      ensures b == c
      decreases Levels
    {
      Tags(w, b);
      Tags(w, c);
      if b !in OwnSet() && c !in OwnSet() { overflowWheel.TagsUnique(w.overflow, b, c); }
    }

    /** When only `b` differs from `w`, the value is `w` with that bucket replaced. */
    lemma AbsWith(w: WheelSpec.Wheel, b: Bucket)
      requires WheelSpec.Clocked(w) && Matches(w) && b in Store && Agrees(w, {b})
      ensures WheelSpec.HasBucket(w, b.tick, b.index) && Abs() == WheelSpec.WithBucket(w, b.tick, b.index, b.Abs())
    {
      Tags(w, b);
      MatchesWith(w, b, b.Abs());
      var w' := WheelSpec.WithBucket(w, b.tick, b.index, b.Abs());
      forall c <- Store ensures WheelSpec.HasBucket(w', c.tick, c.index) && WheelSpec.BucketAt(w', c.tick, c.index) == c.Abs() {
        if c != b {
          if b.tick == c.tick && b.index == c.index { TagsUnique(w, b, c); }
          assert c in Store - {b};
          WheelSpec.OtherBucket(w, b.tick, b.index, b.Abs(), c.tick, c.index);
        }
      }
      AbsUnique(w');
    }

    /** `Remove` on a bucket of the chain: only that bucket changes. */
    method UnlinkHere(b: Bucket, t: Timer) returns (ghost pos: int)
      requires Abs().Wheel? && LinkedAll(Store, queue.Held) && b in Store && t in b.timers
      modifies b`timers, t
      ensures LinkedAll(Store, queue.Held) && Free(Store, t) && t.b == null && old(t.b) == b
      ensures 0 <= pos < |old(b.timers)| && old(b.timers)[pos] == t
      ensures b.timers == old(b.timers)[..pos] + old(b.timers)[pos + 1..]
      ensures WheelSpec.HasBucket(old(Abs()), b.tick, b.index)
      ensures WheelSpec.BucketAt(old(Abs()), b.tick, b.index) == old(b.Abs())
      ensures Abs() == WheelSpec.WithBucket(old(Abs()), b.tick, b.index, b.Abs())
    {
      hide Abs;
      ghost var w := Abs();
      AbsAgrees();
      assert WheelSpec.BucketAt(w, b.tick, b.index) == b.Abs();
      var removed := b.Remove(t);
      pos :| 0 <= pos < |old(b.timers)| && old(b.timers)[pos] == t && b.timers == old(b.timers)[..pos] + old(b.timers)[pos + 1..];
      AbsWith(w, b);
    }

    /** Lists and back pointers agree, both ways. */
    ghost predicate Lists()
      reads this`Store, Store, queue`Held, queue.Held
    {
      LinkedAll(Store, queue.Held) && Backed(Store, queue.Held)
    }

    /** Unlinks `t` from the bucket that holds it. */
    method Unlink(b: Bucket, t: Timer) returns (ghost pos: int)
      requires State().Some? && Lists() && b in Store && t in b.timers
      modifies b`timers, t
      ensures Lists() && Free(Store, t) && t.b == null
      ensures 0 <= pos < |old(b.timers)| && old(b.timers)[pos] == t
      ensures b.timers == old(b.timers)[..pos] + old(b.timers)[pos + 1..]
      ensures WheelSpec.HasBucket(old(Abs()), b.tick, b.index)
      ensures WheelSpec.BucketAt(old(Abs()), b.tick, b.index) == old(b.Abs())
      ensures State() == Some(WheelSpec.StopAt(old(State()).value, b.tick, b.index, pos))
    {
      hide Abs, DelayQueue.Abs, LinkedAll, Free;
      ghost var entries := queue.Abs();
      pos := UnlinkHere(b, t);
      OthersStay(old(b.timers), b.timers, pos);
      StillBacked(t);
      assert queue.Abs() == entries;
      ValuesCut(old(b.timers), pos);
    }

    /** Taking `t` out of its bucket leaves all others where they point. */
    twostate lemma StillBacked(t: Timer)
      requires old(Backed(Store, queue.Held)) && Store == old(Store) && queue.Held == old(queue.Held) && old(t.b) != null && t.b == null
      requires forall x <- old(t.b.timers) | x != t :: x in old(t.b).timers
      requires (forall x <- Store | x != old(t.b) :: x.timers == old(x.timers)) && forall x <- queue.Held | x != t :: x.b == old(x.b)
      ensures Backed(Store, queue.Held)
    {
      forall x <- queue.Held | x.b != null ensures Backs(Store, x) { assert old(Backs(Store, x)); }
    }

    /** Inserts `t`, or starts its task if it is already due. */
    method AddOrRun(t: Timer)
      requires State().Some? && Lists() && Free(Store, t) && t.b == null
      modifies Levels, Store, queue`Held, queue`Sent, queue.pq, queue.pq.pq, queue.pq.Pool, runner, t
      ensures queue.Fresh() && Lists() && Grown(old(Store), t) && Extended()
      ensures queue.Sent <= old(queue.Sent) + Store && queue.Held <= old(queue.Held) + {t}
      ensures State() == Some(WheelSpec.AddOrRun(old(State()).value, t.Value()))
      ensures t.b != null <==> WheelSpec.Add(old(State()).value.wheel, t.Value()).ok
    {
      hide WheelSpec.Add, WheelSpec.Clocked, Abs, LinkedAll, Backed, DelayQueue.Abs, Framed, AbsBuckets, Grown;
      ghost var started := runner.started;
      var ok := Add(t);
      MoreBacked(t);
      if !ok {
        runner.Go(t);
        assert Values(started + [t]) == Values(started) + [t.Value()];
      }
    }

    /** A timer more leaves all others where they point. */
    twostate lemma MoreBacked(t: Timer)
      requires old(Backed(Store, queue.Held)) && old(Store) <= Store && queue.Held <= old(queue.Held) + {t}
      requires Grown(old(Store), t) && (forall x <- old(queue.Held) | x != t :: x.b == old(x.b)) && (t.b != null ==> Backs(Store, t))
      ensures Backed(Store, queue.Held)
    {
      forall x <- queue.Held | x.b != null ensures Backs(Store, x) {
        if x != t { assert old(Backs(Store, x)); }
      }
    }

    lemma TimersHeld(b: Bucket)
      requires Lists() && b in Store
      ensures Distinct(b.timers) && forall t <- b.timers :: t in queue.Held
    {}

    /** One iteration of `Flush`: the front timer is removed and re-inserted through this, the base, wheel. */
    method Reinsert(b: Bucket)
      requires State().Some? && Lists() && b in Store && b.timers != []
      requires WheelStep.Flushing(State().value, EntryFor(b))
      modifies Levels, Store, queue`Held, queue`Sent, queue.pq, queue.pq.pq, queue.pq.Pool, runner, b.timers[0]
      ensures queue.Fresh() && Lists() && Extended() && queue.Sent <= old(queue.Sent) + Store && queue.Held == old(queue.Held)
      ensures b.timers == old(b.timers)[1..] && b.expiration == old(b.expiration)
      ensures State() == Some(WheelSpec.AddOrRun(WheelSpec.TakeFirst(old(State()).value, b.tick, b.index), old(b.timers[0].Value())))
      ensures WheelStep.Flushing(State().value, EntryFor(b))
    {
      hide Abs, State, DelayQueue.Abs, WheelSpec.AddOrRun, WheelSpec.Clocked, WheelStep.Flushing, WheelSpec.BucketAt,
           WheelSpec.HasBucket, WheelSpec.TakeFirst, WheelSpec.StopAt, Lists, Free;
      var t := b.timers[0];
      ghost var s, e := State().value, EntryFor(b);
      Found(b);
      FlushStep(s, e);
      TimersHeld(b);
      ghost var pos := Unlink(b, t);
      assert pos == 0 && b.timers == old(b.timers)[1..];
      AddOrRun(t);
      Found(b);
      assert |b.timers| == |Values(b.timers)| == |old(b.timers)| - 1;
    }

    /** Marks a bucket of the chain as not queued. */
    method Retire(b: Bucket)
      requires State().Some? && Lists() && b in Store
      modifies b`expiration
      ensures Lists() && WheelSpec.HasBucket(old(State()).value.wheel, b.tick, b.index)
      ensures var s, v := old(State()).value, old(b.Abs());
              State() == Some(s.(wheel := WheelSpec.WithBucket(s.wheel, b.tick, b.index, v.(expiration := -1))))
      ensures WheelSpec.BucketAt(old(State()).value.wheel, b.tick, b.index) == old(b.Abs())
    {
      hide Abs, DelayQueue.Abs;
      ghost var w := Abs();
      AbsAgrees();
      assert queue.Abs() == old(queue.Abs());
      assert WheelSpec.BucketAt(w, b.tick, b.index) == b.Abs();
      var changed := b.SetExpiration(-1);
      AbsWith(w, b);
    }

    /** The body of the loop of `Flush`: what remains of the flush stays the same. */
    method FlushNext(b: Bucket, ghost e: WheelSpec.Entry)
      requires State().Some? && Lists() && b in Store && b.timers != []
      requires e == EntryFor(b) && WheelStep.Flushing(State().value, e)
      modifies Levels, Store, queue`Held, queue`Sent, queue.pq, queue.pq.pq, queue.pq.Pool, runner, b.timers[0]
      ensures queue.Fresh() && Lists() && Extended() && queue.Sent <= old(queue.Sent) + Store && queue.Held == old(queue.Held)
      ensures b.timers == old(b.timers)[1..] && b.expiration == old(b.expiration)
      ensures State().Some? && WheelStep.Flushing(State().value, e)
      ensures Flushed(State().value, e, Values(b.timers)) == old(Flushed(State().value, e, Values(b.timers)))
    {
      Found(b);
      FlushedStep(State().value, e, Values(b.timers));
      assert Values(b.timers)[1..] == Values(b.timers[1..]);
      hide Abs, State, DelayQueue.Abs, Lists, Flushed, WheelStep.Flushing, WheelSpec.AddOrRun, WheelSpec.TakeFirst,
           WheelSpec.Clocked, WheelSpec.BucketAt, WheelSpec.HasBucket;
      Reinsert(b);
    }

    /** The loop of `Flush`. */
    method FlushTimers(b: Bucket)
      requires State().Some? && Lists() && b in Store
      requires WheelStep.Flushing(State().value, EntryFor(b))
      modifies Levels, Store, queue`Held, queue`Sent, queue.pq, queue.pq.pq, queue.pq.Pool, runner, b.timers
      ensures queue.Fresh() && Lists() && Extended() && queue.Sent <= old(queue.Sent) + Store && queue.Held == old(queue.Held)
      ensures b.timers == [] && b.expiration == old(b.expiration)
      ensures State() == Some(Flushed(old(State()).value, EntryFor(b), Values(old(b.timers))))
      ensures WheelStep.Flushing(State().value, EntryFor(b))
    {
      var captured := b.timers;
      ghost var s, e := State().value, EntryFor(b);
      var k := 0;
      while k < |captured|
        invariant 0 <= k <= |captured| && b in Store && b.timers == captured[k..] && b.expiration == old(b.expiration)
        invariant queue.Fresh() && Lists() && Extended()
        invariant queue.Sent <= old(queue.Sent) + Store && queue.Held == old(queue.Held)
        invariant State().Some? && WheelStep.Flushing(State().value, e)
        invariant Flushed(State().value, e, Values(b.timers)) == Flushed(s, e, Values(captured))
      {
        FlushNext(b, e);
        k := k + 1;
      }
      FlushedNil(State().value, e);
    }

    /** Empties an expired bucket: each timer runs or moves to a lower wheel; then the bucket is idle. */
    method Flush(b: Bucket)
      requires State().Some? && Lists() && b in Store
      requires WheelStep.Flushing(State().value, EntryFor(b))
      modifies Levels, Store, queue`Held, queue`Sent, queue.pq, queue.pq.pq, queue.pq.Pool, runner, b.timers
      ensures queue.Fresh() && Lists() && Extended() && queue.Sent <= old(queue.Sent) + Store && queue.Held == old(queue.Held)
      ensures State() == Some(WheelSpec.Flush(old(State()).value, b.tick, b.index))
    {
      Found(b);
      FlushIs(State().value, EntryFor(b));
      hide Abs, State, DelayQueue.Abs, Lists, Flushed, WheelStep.Flushing, WheelSpec.Clocked, WheelSpec.BucketAt,
           WheelSpec.HasBucket, WheelSpec.Flush, WheelSpec.WithBucket;
      FlushTimers(b);
      Retire(b);
    }

    /** All the invariants between calls. */
    ghost predicate Idle()
      reads this, Levels, Store, queue, queue.Held, queue.pq, queue.pq.pq, queue.pq.Pool, runner
    {
      && State().Some? && Lists() && queue.Sent <= Store
      && WheelInvariant.Inv(State().value)
    }

    /** The consumer's work on a bucket that has just left the queue. */
    method Expire(b: Bucket, ghost s: WheelSpec.State)
      requires State().Some? && Lists() && b in Store
      requires WheelInvariant.Inv(s) && EntryFor(b) in s.queue && WheelInvariant.NotBefore(s.queue, b.expiration)
      requires State().value == s.(queue := s.queue - multiset{EntryFor(b)})
      modifies Levels, Store, queue`Held, queue`Sent, queue.pq, queue.pq.pq, queue.pq.Pool, runner, b.timers
      ensures queue.Fresh() && Lists() && Extended() && queue.Sent <= old(queue.Sent) + Store && queue.Held == old(queue.Held)
      ensures WheelSpec.Poppable(s, old(EntryFor(b))) && State() == Some(WheelSpec.Step(s, old(EntryFor(b))))
    {
      ghost var e := EntryFor(b);
      StepIs(s, e);
      Advance(b.expiration);
      hide Abs, State, DelayQueue.Abs, Lists, WheelStep.Flushing, WheelSpec.Clocked, WheelSpec.BucketAt,
           WheelSpec.HasBucket, WheelSpec.Flush, WheelSpec.Step, WheelInvariant.Inv;
      Flush(b);
    }

    /** `advanceClock` within the whole state. */
    method Advance(expiration: int)
      requires State().Some? && Lists() && expiration >= 0
      modifies Levels
      ensures Levels == old(Levels) && Store == old(Store) && Lists()
      ensures var s := old(State()).value; State() == Some(s.(wheel := WheelSpec.AdvanceClock(s.wheel, expiration)))
    {
      ghost var w := Abs();
      WheelSpec.AdvanceClocked(w, expiration);
      AdvanceClock(expiration);
    }

    /** The rest of the consumer step, once the bucket `b` of entry `e` has been taken off the queue in state `s`. */
    method Consume(b: Bucket, ghost s: WheelSpec.State, ghost e: WheelSpec.Entry)
      requires State().Some? && Lists() && b in Store && queue.Sent <= Store
      requires WheelInvariant.Inv(s) && e in s.queue && WheelInvariant.NotBefore(s.queue, e.expiration)
      requires e.tick == b.tick && e.index == b.index && State().value == s.(queue := s.queue - multiset{e})
      modifies Levels, Store, queue`Held, queue`Sent, queue.pq, queue.pq.pq, queue.pq.Pool, runner, queue.Held
      ensures queue.Fresh() && Idle() && Extended() && queue.Held == old(queue.Held)
      ensures WheelSpec.Poppable(s, e) && State() == Some(WheelSpec.Step(s, e))
    {
      PoppedBucket(b, s, e);
      WheelStep.StepInv(s, e);
      Expire(b, s);
    }

    /** The head of the queue, if due, is popped and its bucket expires. */
    method Poll(now: int) returns (popped: bool, ghost e: WheelSpec.Entry)
      requires Idle()
      modifies Levels, Store, queue`Held, queue`Sent, queue.pq, queue.pq.pq, queue.pq.Pool, runner, queue.Held
      ensures queue.Fresh() && Idle() && Extended() && queue.Held == old(queue.Held)
      ensures !popped ==> State() == old(State()) && WheelInvariant.NotBefore(State().value.queue, now + 1)
      ensures popped ==>
                var s := old(State()).value;
                && e in s.queue && e.expiration <= now && WheelInvariant.NotBefore(s.queue, e.expiration)
                && WheelSpec.Poppable(s, e) && State() == Some(WheelSpec.Step(s, e))
    {
      hide Abs, Lists, WheelInvariant.Inv, WheelSpec.Step, WheelSpec.Poppable;
      ghost var s := State().value;
      var b;
      b, e := queue.Shift(now);
      popped := b != null;
      if popped {
        Consume(b, s, e);
      } else {
        assert State() == old(State());
      }
    }

    /** The bucket behind a popped entry carries its priority. */
    lemma PoppedBucket(b: Bucket, s: WheelSpec.State, e: WheelSpec.Entry)
      requires State().Some? && Lists() && b in Store && WheelInvariant.Inv(s) && e in s.queue
      requires State().value.wheel == s.wheel && e.tick == b.tick && e.index == b.index
      ensures EntryFor(b) == e
      ensures forall t <- b.timers :: t in queue.Held
    {
      Found(b);
      WheelStep.QueuedBucket(s, e);
    }

    /** Lets time reach `now`: pops until the head of the queue lies beyond it. */
    method Drain(now: int) returns (ghost pops: seq<WheelSpec.Entry>)
      requires Idle()
      modifies Levels, Store, queue`Held, queue`Sent, queue.pq, queue.pq.pq, queue.pq.Pool, runner, queue.Held
      ensures Idle() && Extended()
      ensures WheelRefinement.Drained(old(State()).value, now, pops, State().value)
    {
      hide Abs, State, Lists, WheelInvariant.Inv, WheelSpec.Step, WheelSpec.Poppable;
      ghost var s, e := State().value, WheelSpec.Entry(0, 0, 0);
      pops := [];
      var more := true;
      while more
        invariant queue.Fresh() && Idle() && Extended() && queue.Held == old(queue.Held)
        invariant WheelRefinement.Popped(s, now, pops, State().value)
        invariant !more ==> WheelInvariant.NotBefore(State().value.queue, now + 1)
        decreases WheelInvariant.Weight(State().value.wheel), |State().value.queue|, more
      {
        ghost var s1 := State().value;
        more, e := Poll(now);
        if more {
          WheelStep.StepInv(s1, e);
          WheelRefinement.PoppedMore(s, now, pops, s1, e);
          pops := pops + [e];
        }
      }
      WheelRefinement.PoppedAll(s, now, pops, State().value);
    }

    /** Sets a timer for the given instant. */
    method AfterFunc(expiration: int, task: nat) returns (t: Timer)
      requires Idle()
      modifies Levels, Store, queue`Held, queue`Sent, queue.pq, queue.pq.pq, queue.pq.Pool, runner
      ensures fresh(t) && t.Value() == WheelSpec.Timer(task, expiration) && (t.b != null <==> expiration >= old(currentTime) + tick)
      ensures Idle() && queue.Fresh() && Extended() && queue.Held == old(queue.Held) + {t}
      ensures WheelRefinement.Next(old(State()).value, WheelRefinement.AfterFunc(t.Value()), State().value)
    {
      hide Lists, Abs, State, Idle, WheelRefinement.Next;
      t := new Timer(expiration, task);
      IdleState();
      Hold(t);
      SetHeld(t);
    }

    lemma IdleState()
      requires Idle()
      ensures State().Some? && WheelInvariant.Inv(State().value)
      ensures State().value.wheel.currentTime == currentTime && State().value.wheel.tick == tick
    {}

    /** Inserts a timer that is known. */
    method SetHeld(t: Timer)
      requires Idle() && Free(Store, t) && t.b == null && t in queue.Held
      modifies Levels, Store, queue`Held, queue`Sent, queue.pq, queue.pq.pq, queue.pq.Pool, runner, t
      ensures Idle() && queue.Fresh() && Extended() && queue.Held == old(queue.Held)
      ensures old(State()).Some? && State().Some? && old(State()).value.wheel.Wheel?
      ensures WheelRefinement.Next(old(State()).value, WheelRefinement.AfterFunc(t.Value()), State().value)
      ensures t.b != null <==> t.expiration >= old(State()).value.wheel.currentTime + old(State()).value.wheel.tick
    {
      hide Lists, Abs, State, WheelInvariant.Inv, WheelSpec.AddOrRun, WheelSpec.Add;
      IdleState();
      AfterFuncInv(State().value, t.Value());
      AddOrRun(t);
    }

    /** A timer that was set points to a bucket of the wheel, if to any. */
    lemma HeldBacked(t: Timer)
      requires Idle() && t in queue.Held
      ensures t.b != null ==> t.b in Store && t in t.b.timers
    {
      assert t.b != null ==> Backs(Store, t);
    }

    /** A new timer is known from now on. */
    ghost method Hold(t: Timer)
      requires Idle() && t.b == null && t !in queue.Held
      modifies queue`Held
      ensures Idle() && State() == old(State()) && Free(Store, t) && queue.Held == old(queue.Held) + {t}
    {
      hide Abs, WheelInvariant.Inv, DelayQueue.Abs;
      queue.Held := queue.Held + {t};
    }

    /** The value holds a timer exactly when a bucket holds some object with that task and expiration. */
    lemma ObjectsHeld(v: WheelSpec.Timer)
      requires Idle()
      ensures v in WheelInvariant.Timers(State().value.wheel) <==> exists u <- queue.Held :: u.b != null && u.Value() == v
    {
      if v in WheelInvariant.Timers(State().value.wheel) { var u := HolderOf(v); }
      forall u <- queue.Held | u.b != null && u.Value() == v ensures v in WheelInvariant.Timers(State().value.wheel) { ValueHeld(u); }
    }

    lemma HolderOf(v: WheelSpec.Timer) returns (u: Timer)
      requires Idle() && v in WheelInvariant.Timers(State().value.wheel)
      ensures u in queue.Held && u.b != null && u.Value() == v
    {
      var w := State().value.wheel;
      AbsAgrees();
      hide Abs, WheelInvariant.Timers;
      var tick, i := WheelRefinement.Holder(w, v);
      var b := BucketThere(w, tick, i);
      assert WheelSpec.BucketAt(w, b.tick, b.index) == b.Abs();
      var pos :| 0 <= pos < |Values(b.timers)| && Values(b.timers)[pos] == v;
      u := b.timers[pos];
      assert u in b.timers;
    }

    lemma ValueHeld(u: Timer)
      requires Idle() && u in queue.Held && u.b != null
      ensures u.Value() in WheelInvariant.Timers(State().value.wheel)
    {
      assert Backs(Store, u);
      Found(u.b);
      var pos :| 0 <= pos < |u.b.timers| && u.b.timers[pos] == u;
      StopNext(State().value, u.b.tick, u.b.index, pos, u.Value());
    }

    /** `t.Stop()` of a timer that was set: true iff a bucket still holds it; then it never runs. */
    method Stop(t: Timer) returns (stopped: bool)
      requires Idle() && t in queue.Held
      modifies t, t.b
      ensures Idle() && stopped == (old(t.b) != null) && queue.Held == old(queue.Held)
      ensures !stopped ==> State() == old(State())
      ensures stopped ==> WheelRefinement.Next(old(State()).value, WheelRefinement.Stop(t.Value(), true), State().value)
      ensures !stopped ==>
                (WheelRefinement.Next(old(State()).value, WheelRefinement.Stop(t.Value(), false), State().value)
                 <==> forall u <- queue.Held | u.b != null :: u.Value() != t.Value())
    {
      ghost var s := State().value;
      stopped := false;
      var b := t.b;
      assert b != null ==> Backs(Store, t);
      while b != null
        invariant b == t.b && Idle()
        invariant b != null ==> !stopped && b == old(t.b) && b in Store && t in b.timers
        invariant b == null ==> stopped == (old(t.b) != null)
        invariant !stopped ==> State() == old(State())
        invariant stopped ==> WheelRefinement.Next(s, WheelRefinement.Stop(t.Value(), true), State().value)
        decreases b != null
      {
        Found(b);
        ghost var pos := Unlink(b, t);
        StopNext(s, b.tick, b.index, pos, t.Value());
        stopped := true;
        b := t.b;
      }
      ObjectsHeld(t.Value());
    }

    /** The wheel, its queue and its log as a value. */
    ghost function State(): Option<WheelSpec.State>
      reads this, Levels, Store, queue`Sent, queue.pq, queue.pq.pq, queue.pq.Pool, runner
    {
      if Abs().Wheel? && queue.Abs().Sound? then Some(WheelSpec.State(Abs(), queue.Abs().entries, Values(runner.started)))
      else None
    }
  }

  /** A wheel with its queue, ready for use: the initial state of every run. */
  method NewTimingWheel(tick: int, wheelSize: int, start: int) returns (w: TimingWheel)
    requires tick >= 1 && wheelSize >= 2 && start >= 0
    ensures fresh(w) && w.Idle() && w.queue.Held == {} && w.tick == tick
    ensures w.State() == Some(WheelRefinement.Initial(tick, wheelSize, start))
  {
    var queue := new DelayQueue(wheelSize);
    var runner := new Runner();
    w := new TimingWheel(tick, wheelSize, start, queue, runner);
    WheelRefinement.InitialReachable(tick, wheelSize, start);
    assert queue.Abs() == Sound(multiset{});
  }

  /** Setting a timer and stopping it at once: it is stopped exactly when it was not yet due, and then never starts. */
  method SetAndStop(w: TimingWheel, expiration: int, task: nat) returns (stopped: bool)
    requires w.Idle()
    modifies w.Levels, w.Store, w.queue`Held, w.queue`Sent, w.queue.pq, w.queue.pq.pq, w.queue.pq.Pool, w.runner
    ensures w.Idle() && stopped == (expiration >= old(w.currentTime) + w.tick)
    ensures stopped ==> w.State().value.fired == old(w.State().value.fired)
  {
    hide TimingWheel.Lists, TimingWheel.Abs, DelayQueue.Abs, WheelInvariant.Inv, WheelRefinement.Next, WheelSpec.AddOrRun;
    ghost var s := w.State().value;
    var t := w.AfterFunc(expiration, task);
    ghost var s1 := w.State().value;
    w.HeldBacked(t);
    stopped := w.Stop(t);
    FiresNone(s, t.Value(), s1);
    if stopped { StopFiresNone(s1, t.Value(), w.State().value); }
  }

  lemma FiresNone(s: WheelSpec.State, t: WheelSpec.Timer, s': WheelSpec.State)
    requires WheelInvariant.Inv(s) && WheelRefinement.Next(s, WheelRefinement.AfterFunc(t), s')
    ensures t.expiration >= s.wheel.currentTime + s.wheel.tick ==> s'.fired == s.fired
  {
    AfterFuncInv(s, t);
  }

  lemma StopFiresNone(s: WheelSpec.State, t: WheelSpec.Timer, s': WheelSpec.State)
    requires s.wheel.Wheel? && WheelRefinement.Next(s, WheelRefinement.Stop(t, true), s')
    ensures s'.fired == s.fired
  {}

  /** One iteration of the flush loop, in terms of WheelStep. */
  lemma FlushStep(s: WheelSpec.State, e: WheelSpec.Entry)
    requires WheelStep.Flushing(s, e) && WheelSpec.BucketAt(s.wheel, e.tick, e.index).timers != []
    ensures var b := WheelSpec.BucketAt(s.wheel, e.tick, e.index);
            var s1 := WheelSpec.TakeFirst(s, e.tick, e.index);
            && WheelSpec.Clocked(s1.wheel) && s1.wheel.Wheel?
            && s1 == WheelSpec.StopAt(s, e.tick, e.index, 0)
            && var s2 := WheelSpec.AddOrRun(s1, b.timers[0]);
            && WheelStep.Flushing(s2, e)
            && WheelSpec.BucketAt(s2.wheel, e.tick, e.index) == b.(timers := b.timers[1..])
  {
    var b := WheelSpec.BucketAt(s.wheel, e.tick, e.index);
    assert b.timers[..0] + b.timers[1..] == b.timers[1..];
    WheelInvariant.BucketAtOK(s.wheel, e.tick, e.index);
    WheelStep.TakeFirstInv(s, e);
    WheelStep.FlushOne(WheelSpec.TakeFirst(s, e.tick, e.index), e, b.timers[0]);
  }

  /** The flush loop as a total function. */
  ghost function Flushed(s: WheelSpec.State, e: WheelSpec.Entry, vs: seq<WheelSpec.Timer>): WheelSpec.State {
    if WheelStep.Flushing(s, e) then WheelSpec.FlushLoop(s, e.tick, e.index, vs) else s
  }

  lemma FlushedNil(s: WheelSpec.State, e: WheelSpec.Entry)
    ensures Flushed(s, e, []) == s
  {}

  lemma FlushedStep(s: WheelSpec.State, e: WheelSpec.Entry, vs: seq<WheelSpec.Timer>)
    requires WheelStep.Flushing(s, e) && vs != [] && WheelSpec.BucketAt(s.wheel, e.tick, e.index).timers == vs
    ensures WheelSpec.Clocked(WheelSpec.TakeFirst(s, e.tick, e.index).wheel)
    ensures Flushed(s, e, vs) == Flushed(WheelSpec.AddOrRun(WheelSpec.TakeFirst(s, e.tick, e.index), vs[0]), e, vs[1..])
  {
    FlushStep(s, e);
  }

  /** `Flush` is the loop followed by retiring the bucket. */
  lemma FlushIs(s: WheelSpec.State, e: WheelSpec.Entry)
    requires WheelStep.Flushing(s, e)
    ensures var vs := WheelSpec.BucketAt(s.wheel, e.tick, e.index).timers;
            var s' := Flushed(s, e, vs);
            && WheelSpec.HasBucket(s'.wheel, e.tick, e.index)
            && WheelSpec.Flush(s, e.tick, e.index) ==
               s'.(wheel := WheelSpec.WithBucket(s'.wheel, e.tick, e.index, WheelSpec.BucketAt(s'.wheel, e.tick, e.index).(expiration := -1)))
  {}

  /** The consumer step after the pop, and what its flush may rely on. */
  lemma StepIs(s: WheelSpec.State, e: WheelSpec.Entry)
    requires WheelInvariant.Inv(s) && e in s.queue && WheelInvariant.NotBefore(s.queue, e.expiration)
    ensures e.expiration >= 0 && WheelSpec.Poppable(s, e)
    ensures var s1 := WheelSpec.State(WheelSpec.AdvanceClock(s.wheel, e.expiration), s.queue - multiset{e}, s.fired);
            WheelStep.Flushing(s1, e) && WheelSpec.Step(s, e) == WheelSpec.Flush(s1, e.tick, e.index)
  {
    WheelStep.QueuedBucket(s, e);
    WheelStep.Advanced(s, e);
  }

  lemma AfterFuncInv(s: WheelSpec.State, t: WheelSpec.Timer)
    requires WheelInvariant.Inv(s)
    ensures WheelInvariant.Inv(WheelSpec.AddOrRun(s, t))
    ensures WheelSpec.Add(s.wheel, t).ok <==> t.expiration >= s.wheel.currentTime + s.wheel.tick
  {
    WheelInvariant.AddInv(s.wheel, t);
    WheelStep.AddedQueue(s, [], t);
    var r := WheelSpec.Add(s.wheel, t);
    forall e <- WheelSpec.AddOrRun(s, t).queue ensures s.wheel.currentTime <= e.expiration {
      if e !in s.queue { assert e in r.offered; }
    }
  }

  lemma StopNext(s: WheelSpec.State, tick: int, i: int, pos: int, t: WheelSpec.Timer)
    requires WheelInvariant.Inv(s) && WheelSpec.HasBucket(s.wheel, tick, i)
    requires 0 <= pos < |WheelSpec.BucketAt(s.wheel, tick, i).timers| && WheelSpec.BucketAt(s.wheel, tick, i).timers[pos] == t
    ensures WheelInvariant.Inv(WheelSpec.StopAt(s, tick, i, pos))
    ensures WheelRefinement.Next(s, WheelRefinement.Stop(t, true), WheelSpec.StopAt(s, tick, i, pos))
  {
    WheelRefinement.StopInv(s, tick, i, pos);
    assert WheelSpec.BucketAt(s.wheel, tick, i).timers[pos] == t && WheelSpec.StopAt(s, tick, i, pos) == WheelSpec.StopAt(s, tick, i, pos);
  }

  lemma InsertUp(w: WheelSpec.Wheel, t: WheelSpec.Timer)
    requires w.Wheel? && WheelSpec.Clocked(w) && t.expiration >= w.currentTime + w.interval
    ensures WheelSpec.Clocked(WheelSpec.OverflowOf(w))
    ensures var r, up := WheelSpec.Add(w, t), WheelSpec.Add(WheelSpec.OverflowOf(w), t);
            r.ok == up.ok && r.wheel == w.(overflow := up.wheel) && Offered(w, t) == Offered(WheelSpec.OverflowOf(w), t)
    ensures WheelSpec.Beyond(WheelSpec.OverflowOf(w), t.expiration) < WheelSpec.Beyond(w, t.expiration)
  {
    WheelSpec.BeyondFalls(w, t.expiration);
  }

  /** What `add` answers without looking further up. */
  lemma InsertCases(w: WheelSpec.Wheel, t: WheelSpec.Timer)
    requires w.Wheel? && WheelSpec.Clocked(w)
    ensures t.expiration < w.currentTime + w.tick ==> WheelSpec.Add(w, t) == WheelSpec.AddResult(false, w, [])
    ensures w.currentTime + w.tick <= t.expiration < w.currentTime + w.interval ==> WheelSpec.Add(w, t).ok
  {}

  ghost function Offered(w: WheelSpec.Wheel, t: WheelSpec.Timer): multiset<WheelSpec.Entry>
    requires w.Wheel? && WheelSpec.Clocked(w)
  {
    multiset(WheelSpec.Add(w, t).offered)
  }

  /** A part of the buckets inherits agreement and freedom from `t`. */
  lemma LinkedSub(store: set<Bucket>, sub: set<Bucket>, held: set<Timer>, t: Timer)
    requires LinkedAll(store, held) && Free(store, t) && sub <= store
    ensures LinkedAll(sub, held) && Free(sub, t)
  {}

  lemma IdleBuckets(bs: seq<Bucket>)
    requires forall i | 0 <= i < |bs| :: bs[i].expiration == -1 && bs[i].timers == []
    ensures AbsBuckets(bs) == seq(|bs|, _ => WheelSpec.IDLE)
  {}

  /** The queue entry a bucket is offered as. */
  ghost function EntryFor(b: Bucket): WheelSpec.Entry
    reads b
  {
    WheelSpec.Entry(b.expiration, b.tick, b.index)
  }

  ghost function Offering(b: Bucket?): multiset<WheelSpec.Entry>
    reads b
  {
    if b == null then multiset{} else multiset{EntryFor(b)}
  }

  /** Every bucket's list and back pointers agree; `held` covers the timers listed. */
  ghost predicate LinkedAll(store: set<Bucket>, held: set<Timer>)
    reads store, held
  {
    forall b <- store :: Distinct(b.timers) && forall t <- b.timers :: t in held && t.b == b
  }

  /** The timer points to a bucket that holds it. */
  ghost predicate Backs(store: set<Bucket>, t: Timer)
    reads t, store
  {
    t.b != null && t.b in store && t in t.b.timers
  }

  /** No timer points to a bucket that does not hold it. */
  ghost predicate Backed(store: set<Bucket>, held: set<Timer>)
    reads store, held
  {
    forall t <- held :: t.b != null ==> Backs(store, t)
  }

  /** No bucket holds `t`. */
  ghost predicate Free(store: set<Bucket>, t: Timer)
    reads store
  {
    forall b <- store :: t !in b.timers
  }

  /** Bucket lists are as before, except that one may have gained `t` at its end. */
  twostate predicate Grown(store: set<Bucket>, t: Timer)
    reads store
  {
    forall b <- store :: b.timers == old(b.timers) || b.timers == old(b.timers) + [t]
  }

  ghost function AbsBuckets(bs: seq<Bucket>): (vs: seq<WheelSpec.Bucket>)
    reads bs
    ensures |vs| == |bs|
    ensures forall i | 0 <= i < |bs| :: vs[i] == bs[i].Abs()
  {
    if bs == [] then [] else [bs[0].Abs()] + AbsBuckets(bs[1..])
  }
}
