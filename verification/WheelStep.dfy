/** The consumer step: flushing an expired bucket cascades each timer strictly down or fires it (bucket.go, timingwheel.go). */
module WheelStep {
  import opened Truncation
  import opened WheelSpec
  import opened WheelInvariant

  /** During a flush: the invariant, with the bucket `e` out of the queue and the base clock at its expiration. */
  ghost predicate Flushing(s: State, e: Entry) {
    && s.wheel.Wheel? && Clocked(s.wheel) && BucketsOK(s.wheel)
    && QueueOK(s, [e])
    && HasBucket(s.wheel, e.tick, e.index)
    && BucketAt(s.wheel, e.tick, e.index).expiration == e.expiration == s.wheel.currentTime
    && NotBefore(s.queue, e.expiration)
  }

  /** A timer taken from a bucket starting at the current time lands strictly below it, or is due. */
  lemma {:induction false} AddBelow(w: Wheel, t: Timer, tick: int, i: int)
    requires Clocked(w) && BucketsOK(w) && HasBucket(w, tick, i)
    requires tick > 0 && Divides(tick, w.currentTime) && t.expiration < w.currentTime + tick
    ensures HasBucket(Add(w, t).wheel, tick, i)
    ensures BucketAt(Add(w, t).wheel, tick, i) == BucketAt(w, tick, i)
    ensures Weight(Add(w, t).wheel) <= Weight(w) + Depth(w, tick, i)
    ensures Depth(Add(w, t).wheel, tick, i) == Depth(w, tick, i)
    decreases w
  {
    TickDivides(w, tick, i, w.currentTime);
    AddInv(w, t);
    ArmedAt(w, tick, i);
    if t.expiration < w.currentTime + w.tick {
    } else if t.expiration < w.currentTime + w.interval {
      assert Weight(Add(w, t).wheel) == Weight(w) + 1;
    } else {
      assert w.overflow.Wheel?;
      TruncateUnique(w.currentTime, w.interval, w.currentTime);
      BeyondFalls(w, t.expiration);
      AddBelow(w.overflow, t, tick, i);
    }
  }

  /** One iteration of the flush loop. */
  lemma FlushOne(s: State, e: Entry, t: Timer)
    requires Flushing(s, e)
    requires e.expiration <= t.expiration < e.expiration + e.tick
    ensures var s' := AddOrRun(s, t);
            && Flushing(s', e)
            && BucketAt(s'.wheel, e.tick, e.index) == BucketAt(s.wheel, e.tick, e.index)
            && Timers(s'.wheel) + multiset(s'.fired) == Timers(s.wheel) + multiset(s.fired) + multiset{t}
            && Weight(s'.wheel) <= Weight(s.wheel) + Depth(s.wheel, e.tick, e.index)
            && Depth(s'.wheel, e.tick, e.index) == Depth(s.wheel, e.tick, e.index)
            && (s'.fired == s.fired || (s'.fired == s.fired + [t] && Truncate(t.expiration, s.wheel.tick) == e.expiration))
  {
    hide QueueOK, Armed, BucketsOK, Depth, Weight, Timers, BucketAt, HasBucket;
    var w := s.wheel;
    BucketAtOK(w, e.tick, e.index);
    ArmedAt(w, e.tick, e.index);
    AddInv(w, t);
    AddBelow(w, t, e.tick, e.index);
    var r := Add(w, t);
    if !r.ok { TruncateUnique(t.expiration, w.tick, e.expiration); }
    AddedQueue(s, [e], t);
    var s' := AddOrRun(s, t);
    assert multiset(s.fired + [t]) == multiset(s.fired) + multiset{t};
    forall x <- s'.queue ensures e.expiration <= x.expiration {
      if x !in s.queue { assert x in r.offered; }
    }
  }

  /** The queue keeps matching the buckets across `addOrRun`. */
  lemma AddedQueue(s: State, hot: seq<Entry>, t: Timer)
    requires s.wheel.Wheel? && Clocked(s.wheel) && Added(s.wheel, t, Add(s.wheel, t))
    requires QueueOK(s, hot)
    requires forall e <- hot :: Armed(s.wheel, e)
    ensures QueueOK(AddOrRun(s, t), hot)
  {
    hide Armed, Timers, BucketsOK;
    var r := Add(s.wheel, t);
    var s' := AddOrRun(s, t);
    forall e: Entry ensures s'.queue[e] == if Armed(s'.wheel, e) && e !in hot then 1 else 0 {
      assert s.queue[e] == if Armed(s.wheel, e) && e !in hot then 1 else 0;
      assert multiset(r.offered)[e] == if e in r.offered then 1 else 0 by {
        if |r.offered| == 1 { assert r.offered == [r.offered[0]]; }
      }
    }
  }

  lemma TakeFirstInv(s: State, e: Entry)
    requires Flushing(s, e) && BucketAt(s.wheel, e.tick, e.index).timers != []
    ensures var b := BucketAt(s.wheel, e.tick, e.index);
            var s' := TakeFirst(s, e.tick, e.index);
            && Flushing(s', e)
            && BucketAt(s'.wheel, e.tick, e.index) == b.(timers := b.timers[1..])
            && Timers(s'.wheel) + multiset{b.timers[0]} == Timers(s.wheel)
            && Weight(s'.wheel) + Depth(s.wheel, e.tick, e.index) + 1 == Weight(s.wheel)
            && Depth(s'.wheel, e.tick, e.index) == Depth(s.wheel, e.tick, e.index)
  {
    var b := BucketAt(s.wheel, e.tick, e.index);
    var b' := b.(timers := b.timers[1..]);
    BucketAtOK(s.wheel, e.tick, e.index);
    SetBucketAt(s.wheel, e.tick, e.index, b');
    SetBucketWeight(s.wheel, e.tick, e.index, b');
    SetBucketArmed(s.wheel, e.tick, e.index, b');
    ArmedAt(s.wheel, e.tick, e.index);
    SetBucketDepth(s.wheel, e.tick, e.index, b');
    var w' := WithBucket(s.wheel, e.tick, e.index, b');
    assert b.timers == [b.timers[0]] + b.timers[1..];
    assert multiset(b.timers) == multiset{b.timers[0]} + multiset(b.timers[1..]);
    forall t: Timer ensures (Timers(w') + multiset{b.timers[0]})[t] == Timers(s.wheel)[t] {
      assert (Timers(w') + multiset(b.timers))[t] == (Timers(s.wheel) + multiset(b'.timers))[t];
    }
    forall x: Entry ensures Armed(w', x) <==> Armed(s.wheel, x) {
      assert x == Entry(x.expiration, x.tick, x.index);
    }
  }

  lemma {:induction false} SetBucketDepth(w: Wheel, tick: int, i: int, b: Bucket)
    requires HasBucket(w, tick, i)
    ensures Depth(WithBucket(w, tick, i, b), tick, i) == Depth(w, tick, i)
    decreases w
  {
    if !(w.tick == tick && 0 <= i < |w.buckets|) { SetBucketDepth(w.overflow, tick, i, b); }
  }

  /** The tasks started during a flush are exactly those whose slot has come. */
  ghost predicate FiredAt(log: seq<Timer>, log': seq<Timer>, tick: int, x: int) {
    && log <= log'
    && forall k | |log| <= k < |log'| :: Truncate(log'[k].expiration, tick) == x
  }

  /** What the flush loop promises of a bucket still holding `n` timers. */
  ghost predicate Flushed(s: State, e: Entry, n: nat, s': State) {
    && Flushing(s', e)
    && s.wheel.Wheel? && s'.wheel.tick == s.wheel.tick
    && BucketAt(s'.wheel, e.tick, e.index).timers == []
    && Timers(s'.wheel) + multiset(s'.fired) == Timers(s.wheel) + multiset(s.fired)
    && FiredAt(s.fired, s'.fired, s'.wheel.tick, e.expiration)
    && Weight(s'.wheel) + n <= Weight(s.wheel)
  }

  lemma {:induction false} FlushLoopInv(s: State, e: Entry, captured: seq<Timer>)
    requires Flushing(s, e) && BucketAt(s.wheel, e.tick, e.index).timers == captured
    ensures Flushed(s, e, |captured|, FlushLoop(s, e.tick, e.index, captured))
    decreases |captured|
  {
    if captured != [] {
      var t := captured[0];
      BucketAtOK(s.wheel, e.tick, e.index);
      TakeFirstInv(s, e);
      var s1 := TakeFirst(s, e.tick, e.index);
      FlushOne(s1, e, t);
      AddKeepsBuckets(s1.wheel, t, e.tick, e.index);
      var s2 := AddOrRun(s1, t);
      FlushLoopInv(s2, e, captured[1..]);
      FlushGlue(s, s1, s2, e, t, captured, FlushLoop(s2, e.tick, e.index, captured[1..]));
    }
  }

  /** Taking one timer off, re-inserting it and flushing the rest add up to the whole loop. */
  lemma FlushGlue(s: State, s1: State, s2: State, e: Entry, t: Timer, captured: seq<Timer>, s': State)
    requires captured != [] && s1.fired == s.fired && s2.wheel.Wheel? && s.wheel.Wheel? && s2.wheel.tick == s.wheel.tick
    requires Timers(s1.wheel) + multiset{t} == Timers(s.wheel)
    requires Timers(s2.wheel) + multiset(s2.fired) == Timers(s1.wheel) + multiset(s1.fired) + multiset{t}
    requires s2.fired == s1.fired || (s2.fired == s1.fired + [t] && Truncate(t.expiration, s.wheel.tick) == e.expiration)
    requires Weight(s2.wheel) + 1 <= Weight(s.wheel)
    requires Flushed(s2, e, |captured| - 1, s')
    ensures Flushed(s, e, |captured|, s')
  {
    assert Timers(s1.wheel) + multiset(s.fired) + multiset{t} == Timers(s1.wheel) + multiset{t} + multiset(s.fired);
    forall k | |s.fired| <= k < |s'.fired| ensures Truncate(s'.fired[k].expiration, s'.wheel.tick) == e.expiration {
      if k < |s2.fired| { assert s'.fired[k] == s2.fired[k] == t; }
    }
  }

  // ---------- the consumer step ----------

  /** A popped entry names a bucket that carries its priority. */
  lemma QueuedBucket(s: State, e: Entry)
    requires Inv(s) && e in s.queue
    ensures HasBucket(s.wheel, e.tick, e.index)
    ensures BucketAt(s.wheel, e.tick, e.index).expiration == e.expiration >= s.wheel.currentTime
    ensures Poppable(s, e)
    ensures e.tick >= 1 && Divides(e.tick, e.expiration)
  {
    assert s.queue[e] == 1;
    ArmedTick(s.wheel, e);
    BucketAtOK(s.wheel, e.tick, e.index);
  }

  lemma Advanced(s: State, e: Entry)
    requires Inv(s) && e in s.queue && NotBefore(s.queue, e.expiration)
    ensures HasBucket(s.wheel, e.tick, e.index)
    ensures var w' := AdvanceClock(s.wheel, e.expiration);
            var s1 := State(w', s.queue - multiset{e}, s.fired);
            && Flushing(s1, e)
            && w'.tick == s.wheel.tick
            && Timers(w') == Timers(s.wheel) && Weight(w') == Weight(s.wheel)
            && BucketAt(w', e.tick, e.index) == BucketAt(s.wheel, e.tick, e.index)
  {
    QueuedBucket(s, e);
    forall x: Entry | Armed(s.wheel, x) ensures e.expiration <= x.expiration { assert s.queue[x] == 1; }
    AdvanceInv(s.wheel, e.expiration);
    AdvanceClocked(s.wheel, e.expiration);
    AdvanceKeepsBuckets(s.wheel, e.expiration, e.tick, e.index);
    TickDivides(s.wheel, e.tick, e.index, e.expiration);
    TruncateUnique(e.expiration, s.wheel.tick, e.expiration);
    if e.expiration < s.wheel.currentTime + s.wheel.tick && s.wheel.currentTime < e.expiration {
      MultiplesApart(s.wheel.currentTime, e.expiration, s.wheel.tick);
    }
    var s1 := State(AdvanceClock(s.wheel, e.expiration), s.queue - multiset{e}, s.fired);
    forall x: Entry ensures s1.queue[x] == if Armed(s1.wheel, x) && x !in [e] then 1 else 0 {
      assert s.queue[x] == if Armed(s.wheel, x) then 1 else 0;
    }
  }

  /** Marking the emptied bucket idle restores the invariant. */
  lemma Retire(s: State, e: Entry)
    requires Flushing(s, e) && BucketAt(s.wheel, e.tick, e.index).timers == []
    ensures var w' := WithBucket(s.wheel, e.tick, e.index, IDLE);
            Inv(s.(wheel := w')) && Timers(w') == Timers(s.wheel) && Weight(w') == Weight(s.wheel)
  {
    SetBucketAt(s.wheel, e.tick, e.index, IDLE);
    RetireWeight(s.wheel, e.tick, e.index);
    RetireQueue(s, e);
  }

  lemma RetireQueue(s: State, e: Entry)
    requires Flushing(s, e)
    ensures QueueOK(s.(wheel := WithBucket(s.wheel, e.tick, e.index, IDLE)), [])
  {
    var w' := WithBucket(s.wheel, e.tick, e.index, IDLE);
    SetBucketArmed(s.wheel, e.tick, e.index, IDLE);
    ArmedAt(s.wheel, e.tick, e.index);
    forall x: Entry ensures s.queue[x] == if Armed(w', x) && x !in [] then 1 else 0 {
      assert s.queue[x] == if Armed(s.wheel, x) && x !in [e] then 1 else 0;
      assert x == Entry(x.expiration, x.tick, x.index);
    }
  }

  lemma {:induction false} RetireWeight(w: Wheel, tick: int, i: int)
    requires Clocked(w) && BucketsOK(w) && HasBucket(w, tick, i) && BucketAt(w, tick, i).timers == []
    ensures Timers(WithBucket(w, tick, i, IDLE)) == Timers(w)
    ensures Weight(WithBucket(w, tick, i, IDLE)) == Weight(w)
    decreases w
  {
    SetBucketAt(w, tick, i, IDLE);
    var held, held' := Timers(w), Timers(WithBucket(w, tick, i, IDLE));
    assert held' == held' + multiset([]) == held + multiset([]) == held;
    if !(w.tick == tick && 0 <= i < |w.buckets|) { RetireWeight(w.overflow, tick, i); }
  }

  /** What one consumer step achieves. */
  ghost predicate Stepped(s: State, e: Entry, s': State)
    requires HasBucket(s.wheel, e.tick, e.index)
  {
    && Inv(s')
    && s'.wheel.tick == s.wheel.tick
    && s'.wheel.currentTime == e.expiration
    && NotBefore(s'.queue, e.expiration)
    && Timers(s'.wheel) + multiset(s'.fired) == Timers(s.wheel) + multiset(s.fired)
    && FiredAt(s.fired, s'.fired, s'.wheel.tick, e.expiration)
    && Weight(s'.wheel) + |BucketAt(s.wheel, e.tick, e.index).timers| <= Weight(s.wheel)
    && (BucketAt(s.wheel, e.tick, e.index).timers == [] ==> |s'.queue| == |s.queue| - 1)
  }

  /**
    Popping a minimum entry keeps the invariant, sets the base clock to its expiration, fires only timers of that slot,
    and moves every other timer of the bucket strictly down.
   */
  lemma StepInv(s: State, e: Entry)
    requires Inv(s) && e in s.queue && NotBefore(s.queue, e.expiration)
    ensures Poppable(s, e) && Stepped(s, e, Step(s, e))
  {
    QueuedBucket(s, e);
    Advanced(s, e);
    AdvanceClocked(s.wheel, e.expiration);
    AdvanceKeepsBuckets(s.wheel, e.expiration, e.tick, e.index);
    var s1 := State(AdvanceClock(s.wheel, e.expiration), s.queue - multiset{e}, s.fired);
    var captured := BucketAt(s1.wheel, e.tick, e.index).timers;
    FlushLoopInv(s1, e, captured);
    var s2 := FlushLoop(s1, e.tick, e.index, captured);
    Retire(s2, e);
  }
}