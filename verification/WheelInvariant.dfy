/** What every step of the wheel keeps: the clocks, the buckets and the delay queue stay in correspondence. */
module WheelInvariant {
  import opened Truncation
  import opened WheelSpec

  /** A bucket's timers share one slot, whose start is the bucket's expiration and lies within reach of the clock. */
  ghost predicate BucketOK(b: Bucket, i: int, w: Wheel)
    requires w.Wheel? && w.tick > 0 && w.wheelSize > 0
  {
    if b.expiration == -1 then b.timers == []
    else
      && Divides(w.tick, b.expiration)
      && (b.expiration / w.tick) % w.wheelSize == i
      && w.currentTime <= b.expiration < w.currentTime + w.interval
      && forall t <- b.timers :: b.expiration <= t.expiration < b.expiration + w.tick
  }

  ghost predicate BucketsOK(w: Wheel)
    requires Clocked(w)
  {
    w.Wheel? ==>
      && (forall i | 0 <= i < |w.buckets| :: BucketOK(w.buckets[i], i, w))
      && BucketsOK(w.overflow)
  }

  /** Some bucket holds this expiration, so it should be queued. */
  ghost predicate Armed(w: Wheel, e: Entry) {
    w.Wheel? &&
    ((e.tick == w.tick && 0 <= e.index < |w.buckets| && e.expiration != -1 && w.buckets[e.index].expiration == e.expiration)
     || Armed(w.overflow, e))
  }

  /** Armed buckets are queued exactly once, others not at all; `hot` is the bucket being flushed, if any. */
  ghost predicate QueueOK(s: State, hot: seq<Entry>) {
    forall e: Entry :: s.queue[e] == if Armed(s.wheel, e) && e !in hot then 1 else 0
  }

  /** Every queued bucket expires at `x` or later. */
  ghost predicate NotBefore(q: multiset<Entry>, x: int) {
    forall e <- q :: x <= e.expiration
  }

  ghost predicate Inv(s: State) {
    s.wheel.Wheel? && Clocked(s.wheel) && BucketsOK(s.wheel) && QueueOK(s, []) && NotBefore(s.queue, s.wheel.currentTime)
  }

  function LevelTimers(bs: seq<Bucket>): multiset<Timer> {
    if bs == [] then multiset{} else multiset(bs[0].timers) + LevelTimers(bs[1..])
  }

  /** All timers held by the wheel and its overflow wheels. */
  function Timers(w: Wheel): multiset<Timer> {
    if w.NoWheel? then multiset{} else LevelTimers(w.buckets) + Timers(w.overflow)
  }

  /** Every timer counted once for each level from the base up to its own. */
  function Weight(w: Wheel): nat {
    if w.NoWheel? then 0 else |Timers(w)| + Weight(w.overflow)
  }

  lemma {:induction false} LevelTimersUpdate(bs: seq<Bucket>, i: int, b: Bucket)
    requires 0 <= i < |bs|
    ensures LevelTimers(bs[i := b]) + multiset(bs[i].timers) == LevelTimers(bs) + multiset(b.timers)
  {
    if i == 0 {
      assert bs[i := b][1..] == bs[1..];
    } else {
      LevelTimersUpdate(bs[1..], i - 1, b);
      var bs' := bs[i := b];
      assert bs'[1..] == bs[1..][i - 1 := b];
      var first, rest, rest' := multiset(bs[0].timers), LevelTimers(bs[1..]), LevelTimers(bs'[1..]);
      assert rest' + multiset(bs[i].timers) == rest + multiset(b.timers);
      calc {
        first + rest' + multiset(bs[i].timers);
        first + (rest' + multiset(bs[i].timers));
        first + (rest + multiset(b.timers));
        first + rest + multiset(b.timers);
      }
    }
  }

  lemma {:induction false} LevelTimersIdle(n: nat)
    ensures LevelTimers(seq(n, _ => IDLE)) == multiset{}
  {
    if n > 0 {
      LevelTimersIdle(n - 1);
      assert seq(n, _ => IDLE)[1..] == seq(n - 1, _ => IDLE);
    }
  }

  lemma {:induction false} TimerInLevel(bs: seq<Bucket>, t: Timer)
    ensures t in LevelTimers(bs) <==> exists i :: 0 <= i < |bs| && t in bs[i].timers
  {
    if bs != [] {
      TimerInLevel(bs[1..], t);
      if t in LevelTimers(bs[1..]) {
        var i :| 0 <= i < |bs[1..]| && t in bs[1..][i].timers;
        assert t in bs[i + 1].timers;
      }
      if i :| 0 <= i < |bs| && t in bs[i].timers {
        if i > 0 { assert t in bs[1..][i - 1].timers; }
      }
    }
  }

  // ---------- one bucket ----------

  /** The slot chosen by `add` is idle or already carries the same expiration. */
  lemma AddedBucketOK(b: Bucket, w: Wheel, t: Timer)
    requires w.Wheel? && Clocked(w)
    requires w.currentTime + w.tick <= t.expiration < w.currentTime + w.interval
    requires BucketOK(b, (t.expiration / w.tick) % w.wheelSize, w)
    ensures var e := (t.expiration / w.tick) * w.tick;
            && e == Truncate(t.expiration, w.tick)
            && (b.expiration == -1 || b.expiration == e)
            && w.currentTime + w.tick <= e <= t.expiration
            && BucketOK(Bucket(e, b.timers + [t]), (t.expiration / w.tick) % w.wheelSize, w)
  {
    var q := t.expiration / w.tick;
    TruncateFloor(t.expiration, w.tick);
    MultipleMod(q, w.tick);
    if Truncate(t.expiration, w.tick) < w.currentTime + w.tick {
      DueIff(t.expiration, w.tick, w.currentTime);
      if Truncate(t.expiration, w.tick) > w.currentTime {
        MultiplesApart(w.currentTime, Truncate(t.expiration, w.tick), w.tick);
      }
    }
    if b.expiration != -1 {
      var p := b.expiration / w.tick;
      DivMod(b.expiration, w.tick);
      TruncateSlot(w.tick, w.wheelSize, w.currentTime, p, q);
    }
  }

  /** An entry at a lower tick than this level is not armed at this level or above. */
  lemma {:induction false} ArmedTick(w: Wheel, e: Entry)
    requires Clocked(w) && Armed(w, e)
    ensures w.tick <= e.tick && HasBucket(w, e.tick, e.index)
    ensures BucketAt(w, e.tick, e.index).expiration == e.expiration
    ensures e.expiration != -1
    decreases w
  {
    if Armed(w.overflow, e) {
      ArmedTick(w.overflow, e);
    }
  }

  lemma {:induction false} ArmedAt(w: Wheel, tick: int, i: int)
    requires Clocked(w) && HasBucket(w, tick, i)
    ensures w.tick <= tick
    ensures forall x: int :: Armed(w, Entry(x, tick, i)) <==> x != -1 && x == BucketAt(w, tick, i).expiration
    decreases w
  {
    forall x: int
      ensures Armed(w, Entry(x, tick, i)) <==> x != -1 && x == BucketAt(w, tick, i).expiration
    {
      if Armed(w.overflow, Entry(x, tick, i)) { ArmedTick(w.overflow, Entry(x, tick, i)); }
      if !(w.tick == tick && 0 <= i < |w.buckets|) {
        ArmedAt(w.overflow, tick, i);
      }
    }
    if !(w.tick == tick && 0 <= i < |w.buckets|) { ArmedAt(w.overflow, tick, i); }
  }

  // ---------- add ----------

  lemma OverflowOK(w: Wheel, t: Timer)
    requires w.Wheel? && Clocked(w) && BucketsOK(w) && t.expiration >= w.currentTime + w.interval
    ensures Clocked(OverflowOf(w)) && BucketsOK(OverflowOf(w))
    ensures Timers(OverflowOf(w)) == Timers(w.overflow)
    ensures Weight(OverflowOf(w)) == Weight(w.overflow)
    ensures forall e :: Armed(OverflowOf(w), e) <==> Armed(w.overflow, e)
  {
    BeyondFalls(w, t.expiration);
    LevelTimersIdle(w.wheelSize);
  }

  lemma MultisetSwap(a: multiset<Timer>, a': multiset<Timer>, rest: multiset<Timer>, x: multiset<Timer>, y: multiset<Timer>)
    requires a' + x == a + y
    ensures (a' + rest) + x == (a + rest) + y
  {
    assert (a' + rest) + x == (a' + x) + rest;
    assert (a + rest) + y == (a + y) + rest;
  }

  /** Replacing one bucket of the base level. */
  lemma SetBucket(w: Wheel, i: int, b: Bucket)
    requires w.Wheel? && Clocked(w) && BucketsOK(w) && 0 <= i < |w.buckets| && BucketOK(b, i, w)
    ensures var w' := w.(buckets := w.buckets[i := b]);
            Clocked(w') && BucketsOK(w') && Timers(w') + multiset(w.buckets[i].timers) == Timers(w) + multiset(b.timers)
  {
    var w' := w.(buckets := w.buckets[i := b]);
    forall j | 0 <= j < |w'.buckets| ensures BucketOK(w'.buckets[j], j, w') {
      assert BucketOK(w.buckets[j], j, w);
    }
    LevelTimersUpdate(w.buckets, i, b);
    MultisetSwap(LevelTimers(w.buckets), LevelTimers(w'.buckets), Timers(w.overflow),
                 multiset(w.buckets[i].timers), multiset(b.timers));
  }

  lemma MultisetGain(m: multiset<Timer>, m': multiset<Timer>, old0: seq<Timer>, t: Timer)
    requires m' + multiset(old0) == m + multiset(old0 + [t])
    ensures m' == m + multiset{t}
  {
    forall x: Timer ensures m'[x] == (m + multiset{t})[x] {
      assert (m' + multiset(old0))[x] == (m + multiset(old0 + [t]))[x];
    }
  }

  /** What `add` promises: the timer is held unless it was due, at most one idle bucket is offered, nothing else moves. */
  ghost predicate Added(w: Wheel, t: Timer, r: AddResult)
    requires Clocked(w) && Clocked(r.wheel) && w.Wheel?
  {
    && BucketsOK(r.wheel)
    && (r.ok <==> t.expiration >= w.currentTime + w.tick)
    && Timers(r.wheel) == (if r.ok then Timers(w) + multiset{t} else Timers(w))
    && |r.offered| <= 1
    && (forall e :: Armed(r.wheel, e) <==> Armed(w, e) || e in r.offered)
    && (forall e <- r.offered :: !Armed(w, e) && w.currentTime + w.tick <= e.expiration)
  }

  /** Placing the timer at this level. */
  lemma AddHere(w: Wheel, t: Timer)
    requires w.Wheel? && Clocked(w) && BucketsOK(w)
    requires w.currentTime + w.tick <= t.expiration < w.currentTime + w.interval
    ensures Added(w, t, Add(w, t))
  {
    var i := (t.expiration / w.tick) % w.wheelSize;
    var b := w.buckets[i];
    assert BucketOK(b, i, w);
    AddedBucketOK(b, w, t);
    var b' := Bucket((t.expiration / w.tick) * w.tick, b.timers + [t]);
    SetBucket(w, i, b');
    MultisetGain(Timers(w), Timers(w.(buckets := w.buckets[i := b'])), b.timers, t);
    AddHereArmed(w, i, b');
  }

  /** Arming a bucket that was idle, or re-arming it unchanged. */
  lemma AddHereArmed(w: Wheel, i: int, b: Bucket)
    requires w.Wheel? && Clocked(w) && 0 <= i < |w.buckets|
    requires b.expiration != -1
    requires w.buckets[i].expiration == -1 || w.buckets[i].expiration == b.expiration
    ensures var w' := w.(buckets := w.buckets[i := b]);
            forall e :: Armed(w', e) <==> Armed(w, e) || e == Entry(b.expiration, w.tick, i)
    ensures w.buckets[i].expiration == -1 ==> !Armed(w, Entry(b.expiration, w.tick, i))
  {
    if Armed(w.overflow, Entry(b.expiration, w.tick, i)) { ArmedTick(w.overflow, Entry(b.expiration, w.tick, i)); }
  }

  /** `add` refuses exactly the timers already due, and otherwise keeps every invariant and gains the timer. */
  lemma {:induction false} AddInv(w: Wheel, t: Timer)
    requires w.Wheel? && Clocked(w) && BucketsOK(w)
    ensures Added(w, t, Add(w, t))
    decreases Beyond(w, t.expiration)
  {
    if t.expiration < w.currentTime + w.tick {
    } else if t.expiration < w.currentTime + w.interval {
      AddHere(w, t);
    } else {
      BeyondFalls(w, t.expiration);
      OverflowOK(w, t);
      AddInv(OverflowOf(w), t);
      AddInvUp(w, t, Add(OverflowOf(w), t));
    }
  }

  /** The end of an overflow wheel's first slot is at least a tick away. */
  lemma OverflowEdge(w: Wheel)
    requires w.Wheel? && Clocked(w)
    ensures w.currentTime + w.tick <= Truncate(w.currentTime, w.interval) + w.interval
  {
    TruncateFloor(w.currentTime, w.interval);
    var edge := Truncate(w.currentTime, w.interval) + w.interval;
    var q := Truncate(w.currentTime, w.interval) / w.interval;
    assert edge == (q + 1) * w.interval;
    MultipleMod(q + 1, w.interval);
    DividesFactor(w.tick, w.wheelSize, edge);
    MultiplesApart(w.currentTime, edge, w.tick);
  }

  lemma AddInvUp(w: Wheel, t: Timer, r: AddResult)
    requires w.Wheel? && Clocked(w) && BucketsOK(w) && w.currentTime + w.interval <= t.expiration
    requires Clocked(OverflowOf(w)) && SameLevel(OverflowOf(w), r.wheel)
    requires OverflowOf(w).tick == w.interval && OverflowOf(w).wheelSize == w.wheelSize
    requires OverflowOf(w).currentTime == Truncate(w.currentTime, w.interval) <= w.currentTime
    requires Timers(OverflowOf(w)) == Timers(w.overflow)
    requires forall e :: Armed(OverflowOf(w), e) <==> Armed(w.overflow, e)
    requires Clocked(r.wheel) && Added(OverflowOf(w), t, r)
    ensures Clocked(w.(overflow := r.wheel)) && Added(w, t, AddResult(r.ok, w.(overflow := r.wheel), r.offered))
  {
    var w' := w.(overflow := r.wheel);
    forall i | 0 <= i < |w'.buckets| ensures BucketOK(w'.buckets[i], i, w') {
      assert BucketOK(w.buckets[i], i, w);
    }
    assert LevelTimers(w.buckets) + (Timers(w.overflow) + multiset{t}) == Timers(w) + multiset{t};
    OverflowEdge(w);
    forall e <- r.offered ensures !Armed(w, e) && w.currentTime + w.tick <= e.expiration {
      assert Armed(r.wheel, e);
      ArmedTick(r.wheel, e);
    }
  }

  // ---------- one bucket anywhere in the chain ----------

  /** The level holding the named bucket. */
  function LevelAt(w: Wheel, tick: int, i: int): (l: Wheel)
    requires HasBucket(w, tick, i)
    ensures l.Wheel? && l.tick == tick && 0 <= i < |l.buckets| && l.buckets[i] == BucketAt(w, tick, i)
    ensures Clocked(w) ==> Clocked(l)
  {
    if w.tick == tick && 0 <= i < |w.buckets| then w else LevelAt(w.overflow, tick, i)
  }

  /** How many levels lie below the one holding the bucket. */
  function Depth(w: Wheel, tick: int, i: int): nat
    requires HasBucket(w, tick, i)
  {
    if w.tick == tick && 0 <= i < |w.buckets| then 0 else 1 + Depth(w.overflow, tick, i)
  }

  lemma {:induction false} BucketAtOK(w: Wheel, tick: int, i: int)
    requires Clocked(w) && BucketsOK(w) && HasBucket(w, tick, i)
    ensures BucketOK(BucketAt(w, tick, i), i, LevelAt(w, tick, i))
    decreases w
  {
    if !(w.tick == tick && 0 <= i < |w.buckets|) { BucketAtOK(w.overflow, tick, i); }
  }

  lemma {:induction false} SetBucketAt(w: Wheel, tick: int, i: int, b: Bucket)
    requires Clocked(w) && BucketsOK(w) && HasBucket(w, tick, i)
    requires BucketOK(b, i, LevelAt(w, tick, i))
    ensures var w' := WithBucket(w, tick, i, b);
            BucketsOK(w') && Timers(w') + multiset(BucketAt(w, tick, i).timers) == Timers(w) + multiset(b.timers)
    decreases w
  {
    if w.tick == tick && 0 <= i < |w.buckets| {
      SetBucket(w, i, b);
    } else {
      SetBucketAt(w.overflow, tick, i, b);
      var w' := WithBucket(w, tick, i, b);
      forall j | 0 <= j < |w'.buckets| ensures BucketOK(w'.buckets[j], j, w') {
        assert BucketOK(w.buckets[j], j, w);
      }
      var x, y := multiset(BucketAt(w, tick, i).timers), multiset(b.timers);
      MultisetSwap(Timers(w.overflow), Timers(w'.overflow), LevelTimers(w.buckets), x, y);
      assert Timers(w') == Timers(w'.overflow) + LevelTimers(w.buckets);
      assert Timers(w) == Timers(w.overflow) + LevelTimers(w.buckets);
    }
  }

  /** Losing one timer from a bucket lowers the weight by one for each level from the base up to it. */
  lemma {:induction false} SetBucketWeight(w: Wheel, tick: int, i: int, b: Bucket)
    requires Clocked(w) && BucketsOK(w) && HasBucket(w, tick, i)
    requires BucketOK(b, i, LevelAt(w, tick, i))
    requires |b.timers| + 1 == |BucketAt(w, tick, i).timers|
    ensures Weight(WithBucket(w, tick, i, b)) + Depth(w, tick, i) + 1 == Weight(w)
    decreases w
  {
    SetBucketAt(w, tick, i, b);
    var w' := WithBucket(w, tick, i, b);
    assert |Timers(w') + multiset(BucketAt(w, tick, i).timers)| == |Timers(w')| + |b.timers| + 1;
    assert |Timers(w) + multiset(b.timers)| == |Timers(w)| + |b.timers|;
    if !(w.tick == tick && 0 <= i < |w.buckets|) {
      SetBucketWeight(w.overflow, tick, i, b);
    }
  }

  lemma {:induction false} SetBucketArmed(w: Wheel, tick: int, i: int, b: Bucket)
    requires Clocked(w) && HasBucket(w, tick, i)
    ensures forall e :: Armed(WithBucket(w, tick, i, b), e) <==>
                        if e.tick == tick && e.index == i then e.expiration != -1 && e.expiration == b.expiration else Armed(w, e)
    decreases w
  {
    var w' := WithBucket(w, tick, i, b);
    if w.tick == tick && 0 <= i < |w.buckets| {
      forall e: Entry ensures e.tick == tick && Armed(w.overflow, e) ==> false {
        if e.tick == tick && Armed(w.overflow, e) { ArmedTick(w.overflow, e); }
      }
    } else {
      SetBucketArmed(w.overflow, tick, i, b);
      assert HasBucket(w.overflow, tick, i);
      ArmedAt(w.overflow, tick, i);
    }
  }

  // ---------- the clock ----------

  /** Ticks of higher levels are multiples of the ticks below. */
  lemma {:induction false} TickDivides(w: Wheel, tick: int, i: int, x: int)
    requires Clocked(w) && HasBucket(w, tick, i) && tick > 0 && Divides(tick, x)
    ensures Divides(w.tick, x)
    ensures !(w.tick == tick && 0 <= i < |w.buckets|) ==> Divides(w.interval, x)
    decreases w
  {
    if !(w.tick == tick && 0 <= i < |w.buckets|) {
      TickDivides(w.overflow, tick, i, x);
      DividesFactor(w.tick, w.wheelSize, x);
    }
  }

  lemma {:induction false} AdvanceInv(w: Wheel, expiration: int)
    requires Clocked(w) && BucketsOK(w)
    requires w.Wheel? ==> expiration >= w.currentTime
    requires forall e :: Armed(w, e) ==> expiration <= e.expiration
    ensures var w' := AdvanceClock(w, expiration);
            && Clocked(w') && BucketsOK(w')
            && Timers(w') == Timers(w) && Weight(w') == Weight(w)
            && forall e :: Armed(w', e) <==> Armed(w, e)
    decreases w
  {
    if w.Wheel? {
      AdvanceClocked(w, expiration);
      var w' := AdvanceClock(w, expiration);
      if expiration >= w.currentTime + w.tick {
        var ct := Truncate(expiration, w.tick);
        TruncateFloor(expiration, w.tick);
        TruncateFloor(w.currentTime, w.interval);
        AdvanceInv(w.overflow, ct);
        forall i | 0 <= i < |w'.buckets| ensures BucketOK(w'.buckets[i], i, w') {
          assert BucketOK(w.buckets[i], i, w);
          if w.buckets[i].expiration != -1 { assert Armed(w, Entry(w.buckets[i].expiration, w.tick, i)); }
        }
      }
    }
  }
}
