/** When the int64 arithmetic of the wheel cannot overflow (timingwheel.go). */
module WheelBounds {
  import opened Truncation
  import opened WheelSpec
  import opened WheelInvariant
  import opened WheelStep
  import opened WheelRefinement

  /** Every tick, interval and slot bound the source computes fits in an int64. */
  ghost predicate Fits(w: Wheel) {
    w.Wheel? ==>
      && w.tick < 0x8000_0000_0000_0000 && w.interval < 0x8000_0000_0000_0000
      && w.currentTime + w.tick < 0x8000_0000_0000_0000 && w.currentTime + w.interval < 0x8000_0000_0000_0000
      && Fits(w.overflow)
  }

  /** Clocks and the ticks of overflow wheels stay below the latest expiration in use. */
  ghost predicate Bounded(w: Wheel, latest: int) {
    w.Wheel? ==>
      && w.currentTime <= latest
      && (w.overflow.Wheel? ==> w.overflow.tick <= latest)
      && Bounded(w.overflow, latest)
  }

  ghost predicate BoundedState(s: State, latest: int) {
    && Bounded(s.wheel, latest)
    && (forall e <- s.queue :: e.expiration <= latest)
    && (forall t <- Timers(s.wheel) :: t.expiration <= latest)
  }

  lemma {:induction false} BoundedFits(w: Wheel, size: int, latest: int)
    requires Clocked(w) && Bounded(w, latest)
    requires w.Wheel? ==> w.wheelSize == size && latest + w.interval < 0x8000_0000_0000_0000
    requires latest >= 0 && size >= 2 && (size + 1) * latest < 0x8000_0000_0000_0000
    ensures Fits(w)
    decreases w
  {
    if w.Wheel? && w.overflow.Wheel? {
      MulMono(w.overflow.tick, latest, size);
      assert w.overflow.interval == w.overflow.tick * size;
      assert (size + 1) * latest == latest * size + latest;
      BoundedFits(w.overflow, size, latest);
    }
  }

  lemma {:induction false} AddBounded(w: Wheel, t: Timer, latest: int)
    requires w.Wheel? && Clocked(w) && BucketsOK(w) && Bounded(w, latest) && t.expiration <= latest
    ensures Bounded(Add(w, t).wheel, latest)
    ensures forall e <- Add(w, t).offered :: e.expiration <= latest
    decreases Beyond(w, t.expiration)
  {
    if t.expiration >= w.currentTime + w.interval {
      BeyondFalls(w, t.expiration);
      OverflowOK(w, t);
      AddBounded(OverflowOf(w), t, latest);
    } else if t.expiration >= w.currentTime + w.tick {
      TruncateFloor(t.expiration, w.tick);
    }
  }

  lemma {:induction false} AdvanceBounded(w: Wheel, expiration: int, latest: int)
    requires Clocked(w) && Bounded(w, latest) && 0 <= expiration <= latest
    ensures Bounded(AdvanceClock(w, expiration), latest)
    decreases w
  {
    if w.Wheel? && expiration >= w.currentTime + w.tick {
      TruncateFloor(expiration, w.tick);
      AdvanceClocked(w.overflow, Truncate(expiration, w.tick));
      AdvanceBounded(w.overflow, Truncate(expiration, w.tick), latest);
    }
  }

  lemma {:induction false} SetBucketBounded(w: Wheel, tick: int, i: int, b: Bucket, latest: int)
    requires HasBucket(w, tick, i) && Bounded(w, latest)
    ensures Bounded(WithBucket(w, tick, i, b), latest)
    decreases w
  {
    if !(w.tick == tick && 0 <= i < |w.buckets|) { SetBucketBounded(w.overflow, tick, i, b, latest); }
  }

  lemma AddOrRunBounded(s: State, t: Timer, latest: int)
    requires s.wheel.Wheel? && Clocked(s.wheel) && BucketsOK(s.wheel) && BoundedState(s, latest) && t.expiration <= latest
    ensures BoundedState(AddOrRun(s, t), latest)
  {
    AddBounded(s.wheel, t, latest);
    AddInv(s.wheel, t);
  }

  lemma {:induction false} FlushLoopBounded(s: State, e: Entry, captured: seq<Timer>, latest: int)
    requires Flushing(s, e) && BucketAt(s.wheel, e.tick, e.index).timers == captured
    requires BoundedState(s, latest) && forall t <- captured :: t.expiration <= latest
    ensures BoundedState(FlushLoop(s, e.tick, e.index, captured), latest)
    decreases |captured|
  {
    if captured != [] {
      var t := captured[0];
      BucketAtOK(s.wheel, e.tick, e.index);
      TakeFirstInv(s, e);
      var s1 := TakeFirst(s, e.tick, e.index);
      assert Timers(s1.wheel) <= Timers(s.wheel);
      SetBucketBounded(s.wheel, e.tick, e.index, BucketAt(s1.wheel, e.tick, e.index), latest);
      FlushOne(s1, e, t);
      AddKeepsBuckets(s1.wheel, t, e.tick, e.index);
      AddOrRunBounded(s1, t, latest);
      FlushLoopBounded(AddOrRun(s1, t), e, captured[1..], latest);
    }
  }

  lemma StepBounded(s: State, e: Entry, latest: int)
    requires Inv(s) && e in s.queue && NotBefore(s.queue, e.expiration) && BoundedState(s, latest)
    ensures Poppable(s, e) && BoundedState(Step(s, e), latest)
  {
    QueuedBucket(s, e);
    Advanced(s, e);
    AdvanceClocked(s.wheel, e.expiration);
    AdvanceBounded(s.wheel, e.expiration, latest);
    AdvanceKeepsBuckets(s.wheel, e.expiration, e.tick, e.index);
    var s1 := State(AdvanceClock(s.wheel, e.expiration), s.queue - multiset{e}, s.fired);
    var captured := BucketAt(s1.wheel, e.tick, e.index).timers;
    forall t <- captured ensures t.expiration <= latest { HeldThere(s.wheel, e.tick, e.index, t); }
    FlushLoopInv(s1, e, captured);
    FlushLoopBounded(s1, e, captured, latest);
    var s2 := FlushLoop(s1, e.tick, e.index, captured);
    Retire(s2, e);
    SetBucketBounded(s2.wheel, e.tick, e.index, IDLE, latest);
  }

  lemma {:induction false} HeldThere(w: Wheel, tick: int, i: int, t: Timer)
    requires HasBucket(w, tick, i) && t in BucketAt(w, tick, i).timers
    ensures t in Timers(w)
    decreases w
  {
    TimerInLevel(w.buckets, t);
    if !(w.tick == tick && 0 <= i < |w.buckets|) { HeldThere(w.overflow, tick, i, t); }
  }

  lemma {:induction false} DrainBounded(s: State, now: int, pops: seq<Entry>, s': State, latest: int)
    requires Inv(s) && Drained(s, now, pops, s') && BoundedState(s, latest)
    ensures BoundedState(s', latest)
    decreases |pops|
  {
    if pops != [] {
      StepInv(s, pops[0]);
      StepBounded(s, pops[0], latest);
      DrainBounded(Step(s, pops[0]), now, pops[1..], s', latest);
    }
  }

  lemma NextBounded(s: State, now: int, ev: Event, s': State, latest: int)
    requires Reachable(s, now) && Next(s, ev, s') && BoundedState(s, latest)
    requires ev.AfterFunc? ==> ev.t.expiration <= latest
    ensures BoundedState(s', latest)
  {
    match ev
    case AfterFunc(t) => AddOrRunBounded(s, t, latest);
    case Stop(t, stopped) =>
      if stopped {
        var tick, i, pos :| HasBucket(s.wheel, tick, i) && 0 <= pos < |BucketAt(s.wheel, tick, i).timers| &&
          BucketAt(s.wheel, tick, i).timers[pos] == t && s' == StopAt(s, tick, i, pos);
        StopInv(s, tick, i, pos);
        SetBucketBounded(s.wheel, tick, i, BucketAt(s'.wheel, tick, i), latest);
        assert Timers(s'.wheel) <= Timers(s.wheel);
      }
    case Drain(to) =>
      var pops :| Drained(s, to, pops, s');
      DrainBounded(s, to, pops, s', latest);
  }

  lemma {:induction false} RunBounded(tick: int, size: int, start: int, ss: seq<State>, evs: seq<Event>, latest: int)
    requires tick >= 1 && size >= 2 && 0 <= start <= latest
    requires Run(tick, size, start, ss, evs) && Forward(start, evs)
    requires forall t :: AfterFunc(t) in evs ==> t.expiration <= latest
    ensures BoundedState(ss[|evs|], latest)
    ensures ss[|evs|].wheel.Wheel? && ss[|evs|].wheel.wheelSize == size
    ensures ss[|evs|].wheel.interval == tick * size
    decreases |evs|
  {
    if evs == [] {
      InitialReachable(tick, size, start);
      TruncateFloor(start, tick);
    } else {
      var n := |evs| - 1;
      RunBounded(tick, size, start, ss[..n + 1], evs[..n], latest);
      RunReachable(tick, size, start, ss[..n + 1], evs[..n]);
      NextBounded(ss[n], NowAfter(start, evs[..n]), evs[n], ss[n + 1], latest);
      NextSize(ss[n], NowAfter(start, evs[..n]), evs[n], ss[n + 1]);
    }
  }

  lemma RunReachable(tick: int, size: int, start: int, ss: seq<State>, evs: seq<Event>)
    requires tick >= 1 && size >= 2 && start >= 0
    requires Run(tick, size, start, ss, evs) && Forward(start, evs)
    ensures Reachable(ss[|evs|], NowAfter(start, evs))
  {
    RunRefines(tick, size, start, ss, evs);
  }

  lemma NextSize(s: State, now: int, ev: Event, s': State)
    requires Reachable(s, now) && Next(s, ev, s')
    ensures s'.wheel.Wheel? && s'.wheel.wheelSize == s.wheel.wheelSize && s'.wheel.interval == s.wheel.interval
  {
    match ev
    case AfterFunc(t) =>
    case Stop(t, stopped) =>
    case Drain(to) =>
      var pops :| Drained(s, to, pops, s');
      DrainSize(s, to, pops, s');
  }

  lemma {:induction false} DrainSize(s: State, now: int, pops: seq<Entry>, s': State)
    requires Inv(s) && Drained(s, now, pops, s')
    ensures s'.wheel.Wheel? && s'.wheel.wheelSize == s.wheel.wheelSize && s'.wheel.interval == s.wheel.interval
    decreases |pops|
  {
    if pops != [] {
      StepInv(s, pops[0]);
      AdvanceClocked(s.wheel, BucketAt(s.wheel, pops[0].tick, pops[0].index).expiration);
      DrainSize(Step(s, pops[0]), now, pops[1..], s');
    }
  }

  /** No computation on any reachable wheel overflows, if expirations stay below 2^63 / (wheelSize + 1) and the base fits. */
  lemma NoOverflow(tick: int, size: int, start: int, ss: seq<State>, evs: seq<Event>, latest: int)
    requires tick >= 1 && size >= 2 && 0 <= start <= latest
    requires Run(tick, size, start, ss, evs) && Forward(start, evs)
    requires forall t :: AfterFunc(t) in evs ==> t.expiration <= latest
    requires (size + 1) * latest < 0x8000_0000_0000_0000 && latest + tick * size < 0x8000_0000_0000_0000
    ensures Fits(ss[|evs|].wheel)
  {
    RunBounded(tick, size, start, ss, evs, latest);
    RunRefines(tick, size, start, ss, evs);
    BoundedFits(ss[|evs|].wheel, size, latest);
  }
}