/**
  The hierarchical timing wheel as a value: what `add`, `addOrRun`, `advanceClock`, the consumer step of
  `Start` and `Timer.Stop` compute (common/timingwheel/timingwheel.go, bucket.go).
  TimingWheel.dfy has the classes that update this state in place.
 */
module WheelSpec {
  import opened Truncation

  /** A timer; `task` names the function it runs. */
  datatype Timer = Timer(task: nat, expiration: int)

  /** Expiration -1 marks a bucket that is not queued. */
  datatype Bucket = Bucket(expiration: int, timers: seq<Timer>)

  const IDLE: Bucket := Bucket(-1, [])

  /** A wheel and, when it has been needed, its overflow wheel. */
  datatype Wheel =
    | NoWheel
    | Wheel(tick: int, wheelSize: int, interval: int, currentTime: int, buckets: seq<Bucket>, overflow: Wheel)

  /** A bucket in the delay queue: its priority, and the tick and index that name the bucket. */
  datatype Entry = Entry(expiration: int, tick: int, index: int)

  /** The whole structure; `fired` is the log of tasks started so far, in order. */
  datatype State = State(wheel: Wheel, queue: multiset<Entry>, fired: seq<Timer>)

  // ---------- operations ----------

  function NewWheel(tick: int, size: int, start: int): Wheel
    requires size >= 0
  {
    Wheel(tick, size, tick * size, Truncate(start, tick), seq(size, _ => IDLE), NoWheel)
  }

  /** Tick sizes, wheel sizes and the clocks of all levels fit together. */
  ghost predicate Clocked(w: Wheel) {
    w.Wheel? ==>
      && w.tick >= 1
      && w.wheelSize >= 2
      && w.interval == w.tick * w.wheelSize
      && 2 * w.tick <= w.interval
      && w.currentTime >= 0
      && Divides(w.tick, w.currentTime)
      && |w.buckets| == w.wheelSize
      && (w.overflow.Wheel? ==>
            && w.overflow.tick == w.interval
            && w.overflow.wheelSize == w.wheelSize
            && w.overflow.currentTime == Truncate(w.currentTime, w.interval))
      && Clocked(w.overflow)
  }

  datatype AddResult = AddResult(ok: bool, wheel: Wheel, offered: seq<Entry>)

  /** Same geometry and clock at the top level. */
  ghost predicate SameLevel(w: Wheel, w': Wheel) {
    w.Wheel? && w'.Wheel? && w'.tick == w.tick && w'.wheelSize == w.wheelSize &&
    w'.interval == w.interval && w'.currentTime == w.currentTime
  }

  /** The overflow wheel, created on first use. */
  function OverflowOf(w: Wheel): Wheel
    requires w.Wheel? && w.wheelSize >= 0
  {
    if w.overflow.NoWheel? then NewWheel(w.interval, w.wheelSize, w.currentTime) else w.overflow
  }

  lemma NewWheelClocked(tick: int, size: int, start: int)
    requires tick >= 1 && size >= 2 && start >= 0
    ensures Clocked(NewWheel(tick, size, start))
  {
    TruncateFloor(start, tick);
    MulMono(2, size, tick);
  }

  /** How far beyond the reach of this level an expiration lies; it falls from each level to the next. */
  function Beyond(w: Wheel, expiration: int): nat
    requires w.Wheel?
  {
    if expiration < w.currentTime + w.interval then 0 else expiration - (w.currentTime + w.interval) + 1
  }

  lemma BeyondFalls(w: Wheel, expiration: int)
    requires w.Wheel? && Clocked(w)
    requires expiration >= w.currentTime + w.interval
    ensures Clocked(OverflowOf(w)) && OverflowOf(w).tick == w.interval && OverflowOf(w).wheelSize == w.wheelSize
    ensures OverflowOf(w).currentTime == Truncate(w.currentTime, w.interval)
    ensures Beyond(OverflowOf(w), expiration) < Beyond(w, expiration)
    ensures OverflowOf(w).currentTime <= w.currentTime < OverflowOf(w).currentTime + w.interval
  {
    NewWheelClocked(w.interval, w.wheelSize, w.currentTime);
    TruncateFloor(w.currentTime, w.interval);
  }

  /** `add`: false when the timer is already due; otherwise the wheel holding it and the bucket offered, if any. */
  function Add(w: Wheel, t: Timer): (r: AddResult)
    requires w.Wheel? && Clocked(w)
    ensures SameLevel(w, r.wheel) && Clocked(r.wheel)
    decreases Beyond(w, t.expiration)
  {
    if t.expiration < w.currentTime + w.tick then
      AddResult(false, w, [])
    else if t.expiration < w.currentTime + w.interval then
      var virtualID := t.expiration / w.tick;
      var i := virtualID % w.wheelSize;
      var b := w.buckets[i];
      var e := virtualID * w.tick;
      AddResult(true, w.(buckets := w.buckets[i := Bucket(e, b.timers + [t])]),
                if b.expiration != e then [Entry(e, w.tick, i)] else [])
    else
      BeyondFalls(w, t.expiration);
      var r := Add(OverflowOf(w), t);
      AddResult(r.ok, w.(overflow := r.wheel), r.offered)
  }

  function AddOrRun(s: State, t: Timer): (s': State)
    requires s.wheel.Wheel? && Clocked(s.wheel)
    ensures SameLevel(s.wheel, s'.wheel) && Clocked(s'.wheel)
  {
    var r := Add(s.wheel, t);
    State(r.wheel, s.queue + multiset(r.offered), if r.ok then s.fired else s.fired + [t])
  }

  function AdvanceClock(w: Wheel, expiration: int): (w': Wheel)
  {
    if w.NoWheel? || expiration < w.currentTime + w.tick then w
    else
      var ct := Truncate(expiration, w.tick);
      w.(currentTime := ct, overflow := AdvanceClock(w.overflow, ct))
  }

  predicate HasBucket(w: Wheel, tick: int, i: int) {
    w.Wheel? && ((w.tick == tick && 0 <= i < |w.buckets|) || HasBucket(w.overflow, tick, i))
  }

  function BucketAt(w: Wheel, tick: int, i: int): Bucket
    requires HasBucket(w, tick, i)
  {
    if w.tick == tick && 0 <= i < |w.buckets| then w.buckets[i] else BucketAt(w.overflow, tick, i)
  }

  function WithBucket(w: Wheel, tick: int, i: int, b: Bucket): (w': Wheel)
    requires HasBucket(w, tick, i)
    ensures SameLevel(w, w') && HasBucket(w', tick, i)
    ensures Clocked(w) ==> Clocked(w')
    ensures BucketAt(w', tick, i) == b
  {
    if w.tick == tick && 0 <= i < |w.buckets| then w.(buckets := w.buckets[i := b])
    else w.(overflow := WithBucket(w.overflow, tick, i, b))
  }

  lemma {:induction false} OtherBucket(w: Wheel, tick: int, i: int, b: Bucket, tick': int, i': int)
    requires HasBucket(w, tick, i) && HasBucket(w, tick', i') && (tick, i) != (tick', i')
    ensures HasBucket(WithBucket(w, tick, i, b), tick', i')
    ensures BucketAt(WithBucket(w, tick, i, b), tick', i') == BucketAt(w, tick', i')
    decreases w
  {
    if !(w.tick == tick && 0 <= i < |w.buckets|) && !(w.tick == tick' && 0 <= i' < |w.buckets|) {
      OtherBucket(w.overflow, tick, i, b, tick', i');
    }
  }

  lemma {:induction false} AddKeepsBuckets(w: Wheel, t: Timer, tick: int, i: int)
    requires w.Wheel? && Clocked(w) && HasBucket(w, tick, i)
    ensures HasBucket(Add(w, t).wheel, tick, i)
    decreases Beyond(w, t.expiration)
  {
    if t.expiration >= w.currentTime + w.interval {
      BeyondFalls(w, t.expiration);
      if !(w.tick == tick && 0 <= i < |w.buckets|) {
        AddKeepsBuckets(w.overflow, t, tick, i);
      }
    }
  }

  /**
    The loop of `Flush`: each captured timer is taken off the front of the bucket, then re-inserted
    through the base wheel.
   */
  function FlushLoop(s: State, tick: int, i: int, captured: seq<Timer>): (s': State)
    requires Clocked(s.wheel) && HasBucket(s.wheel, tick, i)
    ensures Clocked(s'.wheel) && SameLevel(s.wheel, s'.wheel) && HasBucket(s'.wheel, tick, i)
    decreases |captured|
  {
    if captured == [] then s
    else
      var s1 := TakeFirst(s, tick, i);
      AddKeepsBuckets(s1.wheel, captured[0], tick, i);
      FlushLoop(AddOrRun(s1, captured[0]), tick, i, captured[1..])
  }

  function TakeFirst(s: State, tick: int, i: int): (s': State)
    requires HasBucket(s.wheel, tick, i)
    ensures HasBucket(s'.wheel, tick, i) && SameLevel(s.wheel, s'.wheel)
    ensures Clocked(s.wheel) ==> Clocked(s'.wheel)
  {
    var b := BucketAt(s.wheel, tick, i);
    s.(wheel := WithBucket(s.wheel, tick, i, b.(timers := if b.timers == [] then [] else b.timers[1..])))
  }

  function Flush(s: State, tick: int, i: int): (s': State)
    requires Clocked(s.wheel) && HasBucket(s.wheel, tick, i)
    ensures Clocked(s'.wheel) && SameLevel(s.wheel, s'.wheel)
  {
    var s1 := FlushLoop(s, tick, i, BucketAt(s.wheel, tick, i).timers);
    s1.(wheel := WithBucket(s1.wheel, tick, i, BucketAt(s1.wheel, tick, i).(expiration := -1)))
  }

  lemma {:induction false} AdvanceClocked(w: Wheel, expiration: int)
    requires Clocked(w) && expiration >= 0
    ensures Clocked(AdvanceClock(w, expiration))
    ensures w.Wheel? ==>
              var w' := AdvanceClock(w, expiration);
              && w'.Wheel? && w'.tick == w.tick && w'.wheelSize == w.wheelSize && w'.buckets == w.buckets
              && w'.currentTime == (if expiration < w.currentTime + w.tick then w.currentTime else Truncate(expiration, w.tick))
              && w.currentTime <= w'.currentTime
    decreases w
  {
    if w.Wheel? && expiration >= w.currentTime + w.tick {
      var ct := Truncate(expiration, w.tick);
      TruncateFloor(expiration, w.tick);
      AdvanceClocked(w.overflow, ct);
      if w.overflow.Wheel? {
        TruncateFloor(w.currentTime, w.interval);
        if ct < w.overflow.currentTime + w.interval {
          TruncateUnique(ct, w.interval, w.overflow.currentTime);
        }
      }
    }
  }

  lemma {:induction false} AdvanceKeepsBuckets(w: Wheel, expiration: int, tick: int, i: int)
    requires HasBucket(w, tick, i)
    ensures HasBucket(AdvanceClock(w, expiration), tick, i)
    ensures BucketAt(AdvanceClock(w, expiration), tick, i) == BucketAt(w, tick, i)
    decreases w
  {
    if expiration >= w.currentTime + w.tick && !(w.tick == tick && 0 <= i < |w.buckets|) {
      AdvanceKeepsBuckets(w.overflow, Truncate(expiration, w.tick), tick, i);
    }
  }

  /** What a popped entry needs for the consumer step to make sense. */
  ghost predicate Poppable(s: State, e: Entry) {
    && s.wheel.Wheel? && Clocked(s.wheel)
    && HasBucket(s.wheel, e.tick, e.index)
    && BucketAt(s.wheel, e.tick, e.index).expiration >= 0
    && e in s.queue
  }

  /** The consumer step: the entry leaves the queue, the clocks advance to its bucket's expiration, the bucket is flushed. */
  function Step(s: State, e: Entry): (s': State)
    requires Poppable(s, e)
    ensures s'.wheel.Wheel? && Clocked(s'.wheel)
  {
    var expiration := BucketAt(s.wheel, e.tick, e.index).expiration;
    AdvanceClocked(s.wheel, expiration);
    AdvanceKeepsBuckets(s.wheel, expiration, e.tick, e.index);
    Flush(State(AdvanceClock(s.wheel, expiration), s.queue - multiset{e}, s.fired), e.tick, e.index)
  }

  /** `Timer.Stop` on a timer still held by a bucket: the element at `pos` is unlinked. */
  function StopAt(s: State, tick: int, i: int, pos: int): State
    requires HasBucket(s.wheel, tick, i) && 0 <= pos < |BucketAt(s.wheel, tick, i).timers|
  {
    var b := BucketAt(s.wheel, tick, i);
    s.(wheel := WithBucket(s.wheel, tick, i, b.(timers := b.timers[..pos] + b.timers[pos + 1..])))
  }
}
