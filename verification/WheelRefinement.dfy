/**
  The wheel refines a flat set of timers: after any run, the timers fired are the ones a plain
  "fire everything that is due" list would have fired (timingwheel.go).
 */
module WheelRefinement {
  import opened Truncation
  import opened WheelSpec
  import opened WheelInvariant
  import opened WheelStep

  // ---------- draining ----------

  /** The consumer pops minimum entries until the head of the queue lies beyond `now`. */
  ghost predicate Drained(s: State, now: int, pops: seq<Entry>, s': State)
    decreases |pops|
  {
    if pops == [] then s' == s && NotBefore(s.queue, now + 1)
    else
      && pops[0].expiration <= now
      && NotBefore(s.queue, pops[0].expiration)
      && Poppable(s, pops[0])
      && Drained(Step(s, pops[0]), now, pops[1..], s')
  }

  lemma {:induction false} MinEntry(q: multiset<Entry>) returns (e: Entry)
    requires q != multiset{}
    ensures e in q && NotBefore(q, e.expiration)
    decreases |q|
  {
    e :| e in q;
    if q != multiset{e} {
      var rest := q - multiset{e};
      assert q == rest + multiset{e};
      if rest != multiset{} {
        var m := MinEntry(rest);
        if m.expiration < e.expiration { e := m; }
      }
    }
  }

  /** Draining terminates: each step lowers the weight of the wheel, or empties the queue by one. */
  lemma {:induction false} DrainTerminates(s: State, now: int) returns (pops: seq<Entry>, s': State)
    requires Inv(s)
    ensures Drained(s, now, pops, s')
    decreases Weight(s.wheel), |s.queue|
  {
    pops, s' := [], s;
    if s.queue != multiset{} {
      var e := MinEntry(s.queue);
      if e.expiration <= now {
        StepInv(s, e);
        var rest;
        rest, s' := DrainTerminates(Step(s, e), now);
        pops := [e] + rest;
        assert pops[1..] == rest;
      }
    }
  }

  /** A drain that may not be finished yet. */
  ghost predicate Popped(s: State, now: int, pops: seq<Entry>, s': State)
    decreases |pops|
  {
    if pops == [] then s' == s
    else
      && pops[0].expiration <= now
      && NotBefore(s.queue, pops[0].expiration)
      && Poppable(s, pops[0])
      && Popped(Step(s, pops[0]), now, pops[1..], s')
  }

  lemma {:induction false} PoppedMore(s: State, now: int, pops: seq<Entry>, s1: State, e: Entry)
    requires Popped(s, now, pops, s1)
    requires e.expiration <= now && NotBefore(s1.queue, e.expiration) && Poppable(s1, e)
    ensures Popped(s, now, pops + [e], Step(s1, e))
    decreases |pops|
  {
    var s2 := Step(s1, e);
    hide Step, Poppable, NotBefore;
    var all := pops + [e];
    if pops == [] {
      assert all[1..] == [];
    } else {
      assert all[0] == pops[0] && all[1..] == pops[1..] + [e];
      PoppedMore(Step(s, pops[0]), now, pops[1..], s1, e);
    }
  }

  lemma {:induction false} PoppedAll(s: State, now: int, pops: seq<Entry>, s': State)
    requires Popped(s, now, pops, s') && NotBefore(s'.queue, now + 1)
    ensures Drained(s, now, pops, s')
    decreases |pops|
  {
    if pops != [] { PoppedAll(Step(s, pops[0]), now, pops[1..], s'); }
  }

  predicate Due(t: Timer, tick: int, now: int) {
    Truncate(t.expiration, tick) <= now
  }

  /** Expirations popped in order, none before `from`. */
  ghost predicate Ascending(pops: seq<Entry>, from: int) {
    && (forall i | 0 <= i < |pops| :: from <= pops[i].expiration)
    && (forall i, j | 0 <= i < j < |pops| :: pops[i].expiration <= pops[j].expiration)
  }

  /** The log grew by timers whose slots lie between `from` and `to`, in slot order. */
  ghost predicate FiredInOrder(log: seq<Timer>, log': seq<Timer>, tick: int, from: int, to: int) {
    && log <= log'
    && (forall k | |log| <= k < |log'| :: from <= Truncate(log'[k].expiration, tick) <= to)
    && (forall j, k | |log| <= j < k < |log'| :: Truncate(log'[j].expiration, tick) <= Truncate(log'[k].expiration, tick))
  }

  /** What a drain to `now` achieves. */
  ghost predicate DrainOK(s: State, now: int, pops: seq<Entry>, s': State)
    requires s.wheel.Wheel?
  {
    && Inv(s')
    && s'.wheel.tick == s.wheel.tick
    && (s'.wheel.currentTime == s.wheel.currentTime || s.wheel.currentTime < s'.wheel.currentTime <= now)
    && Timers(s'.wheel) + multiset(s'.fired) == Timers(s.wheel) + multiset(s.fired)
    && Ascending(pops, s.wheel.currentTime)
    && FiredInOrder(s.fired, s'.fired, s.wheel.tick, s.wheel.currentTime, now)
    && forall t <- Timers(s'.wheel) :: !Due(t, s.wheel.tick, now)
  }

  lemma {:induction false} DrainInv(s: State, now: int, pops: seq<Entry>, s': State)
    requires Inv(s) && Drained(s, now, pops, s')
    ensures DrainOK(s, now, pops, s')
    decreases |pops|
  {
    if pops == [] {
      forall t <- Timers(s'.wheel) ensures !Due(t, s.wheel.tick, now) { NotDue(s, t, now); }
    } else {
      var e := pops[0];
      QueuedBucket(s, e);
      StepInv(s, e);
      var s1 := Step(s, e);
      DrainInv(s1, now, pops[1..], s');
      DrainGlue(s, e, s1, now, pops, s');
    }
  }

  lemma DrainGlue(s: State, e: Entry, s1: State, now: int, pops: seq<Entry>, s': State)
    requires HasBucket(s.wheel, e.tick, e.index) && Stepped(s, e, s1)
    requires s.wheel.currentTime <= e.expiration <= now && pops != [] && pops[0] == e
    requires DrainOK(s1, now, pops[1..], s')
    ensures DrainOK(s, now, pops, s')
  {
    var rest := pops[1..];
    forall i | 0 < i < |pops| ensures e.expiration <= pops[i].expiration { assert pops[i] == rest[i - 1]; }
    forall i, j | 0 < i < j < |pops| ensures pops[i].expiration <= pops[j].expiration {
      assert pops[i] == rest[i - 1] && pops[j] == rest[j - 1];
    }
    forall k | |s.fired| <= k < |s1.fired| ensures Truncate(s'.fired[k].expiration, s.wheel.tick) == e.expiration {
      assert s'.fired[k] == s1.fired[k];
    }
  }

  /** A timer held while every queued bucket lies beyond `now` is not due. */
  lemma NotDue(s: State, t: Timer, now: int)
    requires Inv(s) && t in Timers(s.wheel) && NotBefore(s.queue, now + 1)
    ensures !Due(t, s.wheel.tick, now)
  {
    var tick, i := Holder(s.wheel, t);
    BucketAtOK(s.wheel, tick, i);
    var b := BucketAt(s.wheel, tick, i);
    ArmedAt(s.wheel, tick, i);
    assert s.queue[Entry(b.expiration, tick, i)] == 1;
    TickDivides(s.wheel, tick, i, b.expiration);
    DueIff(t.expiration, s.wheel.tick, b.expiration);
    if Truncate(t.expiration, s.wheel.tick) < b.expiration {
      TruncateFloor(t.expiration, s.wheel.tick);
      MultiplesApart(Truncate(t.expiration, s.wheel.tick), b.expiration, s.wheel.tick);
    }
  }

  /** Every held timer is in some bucket. */
  lemma {:induction false} Holder(w: Wheel, t: Timer) returns (tick: int, i: int)
    requires Clocked(w) && t in Timers(w)
    ensures HasBucket(w, tick, i) && t in BucketAt(w, tick, i).timers
    ensures w.tick <= tick
    decreases w
  {
    TimerInLevel(w.buckets, t);
    if t in LevelTimers(w.buckets) {
      i :| 0 <= i < |w.buckets| && t in w.buckets[i].timers;
      tick := w.tick;
    } else {
      tick, i := Holder(w.overflow, t);
    }
  }

  // ---------- stopping ----------

  lemma StopInv(s: State, tick: int, i: int, pos: int)
    requires Inv(s) && HasBucket(s.wheel, tick, i) && 0 <= pos < |BucketAt(s.wheel, tick, i).timers|
    ensures var s' := StopAt(s, tick, i, pos);
            && Inv(s') && SameLevel(s.wheel, s'.wheel)
            && Timers(s'.wheel) + multiset{BucketAt(s.wheel, tick, i).timers[pos]} == Timers(s.wheel)
  {
    var b := BucketAt(s.wheel, tick, i);
    var b' := b.(timers := b.timers[..pos] + b.timers[pos + 1..]);
    BucketAtOK(s.wheel, tick, i);
    SetBucketAt(s.wheel, tick, i, b');
    SetBucketArmed(s.wheel, tick, i, b');
    ArmedAt(s.wheel, tick, i);
    var w' := WithBucket(s.wheel, tick, i, b');
    assert b.timers == b.timers[..pos] + [b.timers[pos]] + b.timers[pos + 1..];
    assert multiset(b.timers) == multiset(b'.timers) + multiset{b.timers[pos]};
    forall t: Timer ensures (Timers(w') + multiset{b.timers[pos]})[t] == Timers(s.wheel)[t] {
      assert (Timers(w') + multiset(b.timers))[t] == (Timers(s.wheel) + multiset(b'.timers))[t];
    }
    forall x: Entry ensures Armed(w', x) <==> Armed(s.wheel, x) {
      assert x == Entry(x.expiration, x.tick, x.index);
    }
  }

  // ---------- runs ----------

  /** What a client does: set a timer, stop one (with the answer it got), or let time reach `now`. */
  datatype Event = AfterFunc(t: Timer) | Stop(t: Timer, stopped: bool) | Drain(now: int)

  /** One event. The guard holds in every reachable state (`RunRefines`). */
  ghost predicate Next(s: State, ev: Event, s': State) {
    && s.wheel.Wheel? && Clocked(s.wheel)
    && match ev
    case AfterFunc(t) => s' == AddOrRun(s, t)
    case Stop(t, stopped) =>
      && stopped == (t in Timers(s.wheel))
      && if stopped then
           exists tick, i, pos | HasBucket(s.wheel, tick, i) && 0 <= pos < |BucketAt(s.wheel, tick, i).timers| ::
             BucketAt(s.wheel, tick, i).timers[pos] == t && s' == StopAt(s, tick, i, pos)
         else s' == s
    case Drain(now) => exists pops :: Drained(s, now, pops, s')
  }

  /** The simple form: the timers waiting, those fired, and the last instant drained to. */
  datatype Flat = Flat(pending: multiset<Timer>, fired: multiset<Timer>, now: int)

  /** A due timer may be started at once; a drain starts everything due and nothing else. */
  ghost predicate FlatNext(tick: int, f: Flat, ev: Event, f': Flat) {
    match ev
    case AfterFunc(t) =>
      || f' == f.(pending := f.pending + multiset{t})
      || (Due(t, tick, f.now) && f' == f.(fired := f.fired + multiset{t}))
    case Stop(t, stopped) =>
      && stopped == (t in f.pending)
      && f' == if stopped then f.(pending := f.pending - multiset{t}) else f
    case Drain(now) =>
      && f'.now == now
      && (forall t: Timer :: f'.pending[t] == if Due(t, tick, now) then 0 else f.pending[t])
      && (forall t: Timer :: f'.fired[t] == f.fired[t] + if Due(t, tick, now) then f.pending[t] else 0)
  }

  function Abs(s: State, now: int): Flat {
    Flat(Timers(s.wheel), multiset(s.fired), now)
  }

  /** The wheel's invariant together with the last drained instant. */
  ghost predicate Reachable(s: State, now: int) {
    Inv(s) && s.wheel.currentTime <= now && forall t <- s.fired :: Due(t, s.wheel.tick, now)
  }

  function After(now: int, ev: Event): int {
    if ev.Drain? then ev.now else now
  }

  /** One event on the wheel is one event on the flat set of timers. */
  lemma NextRefines(s: State, now: int, ev: Event, s': State)
    requires Reachable(s, now) && Next(s, ev, s') && now <= After(now, ev)
    ensures s'.wheel.Wheel? && s'.wheel.tick == s.wheel.tick
    ensures Reachable(s', After(now, ev))
    ensures FlatNext(s.wheel.tick, Abs(s, now), ev, Abs(s', After(now, ev)))
  {
    match ev
    case AfterFunc(t) => AfterFuncRefines(s, now, t);
    case Stop(t, stopped) =>
      if stopped {
        var tick, i, pos :| HasBucket(s.wheel, tick, i) && 0 <= pos < |BucketAt(s.wheel, tick, i).timers| &&
          BucketAt(s.wheel, tick, i).timers[pos] == t && s' == StopAt(s, tick, i, pos);
        StopInv(s, tick, i, pos);
        assert Timers(s'.wheel) == Timers(s'.wheel) + multiset{t} - multiset{t};
      }
    case Drain(t) =>
      var pops :| Drained(s, t, pops, s');
      DrainRefines(s, now, t, pops, s');
  }

  lemma AfterFuncRefines(s: State, now: int, t: Timer)
    requires Reachable(s, now)
    ensures var s' := AddOrRun(s, t);
            && Reachable(s', now)
            && FlatNext(s.wheel.tick, Abs(s, now), AfterFunc(t), Abs(s', now))
            && (s'.fired == s.fired <==> s.wheel.currentTime < Truncate(t.expiration, s.wheel.tick))
  {
    AddInv(s.wheel, t);
    AddedQueue(s, [], t);
    DueIff(t.expiration, s.wheel.tick, s.wheel.currentTime);
    var r := Add(s.wheel, t);
    var s' := AddOrRun(s, t);
    forall e <- s'.queue ensures s.wheel.currentTime <= e.expiration {
      if e !in s.queue { assert e in r.offered; }
    }
    assert multiset(s.fired + [t]) == multiset(s.fired) + multiset{t};
  }

  lemma DrainRefines(s: State, now: int, to: int, pops: seq<Entry>, s': State)
    requires Reachable(s, now) && now <= to && Drained(s, to, pops, s')
    ensures s'.wheel.Wheel? && s'.wheel.tick == s.wheel.tick
    ensures Reachable(s', to)
    ensures FlatNext(s.wheel.tick, Abs(s, now), Drain(to), Abs(s', to))
  {
    DrainInv(s, to, pops, s');
    forall t <- s'.fired ensures Due(t, s.wheel.tick, to) {
      var k :| 0 <= k < |s'.fired| && s'.fired[k] == t;
      if k < |s.fired| { assert t == s.fired[k]; assert t in s.fired; }
    }
    forall t: Timer
      ensures Timers(s'.wheel)[t] == if Due(t, s.wheel.tick, to) then 0 else Timers(s.wheel)[t]
      ensures multiset(s'.fired)[t] == multiset(s.fired)[t] + if Due(t, s.wheel.tick, to) then Timers(s.wheel)[t] else 0
    {
      DrainCounts(s, to, pops, s', t);
    }
  }

  /** A drain moves all copies of a due timer to the log and leaves the others. */
  lemma DrainCounts(s: State, to: int, pops: seq<Entry>, s': State, t: Timer)
    requires s.wheel.Wheel? && DrainOK(s, to, pops, s')
    ensures Timers(s'.wheel)[t] == if Due(t, s.wheel.tick, to) then 0 else Timers(s.wheel)[t]
    ensures multiset(s'.fired)[t] == multiset(s.fired)[t] + if Due(t, s.wheel.tick, to) then Timers(s.wheel)[t] else 0
  {
    var gone := s'.fired[|s.fired|..];
    assert s'.fired == s.fired + gone;
    assert (Timers(s'.wheel) + multiset(s'.fired))[t] == (Timers(s.wheel) + multiset(s.fired))[t];
    if Due(t, s.wheel.tick, to) {
      assert t !in Timers(s'.wheel);
    } else {
      forall x <- gone ensures Due(x, s.wheel.tick, to) {
        var k :| 0 <= k < |gone| && gone[k] == x;
        assert x == s'.fired[|s.fired| + k];
      }
      assert t !in multiset(gone);
    }
  }

  // ---------- whole runs ----------

  function Initial(tick: int, size: int, start: int): State
    requires size >= 0
  {
    State(NewWheel(tick, size, start), multiset{}, [])
  }

  lemma InitialReachable(tick: int, size: int, start: int)
    requires tick >= 1 && size >= 2 && start >= 0
    ensures Reachable(Initial(tick, size, start), start)
    ensures Timers(Initial(tick, size, start).wheel) == multiset{}
    ensures Initial(tick, size, start).wheel.currentTime == start - start % tick
  {
    NewWheelClocked(tick, size, start);
    TruncateFloor(start, tick);
    LevelTimersIdle(size);
    var s := Initial(tick, size, start);
    assert forall e: Entry :: !Armed(s.wheel, e);
    forall i | 0 <= i < |s.wheel.buckets| ensures BucketOK(s.wheel.buckets[i], i, s.wheel) {}
    assert BucketsOK(s.wheel) && QueueOK(s, []) && NotBefore(s.queue, s.wheel.currentTime);
  }

  /** The last instant drained to. */
  function NowAfter(start: int, evs: seq<Event>): int {
    if evs == [] then start else After(NowAfter(start, evs[..|evs| - 1]), evs[|evs| - 1])
  }

  /** Drains do not go back in time. */
  predicate Forward(start: int, evs: seq<Event>) {
    evs == [] ||
    (Forward(start, evs[..|evs| - 1]) && NowAfter(start, evs[..|evs| - 1]) <= NowAfter(start, evs))
  }

  ghost predicate Run(tick: int, size: int, start: int, ss: seq<State>, evs: seq<Event>)
    requires tick >= 1 && size >= 2 && start >= 0
  {
    && |ss| == |evs| + 1
    && ss[0] == Initial(tick, size, start)
    && (forall i | 0 <= i < |evs| :: Next(ss[i], evs[i], ss[i + 1]))
  }

  function AddedBy(ev: Event): multiset<Timer> {
    if ev.AfterFunc? then multiset{ev.t} else multiset{}
  }

  function StoppedBy(ev: Event): multiset<Timer> {
    if ev.Stop? && ev.stopped then multiset{ev.t} else multiset{}
  }

  /** The timers set so far. */
  function AddedIn(evs: seq<Event>): multiset<Timer> {
    if evs == [] then multiset{}
    else AddedIn(evs[..|evs| - 1]) + AddedBy(evs[|evs| - 1])
  }

  /** The timers for which `Stop` answered true. */
  function StoppedIn(evs: seq<Event>): multiset<Timer> {
    if evs == [] then multiset{}
    else StoppedIn(evs[..|evs| - 1]) + StoppedBy(evs[|evs| - 1])
  }

  /** Every reachable state satisfies the invariant, every step refines the flat one, and no timer is lost or made up. */
  lemma {:induction false} RunRefines(tick: int, size: int, start: int, ss: seq<State>, evs: seq<Event>)
    requires tick >= 1 && size >= 2 && start >= 0
    requires Run(tick, size, start, ss, evs) && Forward(start, evs)
    ensures var last := ss[|evs|];
            && Reachable(last, NowAfter(start, evs))
            && last.wheel.tick == tick
            && Timers(last.wheel) + multiset(last.fired) + StoppedIn(evs) == AddedIn(evs)
    ensures evs != [] ==>
              FlatNext(tick, Abs(ss[|evs| - 1], NowAfter(start, evs[..|evs| - 1])), evs[|evs| - 1],
                       Abs(ss[|evs|], NowAfter(start, evs)))
    decreases |evs|
  {
    if evs == [] {
      InitialReachable(tick, size, start);
    } else {
      var n := |evs| - 1;
      RunRefines(tick, size, start, ss[..n + 1], evs[..n]);
      NextRefines(ss[n], NowAfter(start, evs[..n]), evs[n], ss[n + 1]);
      NextConserves(tick, Abs(ss[n], NowAfter(start, evs[..n])), evs[n], Abs(ss[n + 1], NowAfter(start, evs)),
                    StoppedIn(evs[..n]), AddedIn(evs[..n]));
    }
  }

  /** Each flat step balances the timers set against those waiting, fired and stopped. */
  lemma NextConserves(tick: int, f: Flat, ev: Event, f': Flat, stopped: multiset<Timer>, added: multiset<Timer>)
    requires FlatNext(tick, f, ev, f') && f.pending + f.fired + stopped == added
    ensures f'.pending + f'.fired + (stopped + StoppedBy(ev)) == added + AddedBy(ev)
  {
    var lhs, rhs := f'.pending + f'.fired + (stopped + StoppedBy(ev)), added + AddedBy(ev);
    forall t: Timer ensures lhs[t] == rhs[t] {
      NextCounts(tick, f, ev, f', t);
      assert (f.pending + f.fired + stopped)[t] == added[t];
    }
  }

  lemma NextCounts(tick: int, f: Flat, ev: Event, f': Flat, t: Timer)
    requires FlatNext(tick, f, ev, f')
    ensures f'.pending[t] + f'.fired[t] + StoppedBy(ev)[t] == f.pending[t] + f.fired[t] + AddedBy(ev)[t]
  {}

  /**
    The main theorem: when a run has drained to `now`, the timers fired are exactly those set, not stopped in
    time, and due by `now`, each as often as it was set; all others still wait.
   */
  lemma DrainedExactly(tick: int, size: int, start: int, ss: seq<State>, evs: seq<Event>, t: Timer)
    requires tick >= 1 && size >= 2 && start >= 0
    requires Run(tick, size, start, ss, evs) && Forward(start, evs)
    requires evs != [] && evs[|evs| - 1].Drain?
    ensures var now := evs[|evs| - 1].now;
            var left: int := AddedIn(evs)[t] as int - StoppedIn(evs)[t] as int;
            && left >= 0
            && multiset(ss[|evs|].fired)[t] == (if Due(t, tick, now) then left else 0)
            && Timers(ss[|evs|].wheel)[t] == (if Due(t, tick, now) then 0 else left)
  {
    hide Next, Inv, Timers, Initial;
    var n := |evs| - 1;
    RunRefines(tick, size, start, ss[..n + 1], evs[..n]);
    RunRefines(tick, size, start, ss, evs);
    var last := ss[|evs|];
    assert (Timers(last.wheel) + multiset(last.fired) + StoppedIn(evs))[t] == AddedIn(evs)[t];
    assert t in multiset(last.fired) <==> t in last.fired;
    NextRefines(ss[n], NowAfter(start, evs[..n]), evs[n], last);
  }

  /** With a 1 ms tick, due means expired: never early, never missed. */
  lemma UnitTickExactly(size: int, start: int, ss: seq<State>, evs: seq<Event>, t: Timer)
    requires size >= 2 && start >= 0
    requires Run(1, size, start, ss, evs) && Forward(start, evs)
    requires evs != [] && evs[|evs| - 1].Drain?
    requires AddedIn(evs)[t] == 1 && StoppedIn(evs)[t] == 0
    ensures multiset(ss[|evs|].fired)[t] == if t.expiration <= evs[|evs| - 1].now then 1 else 0
  {
    DrainedExactly(1, size, start, ss, evs, t);
  }

  /** No event ever gets stuck: every call on a reachable wheel has an outcome. */
  lemma EventsEnabled(s: State, now: int, t: Timer, to: int)
    requires Reachable(s, now)
    ensures exists s' :: Next(s, AfterFunc(t), s')
    ensures exists stopped, s' :: Next(s, Stop(t, stopped), s')
    ensures exists s' :: Next(s, Drain(to), s')
  {
    assert Next(s, AfterFunc(t), AddOrRun(s, t));
    if t in Timers(s.wheel) {
      var tick, i := Holder(s.wheel, t);
      var pos :| 0 <= pos < |BucketAt(s.wheel, tick, i).timers| && BucketAt(s.wheel, tick, i).timers[pos] == t;
      assert Next(s, Stop(t, true), StopAt(s, tick, i, pos));
    } else {
      assert Next(s, Stop(t, false), s);
    }
    var pops, s' := DrainTerminates(s, to);
    assert Next(s, Drain(to), s');
  }
}
