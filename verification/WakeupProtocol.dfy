/**
  The sleep/wake handshake between one `Poll` and any number of concurrent `Offer`s, one atomic step of the source
  at a time, over all interleavings without exit (common/timingwheel/delayqueue.go).
  The priority queue is the multiset of its priorities; PriorityQueue.dfy shows that an item lands at index 0 exactly
  when it precedes everything queued, which is how `Push` decides here.
 */
module WakeupProtocol {

  /** Where `Poll` is in its loop. */
  datatype PollPc =
    | Top                     // about to read the clock
    | Ready(now: int)         // about to lock, peek and unlock
    | WaitEmpty               // waiting for a wakeup
    | WaitTimed(seen: int, delta: int)  // waiting for a wakeup or, for so long, for the head it saw to expire
    | TimedOut(seen: int)     // timer fired, about to swap `sleeping`
    | Draining                // receiving from `wakeupC` to unblock a sender
    | Handing(item: int)      // sending the expired element to `C`

  /** Where an `Offer` is after its critical section. */
  datatype OfferPc =
    | ToCas                   // pushed at index 0, about to compare-and-swap `sleeping`
    | Waking                  // won the swap, blocked on sending to `wakeupC`
    | Done

  datatype State = State(
    queue: multiset<int>,
    sleeping: bool,
    poll: PollPc,
    offers: map<nat, OfferPc>,
    offered: multiset<int>,
    delivered: seq<int>)

  const Init: State := State(multiset{}, false, Top, map[], multiset{}, [])

  datatype Action =
    | Push(id: nat, priority: int)  // Offer: lock, push, read the index, unlock
    | Cas(id: nat)                  // Offer: CompareAndSwap(&sleeping, 1, 0)
    | Wake(id: nat)                 // Offer's send meets Poll's receive on wakeupC
    | ReadClock(now: int)
    | Peek(head: int)               // Poll: PeekAndShift and, if nothing is due, sleeping = 1
    | TimeUp
    | Swap                          // Poll: SwapInt32(&sleeping, 0)
    | Deliver                       // Poll's send on C is received

  predicate Least(q: multiset<int>, x: int) {
    x in q && forall y <- q :: x <= y
  }

  predicate First(q: multiset<int>, x: int) {
    forall y <- q :: x < y
  }

  /** `Poll` is at a point where it can still receive from `wakeupC` before going back to the top. */
  predicate Receptive(pc: PollPc) {
    pc.WaitEmpty? || pc.WaitTimed? || pc.TimedOut? || pc.Draining?
  }

  function PeekHead(s: State, now: int, x: int): State {
    if x > now then s.(sleeping := true, poll := WaitTimed(x, x - now))
    else s.(queue := s.queue - multiset{x}, poll := Handing(x))
  }

  ghost predicate Next(s: State, a: Action, s': State) {
    match a
    case Push(id, p) =>
      && id !in s.offers
      && s' == s.(queue := s.queue + multiset{p}, offered := s.offered + multiset{p},
                  offers := s.offers[id := if First(s.queue, p) then ToCas else Done])
    case Cas(id) =>
      && id in s.offers && s.offers[id].ToCas?
      && s' == if s.sleeping then s.(sleeping := false, offers := s.offers[id := Waking])
               else s.(offers := s.offers[id := Done])
    case Wake(id) =>
      && id in s.offers && s.offers[id].Waking?
      && (s.poll.WaitEmpty? || s.poll.WaitTimed? || s.poll.Draining?)
      && s' == s.(poll := Top, offers := s.offers[id := Done])
    case ReadClock(now) => s.poll.Top? && s' == s.(poll := Ready(now))
    case Peek(x) =>
      && s.poll.Ready?
      && if s.queue == multiset{} then s' == s.(sleeping := true, poll := WaitEmpty)
         else Least(s.queue, x) && s' == PeekHead(s, s.poll.now, x)
    case TimeUp => s.poll.WaitTimed? && s' == s.(poll := TimedOut(s.poll.seen))
    case Swap =>
      && s.poll.TimedOut?
      && s' == s.(sleeping := false, poll := if s.sleeping then Top else Draining)
    case Deliver =>
      s.poll.Handing? && s' == s.(poll := Top, delivered := s.delivered + [s.poll.item])
  }

  predicate IsWaking(s: State, id: nat) {
    id in s.offers && s.offers[id].Waking?
  }

  predicate IsToCas(s: State, id: nat) {
    id in s.offers && s.offers[id].ToCas?
  }

  /** The elements between the queue and the receiver. */
  function InHand(pc: PollPc): multiset<int> {
    if pc.Handing? then multiset{pc.item} else multiset{}
  }

  /** Something is queued ahead of what Poll saw when it decided to wait. */
  ghost predicate Outdated(s: State) {
    || (s.poll.WaitEmpty? && s.queue != multiset{})
    || ((s.poll.WaitTimed? || s.poll.TimedOut?) && exists y :: y in s.queue && y < s.poll.seen)
  }

  ghost predicate Inv(s: State) {
    // at most one Offer has won the swap and not yet sent
    && (forall i, j :: IsWaking(s, i) && IsWaking(s, j) ==> i == j)
    // and that is exactly when Poll can receive but nobody may win the swap again
    && ((exists i :: IsWaking(s, i)) <==> Receptive(s.poll) && !s.sleeping)
    && (s.sleeping ==> Receptive(s.poll) && !s.poll.Draining?)
    // the head Poll saw stays queued while it waits
    && (s.poll.WaitTimed? || s.poll.TimedOut? ==> s.poll.seen in s.queue)
    // no lost wakeup: an earlier head than the one seen is announced by an Offer that has still to swap
    && (s.sleeping && Outdated(s) ==> exists i :: IsToCas(s, i))
    // nothing is lost or delivered twice
    && s.offered == s.queue + InHand(s.poll) + multiset(s.delivered)
  }

  lemma InitInv()
    ensures Inv(Init)
  {}

  lemma PushInv(s: State, id: nat, p: int, s': State)
    requires Inv(s) && Next(s, Push(id, p), s')
    ensures Inv(s')
  {
    assert forall i :: i != id ==> (IsWaking(s', i) <==> IsWaking(s, i)) && (IsToCas(s, i) ==> IsToCas(s', i));
    assert !IsWaking(s', id);
    if First(s.queue, p) {
      assert IsToCas(s', id);
    }
    assert s'.queue + InHand(s.poll) + multiset(s.delivered) == s.offered + multiset{p};
  }

  lemma CasInv(s: State, id: nat, s': State)
    requires Inv(s) && Next(s, Cas(id), s')
    ensures Inv(s')
  {
    assert !IsWaking(s, id);
    assert forall i :: i != id ==> (IsWaking(s', i) <==> IsWaking(s, i));
    if s.sleeping { assert IsWaking(s', id); }
  }

  lemma WakeInv(s: State, id: nat, s': State)
    requires Inv(s) && Next(s, Wake(id), s')
    ensures Inv(s')
  {
    assert IsWaking(s, id);
    assert forall i :: i != id ==> (IsWaking(s', i) <==> IsWaking(s, i));
  }

  /** Steps of Poll that leave the Offers alone. */
  lemma SameOffers(s: State, s': State)
    requires s'.offers == s.offers
    ensures forall i :: IsWaking(s', i) <==> IsWaking(s, i)
    ensures forall i :: IsToCas(s', i) <==> IsToCas(s, i)
  {}

  lemma PeekWaitInv(s: State, x: int, s': State)
    requires Inv(s) && Next(s, Peek(x), s') && s'.sleeping
    ensures Inv(s')
  {
    SameOffers(s, s');
    assert !Outdated(s');
    assert InHand(s'.poll) == InHand(s.poll);
  }

  lemma PeekTakeInv(s: State, x: int, s': State)
    requires Inv(s) && Next(s, Peek(x), s') && s'.poll == Handing(x) && x in s.queue && s'.queue == s.queue - multiset{x}
    ensures Inv(s')
  {
    SameOffers(s, s');
    var sent := multiset(s.delivered);
    assert s'.queue + multiset{x} + sent == s.queue + InHand(s.poll) + sent;
  }

  lemma PeekInv(s: State, x: int, s': State)
    requires Inv(s) && Next(s, Peek(x), s')
    ensures Inv(s')
  {
    if s'.poll.Handing? { PeekTakeInv(s, x, s'); } else { PeekWaitInv(s, x, s'); }
  }

  lemma SwapInv(s: State, s': State)
    requires Inv(s) && Next(s, Swap, s')
    ensures Inv(s')
  {
    hide Least, First;
    SameOffers(s, s');
  }

  lemma DeliverInv(s: State, s': State)
    requires Inv(s) && Next(s, Deliver, s')
    ensures Inv(s')
  {
    hide Least, First;
    SameOffers(s, s');
    Sum(s.queue, multiset{s.poll.item}, s.delivered, s.poll.item);
  }

  lemma Sum(queue: multiset<int>, hand: multiset<int>, delivered: seq<int>, x: int)
    requires hand == multiset{x}
    ensures queue + multiset{} + multiset(delivered + [x]) == queue + hand + multiset(delivered)
  {}

  lemma PollInv(s: State, a: Action, s': State)
    requires Inv(s) && Next(s, a, s') && (a.ReadClock? || a.TimeUp?)
    ensures Inv(s')
  {
    hide Least, First;
    SameOffers(s, s');
  }

  lemma NextInv(s: State, a: Action, s': State)
    requires Inv(s) && Next(s, a, s')
    ensures Inv(s')
  {
    match a
    case Push(id, p) => PushInv(s, id, p, s');
    case Cas(id) => CasInv(s, id, s');
    case Wake(id) => WakeInv(s, id, s');
    case Peek(x) => PeekInv(s, x, s');
    case Swap => SwapInv(s, s');
    case Deliver => DeliverInv(s, s');
    case _ => PollInv(s, a, s');
  }

  ghost predicate Run(ss: seq<State>, acts: seq<Action>) {
    && |ss| == |acts| + 1 && ss[0] == Init
    && forall i | 0 <= i < |acts| :: Next(ss[i], acts[i], ss[i + 1])
  }

  lemma {:induction false} RunInv(ss: seq<State>, acts: seq<Action>)
    requires Run(ss, acts)
    ensures Inv(ss[|acts|])
    decreases |acts|
  {
    if acts == [] { InitInv(); }
    else {
      var n := |acts| - 1;
      RunInv(ss[..n + 1], acts[..n]);
      NextInv(ss[n], acts[n], ss[n + 1]);
    }
  }

  /** No stuck handshake: a blocked sender is released by at most one more step of `Poll`. */
  lemma SenderReleased(ss: seq<State>, acts: seq<Action>, id: nat) returns (s1: State, s2: State)
    requires Run(ss, acts) && IsWaking(ss[|acts|], id)
    ensures var s := ss[|acts|];
            && (s1 == s || (s.poll.TimedOut? && Next(s, Swap, s1)))
            && Next(s1, Wake(id), s2) && s2.offers[id] == Done && s2.poll == Top
  {
    var s := ss[|acts|];
    RunInv(ss, acts);
    s1 := if s.poll.TimedOut? then s.(poll := Draining) else s;
    s2 := s1.(poll := Top, offers := s1.offers[id := Done]);
  }

  /** No lost wakeup: once every Offer has finished, a waiting Poll waits for exactly the current head, and can be woken. */
  lemma QuietPollWaitsForHead(ss: seq<State>, acts: seq<Action>)
    requires Run(ss, acts)
    requires forall i <- ss[|acts|].offers :: ss[|acts|].offers[i].Done?
    ensures var s := ss[|acts|];
            && (s.poll.WaitEmpty? ==> s.sleeping && s.queue == multiset{})
            && (s.poll.WaitTimed? ==> s.sleeping && Least(s.queue, s.poll.seen))
            && !s.poll.Draining?
  {
    var s := ss[|acts|];
    RunInv(ss, acts);
    assert forall i :: !IsWaking(s, i) && !IsToCas(s, i);
    if s.poll.WaitTimed? {
      forall y <- s.queue ensures s.poll.seen <= y {}
    }
  }

  /** While Poll sleeps on a head and an earlier element is queued, its Offer is about to wake Poll up, and will succeed. */
  lemma EarlierElementWakes(ss: seq<State>, acts: seq<Action>, y: int) returns (id: nat, s1: State, s2: State)
    requires Run(ss, acts)
    requires ss[|acts|].sleeping && y in ss[|acts|].queue
    requires ss[|acts|].poll.WaitEmpty? || (ss[|acts|].poll.WaitTimed? && y < ss[|acts|].poll.seen)
    ensures Next(ss[|acts|], Cas(id), s1) && Next(s1, Wake(id), s2) && s2.poll == Top
  {
    var s := ss[|acts|];
    RunInv(ss, acts);
    id :| IsToCas(s, id);
    s1 := s.(sleeping := false, offers := s.offers[id := Waking]);
    s2 := s1.(poll := Top, offers := s1.offers[id := Done]);
  }

  /** Every element offered is queued, in Poll's hand, or delivered, each exactly once. */
  lemma Conserved(ss: seq<State>, acts: seq<Action>)
    requires Run(ss, acts)
    ensures var s := ss[|acts|]; s.offered == s.queue + InHand(s.poll) + multiset(s.delivered)
  {
    RunInv(ss, acts);
  }

  // ---------- one pass of Poll's loop ----------

  /** Only `Offer`s act between `i` and `j`. */
  ghost predicate OnlyOffers(acts: seq<Action>, i: nat, j: nat) {
    i < j <= |acts| && forall k | i < k < j :: acts[k].Push? || acts[k].Cas?
  }

  /** `Offer`s add to the queue, and leave `Poll` and what it delivered alone. */
  lemma {:induction false} OffersAdd(ss: seq<State>, acts: seq<Action>, i: nat, j: nat)
    requires Run(ss, acts) && OnlyOffers(acts, i, j)
    ensures ss[j].poll == ss[i + 1].poll && ss[j].delivered == ss[i + 1].delivered && ss[i + 1].queue <= ss[j].queue
    decreases j
  {
    if i + 1 < j {
      OffersAdd(ss, acts, i, j - 1);
      assert Next(ss[j - 1], acts[j - 1], ss[j]);
    }
  }

  lemma PollStep(s: State, a: Action, s': State)
    requires Next(s, a, s')
    ensures s'.poll.Ready? ==> a == ReadClock(s'.poll.now) || (s.poll == s'.poll && (a.Push? || a.Cas?))
    ensures s'.poll.Handing? ==> a.Peek? || (s.poll == s'.poll && (a.Push? || a.Cas?))
  {}

  /** Every look at the queue has its own clock reading. */
  lemma {:induction false} ReadingOf(ss: seq<State>, acts: seq<Action>, k: nat) returns (i: nat)
    requires Run(ss, acts) && k <= |acts| && ss[k].poll.Ready?
    ensures i < k && acts[i] == ReadClock(ss[k].poll.now) && OnlyOffers(acts, i, k)
    decreases k
  {
    hide Next;
    i := k - 1;
    PollStep(ss[i], acts[i], ss[i + 1]);
    if !acts[i].ReadClock? { i := ReadingOf(ss, acts, i); }
  }

  /** And every delivery its own look at the queue. */
  lemma {:induction false} PeekOf(ss: seq<State>, acts: seq<Action>, j: nat) returns (k: nat)
    requires Run(ss, acts) && j <= |acts| && ss[j].poll.Handing?
    ensures k < j && acts[k].Peek? && ss[k + 1].poll == ss[j].poll && OnlyOffers(acts, k, j)
    decreases j
  {
    hide Next;
    k := j - 1;
    PollStep(ss[k], acts[k], ss[k + 1]);
    if !acts[k].Peek? { k := PeekOf(ss, acts, k); }
  }

  /**
    What a pass does, by the clock it read: when some element is due it takes a least one off the queue; otherwise it takes none
    and goes to sleep, with a timer for exactly the time until the first is due, or without one when the queue is empty.
   */
  lemma PassExact(ss: seq<State>, acts: seq<Action>, k: nat) returns (i: nat)
    requires Run(ss, acts) && k < |acts| && acts[k].Peek?
    ensures i < k && acts[i].ReadClock? && OnlyOffers(acts, i, k)
    ensures var now, x, q := acts[i].now, acts[k].head, ss[k].queue;
            && (q != multiset{} ==> Least(q, x))
            && if exists y :: y in q && y <= now then ss[k + 1] == ss[k].(queue := q - multiset{x}, poll := Handing(x)) && x <= now
               else ss[k + 1] == ss[k].(sleeping := true, poll := if q == multiset{} then WaitEmpty else WaitTimed(x, x - now))
  {
    assert Next(ss[k], acts[k], ss[k + 1]);
    i := ReadingOf(ss, acts, k);
  }

  /** Every element delivered was due by the clock reading of the pass that took it, and a least one of the queue at that time. */
  lemma DeliveredDue(ss: seq<State>, acts: seq<Action>, j: nat) returns (i: nat, k: nat)
    requires Run(ss, acts) && j < |acts| && acts[j].Deliver?
    ensures i < k < j && acts[i].ReadClock? && acts[k].Peek? && OnlyOffers(acts, i, k) && OnlyOffers(acts, k, j)
    ensures var x := acts[k].head;
            x <= acts[i].now && Least(ss[k].queue, x) && ss[k + 1].queue == ss[k].queue - multiset{x} && ss[j + 1].delivered == ss[j].delivered + [x]
  {
    assert Next(ss[j], acts[j], ss[j + 1]);
    k := PeekOf(ss, acts, j);
    i := PassExact(ss, acts, k);
  }

  /** A pass that finds something due delivers it before `Poll` does anything else; one that does not delivers nothing. */
  lemma DeliversExact(ss: seq<State>, acts: seq<Action>, k: nat, j: nat) returns (i: nat)
    requires Run(ss, acts) && k < j < |acts| && acts[k].Peek? && OnlyOffers(acts, k, j) && !acts[j].Push? && !acts[j].Cas?
    ensures i < k && acts[i].ReadClock? && OnlyOffers(acts, i, k)
    ensures acts[j].Deliver? <==> exists y :: y in ss[k].queue && y <= acts[i].now
    ensures acts[j].TimeUp? ==> ss[k].queue != multiset{}
    ensures acts[j].Deliver? || acts[j].TimeUp? || acts[j].Wake?
  {
    i := PassExact(ss, acts, k);
    OffersAdd(ss, acts, k, j);
    assert Next(ss[j], acts[j], ss[j + 1]);
  }

  /** No element leaves the queue between two looks at it. */
  lemma {:induction false} QueueGrows(ss: seq<State>, acts: seq<Action>, k: nat, l: nat)
    requires Run(ss, acts) && k <= l <= |acts| && forall m | k <= m < l :: !acts[m].Peek?
    ensures ss[k].queue <= ss[l].queue
    decreases l
  {
    if k < l {
      QueueGrows(ss, acts, k, l - 1);
      assert Next(ss[l - 1], acts[l - 1], ss[l]);
    }
  }

  /** The timer is long enough: when the clock has moved on by `delta` since the reading it was set from, the next pass takes something. */
  lemma TimerSuffices(ss: seq<State>, acts: seq<Action>, k: nat, l: nat) returns (i: nat, r: nat)
    requires Run(ss, acts) && k < l < |acts| && acts[k].Peek? && acts[l].Peek? && forall m | k < m < l :: !acts[m].Peek?
    requires ss[k + 1].poll.WaitTimed?
    ensures i < k && acts[i].ReadClock? && OnlyOffers(acts, i, k) && k < r < l && acts[r].ReadClock? && OnlyOffers(acts, r, l)
    ensures ss[k + 1].poll.delta > 0
    ensures acts[r].now >= acts[i].now + ss[k + 1].poll.delta ==> ss[l + 1].poll.Handing?
  {
    i := PassExact(ss, acts, k);
    QueueGrows(ss, acts, k + 1, l);
    r := PassExact(ss, acts, l);
    assert acts[k].head in ss[l].queue;
  }

  // ---------- what wakes Poll ----------

  lemma OfferStep(s: State, a: Action, s': State, id: nat)
    requires Next(s, a, s')
    ensures IsToCas(s', id) ==> IsToCas(s, id) || (a.Push? && a.id == id && forall y <- s.queue :: a.priority < y)
    ensures IsWaking(s', id) ==> IsWaking(s, id) || (a == Cas(id) && IsToCas(s, id) && s.sleeping)
  {}

  lemma {:induction false} SwapReason(ss: seq<State>, acts: seq<Action>, n: nat, id: nat) returns (k: nat)
    requires Run(ss, acts) && n <= |acts| && IsToCas(ss[n], id)
    ensures k < n && acts[k].Push? && acts[k].id == id && forall y <- ss[k].queue :: acts[k].priority < y
    decreases n
  {
    hide Next;
    k := n - 1;
    OfferStep(ss[k], acts[k], ss[k + 1], id);
    if IsToCas(ss[k], id) { k := SwapReason(ss, acts, k, id); }
  }

  lemma {:induction false} SendReason(ss: seq<State>, acts: seq<Action>, n: nat, id: nat) returns (m: nat)
    requires Run(ss, acts) && n <= |acts| && IsWaking(ss[n], id)
    ensures m < n && acts[m] == Cas(id) && IsToCas(ss[m], id) && ss[m].sleeping
    decreases n
  {
    hide Next;
    m := n - 1;
    OfferStep(ss[m], acts[m], ss[m + 1], id);
    if IsWaking(ss[m], id) { m := SendReason(ss, acts, m, id); }
  }

  /** Poll is woken only by an `Offer` whose element was before all others when it was pushed, and that found Poll sleeping. */
  lemma WokenFor(ss: seq<State>, acts: seq<Action>, l: nat, id: nat) returns (k: nat, m: nat)
    requires Run(ss, acts) && l < |acts| && acts[l] == Wake(id)
    ensures k < m < l && acts[k].Push? && acts[k].id == id && (forall y <- ss[k].queue :: acts[k].priority < y)
    ensures acts[m] == Cas(id) && ss[m].sleeping
  {
    assert Next(ss[l], acts[l], ss[l + 1]);
    m := SendReason(ss, acts, l, id);
    k := SwapReason(ss, acts, m, id);
  }
}
