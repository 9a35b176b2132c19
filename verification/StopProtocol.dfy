/**
  `Timer.Stop` against a concurrent `bucket.Flush`, one memory access of the source at a time
  (common/timingwheel/bucket.go). The model follows one AfterFunc timer: its bucket pointer, its list element, the
  lists it is linked in, the bucket mutexes, the goroutine that creates it, the wheel goroutine that flushes buckets,
  and any number of goroutines calling Stop. Other timers appear only as other users of the mutexes.
 */
module StopProtocol {

  datatype Ptr = Nil | To(bucket: nat)

  datatype Owner = Creator | Flusher | Stopper(id: nat) | Bystander

  /** `bucket.remove`: the steps left, under the bucket's mutex. */
  datatype Removal = ToCheck | ToUnlink | ToClearBucket | ToClearElement

  /** `addOrRun`: nothing decided, or a step of `bucket.Add` on the chosen bucket. */
  datatype Placing = Undecided | ToLock(into: nat) | ToPush(into: nat) | ToSetBucket(into: nat) | ToSetElement(into: nat) | ToUnlock(into: nat)

  datatype CreatorPc = Creating(stage: Placing) | Created

  datatype FlusherPc =
    | Idle
    | Flushing(bucket: nat)
    | Removing(bucket: nat, step: Removal)
    | Reinserting(bucket: nat, stage: Placing)

  datatype StopPc =
    | ToRead
    | ToLockFor(bucket: nat)
    | Unlinking(bucket: nat, step: Removal)
    | ToUnlockAfter(bucket: nat, removed: bool)
    | Returned

  datatype Stop = Stop(pc: StopPc, stopped: bool)

  /** Who is responsible for the timer. An auxiliary variable: no step depends on it. */
  datatype Where = WithCreator | InBucket(bucket: nat) | WithFlusher | WithStopper(id: nat) | Started | Stopped(id: nat)

  datatype State = State(
    b: Ptr,
    element: Ptr,
    lists: set<nat>,
    mutex: map<nat, Owner>,
    creator: CreatorPc,
    flusher: FlusherPc,
    stops: map<nat, Stop>,
    starts: nat,
    place: Where)

  const Init: State :=
    State(Nil, Nil, {}, map[], Creating(Undecided), Idle, map[], 0, WithCreator)

  // ---------- steps ----------

  predicate Holds(s: State, bucket: nat, o: Owner) {
    bucket in s.mutex && s.mutex[bucket] == o
  }

  function Unlocked(s: State, bucket: nat): State {
    s.(mutex := map k | k in s.mutex && k != bucket :: s.mutex[k])
  }

  /** One step of `bucket.Add`, or of the decision before it; `None` if the step has to wait or there is none. */
  datatype Moved = Blocked | Moved(state: State, stage: Placing)

  function PlaceStep(s: State, who: Owner, stage: Placing): Moved {
    match stage
    case Undecided => Blocked
    case ToLock(into) =>
      if into in s.mutex then Blocked else Moved(s.(mutex := s.mutex[into := who]), ToPush(into))
    case ToPush(into) => Moved(s.(lists := s.lists + {into}), ToSetBucket(into))
    case ToSetBucket(into) => Moved(s.(b := To(into)), ToSetElement(into))
    case ToSetElement(into) => Moved(s.(element := To(into), place := InBucket(into)), ToUnlock(into))
    case ToUnlock(into) => Blocked
  }

  datatype RemoveResult = Going(state: State, step: Removal) | Finished(state: State, removed: bool)

  /** One step of `bucket.remove`. Unlinking takes the element out of the list it belongs to. */
  function RemoveStep(s: State, bucket: nat, step: Removal, holder: Where): RemoveResult {
    match step
    case ToCheck => if s.b != To(bucket) then Finished(s, false) else Going(s, ToUnlink)
    case ToUnlink => Going(s.(lists := if s.element.To? then s.lists - {s.element.bucket} else s.lists, place := holder), ToClearBucket)
    case ToClearBucket => Going(s.(b := Nil), ToClearElement)
    case ToClearElement => Finished(s.(element := Nil), true)
  }

  datatype Action =
    | CreateChoose(into: nat) | CreateRun | CreateStep | CreateDone
    | FlushBegin(bucket: nat) | FlushPick | FlushRemove | FlushChoose(into: nat) | FlushRun | FlushStep | FlushPlaced | FlushEnd
    | StopCall(id: nat) | StopRead(id: nat) | StopLock(id: nat) | StopRemove(id: nat) | StopUnlock(id: nat)
    | OtherLock(bucket: nat) | OtherUnlock(bucket: nat)

  ghost predicate CreatorNext(s: State, a: Action, s': State)
    requires a.CreateChoose? || a.CreateRun? || a.CreateStep? || a.CreateDone?
  {
    && s.creator.Creating?
    && match a
    case CreateChoose(into) => s.creator.stage.Undecided? && s' == s.(creator := Creating(ToLock(into)))
    case CreateRun => s.creator.stage.Undecided? && s' == s.(creator := Created, starts := s.starts + 1, place := Started)
    case CreateStep =>
      var m := PlaceStep(s, Creator, s.creator.stage);
      m.Moved? && s' == m.state.(creator := Creating(m.stage))
    case CreateDone =>
      s.creator.stage.ToUnlock? && s' == Unlocked(s, s.creator.stage.into).(creator := Created)
  }

  ghost predicate FlusherNext(s: State, a: Action, s': State)
    requires a.FlushBegin? || a.FlushPick? || a.FlushRemove? || a.FlushChoose? || a.FlushRun? || a.FlushStep? || a.FlushPlaced? || a.FlushEnd?
  {
    var f := s.flusher;
    match a
    case FlushBegin(bucket) =>
      f.Idle? && bucket !in s.mutex && s' == s.(mutex := s.mutex[bucket := Flusher], flusher := Flushing(bucket))
    case FlushPick =>
      f.Flushing? && f.bucket in s.lists && s' == s.(flusher := Removing(f.bucket, ToCheck))
    case FlushRemove =>
      && f.Removing?
      && s' == match RemoveStep(s, f.bucket, f.step, WithFlusher) {
        case Going(s1, step) => s1.(flusher := Removing(f.bucket, step))
        case Finished(s1, _) => s1.(flusher := Reinserting(f.bucket, Undecided))
      }
    case FlushChoose(into) =>
      // a lower wheel's bucket, never the one being flushed (WheelStep.AddBelow)
      && f.Reinserting? && f.stage.Undecided? && into != f.bucket
      && s' == s.(flusher := Reinserting(f.bucket, ToLock(into)))
    case FlushRun =>
      && f.Reinserting? && f.stage.Undecided?
      && s' == s.(flusher := Flushing(f.bucket), starts := s.starts + 1, place := Started)
    case FlushStep =>
      && f.Reinserting?
      && var m := PlaceStep(s, Flusher, f.stage);
         m.Moved? && s' == m.state.(flusher := Reinserting(f.bucket, m.stage))
    case FlushPlaced =>
      f.Reinserting? && f.stage.ToUnlock? && s' == Unlocked(s, f.stage.into).(flusher := Flushing(f.bucket))
    case FlushEnd =>
      f.Flushing? && s' == Unlocked(s, f.bucket).(flusher := Idle)
  }

  ghost predicate StopperNext(s: State, a: Action, s': State)
    requires a.StopCall? || a.StopRead? || a.StopLock? || a.StopRemove? || a.StopUnlock?
  {
    if a.StopCall? then
      s.creator.Created? && a.id !in s.stops && s' == s.(stops := s.stops[a.id := Stop(ToRead, false)])
    else
      && a.id in s.stops
      && var t := s.stops[a.id];
      match a
      case StopRead(id) =>
        t.pc.ToRead? && s' == s.(stops := s.stops[id := t.(pc := if s.b.Nil? then Returned else ToLockFor(s.b.bucket))])
      case StopLock(id) =>
        && t.pc.ToLockFor? && t.pc.bucket !in s.mutex
        && s' == s.(mutex := s.mutex[t.pc.bucket := Stopper(id)], stops := s.stops[id := t.(pc := Unlinking(t.pc.bucket, ToCheck))])
      case StopRemove(id) =>
        && t.pc.Unlinking?
        && s' == match RemoveStep(s, t.pc.bucket, t.pc.step, WithStopper(id)) {
          case Going(s1, step) => s1.(stops := s1.stops[id := t.(pc := Unlinking(t.pc.bucket, step))])
          case Finished(s1, removed) =>
            s1.(stops := s1.stops[id := t.(pc := ToUnlockAfter(t.pc.bucket, removed))], place := if removed then Stopped(id) else s1.place)
        }
      case StopUnlock(id) =>
        && t.pc.ToUnlockAfter?
        && s' == Unlocked(s, t.pc.bucket).(stops := s.stops[id := Stop(ToRead, t.pc.removed)])
  }

  ghost predicate Next(s: State, a: Action, s': State) {
    match a
    case CreateChoose(_) => CreatorNext(s, a, s')
    case CreateRun => CreatorNext(s, a, s')
    case CreateStep => CreatorNext(s, a, s')
    case CreateDone => CreatorNext(s, a, s')
    case StopCall(_) => StopperNext(s, a, s')
    case StopRead(_) => StopperNext(s, a, s')
    case StopLock(_) => StopperNext(s, a, s')
    case StopRemove(_) => StopperNext(s, a, s')
    case StopUnlock(_) => StopperNext(s, a, s')
    case OtherLock(bucket) => bucket !in s.mutex && s' == s.(mutex := s.mutex[bucket := Bystander])
    case OtherUnlock(bucket) => Holds(s, bucket, Bystander) && s' == Unlocked(s, bucket)
    case _ => FlusherNext(s, a, s')
  }

  // ---------- the invariant ----------

  predicate Loose(s: State) {
    s.b == Nil && s.element == Nil && s.lists == {}
  }

  /** What the timer looks like at each step of being placed. */
  predicate Placed(s: State, stage: Placing) {
    match stage
    case ToSetBucket(into) => s.b == Nil && s.element == Nil && s.lists == {into}
    case ToSetElement(into) => s.b == To(into) && s.element == Nil && s.lists == {into}
    case ToUnlock(_) => false
    case _ => Loose(s)
  }

  /** And at each step of being removed, once it has been unlinked. */
  predicate Unlinked(s: State, bucket: nat, step: Removal) {
    && s.lists == {} && s.element == To(bucket)
    && ((step.ToClearBucket? && s.b == To(bucket)) || (step.ToClearElement? && s.b == Nil))
  }

  predicate Succeeded(t: Stop) {
    t.stopped || (t.pc.ToUnlockAfter? && t.pc.removed)
  }

  predicate PlaceOK(s: State) {
    && s.starts == (if s.place.Started? then 1 else 0)
    && match s.place
       case WithCreator => s.creator.Creating? && Placed(s, s.creator.stage)
       case InBucket(k) => s.b == To(k) && s.element == To(k) && s.lists == {k}
       case WithFlusher =>
         || (s.flusher.Removing? && Unlinked(s, s.flusher.bucket, s.flusher.step))
         || (s.flusher.Reinserting? && Placed(s, s.flusher.stage))
       case WithStopper(id) =>
         id in s.stops && s.stops[id].pc.Unlinking? && Unlinked(s, s.stops[id].pc.bucket, s.stops[id].pc.step)
       case Started => Loose(s)
       case Stopped(id) => Loose(s) && id in s.stops && Succeeded(s.stops[id])
  }

  /** The mutex taken while placing. */
  predicate Locked(s: State, stage: Placing, who: Owner) {
    stage.Undecided? || stage.ToLock? || Holds(s, stage.into, who)
  }

  predicate CreatorOK(s: State) {
    s.creator.Creating? ==>
      && Locked(s, s.creator.stage, Creator)
      && (s.creator.stage.ToUnlock? || s.place.WithCreator?)
  }

  predicate FlusherOK(s: State) {
    var f := s.flusher;
    f.Idle? ||
    (&& Holds(s, f.bucket, Flusher)
     && (f.Removing? ==> s.place == if f.step.ToCheck? || f.step.ToUnlink? then InBucket(f.bucket) else WithFlusher)
     && (f.Reinserting? ==>
           && Locked(s, f.stage, Flusher)
           && (!f.stage.Undecided? ==> f.stage.into != f.bucket)
           && (f.stage.ToUnlock? || s.place.WithFlusher?)))
  }

  predicate StopOK(s: State, id: nat)
    requires id in s.stops
  {
    var t := s.stops[id];
    && (t.pc.Unlinking? ==>
          && Holds(s, t.pc.bucket, Stopper(id))
          && (t.pc.step.ToUnlink? ==> s.place == InBucket(t.pc.bucket))
          && (t.pc.step.ToClearBucket? || t.pc.step.ToClearElement? ==> s.place == WithStopper(id)))
    && (t.pc.ToUnlockAfter? ==> Holds(s, t.pc.bucket, Stopper(id)))
    && (t.stopped ==> t.pc.ToRead? || t.pc.Returned?)
    && (Succeeded(t) ==> s.place == Stopped(id))
  }

  ghost predicate Inv(s: State) {
    PlaceOK(s) && CreatorOK(s) && FlusherOK(s) && forall id <- s.stops :: StopOK(s, id)
  }

  lemma InitInv()
    ensures Inv(Init)
  {}

  lemma CreatorInv(s: State, a: Action, s': State)
    requires Inv(s) && (a.CreateChoose? || a.CreateRun? || a.CreateStep? || a.CreateDone?) && CreatorNext(s, a, s')
    ensures Inv(s')
  {
    forall id <- s'.stops ensures StopOK(s', id) { assert StopOK(s, id); }
  }

  lemma FlusherRemoveInv(s: State, s': State)
    requires Inv(s) && FlusherNext(s, FlushRemove, s')
    ensures Inv(s')
  {
    forall id <- s'.stops ensures StopOK(s', id) { assert StopOK(s, id); }
  }

  lemma FlusherInv(s: State, a: Action, s': State)
    requires Inv(s) && FlusherNext.requires(s, a, s') && !a.FlushRemove? && FlusherNext(s, a, s')
    ensures Inv(s')
  {
    forall id <- s'.stops ensures StopOK(s', id) { assert StopOK(s, id); }
  }

  lemma StopRemoveInv(s: State, id: nat, s': State)
    requires Inv(s) && StopperNext(s, StopRemove(id), s')
    ensures Inv(s')
  {
    assert StopOK(s, id);
    forall i <- s'.stops ensures StopOK(s', i) { assert StopOK(s, i); }
  }

  lemma StopperInv(s: State, a: Action, s': State)
    requires Inv(s) && StopperNext.requires(s, a, s') && !a.StopRemove? && StopperNext(s, a, s')
    ensures Inv(s')
  {
    assert a.id in s.stops ==> StopOK(s, a.id);
    forall i <- s'.stops ensures StopOK(s', i) {
      if i in s.stops { assert StopOK(s, i); }
    }
  }

  lemma NextInv(s: State, a: Action, s': State)
    requires Inv(s) && Next(s, a, s')
    ensures Inv(s')
  {
    match a
    case CreateChoose(_) => CreatorInv(s, a, s');
    case CreateRun => CreatorInv(s, a, s');
    case CreateStep => CreatorInv(s, a, s');
    case CreateDone => CreatorInv(s, a, s');
    case StopCall(_) => StopperInv(s, a, s');
    case StopRead(_) => StopperInv(s, a, s');
    case StopLock(_) => StopperInv(s, a, s');
    case StopRemove(id) => StopRemoveInv(s, id, s');
    case StopUnlock(_) => StopperInv(s, a, s');
    case OtherLock(_) => OtherInv(s, a, s');
    case OtherUnlock(_) => OtherInv(s, a, s');
    case FlushRemove => FlusherRemoveInv(s, s');
    case _ => FlusherInv(s, a, s');
  }

  lemma OtherInv(s: State, a: Action, s': State)
    requires Inv(s) && (a.OtherLock? || a.OtherUnlock?) && Next(s, a, s')
    ensures Inv(s')
  {
    forall id <- s'.stops ensures StopOK(s', id) { assert StopOK(s, id); }
  }

  // ---------- what it is for ----------

  ghost predicate Run(ss: seq<State>, acts: seq<Action>) {
    && |ss| == |acts| + 1 && ss[0] == Init
    && forall i | 0 <= i < |acts| :: Next(ss[i], acts[i], ss[i + 1])
  }

  lemma {:induction false} RunInv(ss: seq<State>, acts: seq<Action>)
    requires Run(ss, acts)
    ensures Inv(ss[|acts|])
    decreases |acts|
  {
    if acts == [] { InitInv(); }
    else {
      var n := |acts| - 1;
      RunInv(ss[..n + 1], acts[..n]);
      NextInv(ss[n], acts[n], ss[n + 1]);
    }
  }

  /** `Stop` returned and answered true. */
  predicate AnsweredTrue(s: State, id: nat) {
    id in s.stops && s.stops[id].pc.Returned? && s.stops[id].stopped
  }

  /** An answer never changes. */
  lemma {:induction false} AnswerStays(ss: seq<State>, acts: seq<Action>, i: nat, id: nat)
    requires Run(ss, acts) && i <= |acts| && AnsweredTrue(ss[i], id)
    ensures AnsweredTrue(ss[|acts|], id)
    decreases |acts| - i
  {
    if i < |acts| {
      assert Next(ss[i], acts[i], ss[i + 1]);
      AnswerStays(ss, acts, i + 1, id);
    }
  }

  /** If `Stop` answers true at any point of a run, the timer's function is not started anywhere in the run. */
  lemma StoppedNeverStarts(ss: seq<State>, acts: seq<Action>, i: nat, id: nat)
    requires Run(ss, acts) && i <= |acts| && AnsweredTrue(ss[i], id)
    ensures ss[|acts|].starts == 0
  {
    AnswerStays(ss, acts, i, id);
    RunInv(ss, acts);
    assert StopOK(ss[|acts|], id);
  }

  lemma StartsOnce(ss: seq<State>, acts: seq<Action>)
    requires Run(ss, acts)
    ensures ss[|acts|].starts <= 1
  {
    RunInv(ss, acts);
  }

  /** Of all calls to `Stop`, at most one ever answers true. */
  lemma OneStopWins(ss: seq<State>, acts: seq<Action>, i: nat, id: nat, j: nat, id': nat)
    requires Run(ss, acts) && i <= |acts| && j <= |acts|
    requires AnsweredTrue(ss[i], id) && AnsweredTrue(ss[j], id')
    ensures id == id'
  {
    AnswerStays(ss, acts, i, id);
    AnswerStays(ss, acts, j, id');
    RunInv(ss, acts);
    assert StopOK(ss[|acts|], id) && StopOK(ss[|acts|], id');
  }

  /** An element is only ever unlinked from the list it is in, under that list's mutex. */
  lemma UnlinkSound(ss: seq<State>, acts: seq<Action>, id: nat)
    requires Run(ss, acts)
    ensures var s := ss[|acts|];
            && (s.flusher.Removing? && s.flusher.step.ToUnlink? ==>
                  s.element == To(s.flusher.bucket) && s.lists == {s.flusher.bucket} && Holds(s, s.flusher.bucket, Flusher))
            && (id in s.stops && s.stops[id].pc.Unlinking? && s.stops[id].pc.step.ToUnlink? ==>
                  var k := s.stops[id].pc.bucket; s.element == To(k) && s.lists == {k} && Holds(s, k, Stopper(id)))
            // and a flush never finds a timer whose bucket pointer says otherwise, so none is re-inserted while still linked
            && (s.flusher.Removing? && s.flusher.step.ToCheck? ==> s.b == To(s.flusher.bucket))
  {
    RunInv(ss, acts);
    var s := ss[|acts|];
    if id in s.stops { assert StopOK(s, id); }
  }

  /** A call to `Stop` about to read a nil bucket pointer and so to answer false. */
  predicate AnswersFalse(s: State, id: nat) {
    id in s.stops && s.stops[id] == Stop(ToRead, false) && s.b == Nil
  }

  /** The timer has been started or stopped, or another call to `Stop` has unlinked it. */
  predicate Settled(s: State) {
    s.place.Started? || s.place.Stopped? || s.place.WithStopper?
  }

  /** A flush has cleared the bucket pointer and not yet set it again. */
  predicate MidFlush(s: State) {
    || (s.flusher.Removing? && s.flusher.step.ToClearElement?)
    || (s.flusher.Reinserting? && !s.flusher.stage.ToSetElement? && !s.flusher.stage.ToUnlock?)
  }

  lemma {:induction false} StopsAfterCreation(ss: seq<State>, acts: seq<Action>)
    requires Run(ss, acts)
    ensures ss[|acts|].stops != map[] ==> ss[|acts|].creator.Created?
    decreases |acts|
  {
    if acts != [] {
      var n := |acts| - 1;
      StopsAfterCreation(ss[..n + 1], acts[..n]);
      assert Next(ss[n], acts[n], ss[n + 1]);
    }
  }

  /**
    Exactly when a false answer is right, that is, the timer has expired or been stopped: no flush may be moving the timer from one
    bucket to another.
   */
  lemma FalseAnswerExact(ss: seq<State>, acts: seq<Action>, id: nat)
    requires Run(ss, acts) && AnswersFalse(ss[|acts|], id)
    ensures Settled(ss[|acts|]) <==> !MidFlush(ss[|acts|])
  {
    RunInv(ss, acts);
    StopsAfterCreation(ss, acts);
  }

  const MISS: seq<Action> :=
    [CreateChoose(0), CreateStep, CreateStep, CreateStep, CreateStep, CreateDone,
     FlushBegin(0), FlushPick, FlushRemove, FlushRemove, FlushRemove, FlushRemove, StopCall(0), StopRead(0)]

  /** A timer placed in bucket 0, taken off by a flush, and stopped before it is re-inserted. */
  function MissState(i: nat): State {
    var owned := map[0 := Flusher];
    if i == 0 then Init
    else if i == 1 then Init.(creator := Creating(ToLock(0)))
    else if i == 2 then Init.(mutex := map[0 := Creator], creator := Creating(ToPush(0)))
    else if i == 3 then Init.(mutex := map[0 := Creator], lists := {0}, creator := Creating(ToSetBucket(0)))
    else if i == 4 then Init.(mutex := map[0 := Creator], lists := {0}, b := To(0), creator := Creating(ToSetElement(0)))
    else if i == 5 then State(To(0), To(0), {0}, map[0 := Creator], Creating(ToUnlock(0)), Idle, map[], 0, InBucket(0))
    else if i == 6 then State(To(0), To(0), {0}, map[], Created, Idle, map[], 0, InBucket(0))
    else if i == 7 then State(To(0), To(0), {0}, owned, Created, Flushing(0), map[], 0, InBucket(0))
    else if i == 8 then State(To(0), To(0), {0}, owned, Created, Removing(0, ToCheck), map[], 0, InBucket(0))
    else if i == 9 then State(To(0), To(0), {0}, owned, Created, Removing(0, ToUnlink), map[], 0, InBucket(0))
    else if i == 10 then State(To(0), To(0), {}, owned, Created, Removing(0, ToClearBucket), map[], 0, WithFlusher)
    else if i == 11 then State(Nil, To(0), {}, owned, Created, Removing(0, ToClearElement), map[], 0, WithFlusher)
    else if i == 12 then State(Nil, Nil, {}, owned, Created, Reinserting(0, Undecided), map[], 0, WithFlusher)
    else if i == 13 then State(Nil, Nil, {}, owned, Created, Reinserting(0, Undecided), map[0 := Stop(ToRead, false)], 0, WithFlusher)
    else State(Nil, Nil, {}, owned, Created, Reinserting(0, Undecided), map[0 := Stop(Returned, false)], 0, WithFlusher)
  }

  lemma MissStep(i: nat)
    requires i < |MISS|
    ensures Next(MissState(i), MISS[i], MissState(i + 1))
  {
    if i == 5 { assert Unlocked(MissState(5), 0).mutex == map[]; }
  }

  /** `Stop` may answer false although the timer is neither started nor stopped: the pointer is nil in mid-flush. */
  lemma StopCanMiss() returns (ss: seq<State>)
    ensures Run(ss, MISS)
    ensures var s := ss[|MISS|];
            0 in s.stops && s.stops[0] == Stop(Returned, false) && s.starts == 0 && s.place == WithFlusher
            && AnswersFalse(ss[|MISS| - 1], 0) && MidFlush(ss[|MISS| - 1]) && !Settled(ss[|MISS| - 1])
  {
    ss := seq(15, (i: nat) => MissState(i));
    assert ss[0] == MissState(0) && ss[13] == MissState(13) && ss[14] == MissState(14);
    forall i | 0 <= i < |MISS| ensures Next(ss[i], MISS[i], ss[i + 1]) {
      MissStep(i);
      assert ss[i] == MissState(i) && ss[i + 1] == MissState(i + 1);
    }
  }

  /** The steps a goroutine can take while it holds a mutex. */
  ghost predicate Acts(o: Owner, a: Action) {
    match o
    case Creator => a.CreateStep? || a.CreateDone?
    case Flusher => a.FlushEnd? || a.FlushRemove? || a.FlushRun? || a.FlushStep? || a.FlushPlaced?
    case Stopper(id) => a == StopRemove(id) || a == StopUnlock(id)
    case Bystander => a.OtherUnlock?
  }

  ghost predicate CanAct(s: State, o: Owner) {
    exists a, s' :: Acts(o, a) && Next(s, a, s')
  }

  /** The mutex the flusher is waiting for, if any. */
  predicate FlusherWaits(s: State) {
    s.flusher.Reinserting? && s.flusher.stage.ToLock? && s.flusher.stage.into in s.mutex
  }

  /** A held mutex is held by someone inside its critical section. */
  predicate Justified(s: State, m: nat)
    requires m in s.mutex
  {
    match s.mutex[m]
    case Creator => s.creator.Creating? && !s.creator.stage.Undecided? && !s.creator.stage.ToLock? && s.creator.stage.into == m
    case Flusher =>
      && !s.flusher.Idle?
      && (s.flusher.bucket == m ||
          (s.flusher.Reinserting? && !s.flusher.stage.Undecided? && !s.flusher.stage.ToLock? && s.flusher.stage.into == m))
    case Stopper(id) =>
      id in s.stops && (s.stops[id].pc.Unlinking? || s.stops[id].pc.ToUnlockAfter?) && s.stops[id].pc.bucket == m
    case Bystander => true
  }

  lemma JustifiedNext(s: State, a: Action, s': State, m: nat)
    requires Inv(s) && Next(s, a, s') && m in s'.mutex && (m in s.mutex ==> Justified(s, m))
    requires forall k <- s.mutex :: Justified(s, k)
    ensures Justified(s', m)
  {
    hide Inv, Justified;
    if a.StopCall? || a.StopRead? || a.StopLock? || a.StopRemove? || a.StopUnlock? {
      JustifiedStopper(s, a, s', m);
    } else if FlusherNext.requires(s, a, s') {
      JustifiedFlusher(s, a, s', m);
    } else {
      JustifiedOther(s, a, s', m);
    }
  }

  lemma JustifiedStopper(s: State, a: Action, s': State, m: nat)
    requires Inv(s) && StopperNext.requires(s, a, s') && StopperNext(s, a, s') && m in s'.mutex && (m in s.mutex ==> Justified(s, m))
    ensures Justified(s', m)
  {
    assert a.id in s.stops ==> StopOK(s, a.id);
  }

  lemma JustifiedFlusher(s: State, a: Action, s': State, m: nat)
    requires Inv(s) && FlusherNext.requires(s, a, s') && FlusherNext(s, a, s') && m in s'.mutex && (m in s.mutex ==> Justified(s, m))
    ensures Justified(s', m)
  {}

  lemma JustifiedOther(s: State, a: Action, s': State, m: nat)
    requires Inv(s) && Next(s, a, s') && !FlusherNext.requires(s, a, s') && !StopperNext.requires(s, a, s')
    requires m in s'.mutex && (m in s.mutex ==> Justified(s, m)) && forall k <- s.mutex :: Justified(s, k)
    ensures Justified(s', m)
  {}

  lemma {:induction false} RunJustified(ss: seq<State>, acts: seq<Action>)
    requires Run(ss, acts)
    ensures forall m <- ss[|acts|].mutex :: Justified(ss[|acts|], m)
    decreases |acts|
  {
    if acts != [] {
      var n := |acts| - 1;
      RunJustified(ss[..n + 1], acts[..n]);
      RunInv(ss[..n + 1], acts[..n]);
      var s' := ss[n + 1];
      forall m <- s'.mutex ensures Justified(s', m) { JustifiedNext(ss[n], acts[n], s', m); }
    }
  }

  lemma StopperCanAct(s: State, m: nat, id: nat)
    requires m in s.mutex && s.mutex[m] == Stopper(id) && Justified(s, m)
    ensures CanAct(s, Stopper(id))
  {
    var t := s.stops[id];
    if t.pc.ToUnlockAfter? {
      assert Next(s, StopUnlock(id), Unlocked(s, t.pc.bucket).(stops := s.stops[id := Stop(ToRead, t.pc.removed)]));
    } else {
      match RemoveStep(s, t.pc.bucket, t.pc.step, WithStopper(id))
      case Going(s1, step) => assert Next(s, StopRemove(id), s1.(stops := s1.stops[id := t.(pc := Unlinking(t.pc.bucket, step))]));
      case Finished(s1, removed) =>
        assert Next(s, StopRemove(id), s1.(stops := s1.stops[id := t.(pc := ToUnlockAfter(t.pc.bucket, removed))],
                                           place := if removed then Stopped(id) else s1.place));
    }
  }

  lemma CreatorCanAct(s: State, m: nat)
    requires m in s.mutex && s.mutex[m] == Creator && Justified(s, m)
    ensures CanAct(s, Creator)
  {
    if s.creator.stage.ToUnlock? {
      assert Next(s, CreateDone, Unlocked(s, s.creator.stage.into).(creator := Created));
    } else {
      var p := PlaceStep(s, Creator, s.creator.stage);
      assert Next(s, CreateStep, p.state.(creator := Creating(p.stage)));
    }
  }

  lemma FlusherCanAct(s: State)
    requires !s.flusher.Idle? && !FlusherWaits(s)
    ensures CanAct(s, Flusher)
  {
    var f := s.flusher;
    match f
    case Flushing(b) => assert Next(s, FlushEnd, Unlocked(s, b).(flusher := Idle));
    case Removing(b, step) =>
      match RemoveStep(s, b, step, WithFlusher) {
        case Going(s1, next) => assert Next(s, FlushRemove, s1.(flusher := Removing(b, next)));
        case Finished(s1, _) => assert Next(s, FlushRemove, s1.(flusher := Reinserting(b, Undecided)));
      }
    case Reinserting(b, stage) =>
      if stage.Undecided? {
        assert Next(s, FlushRun, s.(flusher := Flushing(b), starts := s.starts + 1, place := Started));
      } else if stage.ToUnlock? {
        assert Next(s, FlushPlaced, Unlocked(s, stage.into).(flusher := Flushing(b)));
      } else {
        var p := PlaceStep(s, Flusher, stage);
        assert Next(s, FlushStep, p.state.(flusher := Reinserting(b, p.stage)));
      }
  }

  /** No deadlock: a mutex holder can act, except a flusher waiting for a second mutex, and then that mutex's holder can. */
  lemma NoDeadlock(ss: seq<State>, acts: seq<Action>, k: nat)
    requires Run(ss, acts) && k in ss[|acts|].mutex
    ensures var s := ss[|acts|];
            || CanAct(s, s.mutex[k])
            || (s.mutex[k] == Flusher && FlusherWaits(s) && CanAct(s, s.mutex[s.flusher.stage.into]))
  {
    var s := ss[|acts|];
    RunInv(ss, acts);
    RunJustified(ss, acts);
    var m := if s.mutex[k] == Flusher && FlusherWaits(s) then s.flusher.stage.into else k;
    assert Justified(s, m);
    match s.mutex[m]
    case Creator => CreatorCanAct(s, m);
    case Flusher => FlusherCanAct(s);
    case Stopper(id) => StopperCanAct(s, m, id);
    case Bystander => assert Next(s, OtherUnlock(m), Unlocked(s, m));
  }
}
