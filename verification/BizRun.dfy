/**
  Running a flow graph: the master loop and the workers as interleaved steps (common/bizflow/graph.go, `Run`, `execNext`,
  `tryStop`, `work`; common/bizflow/engine.go). The engine's pool runs a bounded number of tasks, and handing it another
  waits for a free worker; the event channel holds a bounded number of events, and with none a send waits for the master.
  A worker looks whether the channel is closed without taking an event; its look and its send are one step, and an event
  whose send the close cuts off is lost.
 */
module BizRun {
  import opened BizGraph

  datatype Event = NoEvent | ExecOK | Retryable | NonRetryable | Abort

  /** How a node's `Run` ends; `OtherErr` is an error its meta data does not classify. */
  datatype Outcome = Success | RetryErr | FatalErr | AbortErr | OtherErr

  /** An item's counters and last event, and how often its node has been started. */
  datatype ItemState = ItemState(depsNum: int, retryNum: int, event: Event, starts: nat)

  /** What the engine provides: workers of the pool, and room in the event channel. */
  datatype Pool = Pool(workers: nat, capacity: nat)

  /** The master waits for an event or for a free worker, or holds the event of a node. */
  datatype Master = Waiting | Holding(name: string) | Returned | Panicked

  /**
    `pending` are the tasks the master has yet to hand to the pool; `submitted`, `running` and `finished` the workers' tasks by
    phase, `channel` the events sent. `ok` collects the nodes whose execOK the master has processed, `lost` those whose
    task or event came to nothing.
   */
  datatype Flow = Flow(
    pool: Pool,
    items: map<string, ItemState>,
    pending: multiset<string>,
    submitted: multiset<string>,
    running: multiset<string>,
    finished: multiset<string>,
    channel: seq<string>,
    closed: bool,
    master: Master,
    ok: set<string>,
    lost: set<string>)

  datatype Step =
    | Submit(name: string)
    | Begin(name: string)
    | Finish(name: string, outcome: Outcome)
    | Send(name: string)
    | Receive
    | HandleEvent
    | Done

  /** The graphs whose nodes `Run` hands to the pool: the first node alone is independent, and it has a name. */
  predicate Runnable(ns: seq<Node>) {
    Distinct(ns) && |ns| >= 2 && Topological(ns) && ns[0].name != ""
  }

  function Last(ns: seq<Node>): string
    requires ns != []
  {
    ns[|ns| - 1].name
  }

  function InitItem(n: Node): ItemState {
    ItemState(|n.deps|, n.retryNum, NoEvent, 0)
  }

  ghost function Init(ns: seq<Node>, pool: Pool): Flow
    requires Runnable(ns)
  {
    Flow(pool, map n | n in Names(ns) :: InitItem(ns[Position(ns, n)]), multiset{ns[0].name}, multiset{}, multiset{}, multiset{},
         [], false, Waiting, {}, {})
  }

  function EventAfter(e: Event, o: Outcome): Event {
    match o
    case Success => ExecOK
    case RetryErr => Retryable
    case FatalErr => NonRetryable
    case AbortErr => Abort
    case OtherErr => e
  }

  /** The nodes that `execNext` submits. */
  ghost function Released(ns: seq<Node>, f: Flow, n: string): set<string>
    requires Names(ns) <= f.items.Keys
  {
    set m <- NextsOf(ns, n) | f.items[m].depsNum - 1 <= 0
  }

  ghost function ExecNext(ns: seq<Node>, f: Flow, n: string): Flow
    requires Names(ns) <= f.items.Keys
  {
    f.(items := map m | m in f.items :: if m in NextsOf(ns, n) then f.items[m].(depsNum := f.items[m].depsNum - 1) else f.items[m],
       pending := f.pending + multiset(Released(ns, f, n)), ok := f.ok + {n})
  }

  /** Closing a closed channel panics. */
  function Close(f: Flow): Flow {
    if f.closed then f.(master := Panicked) else f.(closed := true)
  }

  function TryStop(ns: seq<Node>, f: Flow, n: string): Flow
    requires ns != []
  {
    if n == Last(ns) then Close(f) else f
  }

  function Return(f: Flow): Flow {
    if f.master.Waiting? then f.(master := Returned) else f
  }

  /** The master handles the event of node `n`. */
  ghost function Handle(ns: seq<Node>, f: Flow, n: string): Flow
    requires ns != [] && Names(ns) <= f.items.Keys && n in f.items
  {
    match f.items[n].event
    case ExecOK => TryStop(ns, ExecNext(ns, f, n), n)
    case Retryable =>
      if f.items[n].retryNum > 0 then
        f.(items := f.items[n := f.items[n].(retryNum := f.items[n].retryNum - 1)], pending := f.pending + multiset{n})
      else f.(lost := f.lost + {n})
    case NonRetryable => Return(TryStop(ns, f.(lost := f.lost + {n}), n))
    case Abort => Return(Close(f.(lost := f.lost + {n})))
    case NoEvent => f.(lost := f.lost + {n})
  }

  function Begun(f: Flow, n: string): Flow
    requires n in f.items
  {
    var f1 := f.(submitted := f.submitted - multiset{n});
    if f.closed then f1.(lost := f.lost + {n})
    else f1.(running := f.running + multiset{n}, items := f.items[n := f.items[n].(starts := f.items[n].starts + 1)])
  }

  function Finished(f: Flow, n: string, o: Outcome): Flow
    requires n in f.items
  {
    f.(running := f.running - multiset{n}, finished := f.finished + multiset{n},
       items := f.items[n := f.items[n].(event := EventAfter(f.items[n].event, o))])
  }

  /** The tasks that occupy workers. */
  function Busy(f: Flow): nat {
    |f.submitted| + |f.running| + |f.finished|
  }

  function Accepted(f: Flow, n: string): Flow {
    f.(pending := f.pending - multiset{n}, submitted := f.submitted + multiset{n})
  }

  /** The master is about to take an event: it has no task left to hand over. */
  predicate Idle(f: Flow) {
    f.master.Waiting? && f.pending == multiset{}
  }

  /** A send goes ahead when the channel is closed, has room, or passes the event directly to the master. */
  predicate CanSend(f: Flow) {
    f.closed || |f.channel| < f.pool.capacity || (f.pool.capacity == 0 && Idle(f))
  }

  function Sent(f: Flow, n: string): Flow
    requires CanSend(f)
  {
    var f1 := f.(finished := f.finished - multiset{n});
    if f.closed then f1.(lost := f.lost + {n})
    else if f.pool.capacity == 0 then f1.(master := Holding(n))
    else f1.(channel := f.channel + [n])
  }

  function Taken(f: Flow): Flow
    requires f.channel != []
  {
    f.(channel := f.channel[1..], master := Holding(f.channel[0]))
  }

  ghost predicate Next(ns: seq<Node>, f: Flow, st: Step, f': Flow)
    requires ns != []
  {
    match st
    case Submit(n) => n in f.pending && Busy(f) < f.pool.workers && f' == Accepted(f, n)
    case Begin(n) => n in f.submitted && n in f.items && f' == Begun(f, n)
    case Finish(n, o) => n in f.running && n in f.items && f' == Finished(f, n, o)
    case Send(n) => n in f.finished && CanSend(f) && f' == Sent(f, n)
    case Receive => Idle(f) && f.channel != [] && f' == Taken(f)
    case HandleEvent =>
      && f.master.Holding? && Names(ns) <= f.items.Keys && f.master.name in f.items
      && f' == Handle(ns, f.(master := Waiting), f.master.name)
    case Done => Idle(f) && f.closed && f.channel == [] && f' == f.(master := Returned)
  }

  // ---------- the invariant ----------

  function Held(f: Flow): multiset<string> {
    if f.master.Holding? then multiset{f.master.name} else multiset{}
  }

  /** How many tasks and events of node `n` there are. */
  function Tokens(f: Flow, n: string): nat {
    f.pending[n] + f.submitted[n] + f.running[n] + f.finished[n] + multiset(f.channel)[n] + Held(f)[n]
  }

  ghost predicate Ready(ns: seq<Node>, f: Flow, n: string)
    requires n in Names(ns)
  {
    DepsOf(ns, n) <= f.ok
  }

  /** A node's counters. */
  ghost predicate CountOK(ns: seq<Node>, f: Flow, n: string)
    requires n in Names(ns)
  {
    var r := ns[Position(ns, n)].retryNum;
    && n in f.items
    && f.items[n].depsNum == |DepsOf(ns, n) - f.ok|
    && f.items[n].retryNum <= r && (f.items[n].retryNum >= 0 || f.items[n].retryNum == r)
    && f.items[n].starts + f.pending[n] + f.submitted[n] <= r - f.items[n].retryNum + if Ready(ns, f, n) then 1 else 0
  }

  /** A node's place: it has a task or an event exactly while it is ready and not done, unless that came to nothing. */
  ghost predicate PlaceOK(ns: seq<Node>, f: Flow, n: string)
    requires n in Names(ns) && n in f.items
  {
    && Tokens(f, n) <= 1
    && (Tokens(f, n) == 1 ==> Ready(ns, f, n) && n !in f.ok)
    && (Ready(ns, f, n) && n !in f.ok ==> Tokens(f, n) == 1 || n in f.lost)
    && (n in f.ok ==> Ready(ns, f, n) && f.items[n].event == ExecOK)
    && (!Ready(ns, f, n) ==> f.items[n].event == NoEvent && n !in f.lost)
    && (f.pending[n] + f.submitted[n] + f.running[n] == 1 ==> f.items[n].event != ExecOK)
  }

  ghost predicate NodeOK(ns: seq<Node>, f: Flow, n: string)
    requires n in Names(ns)
  {
    CountOK(ns, f, n) && PlaceOK(ns, f, n)
  }

  /** The master has neither returned nor panicked. */
  predicate Alive(f: Flow) {
    f.master.Waiting? || f.master.Holding?
  }

  /** Workers and channel keep within their bounds, and the channel is closed for the last node alone. */
  ghost predicate BoundsOK(ns: seq<Node>, f: Flow)
    requires ns != []
  {
    && Busy(f) <= f.pool.workers && |f.channel| <= f.pool.capacity
    && (!f.master.Waiting? ==> f.pending == multiset{})
    && (Last(ns) in f.ok ==> f.closed) && (f.closed && Alive(f) ==> Last(ns) in f.ok)
  }

  ghost predicate Inv(ns: seq<Node>, f: Flow) {
    && Runnable(ns) && f.ok <= Names(ns) && BoundsOK(ns, f)
    && (forall n <- Names(ns) :: NodeOK(ns, f, n))
    && (forall n | Tokens(f, n) > 0 :: n in Names(ns))
  }

  lemma InitInv(ns: seq<Node>, pool: Pool)
    requires Runnable(ns)
    ensures Inv(ns, Init(ns, pool))
  {
    hide NodeOK, Tokens, Runnable;
    forall n <- Names(ns) ensures NodeOK(ns, Init(ns, pool), n) { InitNode(ns, pool, n); }
    InitTokens(ns, pool);
  }

  lemma InitTokens(ns: seq<Node>, pool: Pool)
    requires Runnable(ns)
    ensures forall n | Tokens(Init(ns, pool), n) > 0 :: n in Names(ns)
  {
    PositionOf(ns, 0);
  }

  lemma InitNode(ns: seq<Node>, pool: Pool, n: string)
    requires Runnable(ns) && n in Names(ns)
    ensures NodeOK(ns, Init(ns, pool), n)
  {
    var f := Init(ns, pool);
    var i := Position(ns, n);
    DepCount(ns, n);
    PositionOf(ns, i);
    PositionOf(ns, 0);
    assert Fits(ns, i);
    assert DepsOf(ns, n) - f.ok == DepsOf(ns, n);
    assert ns[i].deps != [] ==> ns[i].deps[0] in DepsOf(ns, n);
  }

  lemma DepCount(ns: seq<Node>, n: string)
    requires Distinct(ns) && n in Names(ns)
    ensures |DepsOf(ns, n)| == |ns[Position(ns, n)].deps|
  {
    var node := ns[Position(ns, n)];
    assert node in ns;
    SetSize(node.deps);
  }

  lemma {:induction false} SetSize(s: seq<string>)
    requires NoDuplicates(s)
    ensures |(set x <- s)| == |s|
    decreases |s|
  {
    if s != [] {
      var t := s[..|s| - 1];
      SetSize(t);
      assert (set x <- s) == (set x <- t) + {s[|s| - 1]};
    }
  }

  /** The two states agree on node `m`, except that its token may have been given up. */
  ghost predicate SameAt(f: Flow, f': Flow, m: string) {
    && m in f.items
    && m in f'.items
    && f'.items[m] == f.items[m]
    && f'.ok == f.ok && (m in f.lost ==> m in f'.lost) && (m in f'.lost ==> m in f.lost || Tokens(f, m) > 0)
    && f'.pending[m] <= f.pending[m] && f'.submitted[m] <= f.submitted[m] && f'.running[m] <= f.running[m]
    && Tokens(f', m) <= Tokens(f, m) && (m !in f'.lost ==> Tokens(f', m) == Tokens(f, m))
  }

  lemma SameAtOK(ns: seq<Node>, f: Flow, f': Flow, m: string)
    requires m in Names(ns) && NodeOK(ns, f, m) && SameAt(f, f', m)
    ensures NodeOK(ns, f', m)
  {}

  /** All steps but handling an event move one token from phase to phase, or give it up. */
  lemma MoveInv(ns: seq<Node>, f: Flow, st: Step, f': Flow)
    requires Inv(ns, f) && Next(ns, f, st, f') && !st.HandleEvent?
    ensures Inv(ns, f')
  {
    hide NodeOK, Next, BoundsOK;
    MoveTokens(ns, f, st, f');
    MoveBounds(ns, f, st, f');
    forall m <- Names(ns) ensures NodeOK(ns, f', m) {
      assert NodeOK(ns, f, m);
      MoveNode(ns, f, st, f', m);
    }
  }

  lemma MoveTokens(ns: seq<Node>, f: Flow, st: Step, f': Flow)
    requires ns != [] && Next(ns, f, st, f') && !st.HandleEvent?
    ensures f'.ok == f.ok && forall m :: Tokens(f', m) <= Tokens(f, m)
  {
    hide Tokens;
    match st
    case Submit(n) => AcceptedTokens(f, n);
    case Begin(n) => BegunTokens(f, n);
    case Finish(n, o) => FinishedTokens(f, n, o);
    case Send(n) => SentTokens(f, n);
    case Receive => TakenTokens(f);
    case Done => ReturnedTokens(f);
  }

  lemma AcceptedTokens(f: Flow, n: string)
    requires n in f.pending
    ensures forall m :: Tokens(Accepted(f, n), m) == Tokens(f, m)
  {}

  lemma BegunTokens(f: Flow, n: string)
    requires n in f.submitted && n in f.items
    ensures forall m :: Tokens(Begun(f, n), m) == Tokens(f, m) - if f.closed && m == n then 1 else 0
  {}

  lemma FinishedTokens(f: Flow, n: string, o: Outcome)
    requires n in f.running && n in f.items
    ensures forall m :: Tokens(Finished(f, n, o), m) == Tokens(f, m)
  {}

  lemma SentTokens(f: Flow, n: string)
    requires n in f.finished && CanSend(f)
    ensures forall m :: Tokens(Sent(f, n), m) == Tokens(f, m) - if f.closed && m == n then 1 else 0
  {}

  lemma TakenTokens(f: Flow)
    requires Idle(f) && f.channel != []
    ensures forall m :: Tokens(Taken(f), m) == Tokens(f, m)
  {
    assert f.channel == [f.channel[0]] + f.channel[1..];
  }

  lemma ReturnedTokens(f: Flow)
    requires Idle(f)
    ensures forall m :: Tokens(f.(master := Returned), m) == Tokens(f, m)
  {}

  lemma MoveBounds(ns: seq<Node>, f: Flow, st: Step, f': Flow)
    requires ns != [] && Next(ns, f, st, f') && !st.HandleEvent? && BoundsOK(ns, f)
    ensures BoundsOK(ns, f')
  {}

  lemma MoveNode(ns: seq<Node>, f: Flow, st: Step, f': Flow, m: string)
    requires ns != [] && m in Names(ns) && NodeOK(ns, f, m) && Next(ns, f, st, f') && !st.HandleEvent?
    ensures NodeOK(ns, f', m)
  {
    if st.Done? || st.Receive? || st.name != m {
      MoveSame(ns, f, st, f', m);
      SameAtOK(ns, f, f', m);
    } else {
      MoveOwn(ns, f, st, f', m);
    }
  }

  lemma MoveOwn(ns: seq<Node>, f: Flow, st: Step, f': Flow, m: string)
    requires ns != [] && m in Names(ns) && NodeOK(ns, f, m) && Next(ns, f, st, f') && !st.HandleEvent?
    requires !st.Done? && !st.Receive? && st.name == m
    ensures NodeOK(ns, f', m)
  {
    hide NodeOK;
    match st
    case Submit(n) => AcceptedOwn(ns, f, n);
    case Begin(n) => BegunOwn(ns, f, n);
    case Finish(n, o) => FinishedOwn(ns, f, n, o);
    case Send(n) => SentOwn(ns, f, n);
  }

  lemma AcceptedOwn(ns: seq<Node>, f: Flow, n: string)
    requires n in Names(ns) && NodeOK(ns, f, n) && n in f.pending
    ensures NodeOK(ns, Accepted(f, n), n)
  {}

  lemma BegunOwn(ns: seq<Node>, f: Flow, n: string)
    requires n in Names(ns) && NodeOK(ns, f, n) && n in f.submitted && n in f.items
    ensures NodeOK(ns, Begun(f, n), n)
  {}

  lemma FinishedOwn(ns: seq<Node>, f: Flow, n: string, o: Outcome)
    requires n in Names(ns) && NodeOK(ns, f, n) && n in f.running && n in f.items
    ensures NodeOK(ns, Finished(f, n, o), n)
  {}

  lemma SentOwn(ns: seq<Node>, f: Flow, n: string)
    requires n in Names(ns) && NodeOK(ns, f, n) && n in f.finished && CanSend(f)
    ensures NodeOK(ns, Sent(f, n), n)
  {}

  /** A step about another node leaves `m` as it is. */
  lemma MoveSame(ns: seq<Node>, f: Flow, st: Step, f': Flow, m: string)
    requires ns != [] && Next(ns, f, st, f') && !st.HandleEvent? && (st.Done? || st.Receive? || st.name != m)
    requires m in f.items
    ensures SameAt(f, f', m)
  {
    MoveFields(ns, f, st, f', m);
    MoveTokensAt(ns, f, st, f', m);
    hide Next, Tokens;
  }

  lemma MoveFields(ns: seq<Node>, f: Flow, st: Step, f': Flow, m: string)
    requires ns != [] && Next(ns, f, st, f') && !st.HandleEvent? && (st.Done? || st.Receive? || st.name != m)
    requires m in f.items
    ensures SameFields(f, f', m)
  {
    hide Handle, Begun, Finished, Sent;
    match st
    case Begin(n) => BegunFields(f, n, m);
    case Finish(n, o) => FinishedFields(f, n, o, m);
    case Send(n) => SentFields(f, n, m);
    case _ =>
  }

  ghost predicate SameFields(f: Flow, f': Flow, m: string) {
    && m in f.items && m in f'.items && f'.items[m] == f.items[m] && f'.ok == f.ok && (m in f'.lost <==> m in f.lost)
    && f'.pending[m] == f.pending[m] && f'.submitted[m] == f.submitted[m] && f'.running[m] == f.running[m]
  }

  lemma BegunFields(f: Flow, n: string, m: string)
    requires n in f.items && m in f.items && m != n
    ensures SameFields(f, Begun(f, n), m)
  {}

  lemma FinishedFields(f: Flow, n: string, o: Outcome, m: string)
    requires n in f.items && m in f.items && m != n
    ensures SameFields(f, Finished(f, n, o), m)
  {}

  lemma SentFields(f: Flow, n: string, m: string)
    requires m in f.items && m != n && CanSend(f)
    ensures SameFields(f, Sent(f, n), m)
  {}

  lemma MoveTokensAt(ns: seq<Node>, f: Flow, st: Step, f': Flow, m: string)
    requires ns != [] && Next(ns, f, st, f') && !st.HandleEvent? && (st.Done? || st.Receive? || st.name != m)
    ensures Tokens(f', m) == Tokens(f, m)
  {
    hide Tokens;
    match st
    case Submit(n) => AcceptedTokens(f, n);
    case Begin(n) => BegunTokens(f, n);
    case Finish(n, o) => FinishedTokens(f, n, o);
    case Send(n) => SentTokens(f, n);
    case Receive => TakenTokens(f);
    case Done => ReturnedTokens(f);
  }

  /** Handling an event. */
  lemma HandleInv(ns: seq<Node>, f: Flow, f': Flow)
    requires Inv(ns, f) && Next(ns, f, HandleEvent, f')
    ensures Inv(ns, f')
  {
    hide NodeOK, Next, BoundsOK;
    HandleTokens(ns, f, f');
    HandleBounds(ns, f, f');
    forall m <- Names(ns) ensures NodeOK(ns, f', m) {
      assert NodeOK(ns, f, m);
      HandleNode(ns, f, f', m);
    }
  }

  lemma HandleTokens(ns: seq<Node>, f: Flow, f': Flow)
    requires ns != [] && Next(ns, f, HandleEvent, f')
    ensures forall m | Tokens(f', m) > 0 :: Tokens(f, m) > 0 || m in Names(ns)
    ensures f.master.Holding? && Tokens(f, f.master.name) > 0
  {
    if f.items[f.master.name].event == ExecOK {
      OkTokens(ns, f.(master := Waiting), f.master.name);
    } else {
      FailedTokens(ns, f.(master := Waiting), f.master.name);
    }
  }

  lemma FailedTokens(ns: seq<Node>, f: Flow, n: string)
    requires ns != [] && Names(ns) <= f.items.Keys && n in f.items && f.items[n].event != ExecOK && f.master.Waiting?
    ensures forall m | Tokens(Handle(ns, f, n), m) > 0 :: Tokens(f, m) > 0 || m == n
  {
    FailedPlaces(ns, f, n);
    hide Handle;
  }

  lemma FailedPlaces(ns: seq<Node>, f: Flow, n: string)
    requires ns != [] && Names(ns) <= f.items.Keys && n in f.items && f.items[n].event != ExecOK && f.master.Waiting?
    ensures var h := Handle(ns, f, n);
            && h.submitted == f.submitted && h.running == f.running && h.finished == f.finished && h.channel == f.channel
            && !h.master.Holding? && (h.pending == f.pending || h.pending == f.pending + multiset{n})
  {
    hide ExecNext, Names;
  }

  lemma OkTokens(ns: seq<Node>, f: Flow, n: string)
    requires ns != [] && Names(ns) <= f.items.Keys && f.master.Waiting?
    ensures forall m | Tokens(TryStop(ns, ExecNext(ns, f, n), n), m) > 0 :: Tokens(f, m) > 0 || m in Names(ns)
  {
    hide Released;
    ReleasedNames(ns, f, n);
  }

  lemma ReleasedNames(ns: seq<Node>, f: Flow, n: string)
    requires Names(ns) <= f.items.Keys
    ensures Released(ns, f, n) <= Names(ns)
  {}

  lemma HandleBounds(ns: seq<Node>, f: Flow, f': Flow)
    requires Runnable(ns) && Next(ns, f, HandleEvent, f') && f.ok <= Names(ns) && f.master.name in Names(ns) && BoundsOK(ns, f)
    ensures f'.ok <= Names(ns) && BoundsOK(ns, f')
  {
    hide BoundsOK, Runnable;
    if f.items[f.master.name].event == ExecOK { OkBounds(ns, f, f.master.name); } else { FailedBounds(ns, f, f.master.name); }
  }

  lemma OkBounds(ns: seq<Node>, f: Flow, n: string)
    requires Runnable(ns) && f.master == Holding(n) && Names(ns) <= f.items.Keys && f.ok <= Names(ns) && n in Names(ns) && BoundsOK(ns, f)
    ensures var f' := TryStop(ns, ExecNext(ns, f.(master := Waiting), n), n); f'.ok <= Names(ns) && BoundsOK(ns, f')
  {
    hide Released, NextsOf, Names, Runnable;
    LastReleasesNone(ns, f.(master := Waiting));
  }

  lemma FailedBounds(ns: seq<Node>, f: Flow, n: string)
    requires ns != [] && f.master == Holding(n) && Names(ns) <= f.items.Keys && n in f.items && f.items[n].event != ExecOK && BoundsOK(ns, f)
    ensures var f' := Handle(ns, f.(master := Waiting), n); f'.ok == f.ok && BoundsOK(ns, f')
  {
    FailedPlaces(ns, f.(master := Waiting), n);
    FailedCloses(ns, f.(master := Waiting), n);
    hide Handle;
  }

  lemma FailedCloses(ns: seq<Node>, f: Flow, n: string)
    requires ns != [] && Names(ns) <= f.items.Keys && n in f.items && f.items[n].event != ExecOK && f.master.Waiting?
    ensures var h := Handle(ns, f, n);
            && h.ok == f.ok && h.pool == f.pool && (f.closed ==> h.closed)
            && if h.master.Waiting? then h.closed == f.closed else h.pending == f.pending && !Alive(h)
  {
    hide ExecNext, Names;
  }

  /** Nothing depends on the last node. */
  lemma LastReleasesNone(ns: seq<Node>, f: Flow)
    requires Runnable(ns) && Names(ns) <= f.items.Keys
    ensures NextsOf(ns, Last(ns)) == {} && Released(ns, f, Last(ns)) == {}
  {
    PositionOf(ns, |ns| - 1);
    forall m <- Names(ns) ensures Last(ns) !in DepsOf(ns, m) {
      if Last(ns) in DepsOf(ns, m) { DepEarlier(ns, Last(ns), m); }
    }
  }

  lemma HandleNode(ns: seq<Node>, f: Flow, f': Flow, m: string)
    requires Inv(ns, f) && Next(ns, f, HandleEvent, f') && m in Names(ns)
    ensures NodeOK(ns, f', m)
  {
    hide NodeOK, BoundsOK;
    HandleTokens(ns, f, f');
    var n := f.master.name;
    assert NodeOK(ns, f, m) && NodeOK(ns, f, n);
    if f.items[n].event == ExecOK {
      OkNode(ns, f, n, m);
    } else {
      FailedNode(ns, f, f', m);
    }
  }

  /** An event other than execOK: the node is to be submitted again, or is lost. */
  lemma FailedNode(ns: seq<Node>, f: Flow, f': Flow, m: string)
    requires ns != [] && m in Names(ns) && NodeOK(ns, f, m) && Next(ns, f, HandleEvent, f') && f.items[f.master.name].event != ExecOK
    ensures NodeOK(ns, f', m)
  {
    var n := f.master.name;
    if n == m && f.items[n].event.Retryable? && f.items[n].retryNum > 0 {
      RetriedNode(ns, f, f');
    } else {
      FailedSame(ns, f, f', m);
      SameAtOK(ns, f, f', m);
    }
  }

  lemma RetriedNode(ns: seq<Node>, f: Flow, f': Flow)
    requires ns != [] && Next(ns, f, HandleEvent, f') && f.master.name in Names(ns) && NodeOK(ns, f, f.master.name)
    requires f.items[f.master.name].event.Retryable? && f.items[f.master.name].retryNum > 0
    ensures NodeOK(ns, f', f.master.name)
  {
    var n := f.master.name;
    assert Tokens(f', n) == Tokens(f, n) == 1;
  }

  lemma FailedSame(ns: seq<Node>, f: Flow, f': Flow, m: string)
    requires ns != [] && Next(ns, f, HandleEvent, f') && f.items[f.master.name].event != ExecOK
    requires f.master.name == m ==> !(f.items[m].event.Retryable? && f.items[m].retryNum > 0)
    requires m in f.items
    ensures SameAt(f, f', m)
  {
    FailedFields(ns, f, f', m);
    hide Next;
  }

  lemma FailedFields(ns: seq<Node>, f: Flow, f': Flow, m: string)
    requires ns != [] && Next(ns, f, HandleEvent, f') && f.items[f.master.name].event != ExecOK && m in f.items
    requires f.master.name == m ==> !(f.items[m].event.Retryable? && f.items[m].retryNum > 0)
    ensures m in f'.items && f'.items[m] == f.items[m] && f'.ok == f.ok && f.master.Holding? && !f'.master.Holding?
    ensures if m == f.master.name then m in f'.lost else m in f'.lost <==> m in f.lost
    ensures f'.pending[m] == f.pending[m] && f'.submitted == f.submitted && f'.running == f.running
    ensures f'.finished == f.finished && f'.channel == f.channel
  {
    hide ExecNext, Names;
  }

  lemma OkNode(ns: seq<Node>, f: Flow, n: string, m: string)
    requires ns != [] && f.master == Holding(n) && n in f.items && f.items[n].event == ExecOK
    requires Names(ns) <= f.items.Keys && n in Names(ns) && m in Names(ns) && NodeOK(ns, f, m) && NodeOK(ns, f, n)
    ensures NodeOK(ns, TryStop(ns, ExecNext(ns, f.(master := Waiting), n), n), m)
  {
    var g := f.(master := Waiting);
    var f' := ExecNext(ns, g, n);
    ReleasedExactly(ns, g, n, m);
    assert f'.pending[m] == f.pending[m] + if m in Released(ns, g, n) then 1 else 0;
    assert Tokens(f, n) == 1;
    if m == n {
      assert Tokens(f', m) == 0;
    } else {
      assert Tokens(f', m) == Tokens(f, m) + if m in Released(ns, g, n) then 1 else 0;
    }
    assert CountOK(ns, f', m);
    assert PlaceOK(ns, f', m);
    CloseKeeps(ns, f', n, m);
  }

  lemma CloseKeeps(ns: seq<Node>, f: Flow, n: string, m: string)
    requires ns != [] && m in Names(ns) && NodeOK(ns, f, m) && f.master.Waiting?
    ensures NodeOK(ns, TryStop(ns, f, n), m)
  {
    SameAtOK(ns, f, TryStop(ns, f, n), m);
  }

  /** Processing `n` releases exactly the nodes for which it was the last dependency. */
  lemma ReleasedExactly(ns: seq<Node>, f: Flow, n: string, m: string)
    requires Names(ns) <= f.items.Keys && m in Names(ns) && f.items[m].depsNum == |DepsOf(ns, m) - f.ok| && n !in f.ok
    ensures m in Released(ns, f, n) <==> n in DepsOf(ns, m) && DepsOf(ns, m) <= f.ok + {n}
    ensures ExecNext(ns, f, n).items[m].depsNum == |DepsOf(ns, m) - (f.ok + {n})|
  {
    var left := DepsOf(ns, m) - f.ok;
    var left' := DepsOf(ns, m) - (f.ok + {n});
    if n in DepsOf(ns, m) {
      assert left == left' + {n};
      assert |left'| == 0 ==> left' == {};
    } else {
      assert left == left';
    }
  }

  // ---------- every run ----------

  lemma NextInv(ns: seq<Node>, f: Flow, st: Step, f': Flow)
    requires Inv(ns, f) && Next(ns, f, st, f')
    ensures Inv(ns, f')
  {
    if st.HandleEvent? { HandleInv(ns, f, f'); } else { MoveInv(ns, f, st, f'); }
  }

  ghost predicate Reachable(ns: seq<Node>, fs: seq<Flow>, steps: seq<Step>) {
    && Runnable(ns) && |fs| == |steps| + 1 && fs[0] == Init(ns, fs[0].pool)
    && forall i | 0 <= i < |steps| :: Next(ns, fs[i], steps[i], fs[i + 1])
  }

  lemma {:induction false} RunInv(ns: seq<Node>, fs: seq<Flow>, steps: seq<Step>)
    requires Reachable(ns, fs, steps)
    ensures Inv(ns, fs[|steps|])
    decreases |steps|
  {
    hide Inv, Next, Runnable;
    if steps == [] {
      InitInv(ns, fs[0].pool);
    } else {
      var k := |steps| - 1;
      RunInv(ns, fs[..k + 1], steps[..k]);
      NextInv(ns, fs[k], steps[k], fs[k + 1]);
    }
  }

  /** A node's counter is always the number of its dependencies whose execOK has not been processed. */
  lemma DepsNumExact(ns: seq<Node>, fs: seq<Flow>, steps: seq<Step>, n: string)
    requires Reachable(ns, fs, steps) && n in Names(ns)
    ensures var f := fs[|steps|]; n in f.items && f.items[n].depsNum == |DepsOf(ns, n) - f.ok|
  {
    RunInv(ns, fs, steps);
    assert NodeOK(ns, fs[|steps|], n);
  }

  lemma OkClosed(ns: seq<Node>, f: Flow, p: seq<string>)
    requires Inv(ns, f) && Path(ns, p) && p[|p| - 1] in f.ok
    ensures p[0] in f.ok && p[0] in f.items && f.items[p[0]].event == ExecOK
  {
    forall n <- f.ok ensures n in Names(ns) && DepsOf(ns, n) <= f.ok { assert NodeOK(ns, f, n); }
    ClosedUnderAncestors(ns, f.ok, p);
    assert NodeOK(ns, f, p[0]);
  }

  /** While a node runs, each of its ancestors has completed, so that reading an ancestor with `GetNode` does not panic. */
  lemma StartsAfterAncestors(ns: seq<Node>, fs: seq<Flow>, steps: seq<Step>, a: string, n: string)
    requires Reachable(ns, fs, steps) && n in fs[|steps|].running && Ancestor(ns, a, n)
    ensures var f := fs[|steps|]; a in f.ok && a in f.items && f.items[a].event == ExecOK
  {
    RunInv(ns, fs, steps);
    hide Reachable;
    ReadyAncestors(ns, fs[|steps|], a, n);
  }

  lemma ReadyAncestors(ns: seq<Node>, f: Flow, a: string, n: string)
    requires Inv(ns, f) && Tokens(f, n) > 0 && Ancestor(ns, a, n)
    ensures a in f.ok && a in f.items && f.items[a].event == ExecOK
  {
    assert NodeOK(ns, f, n);
    hide NodeOK, Inv;
    var p :| |p| >= 2 && Path(ns, p) && p[0] == a && p[|p| - 1] == n;
    PathPrefix(ns, p);
    LastDepOk(ns, f, n, p[|p| - 2]);
    OkClosed(ns, f, p[..|p| - 1]);
  }

  lemma PathPrefix(ns: seq<Node>, p: seq<string>)
    requires Path(ns, p) && |p| >= 2
    ensures Path(ns, p[..|p| - 1]) && p[|p| - 2] in DepsOf(ns, p[|p| - 1])
  {
    assert p[|p| - 2] in DepsOf(ns, p[|p| - 1]);
  }

  lemma LastDepOk(ns: seq<Node>, f: Flow, n: string, d: string)
    requires n in Names(ns) && NodeOK(ns, f, n) && Tokens(f, n) > 0 && d in DepsOf(ns, n)
    ensures d in f.ok
  {}

  /** No node starts more often than its retries allow, and no node is started twice at once. */
  lemma StartsBounded(ns: seq<Node>, fs: seq<Flow>, steps: seq<Step>, n: string)
    requires Reachable(ns, fs, steps) && n in Names(ns)
    ensures var f := fs[|steps|];
            var r := ns[Position(ns, n)].retryNum;
            n in f.items && f.items[n].starts <= (if r > 0 then 1 + r else 1) && Tokens(f, n) <= 1
  {
    RunInv(ns, fs, steps);
    assert NodeOK(ns, fs[|steps|], n);
  }

  /** The channel is closed by the last node's execOK only once all ancestors of the last node have completed. */
  lemma LastAfterAncestors(ns: seq<Node>, fs: seq<Flow>, steps: seq<Step>, a: string)
    requires Reachable(ns, fs, steps) && Last(ns) in fs[|steps|].ok && Ancestor(ns, a, Last(ns))
    ensures var f := fs[|steps|]; f.closed && a in f.ok && a in f.items && f.items[a].event == ExecOK
  {
    var f := fs[|steps|];
    RunInv(ns, fs, steps);
    var p :| |p| >= 2 && Path(ns, p) && p[0] == a && p[|p| - 1] == Last(ns);
    OkClosed(ns, f, p);
  }
}
