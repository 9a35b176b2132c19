/** What the outcome of a node's `Run` leads to, over every run of a flow graph (common/bizflow/graph.go, `Run` and `work`). */
module BizOutcome {
  import opened BizGraph
  import opened BizRun
  import opened BizStuck
  import opened BizLateAbort

  /** The last outcome of `n` before step `k` that its meta data classifies; `OtherErr` when there is none. */
  function Verdict(steps: seq<Step>, k: nat, n: string): Outcome
    requires k <= |steps|
  {
    if k == 0 then OtherErr
    else if steps[k - 1].Finish? && steps[k - 1].name == n && steps[k - 1].outcome != OtherErr then steps[k - 1].outcome
    else Verdict(steps, k - 1, n)
  }

  /** A classified outcome stands until the node ends again. */
  lemma {:induction false} VerdictIs(steps: seq<Step>, i: nat, k: nat, n: string, o: Outcome)
    requires i < k <= |steps| && steps[i] == Finish(n, o) && o != OtherErr
    requires forall m | i < m < k :: !(steps[m].Finish? && steps[m].name == n)
    ensures Verdict(steps, k, n) == o
    decreases k
  {
    if i + 1 < k { VerdictIs(steps, i, k - 1, n, o); }
  }

  /** The event by which the master tells the outcomes apart. */
  ghost predicate Reports(e: Event, o: Outcome) {
    && (e.ExecOK? <==> o.Success?) && (e.Retryable? <==> o.RetryErr?) && (e.NonRetryable? <==> o.FatalErr?) && (e.Abort? <==> o.AbortErr?)
  }

  lemma EventStep(ns: seq<Node>, f: Flow, st: Step, f': Flow, n: string)
    requires ns != [] && Next(ns, f, st, f') && n in f.items
    ensures n in f'.items
    ensures !(st.Finish? && st.name == n) || st.outcome == OtherErr ==> f'.items[n].event == f.items[n].event
    ensures st.Finish? && st.name == n && st.outcome != OtherErr ==> Reports(f'.items[n].event, st.outcome)
  {
    EventsStay(ns, f, st, f');
    hide Next;
  }

  lemma {:induction false} EventExact(ns: seq<Node>, fs: seq<Flow>, steps: seq<Step>, k: nat, n: string)
    requires ns != [] && Reachable(ns, fs, steps) && k <= |steps| && n in Names(ns)
    ensures n in fs[k].items && Reports(fs[k].items[n].event, Verdict(steps, k, n))
    decreases k
  {
    hide Next, Runnable, Reports;
    if k == 0 {
      StartsWithout(ns, fs[0].pool, n);
    } else {
      EventExact(ns, fs, steps, k - 1, n);
      EventStep(ns, fs[k - 1], steps[k - 1], fs[k], n);
      hide Reachable;
    }
  }

  lemma StartsWithout(ns: seq<Node>, pool: Pool, n: string)
    requires Runnable(ns) && n in Names(ns)
    ensures n in Init(ns, pool).items && Reports(Init(ns, pool).items[n].event, OtherErr)
  {}

  // ---------- a node that is done with ----------

  /** `n` is ready and has neither a task nor an event. */
  ghost predicate Over(ns: seq<Node>, f: Flow, n: string) {
    n in Names(ns) && Ready(ns, f, n) && Tokens(f, n) == 0
  }

  /** The step is about `n`. */
  predicate Concerns(f: Flow, st: Step, n: string) {
    match st
    case HandleEvent => f.master == Holding(n)
    case Receive => f.channel != [] && f.channel[0] == n
    case Done => false
    case _ => st.name == n
  }

  lemma OverStep(ns: seq<Node>, f: Flow, st: Step, f': Flow, n: string)
    requires ns != [] && Inv(ns, f) && Next(ns, f, st, f') && Over(ns, f, n)
    ensures Over(ns, f', n) && !Concerns(f, st, n)
  {
    hide Next, Inv, Concerns;
    NotConcerned(ns, f, st, f', n);
    if st.HandleEvent? { OverHandle(ns, f, f', n); } else { MoveTokens(ns, f, st, f'); }
  }

  lemma NotConcerned(ns: seq<Node>, f: Flow, st: Step, f': Flow, n: string)
    requires ns != [] && Next(ns, f, st, f') && Tokens(f, n) == 0
    ensures !Concerns(f, st, n)
  {
    hide Handle;
    assert f.channel != [] ==> f.channel[0] in multiset(f.channel);
  }

  lemma OverHandle(ns: seq<Node>, f: Flow, f': Flow, n: string)
    requires ns != [] && Inv(ns, f) && Next(ns, f, HandleEvent, f') && Over(ns, f, n)
    ensures Over(ns, f', n)
  {
    hide NodeOK, Inv;
    HandleMoves(ns, f, f');
    OnlyHeldDone(ns, f, HandleEvent, f');
    HandlePending(ns, f, f', n);
  }

  /** Handling an event hands over no node that was ready, but the one whose event it is. */
  lemma HandlePending(ns: seq<Node>, f: Flow, f': Flow, n: string)
    requires ns != [] && Inv(ns, f) && Next(ns, f, HandleEvent, f') && Over(ns, f, n)
    ensures f'.pending[n] == 0
  {
    hide Handle, Inv, Tokens;
    var m, g := f.master.name, f.(master := Waiting);
    HeldIn(ns, f);
    DepsLeft(ns, f, n);
    NonePending(f, n);
    if f.items[m].event == ExecOK {
      ReleasedExactly(ns, g, m, n);
      OkPending(ns, g, m);
      NoneReleased(ns, g, m, n);
    } else {
      FailedPlaces(ns, g, m);
    }
  }

  lemma NonePending(f: Flow, n: string)
    requires Tokens(f, n) == 0
    ensures f.pending[n] == 0
  {}

  lemma DepsLeft(ns: seq<Node>, f: Flow, n: string)
    requires Inv(ns, f) && n in Names(ns)
    ensures n in f.items && f.items[n].depsNum == |DepsOf(ns, n) - f.ok|
  {
    assert NodeOK(ns, f, n);
  }

  lemma NoneReleased(ns: seq<Node>, f: Flow, m: string, n: string)
    requires Names(ns) <= f.items.Keys && f.pending[n] == 0 && n !in Released(ns, f, m)
    ensures (f.pending + multiset(Released(ns, f, m)))[n] == 0
  {
    hide Released;
  }

  lemma OkPending(ns: seq<Node>, f: Flow, m: string)
    requires ns != [] && Names(ns) <= f.items.Keys && m in f.items && f.items[m].event == ExecOK
    ensures Handle(ns, f, m).pending == f.pending + multiset(Released(ns, f, m))
  {
    hide Released;
  }

  /** Such a node is never started again, nor does anything else happen to it. */
  lemma {:induction false} StaysOver(ns: seq<Node>, fs: seq<Flow>, steps: seq<Step>, k: nat, l: nat, n: string)
    requires ns != [] && Reachable(ns, fs, steps) && k <= l <= |steps| && Over(ns, fs[k], n)
    ensures Over(ns, fs[l], n) && forall m | k <= m < l :: !Concerns(fs[m], steps[m], n)
    decreases l
  {
    hide Next, Runnable, Inv, Over, Concerns;
    if k < l {
      StaysOver(ns, fs, steps, k, l - 1, n);
      RunInv(ns, fs[..l], steps[..l - 1]);
      assert fs[..l][l - 1] == fs[l - 1];
      OverStep(ns, fs[l - 1], steps[l - 1], fs[l], n);
    }
  }

  // ---------- what the master does ----------

  /** The state in which the master handles an event: it has no task left to hand over, and all items are there. */
  lemma AtHandling(ns: seq<Node>, fs: seq<Flow>, steps: seq<Step>, h: nat)
    requires ns != [] && Reachable(ns, fs, steps) && h < |steps| && steps[h].HandleEvent?
    ensures var f := fs[h];
            && Inv(ns, f) && f.master.Holding? && f.master.name in Names(ns) && Names(ns) <= f.items.Keys && f.pending == multiset{}
            && Reports(f.items[f.master.name].event, Verdict(steps, h, f.master.name))
            && fs[h + 1] == Handle(ns, f.(master := Waiting), f.master.name)
  {
    hide Runnable, Inv;
    RunInv(ns, fs[..h + 1], steps[..h]);
    assert fs[..h + 1][h] == fs[h] && Next(ns, fs[h], steps[h], fs[h + 1]);
    MasterStep(ns, fs[h]);
    HeldIn(ns, fs[h]);
    EventExact(ns, fs, steps, h, fs[h].master.name);
  }

  lemma HeldIn(ns: seq<Node>, f: Flow)
    requires Inv(ns, f) && f.master.Holding?
    ensures f.master.name in Names(ns) && f.pending == multiset{} && Ready(ns, f, f.master.name) && f.master.name !in f.ok
    ensures Tokens(f, f.master.name) == 1 && (f.master.name == Last(ns) ==> !f.closed)
  {
    assert Tokens(f, f.master.name) > 0;
    assert NodeOK(ns, f, f.master.name);
  }

  /** What the master does with an event other than execOK. */
  lemma FailedShape(ns: seq<Node>, f: Flow, n: string, o: Outcome)
    requires ns != [] && Names(ns) <= f.items.Keys && n in f.items && f.master.Waiting? && Reports(f.items[n].event, o)
    ensures var r := f.items[n].retryNum;
            match o
            case RetryErr =>
              Handle(ns, f, n) == if r > 0 then f.(pending := f.pending + multiset{n}, items := f.items[n := f.items[n].(retryNum := r - 1)])
                                  else f.(lost := f.lost + {n})
            case FatalErr =>
              n != Last(ns) || !f.closed ==>
                Handle(ns, f, n) == f.(master := Returned, closed := f.closed || n == Last(ns), lost := f.lost + {n})
            case AbortErr => Handle(ns, f, n) == f.(master := if f.closed then Panicked else Returned, closed := true, lost := f.lost + {n})
            case OtherErr => Handle(ns, f, n) == f.(lost := f.lost + {n})
            case Success => f.items[n].event == ExecOK
  {
    hide ExecNext, Names;
  }

  /** The node whose event was handled has nothing left, unless it is to be handed over again. */
  lemma OverAfter(ns: seq<Node>, f: Flow, f': Flow)
    requires Inv(ns, f) && f.master.Holding? && f'.ok >= f.ok && f'.pending[f.master.name] == 0 && !f'.master.Holding?
    requires f'.submitted == f.submitted && f'.running == f.running && f'.finished == f.finished && f'.channel == f.channel
    ensures Over(ns, f', f.master.name)
  {
    HeldIn(ns, f);
  }

  /** A retryable error: with a retry left the node is to be handed over again for it, and nothing else changes. */
  lemma RetryHandled(ns: seq<Node>, fs: seq<Flow>, steps: seq<Step>, h: nat, n: string)
    requires ns != [] && Reachable(ns, fs, steps) && h < |steps| && steps[h].HandleEvent?
    requires fs[h].master == Holding(n) && Verdict(steps, h, n) == RetryErr
    ensures n in fs[h].items
    ensures var f, f', r := fs[h], fs[h + 1], fs[h].items[n].retryNum;
            if r > 0 then f' == f.(master := Waiting, pending := multiset{n}, items := f.items[n := f.items[n].(retryNum := r - 1)])
            else f' == f.(master := Waiting, lost := f.lost + {n}) && forall l | h < l < |steps| :: !Concerns(fs[l], steps[l], n)
  {
    hide Runnable, Inv, Over, Concerns, Handle, Next, Reports;
    AtHandling(ns, fs, steps, h);
    FailedShape(ns, fs[h].(master := Waiting), n, Verdict(steps, h, n));
    if fs[h].items[n].retryNum <= 0 {
      OverAfter(ns, fs[h], fs[h + 1]);
      StaysOver(ns, fs, steps, h + 1, |steps|, n);
    }
  }

  /** An error that is not retryable: the master returns, closing the channel for the last node, and the node is never started again. */
  lemma FatalHandled(ns: seq<Node>, fs: seq<Flow>, steps: seq<Step>, h: nat, n: string)
    requires ns != [] && Reachable(ns, fs, steps) && h < |steps| && steps[h].HandleEvent?
    requires fs[h].master == Holding(n) && Verdict(steps, h, n) == FatalErr
    ensures fs[h + 1] == fs[h].(master := Returned, closed := fs[h].closed || n == Last(ns), lost := fs[h].lost + {n})
    ensures forall l | h < l < |steps| :: !Concerns(fs[l], steps[l], n)
  {
    hide Runnable, Inv, Over, Concerns, Handle, Next, Reports;
    AtHandling(ns, fs, steps, h);
    FailedShape(ns, fs[h].(master := Waiting), n, Verdict(steps, h, n));
    HeldIn(ns, fs[h]);
    OverAfter(ns, fs[h], fs[h + 1]);
    StaysOver(ns, fs, steps, h + 1, |steps|, n);
  }

  /** An abort: the channel is closed and the master returns, or panics when it was closed before. */
  lemma AbortHandled(ns: seq<Node>, fs: seq<Flow>, steps: seq<Step>, h: nat, n: string)
    requires ns != [] && Reachable(ns, fs, steps) && h < |steps| && steps[h].HandleEvent?
    requires fs[h].master == Holding(n) && Verdict(steps, h, n) == AbortErr
    ensures fs[h + 1] == fs[h].(master := if fs[h].closed then Panicked else Returned, closed := true, lost := fs[h].lost + {n})
    ensures forall l | h < l < |steps| :: !Concerns(fs[l], steps[l], n)
  {
    hide Runnable, Inv, Over, Concerns, Handle, Next, Reports;
    AtHandling(ns, fs, steps, h);
    FailedShape(ns, fs[h].(master := Waiting), n, Verdict(steps, h, n));
    OverAfter(ns, fs[h], fs[h + 1]);
    StaysOver(ns, fs, steps, h + 1, |steps|, n);
  }

  /** An error that is not classified, of a node that never ended otherwise: the master goes on, and nothing more happens to the node. */
  lemma OtherHandled(ns: seq<Node>, fs: seq<Flow>, steps: seq<Step>, h: nat, n: string)
    requires ns != [] && Reachable(ns, fs, steps) && h < |steps| && steps[h].HandleEvent?
    requires fs[h].master == Holding(n) && Verdict(steps, h, n) == OtherErr
    ensures fs[h + 1] == fs[h].(master := Waiting, lost := fs[h].lost + {n})
    ensures forall l | h < l < |steps| :: !Concerns(fs[l], steps[l], n)
  {
    hide Runnable, Inv, Over, Concerns, Handle, Next, Reports;
    AtHandling(ns, fs, steps, h);
    FailedShape(ns, fs[h].(master := Waiting), n, Verdict(steps, h, n));
    OverAfter(ns, fs[h], fs[h + 1]);
    StaysOver(ns, fs, steps, h + 1, |steps|, n);
  }

  /** A success: exactly the nodes whose last open dependency it was are to be handed over, and the last node closes the channel. */
  lemma SuccessHandled(ns: seq<Node>, fs: seq<Flow>, steps: seq<Step>, h: nat, n: string)
    requires ns != [] && Reachable(ns, fs, steps) && h < |steps| && steps[h].HandleEvent?
    requires fs[h].master == Holding(n) && Verdict(steps, h, n) == Success
    ensures var f, f' := fs[h], fs[h + 1];
            && f' == f.(master := Waiting, ok := f.ok + {n}, closed := f.closed || n == Last(ns), items := f'.items, pending := f'.pending)
            && forall m :: f'.pending[m] == if m in Names(ns) && n in DepsOf(ns, m) && DepsOf(ns, m) <= f.ok + {n} then 1 else 0
    ensures forall l | h < l < |steps| :: !Concerns(fs[l], steps[l], n)
  {
    hide Runnable, Inv, Over, Concerns, Handle, Next, Reports;
    AtHandling(ns, fs, steps, h);
    FailedShape(ns, fs[h].(master := Waiting), n, Verdict(steps, h, n));
    HeldIn(ns, fs[h]);
    SuccessAt(ns, fs[h], n);
    SelfNotReleased(ns, fs[h], n);
    OverAfter(ns, fs[h], fs[h + 1]);
    StaysOver(ns, fs, steps, h + 1, |steps|, n);
  }

  lemma SuccessAt(ns: seq<Node>, f: Flow, n: string)
    requires Inv(ns, f) && f.master == Holding(n) && Names(ns) <= f.items.Keys && n in f.items && f.items[n].event == ExecOK
    ensures var f' := Handle(ns, f.(master := Waiting), n);
            && f' == f.(master := Waiting, ok := f.ok + {n}, closed := f.closed || n == Last(ns), items := f'.items, pending := f'.pending)
            && forall m :: f'.pending[m] == if m in Names(ns) && n in DepsOf(ns, m) && DepsOf(ns, m) <= f.ok + {n} then 1 else 0
  {
    HeldIn(ns, f);
    var g := f.(master := Waiting);
    forall m <- Names(ns) ensures m in Released(ns, g, n) <==> n in DepsOf(ns, m) && DepsOf(ns, m) <= f.ok + {n} {
      assert NodeOK(ns, f, m);
      ReleasedExactly(ns, g, n, m);
    }
    hide Inv, NodeOK;
    ReleasedNames(ns, g, n);
    OkPending(ns, g, n);
    hide Released, NextsOf;
  }

  /** No node depends on itself. */
  lemma SelfNotReleased(ns: seq<Node>, f: Flow, n: string)
    requires Inv(ns, f) && n in Names(ns)
    ensures n !in DepsOf(ns, n)
  {
    if n in DepsOf(ns, n) { DepEarlier(ns, n, n); }
  }

  // ---------- how often a node is started ----------

  /** Before it is ready a node was not started; while it has a task or an event, each start but one was paid for with a retry. */
  ghost predicate StartsPaid(ns: seq<Node>, f: Flow, n: string)
    requires n in Names(ns)
  {
    var r := ns[Position(ns, n)].retryNum;
    && n in f.items
    && (!Ready(ns, f, n) ==> f.items[n].starts == 0 && f.items[n].retryNum == r)
    && (Tokens(f, n) > 0 ==> f.items[n].starts + f.pending[n] + f.submitted[n] == r - f.items[n].retryNum + 1)
  }

  lemma PaidStep(ns: seq<Node>, f: Flow, st: Step, f': Flow, n: string)
    requires ns != [] && Inv(ns, f) && Next(ns, f, st, f') && n in Names(ns) && StartsPaid(ns, f, n)
    ensures StartsPaid(ns, f', n)
  {
    hide StartsPaid, Next, Handle, Ready;
    AtMostOne(ns, f, n);
    TokenReady(ns, f, n);
    if st.HandleEvent? {
      if f.master == Holding(n) { PaidHeld(ns, f, f', n); } else { PaidOther(ns, f, f', n); }
    } else if st.Done? || st.Receive? || st.name != n {
      PaidMove(ns, f, st, f', n);
    } else {
      PaidOwn(ns, f, st, f', n);
    }
  }

  lemma PaidMove(ns: seq<Node>, f: Flow, st: Step, f': Flow, n: string)
    requires ns != [] && Next(ns, f, st, f') && !st.HandleEvent? && (st.Done? || st.Receive? || st.name != n)
    requires n in Names(ns) && StartsPaid(ns, f, n)
    ensures StartsPaid(ns, f', n)
  {
    MoveFields(ns, f, st, f', n);
    MoveTokensAt(ns, f, st, f', n);
    hide Next, Tokens;
  }

  lemma PaidOwn(ns: seq<Node>, f: Flow, st: Step, f': Flow, n: string)
    requires ns != [] && Next(ns, f, st, f') && !st.HandleEvent? && !st.Done? && !st.Receive? && st.name == n
    requires n in Names(ns) && StartsPaid(ns, f, n) && Tokens(f, n) <= 1 && (Tokens(f, n) > 0 ==> Ready(ns, f, n))
    ensures StartsPaid(ns, f', n)
  {
    hide StartsPaid, Ready;
    match st
    case Submit(_) => PaidAccepted(ns, f, n);
    case Begin(_) => assert Tokens(f, n) > 0; PaidBegun(ns, f, n);
    case Finish(_, o) => PaidFinished(ns, f, n, o);
    case Send(_) => PaidSent(ns, f, n);
  }

  lemma PaidAccepted(ns: seq<Node>, f: Flow, n: string)
    requires n in Names(ns) && StartsPaid(ns, f, n) && n in f.pending
    ensures StartsPaid(ns, Accepted(f, n), n)
  {
    AcceptedTokens(f, n);
  }

  lemma PaidBegun(ns: seq<Node>, f: Flow, n: string)
    requires n in Names(ns) && StartsPaid(ns, f, n) && n in f.submitted && Tokens(f, n) <= 1 && Ready(ns, f, n)
    ensures StartsPaid(ns, Begun(f, n), n)
  {
    BegunTokens(f, n);
    assert Tokens(f, n) > 0;
  }

  lemma PaidFinished(ns: seq<Node>, f: Flow, n: string, o: Outcome)
    requires n in Names(ns) && StartsPaid(ns, f, n) && n in f.running
    ensures StartsPaid(ns, Finished(f, n, o), n)
  {
    FinishedTokens(f, n, o);
  }

  lemma PaidSent(ns: seq<Node>, f: Flow, n: string)
    requires n in Names(ns) && StartsPaid(ns, f, n) && n in f.finished && CanSend(f)
    ensures StartsPaid(ns, Sent(f, n), n)
  {
    SentTokens(f, n);
  }

  /** The node's own event: a retry is paid for, and otherwise it has nothing left. */
  lemma PaidHeld(ns: seq<Node>, f: Flow, f': Flow, n: string)
    requires ns != [] && Inv(ns, f) && Next(ns, f, HandleEvent, f') && n in Names(ns) && StartsPaid(ns, f, n) && f.master == Holding(n)
    ensures StartsPaid(ns, f', n)
  {
    hide Inv, Handle;
    var g := f.(master := Waiting);
    HeldIn(ns, f);
    HandleMoves(ns, f, f');
    if f.items[n].event == ExecOK {
      SuccessAt(ns, f, n);
      SelfNotReleased(ns, f, n);
    } else {
      var o := OutcomeOf(f.items[n].event);
      FailedShape(ns, g, n, o);
    }
  }

  lemma OutcomeOf(e: Event) returns (o: Outcome)
    ensures Reports(e, o)
  {
    o := match e
      case NoEvent => OtherErr
      case ExecOK => Success
      case Retryable => RetryErr
      case NonRetryable => FatalErr
      case Abort => AbortErr;
  }

  /** Another node's event: at most it makes `n` ready, and then `n` is to be handed over. */
  lemma PaidOther(ns: seq<Node>, f: Flow, f': Flow, n: string)
    requires ns != [] && Inv(ns, f) && Next(ns, f, HandleEvent, f') && n in Names(ns) && StartsPaid(ns, f, n) && f.master != Holding(n)
    ensures StartsPaid(ns, f', n)
  {
    hide Inv, Handle;
    var m, g := f.master.name, f.(master := Waiting);
    HeldIn(ns, f);
    HandleMoves(ns, f, f');
    TokenReady(ns, f, n);
    if f.items[m].event == ExecOK {
      SuccessAt(ns, f, m);
      ItemsAfter(ns, g, m, n);
    } else {
      FailedFields(ns, f, f', n);
    }
  }

  lemma ItemsAfter(ns: seq<Node>, f: Flow, m: string, n: string)
    requires ns != [] && Names(ns) <= f.items.Keys && m in f.items && f.items[m].event == ExecOK && n in f.items
    ensures var f' := Handle(ns, f, m);
            n in f'.items && f'.items[n].starts == f.items[n].starts && f'.items[n].retryNum == f.items[n].retryNum
  {
    hide Released, NextsOf;
  }

  lemma {:induction false} PaidRun(ns: seq<Node>, fs: seq<Flow>, steps: seq<Step>, k: nat, n: string)
    requires ns != [] && Reachable(ns, fs, steps) && k <= |steps| && n in Names(ns)
    ensures StartsPaid(ns, fs[k], n)
    decreases k
  {
    hide Next, Runnable, Inv, StartsPaid;
    if k == 0 {
      PaidStart(ns, fs[0].pool, n);
    } else {
      PaidRun(ns, fs, steps, k - 1, n);
      RunInv(ns, fs[..k], steps[..k - 1]);
      assert fs[..k][k - 1] == fs[k - 1];
      PaidStep(ns, fs[k - 1], steps[k - 1], fs[k], n);
    }
  }

  lemma PaidStart(ns: seq<Node>, pool: Pool, n: string)
    requires Runnable(ns) && n in Names(ns)
    ensures StartsPaid(ns, Init(ns, pool), n)
  {
    var f := Init(ns, pool);
    InitInv(ns, pool);
    TokenReady(ns, f, n);
  }

  /** The master gives a node up after exactly 1 + RetryNum starts: a retryable error that is not retried came from the last of them. */
  lemma GivenUpAfter(ns: seq<Node>, fs: seq<Flow>, steps: seq<Step>, h: nat, n: string)
    requires ns != [] && Reachable(ns, fs, steps) && h < |steps| && steps[h].HandleEvent?
    requires fs[h].master == Holding(n) && Verdict(steps, h, n) == RetryErr
    ensures n in Names(ns) && n in fs[h].items
    ensures var r := ns[Position(ns, n)].retryNum;
            fs[h + 1].pending == multiset{} <==> fs[h].items[n].starts == if r > 0 then 1 + r else 1
  {
    hide Runnable, Inv, Handle, Next, Reports;
    AtHandling(ns, fs, steps, h);
    FailedShape(ns, fs[h].(master := Waiting), n, RetryErr);
    PaidRun(ns, fs, steps, h, n);
    RetriesLeft(ns, fs[h], n);
  }

  lemma RetriesLeft(ns: seq<Node>, f: Flow, n: string)
    requires Inv(ns, f) && f.master == Holding(n)
    ensures n in Names(ns) && n in f.items && f.pending[n] == f.submitted[n] == 0 && Tokens(f, n) > 0
    ensures f.items[n].retryNum <= ns[Position(ns, n)].retryNum && (f.items[n].retryNum >= 0 || f.items[n].retryNum == ns[Position(ns, n)].retryNum)
  {
    HeldIn(ns, f);
    assert NodeOK(ns, f, n);
  }

  // ---------- when the master returns ----------

  /**
    The master returns in two ways only: it handled an error that is not retryable or an abort, or its channel was closed for the
    last node and every event sent before that has been taken.
   */
  lemma ReturnsWhen(ns: seq<Node>, fs: seq<Flow>, steps: seq<Step>, k: nat)
    requires ns != [] && Reachable(ns, fs, steps) && k < |steps| && fs[k + 1].master.Returned? && !fs[k].master.Returned?
    ensures var f := fs[k];
            || (f.master.Holding? && steps[k].HandleEvent? && Verdict(steps, k, f.master.name) in {FatalErr, AbortErr})
            || (f.master.Waiting? && f.pending == multiset{} && f.closed && f.channel == [] && Last(ns) in f.ok)
  {
    hide Runnable, Inv, Handle;
    RunInv(ns, fs[..k + 1], steps[..k]);
    assert fs[..k + 1][k] == fs[k] && Next(ns, fs[k], steps[k], fs[k + 1]);
    ClosedForLast(ns, fs[k]);
    if steps[k].HandleEvent? {
      AtHandling(ns, fs, steps, k);
      var n := fs[k].master.name;
      ReturnsFailed(ns, fs[k].(master := Waiting), n, Verdict(steps, k, n));
    }
  }

  lemma ClosedForLast(ns: seq<Node>, f: Flow)
    requires Inv(ns, f)
    ensures f.closed && Alive(f) ==> Last(ns) in f.ok
  {}

  lemma ReturnsFailed(ns: seq<Node>, f: Flow, n: string, o: Outcome)
    requires ns != [] && Names(ns) <= f.items.Keys && n in f.items && f.master.Waiting? && Reports(f.items[n].event, o)
    ensures Handle(ns, f, n).master.Returned? ==> o in {FatalErr, AbortErr}
  {
    hide Handle;
    if o.Success? { SuccessStays(ns, f, n); } else { FailedShape(ns, f, n, o); }
  }

  lemma SuccessStays(ns: seq<Node>, f: Flow, n: string)
    requires ns != [] && Names(ns) <= f.items.Keys && n in f.items && f.master.Waiting? && f.items[n].event == ExecOK
    ensures !Handle(ns, f, n).master.Returned?
  {
    hide Released, NextsOf;
  }
}
