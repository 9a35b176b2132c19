/**
  A run of a flow graph in which the last node is done while another node aborts after it (common/bizflow/graph.go, `Run`): on
  every pool with two workers or more on which the graph cannot get stuck.
 */
module BizLateAbort {
  import opened BizGraph
  import opened BizRun
  import opened BizTermination
  import opened BizStuck
  import opened BizSchedule
  import opened BizStuckExact

  /** What holds throughout: the run can be continued, nothing came to nothing, the channel is open. */
  ghost predicate Going(ns: seq<Node>, pool: Pool, f: Flow) {
    && Occurs(ns, pool, f) && Inv(ns, f) && f.pool == pool && f.lost == {} && !f.closed && Alive(f)
    && pool.workers >= 2 && pool.capacity >= 1 && !CanStick(ns, pool)
  }

  /** There is never more than fits. */
  lemma LoadFits(ns: seq<Node>, pool: Pool, f: Flow)
    requires ns != [] && Going(ns, pool, f)
    ensures Load(f) <= pool.workers + pool.capacity
  {
    hide Inv, CanStick, ReadySet, Load;
    LoadIsReady(ns, f);
    var fs: seq<Flow>, steps: seq<Step> :| Reachable(ns, fs, steps) && fs[0].pool == pool && fs[|steps|] == f;
    ReadyFits(ns, fs, steps);
  }

  /** On a pool on which the graph cannot get stuck, no more nodes are ever ready than there is room for. */
  lemma {:induction false} ReadyFits(ns: seq<Node>, fs: seq<Flow>, steps: seq<Step>)
    requires ns != [] && Reachable(ns, fs, steps) && !CanStick(ns, fs[0].pool)
    requires var f := fs[|steps|]; f.lost == {} && !f.closed && Alive(f)
    ensures |ReadySet(ns, fs[|steps|])| <= fs[0].pool.workers + fs[0].pool.capacity
    decreases |steps|
  {
    hide Next, Runnable, CanStick, ReadySet, Inv;
    var f := fs[|steps|];
    RunInv(ns, fs, steps);
    PoolKept(ns, fs, steps);
    assert Occurs(ns, fs[0].pool, f);
    if f.master.Waiting? {
      if Jammed(ns, f) { JammedSticks(ns, fs[0].pool, f); }
    } else {
      var k := |steps| - 1;
      OpenBefore(ns, fs[k], steps[k], f);
      ReadyFits(ns, fs[..k + 1], steps[..k]);
      SameReady(ns, fs[k], f);
    }
  }

  lemma OpenBefore(ns: seq<Node>, f: Flow, st: Step, f': Flow)
    requires ns != [] && Next(ns, f, st, f') && f'.lost == {} && !f'.closed && f'.master.Holding?
    ensures f.lost == {} && !f.closed && Alive(f) && f'.ok == f.ok
  {}

  lemma StaysGoing(ns: seq<Node>, pool: Pool, f: Flow, st: Step, f': Flow)
    requires ns != [] && Going(ns, pool, f) && Next(ns, f, st, f')
    requires st.HandleEvent? ==> f.items[f.master.name].event == ExecOK && f.master.name != Last(ns)
    ensures Going(ns, pool, f')
  {
    hide Inv, Occurs, Next, CanStick;
    OccursNext(ns, pool, f, st, f');
    StaysOpen(ns, f, st, f');
  }

  lemma StaysOpen(ns: seq<Node>, f: Flow, st: Step, f': Flow)
    requires ns != [] && Next(ns, f, st, f') && f.lost == {} && !f.closed && Alive(f)
    requires st.HandleEvent? ==> f.items[f.master.name].event == ExecOK && f.master.name != Last(ns)
    ensures f'.pool == f.pool && f'.lost == {} && !f'.closed && Alive(f')
  {
    hide Released, NextsOf;
  }

  // ---------- first: all but `b` and the last node ----------

  /** Neither `b` nor the last node has begun, and all others succeed. */
  ghost predicate Holding2(ns: seq<Node>, pool: Pool, b: string, f: Flow) {
    && Going(ns, pool, f) && b in Names(ns) && b != Last(ns) && !Ancestor(ns, b, Last(ns))
    && Unbegun(f, b) && Unbegun(f, Last(ns)) && AllOK(f) && b !in f.ok
  }

  predicate Unbegun(f: Flow, n: string) {
    f.running[n] == f.finished[n] == multiset(f.channel)[n] == Held(f)[n] == 0
  }

  /** Every task that has run, has succeeded. */
  ghost predicate AllOK(f: Flow) {
    forall n | f.finished[n] + multiset(f.channel)[n] + Held(f)[n] > 0 :: n in f.items && f.items[n].event == ExecOK
  }

  predicate Allowed2(ns: seq<Node>, b: string, st: Step)
    requires ns != []
  {
    && (st.Begin? ==> st.name != b && st.name != Last(ns))
    && (st.Finish? ==> st.outcome == Success)
  }

  lemma Holding2Step(ns: seq<Node>, pool: Pool, b: string, f: Flow, st: Step, f': Flow)
    requires ns != [] && Holding2(ns, pool, b, f) && Next(ns, f, st, f') && Allowed2(ns, b, st)
    ensures Holding2(ns, pool, b, f')
  {
    hide Inv, CanStick, Occurs, Ancestor, Next;
    HeldOK(ns, b, f, st, f');
    StaysGoing(ns, pool, f, st, f');
    hide Going;
    StepUnbegun(ns, f, st, f', b);
    StepUnbegun(ns, f, st, f', Last(ns));
    StepAllOK(ns, f, st, f');
    OnlyHeldDone(ns, f, st, f');
  }

  lemma OnlyHeldDone(ns: seq<Node>, f: Flow, st: Step, f': Flow)
    requires ns != [] && Next(ns, f, st, f')
    ensures f.ok <= f'.ok && forall n <- f'.ok :: n in f.ok || Held(f)[n] > 0
  {
    hide Released, NextsOf;
  }

  lemma HeldOK(ns: seq<Node>, b: string, f: Flow, st: Step, f': Flow)
    requires ns != [] && Next(ns, f, st, f') && AllOK(f) && Unbegun(f, Last(ns))
    ensures st.HandleEvent? ==> f.items[f.master.name].event == ExecOK && f.master.name != Last(ns)
  {
    if st.HandleEvent? { assert Held(f)[f.master.name] > 0; }
  }

  lemma StepUnbegun(ns: seq<Node>, f: Flow, st: Step, f': Flow, n: string)
    requires ns != [] && Next(ns, f, st, f') && Unbegun(f, n) && (st.Begin? ==> st.name != n)
    ensures Unbegun(f', n)
  {
    match st
    case HandleEvent => HandleMoves(ns, f, f');
    case Receive => assert f.channel == [f.channel[0]] + f.channel[1..];
    case _ =>
  }

  /** Handling an event moves no task that a worker has. */
  lemma HandleMoves(ns: seq<Node>, f: Flow, f': Flow)
    requires ns != [] && Next(ns, f, HandleEvent, f')
    ensures f'.submitted == f.submitted && f'.running == f.running && f'.finished == f.finished && f'.channel == f.channel && !f'.master.Holding?
    ensures forall n <- f.items :: n in f'.items && f'.items[n].event == f.items[n].event
  {}

  lemma StepAllOK(ns: seq<Node>, f: Flow, st: Step, f': Flow)
    requires ns != [] && Next(ns, f, st, f') && AllOK(f) && (st.Finish? ==> st.outcome == Success)
    ensures AllOK(f')
  {
    match st
    case HandleEvent => HandleMoves(ns, f, f'); HandledAllOK(f, f');
    case Receive => TakenAllOK(f);
    case Submit(n) => AcceptedAllOK(f, n);
    case Begin(n) => BegunAllOK(f, n);
    case Finish(n, _) => FinishedAllOK(f, n);
    case Send(n) => SentAllOK(f, n);
    case Done =>
  }

  lemma HandledAllOK(f: Flow, f': Flow)
    requires AllOK(f) && f'.finished == f.finished && f'.channel == f.channel && !f'.master.Holding?
    requires forall n <- f.items :: n in f'.items && f'.items[n].event == f.items[n].event
    ensures AllOK(f')
  {}

  lemma TakenAllOK(f: Flow)
    requires AllOK(f) && Idle(f) && f.channel != []
    ensures AllOK(Taken(f))
  {
    assert f.channel == [f.channel[0]] + f.channel[1..];
  }

  lemma AcceptedAllOK(f: Flow, n: string)
    requires AllOK(f)
    ensures AllOK(Accepted(f, n))
  {}

  lemma BegunAllOK(f: Flow, n: string)
    requires AllOK(f) && n in f.items
    ensures AllOK(Begun(f, n))
  {}

  lemma FinishedAllOK(f: Flow, n: string)
    requires AllOK(f) && n in f.items
    ensures AllOK(Finished(f, n, Success))
  {}

  lemma SentAllOK(f: Flow, n: string)
    requires AllOK(f) && CanSend(f) && n in f.finished
    ensures AllOK(Sent(f, n))
  {}

  /** No step is left but to begin `b` or the last node. */
  ghost predicate Stopped2(ns: seq<Node>, b: string, f: Flow)
    requires ns != []
  {
    forall st, f' :: Next(ns, f, st, f') ==> !Allowed2(ns, b, st)
  }

  lemma {:induction false} RunOthers(ns: seq<Node>, pool: Pool, b: string, f: Flow) returns (g: Flow)
    requires ns != [] && Holding2(ns, pool, b, f) && forall n <- ns :: n.name in f.items
    ensures Holding2(ns, pool, b, g) && Stopped2(ns, b, g)
    decreases LeftAll(ns, f) + Waits(f)
  {
    if Stopped2(ns, b, f) { return f; }
    hide Allowed2, Next;
    var st, f1 :| Next(ns, f, st, f1) && Allowed2(ns, b, st);
    Holding2Step(ns, pool, b, f, st, f1);
    LastStepLowers(ns, f, st, f1);
    g := RunOthers(ns, pool, b, f1);
  }

  lemma Stopped2Tasks(ns: seq<Node>, b: string, f: Flow)
    requires Inv(ns, f) && Stopped2(ns, b, f) && AllOK(f)
    ensures f.running == multiset{} && (forall n <- f.submitted :: n == b || n == Last(ns)) && (f.finished != multiset{} ==> !CanSend(f))
    ensures f.pending != multiset{} ==> Busy(f) == f.pool.workers
    ensures !f.master.Holding? && (Idle(f) ==> f.channel == [])
  {
    hide Next;
    forall n
      ensures n !in f.running && (n in f.submitted ==> n == b || n == Last(ns)) && (n in f.finished ==> !CanSend(f))
      ensures n in f.pending ==> Busy(f) >= f.pool.workers
    {
      WorkerStep(ns, f, n);
    }
    MasterStep(ns, f);
  }

  /** Then both are in the hands of workers, nothing else is, and the channel has room. */
  lemma BothSubmitted(ns: seq<Node>, pool: Pool, b: string, f: Flow)
    requires ns != [] && Holding2(ns, pool, b, f) && Stopped2(ns, b, f)
    ensures b in f.submitted && Last(ns) in f.submitted && f.running == f.finished == multiset{} && |f.channel| < f.pool.capacity
  {
    hide Stopped2, CanStick, Occurs, Ancestor;
    Stopped2Tasks(ns, b, f);
    LoadFits(ns, pool, f);
    if f.pending == multiset{} {
      OnlyTwoReady(ns, pool, b, f);
    } else {
      SubmittedAtMost(ns, f, b);
    }
  }

  /** Full workers and none that sends: the two are the ones that keep them. */
  lemma SubmittedAtMost(ns: seq<Node>, f: Flow, b: string)
    requires Inv(ns, f) && b != Last(ns) && forall n <- f.submitted :: n == b || n == Last(ns)
    ensures |f.submitted| <= 2 && (|f.submitted| == 2 ==> b in f.submitted && Last(ns) in f.submitted)
  {
    forall n ensures f.submitted[n] <= 1 {
      if n in f.submitted {
        ItemThere(ns, f, n);
        assert NodeOK(ns, f, n);
      }
    }
    AtMostTwo(f.submitted, b, Last(ns));
  }

  lemma AtMostTwo<T>(m: multiset<T>, x: T, y: T)
    requires x != y && forall n :: m[n] <= 1 && (n in m ==> n == x || n == y)
    ensures |m| <= 2 && (|m| == 2 ==> x in m && y in m)
  {
    var mx, my := if x in m then multiset{x} else multiset{}, if y in m then multiset{y} else multiset{};
    assert forall n :: m[n] == (mx + my)[n];
    assert m == mx + my;
  }

  /** With all tasks handed over and all events handled, everything else is done. */
  lemma OnlyTwoReady(ns: seq<Node>, pool: Pool, b: string, f: Flow)
    requires ns != [] && Holding2(ns, pool, b, f) && f.pending == f.running == f.finished == multiset{} && f.channel == [] && !f.master.Holding?
    requires forall n <- f.submitted :: n == b || n == Last(ns)
    ensures b in f.submitted && Last(ns) in f.submitted
  {
    hide Inv, CanStick, Occurs, Ancestor, Unbegun, AllOK;
    LastThere(ns, f);
    var r := ReadySubmitted(ns, f, b);
    var r' := ReadySubmitted(ns, f, Last(ns));
    NotLastAncestor(ns, f, b);
  }

  lemma ReadySubmitted(ns: seq<Node>, f: Flow, n: string) returns (r: string)
    requires Inv(ns, f) && f.lost == {} && f.pending == f.running == f.finished == multiset{} && f.channel == [] && !f.master.Holding?
    requires n in Names(ns) && n !in f.ok
    ensures r in f.submitted && (r == n || Ancestor(ns, r, n))
  {
    hide Inv, Ancestor;
    r := ReadyBelow(ns, f, n);
    ReadyToken(ns, f, r);
  }

  lemma NotLastAncestor(ns: seq<Node>, f: Flow, n: string)
    requires Inv(ns, f)
    ensures !Ancestor(ns, Last(ns), n)
  {
    LastNoAncestor(ns, n);
  }

  lemma LastThere(ns: seq<Node>, f: Flow)
    requires Inv(ns, f) && !f.closed
    ensures Last(ns) in Names(ns) && Last(ns) !in f.ok
  {
    PositionOf(ns, |ns| - 1);
  }

  lemma ReadyToken(ns: seq<Node>, f: Flow, n: string)
    requires Inv(ns, f) && f.lost == {} && n in ReadySet(ns, f)
    ensures Tokens(f, n) == 1
  {
    assert NodeOK(ns, f, n);
  }

  /** A node that is ready and not done, and that `n` waits for or is. */
  lemma {:induction false} ReadyBelow(ns: seq<Node>, f: Flow, n: string) returns (r: string)
    requires Inv(ns, f) && n in Names(ns) && n !in f.ok
    ensures r in ReadySet(ns, f) && (r == n || Ancestor(ns, r, n))
    decreases Position(ns, n)
  {
    hide NodeOK, BoundsOK;
    r := n;
    if !Ready(ns, f, n) {
      var d :| d in DepsOf(ns, n) && d !in f.ok;
      DepIsAncestor(ns, d, n);
      DepEarlier(ns, d, n);
      r := ReadyBelow(ns, f, d);
      if r != d { AncestorsChain(ns, r, d, n); }
    }
  }

  // ---------- then: the last node succeeds, and whatever runs after it aborts ----------

  /** The last node's event is on its way; events before it are of nodes that succeeded, those after it of nodes that aborted. */
  ghost predicate LastSent(ns: seq<Node>, f: Flow)
    requires ns != []
  {
    && (forall n <- f.finished :: Aborted(f, n))
    && if f.master == Holding(Last(ns)) then forall n <- f.channel :: Aborted(f, n)
       else
         && (f.master.Holding? ==> f.master.name in f.items && f.items[f.master.name].event == ExecOK)
         && exists i: nat :: LastAt(ns, f, i)
  }

  ghost predicate Aborted(f: Flow, n: string) {
    n in f.items && f.items[n].event == Abort
  }

  ghost predicate LastAt(ns: seq<Node>, f: Flow, i: nat)
    requires ns != []
  {
    && i < |f.channel| && f.channel[i] == Last(ns)
    && (forall k | 0 <= k < i :: f.channel[k] in f.items && f.items[f.channel[k]].event == ExecOK && f.channel[k] != Last(ns))
    && (forall k | i < k < |f.channel| :: Aborted(f, f.channel[k]))
  }

  ghost predicate Aborting(ns: seq<Node>, pool: Pool, b: string, f: Flow)
    requires ns != []
  {
    && Going(ns, pool, f) && LastSent(ns, f) && Last(ns) in f.items && f.items[Last(ns)].event == ExecOK
    && b in Names(ns) && b != Last(ns) && b !in f.ok && DepsOf(ns, b) <= f.ok && b in f.items && f.items[b].event != ExecOK
  }

  /** The last node runs and its event is sent, while `b` waits to be begun. */
  lemma SendLast(ns: seq<Node>, pool: Pool, b: string, f: Flow) returns (g: Flow)
    requires ns != [] && Holding2(ns, pool, b, f) && b in f.submitted && Last(ns) in f.submitted
    requires f.running == f.finished == multiset{} && |f.channel| < f.pool.capacity
    ensures Aborting(ns, pool, b, g)
  {
    hide Inv, Occurs, CanStick, Ancestor, LastSent;
    SubmittedReady(ns, f, b);
    SubmittedReady(ns, f, Last(ns));
    var l := Last(ns);
    var f1 := Begun(f, l);
    StaysGoing(ns, pool, f, Begin(l), f1);
    var f2 := Finished(f1, l, Success);
    StaysGoing(ns, pool, f1, Finish(l, Success), f2);
    g := Sent(f2, l);
    StaysGoing(ns, pool, f2, Send(l), g);
    JustSent(ns, f, g);
  }

  lemma SubmittedReady(ns: seq<Node>, f: Flow, n: string)
    requires Inv(ns, f) && n in f.submitted
    ensures n in Names(ns) && n in f.items && n !in f.ok && DepsOf(ns, n) <= f.ok && f.items[n].event != ExecOK
  {
    ItemThere(ns, f, n);
    assert NodeOK(ns, f, n);
  }

  lemma JustSent(ns: seq<Node>, f: Flow, g: Flow)
    requires ns != [] && AllOK(f) && Unbegun(f, Last(ns)) && g.master == f.master && g.channel == f.channel + [Last(ns)]
    requires g.finished == multiset{} && forall n <- f.items | n != Last(ns) :: n in g.items && g.items[n] == f.items[n]
    ensures LastSent(ns, g)
  {
    assert forall k | 0 <= k < |f.channel| :: f.channel[k] in multiset(f.channel);
    assert f.master.Holding? ==> Held(f)[f.master.name] > 0;
    assert LastAt(ns, g, |f.channel|);
  }

  /** What is left out until the last node's event is held. */
  predicate Allowed3(ns: seq<Node>, f: Flow, st: Step)
    requires ns != []
  {
    && (st.HandleEvent? ==> f.master != Holding(Last(ns)))
    && (st.Finish? ==> st.outcome == AbortErr)
  }

  lemma AbortingStep(ns: seq<Node>, pool: Pool, b: string, f: Flow, st: Step, f': Flow)
    requires ns != [] && Aborting(ns, pool, b, f) && Next(ns, f, st, f') && Allowed3(ns, f, st)
    ensures Aborting(ns, pool, b, f')
  {
    hide Inv, Occurs, CanStick, Next;
    HeldNotLast(ns, f, st, f');
    StaysGoing(ns, pool, f, st, f');
    OnlyHeldDone(ns, f, st, f');
    FinishedNotLast(ns, pool, f, st, f');
    EventsStay(ns, f, st, f');
    hide Going, LastSent;
    StepSent(ns, f, st, f');
  }

  lemma HeldNotLast(ns: seq<Node>, f: Flow, st: Step, f': Flow)
    requires ns != [] && Next(ns, f, st, f') && LastSent(ns, f) && Allowed3(ns, f, st)
    ensures st.HandleEvent? ==> f.items[f.master.name].event == ExecOK && f.master.name != Last(ns)
  {}

  /** A node whose event is on its way is not running. */
  lemma FinishedNotLast(ns: seq<Node>, pool: Pool, f: Flow, st: Step, f': Flow)
    requires ns != [] && Going(ns, pool, f) && LastSent(ns, f) && Next(ns, f, st, f')
    ensures st.Finish? ==> st.name != Last(ns)
  {
    LastToken(ns, f);
  }

  lemma LastToken(ns: seq<Node>, f: Flow)
    requires Inv(ns, f) && LastSent(ns, f)
    ensures f.running[Last(ns)] == 0
  {
    AtMostOne(ns, f, Last(ns));
    hide Inv;
    if f.master != Holding(Last(ns)) {
      var i: nat :| LastAt(ns, f, i);
      assert f.channel[i] in multiset(f.channel);
    }
  }

  /** A step changes no event but that of a node that finishes. */
  lemma EventsStay(ns: seq<Node>, f: Flow, st: Step, f': Flow)
    requires ns != [] && Next(ns, f, st, f')
    ensures forall n <- f.items | !(st.Finish? && st.name == n) :: n in f'.items && f'.items[n].event == f.items[n].event
    ensures st.Finish? ==> st.name in f'.items && f'.items[st.name].event == EventAfter(f.items[st.name].event, st.outcome)
  {
    if st.HandleEvent? { HandleMoves(ns, f, f'); }
  }

  lemma StepSent(ns: seq<Node>, f: Flow, st: Step, f': Flow)
    requires ns != [] && Next(ns, f, st, f') && LastSent(ns, f) && Allowed3(ns, f, st) && !f.closed && f.pool.capacity >= 1
    requires st.Finish? ==> st.name != Last(ns)
    requires forall n <- f.items | !(st.Finish? && st.name == n) :: n in f'.items && f'.items[n].event == f.items[n].event
    requires Alive(f') && Inv(ns, f)
    ensures LastSent(ns, f')
  {
    hide Inv;
    match st
    case HandleEvent =>
      HandleMoves(ns, f, f');
      SameSent(ns, f, f');
    case Receive => TakenSent(ns, f);
    case Submit(n) => SameSent(ns, f, f');
    case Begin(n) => SameSent(ns, f, f');
    case Finish(n, _) => FinishedSent(ns, f, n);
    case Send(n) => SentSent(ns, f, n);
    case Done =>
  }

  lemma SameSent(ns: seq<Node>, f: Flow, f': Flow)
    requires ns != [] && LastSent(ns, f) && f'.finished == f.finished && f'.channel == f.channel
    requires f'.master == f.master || (!f'.master.Holding? && f.master != Holding(Last(ns)))
    requires forall n <- f.items :: n in f'.items && f'.items[n].event == f.items[n].event
    ensures LastSent(ns, f')
  {
    if f.master != Holding(Last(ns)) {
      var i: nat :| LastAt(ns, f, i);
      assert LastAt(ns, f', i);
    }
  }

  lemma TakenSent(ns: seq<Node>, f: Flow)
    requires ns != [] && LastSent(ns, f) && Idle(f) && f.channel != []
    ensures LastSent(ns, Taken(f))
  {
    var i: nat :| LastAt(ns, f, i);
    var f' := Taken(f);
    if i > 0 {
      assert LastAt(ns, f', i - 1);
    } else {
      forall n <- f'.channel ensures Aborted(f', n) {
        var k :| 0 <= k < |f'.channel| && f'.channel[k] == n;
        assert f.channel[k + 1] == n;
      }
    }
  }

  lemma FinishedSent(ns: seq<Node>, f: Flow, n: string)
    requires ns != [] && LastSent(ns, f) && n in f.running && n in f.items && n != Last(ns) && Inv(ns, f)
    ensures LastSent(ns, Finished(f, n, AbortErr))
  {
    hide Inv;
    var f' := Finished(f, n, AbortErr);
    RunningOnly(ns, f, n);
    assert forall x <- f.items | x != n :: f'.items[x] == f.items[x];
    forall x <- f'.finished ensures Aborted(f', x) { assert x == n || x in f.finished; }
    if f.master != Holding(Last(ns)) { FinishedAt(ns, f, n); }
  }

  lemma FinishedAt(ns: seq<Node>, f: Flow, n: string)
    requires ns != [] && (exists i: nat :: LastAt(ns, f, i)) && n in f.items && n !in f.channel
    ensures exists i: nat :: LastAt(ns, Finished(f, n, AbortErr), i)
  {
    var i: nat :| LastAt(ns, f, i);
    assert LastAt(ns, Finished(f, n, AbortErr), i);
  }

  lemma RunningOnly(ns: seq<Node>, f: Flow, n: string)
    requires Inv(ns, f) && n in f.running
    ensures n !in f.channel && f.master != Holding(n)
  {
    AtMostOne(ns, f, n);
    hide Inv;
    assert n in f.channel <==> n in multiset(f.channel);
  }

  lemma SentSent(ns: seq<Node>, f: Flow, n: string)
    requires ns != [] && LastSent(ns, f) && n in f.finished && CanSend(f) && !f.closed && f.pool.capacity >= 1
    ensures LastSent(ns, Sent(f, n))
  {
    var f' := Sent(f, n);
    if f.master != Holding(Last(ns)) {
      var i: nat :| LastAt(ns, f, i);
      assert LastAt(ns, f', i);
    }
  }

  /** No step is left but to handle the last node's event. */
  ghost predicate Stopped3(ns: seq<Node>, f: Flow)
    requires ns != []
  {
    forall st, f' :: Next(ns, f, st, f') ==> !Allowed3(ns, f, st)
  }

  lemma {:induction false} RunAborts(ns: seq<Node>, pool: Pool, b: string, f: Flow) returns (g: Flow)
    requires ns != [] && Aborting(ns, pool, b, f) && forall n <- ns :: n.name in f.items
    ensures Aborting(ns, pool, b, g) && Stopped3(ns, g)
    decreases LeftAll(ns, f) + Waits(f)
  {
    if Stopped3(ns, f) { return f; }
    hide Allowed3, Next, Aborting;
    var st, f1 :| Next(ns, f, st, f1) && Allowed3(ns, f, st);
    AbortingStep(ns, pool, b, f, st, f1);
    AbortingInv(ns, pool, b, f);
    AbortingInv(ns, pool, b, f1);
    LastStepLowers(ns, f, st, f1);
    g := RunAborts(ns, pool, b, f1);
  }

  lemma AbortingInv(ns: seq<Node>, pool: Pool, b: string, f: Flow)
    requires ns != [] && Aborting(ns, pool, b, f)
    ensures Inv(ns, f)
  {}

  lemma Stopped3Tasks(ns: seq<Node>, f: Flow)
    requires Inv(ns, f) && Stopped3(ns, f)
    ensures f.submitted == multiset{} && (f.finished != multiset{} ==> !CanSend(f))
    ensures f.pending != multiset{} ==> Busy(f) == f.pool.workers
    ensures (f.master.Holding? ==> f.master == Holding(Last(ns))) && (Idle(f) ==> f.channel == [])
    ensures f.running == multiset{}
  {
    hide Next;
    forall n
      ensures n !in f.running && n !in f.submitted && (n in f.finished ==> !CanSend(f)) && (n in f.pending ==> Busy(f) >= f.pool.workers)
    {
      WorkerStep(ns, f, n);
      AbortStep(ns, f, n);
    }
    MasterStep(ns, f);
  }

  lemma AbortStep(ns: seq<Node>, f: Flow, n: string)
    requires Inv(ns, f)
    ensures n in f.running ==> n in f.items && Next(ns, f, Finish(n, AbortErr), Finished(f, n, AbortErr))
  {
    WorkerStep(ns, f, n);
  }

  /** The master holds the last node's event, and an abort waits in the channel. */
  lemma AbortWaits(ns: seq<Node>, pool: Pool, b: string, f: Flow)
    requires ns != [] && Aborting(ns, pool, b, f) && Stopped3(ns, f)
    ensures f.master == Holding(Last(ns)) && f.channel != [] && Aborted(f, f.channel[0])
  {
    hide Stopped3, CanStick, Occurs;
    Stopped3Tasks(ns, f);
    LoadFits(ns, pool, f);
    ChannelThere(ns, pool, b, f);
    assert f.channel != [] ==> f.channel[0] in f.channel;
  }

  lemma ChannelThere(ns: seq<Node>, pool: Pool, b: string, f: Flow)
    requires ns != [] && Aborting(ns, pool, b, f) && f.submitted == f.running == multiset{} && (f.finished != multiset{} ==> !CanSend(f))
    requires f.pending != multiset{} ==> Busy(f) == f.pool.workers
    ensures f.channel != []
  {
    hide CanStick, Occurs;
    ReadyToken(ns, f, b);
    if f.master != Holding(Last(ns)) { var i: nat :| LastAt(ns, f, i); }
  }

  /** All together. */
  lemma AbortsAfterLast(ns: seq<Node>, pool: Pool, b: string) returns (f: Flow)
    requires Runnable(ns) && pool.workers >= 2 && pool.capacity >= 1 && !CanStick(ns, pool)
    requires b in Names(ns) && b != Last(ns) && !Ancestor(ns, b, Last(ns))
    ensures Occurs(ns, pool, f) && Inv(ns, f) && f.master == Holding(Last(ns)) && !f.closed && Last(ns) in f.items
    ensures f.items[Last(ns)].event == ExecOK && f.channel != [] && Aborted(f, f.channel[0])
  {
    hide Ancestor, CanStick;
    f := Init(ns, pool);
    StartHolding(ns, pool, b);
    AllItems(ns, f);
    f := RunOthers(ns, pool, b, f);
    BothSubmitted(ns, pool, b, f);
    f := SendLast(ns, pool, b, f);
    AbortingInv(ns, pool, b, f);
    AllItems(ns, f);
    f := RunAborts(ns, pool, b, f);
    AbortWaits(ns, pool, b, f);
  }

  lemma AllItems(ns: seq<Node>, f: Flow)
    requires Inv(ns, f)
    ensures forall n <- ns :: n.name in f.items
  {
    forall n <- ns ensures n.name in f.items { ItemThere(ns, f, n.name); }
  }

  lemma StartHolding(ns: seq<Node>, pool: Pool, b: string)
    requires Runnable(ns) && pool.workers >= 2 && pool.capacity >= 1 && !CanStick(ns, pool)
    requires b in Names(ns) && b != Last(ns) && !Ancestor(ns, b, Last(ns))
    ensures Holding2(ns, pool, b, Init(ns, pool)) && Inv(ns, Init(ns, pool))
  {
    OccursInit(ns, pool);
  }
}
