/** Runs of a flow graph end, and how (common/bizflow/graph.go, `Run`). */
module BizTermination {
  import opened BizGraph
  import opened BizRun

  function Positive(x: int): nat {
    if x > 0 then x else 0
  }

  /** How far a node's task has to go before its event is handled: 6 before it is handed to the pool, 0 when there is none. */
  function Phase(f: Flow, n: string): nat {
    if f.pending[n] > 0 then 6
    else if f.submitted[n] > 0 then 5
    else if f.running[n] > 0 then 4
    else if f.finished[n] > 0 then 3
    else if multiset(f.channel)[n] > 0 then 2
    else if Held(f)[n] > 0 then 1
    else 0
  }

  /** At most so many more steps are about node `n`: six for each start it has left. */
  function Left(f: Flow, n: string): nat
    requires n in f.items
  {
    if n in f.ok then 0
    else if Tokens(f, n) == 0 then (if n in f.lost then 0 else 6 + 6 * Positive(f.items[n].retryNum))
    else Phase(f, n) + 6 * Positive(f.items[n].retryNum)
  }

  function LeftAll(ns: seq<Node>, f: Flow): nat
    requires forall n <- ns :: n.name in f.items
  {
    if ns == [] then 0 else LeftAll(ns[1..], f) + Left(f, ns[0].name)
  }

  function Budget(ns: seq<Node>): nat {
    if ns == [] then 0 else Budget(ns[1..]) + 6 + 6 * Positive(ns[0].retryNum)
  }

  /** The node a step is about. */
  function Subject(f: Flow, st: Step): string
    requires st.Receive? ==> f.channel != []
    requires st.HandleEvent? ==> f.master.Holding?
  {
    match st
    case Submit(n) => n
    case Begin(n) => n
    case Finish(n, _) => n
    case Send(n) => n
    case Receive => f.channel[0]
    case HandleEvent => f.master.name
    case Done => ""
  }

  /** No step gives any node more to do, and each step but the last takes something off its own node. */
  lemma StepLowers(ns: seq<Node>, f: Flow, st: Step, f': Flow, m: string)
    requires ns != [] && Next(ns, f, st, f') && m in Names(ns) && NodeOK(ns, f, m) && m in f'.items
    requires !st.Done? ==> Subject(f, st) in Names(ns) && NodeOK(ns, f, Subject(f, st))
    ensures Left(f', m) <= Left(f, m)
    ensures !st.Done? && m == Subject(f, st) ==> Left(f', m) < Left(f, m)
  {
    hide NodeOK, Left, Handle;
    match st
    case HandleEvent =>
      if f.items[f.master.name].event == ExecOK { OkLowers(ns, f, f', m); } else { FailedLowers(ns, f, f', m); }
    case Submit(n) => SubmitLowers(ns, f, n, m);
    case Begin(n) => BeginLowers(ns, f, n, m);
    case Finish(n, o) => FinishLowers(ns, f, n, o, m);
    case Send(n) => SendLowers(ns, f, n, m);
    case Receive => ReceiveLowers(ns, f, m);
    case Done => SameLeft(f, f', m);
  }

  lemma SubmitLowers(ns: seq<Node>, f: Flow, n: string, m: string)
    requires m in Names(ns) && NodeOK(ns, f, m) && n in f.pending && m in f.items
    ensures Left(Accepted(f, n), m) <= Left(f, m) && (m == n ==> Left(Accepted(f, n), m) < Left(f, m))
  {
    hide Left, NodeOK;
    if m == n { SubmitOwnLowers(ns, f, n); } else { SubmitOther(ns, f, n, m); }
  }

  lemma SubmitOther(ns: seq<Node>, f: Flow, n: string, m: string)
    requires m in Names(ns) && NodeOK(ns, f, m) && n in f.pending && m in f.items && m != n
    ensures Left(Accepted(f, n), m) <= Left(f, m)
  {
    hide Left;
    SameLeft(f, Accepted(f, n), m);
  }

  lemma SubmitOwnLowers(ns: seq<Node>, f: Flow, n: string)
    requires n in Names(ns) && NodeOK(ns, f, n) && n in f.pending && n in f.items
    ensures Left(Accepted(f, n), n) < Left(f, n)
  {}

  lemma BeginLowers(ns: seq<Node>, f: Flow, n: string, m: string)
    requires m in Names(ns) && NodeOK(ns, f, m) && n in f.submitted && n in f.items
    ensures Left(Begun(f, n), m) <= Left(f, m) && (m == n ==> Left(Begun(f, n), m) < Left(f, m))
  {
    hide Left, NodeOK;
    if m == n { BeginOwnLowers(ns, f, n); } else { BeginOther(ns, f, n, m); }
  }

  lemma BeginOther(ns: seq<Node>, f: Flow, n: string, m: string)
    requires m in Names(ns) && NodeOK(ns, f, m) && n in f.submitted && n in f.items && m != n
    ensures Left(Begun(f, n), m) <= Left(f, m)
  {
    hide Left;
    SameLeft(f, Begun(f, n), m);
  }

  lemma BeginOwnLowers(ns: seq<Node>, f: Flow, n: string)
    requires n in Names(ns) && NodeOK(ns, f, n) && n in f.submitted && n in f.items
    ensures Left(Begun(f, n), n) < Left(f, n)
  {}

  lemma FinishLowers(ns: seq<Node>, f: Flow, n: string, o: Outcome, m: string)
    requires m in Names(ns) && NodeOK(ns, f, m) && n in f.running && n in f.items
    ensures Left(Finished(f, n, o), m) <= Left(f, m) && (m == n ==> Left(Finished(f, n, o), m) < Left(f, m))
  {
    hide Left, NodeOK;
    if m == n { FinishOwnLowers(ns, f, n, o); } else { FinishOther(ns, f, n, o, m); }
  }

  lemma FinishOther(ns: seq<Node>, f: Flow, n: string, o: Outcome, m: string)
    requires m in Names(ns) && NodeOK(ns, f, m) && n in f.running && n in f.items && m != n
    ensures Left(Finished(f, n, o), m) <= Left(f, m)
  {
    hide Left;
    SameLeft(f, Finished(f, n, o), m);
  }

  lemma FinishOwnLowers(ns: seq<Node>, f: Flow, n: string, o: Outcome)
    requires n in Names(ns) && NodeOK(ns, f, n) && n in f.running && n in f.items
    ensures Left(Finished(f, n, o), n) < Left(f, n)
  {}

  lemma SendLowers(ns: seq<Node>, f: Flow, n: string, m: string)
    requires m in Names(ns) && NodeOK(ns, f, m) && n in f.finished && CanSend(f)
    ensures Left(Sent(f, n), m) <= Left(f, m) && (m == n ==> Left(Sent(f, n), m) < Left(f, m))
  {
    hide Left, NodeOK;
    if m == n { SendOwnLowers(ns, f, n); } else { SendOther(ns, f, n, m); }
  }

  lemma SendOther(ns: seq<Node>, f: Flow, n: string, m: string)
    requires m in Names(ns) && NodeOK(ns, f, m) && n in f.finished && CanSend(f) && m != n
    ensures Left(Sent(f, n), m) <= Left(f, m)
  {
    hide Left;
    SameLeft(f, Sent(f, n), m);
  }

  lemma SendOwnLowers(ns: seq<Node>, f: Flow, n: string)
    requires n in Names(ns) && NodeOK(ns, f, n) && n in f.finished && CanSend(f)
    ensures Left(Sent(f, n), n) < Left(f, n)
  {}

  lemma ReceiveLowers(ns: seq<Node>, f: Flow, m: string)
    requires m in Names(ns) && NodeOK(ns, f, m) && Idle(f) && f.channel != []
    ensures Left(Taken(f), m) <= Left(f, m) && (m == f.channel[0] ==> Left(Taken(f), m) < Left(f, m))
  {
    assert f.channel == [f.channel[0]] + f.channel[1..];
  }

  /** A node to which nothing happened has no more to do. */
  lemma SameLeft(f: Flow, f': Flow, m: string)
    requires m in f.items && m in f'.items && f'.items[m].retryNum == f.items[m].retryNum
    requires (m in f.ok ==> m in f'.ok) && (m in f.lost ==> m in f'.lost) && f'.pending[m] == f.pending[m]
    requires f'.submitted[m] == f.submitted[m] && f'.running[m] == f.running[m] && f'.finished[m] == f.finished[m]
    requires multiset(f'.channel)[m] == multiset(f.channel)[m] && Held(f')[m] == Held(f)[m]
    ensures Left(f', m) <= Left(f, m)
  {}

  lemma OkLowers(ns: seq<Node>, f: Flow, f': Flow, m: string)
    requires ns != [] && Next(ns, f, HandleEvent, f') && m in Names(ns) && NodeOK(ns, f, m) && m in f'.items
    requires f.master.name in Names(ns) && NodeOK(ns, f, f.master.name) && f.items[f.master.name].event == ExecOK
    ensures Left(f', m) <= Left(f, m) && (m == f.master.name ==> Left(f', m) < Left(f, m))
  {
    hide NextsOf, DepsOf, Released;
    var n := f.master.name;
    if m != n {
      ReleasedExactly(ns, f.(master := Waiting), n, m);
      if m in Released(ns, f.(master := Waiting), n) { ReleasedLowers(ns, f, n, m); } else { OkSame(ns, f, n, m); }
    }
  }

  lemma ReleasedLowers(ns: seq<Node>, f: Flow, n: string, m: string)
    requires ns != [] && Names(ns) <= f.items.Keys && f.master == Holding(n)
    requires m in Names(ns) && m != n && m in Released(ns, f.(master := Waiting), n)
    requires PlaceOK(ns, f, m) && !Ready(ns, f, m)
    ensures Left(TryStop(ns, ExecNext(ns, f.(master := Waiting), n), n), m) <= Left(f, m)
  {
    hide Released;
  }

  lemma OkSame(ns: seq<Node>, f: Flow, n: string, m: string)
    requires ns != [] && Names(ns) <= f.items.Keys && f.master == Holding(n) && m in Names(ns) && m != n
    requires m !in Released(ns, f.(master := Waiting), n)
    ensures Left(TryStop(ns, ExecNext(ns, f.(master := Waiting), n), n), m) <= Left(f, m)
  {
    hide Released, Left;
    SameLeft(f, TryStop(ns, ExecNext(ns, f.(master := Waiting), n), n), m);
  }

  lemma FailedLowers(ns: seq<Node>, f: Flow, f': Flow, m: string)
    requires ns != [] && Next(ns, f, HandleEvent, f') && m in Names(ns) && NodeOK(ns, f, m) && m in f'.items
    requires f.items[f.master.name].event != ExecOK
    ensures Left(f', m) <= Left(f, m) && (m == f.master.name ==> Left(f', m) < Left(f, m))
  {
    hide Left, NodeOK;
    if m != f.master.name { OtherLowers(ns, f, f', m); } else { OwnLowers(ns, f, f', m); }
  }

  lemma OtherLowers(ns: seq<Node>, f: Flow, f': Flow, m: string)
    requires ns != [] && Next(ns, f, HandleEvent, f') && f.items[f.master.name].event != ExecOK && m != f.master.name
    requires m in f.items && m in f'.items
    ensures Left(f', m) <= Left(f, m)
  {
    hide Left;
    SameLeft(f, f', m);
  }

  lemma OwnLowers(ns: seq<Node>, f: Flow, f': Flow, m: string)
    requires ns != [] && Next(ns, f, HandleEvent, f') && m in Names(ns) && NodeOK(ns, f, m) && m in f'.items
    requires m == f.master.name && f.items[m].event != ExecOK
    ensures Left(f', m) < Left(f, m)
  {
    hide Left, NodeOK;
    if f.items[m].event.Retryable? && f.items[m].retryNum > 0 { RetryLowers(ns, f, m); } else { LostLowers(ns, f, m); }
  }

  lemma RetryLowers(ns: seq<Node>, f: Flow, n: string)
    requires ns != [] && n in Names(ns) && NodeOK(ns, f, n) && f.master == Holding(n) && Names(ns) <= f.items.Keys
    requires f.items[n].event.Retryable? && f.items[n].retryNum > 0
    ensures Left(Handle(ns, f.(master := Waiting), n), n) < Left(f, n)
  {}

  lemma LostLowers(ns: seq<Node>, f: Flow, n: string)
    requires ns != [] && n in Names(ns) && NodeOK(ns, f, n) && f.master == Holding(n) && Names(ns) <= f.items.Keys
    requires f.items[n].event != ExecOK && !(f.items[n].event.Retryable? && f.items[n].retryNum > 0)
    ensures Left(Handle(ns, f.(master := Waiting), n), n) < Left(f, n)
  {
    hide Handle;
    LostTokens(ns, f, n);
  }

  lemma LostTokens(ns: seq<Node>, f: Flow, n: string)
    requires ns != [] && f.master == Holding(n) && Names(ns) <= f.items.Keys && n in f.items && Tokens(f, n) <= 1
    requires f.items[n].event != ExecOK && !(f.items[n].event.Retryable? && f.items[n].retryNum > 0)
    ensures var f' := Handle(ns, f.(master := Waiting), n); n in f'.items && Tokens(f', n) == 0 && n in f'.lost && f'.ok == f.ok
  {
    hide Tokens;
    LostFields(ns, f.(master := Waiting), n);
    TokensOff(f, Handle(ns, f.(master := Waiting), n), n);
  }

  lemma LostFields(ns: seq<Node>, f: Flow, n: string)
    requires ns != [] && f.master.Waiting? && Names(ns) <= f.items.Keys && n in f.items
    requires f.items[n].event != ExecOK && !(f.items[n].event.Retryable? && f.items[n].retryNum > 0)
    ensures var f' := Handle(ns, f, n);
            f' == f.(lost := f.lost + {n}, closed := f'.closed, master := f'.master) && !f'.master.Holding?
  {
    hide ExecNext;
  }

  lemma TokensOff(f: Flow, f': Flow, n: string)
    requires f.master == Holding(n) && f' == f.(lost := f'.lost, closed := f'.closed, master := f'.master) && !f'.master.Holding?
    ensures Tokens(f', n) == Tokens(f, n) - 1
  {}

  lemma {:induction false} SumLowers(part: seq<Node>, ns: seq<Node>, f: Flow, st: Step, f': Flow)
    requires Inv(ns, f) && Inv(ns, f') && Next(ns, f, st, f') && forall n <- part :: n.name in Names(ns)
    ensures (forall n <- part :: n.name in f.items && n.name in f'.items) && LeftAll(part, f') <= LeftAll(part, f)
    ensures !st.Done? && Subject(f, st) in Names(part) ==> LeftAll(part, f') < LeftAll(part, f)
    decreases |part|
  {
    hide Inv, NodeOK, Next, Left, Subject, Names;
    forall n <- part ensures n.name in f.items && n.name in f'.items { NodeThere(ns, f, n.name); NodeThere(ns, f', n.name); }
    NamesFirst(part);
    if part != [] {
      var n := part[0].name;
      assert part[0] in part;
      SubjectOK(ns, f, st, f');
      NodeThere(ns, f, n);
      StepLowers(ns, f, st, f', n);
      SumLowers(part[1..], ns, f, st, f');
    }
  }

  lemma NodeThere(ns: seq<Node>, f: Flow, n: string)
    requires Inv(ns, f) && n in Names(ns)
    ensures ns != [] && n in f.items && NodeOK(ns, f, n)
  {
    assert NodeOK(ns, f, n);
  }

  lemma NamesFirst(part: seq<Node>)
    ensures Names(part) == if part == [] then {} else {part[0].name} + Names(part[1..])
  {}

  lemma SubjectOK(ns: seq<Node>, f: Flow, st: Step, f': Flow)
    requires Inv(ns, f) && Next(ns, f, st, f')
    ensures !st.Done? ==> Subject(f, st) in Names(ns) && NodeOK(ns, f, Subject(f, st))
  {
    hide NodeOK;
    SubjectToken(ns, f, st, f');
  }

  lemma SubjectToken(ns: seq<Node>, f: Flow, st: Step, f': Flow)
    requires ns != [] && Next(ns, f, st, f')
    ensures !st.Done? ==> Tokens(f, Subject(f, st)) > 0
  {
    hide Handle;
    if st.Receive? { assert f.channel == [f.channel[0]] + f.channel[1..]; }
  }

  /** One more step is left to the master while it has not returned. */
  function Waits(f: Flow): nat {
    if Alive(f) then 1 else 0
  }

  lemma MasterLeaves(ns: seq<Node>, f: Flow, st: Step, f': Flow)
    requires ns != [] && Next(ns, f, st, f')
    ensures Waits(f') <= Waits(f) && (st.Done? ==> Waits(f') < Waits(f))
  {
    hide ExecNext;
  }

  lemma {:induction false} StartsWithBudget(part: seq<Node>, ns: seq<Node>, pool: Pool)
    requires Runnable(ns) && forall n <- part :: n in ns
    ensures (forall n <- part :: n.name in Init(ns, pool).items) && LeftAll(part, Init(ns, pool)) == Budget(part)
    decreases |part|
  {
    if part != [] {
      assert part[0] in part;
      var i :| 0 <= i < |ns| && ns[i] == part[0];
      PositionOf(ns, i);
      hide Runnable;
      StartsWithBudget(part[1..], ns, pool);
    }
  }

  lemma {:induction false} RunLowers(ns: seq<Node>, fs: seq<Flow>, steps: seq<Step>)
    requires Reachable(ns, fs, steps)
    ensures (forall n <- ns :: n.name in fs[|steps|].items) && LeftAll(ns, fs[|steps|]) + Waits(fs[|steps|]) + |steps| <= Budget(ns) + 1
    decreases |steps|
  {
    hide Inv, Next, Runnable, Waits;
    if steps == [] {
      FirstOf(ns, fs, steps);
      StartsWithBudget(ns, ns, fs[0].pool);
      WaitsAtMostOne(fs[0]);
    } else {
      var k := |steps| - 1;
      RunLowers(ns, fs[..k + 1], steps[..k]);
      assert fs[..k + 1][k] == fs[k];
      RunInv(ns, fs[..k + 1], steps[..k]);
      RunInv(ns, fs, steps);
      LastStepLowers(ns, fs[k], steps[k], fs[k + 1]);
    }
  }

  lemma FirstOf(ns: seq<Node>, fs: seq<Flow>, steps: seq<Step>)
    requires Reachable(ns, fs, steps)
    ensures Runnable(ns) && fs[0] == Init(ns, fs[0].pool)
  {}

  lemma WaitsAtMostOne(f: Flow)
    ensures Waits(f) <= 1
  {}

  lemma LastStepLowers(ns: seq<Node>, f: Flow, st: Step, f': Flow)
    requires Inv(ns, f) && Inv(ns, f') && Next(ns, f, st, f') && forall n <- ns :: n.name in f.items
    ensures (forall n <- ns :: n.name in f'.items) && LeftAll(ns, f') + Waits(f') < LeftAll(ns, f) + Waits(f)
  {
    hide Next, Waits;
    SumLowers(ns, ns, f, st, f');
    SubjectOK(ns, f, st, f');
    MasterLeaves(ns, f, st, f');
  }

  /** No run goes on for ever: six steps for each start the retries allow, and one for the master to return. */
  lemma RunsEnd(ns: seq<Node>, fs: seq<Flow>, steps: seq<Step>)
    requires Reachable(ns, fs, steps)
    ensures |steps| <= Budget(ns) + 1
  {
    RunLowers(ns, fs, steps);
  }

  /** The master stops for one of two reasons: the last node is done, or some node's task or event came to nothing. */
  ghost predicate StopsFor(ns: seq<Node>, f: Flow)
    requires ns != []
  {
    !Alive(f) ==> (f.closed && Last(ns) in f.ok) || f.lost != {}
  }

  lemma StopsForStep(ns: seq<Node>, f: Flow, st: Step, f': Flow)
    requires Inv(ns, f) && Next(ns, f, st, f') && StopsFor(ns, f)
    ensures StopsFor(ns, f')
  {
    hide NodeOK, Names, DepsOf, NextsOf;
    StopsForNext(ns, f, st, f');
  }

  lemma StopsForNext(ns: seq<Node>, f: Flow, st: Step, f': Flow)
    requires ns != [] && Next(ns, f, st, f') && StopsFor(ns, f)
    requires BoundsOK(ns, f)
    ensures StopsFor(ns, f')
  {}

  lemma {:induction false} StopsForRun(ns: seq<Node>, fs: seq<Flow>, steps: seq<Step>)
    requires Reachable(ns, fs, steps)
    ensures StopsFor(ns, fs[|steps|])
    decreases |steps|
  {
    if steps != [] {
      hide Inv, Next, StopsFor;
      var k := |steps| - 1;
      StopsForRun(ns, fs[..k + 1], steps[..k]);
      assert fs[..k + 1][k] == fs[k];
      RunInv(ns, fs[..k + 1], steps[..k]);
      StopsForStep(ns, fs[k], steps[k], fs[k + 1]);
    }
  }
}
