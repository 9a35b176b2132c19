/** Why a second worker matters for closing the channel twice (common/bizflow/graph.go, `execNext`, `tryStop`). */
module BizSingleWorker {
  import opened BizGraph
  import opened BizRun
  import opened BizStuck
  import opened BizSchedule
  import opened BizStuckExact

  /**
    The last node is released alone, and nodes it does not wait for release nothing and are not retried. With one worker such
    nodes are done before the last one is begun, or not begun at all.
   */
  ghost predicate Quiet(ns: seq<Node>)
    requires ns != []
  {
    && (forall d <- Names(ns) | Last(ns) in NextsOf(ns, d) :: NextsOf(ns, d) == {Last(ns)})
    && (forall x <- Names(ns) | x != Last(ns) && !Ancestor(ns, x, Last(ns)) ::
          NextsOf(ns, x) == {} && ns[Position(ns, x)].retryNum <= 0)
  }

  /** The last node is alone in the pool, behind all other events, or alone with the master. */
  ghost predicate InOrder(ns: seq<Node>, f: Flow)
    requires ns != []
  {
    var l := Last(ns);
    && (f.pending[l] > 0 ==> f.pending == multiset{l})
    && (f.submitted[l] + f.running[l] + f.finished[l] > 0 ==> f.pending == multiset{})
    && (l in f.channel ==> f.pending == multiset{} && Busy(f) == 0 && forall i | 0 <= i < |f.channel| - 1 :: f.channel[i] != l)
    && (f.master == Holding(l) ==> f.pending == multiset{} && Busy(f) == 0 && f.channel == [])
    && (f.closed && Alive(f) ==> f.pending == multiset{} && Busy(f) == 0 && f.channel == [] && !f.master.Holding?)
    && !f.master.Panicked?
  }

  lemma InOrderStep(ns: seq<Node>, f: Flow, st: Step, f': Flow)
    requires Inv(ns, f) && f.pool.workers == 1 && Quiet(ns) && InOrder(ns, f) && Next(ns, f, st, f')
    ensures InOrder(ns, f')
  {
    AtMostOne(ns, f, Last(ns));
    hide Quiet, NodeOK, Inv, InOrder, Next;
    Ordered2(ns, f, st, f');
  }

  lemma Ordered2(ns: seq<Node>, f: Flow, st: Step, f': Flow)
    requires Inv(ns, f) && f.pool.workers == 1 && Quiet(ns) && InOrder(ns, f) && Next(ns, f, st, f') && Tokens(f, Last(ns)) <= 1
    ensures InOrder(ns, f')
  {
    hide Quiet, NodeOK, InOrder, Tokens, Handle;
    match st
    case HandleEvent => HandleInOrder(ns, f, f');
    case Submit(n) => SubmitInOrder(ns, f, n);
    case Begin(n) => BeginInOrder(ns, f, n);
    case Finish(n, o) => FinishInOrder(ns, f, n, o);
    case Send(n) => SendInOrder(ns, f, n);
    case Receive => TakenInOrder(ns, f);
    case Done => DoneInOrder(ns, f);
  }

  lemma DoneInOrder(ns: seq<Node>, f: Flow)
    requires ns != [] && InOrder(ns, f) && Idle(f)
    ensures InOrder(ns, f.(master := Returned))
  {}

  lemma BusyOnly(f: Flow, n: string)
    requires Busy(f) <= 1 && f.submitted[n] + f.running[n] + f.finished[n] > 0
    ensures Busy(f) == 1 && forall m | m != n :: f.submitted[m] == f.running[m] == f.finished[m] == 0
    ensures n in f.finished ==> f.submitted == f.running == multiset{} && f.finished == multiset{n}
  {
    var bag := f.submitted + f.running + f.finished;
    Single(bag, n);
    assert forall m :: bag[m] == f.submitted[m] + f.running[m] + f.finished[m];
    if n in f.finished {
      assert f.submitted + f.running == bag - f.finished;
      Single(f.finished, n);
    }
  }

  lemma Single(bag: multiset<string>, n: string)
    requires |bag| <= 1 && n in bag
    ensures bag == multiset{n}
  {
    var rest := bag - multiset{n};
    assert bag == rest + multiset{n};
    assert |rest| == 0;
  }

  lemma SubmitInOrder(ns: seq<Node>, f: Flow, n: string)
    requires ns != [] && InOrder(ns, f) && f.pool.workers == 1 && n in f.pending && Busy(f) < 1
    requires Tokens(f, Last(ns)) <= 1
    ensures InOrder(ns, Accepted(f, n))
  {
    assert Last(ns) in f.channel ==> multiset(f.channel)[Last(ns)] > 0;
  }

  lemma BeginInOrder(ns: seq<Node>, f: Flow, n: string)
    requires ns != [] && InOrder(ns, f) && n in f.submitted && n in f.items
    ensures InOrder(ns, Begun(f, n))
  {
    assert f.submitted == f.submitted - multiset{n} + multiset{n};
  }

  lemma FinishInOrder(ns: seq<Node>, f: Flow, n: string, o: Outcome)
    requires ns != [] && InOrder(ns, f) && n in f.running && n in f.items
    ensures InOrder(ns, Finished(f, n, o))
  {
    assert f.running == f.running - multiset{n} + multiset{n};
  }

  lemma SendInOrder(ns: seq<Node>, f: Flow, n: string)
    requires ns != [] && InOrder(ns, f) && Busy(f) <= 1 && |f.channel| <= f.pool.capacity && n in f.finished && CanSend(f)
    requires Tokens(f, Last(ns)) <= 1
    ensures InOrder(ns, Sent(f, n))
  {
    BusyOnly(f, n);
    assert Last(ns) in f.channel <==> multiset(f.channel)[Last(ns)] > 0;
  }

  lemma TakenInOrder(ns: seq<Node>, f: Flow)
    requires ns != [] && InOrder(ns, f) && Idle(f) && f.channel != []
    ensures InOrder(ns, Taken(f))
  {
    var f' := Taken(f);
    assert forall i | 0 <= i < |f'.channel| :: f'.channel[i] == f.channel[i + 1];
    assert f.channel[0] == Last(ns) ==> |f.channel| == 1;
  }

  /** While the master holds an event of a node that the last one waits for, there is no task of the last node yet. */
  lemma NotYet(ns: seq<Node>, f: Flow, n: string)
    requires Inv(ns, f) && f.master == Holding(n) && Ancestor(ns, n, Last(ns))
    ensures Tokens(f, Last(ns)) == 0
  {
    hide Ancestor, NodeOK;
    PositionOf(ns, |ns| - 1);
    if Ready(ns, f, Last(ns)) { AncestorsOfReady(ns, f, n, Last(ns)); }
    TokenReady(ns, f, Last(ns));
    HeldToken(ns, f, n);
  }

  lemma HeldToken(ns: seq<Node>, f: Flow, n: string)
    requires Inv(ns, f) && f.master == Holding(n)
    ensures n in Names(ns) && n in f.items && n !in f.ok && f.items[n].retryNum <= ns[Position(ns, n)].retryNum
  {
    assert Tokens(f, n) > 0;
    assert NodeOK(ns, f, n);
  }

  /** What is handed over after an event of another node: the last node alone, or nothing of it while it has no task either. */
  ghost predicate Hands(ns: seq<Node>, f: Flow, p: multiset<string>)
    requires ns != []
  {
    p == multiset{} || (Tokens(f, Last(ns)) == 0 && (p[Last(ns)] > 0 ==> p == multiset{Last(ns)}))
  }

  lemma ReleasedHands(ns: seq<Node>, f: Flow, n: string)
    requires Inv(ns, f) && Quiet(ns) && f.master == Holding(n) && n != Last(ns) && Names(ns) <= f.items.Keys
    ensures Hands(ns, f, multiset(Released(ns, f.(master := Waiting), n)))
  {
    hide Inv, Ancestor, Tokens, NextsOf;
    HeldToken(ns, f, n);
    ReleasedNexts(ns, f.(master := Waiting), n);
    if NextsOf(ns, n) != {} {
      NextsAncestor(ns, f, n);
      NotYet(ns, f, n);
    }
  }

  lemma ReleasedNexts(ns: seq<Node>, f: Flow, n: string)
    requires Names(ns) <= f.items.Keys
    ensures Released(ns, f, n) <= NextsOf(ns, n)
  {}

  lemma NextsAncestor(ns: seq<Node>, f: Flow, n: string)
    requires Inv(ns, f) && Quiet(ns) && n in Names(ns) && n != Last(ns) && NextsOf(ns, n) != {}
    ensures Ancestor(ns, n, Last(ns))
  {}

  lemma RetryHands(ns: seq<Node>, f: Flow, n: string)
    requires Inv(ns, f) && Quiet(ns) && f.master == Holding(n) && n != Last(ns) && n in f.items && f.items[n].retryNum > 0
    ensures Hands(ns, f, multiset{n})
  {
    HeldToken(ns, f, n);
    assert Ancestor(ns, n, Last(ns));
    NotYet(ns, f, n);
  }

  lemma HandleInOrder(ns: seq<Node>, f: Flow, f': Flow)
    requires Inv(ns, f) && Quiet(ns) && InOrder(ns, f) && Next(ns, f, HandleEvent, f')
    ensures InOrder(ns, f')
  {
    hide Quiet, NodeOK;
    var n := f.master.name;
    if n == Last(ns) {
      LastReleases(ns, f);
      LastHandled(ns, f);
    } else {
      if f.items[n].event == ExecOK {
        ReleasedHands(ns, f, n);
        OtherDone(ns, f, n);
      } else {
        if f.items[n].retryNum > 0 { RetryHands(ns, f, n); }
        OtherFailed(ns, f, n);
      }
    }
  }

  lemma LastReleases(ns: seq<Node>, f: Flow)
    requires Inv(ns, f) && Names(ns) <= f.items.Keys
    ensures Released(ns, f.(master := Waiting), Last(ns)) == {}
  {
    LastReleasesNone(ns, f.(master := Waiting));
  }

  lemma LastHandled(ns: seq<Node>, f: Flow)
    requires ns != [] && InOrder(ns, f) && f.master == Holding(Last(ns)) && Names(ns) <= f.items.Keys && Last(ns) in f.items
    requires Released(ns, f.(master := Waiting), Last(ns)) == {}
    ensures InOrder(ns, Handle(ns, f.(master := Waiting), Last(ns)))
  {
    hide Released, NextsOf;
  }

  lemma OtherDone(ns: seq<Node>, f: Flow, n: string)
    requires ns != [] && InOrder(ns, f) && f.master == Holding(n) && n != Last(ns) && Names(ns) <= f.items.Keys && f.pending == multiset{}
    requires Hands(ns, f, multiset(Released(ns, f.(master := Waiting), n)))
    ensures InOrder(ns, TryStop(ns, ExecNext(ns, f.(master := Waiting), n), n))
  {
    hide Released, NextsOf;
    assert Last(ns) in f.channel <==> multiset(f.channel)[Last(ns)] > 0;
  }

  lemma OtherFailed(ns: seq<Node>, f: Flow, n: string)
    requires ns != [] && InOrder(ns, f) && f.master == Holding(n) && n != Last(ns) && Names(ns) <= f.items.Keys && n in f.items
    requires f.pending == multiset{} && f.items[n].event != ExecOK && (f.items[n].retryNum > 0 ==> Hands(ns, f, multiset{n}))
    ensures InOrder(ns, Handle(ns, f.(master := Waiting), n))
  {
    hide Released, NextsOf, ExecNext;
    assert Last(ns) in f.channel <==> multiset(f.channel)[Last(ns)] > 0;
  }

  /** On a single worker such a graph never makes the master close its channel twice, however much room the channel has. */
  lemma {:induction false} SingleWorkerClosesOnce(ns: seq<Node>, fs: seq<Flow>, steps: seq<Step>)
    requires Reachable(ns, fs, steps) && fs[0].pool.workers == 1 && Quiet(ns)
    ensures InOrder(ns, fs[|steps|]) && !fs[|steps|].master.Panicked?
    decreases |steps|
  {
    hide Inv, Next, Runnable, Quiet;
    if steps == [] {
      StartInOrder(ns, fs[0].pool);
    } else {
      var k := |steps| - 1;
      SingleWorkerClosesOnce(ns, fs[..k + 1], steps[..k]);
      assert fs[..k + 1][k] == fs[k];
      RunInv(ns, fs[..k + 1], steps[..k]);
      PoolKept(ns, fs[..k + 1], steps[..k]);
      InOrderStep(ns, fs[k], steps[k], fs[k + 1]);
    }
  }

  lemma StartInOrder(ns: seq<Node>, pool: Pool)
    requires Runnable(ns)
    ensures InOrder(ns, Init(ns, pool))
  {}

  /** A fork: B and C wait for A, and the last node D for C alone. B is no ancestor of D. */
  function Fork(): seq<Node> {
    [Node("A", [], 0), Node("B", ["A"], 0), Node("C", ["A"], 0), Node("D", ["C"], 0)]
  }

  lemma ForkFits()
    ensures Distinct(Fork()) && Topological(Fork())
  {
    var ns := Fork();
    assert ns[..1] == [ns[0]] && ns[..2] == [ns[0], ns[1]] && ns[..3] == [ns[0], ns[1], ns[2]];
    assert ns[0] in ns[..1] && ns[2] in ns[..3] && ns[0] in ns[..2];
    assert Fits(ns, 0) && Fits(ns, 1) && Fits(ns, 2) && Fits(ns, 3);
  }

  lemma ForkShape()
    ensures var ns := Fork();
            && Runnable(ns) && Last(ns) == "D" && Names(ns) == {"A", "B", "C", "D"}
            && DepsOf(ns, "A") == {} && DepsOf(ns, "B") == DepsOf(ns, "C") == {"A"} && DepsOf(ns, "D") == {"C"}
            && ns[Position(ns, "B")].retryNum == 0
  {
    var ns := Fork();
    ForkFits();
    hide Topological;
    assert ns[0] in ns && ns[1] in ns && ns[2] in ns && ns[3] in ns;
    PositionOf(ns, 0);
    PositionOf(ns, 1);
    PositionOf(ns, 2);
    PositionOf(ns, 3);
  }

  lemma ForkNexts()
    ensures var ns := Fork();
            NextsOf(ns, "A") == {"B", "C"} && NextsOf(ns, "B") == {} && NextsOf(ns, "C") == {"D"} && NextsOf(ns, "D") == {}
  {
    var ns := Fork();
    ForkShape();
    hide Fork, Runnable, Position, DepsOf;
  }

  /** With one worker the fork is safe, although it has a node that is no ancestor of the last one. */
  lemma ForkIsQuiet()
    ensures Runnable(Fork()) && Quiet(Fork()) && "B" in Names(Fork()) && !Ancestor(Fork(), "B", Last(Fork()))
  {
    var ns := Fork();
    ForkShape();
    ForkNexts();
    hide Fork, Runnable, Position, DepsOf, NextsOf, Ancestor, Names;
    ForkPaths(ns);
    NoNextsNoAncestor(ns, "B", "D");
  }

  lemma ForkPaths(ns: seq<Node>)
    requires {"A", "C", "D"} <= Names(ns) && "A" in DepsOf(ns, "C") && "C" in DepsOf(ns, "D")
    ensures Ancestor(ns, "A", "D") && Ancestor(ns, "C", "D")
  {
    assert Path(ns, ["C", "D"]) && Path(ns, ["A", "C", "D"]);
    ForkAncestors(ns, "C", ["C", "D"]);
    ForkAncestors(ns, "A", ["A", "C", "D"]);
  }

  lemma NoNextsNoAncestor(ns: seq<Node>, a: string, b: string)
    requires NextsOf(ns, a) == {}
    ensures !Ancestor(ns, a, b)
  {
    forall p | |p| >= 2 && Path(ns, p) ensures p[0] != a {
      assert p[0] in DepsOf(ns, p[1]) && p[1] in NextsOf(ns, p[0]);
    }
  }

  lemma ForkAncestors(ns: seq<Node>, a: string, p: seq<string>)
    requires Path(ns, p) && |p| >= 2 && p[0] == a
    ensures Ancestor(ns, a, p[|p| - 1])
  {}

  /** So on one worker a node that is no ancestor of the last one is not enough for a second close. */
  lemma ForkClosesOnce(capacity: nat)
    ensures forall f | Occurs(Fork(), Pool(1, capacity), f) :: !f.master.Panicked?
  {
    ForkIsQuiet();
    hide Fork, Runnable, Quiet;
    forall f | Occurs(Fork(), Pool(1, capacity), f) ensures !f.master.Panicked? {
      var fs: seq<Flow>, steps: seq<Step> :| Reachable(Fork(), fs, steps) && fs[0].pool == Pool(1, capacity) && fs[|steps|] == f;
      SingleWorkerClosesOnce(Fork(), fs, steps);
    }
  }
}
