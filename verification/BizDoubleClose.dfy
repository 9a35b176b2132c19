/** Exactly when the master closes its channel twice (common/bizflow/graph.go, `tryStop` and the abort case of `Run`). */
module BizDoubleClose {
  import opened BizGraph
  import opened BizRun
  import opened BizStuck
  import opened BizSchedule
  import opened BizStuckExact
  import opened BizLateAbort

  // ---------- graphs and channels that are safe ----------

  /** The master did not panic, and once the channel is closed every node is done and nothing is left to handle. */
  ghost predicate Tidy(ns: seq<Node>, f: Flow) {
    !f.master.Panicked? && (f.closed && Alive(f) ==> f.ok == Names(ns) && forall n :: Tokens(f, n) == 0)
  }

  /** When every other node is an ancestor of the last one, the channel is never closed twice, whatever the pool. */
  lemma {:induction false} ClosesOnce(ns: seq<Node>, fs: seq<Flow>, steps: seq<Step>)
    requires Reachable(ns, fs, steps)
    requires forall a <- Names(ns) | a != Last(ns) :: Ancestor(ns, a, Last(ns))
    ensures Tidy(ns, fs[|steps|])
    decreases |steps|
  {
    hide Inv, Next, Ancestor;
    RunInv(ns, fs, steps);
    if steps != [] {
      var k := |steps| - 1;
      ClosesOnce(ns, fs[..k + 1], steps[..k]);
      assert fs[..k + 1][k] == fs[k];
      TidyStep(ns, fs[k], steps[k], fs[k + 1]);
    }
  }

  lemma TidyStep(ns: seq<Node>, f: Flow, st: Step, f': Flow)
    requires ns != [] && Tidy(ns, f) && Next(ns, f, st, f') && Inv(ns, f')
    requires forall a <- Names(ns) | a != Last(ns) :: Ancestor(ns, a, Last(ns))
    ensures Tidy(ns, f')
  {
    hide Next, Ancestor, Tokens;
    NoPanic(ns, f, st, f');
    AllDone(ns, f');
  }

  lemma NoPanic(ns: seq<Node>, f: Flow, st: Step, f': Flow)
    requires ns != [] && Tidy(ns, f) && Next(ns, f, st, f')
    ensures !f'.master.Panicked?
  {
    if f.master.Holding? { assert Tokens(f, f.master.name) > 0; }
  }

  lemma AllDone(ns: seq<Node>, f: Flow)
    requires Inv(ns, f) && forall a <- Names(ns) | a != Last(ns) :: Ancestor(ns, a, Last(ns))
    ensures Last(ns) in f.ok ==> f.ok == Names(ns) && forall n :: Tokens(f, n) == 0
    ensures f.closed && Alive(f) ==> Last(ns) in f.ok
  {
    if Last(ns) in f.ok {
      forall a <- Names(ns) ensures a in f.ok {
        if a != Last(ns) {
          var p :| |p| >= 2 && Path(ns, p) && p[0] == a && p[|p| - 1] == Last(ns);
          OkClosed(ns, f, p);
        }
      }
      forall n ensures Tokens(f, n) == 0 {
        if n in Names(ns) { assert NodeOK(ns, f, n); }
      }
    }
  }

  /** The master holds the last node's execOK while another event waits in the channel. */
  ghost predicate Overtaken(ns: seq<Node>, f: Flow)
    requires ns != []
  {
    f.master == Holding(Last(ns)) && Last(ns) in f.items && f.items[Last(ns)].event == ExecOK && f.channel != []
  }

  /** Once the channel is closed nothing is left in it. */
  ghost predicate Drained(f: Flow) {
    !f.master.Panicked? && (f.closed && Alive(f) ==> f.channel == [] && !f.master.Holding?)
  }

  lemma {:induction false} DrainedRun(ns: seq<Node>, fs: seq<Flow>, steps: seq<Step>)
    requires Reachable(ns, fs, steps) && forall i | 0 <= i < |steps| :: !Overtaken(ns, fs[i])
    ensures Drained(fs[|steps|])
    decreases |steps|
  {
    if steps != [] {
      hide Next, Overtaken, Drained;
      var k := |steps| - 1;
      assert forall i | 0 <= i < k :: fs[..k + 1][i] == fs[i];
      DrainedRun(ns, fs[..k + 1], steps[..k]);
      DrainedStep(ns, fs[k], steps[k], fs[k + 1]);
    }
  }

  lemma DrainedStep(ns: seq<Node>, f: Flow, st: Step, f': Flow)
    requires ns != [] && Next(ns, f, st, f') && Drained(f) && !Overtaken(ns, f)
    ensures Drained(f')
  {
    hide Handle;
    if st.HandleEvent? { DrainedHandle(ns, f.(master := Waiting), f.master.name); }
  }

  lemma DrainedHandle(ns: seq<Node>, f: Flow, n: string)
    requires ns != [] && Names(ns) <= f.items.Keys && n in f.items && f.master.Waiting? && !f.closed
    requires n == Last(ns) && f.items[n].event == ExecOK ==> f.channel == []
    ensures Drained(Handle(ns, f, n))
  {
    hide NextsOf, Released, Names;
  }

  /** A channel without room is never closed twice, whatever the graph. */
  lemma UnbufferedClosesOnce(ns: seq<Node>, fs: seq<Flow>, steps: seq<Step>)
    requires Reachable(ns, fs, steps) && fs[0].pool.capacity == 0
    ensures !fs[|steps|].master.Panicked? && (fs[|steps|].closed ==> !fs[|steps|].master.Holding?)
  {
    hide Next, Inv;
    forall i | 0 <= i < |steps| ensures !Overtaken(ns, fs[i]) {
      RunInv(ns, fs[..i + 1], steps[..i]);
      PoolKept(ns, fs[..i + 1], steps[..i]);
      ChannelFits(ns, fs[i]);
    }
    DrainedRun(ns, fs, steps);
  }

  lemma ChannelFits(ns: seq<Node>, f: Flow)
    requires Inv(ns, f)
    ensures |f.channel| <= f.pool.capacity
  {}

  // ---------- graphs that are not ----------

  /** Where the graph cannot get stuck, a node that is no ancestor of the last one can abort while the master holds the last one's event. */
  lemma AbortsLate(ns: seq<Node>, pool: Pool, b: string) returns (f: Flow)
    requires Runnable(ns) && pool.workers >= 2 && pool.capacity >= 1 && !CanStick(ns, pool)
    requires b in Names(ns) && b != Last(ns) && !Ancestor(ns, b, Last(ns))
    ensures Occurs(ns, pool, f) && f.master.Panicked?
  {
    hide Occurs, Inv, Ancestor, CanStick, Runnable;
    var g := AbortsAfterLast(ns, pool, b);
    g := CloseFirst(ns, pool, g);
    f := CloseAgain(ns, pool, g);
  }

  /** The master handles the last node's event: it closes the channel, in which an abort waits. */
  lemma CloseFirst(ns: seq<Node>, pool: Pool, f: Flow) returns (g: Flow)
    requires Occurs(ns, pool, f) && Inv(ns, f) && !f.closed && f.master == Holding(Last(ns)) && Last(ns) in f.items
    requires f.items[Last(ns)].event == ExecOK && f.channel != [] && Aborted(f, f.channel[0])
    ensures Occurs(ns, pool, g) && Inv(ns, g) && g.closed && Idle(g) && g.channel != [] && Aborted(g, g.channel[0])
  {
    hide Inv, Occurs, NextsOf, Released, Runnable;
    MasterStep(ns, f);
    PendingEmpty(ns, f);
    g := Handle(ns, f.(master := Waiting), Last(ns));
    OccursNext(ns, pool, f, HandleEvent, g);
  }

  lemma PendingEmpty(ns: seq<Node>, f: Flow)
    requires Inv(ns, f) && f.master.Holding? && f.master.name == Last(ns)
    ensures ns != [] && Names(ns) <= f.items.Keys && f.pending == multiset{} && Released(ns, f.(master := Waiting), Last(ns)) == {}
  {
    MasterStep(ns, f);
    LastReleasesNone(ns, f.(master := Waiting));
  }

  lemma CloseAgain(ns: seq<Node>, pool: Pool, f: Flow) returns (g: Flow)
    requires Occurs(ns, pool, f) && Inv(ns, f) && f.closed && Idle(f) && f.channel != [] && Aborted(f, f.channel[0])
    ensures Occurs(ns, pool, g) && g.master.Panicked?
  {
    hide Occurs, ExecNext, NodeOK, Runnable;
    var f1 := Taken(f);
    OccursNext(ns, pool, f, Receive, f1);
    MasterStep(ns, f1);
    g := Handle(ns, f1.(master := Waiting), f.channel[0]);
    OccursNext(ns, pool, f1, HandleEvent, g);
  }

  // ---------- every graph on every pool ----------

  function Marked(f: Flow, n: string): Flow
    requires n in f.items
  {
    f.(items := f.items[n := f.items[n].(event := Abort)])
  }

  /** A node whose event is on its way might as well have aborted. */
  lemma {:induction false} CouldAbort(ns: seq<Node>, fs: seq<Flow>, steps: seq<Step>, n: string)
    requires ns != [] && Reachable(ns, fs, steps) && var f := fs[|steps|]; n in f.finished || n in f.channel
    ensures var f := fs[|steps|]; n in f.items && Occurs(ns, fs[0].pool, Marked(f, n)) && Inv(ns, Marked(f, n))
    decreases |steps|
  {
    hide Next, Inv, Occurs, Runnable;
    var k, pool := |steps| - 1, fs[0].pool;
    var f, st, f' := fs[k], steps[k], fs[k + 1];
    RunInv(ns, fs[..k + 1], steps[..k]);
    if st.Finish? && st.name == n {
      assert Occurs(ns, pool, f) by { PrefixOccurs(ns, fs, steps, k); }
      AbortsInstead(ns, f, st, f');
      OccursNext(ns, pool, f, Finish(n, AbortErr), Marked(f', n));
    } else {
      OnItsWay(ns, f, st, f', n);
      CouldAbort(ns, fs[..k + 1], steps[..k], n);
      MarkedNext(ns, f, st, f', n);
      OccursNext(ns, pool, Marked(f, n), st, Marked(f', n));
    }
  }

  lemma PrefixOccurs(ns: seq<Node>, fs: seq<Flow>, steps: seq<Step>, k: nat)
    requires Reachable(ns, fs, steps) && k <= |steps|
    ensures Occurs(ns, fs[0].pool, fs[k])
  {
    hide Next, Runnable;
    assert Reachable(ns, fs[..k + 1], steps[..k]);
    assert fs[..k + 1][|steps[..k]|] == fs[k];
  }

  lemma AbortsInstead(ns: seq<Node>, f: Flow, st: Step, f': Flow)
    requires ns != [] && Next(ns, f, st, f') && st.Finish?
    ensures st.name in f'.items && Next(ns, f, Finish(st.name, AbortErr), Marked(f', st.name))
  {}

  lemma OnItsWay(ns: seq<Node>, f: Flow, st: Step, f': Flow, n: string)
    requires ns != [] && Next(ns, f, st, f') && (n in f'.finished || n in f'.channel) && !(st.Finish? && st.name == n)
    ensures n in f.finished || n in f.channel
  {
    hide Handle;
    if st.HandleEvent? { HandleMoves(ns, f, f'); }
  }

  /** Until the master takes it, no step looks at that event. */
  lemma MarkedNext(ns: seq<Node>, f: Flow, st: Step, f': Flow, n: string)
    requires ns != [] && Inv(ns, f) && Next(ns, f, st, f') && n in f.items && (n in f.finished || n in f.channel)
    requires !(st.Finish? && st.name == n)
    ensures n in f'.items && Next(ns, Marked(f, n), st, Marked(f', n))
  {
    hide Next, Inv;
    AtMostOne(ns, f, n);
    assert n in f.channel <==> multiset(f.channel)[n] > 0;
    MarkedStep(ns, f, st, f', n);
  }

  lemma MarkedStep(ns: seq<Node>, f: Flow, st: Step, f': Flow, n: string)
    requires ns != [] && Next(ns, f, st, f') && n in f.items && f.submitted[n] == f.running[n] == 0 && f.master != Holding(n)
    ensures n in f'.items && Next(ns, Marked(f, n), st, Marked(f', n))
  {
    hide Handle, Begun, Finished;
    match st
    case HandleEvent => MarkedHandle(ns, f, f', n);
    case Begin(m) => MarkedBegun(f, m, n);
    case Finish(m, o) => MarkedFinished(f, m, n, o);
    case _ =>
  }

  lemma Commutes<K, V>(a: map<K, V>, m: K, x: V, n: K, y: V)
    requires m != n
    ensures a[m := x][n := y] == a[n := y][m := x]
  {}

  lemma MarkedBegun(f: Flow, m: string, n: string)
    requires n in f.items && m in f.items && m != n
    ensures n in Begun(f, m).items && Begun(Marked(f, n), m) == Marked(Begun(f, m), n)
  {
    Commutes(f.items, m, f.items[m].(starts := f.items[m].starts + 1), n, f.items[n].(event := Abort));
  }

  lemma MarkedFinished(f: Flow, m: string, n: string, o: Outcome)
    requires n in f.items && m in f.items && m != n
    ensures n in Finished(f, m, o).items && Finished(Marked(f, n), m, o) == Marked(Finished(f, m, o), n)
  {
    Commutes(f.items, m, f.items[m].(event := EventAfter(f.items[m].event, o)), n, f.items[n].(event := Abort));
  }

  lemma MarkedHandle(ns: seq<Node>, f: Flow, f': Flow, n: string)
    requires ns != [] && Next(ns, f, HandleEvent, f') && n in f.items && f.master != Holding(n)
    ensures n in f'.items && Next(ns, Marked(f, n), HandleEvent, Marked(f', n))
  {
    hide Handle;
    var g := f.(master := Waiting);
    MarkedHandled(ns, g, f.master.name, n);
    assert Marked(f, n).(master := Waiting) == Marked(g, n);
  }

  lemma MarkedHandled(ns: seq<Node>, f: Flow, m: string, n: string)
    requires ns != [] && Names(ns) <= f.items.Keys && n in f.items && m in f.items && m != n
    ensures n in Handle(ns, f, m).items && Handle(ns, Marked(f, n), m) == Marked(Handle(ns, f, m), n)
  {
    hide NextsOf, ExecNext;
    if f.items[m].event == ExecOK { MarkedExec(ns, f, m, n); } else { MarkedFailed(ns, f, m, n); }
  }

  lemma MarkedFailed(ns: seq<Node>, f: Flow, m: string, n: string)
    requires ns != [] && Names(ns) <= f.items.Keys && n in f.items && m in f.items && m != n && f.items[m].event != ExecOK
    ensures n in Handle(ns, f, m).items && Handle(ns, Marked(f, n), m) == Marked(Handle(ns, f, m), n)
  {
    hide ExecNext, Names;
    Commutes(f.items, m, f.items[m].(retryNum := f.items[m].retryNum - 1), n, f.items[n].(event := Abort));
  }

  lemma MarkedExec(ns: seq<Node>, f: Flow, m: string, n: string)
    requires Names(ns) <= f.items.Keys && n in f.items
    ensures Names(ns) <= Marked(f, n).items.Keys && n in ExecNext(ns, f, m).items
    ensures ExecNext(ns, Marked(f, n), m) == Marked(ExecNext(ns, f, m), n)
  {
    hide NextsOf;
    assert Released(ns, Marked(f, n), m) == Released(ns, f, m);
    assert ExecNext(ns, Marked(f, n), m).items == Marked(ExecNext(ns, f, m), n).items;
  }

  /**
    Exactly when some run closes the channel twice, for every graph and every pool: in some run the master must take the last
    node's execOK while another event waits in the channel.
   */
  lemma ClosesTwiceExact(ns: seq<Node>, pool: Pool)
    requires Runnable(ns)
    ensures (exists f :: Occurs(ns, pool, f) && f.master.Panicked?) <==> exists f :: Occurs(ns, pool, f) && Overtaken(ns, f)
  {
    hide Next, Overtaken, Distinct, Topological;
    if f :| Occurs(ns, pool, f) && Overtaken(ns, f) {
      var g := OvertakenPanics(ns, pool, f);
    }
    if f :| Occurs(ns, pool, f) && f.master.Panicked? {
      var fs: seq<Flow>, steps: seq<Step> :| Reachable(ns, fs, steps) && fs[0].pool == pool && fs[|steps|] == f;
      if forall i | 0 <= i < |steps| :: !Overtaken(ns, fs[i]) { DrainedRun(ns, fs, steps); }
      var i :| 0 <= i < |steps| && Overtaken(ns, fs[i]);
      PrefixOccurs(ns, fs, steps, i);
    }
  }

  lemma OvertakenPanics(ns: seq<Node>, pool: Pool, f: Flow) returns (g: Flow)
    requires ns != [] && Occurs(ns, pool, f) && Overtaken(ns, f)
    ensures Occurs(ns, pool, g) && g.master.Panicked?
  {
    hide Next, Inv, Runnable;
    var fs: seq<Flow>, steps: seq<Step> :| Reachable(ns, fs, steps) && fs[0].pool == pool && fs[|steps|] == f;
    var n := f.channel[0];
    RunInv(ns, fs, steps);
    CouldAbort(ns, fs, steps, n);
    LastHeldOpen(ns, f);
    g := CloseFirst(ns, pool, Marked(f, n));
    g := CloseAgain(ns, pool, g);
  }

  lemma LastHeldOpen(ns: seq<Node>, f: Flow)
    requires Inv(ns, f) && f.master == Holding(Last(ns))
    ensures !f.closed && Last(ns) !in f.channel
  {
    AtMostOne(ns, f, Last(ns));
    TokenReady(ns, f, Last(ns));
    ItemThere(ns, f, Last(ns));
    hide NodeOK;
    assert Last(ns) in f.channel <==> multiset(f.channel)[Last(ns)] > 0;
  }

  // ---------- by the shape of the graph ----------

  /**
    Exactly when some run closes the channel twice, on a pool of two workers or more on which the graph cannot get stuck: the
    channel must have room, and some other node must not be an ancestor of the last one.
   */
  lemma DoubleCloseExact(ns: seq<Node>, pool: Pool)
    requires Runnable(ns) && pool.workers >= 2 && !CanStick(ns, pool)
    ensures (exists f :: Occurs(ns, pool, f) && f.master.Panicked?) <==>
            pool.capacity >= 1 && exists b :: b in Names(ns) && b != Last(ns) && !Ancestor(ns, b, Last(ns))
  {
    hide CanStick, Ancestor, Occurs;
    if pool.capacity >= 1 && exists b :: b in Names(ns) && b != Last(ns) && !Ancestor(ns, b, Last(ns)) {
      var b :| b in Names(ns) && b != Last(ns) && !Ancestor(ns, b, Last(ns));
      var f := AbortsLate(ns, pool, b);
    }
    DoubleCloseOnly(ns, pool);
  }

  /** In particular on every pool with room for the widest part of the graph. */
  lemma NarrowDoubleClose(ns: seq<Node>, pool: Pool)
    requires Runnable(ns) && pool.workers >= 2 && Narrow(ns, pool.workers + pool.capacity)
    ensures (exists f :: Occurs(ns, pool, f) && f.master.Panicked?) <==>
            pool.capacity >= 1 && exists b :: b in Names(ns) && b != Last(ns) && !Ancestor(ns, b, Last(ns))
  {
    hide Occurs, Ancestor;
    if CanStick(ns, pool) { StuckIsWide(ns, pool); }
    DoubleCloseExact(ns, pool);
  }

  /** On every pool: a second close needs room in the channel and such a node. */
  lemma DoubleCloseOnly(ns: seq<Node>, pool: Pool)
    requires Runnable(ns)
    ensures (exists f :: Occurs(ns, pool, f) && f.master.Panicked?) ==>
            pool.capacity >= 1 && exists b :: b in Names(ns) && b != Last(ns) && !Ancestor(ns, b, Last(ns))
  {
    hide Ancestor;
    if f :| Occurs(ns, pool, f) && f.master.Panicked? {
      var fs: seq<Flow>, steps: seq<Step> :| Reachable(ns, fs, steps) && fs[0].pool == pool && fs[|steps|] == f;
      if pool.capacity == 0 { UnbufferedClosesOnce(ns, fs, steps); }
      if forall a <- Names(ns) | a != Last(ns) :: Ancestor(ns, a, Last(ns)) { ClosesOnce(ns, fs, steps); }
    }
  }
}