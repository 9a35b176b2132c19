/** Exactly which flow graphs can get stuck on which pools (common/bizflow/graph.go, `execNext`; engine.go). */
module BizStuckExact {
  import opened BizGraph
  import opened BizRun
  import opened BizTermination
  import opened BizStuck
  import opened BizSchedule

  /** Some run on this pool cannot go on although nothing came to nothing and the last node is not done. */
  ghost predicate CanStick(ns: seq<Node>, pool: Pool)
    requires ns != []
  {
    exists f :: Occurs(ns, pool, f) && f.lost == {} && Stopped(ns, f) && Last(ns) !in f.ok
  }

  /** A jammed run goes on until no step is left. */
  lemma {:induction false} JammedEnds(ns: seq<Node>, pool: Pool, f: Flow) returns (g: Flow)
    requires Occurs(ns, pool, f) && Jammed(ns, f)
    requires forall n <- ns :: n.name in f.items
    ensures Occurs(ns, pool, g) && Jammed(ns, g) && Stopped(ns, g)
    decreases LeftAll(ns, f) + Waits(f)
  {
    hide Occurs, Next;
    if Stopped(ns, f) { return f; }
    var st, f1 :| Next(ns, f, st, f1);
    OccursNext(ns, pool, f, st, f1);
    LastStepLowers(ns, f, st, f1);
    StaysJammed(ns, f, st, f1);
    g := JammedEnds(ns, pool, f1);
  }

  lemma JammedSticks(ns: seq<Node>, pool: Pool, f: Flow)
    requires ns != [] && Occurs(ns, pool, f) && Jammed(ns, f)
    ensures CanStick(ns, pool)
  {
    forall n <- ns ensures n.name in f.items { ItemThere(ns, f, n.name); }
    var g := JammedEnds(ns, pool, f);
    LastOpen(ns, g);
  }

  /** Exactly when some run gets stuck, for every pool: some run must find more nodes ready than there is room for. */
  lemma StickExact(ns: seq<Node>, pool: Pool)
    requires Runnable(ns) && pool.workers >= 1
    ensures CanStick(ns, pool) <==> exists f :: Occurs(ns, pool, f) && Jammed(ns, f)
  {
    if f :| Occurs(ns, pool, f) && Jammed(ns, f) { JammedSticks(ns, pool, f); }
    if CanStick(ns, pool) {
      var f :| Occurs(ns, pool, f) && f.lost == {} && Stopped(ns, f) && Last(ns) !in f.ok;
      StuckJammed(ns, pool, f);
    }
  }

  lemma StuckJammed(ns: seq<Node>, pool: Pool, f: Flow)
    requires ns != [] && Occurs(ns, pool, f) && f.lost == {} && Stopped(ns, f) && Last(ns) !in f.ok && pool.workers >= 1
    ensures Jammed(ns, f) && f.pool == pool
  {
    hide Stopped, Inv, Next, ReadySet;
    var fs: seq<Flow>, steps: seq<Step> :| Reachable(ns, fs, steps) && fs[0].pool == pool && fs[|steps|] == f;
    RunInv(ns, fs, steps);
    PoolKept(ns, fs, steps);
    StopsForRun(ns, fs, steps);
    JammedAt(ns, f);
  }

  lemma JammedAt(ns: seq<Node>, f: Flow)
    requires Inv(ns, f) && f.lost == {} && Stopped(ns, f) && Last(ns) !in f.ok && f.pool.workers >= 1 && StopsFor(ns, f)
    ensures Jammed(ns, f)
  {
    hide Stopped, NodeOK, ReadySet;
    StoppedTasks(ns, f);
    StoppedWaiting(ns, f);
  }

  lemma {:induction false} PoolKept(ns: seq<Node>, fs: seq<Flow>, steps: seq<Step>)
    requires Reachable(ns, fs, steps)
    ensures fs[|steps|].pool == fs[0].pool
    decreases |steps|
  {
    if steps != [] {
      hide Next, Runnable;
      var k := |steps| - 1;
      PoolKept(ns, fs[..k + 1], steps[..k]);
      PoolStep(ns, fs[k], steps[k], fs[k + 1]);
    }
  }

  lemma PoolStep(ns: seq<Node>, f: Flow, st: Step, f': Flow)
    requires ns != [] && Next(ns, f, st, f')
    ensures f'.pool == f.pool
  {}

  /** The nodes that some member of `a` has to wait for. */
  ghost function Before(ns: seq<Node>, a: set<string>): set<string> {
    set n <- Names(ns) | exists x <- a :: Ancestor(ns, n, x)
  }

  lemma BeforeClosed(ns: seq<Node>, a: set<string>)
    requires Runnable(ns) && Antichain(ns, a)
    ensures DownClosed(ns, Before(ns, a)) && Last(ns) !in Before(ns, a)
    ensures forall x <- a :: x !in Before(ns, a) && DepsOf(ns, x) <= Before(ns, a)
  {
    forall n, d | n in Names(ns) && d in DepsOf(ns, n) ensures d in Names(ns) && Ancestor(ns, d, n) { DepIsAncestor(ns, d, n); }
    forall n, d, x | n in Names(ns) && d in DepsOf(ns, n) && x in a && Ancestor(ns, n, x) ensures d in Names(ns) && Ancestor(ns, d, x) {
      DepIsAncestor(ns, d, n);
      AncestorsChain(ns, d, n, x);
    }
    forall x <- a ensures !Ancestor(ns, Last(ns), x) { LastNoAncestor(ns, x); }
  }

  lemma DepIsAncestor(ns: seq<Node>, d: string, n: string)
    requires Runnable(ns) && n in Names(ns) && d in DepsOf(ns, n)
    ensures d in Names(ns) && Ancestor(ns, d, n)
  {
    DepEarlier(ns, d, n);
    var p := [d, n];
    assert Path(ns, p) && |p| >= 2 && p[0] == d && p[|p| - 1] == n;
  }

  lemma AncestorsChain(ns: seq<Node>, a: string, b: string, c: string)
    requires Ancestor(ns, a, b) && Ancestor(ns, b, c)
    ensures Ancestor(ns, a, c)
  {
    var p :| |p| >= 2 && Path(ns, p) && p[0] == a && p[|p| - 1] == b;
    var q :| |q| >= 2 && Path(ns, q) && q[0] == b && q[|q| - 1] == c;
    var r := p + q[1..];
    forall k | 0 <= k < |r| - 1 ensures r[k] in DepsOf(ns, r[k + 1]) {
      if k < |p| - 1 { assert p[k] in DepsOf(ns, p[k + 1]); } else { assert q[k - |p| + 1] in DepsOf(ns, q[k - |p| + 2]); }
    }
    assert Path(ns, r) && |r| >= 2 && r[0] == a && r[|r| - 1] == c;
  }

  lemma LastNoAncestor(ns: seq<Node>, x: string)
    requires Runnable(ns)
    ensures !Ancestor(ns, Last(ns), x)
  {
    PositionOf(ns, |ns| - 1);
    forall p | |p| >= 2 && Path(ns, p) ensures p[0] != Last(ns) { PathClimbs(ns, p); }
  }

  /** A wide antichain can be made ready all at once. */
  lemma WideJams(ns: seq<Node>, pool: Pool, a: set<string>) returns (f: Flow)
    requires Runnable(ns) && pool.capacity == 0 && Antichain(ns, a) && |a| > pool.workers
    ensures Occurs(ns, pool, f) && Jammed(ns, f)
  {
    hide Occurs, Inv, ReadySet, Antichain, Before;
    BeforeClosed(ns, a);
    var i;
    f, i := RunAll(ns, pool, Before(ns, a), |ns|);
    if |ReadySet(ns, f)| <= pool.workers { AllReady(ns, pool, a, f); }
  }

  lemma AllReady(ns: seq<Node>, pool: Pool, a: set<string>, f: Flow)
    requires Runnable(ns) && Antichain(ns, a) && Upto(ns, pool, Before(ns, a), |ns|, f)
    ensures |ReadySet(ns, f)| >= |a|
  {
    BeforeClosed(ns, a);
    AllOk(ns, pool, Before(ns, a), f);
    forall x <- a ensures x in ReadySet(ns, f) {}
    SubsetSize(a, ReadySet(ns, f));
  }

  /**
    Exactly which graphs can get stuck on a pool when the channel has no room, as it has unless `FlowParallelNum` gives it some:
    those in which more nodes than there are workers do not wait for each other.
   */
  lemma StickExactUnbuffered(ns: seq<Node>, pool: Pool)
    requires Runnable(ns) && pool.workers >= 1 && pool.capacity == 0
    ensures CanStick(ns, pool) <==> exists a :: Antichain(ns, a) && |a| > pool.workers
  {
    hide Jammed, Occurs, Antichain, CanStick;
    StickExact(ns, pool);
    if a :| Antichain(ns, a) && |a| > pool.workers {
      var f := WideJams(ns, pool, a);
    }
    forall f | Occurs(ns, pool, f) && Jammed(ns, f) ensures Antichain(ns, ReadySet(ns, f)) && |ReadySet(ns, f)| > pool.workers {
      JammedWide(ns, pool, f);
    }
  }

  lemma JammedWide(ns: seq<Node>, pool: Pool, f: Flow)
    requires Occurs(ns, pool, f) && Jammed(ns, f)
    ensures Antichain(ns, ReadySet(ns, f)) && |ReadySet(ns, f)| > pool.workers + pool.capacity
  {
    ReadyAntichain(ns, f);
    var fs: seq<Flow>, steps: seq<Step> :| Reachable(ns, fs, steps) && fs[0].pool == pool && fs[|steps|] == f;
    PoolKept(ns, fs, steps);
  }

  /** With room in the channel it takes a wider part to get stuck. */
  lemma StuckIsWide(ns: seq<Node>, pool: Pool)
    requires Runnable(ns) && pool.workers >= 1 && CanStick(ns, pool)
    ensures exists a :: Antichain(ns, a) && |a| > pool.workers + pool.capacity
  {
    StickExact(ns, pool);
    var f :| Occurs(ns, pool, f) && Jammed(ns, f);
    JammedWide(ns, pool, f);
  }

  /** Four nodes: B and C wait for A, and D for both. */
  function Diamond(): seq<Node> {
    [Node("A", [], 0), Node("B", ["A"], 0), Node("C", ["A"], 0), Node("D", ["B", "C"], 0)]
  }

  lemma DiamondRunnable()
    ensures Runnable(Diamond()) && Names(Diamond()) == {"A", "B", "C", "D"}
    ensures DepsOf(Diamond(), "B") == DepsOf(Diamond(), "C") == {"A"}
    ensures Position(Diamond(), "B") == 1 && Position(Diamond(), "C") == 2
  {
    var ns := Diamond();
    DiamondFits();
    DiamondDistinct();
    hide Topological, Distinct;
    PositionOf(ns, 1);
    PositionOf(ns, 2);
    DiamondNames();
  }

  lemma DiamondNames()
    ensures Names(Diamond()) == {"A", "B", "C", "D"}
  {
    var ns := Diamond();
    assert ns[0] in ns && ns[1] in ns && ns[2] in ns && ns[3] in ns;
  }

  lemma DiamondDistinct()
    ensures Distinct(Diamond())
  {}

  lemma DiamondFits()
    ensures Topological(Diamond())
  {
    var ns := Diamond();
    assert ns[..1] == [ns[0]] && ns[..2] == [ns[0], ns[1]] && ns[..3] == [ns[0], ns[1], ns[2]];
    assert ns[0] in ns[..1] && ns[1] in ns[..3] && ns[2] in ns[..3] && ns[0] in ns[..2];
    assert Fits(ns, 0) && Fits(ns, 1) && Fits(ns, 2) && Fits(ns, 3);
  }

  /** The two middle nodes of the diamond jam a single worker. */
  lemma DiamondSticks()
    ensures Runnable(Diamond()) && CanStick(Diamond(), Pool(1, 0))
  {
    var ns := Diamond();
    DiamondRunnable();
    hide Diamond, CanStick;
    forall p | |p| >= 2 && Path(ns, p) && p[|p| - 1] in {"B", "C"} ensures p[0] !in {"B", "C"} {
      assert p[|p| - 2] in DepsOf(ns, p[|p| - 1]);
      PathClimbs(ns, p);
    }
    assert Antichain(ns, {"B", "C"});
    StickExactUnbuffered(ns, Pool(1, 0));
  }
}
