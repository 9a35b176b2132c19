/** When a run of a flow graph gets stuck for want of workers or of room in the channel (common/bizflow/graph.go, engine.go). */
module BizStuck {
  import opened BizGraph
  import opened BizRun
  import opened BizTermination

  /** The nodes that are ready and not done: each has one task or event, unless that came to nothing. */
  ghost function ReadySet(ns: seq<Node>, f: Flow): set<string> {
    set n <- Names(ns) | Ready(ns, f, n) && n !in f.ok
  }

  /** All tasks and events there are. */
  function Load(f: Flow): nat {
    |f.pending| + Busy(f) + |f.channel| + |Held(f)|
  }

  function Bag(f: Flow): multiset<string> {
    f.pending + f.submitted + f.running + f.finished + multiset(f.channel) + Held(f)
  }

  lemma BagTokens(f: Flow, n: string)
    ensures Bag(f)[n] == Tokens(f, n)
  {}

  lemma BagLoad(f: Flow)
    ensures |Bag(f)| == Load(f)
  {}

  lemma LoadIsReady(ns: seq<Node>, f: Flow)
    requires Inv(ns, f) && f.lost == {}
    ensures Load(f) == |ReadySet(ns, f)|
  {
    hide Bag, Load, Tokens, Runnable, CountOK, Ready;
    forall n ensures Bag(f)[n] == multiset(ReadySet(ns, f))[n] {
      if n in Names(ns) { assert NodeOK(ns, f, n); }
      BagTokens(f, n);
    }
    assert Bag(f) == multiset(ReadySet(ns, f));
    BagLoad(f);
  }

  /** Nodes none of which has to wait for another. */
  ghost predicate Antichain(ns: seq<Node>, a: set<string>) {
    a <= Names(ns) && forall x, y | x in a && y in a :: !Ancestor(ns, x, y)
  }

  /** At most `w` nodes can ever be ready at once. */
  ghost predicate Narrow(ns: seq<Node>, w: nat) {
    forall a | Antichain(ns, a) :: |a| <= w
  }

  lemma ReadyAntichain(ns: seq<Node>, f: Flow)
    requires Inv(ns, f)
    ensures Antichain(ns, ReadySet(ns, f))
  {
    forall x, y | x in ReadySet(ns, f) && y in ReadySet(ns, f) ensures !Ancestor(ns, x, y) {
      AncestorsOfReady(ns, f, x, y);
    }
  }

  lemma AncestorsOfReady(ns: seq<Node>, f: Flow, a: string, n: string)
    requires Inv(ns, f) && n in Names(ns) && Ready(ns, f, n)
    ensures Ancestor(ns, a, n) ==> a in f.ok
  {
    hide Inv;
    if Ancestor(ns, a, n) {
      var p :| |p| >= 2 && Path(ns, p) && p[0] == a && p[|p| - 1] == n;
      PathPrefix(ns, p);
      OkClosed(ns, f, p[..|p| - 1]);
    }
  }

  /** A graph is never wider than it has nodes. */
  lemma NarrowAsNodes(ns: seq<Node>)
    requires Distinct(ns)
    ensures Narrow(ns, |ns|)
  {
    NamesSize(ns);
    forall a | Antichain(ns, a) ensures |a| <= |ns| { SubsetSize(a, Names(ns)); }
  }

  lemma {:induction false} NamesSize(ns: seq<Node>)
    ensures |Names(ns)| <= |ns|
    decreases |ns|
  {
    if ns != [] {
      NamesSize(ns[1..]);
      assert Names(ns) == {ns[0].name} + Names(ns[1..]);
    }
  }

  lemma {:induction false} SubsetSize<T>(a: set<T>, b: set<T>)
    requires a <= b
    ensures |a| <= |b|
    decreases |a|
  {
    if a != {} {
      var x :| x in a;
      SubsetSize(a - {x}, b - {x});
    }
  }

  // ---------- the end of a run ----------

  /** No step is left. */
  ghost predicate Stopped(ns: seq<Node>, f: Flow)
    requires ns != []
  {
    forall st, f' :: !Next(ns, f, st, f')
  }

  lemma ItemThere(ns: seq<Node>, f: Flow, n: string)
    requires Inv(ns, f) && (n in Names(ns) || Tokens(f, n) > 0)
    ensures n in Names(ns) && n in f.items
  {
    assert NodeOK(ns, f, n);
  }

  lemma AtMostOne(ns: seq<Node>, f: Flow, n: string)
    requires Inv(ns, f)
    ensures Tokens(f, n) <= 1
  {
    if Tokens(f, n) > 0 { assert NodeOK(ns, f, n); }
  }

  lemma TokenReady(ns: seq<Node>, f: Flow, n: string)
    requires Inv(ns, f) && n in Names(ns)
    ensures Tokens(f, n) > 0 ==> Ready(ns, f, n) && n !in f.ok
  {
    assert NodeOK(ns, f, n);
  }

  /** The step that a task in its phase takes next. */
  lemma WorkerStep(ns: seq<Node>, f: Flow, n: string)
    requires Inv(ns, f)
    ensures n in f.submitted ==> n in f.items && Next(ns, f, Begin(n), Begun(f, n))
    ensures n in f.running ==> n in f.items && Next(ns, f, Finish(n, Success), Finished(f, n, Success))
    ensures n in f.finished && CanSend(f) ==> Next(ns, f, Send(n), Sent(f, n))
    ensures n in f.pending && Busy(f) < f.pool.workers ==> Next(ns, f, Submit(n), Accepted(f, n))
  {
    if Tokens(f, n) > 0 { ItemThere(ns, f, n); }
  }

  /** The step the master takes next. */
  lemma MasterStep(ns: seq<Node>, f: Flow)
    requires Inv(ns, f)
    ensures f.master.Holding? ==> Names(ns) <= f.items.Keys && f.master.name in f.items
                                  && Next(ns, f, HandleEvent, Handle(ns, f.(master := Waiting), f.master.name))
    ensures Idle(f) && f.channel != [] ==> Next(ns, f, Receive, Taken(f))
    ensures Idle(f) && f.channel == [] && f.closed ==> Next(ns, f, Done, f.(master := Returned))
  {
    if f.master.Holding? {
      ItemThere(ns, f, f.master.name);
      forall m <- Names(ns) ensures m in f.items { ItemThere(ns, f, m); }
    }
  }

  /** With no step left, every task waits to be sent or handed over, and the master is not about to take an event. */
  lemma StoppedTasks(ns: seq<Node>, f: Flow)
    requires Inv(ns, f) && Stopped(ns, f)
    ensures f.submitted == f.running == multiset{} && (f.finished != multiset{} ==> !CanSend(f))
    ensures f.pending != multiset{} ==> Busy(f) == f.pool.workers
    ensures !f.master.Holding? && (Idle(f) ==> f.channel == [] && !f.closed)
  {
    hide Next;
    forall n ensures n !in f.submitted && n !in f.running && (n in f.finished ==> !CanSend(f)) && (n in f.pending ==> Busy(f) >= f.pool.workers) {
      WorkerStep(ns, f, n);
    }
    MasterStep(ns, f);
  }

  /** A node that is ready and not done, found by walking back from one that is not done. */
  lemma {:induction false} Unfinished(ns: seq<Node>, f: Flow, i: nat) returns (n: string)
    requires Inv(ns, f) && i < |ns| && ns[i].name !in f.ok
    ensures n in ReadySet(ns, f)
    decreases i
  {
    n := ns[i].name;
    PositionOf(ns, i);
    if !Ready(ns, f, n) {
      var d :| d in DepsOf(ns, n) && d !in f.ok;
      DepEarlier(ns, d, n);
      n := Unfinished(ns, f, Position(ns, d));
    }
  }

  /** A master that waits with no step left waits for a worker, and all room there is for tasks and events is taken. */
  lemma StoppedWaiting(ns: seq<Node>, f: Flow)
    requires Inv(ns, f) && Stopped(ns, f) && f.lost == {} && f.master.Waiting? && f.pool.workers >= 1
    ensures |ReadySet(ns, f)| > f.pool.workers + f.pool.capacity && Last(ns) !in f.ok
  {
    hide NodeOK, Next, Stopped;
    StoppedTasks(ns, f);
    LoadIsReady(ns, f);
    if f.pending == multiset{} {
      assert f.finished == multiset{};
      var n := Unfinished(ns, f, |ns| - 1);
      assert false;
    }
  }

  /** A master that has stopped has no task left to hand over. */
  lemma StoppedDone(ns: seq<Node>, f: Flow)
    requires Inv(ns, f) && f.lost == {} && !f.master.Waiting? && !f.master.Holding?
    ensures |ReadySet(ns, f)| <= f.pool.workers + f.pool.capacity
  {
    LoadIsReady(ns, f);
  }

  /**
    Exactly when a run that cannot go on, and in which no task or event came to nothing, has completed the last node and so all
    its ancestors: no more nodes may be ready than the pool has workers and the channel has room.
   */
  lemma EndExact(ns: seq<Node>, fs: seq<Flow>, steps: seq<Step>)
    requires Reachable(ns, fs, steps) && Stopped(ns, fs[|steps|]) && fs[|steps|].lost == {} && fs[|steps|].pool.workers >= 1
    ensures var f := fs[|steps|];
            && (Last(ns) in f.ok <==> |ReadySet(ns, f)| <= f.pool.workers + f.pool.capacity)
            && (Last(ns) in f.ok ==>
                  f.closed && forall a | Ancestor(ns, a, Last(ns)) :: a in f.ok && a in f.items && f.items[a].event == ExecOK)
  {
    var f := fs[|steps|];
    RunInv(ns, fs, steps);
    StopsForRun(ns, fs, steps);
    EndAt(ns, f);
    forall a | Last(ns) in f.ok && Ancestor(ns, a, Last(ns)) ensures a in f.ok && a in f.items && f.items[a].event == ExecOK {
      LastAfterAncestors(ns, fs, steps, a);
    }
  }

  lemma EndAt(ns: seq<Node>, f: Flow)
    requires Inv(ns, f) && Stopped(ns, f) && f.lost == {} && f.pool.workers >= 1 && StopsFor(ns, f)
    ensures Last(ns) in f.ok <==> |ReadySet(ns, f)| <= f.pool.workers + f.pool.capacity
    ensures Last(ns) in f.ok ==> f.closed
  {
    hide NodeOK, Next, Stopped, ReadySet;
    StoppedTasks(ns, f);
    if f.master.Waiting? { StoppedWaiting(ns, f); } else { StoppedDone(ns, f); }
  }

  /**
    With enough workers and room for the widest part of the graph, every run that cannot go on and in which nothing came
    to nothing has completed the last node, whatever the interleaving.
   */
  lemma EndsComplete(ns: seq<Node>, fs: seq<Flow>, steps: seq<Step>)
    requires Reachable(ns, fs, steps) && fs[|steps|].lost == {} && Stopped(ns, fs[|steps|])
    requires fs[|steps|].pool.workers >= 1 && Narrow(ns, fs[|steps|].pool.workers + fs[|steps|].pool.capacity)
    ensures var f := fs[|steps|];
            && f.closed && Last(ns) in f.ok
            && forall a | Ancestor(ns, a, Last(ns)) :: a in f.ok && a in f.items && f.items[a].event == ExecOK
  {
    RunInv(ns, fs, steps);
    ReadyAntichain(ns, fs[|steps|]);
    EndExact(ns, fs, steps);
  }

  /** In particular, as many workers as nodes are always enough. */
  lemma EnoughWorkers(ns: seq<Node>, fs: seq<Flow>, steps: seq<Step>)
    requires Reachable(ns, fs, steps) && fs[|steps|].lost == {} && Stopped(ns, fs[|steps|]) && |ns| <= fs[|steps|].pool.workers
    ensures fs[|steps|].closed && Last(ns) in fs[|steps|].ok
  {
    NarrowAsNodes(ns);
    EndsComplete(ns, fs, steps);
  }

  /** Before that some step can always be taken. */
  lemma NeverStuck(ns: seq<Node>, fs: seq<Flow>, steps: seq<Step>) returns (st: Step, f': Flow)
    requires Reachable(ns, fs, steps) && fs[|steps|].lost == {} && !fs[|steps|].closed
    requires fs[|steps|].pool.workers >= 1 && Narrow(ns, fs[|steps|].pool.workers + fs[|steps|].pool.capacity)
    ensures Next(ns, fs[|steps|], st, f')
  {
    if Stopped(ns, fs[|steps|]) { EndsComplete(ns, fs, steps); }
    st, f' :| Next(ns, fs[|steps|], st, f');
  }

  // ---------- stuck for good ----------

  /** More nodes are ready than there is room for: the master cannot hand over all tasks and takes no further event. */
  ghost predicate Jammed(ns: seq<Node>, f: Flow) {
    && Inv(ns, f) && f.master.Waiting? && !f.closed && f.lost == {}
    && |ReadySet(ns, f)| > f.pool.workers + f.pool.capacity
  }

  lemma JammedPending(ns: seq<Node>, f: Flow)
    requires Jammed(ns, f)
    ensures f.pending != multiset{}
  {
    LoadIsReady(ns, f);
  }

  /** A jammed run stays jammed, so it never completes. */
  lemma StaysJammed(ns: seq<Node>, f: Flow, st: Step, f': Flow)
    requires ns != [] && Jammed(ns, f) && Next(ns, f, st, f')
    ensures Jammed(ns, f') && Last(ns) !in f'.ok && f'.pool == f.pool
  {
    hide Inv, Next, ReadySet;
    JammedPending(ns, f);
    NextInv(ns, f, st, f');
    JammedSame(ns, f, st, f');
    SameReady(ns, f, f');
    LastOpen(ns, f');
  }

  lemma SameReady(ns: seq<Node>, f: Flow, f': Flow)
    requires f'.ok == f.ok
    ensures ReadySet(ns, f') == ReadySet(ns, f)
  {}

  lemma LastOpen(ns: seq<Node>, f: Flow)
    requires Inv(ns, f) && !f.closed
    ensures Last(ns) !in f.ok
  {}

  lemma JammedSame(ns: seq<Node>, f: Flow, st: Step, f': Flow)
    requires ns != [] && Next(ns, f, st, f') && f.pending != multiset{} && f.master.Waiting? && !f.closed && f.lost == {}
    ensures f'.ok == f.ok && f'.lost == {} && !f'.closed && f'.master.Waiting? && f'.pool == f.pool
  {
    hide Handle;
  }
}
