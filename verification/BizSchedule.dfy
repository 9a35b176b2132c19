/** Particular runs of a flow graph: one node after the other, while all other tasks wait for their workers to begin them. */
module BizSchedule {
  import opened BizGraph
  import opened BizRun
  import opened BizTermination
  import opened BizStuck

  /** `f` ends some run on the given pool. */
  ghost predicate Occurs(ns: seq<Node>, pool: Pool, f: Flow) {
    exists fs: seq<Flow>, steps: seq<Step> :: Reachable(ns, fs, steps) && fs[0].pool == pool && fs[|steps|] == f
  }

  lemma OccursInit(ns: seq<Node>, pool: Pool)
    requires Runnable(ns)
    ensures Occurs(ns, pool, Init(ns, pool)) && Inv(ns, Init(ns, pool))
  {
    InitInv(ns, pool);
    var fs, none: seq<Step> := [Init(ns, pool)], [];
    assert Reachable(ns, fs, none) && fs[|none|] == Init(ns, pool);
  }

  lemma OccursNext(ns: seq<Node>, pool: Pool, f: Flow, st: Step, f': Flow)
    requires Occurs(ns, pool, f) && Inv(ns, f) && Next(ns, f, st, f')
    ensures Occurs(ns, pool, f') && Inv(ns, f')
  {
    hide Next, Inv;
    var fs: seq<Flow>, steps: seq<Step> :| Reachable(ns, fs, steps) && fs[0].pool == pool && fs[|steps|] == f;
    var fs', steps' := fs + [f'], steps + [st];
    forall i | 0 <= i < |steps'| ensures Next(ns, fs'[i], steps'[i], fs'[i + 1]) {
      if i < |steps| { assert Next(ns, fs[i], steps[i], fs[i + 1]); }
    }
    assert Reachable(ns, fs', steps') && fs'[|steps'|] == f';
    NextInv(ns, f, st, f');
  }

  /** A set of nodes that contains all dependencies of its members. */
  ghost predicate DownClosed(ns: seq<Node>, s: set<string>) {
    s <= Names(ns) && forall n <- s :: DepsOf(ns, n) <= s
  }

  /** The members of `s` before position `k` are done, and no worker has begun anything else. */
  ghost predicate Upto(ns: seq<Node>, pool: Pool, s: set<string>, k: nat, f: Flow) {
    && Occurs(ns, pool, f) && Inv(ns, f) && f.pool == pool
    && f.running == f.finished == multiset{} && f.channel == [] && !f.closed && f.master.Waiting? && f.lost == {}
    && f.ok == set n | n in s && n in Names(ns) && Position(ns, n) < k
  }

  lemma UptoZero(ns: seq<Node>, pool: Pool, s: set<string>)
    requires Runnable(ns)
    ensures Upto(ns, pool, s, 0, Init(ns, pool))
  {
    OccursInit(ns, pool);
  }

  /** With a worker for each ready node all tasks can be handed over. */
  lemma {:induction false} SubmitAll(ns: seq<Node>, pool: Pool, s: set<string>, k: nat, f: Flow) returns (f': Flow)
    requires Upto(ns, pool, s, k, f) && |ReadySet(ns, f)| <= pool.workers
    ensures Upto(ns, pool, s, k, f') && f'.pending == multiset{} && f'.ok == f.ok
    decreases |f.pending|
  {
    if f.pending == multiset{} { return f; }
    hide Occurs, Inv, ReadySet, Position;
    var n :| n in f.pending;
    LoadIsReady(ns, f);
    var g := Accepted(f, n);
    OccursNext(ns, pool, f, Submit(n), g);
    SameReady(ns, f, g);
    f' := SubmitAll(ns, pool, s, k, g);
  }

  /** The next node of `s` has been handed over. */
  lemma Submitted(ns: seq<Node>, pool: Pool, s: set<string>, k: nat, f: Flow)
    requires Upto(ns, pool, s, k, f) && f.pending == multiset{} && k < |ns| && DownClosed(ns, s) && ns[k].name in s
    ensures ns[k].name in f.submitted && ns[k].name in f.items
  {
    var n := ns[k].name;
    PositionOf(ns, k);
    assert NodeOK(ns, f, n);
    forall d <- DepsOf(ns, n) ensures d in f.ok { DepEarlier(ns, d, n); }
    assert Tokens(f, n) == 1;
  }

  /** A submitted node runs and succeeds, and the master takes its event. */
  lemma RunToHold(ns: seq<Node>, pool: Pool, f: Flow, n: string) returns (g: Flow)
    requires Occurs(ns, pool, f) && Inv(ns, f) && Idle(f) && f.channel == [] && !f.closed && n in f.submitted && n in f.items
    ensures Occurs(ns, pool, g) && Inv(ns, g) && n in g.items && g.items[n].event == ExecOK
    ensures g == f.(submitted := f.submitted - multiset{n}, master := Holding(n), items := g.items)
    ensures forall m <- f.items | m != n :: m in g.items && g.items[m] == f.items[m]
  {
    hide Inv, Occurs;
    var f1 := Begun(f, n);
    OccursNext(ns, pool, f, Begin(n), f1);
    var f2 := Finished(f1, n, Success);
    OccursNext(ns, pool, f1, Finish(n, Success), f2);
    g := SendToHold(ns, pool, f2, n);
    assert g.running == f.running && g.finished == f.finished;
  }

  lemma SendToHold(ns: seq<Node>, pool: Pool, f: Flow, n: string) returns (g: Flow)
    requires Occurs(ns, pool, f) && Inv(ns, f) && Idle(f) && f.channel == [] && !f.closed && n in f.finished
    ensures Occurs(ns, pool, g) && Inv(ns, g)
    ensures g == f.(finished := f.finished - multiset{n}, master := Holding(n))
  {
    hide Inv, Occurs;
    var f1 := Sent(f, n);
    OccursNext(ns, pool, f, Send(n), f1);
    if f.pool.capacity == 0 { return f1; }
    g := Taken(f1);
    OccursNext(ns, pool, f1, Receive, g);
  }

  /** Then the master handles it. */
  lemma RunWhole(ns: seq<Node>, pool: Pool, f: Flow, n: string) returns (f': Flow)
    requires Occurs(ns, pool, f) && Inv(ns, f) && Idle(f) && f.channel == [] && !f.closed && n in f.submitted && n in f.items
    requires ns != [] && n != Last(ns)
    ensures Occurs(ns, pool, f') && Inv(ns, f')
    ensures f' == f.(pending := f'.pending, submitted := f'.submitted, items := f'.items, ok := f.ok + {n})
  {
    hide Inv, Occurs;
    var g := RunToHold(ns, pool, f, n);
    MasterStep(ns, g);
    f' := Handle(ns, g.(master := Waiting), n);
    OccursNext(ns, pool, g, HandleEvent, f');
  }

  lemma RunOne(ns: seq<Node>, pool: Pool, s: set<string>, k: nat, f: Flow) returns (f': Flow)
    requires Upto(ns, pool, s, k, f) && k < |ns| && DownClosed(ns, s) && Last(ns) !in s
    requires f.pending == multiset{} || ns[k].name !in s
    ensures Upto(ns, pool, s, k + 1, f')
  {
    hide Occurs, Inv, Position, DownClosed;
    var n := ns[k].name;
    UptoNext(ns, f, s, k);
    if n !in s { return f; }
    Submitted(ns, pool, s, k, f);
    f' := RunWhole(ns, pool, f, n);
  }

  lemma UptoNext(ns: seq<Node>, f: Flow, s: set<string>, k: nat)
    requires Inv(ns, f) && k < |ns|
    ensures var before, after := set n | n in s && n in Names(ns) && Position(ns, n) < k, set n | n in s && n in Names(ns) && Position(ns, n) < k + 1;
            after == if ns[k].name in s then before + {ns[k].name} else before
  {
    hide Topological, NodeOK, BoundsOK;
    PositionOf(ns, k);
  }

  /** All of `s` is run, unless on the way more nodes are ready than there are workers. */
  lemma {:induction false} RunAll(ns: seq<Node>, pool: Pool, s: set<string>, k: nat) returns (f: Flow, i: nat)
    requires Runnable(ns) && k <= |ns| && DownClosed(ns, s) && Last(ns) !in s
    ensures Upto(ns, pool, s, i, f) && (i == k || |ReadySet(ns, f)| > pool.workers)
    decreases k
  {
    hide Upto, ReadySet, DownClosed, Runnable;
    if k == 0 {
      UptoZero(ns, pool, s);
      return Init(ns, pool), 0;
    }
    f, i := RunAll(ns, pool, s, k - 1);
    if |ReadySet(ns, f)| > pool.workers { return; }
    f := SubmitAll(ns, pool, s, k - 1, f);
    f := RunOne(ns, pool, s, k - 1, f);
    i := k;
  }

  lemma AllOk(ns: seq<Node>, pool: Pool, s: set<string>, f: Flow)
    requires Upto(ns, pool, s, |ns|, f) && s <= Names(ns)
    ensures f.ok == s
  {
    forall n <- s ensures Position(ns, n) < |ns| {}
  }
}
