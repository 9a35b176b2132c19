/**
  The flow graph's objects, changed in place (common/bizflow/graph.go): `AddNode` tied to BizGraph, the master's and the workers'
  steps tied to BizRun. Tasks and events are handed over by the node's name; a call that waits is one that can only be made when
  it need not wait.
 */
module Bizflow {
  import opened BizGraph
  import opened BizRun

  /** How `Run` begins. */
  datatype Start = NotCreated | Direct(node: Node) | Submitted(name: string)

  class Item {
    const node: Node
    var event: Event
    var nexts: map<string, Item>
    var depsNum: int
    var retryNum: int
    ghost var starts: nat

    ghost function View(): ItemState reads this {
      ItemState(depsNum, retryNum, event, starts)
    }

    constructor (node: Node)
      ensures this.node == node && event == NoEvent && nexts == map[] && starts == 0
      ensures depsNum == |node.deps| && retryNum == node.retryNum
    {
      this.node, event, nexts, depsNum, retryNum, starts := node, NoEvent, map[], |node.deps|, node.retryNum, 0;
    }

    /** An unclassified error leaves the event as it was. */
    method Set(outcome: Outcome)
      modifies this`event
      ensures event == EventAfter(old(event), outcome)
    {
      match outcome
      case Success => event := ExecOK;
      case RetryErr => event := Retryable;
      case FatalErr => event := NonRetryable;
      case AbortErr => event := Abort;
      case OtherErr =>
    }
  }

  class Graph {
    var nodes: map<string, Item>
    var lastNodeName: string
    var firstNodeName: string
    var eventChan: seq<string>
    var closed: bool
    ghost var order: seq<Node>
    const pool: Pool
    ghost var pending: multiset<string>
    ghost var submitted: multiset<string>
    ghost var running: multiset<string>
    ghost var finished: multiset<string>
    var master: Master
    ghost var ok: set<string>
    ghost var lost: set<string>

    constructor (pool: Pool)
      ensures this.pool == pool && nodes == map[] && NotRun() && Valid() && Unstarted() && View() == Dag([], "", "") && Build(order) == Built(View())
    {
      nodes, lastNodeName, firstNodeName, eventChan, closed, order := map[], "", "", [], false, [];
      this.pool, pending, submitted, running, finished := pool, multiset{}, multiset{}, multiset{}, multiset{};
      master, ok, lost := Waiting, {}, {};
    }

    ghost function View(): Dag reads this`order, this`firstNodeName, this`lastNodeName {
      Dag(order, firstNodeName, lastNodeName)
    }

    /** Item `n` has its node, and its `nexts` are the items that depend on it. */
    ghost predicate ItemOK(n: string)
      requires n in nodes && n in Names(order)
      reads this`nodes, this`order, nodes.Values
    {
      && nodes[n].node.name == n && nodes[n].node == order[Position(order, n)]
      && DepsOf(order, n) <= nodes.Keys && nodes[n].nexts.Keys == NextsOf(order, n)
      && (forall m <- nodes[n].nexts :: m in nodes && nodes[n].nexts[m] == nodes[m])
    }

    ghost predicate Valid() reads this`nodes, this`order, nodes.Values {
      Distinct(order) && nodes.Keys == Names(order) && forall n <- nodes :: ItemOK(n)
    }

    ghost predicate Unstarted() reads this`nodes, nodes.Values {
      forall n <- nodes :: Fresh(nodes[n])
    }

    /** An item nobody has run yet. */
    static ghost predicate Fresh(it: Item) reads it {
      it.depsNum == |it.node.deps| && it.retryNum == it.node.retryNum && it.event == NoEvent && it.starts == 0
    }

    /** Nothing has been submitted or sent yet. */
    ghost predicate NotRun()
      reads this`pending, this`submitted, this`running, this`finished, this`eventChan, this`closed, this`master, this`ok, this`lost
    {
      && pending == submitted == running == finished == multiset{}
      && eventChan == [] && !closed && master == Waiting && ok == lost == {}
    }

    method AddNode(node: Node) returns (ok: bool)
      requires Valid() && Unstarted() && Distinct(order + [node]) && Build(order) == Built(View())
      modifies this`nodes, this`firstNodeName, this`lastNodeName, this`order, nodes.Values
      ensures forall n <- nodes :: nodes[n] in old(nodes.Values) || fresh(nodes[n])
      ensures ok == BizGraph.AddNode(old(View()), node).Built?
      ensures ok ==> Valid() && Unstarted() && View() == BizGraph.AddNode(old(View()), node).dag && Build(order) == Built(View())
      ensures ok ==> order == old(order) + [node]
    {
      hide Valid, Unstarted, NextsOf, Distinct, Fresh, Build, BizGraph.AddNode;
      NameIsNew(node);
      NothingDepends(node.name);
      BuildMore(View(), node);
      ghost var it;
      it, ok := Enter(node);
      if !ok { return; }
      order := order + [node];
      AllEntered(it);
    }

    /** The graph after a new item was entered. */
    twostate lemma AllEntered(new it: Item)
      requires old(Valid()) && old(Unstarted()) && it.node.name !in old(nodes) && NextsOf(old(order), it.node.name) == {}
      requires nodes == old(nodes)[it.node.name := it] && order == old(order) + [it.node] && Distinct(order)
      requires Fresh(it) && it.nexts == map[] && (forall p <- it.node.deps :: p in old(nodes)) && forall n <- old(nodes) :: Linked(n, it)
      ensures Valid() && Unstarted()
    {
      hide Position, NextsOf, Distinct, DepsOf, ItemOK, Fresh, Linked;
      NextsMore(old(order), it.node);
      assert nodes.Keys == Names(order) && order[..|order| - 1] == old(order);
      forall n <- nodes ensures ItemOK(n) && Fresh(nodes[n]) {
        if n != it.node.name { ItemKept(n, it); } else { ItemNew(it); }
      }
    }

    /** `AddNode` on the fields the program has. */
    method Enter(node: Node) returns (ghost it: Item, ok: bool)
      requires Valid() && node.name !in nodes
      modifies this`nodes, this`firstNodeName, this`lastNodeName, nodes.Values
      ensures ok == BizGraph.AddNode(old(View()), node).Built?
      ensures ok ==> View() == BizGraph.AddNode(old(View()), node).dag.(nodes := order)
      ensures fresh(it) && it.node == node && Fresh(it) && it.nexts == map[] && nodes == old(nodes)[node.name := it]
      ensures ok ==> (forall p <- node.deps :: p in old(nodes)) && forall n <- old(nodes) :: Linked(n, it)
    {
      hide Position, NextsOf, DepsOf, Distinct;
      var item := new Item(node);
      it := item;
      nodes := nodes[node.name := item];
      if |node.deps| == 0 {
        if |firstNodeName| == 0 { firstNodeName := node.name; } else { return it, false; }
      }
      lastNodeName := node.name;
      assert forall n <- old(nodes) :: old(ItemOK(n)) && nodes[n] == old(nodes)[n];
      ok := Link(item);
    }

    /** An older item gained at most the new one among its `nexts`. */
    twostate predicate Linked(n: string, new it: Item)
      requires n in old(nodes) && n in nodes
      reads this`nodes, nodes.Values, it
    {
      var x := old(nodes[n]);
      && nodes[n] == x && x.nexts == (if n in it.node.deps then old(x.nexts)[it.node.name := it] else old(x.nexts))
      && x.depsNum == old(x.depsNum) && x.retryNum == old(x.retryNum) && x.event == old(x.event) && x.starts == old(x.starts)
    }

    /** The new item itself: nothing depends on it yet. */
    lemma ItemNew(it: Item)
      requires order != [] && it.node == order[|order| - 1] && Distinct(order)
      requires it.node.name in nodes && nodes[it.node.name] == it && nodes.Keys == Names(order)
      requires it.nexts == map[] && it.node.name !in it.node.deps && forall p <- it.node.deps :: p in nodes
      requires NextsOf(order[..|order| - 1], it.node.name) == {}
      ensures ItemOK(it.node.name)
    {
      var init := order[..|order| - 1];
      assert order == init + [it.node];
      NextsMore(init, it.node);
      NewNode(init, it.node);
    }

    lemma NameIsNew(node: Node)
      requires Valid() && Distinct(order + [node])
      ensures node.name !in nodes
    {
      NewNode(order, node);
    }

    /** Nothing depends on a name that is not there. */
    lemma NothingDepends(name: string)
      requires Valid() && name !in nodes
      ensures NextsOf(order, name) == {}
    {
      assert forall n <- nodes :: ItemOK(n);
      NoNexts(order, name);
    }

    /** An older item after a new one was entered. */
    twostate lemma ItemKept(n: string, new it: Item)
      requires old(Valid()) && old(Unstarted()) && n in old(nodes) && it.node.name !in old(nodes)
      requires nodes == old(nodes)[it.node.name := it] && order == old(order) + [it.node] && Distinct(order)
      requires Linked(n, it)
      ensures n in Names(order) && ItemOK(n) && Fresh(nodes[n])
    {
      assert old(ItemOK(n)) && old(Fresh(nodes[n]));
      NextsMore(old(order), it.node);
      NewNode(old(order), it.node);
    }

    /** Enters `it` among the `nexts` of its dependencies, as far as these are there. */
    method Link(it: Item) returns (ok: bool)
      requires it.node.name in nodes && nodes[it.node.name] == it
      requires forall n <- nodes :: nodes[n].node.name == n
      modifies set n | n in nodes && n != it.node.name :: nodes[n]
      ensures ok == forall p <- it.node.deps :: p in nodes && p != it.node.name
      ensures forall n <- nodes | n != it.node.name ::
                ok ==> nodes[n].nexts == if n in it.node.deps then old(nodes[n].nexts)[it.node.name := it] else old(nodes[n].nexts)
      ensures forall n <- nodes :: nodes[n].depsNum == old(nodes[n].depsNum) && nodes[n].retryNum == old(nodes[n].retryNum)
                                   && nodes[n].event == old(nodes[n].event) && nodes[n].starts == old(nodes[n].starts)
    {
      var deps, name := it.node.deps, it.node.name;
      for i := 0 to |deps|
        invariant forall k | 0 <= k < i :: deps[k] in nodes && deps[k] != name
        invariant forall n <- nodes | n != name ::
                    nodes[n].nexts == if n in deps[..i] then old(nodes[n].nexts)[name := it] else old(nodes[n].nexts)
        invariant forall n <- nodes :: nodes[n].depsNum == old(nodes[n].depsNum) && nodes[n].retryNum == old(nodes[n].retryNum)
                                       && nodes[n].event == old(nodes[n].event) && nodes[n].starts == old(nodes[n].starts)
      {
        var parent := deps[i];
        assert parent in deps;
        if parent !in nodes || parent == name { return false; }
        nodes[parent].nexts := nodes[parent].nexts[name := it];
        assert deps[..i + 1] == deps[..i] + [parent];
      }
      assert deps[..|deps|] == deps;
      return true;
    }

    // ---------- running ----------

    ghost function Items(): map<string, ItemState> reads this`nodes, nodes.Values {
      map n | n in nodes :: nodes[n].View()
    }

    ghost function State(): Flow reads this, nodes.Values {
      Flow(pool, Items(), pending, submitted, running, finished, eventChan, closed, master, ok, lost)
    }

    ghost predicate Ready() reads this`nodes, this`order, this`lastNodeName, nodes.Values {
      Valid() && Runnable(order) && lastNodeName == Last(order)
    }

    /** `execNext`. */
    method ExecNext(name: string)
      requires Ready() && name in nodes
      modifies this`pending, this`ok, nodes.Values`depsNum
      ensures Ready() && State() == BizRun.ExecNext(order, old(State()), name)
    {
      hide Ready, Valid, Names, NextsOf, Items, BizRun.ExecNext;
      ghost var f := State();
      StateKeys();
      ghost var released := CountItems(name);
      ok := ok + {name};
      Counted(order, f, name, Items(), released);
    }

    /** The effect of `CountDown` on the items as values. */
    method CountItems(name: string) returns (ghost released: set<string>)
      requires Ready() && name in nodes
      modifies this`pending, nodes.Values`depsNum
      ensures Ready() && Items().Keys == old(Items()).Keys && NextsOf(order, name) <= Items().Keys
      ensures forall m <- Items() :: Items()[m] == old(Items())[m].(depsNum := old(Items())[m].depsNum - if m in NextsOf(order, name) then 1 else 0)
      ensures forall m :: m in released <==> m in NextsOf(order, name) && old(Items())[m].depsNum - 1 <= 0
      ensures pending == old(pending) + multiset(released)
    {
      hide Ready, Valid, Names, NextsOf;
      NextsAre(name);
      released := CountDown(nodes[name]);
      SameItems();
    }

    lemma NextsAre(name: string)
      requires Ready() && name in nodes
      ensures nodes[name].nexts.Keys == NextsOf(order, name) <= nodes.Keys && Names(order) == nodes.Keys
      ensures forall m <- nodes :: nodes[m].node.name == m
      ensures forall m <- nodes[name].nexts :: m in nodes && nodes[name].nexts[m] == nodes[m]
    {
      assert ItemOK(name) && forall m <- nodes :: ItemOK(m);
    }

    /** The items, their nodes and their `nexts` are as before. */
    twostate predicate Unlinked() reads this`nodes, this`order, this`lastNodeName, nodes.Values {
      && nodes == old(nodes) && order == old(order) && lastNodeName == old(lastNodeName)
      && forall m <- nodes :: nodes[m].nexts == old(nodes[m].nexts)
    }

    twostate lemma SameItems()
      requires old(Ready()) && Unlinked()
      ensures Ready()
    {
      forall m <- nodes ensures ItemOK(m) { assert old(ItemOK(m)); }
    }

    /** Takes one off the counter of each item in `nexts` and submits those that come to zero. */
    method CountDown(it: Item) returns (ghost released: set<string>)
      requires (forall m <- nodes :: nodes[m].node.name == m) && forall m <- it.nexts :: m in nodes && it.nexts[m] == nodes[m]
      modifies this`pending, nodes.Values`depsNum
      ensures forall m <- nodes :: nodes[m].depsNum == old(nodes[m].depsNum) - if m in it.nexts then 1 else 0
      ensures forall m :: m in released <==> m in it.nexts && old(nodes[m].depsNum) - 1 <= 0
      ensures pending == old(pending) + multiset(released)
    {
      var todo := it.nexts.Keys;
      released := {};
      while todo != {}
        invariant todo <= it.nexts.Keys
        invariant forall m <- nodes :: nodes[m].depsNum == old(nodes[m].depsNum) - if m in it.nexts && m !in todo then 1 else 0
        invariant forall m :: m in released <==> m in it.nexts && m !in todo && old(nodes[m].depsNum) - 1 <= 0
        invariant pending == old(pending) + multiset(released)
      {
        var m :| m in todo;
        todo := todo - {m};
        var next := it.nexts[m];
        TakeOne(next);
        if next.depsNum <= 0 { released := released + {m}; }
      }
    }

    method TakeOne(next: Item)
      modifies this`pending, next`depsNum
      ensures next.depsNum == old(next.depsNum) - 1
      ensures pending == old(pending) + if next.depsNum <= 0 then multiset{next.node.name} else multiset{}
    {
      next.depsNum := next.depsNum - 1;
      if next.depsNum <= 0 { pending := pending + multiset{next.node.name}; }
    }

    method CloseChan()
      requires Ready()
      modifies this`closed, this`master
      ensures Ready() && State() == Close(old(State()))
    {
      hide Ready, Valid, Items;
      if closed { master := Panicked; } else { closed := true; }
    }

    method TryStop(name: string)
      requires Ready() && name in nodes
      modifies this`closed, this`master
      ensures Ready() && State() == BizRun.TryStop(order, old(State()), name)
    {
      hide Valid, Unlinked, Names, NextsOf;
      if lastNodeName == name { CloseChan(); }
    }

    method ReturnRun()
      requires Ready()
      modifies this`master
      ensures Ready() && State() == Return(old(State()))
    {
      hide Ready, Valid, Items;
      if master == Waiting { master := Returned; }
    }

    method Drop(name: string)
      requires Ready()
      modifies this`lost
      ensures Ready() && State() == old(State()).(lost := old(lost) + {name})
    {
      hide Ready, Valid, Items;
      lost := lost + {name};
    }

    lemma StateKeys()
      requires Ready()
      ensures order != [] && Items().Keys == Names(order) == nodes.Keys
    {}

    lemma ItemsDistinct(name: string)
      requires Ready() && name in nodes
      ensures forall m <- nodes | m != name :: nodes[m] != nodes[name]
    {
      assert forall m <- nodes :: ItemOK(m);
    }

    // Changes of one field of one item.

    method UseRetry(name: string, it: Item)
      requires Ready() && name in nodes && nodes[name] == it
      modifies it`retryNum
      ensures Ready() && name in old(Items()) && Items() == old(Items())[name := old(Items())[name].(retryNum := old(Items())[name].retryNum - 1)]
    {
      hide Ready, Valid;
      ItemsDistinct(name);
      it.retryNum := it.retryNum - 1;
      SameItems();
    }

    ghost method CountStart(name: string, it: Item)
      requires Ready() && name in nodes && nodes[name] == it
      modifies it`starts
      ensures Ready() && name in old(Items())
      ensures State() == old(State()).(items := old(Items())[name := old(Items())[name].(starts := old(Items())[name].starts + 1)])
    {
      hide Ready, Valid;
      ItemsDistinct(name);
      it.starts := it.starts + 1;
      SameItems();
      assert Items() == old(Items())[name := old(Items())[name].(starts := old(Items())[name].starts + 1)];
    }

    method SetItemEvent(name: string, it: Item, outcome: Outcome)
      requires Ready() && name in nodes && nodes[name] == it
      modifies it`event
      ensures Ready() && name in old(Items())
      ensures State() == old(State()).(items := old(Items())[name := old(Items())[name].(event := EventAfter(old(Items())[name].event, outcome))])
    {
      hide Ready, Valid;
      ItemsDistinct(name);
      it.Set(outcome);
      SameItems();
      assert Items() == old(Items())[name := old(Items())[name].(event := EventAfter(old(Items())[name].event, outcome))];
    }

    /** Submits a node again, at the cost of one retry. */
    method Retry(name: string, it: Item)
      requires Ready() && name in nodes && nodes[name] == it
      modifies this`pending, it`retryNum
      ensures Ready() && name in old(Items())
      ensures State() == old(State()).(items := old(Items())[name := old(Items())[name].(retryNum := old(Items())[name].retryNum - 1)],
                                       pending := old(pending) + multiset{name})
    {
      hide Ready, Valid, Items;
      UseRetry(name, it);
      pending := pending + multiset{name};
    }

    /** The body of the master's loop, for the event of node `name`. */
    method HandleEvent(name: string)
      requires Ready() && name in nodes && master == Waiting
      modifies this`pending, this`ok, this`closed, this`master, this`lost, nodes.Values`depsNum, nodes.Values`retryNum
      ensures Ready() && Names(order) <= old(Items()).Keys && State() == Handle(order, old(State()), name)
    {
      hide NextsOf, BizRun.ExecNext, ItemOK, Distinct, Topological;
      var it := nodes[name];
      match it.event
      case ExecOK =>
        ExecNext(name);
        TryStop(name);
      case Retryable =>
        if it.retryNum > 0 { Retry(name, it); } else { Drop(name); }
      case NonRetryable =>
        Drop(name);
        TryStop(name);
        ReturnRun();
      case Abort =>
        Drop(name);
        CloseChan();
        ReturnRun();
      case NoEvent =>
        Drop(name);
    }

    /** The master takes an event off the channel. */
    method Receive()
      requires Ready() && Idle(State()) && eventChan != []
      modifies this`eventChan, this`master
      ensures Ready() && Next(order, old(State()), Step.Receive, State())
    {
      hide Ready, Items;
      StateKeys();
      master := Holding(eventChan[0]);
      eventChan := eventChan[1..];
    }

    /** The master handles the event it holds. */
    method HandleHeld()
      requires Ready() && master.Holding? && master.name in nodes
      modifies this`pending, this`ok, this`closed, this`master, this`lost, nodes.Values`depsNum, nodes.Values`retryNum
      ensures Ready() && Next(order, old(State()), Step.HandleEvent, State())
    {
      hide Ready, Valid, Names, Handle, Items, Next;
      StateKeys();
      ghost var f := State();
      var name := master.name;
      master := Waiting;
      HandleEvent(name);
      Handled(order, f);
    }

    /** The range loop ends: the channel is closed and empty. */
    method EndRun()
      requires Ready() && Idle(State()) && closed && eventChan == []
      modifies this`master
      ensures Ready() && Next(order, old(State()), Done, State())
    {
      hide Ready, Items;
      StateKeys();
      master := Returned;
    }

    /** A worker is free, and the pool takes a task the master hands it. */
    ghost method SubmitTask(name: string)
      requires Ready() && name in pending && Busy(State()) < pool.workers
      modifies this`pending, this`submitted
      ensures Ready() && Next(order, old(State()), Submit(name), State())
    {
      hide Ready, Items;
      StateKeys();
      pending := pending - multiset{name};
      submitted := submitted + multiset{name};
    }

    // ---------- workers ----------

    /** A worker takes a task and looks whether the channel is closed; the answer is true when it goes on to run the node. */
    method BeginWork(name: string, it: Item) returns (runs: bool)
      requires Ready() && name in nodes && nodes[name] == it && name in submitted
      modifies this`submitted, this`running, this`lost, it`starts
      ensures Ready() && runs == !closed && name in old(Items()) && State() == Begun(old(State()), name)
    {
      hide Ready, Valid, Names, Items, State, Begun;
      StateKeys();
      if closed { DropTask(name); } else { StartTask(name, it); }
      return !closed;
    }

    method DropTask(name: string)
      requires Ready() && name in nodes && closed
      modifies this`submitted, this`lost
      ensures Ready() && name in old(Items()) && State() == Begun(old(State()), name)
    {
      hide Ready, Valid, Names, Items;
      StateKeys();
      submitted := submitted - multiset{name};
      lost := lost + {name};
    }

    method StartTask(name: string, it: Item)
      requires Ready() && name in nodes && nodes[name] == it && !closed
      modifies this`submitted, this`running, it`starts
      ensures Ready() && name in old(Items()) && State() == Begun(old(State()), name)
    {
      hide Ready, Items;
      CountStart(name, it);
      Move(name);
    }

    /** A task is running. */
    ghost method Move(name: string)
      requires Ready()
      modifies this`submitted, this`running
      ensures Ready() && State() == old(State()).(submitted := old(submitted) - multiset{name}, running := old(running) + multiset{name})
    {
      hide Ready, Items;
      submitted := submitted - multiset{name};
      running := running + multiset{name};
    }

    /** The node has run. */
    method SetEvent(name: string, it: Item, outcome: Outcome)
      requires Ready() && name in nodes && nodes[name] == it && name in running
      modifies this`running, this`finished, it`event
      ensures Ready() && name in old(Items()) && State() == Finished(old(State()), name, outcome)
    {
      hide Ready, Items;
      SetItemEvent(name, it, outcome);
      MoveDone(name);
    }

    /** A task has an event to send. */
    ghost method MoveDone(name: string)
      requires Ready()
      modifies this`running, this`finished
      ensures Ready() && State() == old(State()).(running := old(running) - multiset{name}, finished := old(finished) + multiset{name})
    {
      hide Ready, Items;
      running := running - multiset{name};
      finished := finished + multiset{name};
    }

    /** The event is sent: dropped when the channel is closed, and without room in it handed to the waiting master. */
    method SendEvent(name: string)
      requires Ready() && name in nodes && name in finished && CanSend(State())
      modifies this`finished, this`eventChan, this`master, this`lost
      ensures Ready() && State() == Sent(old(State()), name)
    {
      hide Ready, Items;
      TakeFinished(name);
      if closed { lost := lost + {name}; } else { PassEvent(name); }
    }

    ghost method TakeFinished(name: string)
      requires Ready()
      modifies this`finished
      ensures Ready() && State() == old(State()).(finished := old(finished) - multiset{name})
    {
      hide Ready, Items;
      finished := finished - multiset{name};
    }

    method PassEvent(name: string)
      requires Ready()
      modifies this`eventChan, this`master
      ensures Ready()
      ensures State() == if pool.capacity == 0 then old(State()).(master := Holding(name)) else old(State()).(channel := old(eventChan) + [name])
    {
      hide Ready, Items;
      if pool.capacity == 0 { master := Holding(name); } else { eventChan := eventChan + [name]; }
    }

    /**
      What `Run` does first: an error when no first node is remembered, a direct call when the first node is the last one, and
      otherwise the first node's task.
     */
    method StartRun() returns (r: Start)
      requires Valid() && Unstarted() && NotRun() && Build(order) == Built(View())
      modifies this`pending
      ensures r == NotCreated <==> forall n <- order | n.deps == [] :: n.name == ""
      ensures r.Direct? <==> order != [] && order[|order| - 1].deps == [] && order[|order| - 1].name != ""
      ensures r.Direct? ==> r.node == order[|order| - 1]
      ensures pending == if r.Submitted? then multiset{r.name} else multiset{}
      ensures r.Submitted? ==> exists n <- order :: n.name == r.name && n.deps == [] && n.name != Last(order)
      ensures Runnable(order) ==> r == Submitted(order[0].name) && Ready() && State() == Init(order, pool)
    {
      hide Valid, Unstarted, Build, Items, Distinct, Topological;
      FirstCases();
      if Runnable(order) { RunnableStart(); }
      if |firstNodeName| == 0 { return NotCreated; }
      if firstNodeName == lastNodeName { return Direct(nodes[firstNodeName].node); }
      pending := pending + multiset{firstNodeName};
      r := Submitted(firstNodeName);
      if Runnable(order) { StartState(); }
    }

    /** The two names that `Run` looks at, by the nodes of the graph. */
    lemma FirstCases()
      requires Valid() && Build(order) == Built(View())
      ensures firstNodeName == "" <==> forall n <- order | n.deps == [] :: n.name == ""
      ensures firstNodeName != "" ==> firstNodeName in nodes && NamedFirst(nodes[firstNodeName].node)
      ensures firstNodeName != "" ==> order != [] && lastNodeName == Last(order)
      ensures order != [] && order[|order| - 1].deps == [] && order[|order| - 1].name != "" ==> firstNodeName == Last(order)
      ensures firstNodeName in nodes && firstNodeName == lastNodeName != "" ==> nodes[firstNodeName].node == order[|order| - 1]
    {
      BuildExact(order);
      FirstNameEmpty(order);
      hide Ordered, OneSource, Build, NextsOf, DepsOf;
      assert forall n <- order :: exists i :: 0 <= i < |order| && order[i] == n;
      assert forall i | 0 <= i < |order| :: order[i] in order;
      if firstNodeName != "" {
        var i := FirstNameOf(order);
        assert ItemOK(order[i].name);
        PositionOf(order, i);
      }
    }

    ghost predicate NamedFirst(n: Node) reads this`order, this`firstNodeName {
      n in order && n.name == firstNodeName && n.deps == []
    }

    lemma RunnableStart()
      requires Valid() && Build(order) == Built(View()) && Runnable(order)
      ensures Ready() && firstNodeName == order[0].name && firstNodeName != lastNodeName && firstNodeName != ""
    {
      TopologicalBuilds(order);
    }

    lemma StartState()
      requires Ready() && Unstarted()
      ensures order != [] && Init(order, pool).(pending := multiset{}) ==
              Flow(pool, Items(), multiset{}, multiset{}, multiset{}, multiset{}, [], false, Waiting, {}, {})
    {
      var f := Init(order, pool);
      forall n <- nodes ensures Items()[n] == f.items[n] {
        hide Runnable, Distinct;
        assert ItemOK(n) && Fresh(nodes[n]);
      }
    }

    /** `GetNode`: the node when it has completed, and otherwise a panic. */
    method GetNode(name: string) returns (node: Node, found: bool, panics: bool)
      requires Valid()
      ensures found == (name in Names(order)) && (panics <==> found && nodes[name].event != ExecOK)
      ensures found && !panics ==> node == order[Position(order, name)]
    {
      node, found, panics := Node("", [], 0), name in nodes, false;
      if found {
        assert ItemOK(name);
        node := nodes[name].node;
        panics := nodes[name].event != ExecOK;
      }
    }
  }

  /** Builds the graph of a list of nodes; the answer is false when some `AddNode` panics. */
  method BuildGraph(ns: seq<Node>, pool: Pool) returns (g: Graph, ok: bool)
    requires Distinct(ns)
    ensures fresh(g) && ok == Build(ns).Built?
    ensures ok ==> g.Valid() && g.Unstarted() && g.NotRun() && g.pool == pool && g.order == ns && Build(ns) == Built(g.View())
  {
    hide Distinct, Build, BizGraph.AddNode, Graph.Valid, Graph.Unstarted;
    EmptyBuild();
    assert ns[..0] == [];
    g := new Graph(pool);
    ok := true;
    for i := 0 to |ns|
      invariant ok && g.Valid() && g.Unstarted() && g.NotRun() && g.pool == pool && g.order == ns[..i] && Build(ns[..i]) == Built(g.View())
      invariant fresh(g) && forall n <- g.nodes :: fresh(g.nodes[n])
    {
      DistinctPart(ns, i);
      BuildMore(g.View(), ns[i]);
      ok := g.AddNode(ns[i]);
      if !ok {
        BuildStops(ns, i);
        return;
      }
    }
    assert ns[..|ns|] == ns;
  }

  /** Builds a graph and starts it: what `AddNode` builds is what `Run` starts from. */
  method StartGraph(ns: seq<Node>, pool: Pool) returns (g: Graph)
    requires Runnable(ns)
    ensures g.Ready() && g.order == ns && g.State() == Init(ns, pool) && Reachable(ns, [g.State()], [])
  {
    var ok, r;
    TopologicalBuilds(ns);
    g, ok := BuildGraph(ns, pool);
    r := g.StartRun();
  }

  lemma EmptyBuild()
    ensures Build([]) == Built(Dag([], "", ""))
  {}

  lemma DistinctPart(ns: seq<Node>, i: nat)
    requires Distinct(ns) && i < |ns|
    ensures ns[..i] + [ns[i]] == ns[..i + 1] && Distinct(ns[..i + 1])
  {
    var part := ns[..i + 1];
    assert forall n <- part :: n in ns;
  }

  /** After a panic nothing more is built. */
  lemma {:induction false} BuildStops(ns: seq<Node>, i: nat)
    requires i < |ns| && Build(ns[..i + 1]).Panic?
    ensures Build(ns).Panic?
    decreases |ns|
  {
    if i + 1 < |ns| {
      assert ns[..|ns| - 1][..i + 1] == ns[..i + 1];
      BuildStops(ns[..|ns| - 1], i);
    } else {
      assert ns[..i + 1] == ns;
    }
  }

  lemma Handled(ns: seq<Node>, f: Flow)
    requires ns != [] && f.master.Holding? && Names(ns) <= f.items.Keys && f.master.name in f.items
    ensures Next(ns, f, Step.HandleEvent, Handle(ns, f.(master := Waiting), f.master.name))
  {}

  lemma Counted(ns: seq<Node>, f: Flow, n: string, items: map<string, ItemState>, released: set<string>)
    requires Names(ns) <= f.items.Keys && items.Keys == f.items.Keys
    requires forall m <- items :: items[m] == f.items[m].(depsNum := f.items[m].depsNum - if m in NextsOf(ns, n) then 1 else 0)
    requires forall m :: m in released <==> m in NextsOf(ns, n) && f.items[m].depsNum - 1 <= 0
    ensures ExecNext(ns, f, n) == f.(items := items, pending := f.pending + multiset(released), ok := f.ok + {n})
  {
    assert Released(ns, f, n) == released;
  }

  lemma NewNode(ns: seq<Node>, node: Node)
    requires Distinct(ns + [node])
    ensures node.name !in Names(ns) && (ns + [node])[|ns|] == node
    ensures forall n <- Names(ns) :: Position(ns, n) < |ns| && ns[Position(ns, n)] == (ns + [node])[Position(ns, n)]
  {
    NewName(ns + [node]);
    assert (ns + [node])[..|ns|] == ns;
  }

  lemma BuildMore(d: Dag, node: Node)
    requires Build(d.nodes) == Built(d)
    ensures Build(d.nodes + [node]) == BizGraph.AddNode(d, node)
    ensures BizGraph.AddNode(d, node).Built? ==> BizGraph.AddNode(d, node).dag.nodes == d.nodes + [node]
  {
    assert (d.nodes + [node])[..|d.nodes|] == d.nodes;
  }

  lemma NoNexts(ns: seq<Node>, name: string)
    requires name !in Names(ns) && forall n <- Names(ns) :: DepsOf(ns, n) <= Names(ns)
    ensures NextsOf(ns, name) == {}
  {}

  /** A new node is a dependent of its dependencies and of no other node. */
  lemma NextsMore(ns: seq<Node>, node: Node)
    requires Distinct(ns + [node])
    ensures Distinct(ns) && Names(ns + [node]) == Names(ns) + {node.name}
    ensures forall n <- Names(ns) :: Position(ns + [node], n) == Position(ns, n)
    ensures Position(ns + [node], node.name) == |ns|
    ensures DepsOf(ns + [node], node.name) == (set d <- node.deps)
    ensures forall n <- Names(ns) :: DepsOf(ns + [node], n) == DepsOf(ns, n)
    ensures forall n :: NextsOf(ns + [node], n) == NextsOf(ns, n) + if n in node.deps then {node.name} else {}
  {
    var more := ns + [node];
    assert (forall n <- ns :: n in more) && forall i | 0 <= i < |ns| :: more[i] == ns[i];
    forall n <- Names(ns) ensures n in Names(more) && Position(more, n) == Position(ns, n) {
      var i := Position(ns, n);
      assert more[i] == ns[i];
      PositionOf(more, i);
    }
    assert more[|ns|] == node;
    PositionOf(more, |ns|);
    forall n ensures NextsOf(more, n) == NextsOf(ns, n) + if n in node.deps then {node.name} else {} {
      forall m ensures m in NextsOf(more, n) <==> m in NextsOf(ns, n) || (n in node.deps && m == node.name) {
        if m in Names(ns) { assert DepsOf(more, m) == DepsOf(ns, m); }
      }
    }
  }
}
