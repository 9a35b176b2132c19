/**
  Upstream messages end to end: the SDK's counter, a channel that loses, duplicates and reorders, and the server's
  compare-and-increment (common/sdk/api.go, state/server.go, state/cache.go, common/cache/lua.go).
 */
module UpProtocol {
  import opened Wrappers
  import opened StateSpec
  import opened StateInvariant

  // ---------- the client ----------

  /** A chat: `link` is the connection the gateway gave its socket, `ids` its `MsgClientIDTable`. */
  datatype Client = Client(session: string, link: nat, ids: map<string, nat>)

  datatype Packet = Packet(link: nat, session: string, clientID: nat, body: Body)

  /** Client ids are 64 bits wide. */
  const WIDTH: nat := 0x1_0000_0000_0000_0000

  function NextID(c: Client): nat {
    if c.session in c.ids then c.ids[c.session] else 0
  }

  function AfterSend(c: Client): Client {
    c.(ids := c.ids[c.session := (NextID(c) + 1) % WIDTH])
  }

  function SentPacket(c: Client, body: Body): Packet {
    Packet(c.link, c.session, NextID(c), body)
  }

  function ReConnected(c: Client, link: nat): Client {
    Client(c.session, link, map[])
  }

  class Chat {
    const session: string
    var link: nat
    var ids: map<string, nat>

    ghost function View(): Client reads this {
      Client(session, link, ids)
    }

    constructor (session: string, link: nat)
      ensures View() == Client(session, link, map[])
    {
      this.session, this.link, ids := session, link, map[];
    }

    method GetClientID() returns (id: nat)
      modifies this`ids
      ensures id == NextID(old(View())) && View() == AfterSend(old(View()))
    {
      id := 0;
      if session in ids { id := ids[session]; }
      ids := ids[session := (id + 1) % WIDTH];
    }

    method Send(body: Body) returns (p: Packet)
      modifies this`ids
      ensures p == SentPacket(old(View()), body) && View() == AfterSend(old(View()))
    {
      var id := GetClientID();
      p := Packet(link, session, id, body);
    }

    method ReConn(newLink: nat)
      modifies this
      ensures View() == ReConnected(old(View()), newLink)
    {
      ids := map[];
      link := newLink;
    }
  }

  // ---------- the whole system ----------

  /** `channel` holds every packet ever sent: each may be delivered never, once or often, in any order. */
  datatype System = System(
    server: State,
    clients: map<nat, Client>,
    used: set<nat>,                          // connection ids given out so far
    channel: set<Packet>,
    log: map<(nat, string), seq<Body>>)      // bodies sent, per connection and session

  datatype Act =
    | Connect(who: nat, session: string, link: nat)
    | Send(who: nat, body: Body)
    | ReConnect(who: nat, link: nat)
    | Server(step: Step)

  function LogOf(y: System, key: (nat, string)): seq<Body> {
    if key in y.log then y.log[key] else []
  }

  /** The packets the server may handle are those in the channel; connection ids are never reused. */
  ghost predicate SysNext(y: System, a: Act, y': System) {
    match a
    case Connect(who, session, link) =>
      && who !in y.clients && link !in y.used
      && y' == y.(clients := y.clients[who := Client(session, link, map[])], used := y.used + {link})
    case Send(who, body) =>
      && who in y.clients
      && var c := y.clients[who];
      var key := (c.link, c.session);
      y' == y.(clients := y.clients[who := AfterSend(c)], channel := y.channel + {SentPacket(c, body)},
               log := y.log[key := LogOf(y, key) + [body]])
    case ReConnect(who, link) =>
      && who in y.clients && link !in y.used
      && y' == y.(clients := y.clients[who := ReConnected(y.clients[who], link)], used := y.used + {link})
    case Server(st) =>
      && Next(y.server, st, y'.server) && FreshLogin(y.server, st)
      && (st.DoUp? ==> Packet(st.connID, st.session, st.clientID, st.body) in y.channel)
      && y' == y.(server := y'.server)
  }

  /** A client's next id is the number of bodies it has sent on its connection, and no two clients share one. */
  ghost predicate ClientsOK(y: System) {
    && (forall w <- y.clients :: y.clients[w].link in y.used)
    && (forall w <- y.clients :: NextID(y.clients[w]) == |LogOf(y, (y.clients[w].link, y.clients[w].session))| % WIDTH)
    && (forall v, w | v in y.clients && w in y.clients && v != w :: y.clients[v].link != y.clients[w].link)
    && (forall key <- y.log :: key.0 in y.used)
  }

  /** A packet carries some body of the log with that body's position, cut to 64 bits. */
  ghost predicate Genuine(y: System, p: Packet) {
    exists i | 0 <= i < |LogOf(y, (p.link, p.session))| ::
      p.clientID == i % WIDTH && p.body == LogOf(y, (p.link, p.session))[i]
  }

  ghost predicate IsPrefix(x: seq<Body>, y: seq<Body>) {
    |x| <= |y| && forall i | 0 <= i < |x| :: x[i] == y[i]
  }

  ghost predicate Prefixed(y: System, key: (nat, string)) {
    |LogOf(y, key)| <= WIDTH ==> IsPrefix(AcceptedFor(y.server, key), LogOf(y, key))
  }

  ghost predicate SysInv(y: System) {
    && Inv(y.server) && ClientsOK(y)
    && (forall p <- y.channel :: Genuine(y, p))
    && (forall key :: Prefixed(y, key))
  }

  // ---------- what one server step accepts ----------

  /** The script accepts a message exactly when its id is the number of messages accepted before it. */
  lemma AcceptExact(s: State, c: nat, session: string, id: nat)
    requires Inv(s)
    ensures LuaCompare(s.redis, (c, session), id).Accept? <==> id == |AcceptedFor(s, (c, session))| < 0x7fff_ffff_ffff_ffff
  {
    assert CounterOf(s.redis, (c, session)) == |AcceptedFor(s, (c, session))|;
  }

  /** The step closes the live connection `c`, which clears its counters. */
  predicate Clears(s: State, st: Step, c: nat) {
    c in s.table && Leaves(st, c)
  }

  predicate Accepts(s: State, st: Step, key: (nat, string)) {
    st.DoUp? && (st.connID, st.session) == key && LuaCompare(s.redis, key, st.clientID).Accept?
  }

  lemma PanicKeepsAccepted(s: State, st: Step, s': State)
    requires Next(s, st, s') && st.DoUp? && UpPanics(s, st.connID, st.session, st.clientID)
    ensures s'.accepted == UpCounted(s, st.connID, st.session, st.clientID, st.body).accepted
  {
    var s1 := UpPanicked(s, st.connID, st.session, st.clientID, st.body);
    var order :| Lists(s1, order) && s' == Restart(s1, order);
    ReLoginAccepted(Crashed(s1), order);
  }

  lemma {:induction false} ReLoginAccepted(s: State, ms: seq<Member>)
    ensures ReLoginAll(s, ms).accepted == s.accepted
    decreases |ms|
  {
    if ms != [] { ReLoginAccepted(s, ms[..|ms| - 1]); }
  }

  lemma UpAccepted(s: State, st: Step, s': State, key: (nat, string))
    requires Next(s, st, s') && st.DoUp?
    ensures AcceptedFor(s', key) == AcceptedFor(s, key) + if Accepts(s, st, key) then [st.body] else []
  {
    if UpPanics(s, st.connID, st.session, st.clientID) { PanicKeepsAccepted(s, st, s'); }
  }

  /** Which connection a step may log out. */
  function Leaver(st: Step): Option<nat> {
    match st
    case DoCancel(c) => Some(c)
    case DoReConn(c, _) => Some(c)
    case ReConnFires(Live(c)) => Some(c)
    case _ => None
  }

  lemma AcceptedMap(s: State, st: Step, s': State)
    requires DetachedOK(s) && Next(s, st, s') && !st.DoUp?
    ensures s'.accepted == if Leaver(st).Some? && Leaver(st).value in s.table then WithoutConn(s.accepted, Leaver(st).value) else s.accepted
  {
    match st
    case CrashAndRecover(order) => ReLoginAccepted(Crashed(s), order);
    case _ =>
  }

  lemma OtherAccepted(s: State, st: Step, s': State, key: (nat, string))
    requires Inv(s) && Next(s, st, s') && FreshLogin(s, st) && !st.DoUp?
    ensures AcceptedFor(s', key) == if Clears(s, st, key.0) then [] else AcceptedFor(s, key)
  {
    AcceptedMap(s, st, s');
  }

  /** What a step does to the record of accepted bodies: extend by one, clear, or nothing. */
  lemma AcceptedExactly(s: State, st: Step, s': State, key: (nat, string))
    requires Inv(s) && Next(s, st, s') && FreshLogin(s, st)
    ensures Accepts(s, st, key) ==> st.clientID == |AcceptedFor(s, key)| && AcceptedFor(s', key) == AcceptedFor(s, key) + [st.body]
    ensures Clears(s, st, key.0) ==> AcceptedFor(s', key) == []
    ensures !Accepts(s, st, key) && !Clears(s, st, key.0) ==> AcceptedFor(s', key) == AcceptedFor(s, key)
  {
    if st.DoUp? {
      AcceptExact(s, st.connID, st.session, st.clientID);
      UpAccepted(s, st, s', key);
    } else {
      OtherAccepted(s, st, s', key);
    }
  }

  /** Only live connections have accepted anything since their counters were cleared. */
  ghost predicate OnlyLive(s: State) {
    forall key: (nat, string) :: AcceptedFor(s, key) != [] ==> key.0 in s.table
  }

  /** Exactly when a step keeps that: it must not accept a message of a connection that is not live. */
  lemma OnlyLiveExact(s: State, st: Step, s': State)
    requires Inv(s) && Next(s, st, s') && FreshLogin(s, st) && OnlyLive(s)
    ensures OnlyLive(s') <==> !(st.DoUp? && Accepts(s, st, (st.connID, st.session)) && st.connID !in s.table)
  {
    StaysInTable(s, st, s');
    forall key: (nat, string) | AcceptedFor(s', key) != []
      ensures key.0 in s'.table || (Accepts(s, st, key) && key.0 !in s.table)
    {
      AcceptedExactly(s, st, s', key);
    }
    if st.DoUp? {
      AcceptedExactly(s, st, s', (st.connID, st.session));
    }
  }

  /** A connection leaves the table only by being closed, and an upstream message adds none. */
  lemma StaysInTable(s: State, st: Step, s': State)
    requires Inv(s) && Next(s, st, s') && FreshLogin(s, st)
    ensures forall c <- s.table :: !Leaves(st, c) ==> c in s'.table
    ensures st.DoUp? ==> s'.table.Keys == s.table.Keys
  {
    if Restarts(s, st) {
      RestartStep(s, st, s');
    } else {
      forall c <- s.table | !Leaves(st, c) ensures c in s'.table { ConnStep(s, st, s', c); }
    }
  }

  /** Hence, when upstream messages are handled for live connections only, every new connection counts from zero. */
  lemma {:induction false} CountsFromZero(ss: seq<State>, steps: seq<Step>, c: nat, session: string)
    requires Run(ss, steps) && c !in ss[|steps|].table
    requires forall i | 0 <= i < |steps| && steps[i].DoUp? :: steps[i].connID in ss[i].table
    ensures CounterOf(ss[|steps|].redis, (c, session)) == 0
  {
    OnlyLiveRun(ss, steps);
    RunInv(ss, steps);
    assert CounterOf(ss[|steps|].redis, (c, session)) == |AcceptedFor(ss[|steps|], (c, session))|;
  }

  lemma {:induction false} OnlyLiveRun(ss: seq<State>, steps: seq<Step>)
    requires Run(ss, steps)
    requires forall i | 0 <= i < |steps| && steps[i].DoUp? :: steps[i].connID in ss[i].table
    ensures OnlyLive(ss[|steps|])
    decreases |steps|
  {
    if steps != [] {
      var n := |steps| - 1;
      var before, first := ss[..n + 1], steps[..n];
      assert before[n] == ss[n];
      OnlyLiveRun(before, first);
      RunInv(ss, steps);
      OnlyLiveExact(ss[n], steps[n], ss[n + 1]);
    }
  }

  // ---------- every run ----------

  lemma SendInv(y: System, who: nat, body: Body, y': System)
    requires SysInv(y) && SysNext(y, Send(who, body), y')
    ensures SysInv(y')
  {
    SendClients(y, who, body, y');
    forall p <- y'.channel ensures Genuine(y', p) {
      assert p != SentPacket(y.clients[who], body) ==> Genuine(y, p);
      SendGenuine(y, who, body, y', p);
    }
    forall key ensures Prefixed(y', key) { assert Prefixed(y, key); }
  }

  lemma SendClients(y: System, who: nat, body: Body, y': System)
    requires ClientsOK(y) && SysNext(y, Send(who, body), y')
    ensures ClientsOK(y')
  {
    SendShape(y, who, body, y');
    hide SysNext, LogOf;
    Successor(|LogOf(y, (y.clients[who].link, y.clients[who].session))|);
  }

  /** One more body in one log, and one id gone of one client. */
  lemma SendShape(y: System, who: nat, body: Body, y': System)
    requires SysNext(y, Send(who, body), y')
    ensures who in y.clients && y'.clients == y.clients[who := AfterSend(y.clients[who])] && y'.used == y.used
    ensures var mine := (y.clients[who].link, y.clients[who].session);
            && LogOf(y', mine) == LogOf(y, mine) + [body] && y'.log.Keys == y.log.Keys + {mine}
            && forall key | key != mine :: LogOf(y', key) == LogOf(y, key)
  {}

  lemma SendGenuine(y: System, who: nat, body: Body, y': System, p: Packet)
    requires ClientsOK(y) && SysNext(y, Send(who, body), y') && p in y'.channel
    requires p != SentPacket(y.clients[who], body) ==> Genuine(y, p)
    ensures Genuine(y', p)
  {
    var c := y.clients[who];
    var key := (p.link, p.session);
    if p == SentPacket(c, body) {
      assert LogOf(y', key)[|LogOf(y, key)|] == body;
    } else {
      var i :| 0 <= i < |LogOf(y, key)| && p.clientID == i % WIDTH && p.body == LogOf(y, key)[i];
      assert LogOf(y', key)[i] == LogOf(y, key)[i];
    }
  }

  lemma Successor(n: nat)
    ensures (n % WIDTH + 1) % WIDTH == (n + 1) % WIDTH
  {}

  lemma LinkInv(y: System, a: Act, y': System)
    requires SysInv(y) && SysNext(y, a, y') && (a.Connect? || a.ReConnect?)
    ensures SysInv(y')
  {
    LinkClients(y, a, y');
    assert forall key :: LogOf(y', key) == LogOf(y, key);
    forall p <- y'.channel ensures Genuine(y', p) { assert Genuine(y, p); }
    forall key ensures Prefixed(y', key) { assert Prefixed(y, key); }
  }

  lemma LinkClients(y: System, a: Act, y': System)
    requires ClientsOK(y) && SysNext(y, a, y') && (a.Connect? || a.ReConnect?)
    ensures ClientsOK(y')
  {
    LinkShape(y, a, y');
    hide SysNext;
    assert LogOf(y, (a.link, y'.clients[a.who].session)) == [];
  }

  /** A new socket: a client whose counters are all at zero on a link nobody had. */
  lemma LinkShape(y: System, a: Act, y': System)
    requires SysNext(y, a, y') && (a.Connect? || a.ReConnect?)
    ensures a.link !in y.used && y'.used == y.used + {a.link} && y'.log == y.log && a.who in y'.clients
    ensures y'.clients == y.clients[a.who := Client(y'.clients[a.who].session, a.link, map[])]
  {}

  lemma PrefixedStep(y: System, st: Step, y': System, key: (nat, string))
    requires SysInv(y) && SysNext(y, Server(st), y')
    ensures Prefixed(y', key)
  {
    assert Prefixed(y, key);
    AcceptedExactly(y.server, st, y'.server, key);
    if Accepts(y.server, st, key) && |LogOf(y, key)| <= WIDTH {
      var p := Packet(st.connID, st.session, st.clientID, st.body);
      assert Genuine(y, p);
      var i :| 0 <= i < |LogOf(y, key)| && p.clientID == i % WIDTH && p.body == LogOf(y, key)[i];
      assert i % WIDTH == i;
    }
  }

  lemma ServerInv(y: System, st: Step, y': System)
    requires SysInv(y) && SysNext(y, Server(st), y')
    ensures SysInv(y')
  {
    NextInv(y.server, st, y'.server);
    assert forall key :: LogOf(y', key) == LogOf(y, key);
    forall p <- y'.channel ensures Genuine(y', p) { assert Genuine(y, p); }
    forall key ensures Prefixed(y', key) { PrefixedStep(y, st, y', key); }
  }

  ghost predicate SysInit(y: System) {
    && Inv(y.server) && y.server.accepted == map[]
    && y.clients == map[] && y.used == {} && y.channel == {} && y.log == map[]
  }

  ghost predicate SysRun(ys: seq<System>, acts: seq<Act>) {
    && |ys| == |acts| + 1 && SysInit(ys[0])
    && forall i | 0 <= i < |acts| :: SysNext(ys[i], acts[i], ys[i + 1])
  }

  lemma {:induction false} SysRunInv(ys: seq<System>, acts: seq<Act>)
    requires SysRun(ys, acts)
    ensures SysInv(ys[|acts|])
    decreases |acts|
  {
    if acts != [] {
      var n := |acts| - 1;
      SysRunInv(ys[..n + 1], acts[..n]);
      match acts[n]
      case Send(who, body) => SendInv(ys[n], who, body, ys[n + 1]);
      case Server(st) => ServerInv(ys[n], st, ys[n + 1]);
      case Connect(_, _, _) => LinkInv(ys[n], acts[n], ys[n + 1]);
      case ReConnect(_, _) => LinkInv(ys[n], acts[n], ys[n + 1]);
    }
  }

  /**
    In order and exactly once: after any run, over any loss, duplication, reordering, crash or other traffic, the bodies
    accepted from a session since its counter was last cleared are the first ones sent on that connection, in order.
   */
  lemma AcceptedArePrefix(ys: seq<System>, acts: seq<Act>, key: (nat, string))
    requires SysRun(ys, acts) && |LogOf(ys[|acts|], key)| <= 0x1_0000_0000_0000_0000
    ensures var y := ys[|acts|];
            IsPrefix(AcceptedFor(y.server, key), LogOf(y, key)) && CounterOf(y.server.redis, key) == |AcceptedFor(y.server, key)|
  {
    SysRunInv(ys, acts);
    assert Prefixed(ys[|acts|], key);
  }

  // ---------- at most once in the whole run ----------

  lemma SysInvAt(ys: seq<System>, acts: seq<Act>, i: nat)
    requires SysRun(ys, acts) && i <= |acts|
    ensures SysInv(ys[i])
  {
    hide SysNext, SysInv;
    SysRunInv(ys[..i + 1], acts[..i]);
  }

  predicate AcceptsAt(ys: seq<System>, acts: seq<Act>, i: nat, key: (nat, string))
    requires |ys| == |acts| + 1 && i < |acts|
  {
    acts[i].Server? && Accepts(ys[i].server, acts[i].step, key)
  }

  /** The connection is logged out after something was accepted from the session. */
  predicate ForgetsAt(ys: seq<System>, acts: seq<Act>, i: nat, key: (nat, string))
    requires |ys| == |acts| + 1 && i < |acts|
  {
    acts[i].Server? && Clears(ys[i].server, acts[i].step, key.0) && AcceptedFor(ys[i].server, key) != []
  }

  lemma RecordStep(ys: seq<System>, acts: seq<Act>, i: nat, key: (nat, string))
    requires SysRun(ys, acts) && i < |acts|
    ensures AcceptsAt(ys, acts, i, key) ==>
              acts[i].step.clientID == |AcceptedFor(ys[i].server, key)| && |AcceptedFor(ys[i + 1].server, key)| == acts[i].step.clientID + 1
    ensures ForgetsAt(ys, acts, i, key) ==> AcceptedFor(ys[i + 1].server, key) == []
    ensures !AcceptsAt(ys, acts, i, key) && !ForgetsAt(ys, acts, i, key) ==>
              AcceptedFor(ys[i + 1].server, key) == AcceptedFor(ys[i].server, key)
  {
    SysInvAt(ys, acts, i);
    assert SysNext(ys[i], acts[i], ys[i + 1]);
    if acts[i].Server? { AcceptedExactly(ys[i].server, acts[i].step, ys[i + 1].server, key); }
  }

  /** Unless forgotten, the record does not shrink. */
  lemma {:induction false} RecordGrows(ys: seq<System>, acts: seq<Act>, i: nat, j: nat, key: (nat, string))
    requires SysRun(ys, acts) && i <= j <= |acts| && forall k | i <= k < j :: !ForgetsAt(ys, acts, k, key)
    ensures |AcceptedFor(ys[i].server, key)| <= |AcceptedFor(ys[j].server, key)|
    decreases j - i
  {
    if i < j {
      hide SysRun;
      RecordGrows(ys, acts, i, j - 1, key);
      RecordStep(ys, acts, j - 1, key);
    }
  }

  /** A record that was empty and is so no more has begun with id 0. */
  lemma {:induction false} RecordBegins(ys: seq<System>, acts: seq<Act>, i: nat, j: nat, key: (nat, string)) returns (k: nat)
    requires SysRun(ys, acts) && i <= j <= |acts| && AcceptedFor(ys[i].server, key) == [] && AcceptedFor(ys[j].server, key) != []
    ensures i <= k < j && AcceptsAt(ys, acts, k, key) && acts[k].step.clientID == 0
    decreases j
  {
    hide SysNext;
    k := j - 1;
    RecordStep(ys, acts, k, key);
    if AcceptedFor(ys[k].server, key) != [] { k := RecordBegins(ys, acts, i, k, key); }
  }

  /**
    Exactly when no client id of a session is accepted twice in a run: nothing may be accepted from it after a logout of its
    connection that came after an acceptance.
   */
  lemma AcceptedOnceExact(ys: seq<System>, acts: seq<Act>, key: (nat, string))
    requires SysRun(ys, acts)
    ensures (forall i, j | 0 <= i < j < |acts| && AcceptsAt(ys, acts, i, key) && AcceptsAt(ys, acts, j, key) ::
               acts[i].step.clientID != acts[j].step.clientID)
       <==> (forall i, j | 0 <= i < j < |acts| && ForgetsAt(ys, acts, i, key) :: !AcceptsAt(ys, acts, j, key))
  {
    hide SysNext, ForgetsAt;
    forall i, j | 0 <= i < j < |acts| && ForgetsAt(ys, acts, i, key) && AcceptsAt(ys, acts, j, key)
      ensures exists k, l :: 0 <= k < l < |acts| && AcceptsAt(ys, acts, k, key) && AcceptsAt(ys, acts, l, key)
                             && acts[k].step.clientID == acts[l].step.clientID
    {
      var k, l := Repeats(ys, acts, i, j, key);
    }
    if forall i, j | 0 <= i < j < |acts| && ForgetsAt(ys, acts, i, key) :: !AcceptsAt(ys, acts, j, key) {
      forall i, j | 0 <= i < j < |acts| && AcceptsAt(ys, acts, i, key) && AcceptsAt(ys, acts, j, key)
        ensures acts[i].step.clientID != acts[j].step.clientID
      {
        IdsClimb(ys, acts, i, j, key);
      }
    }
  }

  lemma Repeats(ys: seq<System>, acts: seq<Act>, i: nat, j: nat, key: (nat, string)) returns (k: nat, l: nat)
    requires SysRun(ys, acts) && i < j < |acts| && ForgetsAt(ys, acts, i, key) && AcceptsAt(ys, acts, j, key)
    ensures k < l < |acts| && AcceptsAt(ys, acts, k, key) && AcceptsAt(ys, acts, l, key)
    ensures acts[k].step.clientID == acts[l].step.clientID == 0
  {
    hide SysNext, Clears;
    k := RecordBegins(ys, acts, 0, i, key);
    RecordStep(ys, acts, i, key);
    RecordStep(ys, acts, j, key);
    l := j;
    if AcceptedFor(ys[j].server, key) != [] { l := RecordBegins(ys, acts, i + 1, j, key); }
  }

  lemma IdsClimb(ys: seq<System>, acts: seq<Act>, i: nat, j: nat, key: (nat, string))
    requires SysRun(ys, acts) && i < j < |acts| && AcceptsAt(ys, acts, i, key) && AcceptsAt(ys, acts, j, key)
    requires forall k | i <= k < j :: !ForgetsAt(ys, acts, k, key)
    ensures acts[i].step.clientID < acts[j].step.clientID
  {
    hide SysRun, Accepts, ForgetsAt;
    RecordStep(ys, acts, i, key);
    RecordGrows(ys, acts, i + 1, j, key);
    RecordStep(ys, acts, j, key);
  }

  /** Whenever `c` is logged in, it has never been live before: connection ids are not reused. */
  ghost predicate LoggedInOnce(ys: seq<System>, acts: seq<Act>, c: nat)
    requires |ys| == |acts| + 1
  {
    forall i, k | 0 <= i <= k < |acts| && acts[k].Server? && LogsIn(acts[k].step, c) :: c !in ys[i].server.table
  }

  /** Upstream messages of `c` are handled while it is live only. */
  ghost predicate HandledLive(ys: seq<System>, acts: seq<Act>, c: nat)
    requires |ys| == |acts| + 1
  {
    forall k | 0 <= k < |acts| && acts[k].Server? && acts[k].step.DoUp? && acts[k].step.connID == c :: c in ys[k].server.table
  }

  /** Once logged out it is not live again. */
  lemma {:induction false} StaysGone(ys: seq<System>, acts: seq<Act>, i: nat, j: nat, c: nat)
    requires SysRun(ys, acts) && LoggedInOnce(ys, acts, c)
    requires i < j <= |acts| && acts[i].Server? && Clears(ys[i].server, acts[i].step, c)
    ensures c !in ys[j].server.table
    decreases j
  {
    hide SysInv, Inv, SysNext, LoggedInOnce, Clears;
    ServerAt(ys, acts, j - 1);
    if i < j - 1 { StaysGone(ys, acts, i, j - 1, c); }
    NoLoginAfter(ys, acts, i, j - 1, c);
    GoneStep(ys[j - 1], acts[j - 1], ys[j], c);
  }

  lemma ServerAt(ys: seq<System>, acts: seq<Act>, i: nat)
    requires SysRun(ys, acts) && i < |acts|
    ensures Inv(ys[i].server) && SysNext(ys[i], acts[i], ys[i + 1])
  {
    hide SysNext, Inv;
    SysInvAt(ys, acts, i);
  }

  lemma NoLoginAfter(ys: seq<System>, acts: seq<Act>, i: nat, k: nat, c: nat)
    requires |ys| == |acts| + 1 && LoggedInOnce(ys, acts, c)
    requires i <= k < |acts| && acts[i].Server? && Clears(ys[i].server, acts[i].step, c)
    ensures acts[k].Server? ==> !LogsIn(acts[k].step, c)
    ensures Leaves(acts[i].step, c)
  {}

  lemma GoneStep(y: System, a: Act, y': System, c: nat)
    requires Inv(y.server) && SysNext(y, a, y') && (a.Server? ==> !LogsIn(a.step, c))
    requires c !in y.server.table || (a.Server? && Leaves(a.step, c))
    ensures c !in y'.server.table
  {
    if a.Server? {
      var s, st, s' := y.server, a.step, y'.server;
      if Restarts(s, st) { RestartStep(s, st, s'); } else { NotLoggedIn(s, st, s', c); }
    }
  }

  /**
    Exactly once over whole runs: when upstream messages are handled for live connections only and connection ids are not
    reused, each position of a session's log is accepted at most once, in order, and with the body that was sent.
   */
  lemma AcceptedOnce(ys: seq<System>, acts: seq<Act>, i: nat, j: nat, key: (nat, string))
    requires SysRun(ys, acts) && HandledLive(ys, acts, key.0) && LoggedInOnce(ys, acts, key.0)
    requires i < j < |acts| && AcceptsAt(ys, acts, i, key) && AcceptsAt(ys, acts, j, key)
    ensures acts[i].step.clientID < acts[j].step.clientID
    ensures |LogOf(ys[j], key)| <= 0x1_0000_0000_0000_0000 ==>
              acts[j].step.clientID < |LogOf(ys[j], key)| && acts[j].step.body == LogOf(ys[j], key)[acts[j].step.clientID]
  {
    forall k | i <= k < j ensures !ForgetsAt(ys, acts, k, key) {
      if ForgetsAt(ys, acts, k, key) { StaysGone(ys, acts, k, j, key.0); }
    }
    IdsClimb(ys, acts, i, j, key);
    SysInvAt(ys, acts, j);
    assert SysNext(ys[j], acts[j], ys[j + 1]);
    var st := acts[j].step;
    assert Genuine(ys[j], Packet(st.connID, st.session, st.clientID, st.body));
  }

  /** Nothing blocks the protocol: a delivered packet is accepted exactly when it carries the first body not yet accepted. */
  lemma NextPacketAccepted(y: System, p: Packet)
    requires SysInv(y) && p in y.channel && |LogOf(y, (p.link, p.session))| <= 0x7fff_ffff_ffff_ffff
    ensures var key := (p.link, p.session);
            var n := |AcceptedFor(y.server, key)|;
            && (LuaCompare(y.server.redis, key, p.clientID).Accept? <==> p.clientID == n)
            && (p.clientID == n ==> n < |LogOf(y, key)| && p.body == LogOf(y, key)[n])
  {
    AcceptExact(y.server, p.link, p.session, p.clientID);
    assert Genuine(y, p);
  }
}
