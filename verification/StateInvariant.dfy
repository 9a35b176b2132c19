/**
  The invariant tying the server's memory to Redis, over every run of handlers, timers and crashes
  (state/state.go, state/cache.go, state/server.go).
 */
module StateInvariant {
  import opened StateSpec

  /** The login slots hold exactly (did, connID) in slot connID % n for each live connection. */
  ghost predicate SlotsOK(s: State)
    requires Sane(s)
  {
    forall k: nat, did: nat, c: nat ::
      (did, c) in SlotMembers(s.redis, k) <==> k == c % s.slotCount && c in s.table && s.table[c].did == did
  }

  /** Each route record points to a live connection of its device. */
  ghost predicate RoutesOK(s: State) {
    forall did <- s.redis.route :: s.redis.route[did] in s.table && s.table[s.redis.route[did]].did == did
  }

  /** No timer is pending for an object outside the table. */
  ghost predicate DetachedOK(s: State) {
    forall i | 0 <= i < |s.detached| ::
      s.detached[i].1.heart.Idle? && s.detached[i].1.reConn.Idle? && s.detached[i].1.msg.Idle?
  }

  /** The message timer of a live connection, its lock and its stored last message agree. */
  ghost predicate MsgOK(s: State, c: nat)
    requires c in s.table
  {
    && (HasLast(s.redis, c) ==> s.table[c].msg.Armed?)
    && (s.table[c].msg.Armed? ==>
          && c in s.redis.lastMsg && s.table[c].lock == LockOf(s.redis.lastMsg[c])
          && s.table[c].msg.deadline <= s.now + RETRY)
  }

  ghost predicate LiveOK(s: State, c: nat)
    requires c in s.table
  {
    MsgOK(s, c) && (s.table[c].heart.Armed? || s.table[c].reConn.Armed?)
  }

  /** Last messages are stored for live connections only. */
  ghost predicate LastOK(s: State) {
    forall c <- s.redis.lastMsg :: c in s.table
  }

  /** Each counter is the number of bodies accepted since it was cleared. */
  ghost predicate CountersOK(s: State) {
    forall key: (nat, string) :: CounterOf(s.redis, key) == |AcceptedFor(s, key)|
  }

  ghost predicate Inv(s: State) {
    && Sane(s) && SlotsOK(s) && RoutesOK(s) && DetachedOK(s) && LastOK(s) && CountersOK(s)
    && forall c <- s.table :: LiveOK(s, c)
  }

  // ---------- steps ----------

  datatype Step =
    | DoLogin(did: nat, connID: nat)
    | DoHeartbeat(connID: nat)
    | DoReConn(oldID: nat, newID: nat)
    | DoUp(connID: nat, session: string, clientID: nat, body: Body)
    | DoAppend(connID: nat, msg: PushMsg)
    | DoAck(connID: nat, sessionID: nat, msgID: nat)
    | DoCancel(connID: nat)
    | HeartFires(owner: Owner)
    | ReConnFires(owner: Owner)
    | MsgFires(owner: Owner)
    | Pass(now: int)
    | CrashAndRecover(order: seq<Member>)

  /** A panicking handler leaves what it did to Redis and takes the process down; the restart is part of the step. */
  ghost predicate Next(s: State, st: Step, s': State) {
    && Sane(s)
    && match st
    case DoLogin(did, c) => s' == Reply(Login(s, did, c), LoginAck, c, 0)
    case DoHeartbeat(c) => s' == Heartbeat(s, c)
    case DoReConn(o, c) => s' == Reply(ReConn(s, o, c), ReConnAck, c, 0)
    case DoUp(c, session, id, body) =>
      if UpPanics(s, c, session, id) then
        exists order | Lists(UpPanicked(s, c, session, id, body), order) :: s' == Restart(UpPanicked(s, c, session, id, body), order)
      else s' == Up(s, c, session, id, body)
    case DoAppend(c, m) => s' == if c in s.table then Append(s, c, m) else s
    case DoAck(c, session, msg) => s' == Ack(s, c, session, msg)
    case DoCancel(c) => s' == Logout(s, c)
    case HeartFires(o) => Exists(s, o) && DueBy(ConnOf(s, o).heart, s.now) && s' == FireHeart(s, o)
    case ReConnFires(o) => Exists(s, o) && DueBy(ConnOf(s, o).reConn, s.now) && s' == FireReConn(s, o)
    case MsgFires(o) => Exists(s, o) && DueBy(ConnOf(s, o).msg, s.now) && s' == FireMsg(s, o)
    case Pass(now) => CanReach(s, now) && s' == s.(now := now)
    case CrashAndRecover(order) => Lists(s, order) && s' == Restart(s, order)
  }

  /** A login or reconnect is for a connection that is not live (its own old connection is being replaced). */
  predicate FreshLogin(s: State, st: Step) {
    && (st.DoLogin? ==> st.connID !in s.table)
    && (st.DoReConn? ==> st.newID !in s.table || st.newID == st.oldID)
  }

  // ---------- preservation ----------

  lemma LoginInv(s: State, did: nat, c: nat)
    requires Inv(s) && c !in s.table
    ensures Inv(Login(s, did, c))
  {
    var s' := Login(s, did, c);
    forall x <- s'.table ensures LiveOK(s', x) {
      if x != c { assert LiveOK(s, x); }
    }
    forall key: (nat, string) ensures CounterOf(s'.redis, key) == |AcceptedFor(s', key)| {
      assert CounterOf(s.redis, key) == |AcceptedFor(s, key)|;
    }
    LoginSlots(s, did, c);
  }

  lemma LoginSlots(s: State, did: nat, c: nat)
    requires Inv(s) && c !in s.table
    ensures SlotsOK(Login(s, did, c))
  {
    var s' := Login(s, did, c);
    forall k: nat, d: nat, x: nat
      ensures (d, x) in SlotMembers(s'.redis, k) <==> k == x % s.slotCount && x in s'.table && s'.table[x].did == d
    {
      assert (d, x) in SlotMembers(s.redis, k) <==> k == x % s.slotCount && x in s.table && s.table[x].did == d;
    }
  }

  lemma CloseInv(s: State, c: nat)
    requires Inv(s) && c in s.table
    ensures Inv(Close(s, c))
  {
    var s' := Close(s, c);
    forall x <- s'.table ensures LiveOK(s', x) { assert LiveOK(s, x); }
    forall key: (nat, string) ensures CounterOf(s'.redis, key) == |AcceptedFor(s', key)| {
      assert CounterOf(s.redis, key) == |AcceptedFor(s, key)|;
    }
    CloseSlots(s, c);
  }

  lemma CloseSlots(s: State, c: nat)
    requires Inv(s) && c in s.table
    ensures SlotsOK(Close(s, c))
  {
    var s' := Close(s, c);
    forall k: nat, did: nat, x: nat
      ensures (did, x) in SlotMembers(s'.redis, k) <==> k == x % s.slotCount && x in s'.table && s'.table[x].did == did
    {
      assert (did, x) in SlotMembers(s.redis, k) <==> k == x % s.slotCount && x in s.table && s.table[x].did == did;
    }
  }

  lemma LogoutInv(s: State, c: nat)
    requires Inv(s)
    ensures Inv(Logout(s, c)) && c !in Logout(s, c).table
  {
    if c in s.table { CloseInv(s, c); }
  }

  lemma ReplyInv(s: State, ack: AckType, c: nat, id: nat)
    requires Inv(s)
    ensures Inv(Reply(s, ack, c, id))
  {
    var s' := Reply(s, ack, c, id);
    forall x <- s'.table ensures LiveOK(s', x) { assert LiveOK(s, x); }
    forall key: (nat, string) ensures CounterOf(s'.redis, key) == |AcceptedFor(s', key)| {
      assert CounterOf(s.redis, key) == |AcceptedFor(s, key)|;
    }
    assert forall k: nat :: SlotMembers(s'.redis, k) == SlotMembers(s.redis, k);
  }

  /** A step on one live connection that keeps its device and touches no other connection. */
  ghost predicate Touches(s: State, s': State, c: nat) {
    && c in s.table && c in s'.table
    && s' == s.(redis := s.redis.(lastMsg := s'.redis.lastMsg), table := s.table[c := s'.table[c]], sent := s'.sent)
    && s'.table[c].did == s.table[c].did
    && (forall x :: x != c ==> (x in s'.redis.lastMsg <==> x in s.redis.lastMsg))
    && (forall x :: x != c && x in s.redis.lastMsg ==> s'.redis.lastMsg[x] == s.redis.lastMsg[x])
  }

  lemma TouchInv(s: State, s': State, c: nat)
    requires Inv(s) && Touches(s, s', c) && LiveOK(s', c)
    ensures Inv(s')
  {
    forall x <- s'.table ensures LiveOK(s', x) {
      assert LiveOK(s, x) || x == c;
    }
    forall k: nat, d: nat, x: nat
      ensures (d, x) in SlotMembers(s'.redis, k) <==> k == x % s.slotCount && x in s'.table && s'.table[x].did == d
    {
      assert (d, x) in SlotMembers(s.redis, k) <==> k == x % s.slotCount && x in s.table && s.table[x].did == d;
    }
    forall key: (nat, string) ensures CounterOf(s'.redis, key) == |AcceptedFor(s', key)| {
      assert CounterOf(s.redis, key) == |AcceptedFor(s, key)|;
    }
  }

  lemma HeartbeatInv(s: State, c: nat)
    requires Inv(s)
    ensures Inv(Heartbeat(s, c))
  {
    if c in s.table {
      assert LiveOK(s, c);
      TouchInv(s, Heartbeat(s, c), c);
    }
  }

  lemma AppendInv(s: State, c: nat, m: PushMsg)
    requires Inv(s) && c in s.table
    ensures Inv(Append(s, c, m))
  {
    assert LiveOK(s, c);
    TouchInv(s, Append(s, c, m), c);
  }

  lemma AckInv(s: State, c: nat, session: nat, msg: nat)
    requires Inv(s)
    ensures Inv(Ack(s, c, session, msg))
  {
    if Ack(s, c, session, msg) != s {
      assert LiveOK(s, c);
      TouchInv(s, Ack(s, c, session, msg), c);
    }
  }

  lemma FireHeartInv(s: State, c: nat)
    requires Inv(s) && c in s.table
    ensures Inv(FireHeart(s, Live(c)))
  {
    assert LiveOK(s, c);
    TouchInv(s, FireHeart(s, Live(c)), c);
  }

  lemma FireMsgInv(s: State, c: nat)
    requires Inv(s) && c in s.table && s.table[c].msg.Armed?
    ensures Inv(FireMsg(s, Live(c)))
  {
    assert LiveOK(s, c);
    TouchInv(s, FireMsg(s, Live(c)), c);
  }

  /** A reconnect timer that has just fired: everything holds except that this connection may have no timer left. */
  lemma FireReConnInv(s: State, c: nat)
    requires Inv(s) && c in s.table
    ensures Inv(FireReConn(s, Live(c)))
    ensures FireReConn(s, Live(c)) == Close(s, c)
  {
    FireReConnCloses(s, c);
    CloseInv(s, c);
  }

  lemma FireReConnCloses(s: State, c: nat)
    requires Sane(s) && c in s.table
    ensures FireReConn(s, Live(c)) == Close(s, c)
  {
    var s1 := WithConn(s, Live(c), s.table[c].(reConn := Idle));
    assert Without(s1.table, c) == Without(s.table, c);
  }

  lemma PassInv(s: State, now: int)
    requires Inv(s) && s.now <= now
    ensures Inv(s.(now := now))
  {
    var s' := s.(now := now);
    forall x <- s'.table ensures LiveOK(s', x) { assert LiveOK(s, x); }
    forall key: (nat, string) ensures CounterOf(s'.redis, key) == |AcceptedFor(s', key)| {
      assert CounterOf(s.redis, key) == |AcceptedFor(s, key)|;
    }
    assert forall k: nat :: SlotMembers(s'.redis, k) == SlotMembers(s.redis, k);
  }

  /** The counter step: a rejected message changes no count, an accepted one extends the log by one. */
  lemma CountedInv(s: State, c: nat, session: string, id: nat, body: Body)
    requires Inv(s)
    ensures Inv(UpCounted(s, c, session, id, body))
    ensures UpCounted(s, c, session, id, body).table == s.table
  {
    var s' := UpCounted(s, c, session, id, body);
    forall x <- s'.table ensures LiveOK(s', x) { assert LiveOK(s, x); }
    forall key: (nat, string) ensures CounterOf(s'.redis, key) == |AcceptedFor(s', key)| {
      assert CounterOf(s.redis, key) == |AcceptedFor(s, key)|;
    }
    assert forall k: nat :: SlotMembers(s'.redis, k) == SlotMembers(s.redis, k);
  }

  lemma SentInv(s: State, o: Out)
    requires Inv(s)
    ensures Inv(s.(sent := s.sent + [o]))
  {
    var s' := s.(sent := s.sent + [o]);
    forall x <- s'.table ensures LiveOK(s', x) { assert LiveOK(s, x); }
    forall key: (nat, string) ensures CounterOf(s'.redis, key) == |AcceptedFor(s', key)| {
      assert CounterOf(s.redis, key) == |AcceptedFor(s, key)|;
    }
    assert forall k: nat :: SlotMembers(s'.redis, k) == SlotMembers(s.redis, k);
  }

  lemma UpInv(s: State, c: nat, session: string, id: nat, body: Body)
    requires Inv(s) && !UpPanics(s, c, session, id)
    ensures Inv(Up(s, c, session, id, body))
  {
    CountedInv(s, c, session, id, body);
    var s1 := UpCounted(s, c, session, id, body);
    if LuaCompare(s.redis, (c, session), id).Accept? {
      SentInv(s1, PushOut(c, UpPush(body)));
      AppendInv(s1.(sent := s1.sent + [PushOut(c, UpPush(body))]), c, UpPush(body));
    }
  }

  // ---------- crash and recovery ----------

  /** Recovery from the durable half alone: every live connection is back with its device, and nothing else. */
  ghost predicate Restored(s: State, s': State) {
    && s' == s.(table := s'.table, detached := [])
    && s'.table.Keys == s.table.Keys
    && forall c <- s.table :: s'.table[c] == Reloaded(s.redis, s.table[c].did, c, s.now)
  }

  function IdsOf(ms: seq<Member>): set<nat> {
    set m <- ms :: m.connID
  }

  /** The entries processed so far are in the table; distinct ids displace nobody. */
  lemma {:induction false} ReLoginPrefix(s: State, ms: seq<Member>)
    requires forall i, j | 0 <= i < j < |ms| :: ms[i].connID != ms[j].connID
    ensures var r := ReLoginAll(Crashed(s), ms);
            && r == s.(table := r.table, detached := [])
            && r.table.Keys == IdsOf(ms)
            && forall m <- ms :: m.connID in r.table && r.table[m.connID] == Reloaded(s.redis, m.did, m.connID, s.now)
    decreases |ms|
  {
    if ms != [] {
      var n := |ms| - 1;
      var ms0, m := ms[..n], ms[n];
      ReLoginPrefix(s, ms0);
      IdsMore(ms);
    }
  }

  lemma IdsMore(ms: seq<Member>)
    requires ms != [] && forall i, j | 0 <= i < j < |ms| :: ms[i].connID != ms[j].connID
    ensures var n := |ms| - 1;
            && IdsOf(ms) == IdsOf(ms[..n]) + {ms[n].connID} && ms[n].connID !in IdsOf(ms[..n])
            && forall m <- ms :: m in ms[..n] || m == ms[n]
  {
    assert ms == ms[..|ms| - 1] + [ms[|ms| - 1]];
  }

  lemma MemberLive(s: State, m: Member)
    requires Inv(s)
    ensures m in Members(s) <==> m.connID in s.table && m == Member(m.connID % s.slotCount, s.table[m.connID].did, m.connID)
  {
    assert (m.did, m.connID) in SlotMembers(s.redis, m.slot) <==>
           m.slot == m.connID % s.slotCount && m.connID in s.table && s.table[m.connID].did == m.did;
    if m in Members(s) {
      var k, p :| k in s.redis.slots && k < s.slotCount && p in s.redis.slots[k] && m == Member(k, p.0, p.1);
      assert p == (m.did, m.connID);
    }
  }

  lemma RestartRestores(s: State, order: seq<Member>)
    requires Inv(s) && Lists(s, order)
    ensures Restored(s, Restart(s, order))
  {
    forall i, j | 0 <= i < j < |order| ensures order[i].connID != order[j].connID {
      assert order[i] in order && order[j] in order;
      MemberLive(s, order[i]);
      MemberLive(s, order[j]);
    }
    ReLoginPrefix(s, order);
    forall c ensures c in IdsOf(order) <==> c in s.table {
      if c in IdsOf(order) {
        var m :| m in order && m.connID == c;
        MemberLive(s, m);
      }
      if c in s.table { LiveMember(s, order, c); }
    }
    forall c <- s.table ensures Restart(s, order).table[c] == Reloaded(s.redis, s.table[c].did, c, s.now) { LiveMember(s, order, c); }
  }

  lemma LiveMember(s: State, order: seq<Member>, c: nat)
    requires Inv(s) && Lists(s, order) && c in s.table
    ensures Member(c % s.slotCount, s.table[c].did, c) in order && c in IdsOf(order)
  {
    var m := Member(c % s.slotCount, s.table[c].did, c);
    MemberLive(s, m);
    assert m in order;
  }

  lemma RestoredInv(s: State, s': State)
    requires Inv(s) && Restored(s, s')
    ensures Inv(s')
  {
    forall x <- s'.table ensures LiveOK(s', x) { assert LiveOK(s, x); }
    forall key: (nat, string) ensures CounterOf(s'.redis, key) == |AcceptedFor(s', key)| {
      assert CounterOf(s.redis, key) == |AcceptedFor(s, key)|;
    }
    forall k: nat, d: nat, x: nat
      ensures (d, x) in SlotMembers(s'.redis, k) <==> k == x % s.slotCount && x in s'.table && s'.table[x].did == d
    {
      assert (d, x) in SlotMembers(s.redis, k) <==> k == x % s.slotCount && x in s.table && s.table[x].did == d;
    }
  }

  lemma RestartInv(s: State, order: seq<Member>)
    requires Inv(s) && Lists(s, order)
    ensures Inv(Restart(s, order))
  {
    RestartRestores(s, order);
    RestoredInv(s, Restart(s, order));
  }

  // ---------- every step, every run ----------

  /** Every step keeps the invariant, given that logins are for connections that are not live. */
  lemma NextInv(s: State, st: Step, s': State)
    requires Inv(s) && Next(s, st, s') && FreshLogin(s, st)
    ensures Inv(s')
  {
    match st
    case DoLogin(did, c) => LoginInv(s, did, c); ReplyInv(Login(s, did, c), LoginAck, c, 0);
    case DoHeartbeat(c) => HeartbeatInv(s, c);
    case DoReConn(o, c) =>
      LogoutInv(s, o);
      LoginInv(Logout(s, o), LogoutDid(s, o), c);
      ReplyInv(ReConn(s, o, c), ReConnAck, c, 0);
    case DoUp(c, session, id, body) => UpNextInv(s, c, session, id, body, s');
    case DoAppend(c, m) => if c in s.table { AppendInv(s, c, m); }
    case DoAck(c, session, msg) => AckInv(s, c, session, msg);
    case DoCancel(c) => LogoutInv(s, c);
    case HeartFires(o) => FireHeartInv(s, o.connID);
    case ReConnFires(o) => FireReConnInv(s, o.connID);
    case MsgFires(o) => FireMsgInv(s, o.connID);
    case Pass(now) => PassInv(s, now);
    case CrashAndRecover(order) => RestartInv(s, order);
  }

  lemma UpNextInv(s: State, c: nat, session: string, id: nat, body: Body, s': State)
    requires Inv(s) && Next(s, DoUp(c, session, id, body), s')
    ensures Inv(s')
  {
    if UpPanics(s, c, session, id) {
      PanickedInv(s, c, session, id, body);
      UpPanicRestores(s, c, session, id, body, s');
      RestoredInv(UpPanicked(s, c, session, id, body), s');
    } else {
      UpInv(s, c, session, id, body);
    }
  }

  lemma PanickedInv(s: State, c: nat, session: string, id: nat, body: Body)
    requires Inv(s)
    ensures var s1 := UpPanicked(s, c, session, id, body);
            Inv(s1) && s1.table == s.table && s1.redis.lastMsg == s.redis.lastMsg && s1.now == s.now
  {
    CountedInv(s, c, session, id, body);
    SentInv(UpCounted(s, c, session, id, body), PushOut(c, UpPush(body)));
  }

  /** A panic in `upMsgHandler` loses neither a connection nor a stored message. */
  lemma UpPanicRestores(s: State, c: nat, session: string, id: nat, body: Body, s': State)
    requires Inv(s) && Next(s, DoUp(c, session, id, body), s') && UpPanics(s, c, session, id)
    ensures Restored(UpPanicked(s, c, session, id, body), s')
    ensures s'.table.Keys == s.table.Keys && s'.redis.lastMsg == s.redis.lastMsg
  {
    PanickedInv(s, c, session, id, body);
    var s1 := UpPanicked(s, c, session, id, body);
    var order :| Lists(s1, order) && s' == Restart(s1, order);
    RestartRestores(s1, order);
  }

  /** Exactly when a login keeps the invariant: the connection must not be live, or its old object keeps a timer. */
  lemma LoginExact(s: State, did: nat, c: nat)
    requires Inv(s)
    ensures Inv(Login(s, did, c)) <==> c !in s.table
  {
    if c in s.table {
      var s' := Login(s, did, c);
      assert LiveOK(s, c);
      assert s'.detached[|s.detached|] == (c, s.table[c]);
    } else {
      LoginInv(s, did, c);
    }
  }

  lemma ReConnExact(s: State, oldID: nat, newID: nat)
    requires Inv(s)
    ensures Inv(ReConn(s, oldID, newID)) <==> (newID !in s.table || newID == oldID)
  {
    LogoutInv(s, oldID);
    LoginExact(Logout(s, oldID), LogoutDid(s, oldID), newID);
  }

  // ---------- what a step does to one connection ----------

  /** The step logs `c` out. */
  predicate Leaves(st: Step, c: nat) {
    st == DoCancel(c) || (st.DoReConn? && st.oldID == c) || st == ReConnFires(Live(c))
  }

  /** The step kills the process, which then recovers. */
  predicate Restarts(s: State, st: Step) {
    st.CrashAndRecover? || (st.DoUp? && UpPanics(s, st.connID, st.session, st.clientID))
  }

  function ConnAfter(s: State, st: Step, c: nat): Conn
    requires c in s.table
  {
    var x := s.table[c];
    match st
    case DoHeartbeat(id) => if id == c then x.(heart := Armed(s.now + HEART)) else x
    case DoUp(id, session, n, body) =>
      if id == c && LuaCompare(s.redis, (c, session), n).Accept? then x.(msg := Armed(s.now + RETRY), lock := LockOf(UpPush(body))) else x
    case DoAppend(id, m) => if id == c then x.(msg := Armed(s.now + RETRY), lock := LockOf(m)) else x
    case DoAck(id, session, msg) => if id == c && x.lock == Ids(session, msg) then x.(msg := Idle) else x
    case HeartFires(o) => if o == Live(c) then x.(heart := Idle, reConn := Armed(s.now + RECONN)) else x
    case MsgFires(o) =>
      if o != Live(c) then x
      else if HasLast(s.redis, c) then x.(msg := Armed(s.now + RETRY), lock := LockOf(s.redis.lastMsg[c]))
      else x.(msg := Idle)
    case _ => x
  }

  /** A connection that is neither logged out nor restarted changes only by steps of its own, and these change only what they name. */
  lemma ConnStep(s: State, st: Step, s': State, c: nat)
    requires Inv(s) && Next(s, st, s') && FreshLogin(s, st) && c in s.table && !Leaves(st, c) && !Restarts(s, st)
    ensures c in s'.table && s'.table[c] == ConnAfter(s, st, c)
    ensures s'.now == if st.Pass? then st.now else s.now
  {
    if st.DoLogin? || st.DoReConn? || st.DoCancel? || st.ReConnFires? {
      SessionStep(s, st, s', c);
    } else {
      MessageStep(s, st, s', c);
    }
  }

  lemma SessionStep(s: State, st: Step, s': State, c: nat)
    requires Inv(s) && Next(s, st, s') && FreshLogin(s, st) && c in s.table && !Leaves(st, c)
    requires st.DoLogin? || st.DoReConn? || st.DoCancel? || st.ReConnFires?
    ensures c in s'.table && s'.table[c] == s.table[c] && s'.now == s.now
  {
    if st.ReConnFires? { FireReConnCloses(s, st.owner.connID); }
  }

  lemma MessageStep(s: State, st: Step, s': State, c: nat)
    requires DetachedOK(s) && Next(s, st, s') && c in s.table && !Restarts(s, st)
    requires !st.DoLogin? && !st.DoReConn? && !st.DoCancel? && !st.ReConnFires?
    ensures c in s'.table && s'.table[c] == ConnAfter(s, st, c)
    ensures s'.now == if st.Pass? then st.now else s.now
  {}

  /** A restart keeps the connections and arms their timers as a login would, and a message timer where a message is stored. */
  lemma RestartStep(s: State, st: Step, s': State)
    requires Inv(s) && Next(s, st, s') && Restarts(s, st)
    ensures s'.now == s.now && s'.table.Keys == s.table.Keys && s'.redis.lastMsg == s.redis.lastMsg
    ensures forall c <- s.table :: s'.table[c] == Reloaded(s'.redis, s.table[c].did, c, s.now)
  {
    if st.CrashAndRecover? {
      RestartRestores(s, st.order);
    } else {
      PanickedInv(s, st.connID, st.session, st.clientID, st.body);
      UpPanicRestores(s, st.connID, st.session, st.clientID, st.body, s');
    }
  }

  ghost predicate Run(ss: seq<State>, steps: seq<Step>) {
    && |ss| == |steps| + 1
    && ss[0].slotCount > 0 && ss[0] == State(ss[0].slotCount, Redis(map[], map[], map[], map[]), map[], [], ss[0].now, [], map[])
    && forall i | 0 <= i < |steps| :: Next(ss[i], steps[i], ss[i + 1]) && FreshLogin(ss[i], steps[i])
  }

  lemma {:induction false} RunInv(ss: seq<State>, steps: seq<Step>)
    requires Run(ss, steps)
    ensures forall i | 0 <= i < |ss| :: Inv(ss[i])
    decreases |steps|
  {
    if steps != [] {
      var n := |steps| - 1;
      RunInv(ss[..n + 1], steps[..n]);
      assert ss[..n + 1][n] == ss[n];
      NextInv(ss[n], steps[n], ss[n + 1]);
      forall i | 0 <= i < |ss| ensures Inv(ss[i]) { if i <= n { assert ss[..n + 1][i] == ss[i]; } }
    }
  }

  /** Crash recovery: in every reachable state the durable half alone gives back the table and re-arms exactly the stored messages. */
  lemma CrashRestoresTable(ss: seq<State>, steps: seq<Step>, order: seq<Member>)
    requires Run(ss, steps) && Lists(ss[|steps|], order)
    ensures var s := ss[|steps|];
            var s' := Restart(s, order);
            && s'.redis == s.redis && s'.table.Keys == s.table.Keys
            && forall c <- s.table ::
                 && s'.table[c].did == s.table[c].did
                 && s'.table[c].heart == Armed(s.now + 5000) && s'.table[c].reConn.Idle?
                 && (s'.table[c].msg.Armed? <==> HasLast(s.redis, c))
                 && (HasLast(s.redis, c) ==> s'.table[c].lock == s.table[c].lock == LockOf(s.redis.lastMsg[c]))
  {
    RunInv(ss, steps);
    var s := ss[|steps|];
    RestartRestores(s, order);
    forall c <- s.table ensures HasLast(s.redis, c) ==> s.table[c].lock == LockOf(s.redis.lastMsg[c]) {
      assert LiveOK(s, c);
    }
  }

  /** The order in which slot entries are processed does not matter. */
  lemma RecoveryOrderIrrelevant(s: State, order: seq<Member>, order': seq<Member>)
    requires Inv(s) && Lists(s, order) && Lists(s, order')
    ensures Restart(s, order) == Restart(s, order')
  {
    RestartRestores(s, order);
    RestartRestores(s, order');
    assert Restart(s, order).table == Restart(s, order').table;
  }

  /** The step logs `c` in. */
  predicate LogsIn(st: Step, c: nat) {
    (st.DoLogin? && st.connID == c) || (st.DoReConn? && st.newID == c)
  }

  /** While `c` is not logged in again, it is live for the device it was live for, or not live. */
  lemma {:induction false} DeviceKept(ss: seq<State>, steps: seq<Step>, i: nat, j: nat, c: nat)
    requires Run(ss, steps) && i <= j <= |steps| && c in ss[i].table
    requires forall k | i <= k < j :: !LogsIn(steps[k], c)
    ensures c in ss[j].table ==> ss[j].table[c].did == ss[i].table[c].did
    decreases j - i
  {
    if i < j {
      hide Inv, Next, FreshLogin, LogsIn;
      RunInv(ss, steps);
      DeviceKept(ss, steps, i, j - 1, c);
      DeviceStep(ss[j - 1], steps[j - 1], ss[j], c);
    }
  }

  lemma DeviceStep(s: State, st: Step, s': State, c: nat)
    requires Inv(s) && Next(s, st, s') && FreshLogin(s, st) && !LogsIn(st, c)
    ensures c in s'.table ==> c in s.table && s'.table[c].did == s.table[c].did
  {
    if Restarts(s, st) {
      RestartStep(s, st, s');
    } else if c in s.table && !Leaves(st, c) {
      ConnStep(s, st, s', c);
    } else {
      NotLoggedIn(s, st, s', c);
    }
  }

  lemma NotLoggedIn(s: State, st: Step, s': State, c: nat)
    requires Inv(s) && Next(s, st, s') && FreshLogin(s, st) && !LogsIn(st, c) && !Restarts(s, st)
    requires c !in s.table || Leaves(st, c)
    ensures c !in s'.table
  {
    if st.ReConnFires? { FireReConnCloses(s, st.owner.connID); }
  }

  /**
    A reconnect hands the device over exactly when the old connection is still live; otherwise the new one is logged in for
    device 0.
   */
  lemma ReConnDevice(ss: seq<State>, steps: seq<Step>, i: nat, j: nat, oldID: nat, newID: nat)
    requires Run(ss, steps) && i <= j < |steps| && oldID in ss[i].table && ss[i].table[oldID].did != 0
    requires (forall k | i <= k < j :: !LogsIn(steps[k], oldID)) && steps[j] == DoReConn(oldID, newID)
    ensures newID in ss[j + 1].table
    ensures ss[j + 1].table[newID].did == ss[i].table[oldID].did <==> oldID in ss[j].table
    ensures oldID !in ss[j].table ==> ss[j + 1].table[newID].did == 0
  {
    DeviceKept(ss, steps, i, j, oldID);
    assert Next(ss[j], steps[j], ss[j + 1]);
  }
}
