/**
  The state server's objects, changed in place (state/state.go, state/cache.go, state/server.go, common/cache/lua.go).
  Every method is tied to the step of StateSpec it carries out; StateInvariant proves what those steps keep.
 */
module StateServer {
  import opened StateSpec
  import opened StateInvariant
  import opened StateReplies

  /** `connState`, its timers as values; a timer that has fired or was stopped is idle. */
  class ConnState {
    const connID: nat
    const did: nat
    var heartTimer: Timer
    var reConnTimer: Timer
    var msgTimer: Timer
    var msgTimerLock: Lock

    ghost function View(): Conn reads this {
      Conn(did, heartTimer, reConnTimer, msgTimer, msgTimerLock)
    }

    /** `newConnState`. */
    constructor (did: nat, connID: nat, now: int)
      ensures this.connID == connID && View() == NewConn(did, now) == Conn(did, Armed(now + 5000), Idle, Idle, NoLock)
    {
      this.did, this.connID := did, connID;
      heartTimer, reConnTimer, msgTimer, msgTimerLock := Idle, Idle, Idle, NoLock;
      new;
      ReSetHeartTimer(now);
    }

    method ReSetHeartTimer(now: int)
      modifies this
      ensures View() == old(View()).(heart := Armed(now + 5000))
    {
      heartTimer := Armed(now + HEART);
    }

    method ReSetReConnTimer(now: int)
      modifies this
      ensures View() == old(View()).(reConn := Armed(now + 10000))
    {
      reConnTimer := Armed(now + RECONN);
    }

    method ReSetMsgTimer(sessionID: nat, msgID: nat, now: int)
      modifies this
      ensures View() == old(View()).(msg := Armed(now + 100), lock := Ids(sessionID, msgID))
    {
      msgTimerLock := Ids(sessionID, msgID);
      msgTimer := Armed(now + RETRY);
    }

    method StopTimers()
      modifies this
      ensures View() == Stopped(old(View()))
    {
      heartTimer, reConnTimer, msgTimer := Idle, Idle, Idle;
    }

    method AppendMsg(lock: Lock, now: int)
      modifies this
      ensures View() == old(View()).(msg := Armed(now + 100), lock := lock)
    {
      msgTimerLock := lock;
      msgTimer := Armed(now + RETRY);
    }
  }

  /** The Redis server, one atomic operation a method. */
  class Store {
    var slots: map<nat, set<(nat, nat)>>
    var route: map<nat, nat>
    var counters: map<(nat, string), nat>
    var lastMsg: map<nat, PushMsg>

    ghost function View(): Redis reads this {
      Redis(slots, route, counters, lastMsg)
    }

    method AddToSlot(slot: nat, did: nat, connID: nat)
      modifies this
      ensures View() == old(View()).(slots := old(slots)[slot := SlotMembers(old(View()), slot) + {(did, connID)}])
    {
      var members := if slot in slots then slots[slot] else {};
      slots := slots[slot := members + {(did, connID)}];
    }

    method RemoveFromSlot(slot: nat, did: nat, connID: nat)
      modifies this
      ensures View() == old(View()).(slots := old(slots)[slot := SlotMembers(old(View()), slot) - {(did, connID)}])
    {
      var members := if slot in slots then slots[slot] else {};
      slots := slots[slot := members - {(did, connID)}];
    }

    method AddRecord(did: nat, connID: nat)
      modifies this
      ensures View() == old(View()).(route := old(route)[did := connID])
    {
      route := route[did := connID];
    }

    method DelRecord(did: nat)
      modifies this
      ensures View() == old(View()).(route := Without(old(route), did))
    {
      route := Without(route, did);
    }

    /** KEYS with the logout pattern, then DEL. */
    method DelCounters(connID: nat)
      modifies this
      ensures View() == old(View()).(counters := WithoutConn(old(counters), connID))
    {
      counters := WithoutConn(counters, connID);
    }

    method SetLastMsg(connID: nat, m: PushMsg)
      modifies this
      ensures View() == old(View()).(lastMsg := old(lastMsg)[connID := m])
    {
      lastMsg := lastMsg[connID := m];
    }

    method DelLastMsg(connID: nat)
      modifies this
      ensures View() == old(View()).(lastMsg := Without(old(lastMsg), connID))
    {
      lastMsg := Without(lastMsg, connID);
    }

    /** What `close` does to Redis, in its order. */
    method DelConn(slot: nat, did: nat, connID: nat)
      modifies this
      ensures View() == Redis(old(slots)[slot := SlotMembers(old(View()), slot) - {(did, connID)}], Without(old(route), did),
                              WithoutConn(old(counters), connID), Without(old(lastMsg), connID))
    {
      RemoveFromSlot(slot, did, connID);
      DelCounters(connID);
      DelRecord(did);
      DelLastMsg(connID);
    }

    /** The compare-and-increment script. */
    method CompareAndIncr(connID: nat, session: string, clientID: nat) returns (answer: LuaAnswer)
      modifies this
      ensures answer == LuaCompare(old(View()), (connID, session), clientID)
      ensures View() == LuaEffect(old(View()), (connID, session), clientID)
    {
      var key := (connID, session);
      if key !in counters { counters := counters[key := 0]; }
      if counters[key] == clientID {
        if counters[key] >= COUNTER_MAX { return Fail; }
        counters := counters[key := counters[key] + 1];
        return Accept;
      }
      return Reject;
    }
  }

  /** `cacheState`. `detached` holds the objects no longer in the table, `sent` what went to the gateway. */
  class CacheState {
    const slotCount: nat
    const redis: Store
    var connToStateTable: map<nat, ConnState>
    ghost var detached: seq<ConnState>
    var now: int
    ghost var sent: seq<Out>
    ghost var accepted: map<(nat, string), seq<Body>>

    /** A process that has read nothing yet. */
    constructor (slotCount: nat, redis: Store, now: int)
      requires slotCount > 0
      ensures Valid() && Objects() == {} && this.redis == redis
      ensures View() == State(slotCount, redis.View(), map[], [], now, [], map[])
    {
      this.slotCount, this.redis, this.now := slotCount, redis, now;
      connToStateTable, detached, sent, accepted := map[], [], [], map[];
    }

    ghost function Objects(): set<ConnState> reads this`connToStateTable, this`detached {
      connToStateTable.Values + set o <- detached
    }

    ghost predicate Valid() reads this, redis, Objects() {
      && slotCount > 0
      && (forall c <- connToStateTable :: connToStateTable[c].connID == c)
      && (forall i, j | 0 <= i < j < |detached| :: detached[i] != detached[j])
      && (forall i, c | 0 <= i < |detached| && c in connToStateTable :: detached[i] != connToStateTable[c])
    }

    ghost function Table(): map<nat, Conn> reads this`connToStateTable, connToStateTable.Values {
      map c | c in connToStateTable :: connToStateTable[c].View()
    }

    ghost function Detached(): seq<(nat, Conn)> reads this`detached, set o <- detached {
      var objects := detached;
      seq(|objects|, i requires 0 <= i < |objects| reads set o <- objects => (objects[i].connID, objects[i].View()))
    }

    ghost function View(): State
      reads this, redis, Objects()
    {
      State(slotCount, redis.View(), Table(), Detached(), now, sent, accepted)
    }

    /** What every method leaves alone, and the footprint it may extend with new objects only. */
    twostate predicate Kept() reads this, redis, Objects() {
      Valid() && forall o <- Objects() :: o in old(Objects()) || fresh(o)
    }

    // ---------- login, logout, reconnect ----------

    /** `storeConnIDState`; an object it displaces keeps its timers. */
    method StoreState(connID: nat, state: ConnState)
      requires Valid() && state.connID == connID && state !in Objects()
      modifies this`connToStateTable, this`detached
      ensures Valid() && forall o <- Objects() :: o in old(Objects()) || o == state
      ensures View() == StateSpec.Store(old(View()), connID, state.View())
    {
      if connID in connToStateTable { detached := detached + [connToStateTable[connID]]; }
      connToStateTable := connToStateTable[connID := state];
    }

    method ConnLogin(did: nat, connID: nat)
      requires Valid()
      modifies this, redis
      ensures Kept() && View() == Login(old(View()), did, connID)
    {
      hide Table, Detached;
      var state := new ConnState(did, connID, now);
      redis.AddToSlot(connID % slotCount, did, connID);
      redis.AddRecord(did, connID);
      StoreState(connID, state);
    }

    method ConnLogOut(connID: nat) returns (did: nat)
      requires Valid()
      modifies this, redis, Objects()
      ensures Kept() && View() == Logout(old(View()), connID) && did == LogoutDid(old(View()), connID)
    {
      if connID !in connToStateTable { return 0; }
      did := connToStateTable[connID].did;
      CloseConn(connID);
    }

    /** `connState.close`. */
    method CloseConn(connID: nat)
      requires Valid() && connID in connToStateTable
      modifies this, redis, connToStateTable[connID]
      ensures Kept() && View() == Close(old(View()), connID)
    {
      hide Table, Detached;
      ghost var table := Table();
      TableHas(connID);
      StopTimers(connID);
      redis.DelConn(connID % slotCount, connToStateTable[connID].did, connID);
      sent := sent + [DelConnOut(connID)];
      Forget(connID);
      assert Without(table[connID := Stopped(table[connID])], connID) == Without(table, connID);
    }

    lemma TableHas(connID: nat)
      ensures connID in Table() <==> connID in connToStateTable
      ensures connID in connToStateTable ==> Table()[connID].did == connToStateTable[connID].did
    {}

    method StopTimers(connID: nat)
      requires Valid() && connID in connToStateTable
      modifies connToStateTable[connID]
      ensures Kept() && View() == old(View()).(table := old(Table())[connID := Stopped(old(Table())[connID])])
    {
      connToStateTable[connID].StopTimers();
    }

    /** `deleteConnIDState`. */
    method Forget(connID: nat)
      requires Valid() && connID in connToStateTable
      modifies this`connToStateTable, this`detached, this`accepted
      ensures Kept() && Objects() <= old(Objects())
      ensures View() == old(View()).(table := Without(old(Table()), connID), detached := old(Detached()) + [(connID, old(Table())[connID])],
                                     accepted := WithoutConn(old(accepted), connID))
    {
      detached := detached + [connToStateTable[connID]];
      accepted := WithoutConn(accepted, connID);
      connToStateTable := map c | c in connToStateTable && c != connID :: connToStateTable[c];
    }

    method ReConn(oldConnID: nat, newConnID: nat)
      requires Valid()
      modifies this, redis, Objects()
      ensures Kept() && View() == StateSpec.ReConn(old(View()), oldConnID, newConnID)
    {
      var did := ConnLogOut(oldConnID);
      ConnLogin(did, newConnID);
    }

    // ---------- timers ----------

    method ReSetHeartTimer(connID: nat)
      requires Valid()
      modifies connToStateTable.Values
      ensures Kept() && View() == Heartbeat(old(View()), connID)
    {
      if connID in connToStateTable { connToStateTable[connID].ReSetHeartTimer(now); }
    }

    /** The object of an owner; the timers of an object refer to it even when it is no longer in the table. */
    ghost predicate Owns(o: Owner, c: ConnState) reads this`connToStateTable, this`detached {
      match o
      case Live(id) => id in connToStateTable && connToStateTable[id] == c
      case Orphan(i) => i < |detached| && detached[i] == c
    }

    lemma OwnerIs(c: ConnState, o: Owner)
      requires Valid() && Owns(o, c)
      ensures Exists(View(), o) && IdOf(View(), o) == c.connID && ConnOf(View(), o) == c.View()
    {}

    /** The heart timer's task. */
    method HeartFires(c: ConnState, ghost o: Owner)
      requires Valid() && Owns(o, c)
      modifies c
      ensures Kept() && Exists(old(View()), o) && View() == FireHeart(old(View()), o)
    {
      c.heartTimer := Idle;
      c.ReSetReConnTimer(now);
    }

    method ExpireReConn(c: ConnState, ghost o: Owner)
      requires Valid() && Owns(o, c)
      modifies c
      ensures Kept() && Exists(old(View()), o) && View() == WithConn(old(View()), o, ConnOf(old(View()), o).(reConn := Idle))
    {
      c.reConnTimer := Idle;
    }

    method ExpireMsg(c: ConnState, ghost o: Owner)
      requires Valid() && Owns(o, c)
      modifies c
      ensures Kept() && Exists(old(View()), o) && View() == WithConn(old(View()), o, ConnOf(old(View()), o).(msg := Idle))
    {
      c.msgTimer := Idle;
    }

    /** The reconnect timer's task. */
    method ReConnFires(c: ConnState, ghost o: Owner)
      requires Valid() && Owns(o, c)
      modifies this, redis, Objects()
      ensures Kept() && Exists(old(View()), o) && View() == FireReConn(old(View()), o)
    {
      OwnerIs(c, o);
      ExpireReConn(c, o);
      var _ := ConnLogOut(c.connID);
    }

    /** The message timer's task. */
    method MsgFires(c: ConnState, ghost o: Owner)
      requires Valid() && Owns(o, c)
      modifies this, Objects()
      ensures Kept() && Exists(old(View()), o) && View() == FireMsg(old(View()), o)
    {
      OwnerIs(c, o);
      ExpireMsg(c, o);
      RePush(c.connID);
    }

    // ---------- messages ----------

    method SendMsg(out: Out)
      requires Valid()
      modifies this`sent
      ensures Kept() && Objects() == old(Objects()) && View() == old(View()).(sent := old(sent) + [out])
    {
      sent := sent + [out];
    }

    /** `getLastMsg`: a value of zero bytes counts as absent. */
    method GetLastMsg(connID: nat) returns (found: bool, m: PushMsg)
      ensures found == HasLast(redis.View(), connID) && (found ==> m == redis.lastMsg[connID])
    {
      found, m := false, PushMsg(0, 0, []);
      if connID in redis.lastMsg {
        m := redis.lastMsg[connID];
        found := !Blank(m);
      }
    }

    method ReSetMsgTimer(connID: nat, sessionID: nat, msgID: nat)
      requires Valid() && connID in connToStateTable
      modifies connToStateTable[connID]
      ensures Kept()
      ensures View() == old(View()).(table := old(Table())[connID := old(Table())[connID].(msg := Armed(now + RETRY), lock := Ids(sessionID, msgID))])
    {
      connToStateTable[connID].ReSetMsgTimer(sessionID, msgID, now);
    }

    method RePush(connID: nat)
      requires Valid()
      modifies this`sent, connToStateTable.Values
      ensures Kept() && View() == StateSpec.RePush(old(View()), connID)
    {
      var found, m := GetLastMsg(connID);
      if !found { return; }
      SendMsg(PushOut(connID, m));
      if connID in connToStateTable { ReSetMsgTimer(connID, m.sessionID, m.msgID); }
    }

    /** `appendLastMsg`; the answer is false when the connection is not live. */
    method AppendLastMsg(connID: nat, m: PushMsg) returns (ok: bool)
      requires Valid()
      modifies redis, connToStateTable.Values
      ensures Kept() && ok == (connID in connToStateTable)
      ensures View() == if ok then Append(old(View()), connID, m) else old(View())
    {
      ok := connID in connToStateTable;
      if ok {
        connToStateTable[connID].AppendMsg(LockOf(m), now);
        redis.SetLastMsg(connID, m);
      }
    }

    method AckLastMsg(connID: nat, sessionID: nat, msgID: nat)
      requires Valid()
      modifies redis, connToStateTable.Values
      ensures Kept() && View() == Ack(old(View()), connID, sessionID, msgID)
    {
      if connID in connToStateTable && connToStateTable[connID].msgTimerLock == Ids(sessionID, msgID) {
        redis.DelLastMsg(connID);
        connToStateTable[connID].msgTimer := Idle;
      }
    }

    /** `upMsgHandler` with `pushMsg`; the answer is true when the handler panics. */
    method UpMsg(connID: nat, session: string, clientID: nat, body: Body) returns (panics: bool)
      requires Valid()
      modifies this, redis, connToStateTable.Values
      ensures Kept() && panics == UpPanics(old(View()), connID, session, clientID)
      ensures View() == if panics then UpPanicked(old(View()), connID, session, clientID, body) else Up(old(View()), connID, session, clientID, body)
    {
      var answer := Count(connID, session, clientID, body);
      if !answer.Accept? { return answer.Fail?; }
      SendMsg(PushOut(connID, UpPush(body)));
      var ok := AppendLastMsg(connID, UpPush(body));
      return !ok;
    }

    /** The part of `upMsgHandler` before the push. */
    method Count(connID: nat, session: string, clientID: nat, body: Body) returns (answer: LuaAnswer)
      requires Valid()
      modifies this`sent, this`accepted, redis
      ensures Kept() && Objects() == old(Objects()) && connToStateTable == old(connToStateTable)
      ensures answer == LuaCompare(old(redis.View()), (connID, session), clientID)
      ensures View() == UpCounted(old(View()), connID, session, clientID, body)
    {
      answer := redis.CompareAndIncr(connID, session, clientID);
      if answer.Accept? {
        var key := (connID, session);
        ghost var before := if key in accepted then accepted[key] else [];
        accepted := accepted[key := before + [body]];
        sent := sent + [AckOut(UpAck, connID, clientID)];
      }
    }

    // ---------- recovery ----------

    /** `connReLogin`. */
    method ConnReLogin(did: nat, connID: nat)
      requires Valid()
      modifies this`connToStateTable, this`detached
      ensures Kept() && View() == ReLogin(old(View()), Member(connID % slotCount, did, connID))
    {
      var state := new ConnState(did, connID, now);
      var found, m := GetLastMsg(connID);
      if found { state.ReSetMsgTimer(m.sessionID, m.msgID, now); }
      StoreState(connID, state);
    }

    /** `initLoginSlot` of a new process. */
    method InitLoginSlot()
      requires Valid() && connToStateTable == map[] && detached == []
      modifies this`connToStateTable, this`detached
      ensures Valid() && exists order | Lists(old(View()), order) :: View() == Restart(old(View()), order)
    {
      ghost var s, order := View(), [];
      for slot := 0 to slotCount
        invariant Kept() && View() == ReLoginAll(s, order) && NoDuplicates(order)
        invariant forall m :: m in order <==> m in Members(s) && m.slot < slot
      {
        var todo: set<(nat, nat)> := if slot in redis.slots then redis.slots[slot] else {};
        while todo != {}
          invariant Kept() && View() == ReLoginAll(s, order) && NoDuplicates(order)
          invariant todo <= SlotMembers(s.redis, slot)
          invariant forall m :: m in order <==> m in Members(s) && (m.slot < slot || (m.slot == slot && (m.did, m.connID) !in todo))
        {
          var p :| p in todo;
          todo := todo - {p};
          ConnReLogin(p.0, p.1);
          order := order + [Member(slot, p.0, p.1)];
        }
      }
      assert Lists(s, order) && View() == Restart(s, order);
    }

    /** Memory is lost and the next process reads the login slots. */
    method CrashAndRecover()
      requires Valid()
      modifies this`connToStateTable, this`detached
      ensures Valid() && exists order | Lists(old(View()), order) :: View() == Restart(old(View()), order)
    {
      ghost var s := View();
      connToStateTable, detached := map[], [];
      assert View() == Crashed(s);
      InitLoginSlot();
      forall order ensures Lists(Crashed(s), order) <==> Lists(s, order) {
        assert Members(Crashed(s)) == Members(s);
      }
    }

    // ---------- commands ----------

    /** `cmdHandler` with `msgCmdHandler`: one command of the gateway, for the connection it came from. */
    method Handle(connID: nat, cmd: Cmd) returns (panics: bool)
      requires Valid()
      modifies this, redis, Objects()
      ensures Kept() && (panics <==> cmd.UPMsg? && UpPanics(old(View()), connID, cmd.session, cmd.clientID))
      ensures !panics ==> Next(old(View()), StepOf(connID, cmd), View())
      ensures panics ==> View() == UpPanicked(old(View()), connID, cmd.session, cmd.clientID, cmd.body)
    {
      panics := false;
      match cmd
      case CancelCmd =>
        var _ := ConnLogOut(connID);
      case LoginMsg(did) =>
        ConnLogin(did, connID);
        SendMsg(AckOut(LoginAck, connID, 0));
      case HeartbeatMsg =>
        ReSetHeartTimer(connID);
      case ReConnMsg(oldConnID) =>
        ReConn(oldConnID, connID);
        SendMsg(AckOut(ReConnAck, connID, 0));
      case UPMsg(session, clientID, body) =>
        panics := UpMsg(connID, session, clientID, body);
      case ACKMsg(ackConnID, sessionID, msgID) =>
        AckLastMsg(ackConnID, sessionID, msgID);
    }

    /** A command and, if it panics, the restart that follows: one step of the protocol, which keeps its invariant. */
    method Serve(connID: nat, cmd: Cmd)
      requires Valid()
      modifies this, redis, Objects()
      ensures Valid() && Next(old(View()), StepOf(connID, cmd), View())
      ensures Inv(old(View())) && FreshLogin(old(View()), StepOf(connID, cmd)) ==> Inv(View())
    {
      var panics := Handle(connID, cmd);
      if panics { CrashAndRecover(); }
      if Inv(old(View())) && FreshLogin(old(View()), StepOf(connID, cmd)) {
        NextInv(old(View()), StepOf(connID, cmd), View());
      }
    }
  }

  /** A command: `CancelCmd` from the gateway, or a message of the client. */
  datatype Cmd =
    | CancelCmd
    | LoginMsg(did: nat)
    | HeartbeatMsg
    | ReConnMsg(oldConnID: nat)
    | UPMsg(session: string, clientID: nat, body: Body)
    | ACKMsg(ackConnID: nat, sessionID: nat, msgID: nat)

  function StepOf(connID: nat, cmd: Cmd): Step {
    match cmd
    case CancelCmd => DoCancel(connID)
    case LoginMsg(did) => DoLogin(did, connID)
    case HeartbeatMsg => DoHeartbeat(connID)
    case ReConnMsg(oldConnID) => DoReConn(oldConnID, connID)
    case UPMsg(session, clientID, body) => DoUp(connID, session, clientID, body)
    case ACKMsg(ackConnID, sessionID, msgID) => DoAck(ackConnID, sessionID, msgID)
  }

  /** What each command does for the connection it came from, by the table and what is sent. */
  lemma CommandServed(s: State, connID: nat, cmd: Cmd, s': State)
    requires Inv(s) && Next(s, StepOf(connID, cmd), s') && FreshLogin(s, StepOf(connID, cmd))
    ensures match cmd
            case CancelCmd =>
              connID !in s'.table && s'.sent == s.sent + if connID in s.table then [DelConnOut(connID)] else []
            case LoginMsg(did) =>
              && connID in s'.table && s'.table[connID] == Conn(did, Armed(s.now + 5000), Idle, Idle, NoLock)
              && s'.sent == s.sent + [AckOut(LoginAck, connID, 0)]
            case HeartbeatMsg =>
              && s'.table == (if connID in s.table then s.table[connID := s.table[connID].(heart := Armed(s.now + 5000))] else s.table)
              && s'.sent == s.sent
            case ReConnMsg(gone) =>
              && connID in s'.table && (gone != connID ==> gone !in s'.table)
              && s'.table[connID] == Conn(if gone in s.table then s.table[gone].did else 0, Armed(s.now + 5000), Idle, Idle, NoLock)
              && s'.sent == s.sent + (if gone in s.table then [DelConnOut(gone)] else []) + [AckOut(ReConnAck, connID, 0)]
            case UPMsg(session, clientID, body) =>
              && s'.sent == s.sent + (if IsNext(s, connID, session, clientID)
                                      then [AckOut(UpAck, connID, clientID), PushOut(connID, PushMsg(0, 0, body))] else [])
              && (IsNext(s, connID, session, clientID) && connID in s.table ==>
                    connID in s'.redis.lastMsg && s'.redis.lastMsg[connID] == PushMsg(0, 0, body))
            case ACKMsg(c, sessionID, msgID) =>
              && s'.sent == s.sent
              && if c in s.table && s.table[c].lock == Ids(sessionID, msgID)
                 then s'.table == s.table[c := s.table[c].(msg := Idle)] && c !in s'.redis.lastMsg else s' == s
  {
    match cmd
    case CancelCmd => SessionAnswered(s, StepOf(connID, cmd), s');
    case LoginMsg(_) => SessionAnswered(s, StepOf(connID, cmd), s');
    case ReConnMsg(_) => SessionAnswered(s, StepOf(connID, cmd), s');
    case UPMsg(session, clientID, body) => UpAnswered(s, connID, session, clientID, body, s');
    case _ =>
  }
}
