/**
  The connection state server as a transition system: what each handler and timer does to memory and to Redis
  (state/state.go, state/cache.go, state/server.go, common/cache/lua.go). StateServer.dfy has the classes that do
  it in place; KeyCodec.dfy justifies the structured Redis keys used here.
 */
module StateSpec {

  type Body = seq<bv8>

  /** A downstream message. It marshals to zero bytes exactly when every field has its default value. */
  datatype PushMsg = PushMsg(msgID: nat, sessionID: nat, content: Body)

  predicate Blank(m: PushMsg) {
    m.msgID == 0 && m.sessionID == 0 && m.content == []
  }

  datatype Timer = Idle | Armed(deadline: int)

  /** `msgTimerLock`: empty, or "session_msg". */
  datatype Lock = NoLock | Ids(sessionID: nat, msgID: nat)

  function LockOf(m: PushMsg): Lock {
    Ids(m.sessionID, m.msgID)
  }

  /** A `connState` object: its device and its timers. */
  datatype Conn = Conn(did: nat, heart: Timer, reConn: Timer, msg: Timer, lock: Lock)

  /** What survives a crash. */
  datatype Redis = Redis(
    slots: map<nat, set<(nat, nat)>>,       // login slots: (did, connID)
    route: map<nat, nat>,                   // did -> connID
    counters: map<(nat, string), nat>,      // (connID, session) -> next ClientID
    lastMsg: map<nat, PushMsg>)             // connID -> last message pushed

  /** Which kind of message is acknowledged. */
  datatype AckType = LoginAck | ReConnAck | UpAck

  datatype Out = AckOut(ack: AckType, connID: nat, clientID: nat) | PushOut(connID: nat, msg: PushMsg) | DelConnOut(connID: nat)

  /** `detached` holds the connState objects no longer in the table; `accepted` the upstream bodies since a counter was cleared. */
  datatype State = State(
    slotCount: nat,
    redis: Redis,
    table: map<nat, Conn>,
    detached: seq<(nat, Conn)>,
    now: int,
    sent: seq<Out>,
    accepted: map<(nat, string), seq<Body>>)

  const HEART: int := 5000
  const RECONN: int := 10000
  const RETRY: int := 100
  const COUNTER_MAX: nat := 0x7fff_ffff_ffff_ffff

  predicate Sane(s: State) {
    s.slotCount > 0
  }

  // ---------- login, logout, reconnect ----------

  function NewConn(did: nat, now: int): Conn {
    Conn(did, Armed(now + HEART), Idle, Idle, NoLock)
  }

  function Stopped(c: Conn): Conn {
    c.(heart := Idle, reConn := Idle, msg := Idle)
  }

  function SlotMembers(r: Redis, slot: nat): set<(nat, nat)> {
    if slot in r.slots then r.slots[slot] else {}
  }

  function Store(s: State, connID: nat, c: Conn): State {
    s.(table := s.table[connID := c],
       detached := if connID in s.table then s.detached + [(connID, s.table[connID])] else s.detached)
  }

  function Login(s: State, did: nat, connID: nat): State
    requires Sane(s)
  {
    var slot := connID % s.slotCount;
    var r := s.redis.(slots := s.redis.slots[slot := SlotMembers(s.redis, slot) + {(did, connID)}],
                      route := s.redis.route[did := connID]);
    Store(s.(redis := r), connID, NewConn(did, s.now))
  }

  function WithoutConn<V>(m: map<(nat, string), V>, connID: nat): map<(nat, string), V> {
    map k | k in m && k.0 != connID :: m[k]
  }

  function Without<V>(m: map<nat, V>, key: nat): map<nat, V> {
    map k | k in m && k != key :: m[k]
  }

  /** `connState.close` of a live connection. */
  function Close(s: State, connID: nat): State
    requires Sane(s) && connID in s.table
  {
    var c := s.table[connID];
    var slot := connID % s.slotCount;
    var r := Redis(
      s.redis.slots[slot := SlotMembers(s.redis, slot) - {(c.did, connID)}],
      Without(s.redis.route, c.did),
      WithoutConn(s.redis.counters, connID),
      Without(s.redis.lastMsg, connID));
    s.(redis := r, table := Without(s.table, connID), detached := s.detached + [(connID, Stopped(c))],
       sent := s.sent + [DelConnOut(connID)], accepted := WithoutConn(s.accepted, connID))
  }

  function Logout(s: State, connID: nat): State
    requires Sane(s)
  {
    if connID in s.table then Close(s, connID) else s
  }

  function LogoutDid(s: State, connID: nat): nat {
    if connID in s.table then s.table[connID].did else 0
  }

  function ReConn(s: State, oldID: nat, newID: nat): State
    requires Sane(s)
  {
    Login(Logout(s, oldID), LogoutDid(s, oldID), newID)
  }

  function Reply(s: State, ack: AckType, connID: nat, clientID: nat): State {
    s.(sent := s.sent + [AckOut(ack, connID, clientID)])
  }

  // ---------- messages ----------

  function Heartbeat(s: State, connID: nat): State {
    if connID in s.table then s.(table := s.table[connID := s.table[connID].(heart := Armed(s.now + HEART))]) else s
  }

  /** `appendLastMsg` on a live connection. */
  function Append(s: State, connID: nat, m: PushMsg): State
    requires connID in s.table
  {
    s.(table := s.table[connID := s.table[connID].(msg := Armed(s.now + RETRY), lock := LockOf(m))],
       redis := s.redis.(lastMsg := s.redis.lastMsg[connID := m]))
  }

  function CounterOf(r: Redis, key: (nat, string)): nat {
    if key in r.counters then r.counters[key] else 0
  }

  /** The answer of the compare-and-increment script; an increment past the signed maximum is an error. */
  datatype LuaAnswer = Accept | Reject | Fail

  function LuaCompare(r: Redis, key: (nat, string), clientID: nat): LuaAnswer {
    if CounterOf(r, key) != clientID then Reject else if clientID >= COUNTER_MAX then Fail else Accept
  }

  /** What the script leaves in Redis: a missing counter is created even when the answer is no. */
  function LuaEffect(r: Redis, key: (nat, string), clientID: nat): Redis {
    r.(counters := r.counters[key := CounterOf(r, key) + if LuaCompare(r, key, clientID).Accept? then 1 else 0])
  }

  function AcceptedFor(s: State, key: (nat, string)): seq<Body> {
    if key in s.accepted then s.accepted[key] else []
  }

  /** The part of `upMsgHandler` before the push: counter, reply, hand-over. */
  function UpCounted(s: State, connID: nat, session: string, clientID: nat, body: Body): State {
    var key := (connID, session);
    var s1 := s.(redis := LuaEffect(s.redis, key, clientID));
    if LuaCompare(s.redis, key, clientID).Accept? then
      Reply(s1.(accepted := s1.accepted[key := AcceptedFor(s1, key) + [body]]), UpAck, connID, clientID)
    else s1
  }

  /** The handler panics on a script error, and on a push to a connection that is not live. */
  predicate UpPanics(s: State, connID: nat, session: string, clientID: nat) {
    match LuaCompare(s.redis, (connID, session), clientID)
    case Reject => false
    case Fail => true
    case Accept => connID !in s.table
  }

  function UpPush(body: Body): PushMsg {
    PushMsg(0, 0, body)
  }

  /** `upMsgHandler` when it does not panic. */
  function Up(s: State, connID: nat, session: string, clientID: nat, body: Body): State
    requires !UpPanics(s, connID, session, clientID)
  {
    var s1 := UpCounted(s, connID, session, clientID, body);
    if LuaCompare(s.redis, (connID, session), clientID).Accept? then PushTo(s1, connID, UpPush(body)) else s1
  }

  function PushTo(s: State, connID: nat, m: PushMsg): State
    requires connID in s.table
  {
    Append(s.(sent := s.sent + [PushOut(connID, m)]), connID, m)
  }

  /** The state a panicking `upMsgHandler` dies in: an accepted message has also been pushed. */
  function UpPanicked(s: State, c: nat, session: string, id: nat, body: Body): State {
    var s1 := UpCounted(s, c, session, id, body);
    if LuaCompare(s.redis, (c, session), id).Accept? then s1.(sent := s1.sent + [PushOut(c, UpPush(body))]) else s1
  }

  /** `ackLastMsg`. */
  function Ack(s: State, connID: nat, sessionID: nat, msgID: nat): State {
    if connID in s.table && s.table[connID].lock == Ids(sessionID, msgID) then
      s.(table := s.table[connID := s.table[connID].(msg := Idle)],
         redis := s.redis.(lastMsg := Without(s.redis.lastMsg, connID)))
    else s
  }

  // ---------- timers ----------

  /** What `getLastMsg` finds; a value of zero bytes counts as absent. */
  predicate HasLast(r: Redis, connID: nat) {
    connID in r.lastMsg && !Blank(r.lastMsg[connID])
  }

  /** `rePush`. */
  function RePush(s: State, connID: nat): State {
    if !HasLast(s.redis, connID) then s
    else
      var m := s.redis.lastMsg[connID];
      var s1 := s.(sent := s.sent + [PushOut(connID, m)]);
      if connID in s.table then
        s1.(table := s.table[connID := s.table[connID].(msg := Armed(s.now + RETRY), lock := LockOf(m))])
      else s1
  }

  /** A connState object that owns timers: live in the table, or detached. */
  datatype Owner = Live(connID: nat) | Orphan(index: nat)

  predicate Exists(s: State, o: Owner) {
    match o
    case Live(c) => c in s.table
    case Orphan(i) => i < |s.detached|
  }

  function ConnOf(s: State, o: Owner): Conn
    requires Exists(s, o)
  {
    match o
    case Live(c) => s.table[c]
    case Orphan(i) => s.detached[i].1
  }

  function IdOf(s: State, o: Owner): nat
    requires Exists(s, o)
  {
    match o
    case Live(c) => c
    case Orphan(i) => s.detached[i].0
  }

  function WithConn(s: State, o: Owner, c: Conn): State
    requires Exists(s, o)
  {
    match o
    case Live(id) => s.(table := s.table[id := c])
    case Orphan(i) => s.(detached := s.detached[i := (s.detached[i].0, c)])
  }

  /** The heart timer's task: arm the reconnect timer of the same object. */
  function FireHeart(s: State, o: Owner): State
    requires Exists(s, o)
  {
    WithConn(s, o, ConnOf(s, o).(heart := Idle, reConn := Armed(s.now + RECONN)))
  }

  /** The reconnect timer's task: log the connection out by its id. */
  function FireReConn(s: State, o: Owner): State
    requires Exists(s, o) && Sane(s)
  {
    Logout(WithConn(s, o, ConnOf(s, o).(reConn := Idle)), IdOf(s, o))
  }

  function FireMsg(s: State, o: Owner): State
    requires Exists(s, o)
  {
    RePush(WithConn(s, o, ConnOf(s, o).(msg := Idle)), IdOf(s, o))
  }

  predicate DueBy(t: Timer, now: int) {
    t.Armed? && t.deadline <= now
  }

  predicate NotPast(c: Conn, now: int) {
    && (c.heart.Armed? ==> now <= c.heart.deadline)
    && (c.reConn.Armed? ==> now <= c.reConn.deadline)
    && (c.msg.Armed? ==> now <= c.msg.deadline)
  }

  /** Time can reach `now` without leaving a due timer behind. */
  predicate CanReach(s: State, now: int) {
    && s.now <= now
    && (forall c <- s.table :: NotPast(s.table[c], now))
    && (forall i | 0 <= i < |s.detached| :: NotPast(s.detached[i].1, now))
  }

  // ---------- crash and recovery ----------

  /** `connReLogin`: the object rebuilt from a login slot entry and the stored last message. */
  function Reloaded(r: Redis, did: nat, connID: nat, now: int): Conn {
    if HasLast(r, connID) then NewConn(did, now).(msg := Armed(now + RETRY), lock := LockOf(r.lastMsg[connID]))
    else NewConn(did, now)
  }

  /** A login slot entry: its slot and the (did, connID) pair in it. */
  datatype Member = Member(slot: nat, did: nat, connID: nat)

  /** All entries in the slots 0..n-1 the server reads. */
  function Members(s: State): set<Member> {
    set k, p | k in s.redis.slots && k < s.slotCount && p in s.redis.slots[k] :: Member(k, p.0, p.1)
  }

  function ReLogin(s: State, m: Member): State {
    Store(s, m.connID, Reloaded(s.redis, m.did, m.connID, s.now))
  }

  function ReLoginAll(s: State, ms: seq<Member>): State
    decreases |ms|
  {
    if ms == [] then s else ReLogin(ReLoginAll(s, ms[..|ms| - 1]), ms[|ms| - 1])
  }

  function Crashed(s: State): State {
    s.(table := map[], detached := [])
  }

  predicate NoDuplicates<T(==)>(s: seq<T>) {
    forall i, j | 0 <= i < j < |s| :: s[i] != s[j]
  }

  /** `ms` lists every slot entry once, in the order the entries happen to be processed. */
  ghost predicate Lists(s: State, ms: seq<Member>) {
    NoDuplicates(ms) && forall m :: m in ms <==> m in Members(s)
  }

  /** Memory is lost and `initLoginSlot` logs every slot entry in again. */
  function Restart(s: State, ms: seq<Member>): State {
    ReLoginAll(Crashed(s), ms)
  }
}
