/** What the state server sends to the gateway, over every run (state/server.go, state/state.go). */
module StateReplies {
  import opened StateSpec
  import opened StateInvariant

  /** The server takes the id for the next one of the session. */
  predicate IsNext(s: State, c: nat, session: string, id: nat) {
    id == |AcceptedFor(s, (c, session))| < 0x7fff_ffff_ffff_ffff
  }

  lemma NextIsAccepted(s: State, c: nat, session: string, id: nat)
    requires Inv(s)
    ensures IsNext(s, c, session, id) <==> LuaCompare(s.redis, (c, session), id).Accept?
  {
    assert CounterOf(s.redis, (c, session)) == |AcceptedFor(s, (c, session))|;
  }

  /**
    An upstream message: the next one is acknowledged and its body pushed back, both to the connection it came from, and what is
    pushed is stored as the last message of a live connection; any other sends nothing and stores nothing.
   */
  lemma UpAnswered(s: State, c: nat, session: string, id: nat, body: Body, s': State)
    requires Inv(s) && Next(s, DoUp(c, session, id, body), s')
    ensures IsNext(s, c, session, id) ==> s'.sent == s.sent + [AckOut(UpAck, c, id), PushOut(c, PushMsg(0, 0, body))]
    ensures IsNext(s, c, session, id) && c in s.table ==>
              && s'.redis.lastMsg == s.redis.lastMsg[c := PushMsg(0, 0, body)]
              && s'.table == s.table[c := s.table[c].(msg := Armed(s.now + 100), lock := Ids(0, 0))]
    ensures !IsNext(s, c, session, id) ==> s'.sent == s.sent && s'.redis.lastMsg == s.redis.lastMsg
    ensures c !in s.table ==> s'.redis.lastMsg == s.redis.lastMsg && s'.table.Keys == s.table.Keys
    ensures var count := |AcceptedFor(s, (c, session))| + if IsNext(s, c, session, id) then 1 else 0;
            s'.redis.counters == s.redis.counters[(c, session) := count]
  {
    NextIsAccepted(s, c, session, id);
    if UpPanics(s, c, session, id) {
      UpPanicRestores(s, c, session, id, body, s');
    }
  }

  /** The server dies and restarts when it accepts a message of a connection that is not live, or the counter is at its end. */
  lemma UpRestarts(s: State, c: nat, session: string, id: nat, body: Body, s': State)
    requires Inv(s) && Next(s, DoUp(c, session, id, body), s')
    ensures Restarts(s, DoUp(c, session, id, body)) <==>
            (IsNext(s, c, session, id) && c !in s.table) || id == |AcceptedFor(s, (c, session))| >= 0x7fff_ffff_ffff_ffff
    ensures Restarts(s, DoUp(c, session, id, body)) ==>
              s'.detached == [] && forall x <- s.table :: x in s'.table && s'.table[x].heart == Armed(s.now + 5000) && s'.table[x].reConn.Idle?
  {
    NextIsAccepted(s, c, session, id);
    assert CounterOf(s.redis, (c, session)) == |AcceptedFor(s, (c, session))|;
    hide Inv, Next;
    if UpPanics(s, c, session, id) {
      UpPanicRestores(s, c, session, id, body, s');
      RestartStep(s, DoUp(c, session, id, body), s');
    }
  }

  /** Each login and reconnect is acknowledged to the connection it came from, and each logout is told to the gateway. */
  lemma SessionAnswered(s: State, st: Step, s': State)
    requires Inv(s) && Next(s, st, s')
    ensures st.DoLogin? ==> s'.sent == s.sent + [AckOut(LoginAck, st.connID, 0)]
    ensures st.DoReConn? ==>
              s'.sent == s.sent + (if st.oldID in s.table then [DelConnOut(st.oldID)] else []) + [AckOut(ReConnAck, st.newID, 0)]
    ensures st.DoCancel? ==> s'.sent == s.sent + if st.connID in s.table then [DelConnOut(st.connID)] else []
    ensures st.ReConnFires? ==> st.owner.Live? && st.owner.connID in s.table && s'.sent == s.sent + [DelConnOut(st.owner.connID)]
  {
    if st.ReConnFires? { FireReConnCloses(s, st.owner.connID); }
  }

  /** A fired message timer pushes the stored message, unless it marshals to nothing; all other steps send nothing. */
  lemma OthersSilent(s: State, st: Step, s': State)
    requires Inv(s) && Next(s, st, s') && !st.DoUp? && !st.DoLogin? && !st.DoReConn? && !st.DoCancel? && !st.ReConnFires?
    ensures st.MsgFires? ==> st.owner.Live? && st.owner.connID in s.redis.lastMsg
    ensures s'.sent == s.sent + if st.MsgFires? && s.redis.lastMsg[st.owner.connID] != PushMsg(0, 0, [])
                                then [PushOut(st.owner.connID, s.redis.lastMsg[st.owner.connID])] else []
  {
    match st
    case CrashAndRecover(order) => RestartRestores(s, order);
    case MsgFires(o) => assert LiveOK(s, o.connID);
    case _ =>
  }

  // ---------- over runs ----------

  /** Exactly which steps send `o`, each of them once. */
  ghost predicate Sends(s: State, st: Step, o: Out) {
    match o
    case AckOut(LoginAck, c, id) => st.DoLogin? && st.connID == c && id == 0
    case AckOut(ReConnAck, c, id) => st.DoReConn? && st.newID == c && id == 0
    case AckOut(UpAck, c, id) => st.DoUp? && st.connID == c && st.clientID == id && IsNext(s, c, st.session, id)
    case DelConnOut(c) => c in s.table && (st == DoCancel(c) || (st.DoReConn? && st.oldID == c) || st == ReConnFires(Live(c)))
    case PushOut(c, m) =>
      || (st.DoUp? && st.connID == c && IsNext(s, c, st.session, st.clientID) && m == PushMsg(0, 0, st.body))
      || (st == MsgFires(Live(c)) && c in s.redis.lastMsg && s.redis.lastMsg[c] == m != PushMsg(0, 0, []))
  }

  ghost function SendCount(ss: seq<State>, steps: seq<Step>, n: nat, o: Out): nat
    requires |ss| == |steps| + 1 && n <= |steps|
  {
    if n == 0 then 0 else SendCount(ss, steps, n - 1, o) + if Sends(ss[n - 1], steps[n - 1], o) then 1 else 0
  }

  lemma SendsExactly(s: State, st: Step, s': State, o: Out)
    requires Inv(s) && Next(s, st, s')
    ensures multiset(s'.sent)[o] == multiset(s.sent)[o] + if Sends(s, st, o) then 1 else 0
  {
    hide Next, Inv, Sends;
    if st.DoUp? {
      UpSends(s, st, s', o);
    } else if st.DoLogin? || st.DoReConn? || st.DoCancel? || st.ReConnFires? {
      SessionSends(s, st, s', o);
    } else {
      OthersSilent(s, st, s');
      OtherSends(s, st, s', o);
    }
  }

  lemma UpSends(s: State, st: Step, s': State, o: Out)
    requires Inv(s) && Next(s, st, s') && st.DoUp?
    ensures multiset(s'.sent)[o] == multiset(s.sent)[o] + if Sends(s, st, o) then 1 else 0
  {
    hide Next, Inv, IsNext, Sends;
    UpAnswered(s, st.connID, st.session, st.clientID, st.body, s');
    UpCounts(s, st, o);
    var accepted := IsNext(s, st.connID, st.session, st.clientID);
    var reply := if accepted then [AckOut(UpAck, st.connID, st.clientID)] else [];
    TwoSent(s.sent, s'.sent, o, reply, if accepted then [PushOut(st.connID, PushMsg(0, 0, st.body))] else []);
  }

  lemma UpCounts(s: State, st: Step, o: Out)
    requires st.DoUp?
    ensures Sends(s, st, o) <==>
            && IsNext(s, st.connID, st.session, st.clientID)
            && (o == AckOut(UpAck, st.connID, st.clientID) || o == PushOut(st.connID, PushMsg(0, 0, st.body)))
  {}

  lemma SessionSends(s: State, st: Step, s': State, o: Out)
    requires Inv(s) && Next(s, st, s') && (st.DoLogin? || st.DoReConn? || st.DoCancel? || st.ReConnFires?)
    ensures multiset(s'.sent)[o] == multiset(s.sent)[o] + if Sends(s, st, o) then 1 else 0
  {
    hide Next, Inv, Sends;
    SessionAnswered(s, st, s');
    var leaver := if st.DoReConn? then st.oldID else if st.DoCancel? then st.connID else if st.ReConnFires? then st.owner.connID else 0;
    var told := if !st.DoLogin? && leaver in s.table then [DelConnOut(leaver)] else [];
    var reply := if st.DoLogin? then [AckOut(LoginAck, st.connID, 0)] else if st.DoReConn? then [AckOut(ReConnAck, st.newID, 0)] else [];
    TwoSent(s.sent, s'.sent, o, told, reply);
    SessionCounts(s, st, o, leaver);
  }

  lemma SessionCounts(s: State, st: Step, o: Out, leaver: nat)
    requires st.DoLogin? || (st.DoReConn? && st.oldID == leaver) || st == DoCancel(leaver) || st == ReConnFires(Live(leaver))
    ensures Sends(s, st, o) <==>
            || (!st.DoLogin? && leaver in s.table && o == DelConnOut(leaver))
            || (st.DoLogin? && o == AckOut(LoginAck, st.connID, 0)) || (st.DoReConn? && o == AckOut(ReConnAck, st.newID, 0))
  {}

  lemma OtherSends(s: State, st: Step, s': State, o: Out)
    requires !st.DoUp? && !st.DoLogin? && !st.DoReConn? && !st.DoCancel? && !st.ReConnFires?
    requires st.MsgFires? ==> st.owner.Live? && st.owner.connID in s.redis.lastMsg
    requires s'.sent == s.sent + if st.MsgFires? && s.redis.lastMsg[st.owner.connID] != PushMsg(0, 0, [])
                                 then [PushOut(st.owner.connID, s.redis.lastMsg[st.owner.connID])] else []
    ensures multiset(s'.sent)[o] == multiset(s.sent)[o] + if Sends(s, st, o) then 1 else 0
  {
    TwoSent(s.sent, s'.sent, o, if st.MsgFires? && s.redis.lastMsg[st.owner.connID] != PushMsg(0, 0, [])
                      then [PushOut(st.owner.connID, s.redis.lastMsg[st.owner.connID])] else [], []);
  }

  /** At most one output of each of two kinds. */
  lemma TwoSent(sent: seq<Out>, sent': seq<Out>, o: Out, x: seq<Out>, y: seq<Out>)
    requires sent' == sent + x + y && |x| <= 1 && |y| <= 1
    ensures multiset(sent')[o] == multiset(sent)[o] + (if x == [o] then 1 else 0) + if y == [o] then 1 else 0
  {
    assert x == [] || x == [x[0]];
    assert y == [] || y == [y[0]];
    assert multiset(sent') == multiset(sent) + multiset(x) + multiset(y);
  }

  /** In every run everything is sent exactly as often as a step calls for it: nothing is lost, repeated or made up. */
  lemma {:induction false} SentExactly(ss: seq<State>, steps: seq<Step>, n: nat, o: Out)
    requires Run(ss, steps) && n <= |steps|
    ensures multiset(ss[n].sent)[o] == SendCount(ss, steps, n, o)
    decreases n
  {
    hide Inv, Next, FreshLogin, Sends;
    if n > 0 {
      SentExactly(ss, steps, n - 1, o);
      RunInv(ss, steps);
      SendsExactly(ss[n - 1], steps[n - 1], ss[n], o);
    }
  }

  function LoginCount(steps: seq<Step>, n: nat, c: nat): nat
    requires n <= |steps|
  {
    if n == 0 then 0 else LoginCount(steps, n - 1, c) + if LogsIn(steps[n - 1], c) then 1 else 0
  }

  /** The gateway is told once for each login of a connection that has ended, and not while it is live. */
  lemma {:induction false} LogoutsTold(ss: seq<State>, steps: seq<Step>, n: nat, c: nat)
    requires Run(ss, steps) && n <= |steps|
    ensures LoginCount(steps, n, c) == multiset(ss[n].sent)[DelConnOut(c)] + if c in ss[n].table then 1 else 0
    decreases n
  {
    hide Inv, Next, FreshLogin;
    if n > 0 {
      LogoutsTold(ss, steps, n - 1, c);
      RunInv(ss, steps);
      SendsExactly(ss[n - 1], steps[n - 1], ss[n], DelConnOut(c));
      LiveStep(ss[n - 1], steps[n - 1], ss[n], c);
    }
  }

  /** A connection becomes live by a login and ceases to be by a logout. */
  lemma LiveStep(s: State, st: Step, s': State, c: nat)
    requires Inv(s) && Next(s, st, s') && FreshLogin(s, st)
    ensures c in s'.table <==> LogsIn(st, c) || (c in s.table && !Sends(s, st, DelConnOut(c)))
    ensures LogsIn(st, c) ==> c !in s.table || Sends(s, st, DelConnOut(c))
  {
    if Restarts(s, st) {
      RestartStep(s, st, s');
    } else if LogsIn(st, c) {
    } else if c in s.table && !Leaves(st, c) {
      ConnStep(s, st, s', c);
    } else {
      NotLoggedIn(s, st, s', c);
    }
  }

  /** Step `k` stores `m` for the live connection `c`. */
  predicate Stores(s: State, st: Step, c: nat, m: PushMsg) {
    && c in s.table
    && (st == DoAppend(c, m) || (st.DoUp? && st.connID == c && IsNext(s, c, st.session, st.clientID) && m == PushMsg(0, 0, st.body)))
  }

  lemma StoredStep(s: State, st: Step, s': State, c: nat, m: PushMsg)
    requires Inv(s) && Next(s, st, s') && c in s'.redis.lastMsg && s'.redis.lastMsg[c] == m
    ensures (c in s.redis.lastMsg && s.redis.lastMsg[c] == m) || Stores(s, st, c, m)
  {
    match st
    case DoUp(x, session, id, body) => UpAnswered(s, x, session, id, body, s');
    case CrashAndRecover(order) => RestartRestores(s, order);
    case ReConnFires(o) => FireReConnCloses(s, o.connID);
    case _ =>
  }

  /** Whatever is stored for a connection was meant for it. */
  lemma {:induction false} StoredFrom(ss: seq<State>, steps: seq<Step>, n: nat, c: nat) returns (k: nat)
    requires Run(ss, steps) && n <= |steps| && c in ss[n].redis.lastMsg
    ensures k < n && Stores(ss[k], steps[k], c, ss[n].redis.lastMsg[c])
    decreases n
  {
    hide Inv, Next, FreshLogin, Stores;
    RunStart(ss, steps);
    k := n - 1;
    var m := ss[n].redis.lastMsg[c];
    RunInv(ss, steps);
    StoredStep(ss[k], steps[k], ss[n], c, m);
    if c in ss[k].redis.lastMsg && ss[k].redis.lastMsg[c] == m { k := StoredFrom(ss, steps, k, c); }
  }

  lemma RunStart(ss: seq<State>, steps: seq<Step>)
    requires Run(ss, steps)
    ensures ss[0].redis.lastMsg == map[] && ss[0].sent == []
  {}

  /** Everything pushed to a connection is the body of an upstream message accepted from it, or was stored for it. */
  lemma {:induction false} PushedFrom(ss: seq<State>, steps: seq<Step>, n: nat, c: nat, m: PushMsg) returns (k: nat)
    requires Run(ss, steps) && n <= |steps| && PushOut(c, m) in ss[n].sent
    ensures k < n
    ensures Stores(ss[k], steps[k], c, m) || (steps[k].DoUp? && Sends(ss[k], steps[k], PushOut(c, m)))
    decreases n
  {
    hide Inv, Next, FreshLogin, Stores;
    RunStart(ss, steps);
    k := n - 1;
    RunInv(ss, steps);
    SendsExactly(ss[k], steps[k], ss[n], PushOut(c, m));
    if !Sends(ss[k], steps[k], PushOut(c, m)) {
      k := PushedFrom(ss, steps, k, c, m);
    } else if steps[k].MsgFires? {
      k := StoredFrom(ss, steps, k, c);
    }
  }
}
