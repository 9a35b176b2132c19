/** An unacknowledged downstream message is pushed again, unchanged, until it is settled (state/state.go, state/server.go). */
module Retransmission {
  import opened StateSpec
  import opened StateInvariant

  /** The step acknowledges, supersedes or logs out what is stored for `c`. */
  predicate Settles(s: State, st: Step, c: nat)
    requires c in s.table
  {
    match st
    case DoAppend(x, _) => x == c
    case DoUp(x, session, id, _) => x == c && LuaCompare(s.redis, (x, session), id).Accept?
    case DoAck(x, session, msg) => x == c && s.table[c].lock == Ids(session, msg)
    case DoCancel(x) => x == c
    case DoReConn(o, _) => o == c
    case ReConnFires(o) => o == Live(c)
    case _ => false
  }

  /** `m` is stored for the live connection `c`, its timer is armed and only an ack with its ids will match. */
  ghost predicate Pending(s: State, c: nat, m: PushMsg) {
    && c in s.table && c in s.redis.lastMsg && s.redis.lastMsg[c] == m && !Blank(m)
    && s.table[c].msg.Armed? && s.table[c].lock == LockOf(m)
  }

  /** Until it is settled, a pending message stays pending and unchanged, whatever else happens, crashes included. */
  lemma PendingKept(s: State, st: Step, s': State, c: nat, m: PushMsg)
    requires Inv(s) && Next(s, st, s') && FreshLogin(s, st) && Pending(s, c, m) && !Settles(s, st, c)
    ensures Pending(s', c, m)
  {
    if Restarts(s, st) {
      RestartStep(s, st, s');
    } else {
      ConnStep(s, st, s', c);
      LastMsgKept(s, st, s', c);
    }
  }

  lemma LastMsgKept(s: State, st: Step, s': State, c: nat)
    requires Inv(s) && Next(s, st, s') && FreshLogin(s, st) && c in s.redis.lastMsg && c in s.table
    requires !Settles(s, st, c) && !Restarts(s, st)
    ensures c in s'.redis.lastMsg && s'.redis.lastMsg[c] == s.redis.lastMsg[c]
  {
    if st.ReConnFires? { FireReConnCloses(s, st.owner.connID); }
  }

  /** A settled message is gone or replaced: an ack or logout removes it, an append stores its own. */
  lemma SettledExactly(s: State, st: Step, s': State, c: nat, m: PushMsg)
    requires Inv(s) && Next(s, st, s') && FreshLogin(s, st) && Pending(s, c, m) && Settles(s, st, c)
    ensures st.DoAppend? ==> Pending(s', c, st.msg) || Blank(st.msg)
    ensures st.DoUp? ==> Pending(s', c, UpPush(st.body)) || st.body == []
    ensures !st.DoAppend? && !st.DoUp? ==> c !in s'.redis.lastMsg
    ensures c in s'.table && (st.DoAck? || st.DoReConn?) ==> s'.table[c].msg.Idle?
  {
    if st.ReConnFires? { FireReConnCloses(s, c); }
  }

  /** Exactly when a fired message timer is armed again: the stored message must not marshal to zero bytes. */
  lemma RePushExact(s: State, c: nat)
    requires Inv(s) && c in s.table && s.table[c].msg.Armed?
    ensures var s' := FireMsg(s, Live(c));
            && c in s.redis.lastMsg && s'.redis == s.redis
            && (s'.table[c].msg.Armed? <==> !Blank(s.redis.lastMsg[c]))
            && s'.sent == s.sent + if Blank(s.redis.lastMsg[c]) then [] else [PushOut(c, s.redis.lastMsg[c])]
  {
    assert LiveOK(s, c);
  }

  /** An accepted upstream message with an empty body leaves a push that is stored but never sent again. */
  lemma EmptyBodyNotRetried(s: State, c: nat, session: string, id: nat)
    requires Inv(s) && c in s.table && LuaCompare(s.redis, (c, session), id).Accept?
    ensures var s1 := Up(s, c, session, id, []);
            var s2 := FireMsg(s1, Live(c));
            && s1.sent == s.sent + [AckOut(UpAck, c, id), PushOut(c, PushMsg(0, 0, []))]
            && s1.table[c].msg.Armed? && c in s2.redis.lastMsg
            && s2.table[c].msg.Idle? && s2.sent == s1.sent
  {}

  /** The deadline of a pending message only moves when the message is pushed, or to one retry interval after a restart. */
  lemma DeadlineKept(s: State, st: Step, s': State, c: nat, m: PushMsg)
    requires Inv(s) && Next(s, st, s') && FreshLogin(s, st) && Pending(s, c, m) && !Settles(s, st, c)
    ensures c in s'.table
    ensures st != MsgFires(Live(c)) && !Restarts(s, st) ==>
              s'.table[c].msg == s.table[c].msg && s'.now <= Max(s.now, s.table[c].msg.deadline)
    ensures Restarts(s, st) ==> s'.table[c].msg == Armed(s.now + 100) && s'.now == s.now
    ensures st == MsgFires(Live(c)) ==> s'.sent == s.sent + [PushOut(c, m)]
  {
    hide SlotsOK, RoutesOK, LastOK, CountersOK, LiveOK;
    if Restarts(s, st) {
      RestartStep(s, st, s');
    } else {
      ConnStep(s, st, s', c);
      if st == MsgFires(Live(c)) { RePushExact(s, c); }
    }
  }

  function Max(x: int, y: int): int {
    if x < y then y else x
  }

  /** A stretch of a run in which nothing settles what is stored for `c`. */
  ghost predicate Quiet(ss: seq<State>, steps: seq<Step>, i: nat, j: nat, c: nat)
    requires |ss| == |steps| + 1 && i <= j <= |steps|
  {
    forall k | i <= k < j :: c in ss[k].table && !Settles(ss[k], steps[k], c)
  }

  /** How often the server restarts between `i` and `j`. */
  ghost function RestartCount(ss: seq<State>, steps: seq<Step>, i: nat, j: nat): nat
    requires |ss| == |steps| + 1 && i <= j <= |steps|
    decreases j - i
  {
    if i == j then 0 else RestartCount(ss, steps, i, j - 1) + if Restarts(ss[j - 1], steps[j - 1]) then 1 else 0
  }

  /** The message timer of `c` fires by `limit`, and time has not passed it. */
  ghost predicate Within(s: State, c: nat, m: PushMsg, limit: int) {
    Pending(s, c, m) && s.now <= limit && s.table[c].msg.deadline <= limit
  }

  lemma WaitsOneStep(s: State, st: Step, s': State, c: nat, m: PushMsg, limit: int)
    requires Inv(s) && Next(s, st, s') && FreshLogin(s, st) && Within(s, c, m, limit) && !Settles(s, st, c) && st != MsgFires(Live(c))
    ensures Within(s', c, m, limit + if Restarts(s, st) then 100 else 0)
  {
    PendingKept(s, st, s', c, m);
    DeadlineKept(s, st, s', c, m);
  }

  lemma {:induction false} WaitsForTimer(ss: seq<State>, steps: seq<Step>, i: nat, j: nat, c: nat, m: PushMsg)
    requires Run(ss, steps) && i <= j <= |steps| && Quiet(ss, steps, i, j, c)
    requires Pending(ss[i], c, m) && forall k | i <= k < j :: steps[k] != MsgFires(Live(c))
    ensures Within(ss[j], c, m, ss[i].now + 100 * (1 + RestartCount(ss, steps, i, j)))
    decreases j - i
  {
    hide Pending, Next, Inv, Settles, FreshLogin, Within;
    RunInv(ss, steps);
    if i < j {
      WaitsForTimer(ss, steps, i, j - 1, c, m);
      WaitsOneStep(ss[j - 1], steps[j - 1], ss[j], c, m, ss[i].now + 100 * (1 + RestartCount(ss, steps, i, j - 1)));
    } else {
      WithinNow(ss[i], c, m);
    }
  }

  lemma WithinNow(s: State, c: nat, m: PushMsg)
    requires Inv(s) && Pending(s, c, m)
    ensures Within(s, c, m, s.now + 100)
  {
    assert LiveOK(s, c);
  }

  lemma {:induction false} StaysPending(ss: seq<State>, steps: seq<Step>, i: nat, j: nat, c: nat, m: PushMsg)
    requires Run(ss, steps) && i <= j <= |steps| && Pending(ss[i], c, m)
    requires forall k | i <= k < j :: c in ss[k].table ==> !Settles(ss[k], steps[k], c)
    ensures Pending(ss[j], c, m)
    decreases j - i
  {
    if i < j {
      RunInv(ss, steps);
      StaysPending(ss, steps, i, j - 1, c, m);
      assert Next(ss[j - 1], steps[j - 1], ss[j]);
      PendingKept(ss[j - 1], steps[j - 1], ss[j], c, m);
    }
  }

  /**
    An unsettled message is pushed again, unchanged, within any period longer than the retry interval, to which every restart in
    the period adds another one.
   */
  lemma PushedAgain(ss: seq<State>, steps: seq<Step>, i: nat, j: nat, c: nat, m: PushMsg) returns (k: nat)
    requires Run(ss, steps) && i <= j <= |steps| && Quiet(ss, steps, i, j, c)
    requires Pending(ss[i], c, m) && ss[j].now > ss[i].now + 100 * (1 + RestartCount(ss, steps, i, j))
    ensures i <= k < j && steps[k] == MsgFires(Live(c)) && ss[k + 1].sent == ss[k].sent + [PushOut(c, m)]
  {
    hide Inv, Next, FreshLogin, Settles, Pending;
    RunInv(ss, steps);
    if forall x | i <= x < j :: steps[x] != MsgFires(Live(c)) {
      WaitsForTimer(ss, steps, i, j, c, m);
    }
    k :| i <= k < j && steps[k] == MsgFires(Live(c));
    StaysPending(ss, steps, i, k, c, m);
    assert Next(ss[k], steps[k], ss[k + 1]);
    DeadlineKept(ss[k], steps[k], ss[k + 1], c, m);
  }

  /** Step `i - 1` pushes to `c`: a new message, an accepted upstream one, or the stored one again. */
  predicate Pushes(ss: seq<State>, steps: seq<Step>, i: nat, c: nat)
    requires |ss| == |steps| + 1
  {
    && 0 < i <= |steps| && c in ss[i - 1].table
    && match steps[i - 1]
       case DoAppend(x, _) => x == c
       case DoUp(x, session, id, _) => x == c && id == |AcceptedFor(ss[i - 1], (c, session))| < 0x7fff_ffff_ffff_ffff
       case MsgFires(o) => o == Live(c)
       case _ => false
  }

  /** The message timer of `c` does not fire before `limit`. */
  ghost predicate NotBefore(s: State, c: nat, limit: int) {
    limit <= s.now + 100 && (c in s.table && s.table[c].msg.Armed? ==> s.table[c].msg.deadline >= limit)
  }

  lemma NotBeforeStep(s: State, st: Step, s': State, c: nat, limit: int)
    requires Inv(s) && Next(s, st, s') && FreshLogin(s, st) && NotBefore(s, c, limit) && s.now <= s'.now
    ensures NotBefore(s', c, limit)
  {
    if c in s'.table {
      if Restarts(s, st) {
        RestartStep(s, st, s');
      } else if c in s.table && !Leaves(st, c) {
        ConnStep(s, st, s', c);
      } else {
        NewTimer(s, st, s', c);
      }
    }
  }

  lemma NewTimer(s: State, st: Step, s': State, c: nat)
    requires Inv(s) && Next(s, st, s') && FreshLogin(s, st) && !Restarts(s, st) && c in s'.table && (c !in s.table || Leaves(st, c))
    ensures s'.table[c].msg.Idle?
  {
    if st.ReConnFires? { FireReConnCloses(s, st.owner.connID); }
  }

  lemma PushedNotBefore(s: State, st: Step, s': State, c: nat)
    requires Inv(s) && Next(s, st, s') && FreshLogin(s, st) && c in s.table && !Restarts(s, st)
    requires st == MsgFires(Live(c)) || (st.DoAppend? && st.connID == c)
             || (st.DoUp? && st.connID == c && LuaCompare(s.redis, (c, st.session), st.clientID).Accept?)
    ensures NotBefore(s', c, s'.now + 100)
  {
    ConnStep(s, st, s', c);
  }

  lemma PushedAt(ss: seq<State>, steps: seq<Step>, i: nat, c: nat)
    requires Run(ss, steps) && Pushes(ss, steps, i, c)
    ensures NotBefore(ss[i], c, ss[i].now + 100)
  {
    RunInv(ss, steps);
    hide Inv, NotBefore;
    assert Next(ss[i - 1], steps[i - 1], ss[i]) && FreshLogin(ss[i - 1], steps[i - 1]);
    var st := steps[i - 1];
    if st.DoUp? { AcceptedHere(ss[i - 1], c, st.session, st.clientID); }
    PushedNotBefore(ss[i - 1], st, ss[i], c);
  }

  lemma AcceptedHere(s: State, c: nat, session: string, id: nat)
    requires Inv(s)
    ensures id == |AcceptedFor(s, (c, session))| < 0x7fff_ffff_ffff_ffff <==> LuaCompare(s.redis, (c, session), id).Accept?
  {
    assert CounterOf(s.redis, (c, session)) == |AcceptedFor(s, (c, session))|;
  }

  lemma {:induction false} StaysNotBefore(ss: seq<State>, steps: seq<Step>, i: nat, k: nat, c: nat, limit: int)
    requires Run(ss, steps) && i <= k <= |steps| && NotBefore(ss[i], c, limit)
    ensures NotBefore(ss[k], c, limit)
    decreases k
  {
    hide Inv, Next, FreshLogin, NotBefore;
    if i < k {
      StaysNotBefore(ss, steps, i, k - 1, c, limit);
      RunInv(ss, steps);
      ClockForward(ss[k - 1], steps[k - 1], ss[k]);
      NotBeforeStep(ss[k - 1], steps[k - 1], ss[k], c, limit);
    }
  }

  lemma ClockForward(s: State, st: Step, s': State)
    requires Inv(s) && Next(s, st, s') && FreshLogin(s, st)
    ensures s.now <= s'.now
  {
    if Restarts(s, st) { RestartStep(s, st, s'); }
  }

  /** After a push no message timer of the connection fires for a tenth of a second, whatever happens meanwhile. */
  lemma NotPushedBefore(ss: seq<State>, steps: seq<Step>, i: nat, k: nat, c: nat)
    requires Run(ss, steps) && Pushes(ss, steps, i, c) && i <= k < |steps| && steps[k] == MsgFires(Live(c))
    ensures ss[k].now >= ss[i].now + 100
  {
    PushedAt(ss, steps, i, c);
    StaysNotBefore(ss, steps, i, k, c, ss[i].now + 100);
    assert Next(ss[k], steps[k], ss[k + 1]);
  }

  // ---------- late acks ----------

  /**
    Exactly when an ack for `m0` that arrives while `m` is pending leaves `m` pending, in every run: the ids must differ. With the
    same ids it removes `m`, which is then not pushed again although nobody has acknowledged it.
   */
  lemma LateAckExact(ss: seq<State>, steps: seq<Step>, i: nat, j: nat, c: nat, m: PushMsg, m0: PushMsg)
    requires Run(ss, steps) && i <= j < |steps| && Pending(ss[i], c, m)
    requires forall k | i <= k < j :: c in ss[k].table ==> !Settles(ss[k], steps[k], c)
    requires steps[j] == DoAck(c, m0.sessionID, m0.msgID)
    ensures Pending(ss[j + 1], c, m) <==> LockOf(m0) != LockOf(m)
    ensures LockOf(m0) == LockOf(m) ==> c !in ss[j + 1].redis.lastMsg && c in ss[j + 1].table && ss[j + 1].table[c].msg.Idle?
  {
    StaysPending(ss, steps, i, j, c, m);
    hide Inv, Settles;
    assert Next(ss[j], steps[j], ss[j + 1]);
  }

  /**
    The server's own pushes all carry the ids 0 and 0: of two messages accepted one after the other, the ack of the first
    removes the second.
   */
  lemma OwnPushesShareIds(s: State, c: nat, session: string, id: nat, older: Body, newer: Body)
    requires Inv(s) && c in s.table && LuaCompare(s.redis, (c, session), id).Accept? && id + 1 < 0x7fff_ffff_ffff_ffff && newer != []
    ensures var s1 := Up(s, c, session, id, older);
            && !UpPanics(s1, c, session, id + 1)
            && var s2 := Up(s1, c, session, id + 1, newer);
            var first, second := UpPush(older), UpPush(newer);
            var s3 := Ack(s2, c, first.sessionID, first.msgID);
            && Pending(s2, c, second)
            && c !in s3.redis.lastMsg && s3.table[c].msg.Idle? && s3.sent == s2.sent
  {}
}
