/** When timers log a connection out, over runs in which no due timer is left behind (state/state.go). */
module TimedLiveness {
  import opened StateSpec
  import opened StateInvariant

  /** No live connection has an overdue timer. */
  ghost predicate OnTime(s: State) {
    forall c <- s.table :: NotPast(s.table[c], s.now)
  }

  lemma OnTimeStep(s: State, st: Step, s': State)
    requires Inv(s) && OnTime(s) && Next(s, st, s') && FreshLogin(s, st)
    ensures OnTime(s') && s.now <= s'.now
  {
    if Restarts(s, st) {
      RestartStep(s, st, s');
    } else {
      forall c <- s'.table ensures NotPast(s'.table[c], s'.now) {
        if c in s.table && !Leaves(st, c) { ConnStep(s, st, s', c); } else { NewOnTime(s, st, s', c); }
      }
    }
  }

  lemma NewOnTime(s: State, st: Step, s': State, c: nat)
    requires Inv(s) && Next(s, st, s') && FreshLogin(s, st) && c in s'.table && !Restarts(s, st)
    requires c !in s.table || Leaves(st, c)
    ensures NotPast(s'.table[c], s'.now) && s'.now == s.now
  {
    hide SlotsOK, RoutesOK, LastOK, CountersOK, LiveOK;
    if st.ReConnFires? { FireReConnCloses(s, st.owner.connID); }
  }

  lemma {:induction false} OnTimeRun(ss: seq<State>, steps: seq<Step>)
    requires Run(ss, steps)
    ensures Inv(ss[|steps|]) && OnTime(ss[|steps|])
    decreases |steps|
  {
    hide Inv, Next, FreshLogin;
    RunInv(ss, steps);
    if steps != [] {
      var n := |steps| - 1;
      var before, first := ss[..n + 1], steps[..n];
      OnTimeRun(before, first);
      assert before[n] == ss[n];
      OnTimeStep(ss[n], steps[n], ss[n + 1]);
    }
  }

  lemma OnTimeAt(ss: seq<State>, steps: seq<Step>, i: nat)
    requires Run(ss, steps) && i <= |steps|
    ensures Inv(ss[i]) && OnTime(ss[i])
    ensures i < |steps| ==> Next(ss[i], steps[i], ss[i + 1]) && FreshLogin(ss[i], steps[i]) && ss[i].now <= ss[i + 1].now
  {
    OnTimeRun(ss[..i + 1], steps[..i]);
    if i < |steps| { OnTimeStep(ss[i], steps[i], ss[i + 1]); }
  }

  /** The model does not stop the clock: time can pass, or a live connection's timer is due. */
  lemma ClockNeverStuck(s: State)
    requires Inv(s)
    ensures CanReach(s, s.now + 1) || exists c <- s.table ::
              DueBy(s.table[c].heart, s.now) || DueBy(s.table[c].reConn, s.now) || DueBy(s.table[c].msg, s.now)
  {
    if !CanReach(s, s.now + 1) {
      var c :| c in s.table && !NotPast(s.table[c], s.now + 1);
    }
  }

  /** A timer fires, or time passes. */
  predicate OfTime(st: Step) {
    st.HeartFires? || st.ReConnFires? || st.MsgFires? || st.Pass?
  }

  /** The timers of live connections that are due, as the steps that fire them. */
  function DueSteps(s: State): set<Step> {
    (set c <- s.table.Keys | DueBy(s.table[c].heart, s.now) :: HeartFires(Live(c)))
    + (set c <- s.table.Keys | DueBy(s.table[c].reConn, s.now) :: ReConnFires(Live(c)))
    + set c <- s.table.Keys | DueBy(s.table[c].msg, s.now) :: MsgFires(Live(c))
  }

  ghost function Fired(s: State, st: Step): State
    requires Sane(s) && st in DueSteps(s)
  {
    match st
    case HeartFires(o) => FireHeart(s, o)
    case ReConnFires(o) => FireReConn(s, o)
    case MsgFires(o) => FireMsg(s, o)
  }

  /** Firing a due timer makes no other timer due. */
  lemma FiredLess(s: State, st: Step)
    requires Inv(s) && st in DueSteps(s)
    ensures Next(s, st, Fired(s, st)) && Fired(s, st).now == s.now && DueSteps(Fired(s, st)) < DueSteps(s)
  {
    var s' := Fired(s, st);
    FiredNext(s, st);
    forall x <- DueSteps(s') ensures x in DueSteps(s) && x != st { StillDue(s, st, x); }
  }

  lemma FiredNext(s: State, st: Step)
    requires Inv(s) && st in DueSteps(s)
    ensures Next(s, st, Fired(s, st)) && OfTime(st) && FreshLogin(s, st) && !Restarts(s, st) && Fired(s, st).now == s.now
  {
    if st.ReConnFires? { FireReConnCloses(s, st.owner.connID); }
  }

  lemma StillDue(s: State, st: Step, x: Step)
    requires Inv(s) && st in DueSteps(s) && x in DueSteps(Fired(s, st))
    ensures x in DueSteps(s) && x != st
  {
    hide Next, Fired, FreshLogin, Restarts, SlotsOK, RoutesOK, LastOK, CountersOK, LiveOK;
    var s' := Fired(s, st);
    var c :| c in s'.table && x.owner == Live(c);
    FiredNext(s, st);
    if c in s.table && !Leaves(st, c) {
      ConnStep(s, st, s', c);
    } else {
      NotLoggedIn(s, st, s', c);
    }
  }

  lemma Extend(ss: seq<State>, steps: seq<Step>, st: Step, s': State)
    requires Run(ss, steps) && Next(ss[|steps|], st, s') && FreshLogin(ss[|steps|], st)
    ensures Run(ss + [s'], steps + [st])
  {
    hide Next, FreshLogin;
    var ss', steps' := ss + [s'], steps + [st];
    forall i | 0 <= i < |steps'| ensures Next(ss'[i], steps'[i], ss'[i + 1]) && FreshLogin(ss'[i], steps'[i]) {
      if i < |steps| { assert Next(ss[i], steps[i], ss[i + 1]); }
    }
  }

  /** From every reachable state timers and the clock alone lead past any instant. */
  lemma {:induction false} ClockPasses(ss: seq<State>, steps: seq<Step>, t: int) returns (ss': seq<State>, steps': seq<Step>)
    requires Run(ss, steps)
    ensures Run(ss', steps') && |steps| <= |steps'| && ss'[..|ss|] == ss && steps'[..|steps|] == steps
    ensures ss'[|steps'|].now > t && forall i | |steps| <= i < |steps'| :: OfTime(steps'[i])
    decreases t + 1 - ss[|steps|].now, DueSteps(ss[|steps|])
  {
    var s := ss[|steps|];
    if s.now > t { return ss, steps; }
    hide Inv, Next, FreshLogin, OnTime, DueSteps;
    OnTimeRun(ss, steps);
    var st, s1 := TimeStep(s);
    Extend(ss, steps, st, s1);
    ss', steps' := ClockPasses(ss + [s1], steps + [st], t);
    assert ss'[..|ss|] == (ss + [s1])[..|ss|] && steps'[..|steps|] == (steps + [st])[..|steps|];
    assert steps'[|steps|] == (steps + [st])[|steps|];
  }

  lemma TimeStep(s: State) returns (st: Step, s': State)
    requires Inv(s) && OnTime(s)
    ensures Next(s, st, s') && FreshLogin(s, st) && OfTime(st)
    ensures s'.now > s.now || (s'.now == s.now && DueSteps(s') < DueSteps(s))
  {
    if DueSteps(s) != {} {
      st :| st in DueSteps(s);
      s' := Fired(s, st);
      FiredNext(s, st);
      FiredLess(s, st);
    } else {
      st, s' := Pass(s.now + 1), s.(now := s.now + 1);
      NoneDue(s);
      ClockNeverStuck(s);
    }
  }

  lemma NoneDue(s: State)
    requires DueSteps(s) == {}
    ensures forall c <- s.table :: !DueBy(s.table[c].heart, s.now) && !DueBy(s.table[c].reConn, s.now) && !DueBy(s.table[c].msg, s.now)
  {
    forall c <- s.table ensures !DueBy(s.table[c].heart, s.now) && !DueBy(s.table[c].reConn, s.now) && !DueBy(s.table[c].msg, s.now) {
      assert HeartFires(Live(c)) !in DueSteps(s) && ReConnFires(Live(c)) !in DueSteps(s) && MsgFires(Live(c)) !in DueSteps(s);
    }
  }

  /** The step logs `c` out on request. */
  predicate Closes(st: Step, c: nat) {
    st == DoCancel(c) || (st.DoReConn? && st.oldID == c)
  }

  // ---------- punctual heartbeats ----------

  /** Step `i - 1` logs `c` in, or is a heartbeat of the live `c`, for which no reconnect timer runs. */
  ghost predicate JustArmed(ss: seq<State>, steps: seq<Step>, i: nat, c: nat)
    requires |ss| == |steps| + 1
  {
    0 < i <= |steps| && (LogsIn(steps[i - 1], c) || (steps[i - 1] == DoHeartbeat(c) && c in ss[i - 1].table && ss[i - 1].table[c].reConn.Idle?))
  }

  ghost predicate Beating(s: State, c: nat, since: int) {
    c in s.table && s.table[c].reConn.Idle? && s.table[c].heart.Armed? && s.table[c].heart.deadline >= since + 5000
  }

  lemma ArmedNow(ss: seq<State>, steps: seq<Step>, i: nat, c: nat)
    requires Run(ss, steps) && JustArmed(ss, steps, i, c)
    ensures Beating(ss[i], c, ss[i].now) && ss[i].table[c].heart == Armed(ss[i].now + 5000) && ss[i].now == ss[i - 1].now
  {
    hide Inv;
    assert Next(ss[i - 1], steps[i - 1], ss[i]);
  }

  /** The state right after step `a - 1` is one in which the heart timer of `c` was just armed. */
  predicate Arms(steps: seq<Step>, i: nat, a: nat, c: nat) {
    a == i || (0 < a <= |steps| && steps[a - 1] == DoHeartbeat(c))
  }

  /** At every step between `i` and `j` less than five seconds have passed since some heartbeat after `i`, or since `i`. */
  ghost predicate Punctual(ss: seq<State>, steps: seq<Step>, i: nat, j: nat, c: nat)
    requires |ss| == |steps| + 1 && j <= |steps|
  {
    forall k | i <= k < j :: PunctualAt(ss, steps, i, k, c)
  }

  ghost predicate PunctualAt(ss: seq<State>, steps: seq<Step>, i: nat, k: nat, c: nat)
    requires |ss| == |steps| + 1 && k <= |steps|
  {
    exists a | i <= a <= k :: Arms(steps, i, a, c) && ss[k].now < ss[a].now + 5000
  }

  lemma BeatingStep(s: State, st: Step, s': State, c: nat, since: int)
    requires Inv(s) && OnTime(s) && Next(s, st, s') && FreshLogin(s, st)
    requires Beating(s, c, since) && !Closes(st, c) && s.now < s.table[c].heart.deadline && since <= s.now
    ensures Beating(s', c, since) && (st == DoHeartbeat(c) ==> Beating(s', c, s'.now))
  {
    if Restarts(s, st) {
      RestartStep(s, st, s');
    } else {
      assert st != ReConnFires(Live(c));
      ConnStep(s, st, s', c);
    }
  }

  /** `c` is live, no reconnect timer is armed, and its heart timer allows five seconds from every arming so far. */
  ghost predicate BeatingSince(ss: seq<State>, steps: seq<Step>, i: nat, j: nat, c: nat)
    requires |ss| == |steps| + 1 && j <= |steps|
  {
    forall a | i <= a <= j && Arms(steps, i, a, c) :: Beating(ss[j], c, ss[a].now) && ss[a].now <= ss[j].now
  }

  lemma {:induction false} StaysBeating(ss: seq<State>, steps: seq<Step>, i: nat, j: nat, c: nat)
    requires Run(ss, steps) && i <= j <= |steps| && Beating(ss[i], c, ss[i].now)
    requires Punctual(ss, steps, i, j, c) && forall k | i <= k < j :: !Closes(steps[k], c)
    ensures c in ss[j].table && ss[j].table[c].reConn.Idle? && BeatingSince(ss, steps, i, j, c)
    decreases j - i
  {
    hide Run, Beating, Closes;
    RunLength(ss, steps);
    if i < j {
      StaysBeating(ss, steps, i, j - 1, c);
      PunctualStep(ss, steps, i, j - 1, c);
    }
    assert Arms(steps, i, i, c);
    BeatingLive(ss[j], c, ss[i].now);
  }

  /** A connection that sends a heartbeat within five seconds of its login and of each heartbeat is never logged out by a timer. */
  lemma PunctualStays(ss: seq<State>, steps: seq<Step>, i: nat, j: nat, c: nat)
    requires Run(ss, steps) && i <= j <= |steps| && JustArmed(ss, steps, i, c)
    requires Punctual(ss, steps, i, j, c) && forall k | i <= k < j :: !Closes(steps[k], c)
    ensures c in ss[j].table && ss[j].table[c].reConn.Idle?
  {
    ArmedNow(ss, steps, i, c);
    StaysBeating(ss, steps, i, j, c);
  }

  lemma RunLength(ss: seq<State>, steps: seq<Step>)
    requires Run(ss, steps)
    ensures |ss| == |steps| + 1
  {}

  lemma BeatingLive(s: State, c: nat, since: int)
    requires Beating(s, c, since)
    ensures c in s.table && s.table[c].reConn.Idle?
  {}

  lemma PunctualStep(ss: seq<State>, steps: seq<Step>, i: nat, j: nat, c: nat)
    requires Run(ss, steps) && i <= j < |steps| && BeatingSince(ss, steps, i, j, c) && !Closes(steps[j], c)
    requires PunctualAt(ss, steps, i, j, c)
    ensures BeatingSince(ss, steps, i, j + 1, c)
  {
    hide Inv, OnTime, Next, FreshLogin, Closes, Run;
    RunLength(ss, steps);
    OnTimeAt(ss, steps, j);
    var last :| i <= last <= j && Arms(steps, i, last, c) && ss[j].now < ss[last].now + HEART;
    forall a | i <= a <= j + 1 && Arms(steps, i, a, c)
      ensures Beating(ss[j + 1], c, ss[a].now) && ss[a].now <= ss[j + 1].now
    {
      BeatingStep(ss[j], steps[j], ss[j + 1], c, ss[if a <= j then a else last].now);
    }
  }

  // ---------- the least a connection lasts ----------

  /** No timer of `c` can log it out before `h + 15000`. */
  ghost predicate Lasting(s: State, c: nat, h: int) {
    && c in s.table && h <= s.now
    && (s.table[c].heart.Armed? ==> s.table[c].heart.deadline >= h + 5000)
    && (s.table[c].reConn.Armed? ==> s.table[c].reConn.deadline >= h + 15000)
  }

  lemma LastingStep(s: State, st: Step, s': State, c: nat, h: int)
    requires Inv(s) && Next(s, st, s') && FreshLogin(s, st) && Lasting(s, c, h) && !Closes(st, c) && s.now <= s'.now
    ensures s'.now < h + 15000 ==> Lasting(s', c, h)
  {
    hide SlotsOK, RoutesOK, LastOK, CountersOK, LiveOK;
    if Restarts(s, st) {
      RestartStep(s, st, s');
    } else if st == ReConnFires(Live(c)) {
    } else {
      ConnStep(s, st, s', c);
    }
  }

  lemma {:induction false} StaysLasting(ss: seq<State>, steps: seq<Step>, i: nat, j: nat, c: nat, h: int)
    requires Run(ss, steps) && i <= j <= |steps| && Lasting(ss[i], c, h) && ss[j].now < h + 15000
    requires forall k | i <= k < j :: !Closes(steps[k], c)
    ensures Lasting(ss[j], c, h)
    decreases j
  {
    hide Inv, Next, FreshLogin, OnTime, Closes, Lasting;
    if i < j {
      OnTimeAt(ss, steps, j - 1);
      StaysLasting(ss, steps, i, j - 1, c, h);
      LastingStep(ss[j - 1], steps[j - 1], ss[j], c, h);
    }
  }

  /** A connection is live for fifteen seconds after its login, and after each heartbeat that comes in time, unless it is closed on request. */
  lemma StaysFifteen(ss: seq<State>, steps: seq<Step>, i: nat, j: nat, c: nat)
    requires Run(ss, steps) && i <= j <= |steps| && JustArmed(ss, steps, i, c) && ss[j].now < ss[i].now + 15000
    requires forall k | i <= k < j :: !Closes(steps[k], c)
    ensures c in ss[j].table
  {
    ArmedNow(ss, steps, i, c);
    StaysLasting(ss, steps, i, j, c, ss[i].now);
  }

  // ---------- silence ----------

  /** A timer of `c` will log it out by `h + 15000` unless a heartbeat or a restart comes first. */
  ghost predicate Doomed(s: State, c: nat, h: int)
    requires c in s.table
  {
    if s.table[c].heart.Armed? then s.table[c].heart.deadline <= h + 5000
    else s.table[c].reConn.Armed? && s.table[c].reConn.deadline <= h + 15000
  }

  lemma DoomedStep(s: State, st: Step, s': State, c: nat, h: int)
    requires Inv(s) && OnTime(s) && Next(s, st, s') && FreshLogin(s, st) && c in s.table && Doomed(s, c, h)
    requires st != DoHeartbeat(c) && !Restarts(s, st) && c in s'.table && !Closes(st, c)
    ensures Doomed(s', c, h)
  {
    assert NotPast(s.table[c], s.now);
    if st == ReConnFires(Live(c)) { FireReConnCloses(s, c); } else { ConnStep(s, st, s', c); }
  }

  lemma {:induction false} StaysDoomed(ss: seq<State>, steps: seq<Step>, i: nat, j: nat, c: nat, h: int)
    requires Run(ss, steps) && i <= j <= |steps| && c in ss[i].table && Doomed(ss[i], c, h)
    requires forall k | i <= k < j :: steps[k] != DoHeartbeat(c) && !Restarts(ss[k], steps[k]) && !Closes(steps[k], c)
    requires forall k | i <= k <= j :: c in ss[k].table
    ensures Doomed(ss[j], c, h) && ss[j].now <= h + 15000
    decreases j - i
  {
    hide Inv, Next, FreshLogin, Restarts, Closes;
    OnTimeAt(ss, steps, j);
    if i < j {
      OnTimeAt(ss, steps, j - 1);
      StaysDoomed(ss, steps, i, j - 1, c, h);
      DoomedStep(ss[j - 1], steps[j - 1], ss[j], c, h);
    }
  }

  /**
    A connection that is silent after its login or after a heartbeat, at time `h`, is logged out no later than fifteen seconds after
    it, and by a timer no earlier.
   */
  lemma SilentLoggedOut(ss: seq<State>, steps: seq<Step>, i: nat, j: nat, c: nat) returns (k: nat)
    requires Run(ss, steps) && i <= j <= |steps| && JustArmed(ss, steps, i, c)
    requires forall k | i <= k < j :: steps[k] != DoHeartbeat(c) && !Restarts(ss[k], steps[k])
    requires ss[j].now > ss[i].now + 15000
    ensures i <= k < j && c in ss[k].table
    ensures if Closes(steps[k], c) then ss[k].now <= ss[i].now + 15000 else c !in ss[k + 1].table && ss[k].now == ss[k + 1].now == ss[i].now + 15000
  {
    hide Inv, Next, FreshLogin, Restarts, Beating;
    var h := ss[i].now;
    ArmedNow(ss, steps, i, c);
    BeatingLive(ss[i], c, h);
    k := i;
    while k < j && c in ss[k + 1].table && !Closes(steps[k], c)
      invariant i <= k <= j
      invariant forall x | i <= x <= k :: c in ss[x].table
      invariant forall x | i <= x < k :: !Closes(steps[x], c)
    {
      k := k + 1;
    }
    StaysDoomed(ss, steps, i, k, c, h);
    if !Closes(steps[k], c) { LeavesLate(ss, steps, i, k, c); }
  }

  lemma LeavesLate(ss: seq<State>, steps: seq<Step>, i: nat, k: nat, c: nat)
    requires Run(ss, steps) && i <= k < |steps| && JustArmed(ss, steps, i, c) && c in ss[k].table && c !in ss[k + 1].table
    requires forall x | i <= x <= k :: !Closes(steps[x], c)
    ensures ss[k].now == ss[k + 1].now >= ss[i].now + 15000
  {
    hide Inv, FreshLogin, Restarts, JustArmed, OnTime;
    if ss[k + 1].now < ss[i].now + 15000 { StaysFifteen(ss, steps, i, k + 1, c); }
    OnTimeAt(ss, steps, k);
    LeavesAtOnce(ss[k], steps[k], ss[k + 1], c);
  }

  lemma LeavesAtOnce(s: State, st: Step, s': State, c: nat)
    requires Inv(s) && Next(s, st, s') && FreshLogin(s, st) && c in s.table && c !in s'.table
    ensures s'.now == s.now
  {
    if Restarts(s, st) {
      RestartStep(s, st, s');
    } else if !Leaves(st, c) {
      ConnStep(s, st, s', c);
    } else if st.ReConnFires? {
      FireReConnCloses(s, c);
    }
  }

  /** And whatever has happened, a connection that falls silent is logged out in some continuation of the run. */
  lemma SilenceEnds(ss: seq<State>, steps: seq<Step>, c: nat) returns (ss': seq<State>, steps': seq<Step>, k: nat)
    requires Run(ss, steps) && JustArmed(ss, steps, |steps|, c)
    ensures Run(ss', steps') && |steps| <= k < |steps'| && ss'[..|ss|] == ss && steps'[..|steps|] == steps
    ensures (forall i | |steps| <= i < |steps'| :: OfTime(steps'[i]))
    ensures ss'[k].now == ss[|steps|].now + 15000 && c in ss'[k].table && c !in ss'[k + 1].table
  {
    hide Inv, Next, FreshLogin;
    ss', steps' := ClockPasses(ss, steps, ss[|steps|].now + 15000);
    assert ss'[|steps|] == ss'[..|ss|][|steps|] && ss'[|steps| - 1] == ss'[..|ss|][|steps| - 1];
    assert steps'[|steps| - 1] == steps'[..|steps|][|steps| - 1];
    k := SilentLoggedOut(ss', steps', |steps|, |steps'|, c);
  }

  /** The heart timer of a silent connection fires exactly five seconds later, and starts a reconnect timer of ten. */
  lemma {:induction false} HeartFiresAtFive(ss: seq<State>, steps: seq<Step>, i: nat, j: nat, c: nat) returns (k: nat)
    requires Run(ss, steps) && i <= j <= |steps| && JustArmed(ss, steps, i, c)
    requires forall k | i <= k < j :: steps[k] != DoHeartbeat(c) && !Restarts(ss[k], steps[k]) && !Closes(steps[k], c)
    requires ss[j].now > ss[i].now + 5000
    ensures i <= k < j && steps[k] == HeartFires(Live(c)) && ss[k].now == ss[i].now + 5000
    ensures c in ss[k + 1].table && ss[k + 1].table[c].reConn == Armed(ss[i].now + 15000)
  {
    hide Inv, Next, FreshLogin, Restarts, Closes;
    var h := ss[i].now;
    ArmedNow(ss, steps, i, c);
    k := i;
    while k < j && steps[k] != HeartFires(Live(c))
      invariant i <= k <= j
      invariant c in ss[k].table && ss[k].table[c].heart == Armed(h + 5000) && ss[k].table[c].reConn.Idle? && ss[k].now <= h + 5000
    {
      HeartRuns(ss, steps, k, c, h + 5000);
      k := k + 1;
    }
    OnTimeAt(ss, steps, k);
    HeartFired(ss[k], steps[k], ss[k + 1], c);
  }

  lemma HeartRuns(ss: seq<State>, steps: seq<Step>, k: nat, c: nat, d: int)
    requires Run(ss, steps) && k < |steps| && c in ss[k].table && ss[k].table[c].heart == Armed(d) && ss[k].table[c].reConn.Idle?
    requires steps[k] != HeartFires(Live(c)) && steps[k] != DoHeartbeat(c) && !Restarts(ss[k], steps[k]) && !Closes(steps[k], c)
    ensures c in ss[k + 1].table && ss[k + 1].table[c].heart == Armed(d) && ss[k + 1].table[c].reConn.Idle? && ss[k + 1].now <= d
  {
    OnTimeAt(ss, steps, k);
    OnTimeAt(ss, steps, k + 1);
    HeartKept(ss[k], steps[k], ss[k + 1], c);
  }

  lemma HeartKept(s: State, st: Step, s': State, c: nat)
    requires Inv(s) && Next(s, st, s') && FreshLogin(s, st) && c in s.table && s.table[c].reConn.Idle?
    requires st != HeartFires(Live(c)) && st != DoHeartbeat(c) && !Restarts(s, st) && !Closes(st, c)
    ensures c in s'.table && s'.table[c].heart == s.table[c].heart && s'.table[c].reConn.Idle?
  {
    ConnStep(s, st, s', c);
  }

  lemma HeartFired(s: State, st: Step, s': State, c: nat)
    requires Inv(s) && Next(s, st, s') && FreshLogin(s, st) && c in s.table && st == HeartFires(Live(c))
    ensures s.table[c].heart.Armed? && s.table[c].heart.deadline <= s.now
    ensures c in s'.table && s'.table[c].reConn == Armed(s.now + 10000)
  {
    ConnStep(s, st, s', c);
  }

  // ---------- heartbeats and the reconnect timer ----------

  /** Once the heart timer has fired, a heartbeat does not help: unless it fires again first, `c` is logged out at the deadline. */
  lemma {:induction false} HeartbeatsDoNotSave(ss: seq<State>, steps: seq<Step>, i: nat, j: nat, c: nat, d: int)
    requires Run(ss, steps) && i <= j <= |steps| && c in ss[i].table && ss[i].table[c].reConn == Armed(d)
    requires forall k | i <= k < j :: steps[k] != HeartFires(Live(c)) && !Restarts(ss[k], steps[k]) && !Closes(steps[k], c)
    requires forall k | i <= k <= j :: c in ss[k].table
    ensures ss[j].table[c].reConn == Armed(d) && ss[j].now <= d
    decreases j - i
  {
    hide Inv, Next, FreshLogin, Restarts, Closes;
    OnTimeAt(ss, steps, j);
    if i < j {
      OnTimeAt(ss, steps, j - 1);
      HeartbeatsDoNotSave(ss, steps, i, j - 1, c, d);
      ReConnKept(ss[j - 1], steps[j - 1], ss[j], c);
    }
  }

  lemma ReConnKept(s: State, st: Step, s': State, c: nat)
    requires Inv(s) && Next(s, st, s') && FreshLogin(s, st) && c in s.table && c in s'.table
    requires st != HeartFires(Live(c)) && !Restarts(s, st) && !Closes(st, c)
    ensures s'.table[c].reConn == s.table[c].reConn
  {
    if st == ReConnFires(Live(c)) { FireReConnCloses(s, c); } else { ConnStep(s, st, s', c); }
  }
}
