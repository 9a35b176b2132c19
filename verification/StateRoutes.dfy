/** Which device has a route record, over every run (state/state.go, state/cache.go). */
module StateRoutes {
  import opened Wrappers
  import opened StateSpec
  import opened StateInvariant

  /** The device and connection that a step logs in. */
  function LoginOf(s: State, st: Step): Option<(nat, nat)> {
    match st
    case DoLogin(d, c) => Some((d, c))
    case DoReConn(o, c) => Some((LogoutDid(s, o), c))
    case _ => None
  }

  /** The step logs a connection in for device `d`. */
  predicate LoginFor(s: State, st: Step, d: nat) {
    LoginOf(s, st).Some? && LoginOf(s, st).value.0 == d
  }

  /** The step logs some live connection of device `d` out. */
  ghost predicate LogoutFor(s: State, st: Step, d: nat) {
    exists c <- s.table :: Leaves(st, c) && s.table[c].did == d
  }

  predicate Routed(s: State, d: nat, c: nat) {
    d in s.redis.route && s.redis.route[d] == c
  }

  /** A login sets the record of its device, a logout removes it, and nothing else changes it. */
  lemma RouteStep(s: State, st: Step, s': State, d: nat, c: nat)
    requires Inv(s) && Next(s, st, s') && FreshLogin(s, st)
    ensures Routed(s', d, c) <==>
            LoginOf(s, st) == Some((d, c)) || (Routed(s, d, c) && !LoginFor(s, st, d) && !LogoutFor(s, st, d))
  {
    if Restarts(s, st) {
      RestartRoutes(s, st, s');
    } else if st.DoLogin? || st.DoReConn? || st.DoCancel? || st.ReConnFires? {
      SessionRoutes(s, st, s', d, c);
    } else {
      OtherRoutes(s, st, s');
    }
  }

  lemma RestartRoutes(s: State, st: Step, s': State)
    requires Inv(s) && Next(s, st, s') && Restarts(s, st)
    ensures s'.redis.route == s.redis.route
  {
    if st.CrashAndRecover? {
      RestartRestores(s, st.order);
    } else {
      UpPanicRestores(s, st.connID, st.session, st.clientID, st.body, s');
    }
  }

  lemma OtherRoutes(s: State, st: Step, s': State)
    requires Next(s, st, s') && !Restarts(s, st) && !st.DoLogin? && !st.DoReConn? && !st.DoCancel? && !st.ReConnFires?
    ensures s'.redis.route == s.redis.route
  {
    hide SlotsOK, RoutesOK, LastOK, CountersOK, LiveOK;
  }

  lemma SessionRoutes(s: State, st: Step, s': State, d: nat, c: nat)
    requires Inv(s) && Next(s, st, s') && (st.DoLogin? || st.DoReConn? || st.DoCancel? || st.ReConnFires?)
    ensures Routed(s', d, c) <==>
            LoginOf(s, st) == Some((d, c)) || (Routed(s, d, c) && !LoginFor(s, st, d) && !LogoutFor(s, st, d))
  {
    hide SlotsOK, RoutesOK, LastOK, CountersOK, LiveOK;
    match st
    case DoLogin(_, _) =>
    case DoReConn(o, _) => assert LogoutFor(s, st, d) <==> o in s.table && s.table[o].did == d;
    case DoCancel(o) => assert LogoutFor(s, st, d) <==> o in s.table && s.table[o].did == d;
    case ReConnFires(o) =>
      FireReConnCloses(s, o.connID);
      assert LogoutFor(s, st, d) <==> s.table[o.connID].did == d;
  }

  /** Step `i` logs `c` in for `d`; up to `n` no other is logged in for `d` after it, and none of `d` is logged out. */
  ghost predicate LastLogin(ss: seq<State>, steps: seq<Step>, i: nat, n: nat, d: nat, c: nat)
    requires |ss| == |steps| + 1 && i < n <= |steps|
  {
    && LoginOf(ss[i], steps[i]) == Some((d, c))
    && forall k | i < k < n :: !LoginFor(ss[k], steps[k], d) && !LogoutFor(ss[k], steps[k], d)
  }

  /**
    In every run, crashes included, a device has a route record exactly when none of its connections was logged out since the last
    one was logged in, and then the record points to that one.
   */
  lemma {:induction false} RouteExact(ss: seq<State>, steps: seq<Step>, n: nat, d: nat, c: nat)
    requires Run(ss, steps) && n <= |steps|
    ensures Routed(ss[n], d, c) <==> exists i | 0 <= i < n :: LastLogin(ss, steps, i, n, d, c)
    decreases n
  {
    hide Inv, Next, FreshLogin, LoginOf, LoginFor, LogoutFor, LastLogin;
    if n > 0 {
      RouteExact(ss, steps, n - 1, d, c);
      RunInv(ss, steps);
      RouteStep(ss[n - 1], steps[n - 1], ss[n], d, c);
      LastLoginMore(ss, steps, n, d, c);
      var login := LoginOf(ss[n - 1], steps[n - 1]) == Some((d, c));
      if Routed(ss[n], d, c) && !login {
        var i :| 0 <= i < n - 1 && LastLogin(ss, steps, i, n - 1, d, c);
        assert LastLogin(ss, steps, i, n, d, c);
      }
      if i :| 0 <= i < n && LastLogin(ss, steps, i, n, d, c) {
        assert login || (i < n - 1 && LastLogin(ss, steps, i, n - 1, d, c));
      }
    }
  }

  lemma LastLoginMore(ss: seq<State>, steps: seq<Step>, n: nat, d: nat, c: nat)
    requires |ss| == |steps| + 1 && 0 < n <= |steps|
    ensures LastLogin(ss, steps, n - 1, n, d, c) <==> LoginOf(ss[n - 1], steps[n - 1]) == Some((d, c))
    ensures forall i | 0 <= i < n - 1 ::
              LastLogin(ss, steps, i, n, d, c) <==>
              LastLogin(ss, steps, i, n - 1, d, c) && !LoginFor(ss[n - 1], steps[n - 1], d) && !LogoutFor(ss[n - 1], steps[n - 1], d)
  {
    hide LoginOf, LoginFor, LogoutFor;
  }

  // ---------- devices with several connections ----------

  /** Every live connection's device has a route record. */
  ghost predicate AllRouted(s: State) {
    forall c <- s.table :: s.table[c].did in s.redis.route
  }

  /** The step logs a connection out, and for good, whose device has another live one. */
  ghost predicate Orphans(s: State, st: Step) {
    exists c, x | c in s.table && x in s.table ::
      c != x && s.table[c].did == s.table[x].did && (st == DoCancel(c) || st == ReConnFires(Live(c)))
  }

  /** Exactly when a step keeps that: it must not log out one of two live connections of a device. */
  lemma AllRoutedExact(s: State, st: Step, s': State)
    requires Inv(s) && Next(s, st, s') && FreshLogin(s, st) && AllRouted(s)
    ensures AllRouted(s') <==> !Orphans(s, st)
  {
    hide Inv, Next, FreshLogin;
    if Restarts(s, st) {
      RestartRoutes(s, st, s');
      RestartDevices(s, st, s');
    } else if st.DoLogin? || st.DoReConn? || st.DoCancel? || st.ReConnFires? {
      SessionRouted(s, st, s');
    } else {
      OtherRoutes(s, st, s');
      OtherDevices(s, st, s');
    }
  }

  lemma RestartDevices(s: State, st: Step, s': State)
    requires Inv(s) && Next(s, st, s') && Restarts(s, st)
    ensures s'.table.Keys == s.table.Keys && forall c <- s.table :: s'.table[c].did == s.table[c].did
  {
    RestartStep(s, st, s');
  }

  lemma OtherDevices(s: State, st: Step, s': State)
    requires Next(s, st, s') && Inv(s) && !Restarts(s, st) && !st.DoLogin? && !st.DoReConn? && !st.DoCancel? && !st.ReConnFires?
    ensures s'.table.Keys == s.table.Keys && forall c <- s.table :: s'.table[c].did == s.table[c].did
  {
    hide SlotsOK, RoutesOK, LastOK, CountersOK, LiveOK;
  }

  lemma SessionRouted(s: State, st: Step, s': State)
    requires Inv(s) && Next(s, st, s') && FreshLogin(s, st) && AllRouted(s)
    requires st.DoLogin? || st.DoReConn? || st.DoCancel? || st.ReConnFires?
    ensures AllRouted(s') <==> !Orphans(s, st)
  {
    hide SlotsOK, RoutesOK, LastOK, CountersOK, LiveOK;
    match st
    case DoLogin(_, _) =>
    case DoReConn(_, _) =>
    case DoCancel(c) => LogoutRouted(s, c);
    case ReConnFires(o) =>
      FireReConnCloses(s, o.connID);
      LogoutRouted(s, o.connID);
  }

  lemma LogoutRouted(s: State, c: nat)
    requires Inv(s) && AllRouted(s)
    ensures AllRouted(Logout(s, c)) <==> forall x | x in s.table && c in s.table && x != c :: s.table[x].did != s.table[c].did
  {
    var s' := Logout(s, c);
    if c in s.table {
      assert forall x | x in s.table && x != c :: x in s'.table && s'.table[x] == s.table[x];
    }
  }
}
