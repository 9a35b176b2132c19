/** The text the state server keeps in Redis: login slot entries and key names (state/cache.go, state/state.go, common/cache/cosnt.go). */
module KeyCodec {
  import opened Wrappers

  // ---------- decimal numbers ----------

  const UINT64: nat := 0x1_0000_0000_0000_0000

  function Digit(d: nat): char
    requires d < 10
  {
    '0' + d as char
  }

  predicate IsDigit(c: char) {
    '0' <= c <= '9'
  }

  predicate AllDigits(s: string) {
    forall i | 0 <= i < |s| :: IsDigit(s[i])
  }

  function Decimal(n: nat): string {
    if n < 10 then [Digit(n)] else Decimal(n / 10) + [Digit(n % 10)]
  }

  function Value(s: string): nat
    requires AllDigits(s)
  {
    if s == [] then 0 else 10 * Value(s[..|s| - 1]) + (s[|s| - 1] - '0') as nat
  }

  /** `strconv.ParseUint(s, 10, 64)`, with None for its errors. */
  function ParseUint(s: string): Option<nat> {
    if s == [] || !AllDigits(s) || Value(s) >= UINT64 then None else Some(Value(s))
  }

  lemma {:induction false} DecimalValue(n: nat)
    ensures Decimal(n) != [] && AllDigits(Decimal(n)) && Value(Decimal(n)) == n
    decreases n
  {
    if n >= 10 {
      DecimalValue(n / 10);
      var s := Decimal(n);
      assert s[..|s| - 1] == Decimal(n / 10);
    }
  }

  lemma ParseDecimal(n: nat)
    ensures ParseUint(Decimal(n)) == if n < 0x1_0000_0000_0000_0000 then Some(n) else None
  {
    DecimalValue(n);
  }

  /** A separator that occurs in neither first part determines where two texts split. */
  lemma SplitsAlike(x: string, sep: char, r: string, y: string, t: string)
    requires sep !in x && sep !in y && x + [sep] + r == y + [sep] + t
    ensures x == y && r == t
  {
    var s, u := x + [sep] + r, y + [sep] + t;
    assert (forall i | 0 <= i < |x| :: s[i] == x[i]) && s[|x|] == sep && s[..|x|] == x && s[|x| + 1..] == r;
    assert (forall i | 0 <= i < |y| :: u[i] == y[i]) && u[|y|] == sep && u[..|y|] == y && u[|y| + 1..] == t;
    assert |x| == |y|;
  }

  lemma DecimalAvoids(n: nat, sep: char)
    requires !IsDigit(sep)
    ensures sep !in Decimal(n)
  {
    DecimalValue(n);
  }

  lemma DecimalSplitsAlike(m: nat, n: nat, sep: char, r: string, t: string)
    requires !IsDigit(sep) && Decimal(m) + [sep] + r == Decimal(n) + [sep] + t
    ensures m == n && r == t
  {
    DecimalAvoids(m, sep);
    DecimalAvoids(n, sep);
    SplitsAlike(Decimal(m), sep, r, Decimal(n), t);
    DecimalValue(m);
    DecimalValue(n);
  }

  // ---------- login slot entries ----------

  /** `strings.Split` at a one-character separator. */
  function Split(s: string, sep: char): (parts: seq<string>)
    ensures |parts| >= 1
  {
    if s == [] then [[]]
    else
      var rest := Split(s[1..], sep);
      if s[0] == sep then [[]] + rest else [[s[0]] + rest[0]] + rest[1..]
  }

  lemma {:induction false} SplitFirst(x: string, sep: char, rest: string)
    requires sep !in x
    ensures Split(x + [sep] + rest, sep) == [x] + Split(rest, sep)
    decreases |x|
  {
    var s := x + [sep] + rest;
    if x == [] {
      assert s[1..] == rest;
    } else {
      assert s[1..] == x[1..] + [sep] + rest;
      SplitFirst(x[1..], sep, rest);
      assert [x[0]] + x[1..] == x;
    }
  }

  lemma {:induction false} SplitWhole(x: string, sep: char)
    requires sep !in x
    ensures Split(x, sep) == [x]
    decreases |x|
  {
    if x != [] {
      SplitWhole(x[1..], sep);
      assert [x[0]] + x[1..] == x;
    }
  }

  function LoginSlotMarshal(did: nat, connID: nat): string {
    Decimal(did) + "|" + Decimal(connID)
  }

  /** An entry, or the panic on a part that is no 64-bit number. */
  datatype Entry = Entry(did: nat, connID: nat) | Panic

  function LoginSlotUnmarshal(mate: string): Entry {
    var strs := Split(mate, '|');
    if |strs| < 2 then Entry(0, 0)
    else
      match (ParseUint(strs[0]), ParseUint(strs[1]))
      case (Some(did), Some(connID)) => Entry(did, connID)
      case _ => Panic
  }

  /** Every pair of 64-bit ids survives the login slot. */
  lemma SlotEntryRoundTrip(did: nat, connID: nat)
    requires did < 0x1_0000_0000_0000_0000 && connID < 0x1_0000_0000_0000_0000
    ensures LoginSlotUnmarshal(LoginSlotMarshal(did, connID)) == Entry(did, connID)
  {
    DecimalAvoids(did, '|');
    DecimalAvoids(connID, '|');
    SplitFirst(Decimal(did), '|', Decimal(connID));
    SplitWhole(Decimal(connID), '|');
    ParseDecimal(did);
    ParseDecimal(connID);
  }

  /** A text without a bar reads as the pair of zeros, which is also what the entry "0|0" reads as. */
  lemma NoBarReadsAsZero(mate: string)
    requires '|' !in mate
    ensures LoginSlotUnmarshal(mate) == Entry(0, 0) && mate != LoginSlotMarshal(0, 0)
  {
    SplitWhole(mate, '|');
    assert LoginSlotMarshal(0, 0)[1] == '|';
  }

  // ---------- the lock of the message timer ----------

  function MsgTimerLock(sessionID: nat, msgID: nat): string {
    Decimal(sessionID) + "_" + Decimal(msgID)
  }

  /** Comparing lock texts compares both ids, and no lock is the empty text of an unset one. */
  lemma LockInjective(session: nat, msg: nat, session': nat, msg': nat)
    ensures MsgTimerLock(session, msg) != ""
    ensures MsgTimerLock(session, msg) == MsgTimerLock(session', msg') <==> session == session' && msg == msg'
  {
    if MsgTimerLock(session, msg) == MsgTimerLock(session', msg') {
      DecimalSplitsAlike(session, session', '_', Decimal(msg), Decimal(msg'));
      DecimalValue(msg);
      DecimalValue(msg');
    }
  }

  // ---------- key names ----------

  datatype Key =
    | CounterKey(slot: nat, connID: nat, session: string)
    | LastMsgKey(slot: nat, connID: nat)
    | LoginSlotKey(slot: nat)
    | RouteKey(did: nat)

  function CounterText(slot: nat, connID: nat, session: string): string {
    "max_client_id_{" + Decimal(slot) + "}_" + Decimal(connID) + "_" + session
  }

  function Text(k: Key): string {
    match k
    case CounterKey(slot, connID, session) => CounterText(slot, connID, session)
    case LastMsgKey(slot, connID) => "last_msg_{" + Decimal(slot) + "}_" + Decimal(connID)
    case LoginSlotKey(slot) => "login_slot_set_{" + Decimal(slot) + "}"
    case RouteKey(did) => "gateway_rotuer_" + Decimal(did)
  }

  /** "{n}" and what follows it. */
  function Braced(slot: nat, rest: string): string {
    Decimal(slot) + "}" + rest
  }

  lemma CounterShape(slot: nat, connID: nat, session: string)
    ensures CounterText(slot, connID, session) == "max_client_id_{" + Braced(slot, "_" + (Decimal(connID) + "_" + session))
  {}

  lemma CounterInjective(slot: nat, connID: nat, session: string, slot': nat, connID': nat, session': string)
    requires CounterText(slot, connID, session) == CounterText(slot', connID', session')
    ensures slot == slot' && connID == connID' && session == session'
  {
    CounterShape(slot, connID, session);
    CounterShape(slot', connID', session');
    var r, t := "_" + (Decimal(connID) + "_" + session), "_" + (Decimal(connID') + "_" + session');
    SamePrefix("max_client_id_{", Braced(slot, r), Braced(slot', t));
    DecimalSplitsAlike(slot, slot', '}', r, t);
    SamePrefix("_", Decimal(connID) + "_" + session, Decimal(connID') + "_" + session');
    DecimalSplitsAlike(connID, connID', '_', session, session');
  }

  lemma SamePrefix(p: string, x: string, y: string)
    requires p + x == p + y
    ensures x == y
  {
    assert (p + x)[|p|..] == x && (p + y)[|p|..] == y;
  }

  lemma LastMsgInjective(k: Key, k': Key)
    requires k.LastMsgKey? && k'.LastMsgKey? && Text(k) == Text(k')
    ensures k == k'
  {
    var r, t := "_" + Decimal(k.connID), "_" + Decimal(k'.connID);
    assert Text(k) == "last_msg_{" + Braced(k.slot, r) && Text(k') == "last_msg_{" + Braced(k'.slot, t);
    SamePrefix("last_msg_{", Braced(k.slot, r), Braced(k'.slot, t));
    DecimalSplitsAlike(k.slot, k'.slot, '}', r, t);
    SamePrefix("_", Decimal(k.connID), Decimal(k'.connID));
    DecimalValue(k.connID);
    DecimalValue(k'.connID);
  }

  lemma ShortKeysInjective(k: Key, k': Key)
    requires (k.LoginSlotKey? && k'.LoginSlotKey?) || (k.RouteKey? && k'.RouteKey?)
    requires Text(k) == Text(k')
    ensures k == k'
  {
    if k.LoginSlotKey? {
      assert Text(k) == "login_slot_set_{" + Braced(k.slot, "") && Text(k') == "login_slot_set_{" + Braced(k'.slot, "");
      SamePrefix("login_slot_set_{", Braced(k.slot, ""), Braced(k'.slot, ""));
      DecimalSplitsAlike(k.slot, k'.slot, '}', "", "");
    } else {
      SamePrefix("gateway_rotuer_", Decimal(k.did), Decimal(k'.did));
      DecimalValue(k.did);
      DecimalValue(k'.did);
    }
  }

  /** Different keys have different names, for every session text: the structured Redis of the model is the textual one. */
  lemma TextInjective(k: Key, k': Key)
    requires Text(k) == Text(k')
    ensures k == k'
  {
    var s := Text(k);
    assert k.CounterKey? ==> s[0] == 'm';
    assert k'.CounterKey? ==> s[0] == 'm';
    assert k.RouteKey? ==> s[0] == 'g';
    assert k'.RouteKey? ==> s[0] == 'g';
    assert k.LastMsgKey? ==> s[0] == 'l' && s[1] == 'a';
    assert k'.LastMsgKey? ==> s[0] == 'l' && s[1] == 'a';
    assert k.LoginSlotKey? ==> s[0] == 'l' && s[1] == 'o';
    assert k'.LoginSlotKey? ==> s[0] == 'l' && s[1] == 'o';
    if k.CounterKey? {
      CounterInjective(k.slot, k.connID, k.session, k'.slot, k'.connID, k'.session);
    } else if k.LastMsgKey? {
      LastMsgInjective(k, k');
    } else {
      ShortKeysInjective(k, k');
    }
  }

  // ---------- the logout pattern ----------

  /** Redis glob matching of `*`, `?`, `\` and plain characters; patterns with character classes are not part of this model. */
  predicate Matches(p: string, s: string)
    decreases |p| + |s|
  {
    if p == "" then s == ""
    else if p[0] == '*' then Matches(p[1..], s) || (s != "" && Matches(p, s[1..]))
    else if p[0] == '\\' && |p| >= 2 then s != "" && s[0] == p[1] && Matches(p[2..], s[1..])
    else s != "" && (p[0] == '?' || p[0] == s[0]) && Matches(p[1..], s[1..])
  }

  predicate Plain(c: char) {
    c != '*' && c != '?' && c != '\\' && c != '['
  }

  predicate AllPlain(s: string) {
    forall i | 0 <= i < |s| :: Plain(s[i])
  }

  predicate StartsWith(s: string, p: string) {
    |p| <= |s| && s[..|p|] == p
  }

  lemma {:induction false} StarMatchesAll(s: string)
    ensures Matches("*", s)
    decreases |s|
  {
    if s != "" { StarMatchesAll(s[1..]); }
  }

  lemma {:induction false} PlainThenStar(p: string, s: string)
    requires AllPlain(p)
    ensures Matches(p + "*", s) <==> StartsWith(s, p)
    decreases |p|
  {
    if p == "" {
      assert p + "*" == "*";
      StarMatchesAll(s);
    } else {
      assert (p + "*")[1..] == p[1..] + "*";
      if s != "" {
        PlainThenStar(p[1..], s[1..]);
        assert StartsWith(s, p) <==> s[0] == p[0] && StartsWith(s[1..], p[1..]) by {
          if s[0] == p[0] && StartsWith(s[1..], p[1..]) {
            assert s[..|p|] == [s[0]] + s[1..][..|p| - 1];
          }
          if StartsWith(s, p) {
            assert s[1..][..|p| - 1] == s[..|p|][1..];
          }
        }
      }
    }
  }

  function LogoutPattern(slot: nat, connID: nat): string {
    CounterText(slot, connID, "*")
  }

  lemma DecimalPlain(n: nat)
    ensures AllPlain(Decimal(n))
  {
    DecimalValue(n);
  }

  /** The logout pattern matches exactly the texts that are counter keys of that slot and connection, whatever the session. */
  lemma PatternExact(slot: nat, connID: nat, s: string)
    ensures Matches(LogoutPattern(slot, connID), s) <==> exists session :: s == CounterText(slot, connID, session)
  {
    var p := CounterText(slot, connID, "");
    DecimalPlain(slot);
    DecimalPlain(connID);
    assert LogoutPattern(slot, connID) == p + "*";
    PlainThenStar(p, s);
    forall session ensures CounterText(slot, connID, session) == p + session {}
    if StartsWith(s, p) {
      assert s == p + s[|p|..];
      assert s == CounterText(slot, connID, s[|p|..]);
    }
  }

  lemma PatternMatchesKey(slot: nat, connID: nat, k: Key)
    ensures Matches(LogoutPattern(slot, connID), Text(k)) <==> k.CounterKey? && k.slot == slot && k.connID == connID
  {
    PatternExact(slot, connID, Text(k));
    if Matches(LogoutPattern(slot, connID), Text(k)) {
      var session :| Text(k) == CounterText(slot, connID, session);
      TextInjective(k, CounterKey(slot, connID, session));
    }
  }

  // ---------- the logout deletion ----------

  /** A store keyed by structured keys, as text. */
  function Raw<V>(store: map<Key, V>): map<string, V> {
    TextsDistinct();
    map k | k in store :: Text(k) := store[k]
  }

  lemma TextsDistinct()
    ensures forall k, k' | Text(k) == Text(k') :: k == k'
  {
    forall k, k' | Text(k) == Text(k') ensures k == k' { TextInjective(k, k'); }
  }

  /** KEYS with a pattern followed by DEL of what it answers. */
  function Purge<V>(raw: map<string, V>, pattern: string): map<string, V> {
    map t | t in raw && !Matches(pattern, t) :: raw[t]
  }

  /** Connection keys sit in the slot of their connection, out of `n`. */
  predicate WellSlotted<V>(store: map<Key, V>, n: nat) {
    n > 0 && forall k <- store :: k.CounterKey? || k.LastMsgKey? ==> k.slot == k.connID % n
  }

  /** Logout clears all counters of its connection and nothing else in the store. */
  lemma LogoutPurges<V>(store: map<Key, V>, n: nat, connID: nat)
    requires WellSlotted(store, n)
    ensures Purge(Raw(store), LogoutPattern(connID % n, connID))
         == Raw(map k | k in store && !(k.CounterKey? && k.connID == connID) :: store[k])
  {
    var pattern := LogoutPattern(connID % n, connID);
    var kept := map k | k in store && !(k.CounterKey? && k.connID == connID) :: store[k];
    TextsDistinct();
    forall k <- store ensures Matches(pattern, Text(k)) <==> k !in kept {
      PatternMatchesKey(connID % n, connID, k);
    }
    assert forall t :: t in Purge(Raw(store), pattern) <==> t in Raw(kept);
  }
}
