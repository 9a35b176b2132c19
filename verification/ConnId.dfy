/** The gateway's connection ids: a clock reading and a sequence number packed in 64 bits (gateway/connection.go). */
module ConnId {
  import opened Wrappers
  import opened Truncation

  // ---------- 64-bit words ----------

  const WORD: nat := 0x1_0000_0000_0000_0000

  /** The bits of a signed 64-bit integer, as an unsigned number. */
  function Bits(x: int): nat {
    x % WORD
  }

  function Pow2(k: nat): (p: nat)
    ensures p > 0
  {
    if k == 0 then 1 else 2 * Pow2(k - 1)
  }

  function Shl(x: nat, k: nat): nat {
    x * Pow2(k) % WORD
  }

  function Or(x: nat, y: nat): nat {
    if x == 0 && y == 0 then 0 else 2 * Or(x / 2, y / 2) + if x % 2 == 1 || y % 2 == 1 then 1 else 0
  }

  function And(x: nat, y: nat): nat {
    if x == 0 || y == 0 then 0 else 2 * And(x / 2, y / 2) + if x % 2 == 1 && y % 2 == 1 then 1 else 0
  }

  function Xor(x: nat, y: nat): nat {
    if x == 0 && y == 0 then 0 else 2 * Xor(x / 2, y / 2) + if x % 2 != y % 2 then 1 else 0
  }

  const SEQUENCE_BITS: nat := 16
  const TIME_LEFT: nat := 16
  const VERSION: nat := 0
  const VERSION_LEFT: nat := 63
  const TWEPOCH: int := 1589923200000

  function MaxSequence(): nat {
    Xor(Bits(-1), Shl(Bits(-1), SEQUENCE_BITS))
  }

  function MakeID(stamp: int, sequence: nat): nat {
    Or(Or(Shl(Bits(stamp - TWEPOCH), TIME_LEFT), sequence), Shl(VERSION, VERSION_LEFT))
  }

  function StampOf(id: nat): int {
    id / Pow2(TIME_LEFT) + TWEPOCH
  }

  function SequenceOf(id: nat): nat {
    And(id, MaxSequence())
  }

  // ---------- the generator ----------

  datatype Gen = Gen(stamp: int, sequence: nat)

  /** `Waiting`: the clock readings ran out while the generator spins for the next millisecond. */
  datatype Answer = Id(id: nat) | Backwards | Waiting

  /** The first reading later than `stamp`. */
  function Later(clock: seq<int>, stamp: int): Option<int> {
    if clock == [] then None
    else if stamp < clock[0] then Some(clock[0])
    else Later(clock[1..], stamp)
  }

  /** One call, given what the clock shows from now on. */
  function After(g: Gen, clock: seq<int>): (Gen, Answer)
    requires clock != []
  {
    var t := clock[0];
    if t < g.stamp then (g, Backwards)
    else if t != g.stamp then Issue(t, 0)
    else
      var s := And(Bits(g.sequence + 1), MaxSequence());
      if s != 0 then Issue(t, s)
      else
        match Later(clock[1..], g.stamp)
        case Some(u) => Issue(u, 0)
        case None => (g.(sequence := 0), Waiting)
  }

  function Issue(stamp: int, sequence: nat): (Gen, Answer) {
    (Gen(stamp, sequence), Id(MakeID(stamp, sequence)))
  }

  class ConnIDGenerater {
    var LastStamp: int
    var Sequence: nat

    ghost function View(): Gen reads this {
      Gen(LastStamp, Sequence)
    }

    constructor ()
      ensures View() == Gen(0, 0)
    {
      LastStamp, Sequence := 0, 0;
    }

    method NextID(clock: seq<int>) returns (answer: Answer)
      requires clock != []
      modifies this
      ensures (View(), answer) == After(old(View()), clock)
      ensures answer.Backwards? ==> View() == old(View())
    {
      var timeStamp, n := clock[0], 1;
      if timeStamp < LastStamp { return Backwards; }
      if LastStamp == timeStamp {
        Sequence := And(Bits(Sequence + 1), MaxSequence());
        if Sequence == 0 {
          while timeStamp <= LastStamp
            invariant 1 <= n <= |clock|
            invariant Later(clock[1..], LastStamp) ==
                      if LastStamp < timeStamp then Some(timeStamp) else Later(clock[n..], LastStamp)
            decreases |clock| - n, timeStamp <= LastStamp
          {
            if n == |clock| { return Waiting; }
            timeStamp, n := clock[n], n + 1;
            assert clock[n - 1..][1..] == clock[n..];
          }
        }
      } else {
        Sequence := 0;
      }
      LastStamp := timeStamp;
      return Id(MakeID(timeStamp, Sequence));
    }
  }

  // ---------- the bit layout ----------

  lemma Pow2s()
    ensures Pow2(16) == 0x1_0000 && Pow2(63) == 0x8000_0000_0000_0000 && Pow2(64) == WORD
  {
    assert Pow2(16) == 0x1_0000;
    Pow2Adds(16, 16);
    Pow2Adds(32, 16);
    Pow2Adds(48, 15);
    Pow2Adds(48, 16);
    assert Pow2(15) == 0x8000;
  }

  lemma {:induction false} Pow2Adds(a: nat, b: nat)
    ensures Pow2(a + b) == Pow2(a) * Pow2(b)
    decreases a
  {
    if a > 0 { Pow2Adds(a - 1, b); }
  }

  /** Numbers that share no bits are joined by adding them. */
  lemma {:induction false} OrJoins(x: nat, k: nat, s: nat)
    requires s < Pow2(k)
    ensures Or(x * Pow2(k), s) == x * Pow2(k) + s
    decreases k
  {
    if k == 0 {
      OrZero(x);
    } else {
      var h := x * Pow2(k - 1);
      assert x * Pow2(k) == 2 * h;
      OrJoins(x, k - 1, s / 2);
    }
  }

  lemma {:induction false} OrZero(x: nat)
    ensures Or(x, 0) == x
    decreases x
  {
    if x != 0 { OrZero(x / 2); }
  }

  lemma {:induction false} AndMasks(x: nat, k: nat)
    ensures And(x, Pow2(k) - 1) == x % Pow2(k)
    decreases k
  {
    hide And;
    if k == 0 || x == 0 {
      AndZero(x, Pow2(k) - 1);
      MultipleMod(if k == 0 then x else 0, Pow2(k));
    } else {
      var m := Pow2(k - 1);
      AndMasks(x / 2, k - 1);
      AndStep(x, m);
      ModHalves(x, m);
      assert Pow2(k) == 2 * m;
    }
  }

  lemma AndZero(x: nat, y: nat)
    requires x == 0 || y == 0
    ensures And(x, y) == 0
  {}

  lemma AndStep(x: nat, m: nat)
    requires x > 0 && m > 0
    ensures And(x, 2 * m - 1) == 2 * And(x / 2, m - 1) + x % 2
  {
    assert (2 * m - 1) / 2 == m - 1 && (2 * m - 1) % 2 == 1;
  }

  lemma ModHalves(x: nat, m: nat)
    requires m > 0
    ensures x % (2 * m) == 2 * (x / 2 % m) + x % 2
  {
    var q := x / 2 / m;
    assert x == 2 * m * q + (2 * (x / 2 % m) + x % 2);
    ModUnique(x, q, 2 * (x / 2 % m) + x % 2, 2 * m);
  }

  lemma {:induction false} XorComplements(n: nat, y: nat)
    requires y < Pow2(n)
    ensures Xor(Pow2(n) - 1, y) == Pow2(n) - 1 - y
    decreases n
  {
    if n > 0 { XorComplements(n - 1, y / 2); }
  }

  lemma MaxSequenceValue()
    ensures MaxSequence() == 0xffff == Pow2(16) - 1
  {
    Pow2s();
    ModUnique((WORD - 1) * 0x1_0000, 0xffff, WORD - 0x1_0000, WORD);
    XorComplements(64, WORD - 0x1_0000);
  }

  lemma ShiftedStamp(d: int)
    ensures Shl(Bits(d), 16) == d % 0x1_0000_0000_0000 * 0x1_0000
  {
    Pow2s();
    var m := 0x1_0000_0000_0000;
    var b := Bits(d);
    assert d == WORD * (d / WORD) + b;
    ModUnique(d, d / WORD * 0x1_0000 + b / m, b % m, m);
    ModUnique(b * 0x1_0000, b / m, b % m * 0x1_0000, WORD);
  }

  /** What the shifts and ors compute: the low 48 bits of the milliseconds, then the sequence number. */
  lemma MakeIDValue(stamp: int, sequence: nat)
    requires sequence <= MaxSequence()
    ensures MakeID(stamp, sequence) == (stamp - 1589923200000) % 0x1_0000_0000_0000 * 0x1_0000 + sequence
  {
    hide Shl, Or, MaxSequence, Pow2;
    Pow2s();
    MaxSequenceValue();
    ShiftedStamp(stamp - TWEPOCH);
    var low: nat := (stamp - TWEPOCH) % 0x1_0000_0000_0000;
    OrJoins(low, 16, sequence);
    ShiftedZero(VERSION_LEFT);
    OrZero(low * 0x1_0000 + sequence);
  }

  lemma ShiftedZero(k: nat)
    ensures Shl(0, k) == 0
  {}

  /** Exactly when an id gives back its two parts: the milliseconds must fit 48 bits. */
  lemma DecodeExact(stamp: int, sequence: nat)
    requires sequence <= MaxSequence()
    ensures SequenceOf(MakeID(stamp, sequence)) == sequence
    ensures StampOf(MakeID(stamp, sequence)) == stamp <==> 0 <= stamp - 1589923200000 < 0x1_0000_0000_0000
  {
    hide And, MakeID, MaxSequence;
    Pow2s();
    MaxSequenceValue();
    MakeIDValue(stamp, sequence);
    AndMasks(MakeID(stamp, sequence), 16);
    ModUnique(MakeID(stamp, sequence), (stamp - TWEPOCH) % 0x1_0000_0000_0000, sequence, 0x1_0000);
  }

  /** Exactly when the version bit stays zero. */
  lemma VersionBitExact(stamp: int, sequence: nat)
    requires sequence <= MaxSequence()
    ensures MakeID(stamp, sequence) < 0x1_0000_0000_0000_0000
    ensures MakeID(stamp, sequence) / 0x8000_0000_0000_0000 == 0 <==> (stamp - 1589923200000) % 0x1_0000_0000_0000 < 0x8000_0000_0000
  {
    Pow2s();
    MaxSequenceValue();
    MakeIDValue(stamp, sequence);
  }

  /** A reading for which the layout has room: 47 bits of milliseconds since the epoch of the ids. */
  predicate InRange(stamp: int) {
    1589923200000 <= stamp < 1589923200000 + 0x8000_0000_0000
  }

  /** Ids are ordered as their readings and, within one reading, as their sequence numbers. */
  lemma IdsOrdered(t: int, s: nat, u: int, r: nat)
    requires InRange(t) && InRange(u) && s <= MaxSequence() && r <= MaxSequence()
    ensures MakeID(t, s) < MakeID(u, r) <==> t < u || (t == u && s < r)
  {
    hide MakeID, MaxSequence;
    MaxSequenceValue();
    MakeIDValue(t, s);
    MakeIDValue(u, r);
    assert (t - TWEPOCH) % 0x1_0000_0000_0000 == t - TWEPOCH && (u - TWEPOCH) % 0x1_0000_0000_0000 == u - TWEPOCH;
  }

  // ---------- every run ----------

  predicate ClockInRange(clock: seq<int>) {
    clock != [] && forall i | 0 <= i < |clock| :: InRange(clock[i])
  }

  predicate Started(g: Gen) {
    InRange(g.stamp) && g.sequence <= MaxSequence()
  }

  lemma {:induction false} LaterIsLater(clock: seq<int>, stamp: int)
    requires forall i | 0 <= i < |clock| :: InRange(clock[i])
    ensures Later(clock, stamp).Some? ==> InRange(Later(clock, stamp).value) && stamp < Later(clock, stamp).value
    decreases |clock|
  {
    if clock != [] && clock[0] <= stamp { LaterIsLater(clock[1..], stamp); }
  }

  lemma NextSequence(s: nat)
    requires s <= MaxSequence()
    ensures And(Bits(s + 1), MaxSequence()) == if s == MaxSequence() then 0 else s + 1
  {
    hide And, MaxSequence, Pow2;
    MaxSequenceValue();
    AndMasks(s + 1, 16);
  }

  /** A started generator issues an id above its last one, and a clock gone backwards changes nothing. */
  lemma NextIncreases(g: Gen, clock: seq<int>)
    requires Started(g) && ClockInRange(clock)
    ensures var (g', answer) := After(g, clock);
            && Started(g')
            && (answer.Id? ==> answer.id == MakeID(g'.stamp, g'.sequence) && MakeID(g.stamp, g.sequence) < answer.id)
            && (answer.Backwards? <==> clock[0] < g.stamp)
            && (answer.Backwards? ==> g' == g)
  {
    var (g', answer) := After(g, clock);
    MaxSequenceValue();
    NextSequence(g.sequence);
    LaterIsLater(clock[1..], g.stamp);
    if answer.Id? {
      IdsOrdered(g.stamp, g.sequence, g'.stamp, g'.sequence);
    }
  }

  /** The first call of a new generator. */
  lemma FirstID(clock: seq<int>)
    requires ClockInRange(clock)
    ensures After(Gen(0, 0), clock) == Issue(clock[0], 0) && Started(Gen(clock[0], 0))
  {}

  /** Calls one after the other; a call that still waits is the last one. */
  ghost predicate Run(gs: seq<Gen>, clocks: seq<seq<int>>, answers: seq<Answer>) {
    && |gs| == |clocks| + 1 && |answers| == |clocks| && gs[0] == Gen(0, 0)
    && forall i | 0 <= i < |clocks| :: ClockInRange(clocks[i]) && (gs[i + 1], answers[i]) == After(gs[i], clocks[i])
                                       && (answers[i].Waiting? ==> i == |clocks| - 1)
  }

  /** After the first call the generator holds the parts of the largest id issued so far. */
  lemma {:induction false} RunInv(gs: seq<Gen>, clocks: seq<seq<int>>, answers: seq<Answer>, n: nat)
    requires Run(gs, clocks, answers) && 0 < n <= |clocks|
    ensures Started(gs[n])
    ensures !answers[n - 1].Waiting? ==>
              forall i | 0 <= i < n && answers[i].Id? :: answers[i].id <= MakeID(gs[n].stamp, gs[n].sequence)
    decreases n
  {
    if n == 1 {
      FirstID(clocks[0]);
    } else {
      RunInv(gs, clocks, answers, n - 1);
      NextIncreases(gs[n - 1], clocks[n - 1]);
    }
  }

  /** Ids are strictly increasing over every run, so none is issued twice, and each keeps its parts and a zero top bit. */
  lemma IdsIncrease(gs: seq<Gen>, clocks: seq<seq<int>>, answers: seq<Answer>, i: nat, j: nat)
    requires Run(gs, clocks, answers) && i < j < |answers| && answers[i].Id? && answers[j].Id?
    ensures answers[i].id < answers[j].id
  {
    hide MakeID, MaxSequence;
    RunInv(gs, clocks, answers, j);
    assert !answers[j - 1].Waiting? && (gs[j + 1], answers[j]) == After(gs[j], clocks[j]);
    NextIncreases(gs[j], clocks[j]);
  }

  lemma IdsDecode(gs: seq<Gen>, clocks: seq<seq<int>>, answers: seq<Answer>, i: nat)
    requires Run(gs, clocks, answers) && i < |answers| && answers[i].Id?
    ensures StampOf(answers[i].id) == gs[i + 1].stamp && SequenceOf(answers[i].id) == gs[i + 1].sequence <= MaxSequence()
    ensures gs[i + 1].stamp in clocks[i] && answers[i].id / 0x8000_0000_0000_0000 == 0
  {
    hide MakeID, MaxSequence, StampOf, SequenceOf, Pow2;
    RunInv(gs, clocks, answers, i + 1);
    if i == 0 { FirstID(clocks[0]); } else { RunInv(gs, clocks, answers, i); NextIncreases(gs[i], clocks[i]); }
    DecodeExact(gs[i + 1].stamp, gs[i + 1].sequence);
    VersionBitExact(gs[i + 1].stamp, gs[i + 1].sequence);
    LaterInClock(clocks[i][1..], gs[i].stamp);
  }

  lemma {:induction false} LaterInClock(clock: seq<int>, stamp: int)
    ensures Later(clock, stamp).Some? ==> Later(clock, stamp).value in clock
    decreases |clock|
  {
    if clock != [] && clock[0] <= stamp { LaterInClock(clock[1..], stamp); }
  }

  // ---------- which id is next ----------

  /** The ids before the `j`th call end with the one issued at `i`. */
  predicate LastIssued(answers: seq<Answer>, i: nat, j: nat) {
    i < j <= |answers| && answers[i].Id? && forall k | i < k < j :: !answers[k].Id?
  }

  /** Calls that failed since then have left the generator alone. */
  lemma {:induction false} HoldsLast(gs: seq<Gen>, clocks: seq<seq<int>>, answers: seq<Answer>, i: nat, j: nat)
    requires Run(gs, clocks, answers) && LastIssued(answers, i, j) && j < |answers|
    ensures Started(gs[j]) && gs[j].stamp == StampOf(answers[i].id) && gs[j].sequence == SequenceOf(answers[i].id)
    decreases j
  {
    hide StampOf, SequenceOf, MaxSequence, Pow2, MakeID;
    RunInv(gs, clocks, answers, j);
    if i + 1 == j {
      IdsDecode(gs, clocks, answers, i);
    } else {
      HoldsLast(gs, clocks, answers, i, j - 1);
      assert (gs[j], answers[j - 1]) == After(gs[j - 1], clocks[j - 1]);
      NextIncreases(gs[j - 1], clocks[j - 1]);
    }
  }

  lemma {:induction false} LaterAt(clock: seq<int>, stamp: int, m: nat)
    requires m < |clock| && stamp < clock[m] && forall k | 0 <= k < m :: clock[k] <= stamp
    ensures Later(clock, stamp) == Some(clock[m])
    decreases m
  {
    if m > 0 { LaterAt(clock[1..], stamp, m - 1); }
  }

  lemma {:induction false} NoneLater(clock: seq<int>, stamp: int)
    requires forall k | 0 <= k < |clock| :: clock[k] <= stamp
    ensures Later(clock, stamp) == None
    decreases |clock|
  {
    if clock != [] { NoneLater(clock[1..], stamp); }
  }

  /** The answer is an id of this reading with this sequence number. */
  predicate Answers(answer: Answer, reading: int, sequence: nat) {
    answer.Id? && StampOf(answer.id) == reading && SequenceOf(answer.id) == sequence
  }

  /**
    Which id a call answers, by the last id issued before it and the clock alone: one more in the same millisecond as long as there
    are sequence numbers left, then the first later millisecond the clock shows, and a new millisecond begins with zero.
   */
  lemma NextIdExact(gs: seq<Gen>, clocks: seq<seq<int>>, answers: seq<Answer>, i: nat, j: nat)
    requires Run(gs, clocks, answers) && LastIssued(answers, i, j) && j < |answers|
    ensures var t, q, clock, answer := StampOf(answers[i].id), SequenceOf(answers[i].id), clocks[j], answers[j];
            && q <= 65535
            && (clock[0] < t <==> answer.Backwards?)
            && (clock[0] > t ==> Answers(answer, clock[0], 0))
            && (clock[0] == t && q < 65535 ==> Answers(answer, t, q + 1))
            && (clock[0] == t && q == 65535 ==>
                  && (answer.Waiting? <==> forall k | 0 <= k < |clock| :: clock[k] <= t)
                  && forall m | 0 <= m < |clock| && clock[m] > t && (forall k | 0 <= k < m :: clock[k] <= t) :: Answers(answer, clock[m], 0))
  {
    hide StampOf, SequenceOf, MaxSequence, Pow2, MakeID, And, Later;
    var g, clock, answer := gs[j], clocks[j], answers[j];
    HoldsLast(gs, clocks, answers, i, j);
    assert (gs[j + 1], answer) == After(g, clock);
    MaxSequenceValue();
    NextSequence(g.sequence);
    if clock[0] == g.stamp && g.sequence == 65535 { Spins(clock, g.stamp); }
    if answer.Id? { IdsDecode(gs, clocks, answers, j); }
  }

  lemma Spins(clock: seq<int>, stamp: int)
    requires clock != [] && clock[0] == stamp
    ensures Later(clock[1..], stamp).None? <==> forall k | 0 <= k < |clock| :: clock[k] <= stamp
    ensures forall m | 0 <= m < |clock| && clock[m] > stamp && (forall k | 0 <= k < m :: clock[k] <= stamp) ::
              Later(clock[1..], stamp) == Some(clock[m])
  {
    var rest := clock[1..];
    assert forall k | 0 < k < |clock| :: rest[k - 1] == clock[k];
    forall m | 0 <= m < |clock| && clock[m] > stamp && (forall k | 0 <= k < m :: clock[k] <= stamp) ensures Later(rest, stamp) == Some(clock[m]) {
      LaterAt(rest, stamp, m - 1);
    }
    if forall k | 0 <= k < |clock| :: clock[k] <= stamp {
      NoneLater(rest, stamp);
    } else {
      var m := FirstLater(clock, stamp);
    }
  }

  lemma {:induction false} FirstLater(clock: seq<int>, stamp: int) returns (m: nat)
    requires exists k :: 0 <= k < |clock| && clock[k] > stamp
    ensures m < |clock| && clock[m] > stamp && forall k | 0 <= k < m :: clock[k] <= stamp
    decreases |clock|
  {
    if clock[0] > stamp { return 0; }
    var k :| 0 <= k < |clock| && clock[k] > stamp;
    assert clock[1..][k - 1] > stamp;
    var j := FirstLater(clock[1..], stamp);
    m := j + 1;
  }

  /** The first call answers its first reading with sequence number zero. */
  lemma FirstIdExact(gs: seq<Gen>, clocks: seq<seq<int>>, answers: seq<Answer>)
    requires Run(gs, clocks, answers) && answers != []
    ensures Answers(answers[0], clocks[0][0], 0)
  {
    hide StampOf, SequenceOf, MaxSequence, Pow2, MakeID;
    assert (gs[1], answers[0]) == After(gs[0], clocks[0]);
    FirstID(clocks[0]);
    IdsDecode(gs, clocks, answers, 0);
  }
}
