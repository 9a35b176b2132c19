/** Length-prefixed frames over a byte stream that may be cut anywhere (common/tcp, common/sdk/net.go). */
module TcpFraming {
  import opened Wrappers

  type byte = x: int | 0 <= x < 256

  // ---------- frames ----------

  const UINT32: nat := 0x1_0000_0000

  datatype DataPgk = DataPgk(len: nat, data: seq<byte>)

  function BigEndian(n: nat): seq<byte>
    requires n < 0x1_0000_0000
  {
    [n / 0x100_0000, n / 0x1_0000 % 0x100, n / 0x100 % 0x100, n % 0x100]
  }

  function FromBigEndian(b: seq<byte>): (n: nat)
    requires |b| == 4
    ensures n < 0x1_0000_0000
  {
    var b3: int, b2: int, b1: int := b[0], b[1], b[2];
    b3 * 0x100_0000 + b2 * 0x1_0000 + b1 * 0x100 + b[3]
  }

  function Marshal(p: DataPgk): seq<byte>
    requires p.len < 0x1_0000_0000
  {
    BigEndian(p.len) + p.data
  }

  /** What the SDK sends for a message: the length is cut to 32 bits. */
  function Packet(msg: seq<byte>): DataPgk {
    DataPgk(|msg| % UINT32, msg)
  }

  function Encode(msg: seq<byte>): seq<byte> {
    Marshal(Packet(msg))
  }

  /** What a reader finds at the head of a stream that ends after `s`. */
  datatype Parsed = Frame(data: seq<byte>, rest: seq<byte>) | WrongLength(rest: seq<byte>) | Short

  function Parse(s: seq<byte>): Parsed {
    if |s| < 4 then Short
    else
      var n := FromBigEndian(s[..4]);
      if n == 0 then WrongLength(s[4..])
      else if |s| < 4 + n then Short
      else Frame(s[4..4 + n], s[4 + n..])
  }

  lemma BigEndianInverse(n: nat)
    requires n < 0x1_0000_0000
    ensures FromBigEndian(BigEndian(n)) == n
  {
    var n1 := n / 0x100;
    var n2 := n1 / 0x100;
    assert n / 0x1_0000 == n2 && n / 0x100_0000 == n2 / 0x100;
    assert n == n1 * 0x100 + n % 0x100 && n1 == n2 * 0x100 + n1 % 0x100 && n2 == n2 / 0x100 * 0x100 + n2 % 0x100;
  }

  /** The number that digits to the base 256 stand for, the first one counting most. */
  function Base256(digits: seq<byte>): nat {
    if digits == [] then 0 else Base256(digits[..|digits| - 1]) * 256 + digits[|digits| - 1]
  }

  /** On the wire: four bytes of length, the most significant one first, and then the data. */
  lemma MarshalLayout(p: DataPgk)
    requires p.len < 0x1_0000_0000
    ensures |Marshal(p)| == 4 + |p.data| && Base256(Marshal(p)[..4]) == p.len && Marshal(p)[4..] == p.data
  {
    BigEndianInverse(p.len);
    FourDigits(BigEndian(p.len));
    assert Marshal(p)[..4] == BigEndian(p.len);
  }

  lemma FourDigits(b: seq<byte>)
    requires |b| == 4
    ensures Base256(b) == FromBigEndian(b)
  {
    assert b[..3][..2] == b[..2] && b[..2][..1] == b[..1] && b[..1][..0] == [];
    var b3: int, b2: int, b1: int := b[0], b[1], b[2];
    assert Base256(b[..1]) == b3 && Base256(b[..2]) == b3 * 256 + b2 && Base256(b[..3]) == (b3 * 256 + b2) * 256 + b1;
  }

  /** What a reader takes off a stream: the length is read in the same way. */
  lemma ParseLayout(s: seq<byte>)
    requires |s| >= 4
    ensures var n := Base256(s[..4]);
            Parse(s) == if n == 0 then WrongLength(s[4..]) else if |s| < 4 + n then Short else Frame(s[4..4 + n], s[4 + n..])
  {
    FourDigits(s[..4]);
  }

  /** Exactly when a frame reads back, whatever follows it: its length field is the length of its data, and not zero. */
  lemma FrameExact(p: DataPgk, rest: seq<byte>)
    requires p.len < 0x1_0000_0000
    ensures Parse(Marshal(p) + rest) == Frame(p.data, rest) <==> p.len == |p.data| && p.len > 0
  {
    BigEndianInverse(p.len);
    var s := Marshal(p) + rest;
    assert s[..4] == BigEndian(p.len) && s[4..] == p.data + rest;
    if p.len == |p.data| {
      assert s[4..4 + p.len] == p.data && s[4 + p.len..] == rest;
    }
  }

  /** Exactly when a message of the SDK reads back: it is not empty and shorter than four gigabytes. */
  lemma PacketExact(msg: seq<byte>, rest: seq<byte>)
    ensures Parse(Encode(msg) + rest) == Frame(msg, rest) <==> 0 < |msg| < 0x1_0000_0000
  {
    FrameExact(Packet(msg), rest);
  }

  function Stream(msgs: seq<seq<byte>>): seq<byte> {
    if msgs == [] then [] else Encode(msgs[0]) + Stream(msgs[1..])
  }

  // ---------- the connection ----------

  /** A TCP connection: `outgoing` is what it accepted so far, `incoming` the peer's bytes still to be read. */
  class Conn {
    const reliable: bool
    var outgoing: seq<byte>
    var incoming: seq<byte>

    constructor (reliable: bool, incoming: seq<byte>)
      ensures this.reliable == reliable && this.incoming == incoming && outgoing == []
    {
      this.reliable, this.incoming, outgoing := reliable, incoming, [];
    }

    /** Accepts any non-empty part of `data` from `pos` on, or fails; nothing is left to accept at the end. */
    method Write(data: seq<byte>, pos: nat) returns (n: nat, ok: bool)
      requires pos <= |data|
      modifies this`outgoing
      ensures reliable ==> ok
      ensures pos + n <= |data| && (ok && pos < |data| ==> n > 0)
      ensures outgoing == old(outgoing) + data[pos..pos + n]
    {
      if * { n := |data| - pos; } else if pos < |data| { n :| 0 < n <= |data| - pos; } else { n := 0; }
      ok := true;
      if !reliable {
        if * { ok := false; }
      }
      outgoing := outgoing + data[pos..pos + n];
    }

    /** Fills some non-empty part of `buf` from `pos` on, or fails; at the end of the stream it fails. */
    method Read(buf: array<byte>, pos: nat) returns (n: nat, ok: bool)
      requires pos < buf.Length
      modifies this`incoming, buf
      ensures reliable && old(incoming) != [] ==> ok
      ensures ok ==> 0 < n <= |old(incoming)| && pos + n <= buf.Length
      ensures !ok ==> n == 0
      ensures incoming == old(incoming)[n..]
      ensures forall i | 0 <= i < buf.Length :: buf[i] == if pos <= i < pos + n then old(incoming)[i - pos] else old(buf[i])
    {
      if incoming == [] { return 0, false; }
      if !reliable {
        if * { return 0, false; }
      }
      assert 0 < 1 <= buf.Length - pos && 1 <= |incoming|;
      n :| 0 < n <= buf.Length - pos && n <= |incoming|;
      forall i | pos <= i < pos + n { buf[i] := incoming[i - pos]; }
      incoming := incoming[n..];
      ok := true;
    }
  }

  /** Sends everything, in as many writes as it takes; on failure a part of it has been sent. */
  method SendData(conn: Conn, data: seq<byte>) returns (ok: bool)
    modifies conn`outgoing
    ensures conn.reliable ==> ok
    ensures ok ==> conn.outgoing == old(conn.outgoing) + data
    ensures exists k | 0 <= k <= |data| :: conn.outgoing == old(conn.outgoing) + data[..k]
  {
    var writeLen := 0;
    while true
      invariant 0 <= writeLen <= |data| && (writeLen == |data| ==> data == [])
      invariant conn.outgoing == old(conn.outgoing) + data[..writeLen]
      decreases |data| - writeLen
    {
      var n;
      n, ok := conn.Write(data, writeLen);
      assert data[..writeLen] + data[writeLen..writeLen + n] == data[..writeLen + n];
      if !ok { return; }
      writeLen := writeLen + n;
      if writeLen >= |data| { break; }
    }
    assert data[..writeLen] == data;
  }

  /** Fills `buf` from the stream, in as many reads as it takes. */
  method ReadFixedData(conn: Conn, buf: array<byte>) returns (ok: bool)
    requires buf.Length > 0
    modifies conn`incoming, buf
    ensures ok ==> buf.Length <= |old(conn.incoming)| && buf[..] == old(conn.incoming)[..buf.Length]
                   && conn.incoming == old(conn.incoming)[buf.Length..]
    ensures conn.reliable && buf.Length <= |old(conn.incoming)| ==> ok
    ensures !ok ==> exists k | 0 <= k <= |old(conn.incoming)| :: conn.incoming == old(conn.incoming)[k..]
  {
    var pos := 0;
    ghost var s := conn.incoming;
    while true
      invariant 0 <= pos < buf.Length && pos <= |s|
      invariant conn.incoming == s[pos..] && buf[..pos] == s[..pos]
      decreases buf.Length - pos
    {
      var c;
      c, ok := conn.Read(buf, pos);
      if !ok { return; }
      ghost var filled := pos + c;
      assert forall i | 0 <= i < filled :: buf[i] == s[i];
      pos := pos + c;
      if pos == buf.Length { break; }
    }
  }

  datatype ReadResult = Ok(data: seq<byte>) | Error

  /** Reads one frame: over a connection that does not fail, exactly what parsing the stream finds. */
  method ReadData(conn: Conn) returns (r: ReadResult)
    modifies conn`incoming
    ensures r.Ok? ==> Parse(old(conn.incoming)) == Frame(r.data, conn.incoming)
    ensures conn.reliable ==> (r.Ok? <==> Parse(old(conn.incoming)).Frame?)
    ensures exists k | 0 <= k <= |old(conn.incoming)| :: conn.incoming == old(conn.incoming)[k..]
  {
    ghost var s := conn.incoming;
    var dataLenBuf := new byte[4];
    var ok := ReadFixedData(conn, dataLenBuf);
    if !ok { return Error; }
    assert dataLenBuf[..] == s[..4];
    var dataLen := FromBigEndian(dataLenBuf[..]);
    if dataLen <= 0 { return Error; }
    var dataBuf := new byte[dataLen];
    ok := ReadFixedData(conn, dataBuf);
    if !ok { return Error; }
    assert s[4..][..dataLen] == s[4..4 + dataLen] && s[4..][dataLen..] == s[4 + dataLen..];
    return Ok(dataBuf[..]);
  }

  // ---------- round trip ----------

  /** Sends each message as one frame. */
  method SendAll(conn: Conn, msgs: seq<seq<byte>>)
    requires conn.reliable
    modifies conn`outgoing
    ensures conn.outgoing == old(conn.outgoing) + Stream(msgs)
  {
    for i := 0 to |msgs|
      invariant conn.outgoing + Stream(msgs[i..]) == old(conn.outgoing) + Stream(msgs)
    {
      ghost var sent := conn.outgoing;
      var _ := SendData(conn, Encode(msgs[i]));
      assert msgs[i..][1..] == msgs[i + 1..];
      assert sent + (Encode(msgs[i]) + Stream(msgs[i + 1..])) == conn.outgoing + Stream(msgs[i + 1..]);
    }
  }

  /** Any list of messages goes through unchanged and in order, wherever the stream is cut on either side. */
  method Exchange(msgs: seq<seq<byte>>) returns (received: seq<seq<byte>>)
    requires forall m <- msgs :: 0 < |m| < 0x1_0000_0000
    ensures received == msgs
  {
    var sender := new Conn(true, []);
    SendAll(sender, msgs);
    var receiver := new Conn(true, sender.outgoing);
    received := [];
    for i := 0 to |msgs|
      invariant received == msgs[..i] && receiver.incoming == Stream(msgs[i..])
    {
      PacketExact(msgs[i], Stream(msgs[i + 1..]));
      assert msgs[i..][1..] == msgs[i + 1..];
      var r := ReadData(receiver);
      received := received + [r.data];
    }
  }

  /** The same on streams: a list of messages is read back frame by frame. */
  lemma {:induction false} StreamReadsBack(msgs: seq<seq<byte>>, rest: seq<byte>)
    requires forall m <- msgs :: 0 < |m| < 0x1_0000_0000
    ensures ParseMany(Stream(msgs) + rest, |msgs|) == Some(Frames(msgs, rest))
    decreases |msgs|
  {
    hide Encode, Parse;
    if msgs != [] {
      var tail := Stream(msgs[1..]) + rest;
      assert Stream(msgs) + rest == Encode(msgs[0]) + tail;
      PacketExact(msgs[0], tail);
      StreamReadsBack(msgs[1..], rest);
      assert [msgs[0]] + msgs[1..] == msgs;
    } else {
      assert Stream(msgs) + rest == rest && msgs == [];
    }
  }

  datatype Frames = Frames(msgs: seq<seq<byte>>, rest: seq<byte>)

  /** The next `n` frames of a stream. */
  function ParseMany(s: seq<byte>, n: nat): Option<Frames> {
    if n == 0 then Some(Frames([], s))
    else
      match Parse(s)
      case Frame(data, rest) =>
        (match ParseMany(rest, n - 1)
         case Some(f) => Some(Frames([data] + f.msgs, f.rest))
         case None => None)
      case _ => None
  }

  /** Frames delimit themselves: two lists of messages with the same bytes are the same list. */
  lemma {:induction false} StreamInjective(msgs: seq<seq<byte>>, msgs': seq<seq<byte>>)
    requires (forall m <- msgs :: 0 < |m| < 0x1_0000_0000) && (forall m <- msgs' :: 0 < |m| < 0x1_0000_0000)
    requires Stream(msgs) == Stream(msgs')
    ensures msgs == msgs'
    decreases |msgs|
  {
    hide Encode, Parse;
    if msgs != [] { PacketExact(msgs[0], Stream(msgs[1..])); }
    if msgs' != [] { PacketExact(msgs'[0], Stream(msgs'[1..])); }
    ParseEmpty();
    if msgs != [] && msgs' != [] { StreamInjective(msgs[1..], msgs'[1..]); }
  }

  lemma ParseEmpty()
    ensures Parse([]) == Short
  {}
}
