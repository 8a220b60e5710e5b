/** The 29-byte header in front of every RUDP datagram (crates/protocol/src/packet.rs). */
module Packet {
  import opened Bits
  import opened Bytes

  const HEADER_SIZE: nat := 29

  // Bit positions of the control flags.
  const FIN: nat := 1
  const DATA: nat := 2
  const PING: nat := 5
  const PONG: nat := 6

  datatype Header = Header(
    sessionId: u32, sequenceNumber: u64, timestampUs: u64, flags: byte, payloadLen: u16,
    fecGroupId: u32, fecIndex: byte, fecGroupSize: byte)
  {
    predicate IsFin() { Bit(flags, FIN) }
    predicate IsData() { Bit(flags, DATA) }
    predicate IsPing() { Bit(flags, PING) }
    predicate IsPong() { Bit(flags, PONG) }
  }

  function NewData(session: u32, sn: u64, ts: u64, payloadLen: u16): Header {
    Header(session, sn, ts, 0x04, payloadLen, 0, 0, 0)
  }

  function NewHeartbeatSack(session: u32, sn: u64, ts: u64, payloadLen: u16): Header {
    Header(session, sn, ts, 0x10, payloadLen, 0, 0, 0)
  }

  function NewPing(session: u32, sn: u64, ts: u64): Header {
    Header(session, sn, ts, 0x20, 0, 0, 0, 0)
  }

  function NewSyn(session: u32, ts: u64): Header {
    Header(session, 0, ts, 0x01, 0, 0, 0, 0)
  }

  /** Echoes the timestamp the peer wrote. */
  function NewPong(session: u32, sn: u64, peerTs: u64): Header {
    Header(session, sn, peerTs, 0x40, 0, 0, 0, 0)
  }

  function NewFin(session: u32, sn: u64, ts: u64): Header {
    Header(session, sn, ts, 0x02, 0, 0, 0, 0)
  }

  /** The packed struct as it lies in memory on a little-endian machine. */
  function Encode(h: Header): (r: bytes)
    ensures |r| == HEADER_SIZE
  {
    LE(h.sessionId, 4) + (LE(h.sequenceNumber, 8) + (LE(h.timestampUs, 8) + Tail(h)))
  }

  function Tail(h: Header): (r: bytes)
    ensures |r| == 9
  {
    [h.flags] + (LE(h.payloadLen, 2) + (LE(h.fecGroupId, 4) + [h.fecIndex, h.fecGroupSize]))
  }

  /** A header at its layout offsets; None when the datagram is shorter than a header. */
  function ReadFrom(buf: bytes): (r: Option<Header>)
    ensures r.None? <==> |buf| < HEADER_SIZE
  {
    if |buf| < HEADER_SIZE then None
    else
      Pow256Widths();
      Some(Header(
        FromLE(buf[0..4]), FromLE(buf[4..12]), FromLE(buf[12..20]), buf[20],
        FromLE(buf[21..23]), FromLE(buf[23..27]), buf[27], buf[28]))
  }

  lemma FieldsOf(h: Header, rest: bytes)
    ensures var b := Encode(h) + rest;
      && b[0..4] == LE(h.sessionId, 4) && b[4..12] == LE(h.sequenceNumber, 8)
      && b[12..20] == LE(h.timestampUs, 8) && b[20] == h.flags && b[21..23] == LE(h.payloadLen, 2)
      && b[23..27] == LE(h.fecGroupId, 4) && b[27] == h.fecIndex && b[28] == h.fecGroupSize
      && b[HEADER_SIZE..] == rest
  {
    var b := Encode(h) + rest;
    assert b[0..] == b;
    FourFields(b, 0, LE(h.sessionId, 4), LE(h.sequenceNumber, 8), LE(h.timestampUs, 8), Tail(h), rest);
    FourFields(b, 20, [h.flags], LE(h.payloadLen, 2), LE(h.fecGroupId, 4), [h.fecIndex, h.fecGroupSize], rest);
    ReadField(b, 27, [h.fecIndex, h.fecGroupSize], rest);
  }

  /** Reading undoes writing, whatever payload follows. */
  lemma ReadInvertsEncode(h: Header, rest: bytes)
    ensures ReadFrom(Encode(h) + rest) == Some(h)
  {
    FieldsOf(h, rest);
    Pow256Widths();
    FromLEInverts(h.sessionId, 4);
    FromLEInverts(h.sequenceNumber, 8);
    FromLEInverts(h.timestampUs, 8);
    FromLEInverts(h.payloadLen, 2);
    FromLEInverts(h.fecGroupId, 4);
  }

  /** Each constructor sets one flag, and of the four flags the receiver tests exactly the intended one, if any. */
  lemma FlagsOfConstructors(session: u32, sn: u64, ts: u64, len: u16)
    ensures var d := NewData(session, sn, ts, len); d.IsData() && !d.IsPing() && !d.IsPong() && !d.IsFin()
    ensures var p := NewPing(session, sn, ts); p.IsPing() && !p.IsData() && !p.IsPong() && !p.IsFin()
    ensures var p := NewPong(session, sn, ts); p.IsPong() && !p.IsData() && !p.IsPing() && !p.IsFin()
    ensures var f := NewFin(session, sn, ts); f.IsFin() && !f.IsData() && !f.IsPing() && !f.IsPong()
    ensures var h := NewHeartbeatSack(session, sn, ts, len); !h.IsData() && !h.IsPing() && !h.IsPong() && !h.IsFin()
    ensures var y := NewSyn(session, ts); !y.IsData() && !y.IsPing() && !y.IsPong() && !y.IsFin()
  {
    LowBits(0x01);
    LowBits(0x02);
    LowBits(0x04);
    LowBits(0x10);
    LowBits(0x20);
    LowBits(0x40);
  }

  /** The tested bits of a flag byte, by division. */
  lemma LowBits(w: nat)
    ensures Bit(w, 1) == (w / 2 % 2 == 1) && Bit(w, 2) == (w / 2 / 2 % 2 == 1)
    ensures Bit(w, 5) == (w / 2 / 2 / 2 / 2 / 2 % 2 == 1) && Bit(w, 6) == (w / 2 / 2 / 2 / 2 / 2 / 2 % 2 == 1)
  {
    assert Bit(w, 1) == Bit(w / 2, 0);
    assert Bit(w, 2) == Bit(w / 2, 1) == Bit(w / 2 / 2, 0);
    BitFive(w);
  }

  lemma BitFive(w: nat)
    ensures Bit(w, 5) == Bit(w / 2 / 2 / 2 / 2 / 2, 0)
    ensures Bit(w, 6) == Bit(w / 2 / 2 / 2 / 2 / 2 / 2, 0)
  {
    assert Bit(w, 5) == Bit(w / 2, 4) == Bit(w / 2 / 2, 3);
    assert Bit(w / 2 / 2, 3) == Bit(w / 2 / 2 / 2, 2) == Bit(w / 2 / 2 / 2 / 2, 1);
    assert Bit(w, 6) == Bit(w / 2, 5) == Bit(w / 2 / 2, 4);
    assert Bit(w / 2 / 2, 4) == Bit(w / 2 / 2 / 2, 3) == Bit(w / 2 / 2 / 2 / 2, 2);
    assert Bit(w / 2 / 2 / 2 / 2, 2) == Bit(w / 2 / 2 / 2 / 2 / 2, 1);
  }

  lemma CutFour(b: bytes, i: nat, j: nat, k: nat)
    requires i <= j <= k <= |b|
    ensures b == b[..i] + (b[i..j] + (b[j..k] + b[k..]))
  {
  }

  /** Writing undoes reading: no header byte is ignored. */
  lemma EncodeInvertsRead(buf: bytes)
    requires |buf| >= HEADER_SIZE
    ensures Encode(ReadFrom(buf).value) == buf[..HEADER_SIZE]
  {
    var a, b, c, d := buf[0..4], buf[4..12], buf[12..20], buf[20..HEADER_SIZE];
    TailSlices(buf, d);
    PartsInvert(a, b, c, d, ReadFrom(buf).value);
    PartsJoin(buf);
  }

  lemma PartsJoin(buf: bytes)
    requires |buf| >= HEADER_SIZE
    ensures buf[..HEADER_SIZE] == buf[0..4] + (buf[4..12] + (buf[12..20] + buf[20..HEADER_SIZE]))
  {
  }

  lemma TailSlices(buf: bytes, d: bytes)
    requires |buf| >= HEADER_SIZE && d == buf[20..HEADER_SIZE]
    ensures d[0] == buf[20] && d[1..3] == buf[21..23] && d[3..7] == buf[23..27] && d[7] == buf[27] && d[8] == buf[28]
  {
  }

  lemma PartsInvert(a: bytes, b: bytes, c: bytes, d: bytes, h: Header)
    requires |a| == 4 && |b| == |c| == 8 && |d| == 9
    requires h.sessionId == FromLE(a) && h.sequenceNumber == FromLE(b) && h.timestampUs == FromLE(c)
    requires h.flags == d[0] && h.payloadLen == FromLE(d[1..3]) && h.fecGroupId == FromLE(d[3..7])
    requires h.fecIndex == d[7] && h.fecGroupSize == d[8]
    ensures Encode(h) == a + (b + (c + d))
  {
    LEInverts(a);
    LEInverts(b);
    LEInverts(c);
    TailInverts(d, h);
  }

  lemma TailInverts(d: bytes, h: Header)
    requires |d| == 9
    requires h.flags == d[0] && h.payloadLen == FromLE(d[1..3]) && h.fecGroupId == FromLE(d[3..7])
    requires h.fecIndex == d[7] && h.fecGroupSize == d[8]
    ensures Tail(h) == d
  {
    LEInverts(d[1..3]);
    LEInverts(d[3..7]);
    CutFour(d, 1, 3, 7);
  }

  /** Copies the header over the first 29 bytes of the caller's buffer and touches nothing else. */
  method WriteTo(h: Header, buf: array<byte>)
    requires buf.Length >= HEADER_SIZE
    modifies buf
    ensures buf[..] == Encode(h) + old(buf[HEADER_SIZE..])
  {
    var src := Encode(h);
    for i := 0 to HEADER_SIZE
      invariant buf[..i] == src[..i]
      invariant buf[HEADER_SIZE..] == old(buf[HEADER_SIZE..])
    {
      buf[i] := src[i];
    }
    assert buf[..] == buf[..HEADER_SIZE] + buf[HEADER_SIZE..];
  }

  /** A DATA packet: the header with the chunk's length, then the chunk. */
  function DataDatagram(session: u32, sn: u64, ts: u64, chunk: bytes): bytes {
    Encode(NewData(session, sn, ts, |chunk| % TWO16)) + chunk
  }

  /** Zeroed buffer, header written in, payload copied behind it. */
  method BuildDatagram(h: Header, chunk: bytes) returns (datagram: bytes)
    ensures datagram == Encode(h) + chunk
  {
    var buf := new byte[HEADER_SIZE + |chunk|](_ => 0);
    WriteTo(h, buf);
    for i := 0 to |chunk|
      invariant buf[..HEADER_SIZE] == Encode(h)
      invariant buf[HEADER_SIZE..HEADER_SIZE + i] == chunk[..i]
    {
      buf[HEADER_SIZE + i] := chunk[i];
      assert buf[HEADER_SIZE..HEADER_SIZE + i + 1] == buf[HEADER_SIZE..HEADER_SIZE + i] + [chunk[i]];
    }
    datagram := buf[..];
    assert buf[HEADER_SIZE..] == buf[HEADER_SIZE..HEADER_SIZE + |chunk|];
    assert chunk[..|chunk|] == chunk;
    assert datagram == buf[..HEADER_SIZE] + buf[HEADER_SIZE..];
  }
}
