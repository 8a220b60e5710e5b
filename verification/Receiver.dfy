/** The receive side of a session: dispatch of each datagram and the heartbeat
    (crates/protocol/src/receiver.rs). */
module Receiver {
  import opened Bits
  import opened Bytes
  import opened Seqs
  import opened Packet
  import opened Sack
  import opened SackManager
  import SackCodec
  import Session

  /** `log` pairs each payload handed to the application with its sequence number; `dataTx` is the
      application's view of it. */
  datatype State = State(
    session: u32, sack: Payload, meter: Meter, dataSeen: bool, log: seq<(u64, bytes)>,
    sackTx: seq<Payload>, socketOut: seq<bytes>, rtt: Session.Rtt)

  datatype Kind = Malformed | Foreign | Truncated | Data(sn: u64, payload: bytes)
                | Ping(sn: u64, ts: u64) | Pong(ts: u64) | Fin | Other

  function Classify(buf: bytes, session: u32): Kind {
    match ReadFrom(buf)
    case None => Malformed
    case Some(h) =>
      if h.sessionId != session then Foreign
      else if h.IsData() then
        if |buf| < HEADER_SIZE + h.payloadLen then Truncated
        else Data(h.sequenceNumber, buf[HEADER_SIZE..HEADER_SIZE + h.payloadLen])
      else if h.IsPing() then Ping(h.sequenceNumber, h.timestampUs)
      else if h.IsPong() then Pong(h.timestampUs)
      else if h.IsFin() then Fin
      else Other
  }

  /** A DATA packet as the sender builds it is recognised, with its own number and bytes. */
  lemma ClassifyData(session: u32, sn: u64, ts: u64, chunk: bytes)
    requires |chunk| < TWO16
    ensures Classify(DataDatagram(session, sn, ts, chunk), session) == Data(sn, chunk)
  {
    var h := NewData(session, sn, ts, |chunk| % TWO16);
    Below16(|chunk|);
    ReadInvertsEncode(h, chunk);
    FlagsOfConstructors(session, sn, ts, |chunk|);
    AppendBack(Encode(h), chunk);
  }

  lemma ClassifyFin(session: u32, sn: u64, ts: u64)
    ensures Classify(Encode(NewFin(session, sn, ts)), session) == Fin
  {
    var h := NewFin(session, sn, ts);
    assert Encode(h) + [] == Encode(h);
    ReadInvertsEncode(h, []);
    FlagsOfConstructors(session, sn, ts, 0);
  }

  /** The answer to a PING reaches the peer as a PONG that carries the PING's own timestamp: what the peer
      measures is its clock now minus its clock when it sent the PING. */
  lemma PongEchoesPing(session: u32, sn: u64, ts: u64)
    ensures Classify(Encode(NewPing(session, sn, ts)), session) == Ping(sn, ts)
    ensures Classify(Encode(NewPong(session, sn, ts)), session) == Pong(ts)
  {
    assert Encode(NewPing(session, sn, ts)) + [] == Encode(NewPing(session, sn, ts));
    assert Encode(NewPong(session, sn, ts)) + [] == Encode(NewPong(session, sn, ts));
    ReadInvertsEncode(NewPing(session, sn, ts), []);
    ReadInvertsEncode(NewPong(session, sn, ts), []);
    FlagsOfConstructors(session, sn, ts, 0);
  }

  function SackDatagram(session: u32, ts: u64, p: Payload): bytes
    requires Canonical(p)
  {
    Encode(NewHeartbeatSack(session, 0, ts, SackCodec.WireSize(p))) + SackCodec.Encode(p)
  }

  /** A heartbeat: the bitmap goes to the sender's channel if there is room, and on the wire once data was seen. */
  function HeartbeatSent(s: State, room: bool, ts: u64): State
    requires Canonical(s.sack)
  {
    s.(meter := MeterTick(s.meter),
       sackTx := if room then s.sackTx + [s.sack] else s.sackTx,
       socketOut := if s.dataSeen then s.socketOut + [SackDatagram(s.session, ts, s.sack)] else s.socketOut)
  }

  /** Numbers the 64-bit sequence arithmetic can take. */
  predicate InRange(s: State, buf: bytes) {
    var k := Classify(buf, s.session);
    k.Data? ==> k.sn + 1 < TWO64 && s.sack.base + SACK_WINDOW < TWO64
  }

  /** One datagram of each kind. Every DATA packet that parses is delivered, duplicates and
      out-of-window ones included. */
  ghost predicate Processed(s: State, buf: bytes, now: u64, room: bool, s': State, r: Option<bool>)
    requires Canonical(s.sack)
  {
    match Classify(buf, s.session)
    case Malformed => s' == s && r == None
    case Foreign => s' == s && r == None
    case Truncated => s' == s.(dataSeen := true) && r == None
    case Data(sn, payload) =>
      && Arrival(s.sack, sn, s'.sack)
      && s' == s.(sack := s'.sack, meter := MeterArrival(s.meter, sn), dataSeen := true, log := s.log + [(sn, payload)])
      && r == Some(false)
    case Ping(sn, ts) => s' == s.(socketOut := s.socketOut + [Encode(NewPong(s.session, sn, ts))]) && r == Some(false)
    case Pong(ts) => s' == (if now >= ts then s.(rtt := Session.Updated(s.rtt, now - ts)) else s) && r == Some(false)
    case Fin => s' == HeartbeatSent(s, room, now) && r == Some(true)
    case Other => s' == s && r == Some(false)
  }

  function Payloads(log: seq<(u64, bytes)>): (r: seq<bytes>)
    ensures |r| == |log|
  {
    seq(|log|, i requires 0 <= i < |log| => log[i].1)
  }

  class ReceiverTask {
    const session: u32
    const manager: Manager
    const stats: Session.SessionStats
    var dataSeen: bool
    var dataTx: seq<bytes>
    var sackTx: seq<Payload>
    var socketOut: seq<bytes>
    ghost var log: seq<(u64, bytes)>

    ghost predicate Valid()
      reads this, manager, manager.payload, manager.payload.words
    {
      manager.Valid() && dataTx == Payloads(log)
    }

    ghost function Value(): State
      reads this, manager, manager.payload, manager.payload.words, stats
    {
      State(session, manager.Value(), manager.Meters(), dataSeen, log, sackTx, socketOut, stats.Value())
    }

    constructor (session: u32, initial: u64, stats: Session.SessionStats)
      ensures Valid() && fresh(manager) && fresh(manager.payload) && fresh(manager.payload.words)
      ensures this.stats == stats && this.session == session
      ensures Value().log == [] && Value().sackTx == [] && !Value().dataSeen
      ensures Value().sack.base == initial
      ensures forall q: nat :: Received(Value().sack, q) == (q < initial)
    {
      this.session, this.stats := session, stats;
      manager := new Manager(initial);
      dataSeen, dataTx, sackTx, socketOut, log := false, [], [], [], [];
    }

    /** `old_interval` is read after the tick has already updated it, so the caller is never told of a change. */
    method SendHeartbeatSack(room: bool, ts: u64) returns (newInterval: Option<nat>)
      requires Valid()
      modifies this, manager
      ensures Valid() && Value() == HeartbeatSent(old(Value()), room, ts)
      ensures newInterval == None
    {
      var sack := manager.Tick();
      var oldInterval := manager.intervalMs;
      if room { sackTx := sackTx + [sack]; }
      var header := NewHeartbeatSack(session, 0, ts, SackCodec.WireSize(sack));
      var buf := SackCodec.Serialise(sack, Encode(header));
      if dataSeen { socketOut := socketOut + [buf]; }
      var current := manager.intervalMs;
      newInterval := if current != oldInterval then Some(current) else None;
    }

    method ProcessDatagram(buf: bytes, now: u64, room: bool) returns (r: Option<bool>)
      requires Valid() && InRange(Value(), buf)
      modifies this, manager, manager.payload, manager.payload.words, stats
      ensures Valid() && Processed(old(Value()), buf, now, room, Value(), r)
    {
      var parsed := ReadFrom(buf);
      if parsed.None? { return None; }
      var h := parsed.value;
      if h.sessionId != session { return None; }
      if h.IsData() {
        dataSeen := true;
        if |buf| < HEADER_SIZE + h.payloadLen { return None; }
        var payload := buf[HEADER_SIZE..HEADER_SIZE + h.payloadLen];
        manager.OnPacketReceived(h.sequenceNumber);
        dataTx := dataTx + [payload];
        log := log + [(h.sequenceNumber, payload)];
        return Some(false);
      }
      if h.IsPing() {
        socketOut := socketOut + [Encode(NewPong(session, h.sequenceNumber, h.timestampUs))];
        return Some(false);
      }
      if h.IsPong() {
        if now >= h.timestampUs {
          stats.UpdateRtt(now - h.timestampUs);
        }
        return Some(false);
      }
      if h.IsFin() {
        var _ := SendHeartbeatSack(room, now);
        return Some(true);
      }
      r := Some(false);
    }
  }
}
