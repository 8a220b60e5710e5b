/** What the receiver keeps to: its own session, its own clock, and silence before the first data
    (crates/protocol/src/receiver.rs:183-304). */
module ReceiverFacts {
  import opened Bits
  import opened Bytes
  import opened Seqs
  import opened Packet
  import opened Receiver
  import Sack
  import SackCodec
  import SackHistory
  import Session
  import EndToEnd

  /** A datagram that is too short for a header, or whose first four bytes are another session's number, changes
      nothing. */
  lemma ForeignIgnored(s: State, buf: bytes, now: u64, room: bool, s': State, r: Option<bool>)
    requires Sack.Canonical(s.sack) && Processed(s, buf, now, room, s', r)
    requires |buf| < 29 || FromLE(buf[0..4]) != s.session
    ensures s' == s && r == None
  {
  }

  /** A PING sent by `a` at its clock reading ts, answered by `b`: whatever the clock of b, the PONG gives `a` its own
      time since ts as a sample, and nothing else changes on either side. */
  lemma PingToRtt(a: State, b: State, sn: u64, ts: u64, bNow: u64, b': State, rb: Option<bool>,
                  now: u64, a': State, ra: Option<bool>)
    requires Sack.Canonical(a.sack) && Sack.Canonical(b.sack) && a.session == b.session
    requires Processed(b, Encode(NewPing(a.session, sn, ts)), bNow, true, b', rb)
    requires |b'.socketOut| == |b.socketOut| + 1 ==> Processed(a, b'.socketOut[|b.socketOut|], now, true, a', ra)
    ensures |b'.socketOut| == |b.socketOut| + 1 && b' == b.(socketOut := b'.socketOut) && rb == Some(false)
    ensures a' == (if now >= ts then a.(rtt := Session.Updated(a.rtt, now - ts)) else a) && ra == Some(false)
  {
    PongEchoesPing(a.session, sn, ts);
    var out := b.socketOut + [Encode(NewPong(b.session, sn, ts))];
    assert out[|b.socketOut|] == Encode(NewPong(b.session, sn, ts));
  }

  // ---- silence before the first data ----

  predicate IsData(buf: bytes, session: u32) {
    var k := Classify(buf, session);
    k.Data? || k.Truncated?
  }

  /** Consecutive turns of the receiver's loop. */
  ghost predicate Turns(ss: seq<State>, steps: seq<EndToEnd.Step>) {
    && |ss| == |steps| + 1
    && (forall i | 0 <= i < |ss| :: Sack.Canonical(ss[i].sack))
    && forall i | 0 <= i < |steps| :: EndToEnd.Turn(ss[i], steps[i], ss[i + 1])
  }

  ghost predicate OnlyPongs(s: State) {
    !s.dataSeen && forall d | d in s.socketOut :: Classify(d, s.session).Pong?
  }

  lemma QuietTurn(s: State, step: EndToEnd.Step, s': State)
    requires Sack.Canonical(s.sack) && EndToEnd.Turn(s, step, s') && OnlyPongs(s)
    requires step.Arrive? ==> !IsData(step.buf, s.session)
    ensures OnlyPongs(s') && s'.session == s.session
  {
    if step.Arrive? {
      match Classify(step.buf, s.session)
      case Ping(sn, ts) => PongEchoesPing(s.session, sn, ts);
      case _ =>
    }
  }

  /** Until a data packet of the session arrives, nothing but PONGs goes on the wire: no SACK. */
  lemma {:induction false} QuietBeforeData(ss: seq<State>, steps: seq<EndToEnd.Step>, n: nat)
    requires Turns(ss, steps) && n <= |steps| && OnlyPongs(ss[0])
    requires forall i | 0 <= i < n :: steps[i].Arrive? ==> !IsData(steps[i].buf, ss[0].session)
    ensures OnlyPongs(ss[n]) && ss[n].session == ss[0].session
  {
    if n > 0 {
      QuietBeforeData(ss, steps, n - 1);
      QuietTurn(ss[n - 1], steps[n - 1], ss[n]);
    }
  }

  /** A data packet of the session, even one cut short, opens the wire, and it stays open. */
  lemma DataOpensWire(s: State, step: EndToEnd.Step, s': State)
    requires Sack.Canonical(s.sack) && EndToEnd.Turn(s, step, s')
    ensures s'.dataSeen <==> s.dataSeen || (step.Arrive? && IsData(step.buf, s.session))
  {
  }

  /** From then on every heartbeat sends the bitmap, in a packet of the session that says so and from which it is
      read back exactly. */
  lemma HeartbeatGoesOut(s: State, room: bool, ts: u64)
    requires Sack.Canonical(s.sack) && s.dataSeen
    ensures var out, n := HeartbeatSent(s, room, ts).socketOut, |s.socketOut|;
      && |out| == n + 1 && out[..n] == s.socketOut
      && var d := out[n];
         && |d| == 29 + 9 + 8 * s.sack.wordCount
         && ReadFrom(d) == Some(Header(s.session, 0, ts, 0x10, 9 + 8 * s.sack.wordCount, 0, 0, 0))
         && SackCodec.Decode(d[29..]) == SackCodec.Done(s.sack, |d| - 29)
  {
    var h := NewHeartbeatSack(s.session, 0, ts, SackCodec.WireSize(s.sack));
    ReadInvertsEncode(h, SackCodec.Encode(s.sack));
    SackCodec.DecodeInvertsEncode(s.sack, []);
    assert SackCodec.Encode(s.sack) + [] == SackCodec.Encode(s.sack);
    assert SackDatagram(s.session, ts, s.sack)[29..] == SackCodec.Encode(s.sack);
  }

  // ---- what the loss meter sees ----

  /** A data packet of the session is an arrival; a heartbeat, the FIN's included, is a heartbeat; the rest is
      nothing. */
  function MeterEvents(step: EndToEnd.Step, session: u32): seq<SackHistory.Event> {
    match step
    case Heartbeat(_, _) => [SackHistory.Heartbeat]
    case Arrive(buf, _, _) =>
      match Classify(buf, session)
      case Data(sn, _) => [SackHistory.Arrive(sn)]
      case Fin => [SackHistory.Heartbeat]
      case _ => []
  }

  function AllMeterEvents(steps: seq<EndToEnd.Step>, session: u32): seq<SackHistory.Event> {
    if steps == [] then []
    else AllMeterEvents(steps[..|steps| - 1], session) + MeterEvents(steps[|steps| - 1], session)
  }

  lemma TurnMetered(s: State, step: EndToEnd.Step, s': State)
    requires Sack.Canonical(s.sack) && EndToEnd.Turn(s, step, s')
    ensures s'.meter == SackHistory.MeterFrom(s.meter, MeterEvents(step, s.session)) && s'.session == s.session
  {
    var es := MeterEvents(step, s.session);
    if es != [] { assert es[..0] == []; }
  }

  /** Over every run the loss meter is that of the arrivals and heartbeats of the run. */
  lemma {:induction false} RunMetered(ss: seq<State>, steps: seq<EndToEnd.Step>, n: nat)
    requires Turns(ss, steps) && n <= |steps|
    ensures ss[n].session == ss[0].session
    ensures ss[n].meter == SackHistory.MeterFrom(ss[0].meter, AllMeterEvents(steps[..n], ss[0].session))
  {
    if n > 0 {
      RunMetered(ss, steps, n - 1);
      TurnMetered(ss[n - 1], steps[n - 1], ss[n]);
      assert steps[..n][..n - 1] == steps[..n - 1];
      SackHistory.MeterJoins(ss[0].meter, AllMeterEvents(steps[..n - 1], ss[0].session),
                             MeterEvents(steps[n - 1], ss[0].session));
    }
  }

  // ---- what the channel to the sender gets ----

  /** A heartbeat and a FIN offer the bitmap of their moment; it goes in exactly when there is room. */
  function Offered(s: State, step: EndToEnd.Step): seq<Sack.Payload> {
    match step
    case Heartbeat(room, _) => if room then [s.sack] else []
    case Arrive(buf, _, room) => if Classify(buf, s.session).Fin? && room then [s.sack] else []
  }

  function AllOffered(ss: seq<State>, steps: seq<EndToEnd.Step>, n: nat): seq<Sack.Payload>
    requires n <= |steps| < |ss|
  {
    if n == 0 then [] else AllOffered(ss, steps, n - 1) + Offered(ss[n - 1], steps[n - 1])
  }

  lemma TurnOffers(s: State, step: EndToEnd.Step, s': State)
    requires Sack.Canonical(s.sack) && EndToEnd.Turn(s, step, s')
    ensures s'.sackTx == s.sackTx + Offered(s, step)
  {
    if Offered(s, step) == [] { assert s.sackTx + [] == s.sackTx; }
  }

  lemma StepOffers(ss: seq<State>, steps: seq<EndToEnd.Step>, i: nat)
    requires Turns(ss, steps) && i < |steps|
    ensures ss[i + 1].sackTx == ss[i].sackTx + Offered(ss[i], steps[i])
  {
    TurnOffers(ss[i], steps[i], ss[i + 1]);
  }

  lemma {:induction false} ChannelIsOffered(ss: seq<State>, steps: seq<EndToEnd.Step>, n: nat)
    requires Turns(ss, steps) && n <= |steps|
    ensures ss[n].sackTx == ss[0].sackTx + AllOffered(ss, steps, n)
  {
    if n == 0 {
      assert ss[0].sackTx + [] == ss[0].sackTx;
    } else {
      ChannelIsOffered(ss, steps, n - 1);
      StepOffers(ss, steps, n - 1);
      Assoc(ss[0].sackTx, AllOffered(ss, steps, n - 1), Offered(ss[n - 1], steps[n - 1]));
    }
  }
}
