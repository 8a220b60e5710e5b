/** A second invariant of the protocol, what keeps it able to make progress: everything unacknowledged is still in
    flight, SACKs only ever claim more, none the sender has taken claims a packet in flight, packets are small enough
    to be paid for, and the pacer has a rate. */
module Liveness {
  import opened Bits
  import opened Bytes
  import opened Seqs
  import opened Packet
  import opened Sack
  import opened SackManager
  import opened Congestion
  import opened Sender
  import opened SenderFacts
  import opened Receiver
  import opened Protocol
  import Session

  const LARGEST: nat := HEADER_SIZE + MAX_PAYLOAD

  /** `p'` claims at least what `p` claims. */
  ghost predicate Covers(p': Payload, p: Payload) {
    forall q: nat :: Received(p, q) ==> Received(p', q)
  }

  ghost predicate Payable(m: map<u64, Entry>) {
    forall q | q in m :: |m[q].datagram| <= LARGEST
  }

  predicate Funded(s: Sender.State) {
    && s.bucket.rate > 0.0 && Sane(s.prober) && s.prober.bestRate > 0
    && (s.prober.phase.Steady? ==> s.prober.phase.rate > 0)
  }

  /** What was taken out of flight is claimed by the receiver's bitmap. */
  ghost predicate RestClaimed(snd: Sender.State, p: Payload) {
    forall q: u64 | q < snd.nextSeq :: q in snd.inFlight || Received(p, q)
  }

  /** No SACK taken out of the channel claims a packet that is still in flight. */
  ghost predicate Settled(inFlight: map<u64, Entry>, sacks: seq<Payload>, taken: nat) {
    taken <= |sacks| && forall i, q | 0 <= i < taken && q in inFlight :: !Received(sacks[i], q)
  }

  ghost predicate Live(s: System) {
    && Inv(s) && (s.exited <==> Finished(s.snd))
    && Settled(s.snd.inFlight, s.rcv.sackTx, s.taken)
    && !Received(s.rcv.sack, s.rcv.sack.base)
    && RestClaimed(s.snd, s.rcv.sack)
    && (forall p | p in s.rcv.sackTx :: Covers(s.rcv.sack, p))
    && Payable(s.snd.inFlight) && Funded(s.snd)
  }

  lemma StartsLive(s: System)
    requires Starts(s)
    ensures Live(s)
  {
  }

  /** There is a system to start from. */
  lemma SomeStart(session: u32, now: real) returns (s: System)
    ensures Starts(s)
  {
    var p := Payload(0, 0, seq(SACK_WORDS, _ => 0));
    forall q: nat ensures !Received(p, q) { AllZeroBits(p.words, q); }
    var rcv := Receiver.State(session, p, Meter(0, 0, 0, 0.0, 5), false, [], [], [], Session.Rtt(0, 5000));
    s := System(Initial(session, now), rcv, {}, map[], [], false, false, 0, now, now);
  }

  // ---- the sender keeps it ----

  lemma {:induction false} EnqueuedPayable(s: Sender.State, pieces: seq<bytes>, stamp: u64 -> u64, now: real)
    requires s.nextSeq + |pieces| < TWO64 && Payable(s.inFlight)
    requires forall i | 0 <= i < |pieces| :: |pieces[i]| <= MAX_PAYLOAD
    ensures var s' := EnqueuedChunks(s, pieces, stamp, now);
      Payable(s'.inFlight) && s'.bucket == s.bucket && s'.prober == s.prober
    decreases |pieces|
  {
    if pieces != [] {
      assert |pieces[0]| <= MAX_PAYLOAD && forall i | 0 <= i < |pieces[1..]| :: pieces[1..][i] == pieces[i + 1];
      EnqueuedPayable(WithChunk(s, pieces[0], stamp, now), pieces[1..], stamp, now);
    }
  }

  lemma {:induction false} NakAllKeeps(s: Sender.State, sack: Payload, order: seq<u64>)
    ensures var s' := NakAll(s, sack, order);
      && s'.inFlight.Keys == s.inFlight.Keys && s'.bucket == s.bucket && s'.prober == s.prober
      && (Payable(s.inFlight) ==> Payable(s'.inFlight))
    decreases |order|
  {
    if order != [] { NakAllKeeps(NakOne(s, sack, order[0]), sack, order[1..]); }
  }

  lemma HandledFunded(s: Sender.State, e: Event, env: Env)
    requires Admits(s, e) && Funded(s)
    ensures Funded(Handled(s, e, env))
  {
    match e
    case ProbeTimer =>
    case SackIn(sack) =>
      var total := BytesOf(AckedOf(env.beforeAck, sack), s.inFlight);
      NakAllKeeps(s.(inFlight := Unacked(s.inFlight, sack), prober := Acked(s.prober, total, env.eventTime).0),
                  sack, env.afterAck);
    case Chunk(payload) =>
      EnqueuedKeepsFunds(s, Chunks(payload, MAX_PAYLOAD), env.stamp, env.eventTime);
    case Shutdown =>
  }

  lemma {:induction false} EnqueuedKeepsFunds(s: Sender.State, pieces: seq<bytes>, stamp: u64 -> u64, now: real)
    requires s.nextSeq + |pieces| < TWO64
    ensures var s' := EnqueuedChunks(s, pieces, stamp, now); s'.bucket == s.bucket && s'.prober == s.prober
    decreases |pieces|
  {
    if pieces != [] { EnqueuedKeepsFunds(WithChunk(s, pieces[0], stamp, now), pieces[1..], stamp, now); }
  }

  lemma HandledPayable(s: Sender.State, e: Event, env: Env)
    requires Admits(s, e) && Payable(s.inFlight)
    ensures Payable(Handled(s, e, env).inFlight)
  {
    match e
    case SackIn(sack) =>
      var total := BytesOf(AckedOf(env.beforeAck, sack), s.inFlight);
      NakAllKeeps(s.(inFlight := Unacked(s.inFlight, sack), prober := Acked(s.prober, total, env.eventTime).0),
                  sack, env.afterAck);
    case Chunk(payload) =>
      ChunksShape(payload, MAX_PAYLOAD);
      EnqueuedPayable(s, Chunks(payload, MAX_PAYLOAD), env.stamp, env.eventTime);
    case _ =>
  }

  /** Only what some SACK claims leaves the in-flight map. */
  lemma HandledClaimed(s: System, e: Event, env: Env)
    requires Live(s) && SenderMay(s, e, env)
    ensures RestClaimed(Handled(s.snd, e, env), s.rcv.sack)
  {
    match e
    case SackIn(sack) =>
      var total := BytesOf(AckedOf(env.beforeAck, sack), s.snd.inFlight);
      var m := s.snd.(inFlight := Unacked(s.snd.inFlight, sack), prober := Acked(s.snd.prober, total, env.eventTime).0);
      NakAllKeeps(m, sack, env.afterAck);
      NakAllDatagrams(m, sack, env.afterAck);
      assert Covers(s.rcv.sack, sack);
    case Chunk(payload) =>
      var pieces := Chunks(payload, MAX_PAYLOAD);
      EnqueuedNumbers(s.snd, pieces, env.stamp, env.eventTime);
      var h := Handled(s.snd, e, env);
      forall q: u64 | q < h.nextSeq ensures q in h.inFlight || Received(s.rcv.sack, q) {
        EnqueuedInFlight(s.snd, pieces, env.stamp, env.eventTime, q);
      }
    case _ =>
  }

  /** Numbers that are new to the in-flight map are claimed by no SACK there is. */
  lemma NewUnclaimed(s: System, i: nat, q: u64)
    requires Live(s) && i < |s.rcv.sackTx| && s.snd.nextSeq <= q
    ensures !Received(s.rcv.sackTx[i], q)
  {
    assert s.rcv.sackTx[i] in s.rcv.sackTx;
    if Received(s.rcv.sackTx[i], q) { DeliveredEntry(s, q); }
  }

  lemma FewerSettled(m: map<u64, Entry>, m': map<u64, Entry>, sacks: seq<Payload>, sack: Payload, taken: nat)
    requires Settled(m, sacks, taken) && m'.Keys == Unacked(m, sack).Keys
    ensures Settled(m', sacks, taken)
    ensures taken < |sacks| && sacks[taken] == sack ==> Settled(m', sacks, taken + 1)
  {
    assert forall q | q in m' :: q in Unacked(m, sack);
  }

  lemma ChunkSettled(s: System, payload: bytes, env: Env)
    requires Live(s) && SenderMay(s, Chunk(payload), env)
    ensures Settled(Handled(s.snd, Chunk(payload), env).inFlight, s.rcv.sackTx, s.taken)
  {
    var pieces := Chunks(payload, MAX_PAYLOAD);
    forall i, q | 0 <= i < s.taken && q in Enqueued(s.snd, payload, env.stamp, env.eventTime).inFlight
      ensures !Received(s.rcv.sackTx[i], q)
    {
      if q !in s.snd.inFlight {
        EnqueuedInFlight(s.snd, pieces, env.stamp, env.eventTime, q);
        NewUnclaimed(s, i, q);
      }
    }
  }

  lemma HandledSettled(s: System, e: Event, env: Env)
    requires Live(s) && SenderMay(s, e, env)
    ensures Settled(Handled(s.snd, e, env).inFlight, s.rcv.sackTx, Turned(s, e, env).taken)
  {
    match e
    case SackIn(sack) =>
      SackLeaves(s.snd, sack, env);
      FewerSettled(s.snd.inFlight, Handled(s.snd, e, env).inFlight, s.rcv.sackTx, sack, s.taken);
    case Chunk(payload) => ChunkSettled(s, payload, env);
    case _ =>
  }

  lemma SenderKeepsLive(s: System, e: Event, env: Env, s': System)
    requires Live(s) && SenderStep(s, e, env, s')
    ensures Live(s')
  {
    SenderKeepsInv(s, e, env, s');
    HandledFunded(s.snd, e, env);
    HandledPayable(s.snd, e, env);
    HandledClaimed(s, e, env);
    BatchIsSound(Ready(s.snd, e, env), env.unsent, env.rto, env.sendTime, env.wired);
    BatchKeepsRest(Handled(s.snd, e, env), s'.snd, s.rcv.sack);
    HandledSettled(s, e, env);
    BatchKeepsSettled(Handled(s.snd, e, env), s'.snd, s.rcv.sackTx, s'.taken);
  }

  lemma BatchKeepsRest(h: Sender.State, s': Sender.State, p: Payload)
    requires SameContent(h.inFlight, s'.inFlight) && s'.nextSeq == h.nextSeq
    ensures RestClaimed(h, p) ==> RestClaimed(s', p)
    ensures Payable(h.inFlight) ==> Payable(s'.inFlight)
  {
  }

  lemma BatchKeepsSettled(h: Sender.State, s': Sender.State, sacks: seq<Payload>, taken: nat)
    requires SameContent(h.inFlight, s'.inFlight) && Settled(h.inFlight, sacks, taken)
    ensures Settled(s'.inFlight, sacks, taken)
  {
  }

  // ---- the receiver keeps it ----

  lemma DeliverKeepsLive(s: System, buf: bytes, now: u64, room: bool, s': System)
    requires Live(s) && Next(s, Deliver(buf, now, room), s')
    ensures Live(s')
  {
    DeliverKeepsInv(s, buf, now, room, s');
    var r :| Processed(s.rcv, buf, now, room, s'.rcv, r);
    ClaimsOnlyGrow(s.rcv, buf, now, room, s'.rcv, r);
    ClaimsGrow(s.snd, s.rcv.sack, s'.rcv.sack, s.rcv.sackTx);
  }

  /** Whatever arrives, the bitmap claims at least what it did, its base stays unclaimed, and a SACK sent on the
      occasion is that bitmap. */
  lemma ClaimsOnlyGrow(r: Receiver.State, buf: bytes, now: u64, room: bool, r': Receiver.State, o: Option<bool>)
    requires Canonical(r.sack) && Processed(r, buf, now, room, r', o) && !Received(r.sack, r.sack.base)
    ensures Covers(r'.sack, r.sack) && !Received(r'.sack, r'.sack.base)
    ensures r.sackTx <= r'.sackTx && forall p | p in r'.sackTx :: p in r.sackTx || p == r'.sack
  {
    match Classify(buf, r.session)
    case Data(sn, _) => assert Arrival(r.sack, sn, r'.sack);
    case _ =>
  }

  lemma ClaimsGrow(snd: Sender.State, p: Payload, p': Payload, sacks: seq<Payload>)
    requires Covers(p', p) && RestClaimed(snd, p) && forall x | x in sacks :: Covers(p, x)
    ensures RestClaimed(snd, p') && forall x | x in sacks :: Covers(p', x)
  {
  }

  lemma NextKeepsLive(s: System, a: Action, s': System)
    requires Live(s) && Next(s, a, s')
    ensures Live(s')
  {
    match a
    case SenderTurn(e, env) => SenderKeepsLive(s, e, env, s');
    case Deliver(buf, now, room) => DeliverKeepsLive(s, buf, now, room, s');
    case Heartbeat(room, ts) =>
      NextKeepsInv(s, a, s');
      assert forall p | p in s'.rcv.sackTx :: p in s.rcv.sackTx || p == s.rcv.sack;
  }

  /** In every reachable state. */
  lemma {:induction false} LiveAlways(ss: seq<System>, actions: seq<Action>, n: nat)
    requires Execution(ss, actions) && n < |ss|
    ensures Live(ss[n])
  {
    if n == 0 {
      StartsLive(ss[0]);
    } else {
      var i := n - 1;
      LiveAlways(ss, actions, i);
      OneMoreLive(ss, actions, i);
      assert ss[n] == ss[i + 1];
    }
  }

  lemma OneMoreLive(ss: seq<System>, actions: seq<Action>, i: nat)
    requires Execution(ss, actions) && i < |actions| && Live(ss[i])
    ensures Live(ss[i + 1])
  {
    ExecutionStep(ss, actions, i);
    NextKeepsLive(ss[i], actions[i], ss[i + 1]);
  }
}
