/** Concrete inputs the code can receive, one for each of its limits that the other modules state in general. */
module Witnesses {
  import opened Bits
  import opened Bytes
  import opened Seqs
  import Addresses
  import Congestion
  import Ice
  import Liveness
  import Packer
  import Packet
  import Progress
  import Protocol
  import Receiver
  import Retransmit
  import Sack
  import SackHistory
  import SackManager
  import Sender
  import SenderFacts
  import SenderProgress
  import Session
  import Stun
  import Tlv
  import Turn
  import Unframed
  import Writer
  import WriterOrder

  // ---- pair priorities ----

  lemma OrOfDoubles(x: nat, y: nat)
    ensures Or(2 * x, 2 * y) == 2 * Or(x, y)
  {
  }

  lemma TimesPow2(a: nat, n: nat)
    requires n > 0
    ensures a * Pow2(n) == 2 * (a * Pow2(n - 1))
  {
    DoubleProduct(a, Pow2(n - 1), 2 * a);
  }

  lemma {:induction false} OrShifted(a: nat, b: nat, n: nat)
    ensures Or(a * Pow2(n), b * Pow2(n)) == Or(a, b) * Pow2(n)
    decreases n
  {
    if n > 0 {
      OrShifted(a, b, n - 1);
      TimesPow2(a, n);
      TimesPow2(b, n);
      TimesPow2(Or(a, b), n);
      OrOfDoubles(a * Pow2(n - 1), b * Pow2(n - 1));
    }
  }

  /** The priority of a host candidate is odd, and against it a remote candidate of priority 2^31, which another
      implementation may announce, ranks below one of priority 2^31 - 1. */
  lemma HigherRemoteRanksLower(addr: Addresses.SocketAddr)
    ensures var local := Ice.NewCandidate(Ice.Host, addr, 65535).priority;
      Ice.PairPriority(local, 0x8000_0000, Ice.Controlling) < Ice.PairPriority(local, 0x7FFF_FFFF, Ice.Controlling)
  {
    var local: u32 := 0x7EFF_FFFF;
    assert Ice.NewCandidate(Ice.Host, addr, 65535).priority == local;
    Ice.Pow2Is32();
    Ice.ShiftsAreProducts(local, 0x8000_0000);
    OrShifted(local, 1, 32);
    assert Or(local, 1) == 2 * Or(local / 2, 0) + 1 == local;
    Ice.TieAdds(local * TWO32, 0);
    Ice.PairPriorityIsSum(local, 0x7FFF_FFFF, Ice.Controlling);
  }

  /** One pair whose peer is slow to come up: the first pass fails it, and no later pass asks again. */
  lemma LatePeerIsNeverAsked(pair: Ice.CandidatePair)
    requires pair.state == Ice.Waiting
    ensures var first := Ice.Checked([pair], _ => false, 0);
      Ice.Checked(first.list, _ => true, 0) == Ice.Outcome([pair.(state := Ice.Failed)], None)
  {
    var silent: nat -> bool := _ => false;
    assert Ice.Checked([pair], silent, 0) == Ice.Checked([pair.(state := Ice.Failed)], silent, 1);
  }

  // ---- the heartbeat ----

  /** A tick that changes the interval, from 5 to 1 milliseconds; the receiver's timer is not told. */
  lemma TickChangesInterval()
    ensures SackManager.MeterTick(SackManager.Meter(1, 10, 10, 0.0, 5)).intervalMs == 1
  {
  }

  /** Nine arrivals behind a gap of one. */
  function NineOfTen(from: nat, n: nat): seq<SackHistory.Event> {
    if n == 0 then [] else NineOfTen(from, n - 1) + [SackHistory.Arrive(from + n)]
  }

  /** Ten numbers of which one never arrives, and a heartbeat; n times over. */
  function TenPercentLoss(n: nat): seq<SackHistory.Event> {
    if n == 0 then [SackHistory.Arrive(9), SackHistory.Heartbeat]
    else TenPercentLoss(n - 1) + (NineOfTen(10 * n, 9) + [SackHistory.Heartbeat])
  }

  /** How many numbers the first `n` arrivals of an interval span: the first of them is skipped. */
  function Spanned(n: nat): nat {
    if n == 0 then 0 else n + 1
  }

  lemma {:induction false} NineMetered(m: SackManager.Meter, n: nat)
    requires m.packets == m.expected == 0
    ensures SackHistory.MeterFrom(m, NineOfTen(m.nextExpected, n)) ==
            m.(packets := n, expected := Spanned(n), nextExpected := m.nextExpected + Spanned(n))
  {
    if n > 0 {
      NineMetered(m, n - 1);
      NineLength(m.nextExpected, n - 1);
      assert NineOfTen(m.nextExpected, n)[..n - 1] == NineOfTen(m.nextExpected, n - 1);
    }
  }

  lemma {:induction false} NineLength(from: nat, n: nat)
    ensures |NineOfTen(from, n)| == n
  {
    if n > 0 { NineLength(from, n - 1); }
  }

  lemma NineThenBeat(m: SackManager.Meter)
    requires m.packets == m.expected == 0
    ensures SackHistory.MeterFrom(m, NineOfTen(m.nextExpected, 9) + [SackHistory.Heartbeat]) ==
            Rested(m.nextExpected + 10, 0.75 * m.lossEma + 0.25 * 0.1)
  {
    NineMetered(m, 9);
    var es := NineOfTen(m.nextExpected, 9);
    assert (es + [SackHistory.Heartbeat])[..|es|] == es;
    assert SackManager.IntervalLoss(9, 10) == 0.1;
  }

  /** A meter just after a heartbeat. */
  function Rested(next: nat, ema: real): SackManager.Meter {
    SackManager.Meter(0, 0, next, ema, SackManager.Band(ema))
  }

  lemma FirstInterval()
    ensures SackHistory.MeterFrom(SackHistory.Fresh(0), TenPercentLoss(0)) == Rested(10, 0.225)
  {
    var es := TenPercentLoss(0);
    assert es[..1] == [SackHistory.Arrive(9)] && es[..1][..0] == [];
    assert SackManager.IntervalLoss(1, 10) == 0.9;
  }

  lemma {:induction false} TenPercentMetered(n: nat)
    ensures SackHistory.MeterFrom(SackHistory.Fresh(0), TenPercentLoss(n)) ==
            Rested(10 * (n + 1), SackHistory.EmaAfter(0.225, 0.1, n))
  {
    if n == 0 {
      FirstInterval();
    } else {
      TenPercentMetered(n - 1);
      AnotherInterval(TenPercentLoss(n - 1), 10 * n, SackHistory.EmaAfter(0.225, 0.1, n - 1));
    }
  }

  lemma AnotherInterval(es: seq<SackHistory.Event>, next: nat, ema: real)
    requires SackHistory.MeterFrom(SackHistory.Fresh(0), es) == Rested(next, ema)
    ensures SackHistory.MeterFrom(SackHistory.Fresh(0), es + (NineOfTen(next, 9) + [SackHistory.Heartbeat]))
         == Rested(next + 10, 0.75 * ema + 0.25 * 0.1)
  {
    SackHistory.MeterJoins(SackHistory.Fresh(0), es, NineOfTen(next, 9) + [SackHistory.Heartbeat]);
    NineThenBeat(Rested(next, ema));
  }

  /** A first bad interval and ten percent loss ever after: the interval never becomes the 5 milliseconds of that
      loss's own band. */
  lemma TenPercentNeverSettles(n: nat)
    ensures SackManager.Band(0.1) == 5
    ensures SackHistory.MeterFrom(SackHistory.Fresh(0), TenPercentLoss(n)).intervalMs != 5
  {
    TenPercentMetered(n);
    SackHistory.EmaStaysOnSide(0.125, 0.1, n);
    assert 0.1 + 0.125 == 0.225;
  }

  // ---- sending ----

  /** A first round trip of 400 milliseconds makes the timeout 1.2 seconds; a packet enqueued and offered to the
      batch at one instant is then not a candidate. */
  lemma SlowPathDelaysNewPackets(s: Sender.State, payload: bytes, env: Sender.Env)
    requires Sender.Admits(s, Sender.Chunk(payload)) && Sender.Possible(s, Sender.Chunk(payload), env)
    requires Retransmit.KnownOnly(s) && payload != [] && env.eventTime == env.sendTime
    requires env.rto == Session.RtoMicros(Session.Updated(Session.Rtt(0, 5000), 400_000)) as real / 1_000_000.0
    ensures var n := Sender.NormalRound(Sender.Ready(s, Sender.Chunk(payload), env), env.sendTime);
      s.nextSeq !in Sender.EligibleOf(env.unsent, n.inFlight, env.rto, env.sendTime)
  {
    assert Session.RtoMicros(Session.Updated(Session.Rtt(0, 5000), 400_000)) == 1_200_000;
    SenderProgress.NewPacketEligible(s, payload, env, s.nextSeq);
  }

  /** A chunk of one byte, at clock reading zero. */
  function FirstTurn(): SenderFacts.Step {
    SenderFacts.Step(Sender.Chunk([7]), Refusing([], []))
  }

  /** A SACK that claims nothing. */
  function SecondTurn(): SenderFacts.Step {
    SenderFacts.Step(Sender.SackIn(Sack.Payload(0, 0, seq(Sack.SACK_WORDS, _ => 0))), Refusing([0], [0]))
  }

  /** The kernel takes nothing; the timeout is the smallest there is. */
  function Refusing(before: seq<u64>, after: seq<u64>): Sender.Env {
    Sender.Env(0.0, 0.0, 0.0, _ => 0, before, after, [0], Session.RtoOf(Session.Rtt(0, 5000)), 0)
  }

  /** A full socket buffer, twice: the only packet was never on the wire, and is neither queued nor a candidate. */
  lemma RefusedPacketWaits()
    ensures var steps := [FirstTurn(), SecondTurn()];
      var s := Sender.Initial(0, 0.0);
      && SenderFacts.Runs(s, steps)
      && var s', t := SenderFacts.End(s, steps), Retransmit.TallyOf(Retransmit.BookEnd(s, map[], steps), 0);
         Retransmit.Held(s', t, 0) && s'.normal == s'.urgent == []
  {
    var s, one, two := Sender.Initial(0, 0.0), FirstTurn(), SecondTurn();
    FirstTurnTaken();
    var s1 := Sender.Turn(s, one.event, one.env);
    SecondTurnTaken(s1);
    TwoTurns(s, one, two);
    NeverWired(map[], s, one.event, one.env);
    NeverWired(Retransmit.BookAfter(map[], s, one.event, one.env), s1, two.event, two.env);
  }

  lemma TwoTurns(s: Sender.State, one: SenderFacts.Step, two: SenderFacts.Step)
    requires Sender.Admits(s, one.event) && Sender.Possible(s, one.event, one.env)
    requires var s1 := Sender.Turn(s, one.event, one.env);
      Sender.Admits(s1, two.event) && Sender.Possible(s1, two.event, two.env)
    ensures var s1 := Sender.Turn(s, one.event, one.env);
      var b1 := Retransmit.BookAfter(map[], s, one.event, one.env);
      && SenderFacts.Runs(s, [one, two])
      && SenderFacts.End(s, [one, two]) == Sender.Turn(s1, two.event, two.env)
      && Retransmit.BookEnd(s, map[], [one, two]) == Retransmit.BookAfter(b1, s1, two.event, two.env)
  {
    var s1 := Sender.Turn(s, one.event, one.env);
    var b1 := Retransmit.BookAfter(map[], s, one.event, one.env);
    assert [one, two][1..] == [two] && [two][1..] == [];
    assert SenderFacts.Runs(Sender.Turn(s1, two.event, two.env), []);
    assert SenderFacts.Runs(s1, [two]);
    assert SenderFacts.End(s1, [two]) == Sender.Turn(s1, two.event, two.env);
    assert Retransmit.BookEnd(s1, b1, [two]) == Retransmit.BookAfter(b1, s1, two.event, two.env);
  }

  lemma NeverWired(book: map<u64, Retransmit.Tally>, s: Sender.State, e: Sender.Event, env: Sender.Env)
    requires Sender.Admits(s, e) && env.wired == 0 && !Retransmit.TallyOf(book, 0).wired
    ensures !Retransmit.TallyOf(Retransmit.BookAfter(book, s, e, env), 0).wired
  {
  }

  /** What the first turn leaves: the packet in flight with count 0, unless the batch took it, and empty queues. */
  ghost predicate OneInFlight(s: Sender.State) {
    && s.inFlight.Keys == {0} && s.inFlight[0].nakCount == 0 && |s.inFlight[0].datagram| == 30
    && s.urgent == [] && s.normal == [] && Congestion.Sane(s.prober) && s.nextSeq == 1
    && s.bucket.tokens >= 1000.0 && s.bucket.lastRefill == 0.0
  }

  lemma FirstTurnTaken()
    ensures var s, e, env := Sender.Initial(0, 0.0), FirstTurn().event, FirstTurn().env;
      && Sender.Admits(s, e) && Sender.Possible(s, e, env) && OneInFlight(Sender.Turn(s, e, env))
  {
    var s, e, env := Sender.Initial(0, 0.0), FirstTurn().event, FirstTurn().env;
    FirstHandled(env.stamp);
    FirstBatch(Sender.Ready(s, e, env), env.rto);
  }

  lemma FirstBatch(r: Sender.State, rto: real)
    requires OneInFlight(r) && r.bucket.tokens >= 1250.0
    ensures OneInFlight(Sender.Batched(r, [0], rto, 0.0, 0))
  {
    SenderFacts.BatchIsSound(r, [0], rto, 0.0, 0);
    OneCandidate(r, rto);
  }

  lemma FirstHandled(stamp: u64 -> u64)
    ensures var s, h := Sender.Initial(0, 0.0), Sender.Enqueued(Sender.Initial(0, 0.0), [7], stamp, 0.0);
      && h.inFlight.Keys == {0} && h.inFlight[0].nakCount == 0 && |h.inFlight[0].datagram| == 30
      && h == s.(inFlight := h.inFlight, nextSeq := 1)
  {
    var s := Sender.Initial(0, 0.0);
    assert Chunks([7], Sender.MAX_PAYLOAD) == [[7]];
    var h := Sender.WithChunk(s, [7], stamp, 0.0);
    assert [[7]][1..] == [];
    assert Sender.EnqueuedChunks(h, [], stamp, 0.0) == h;
  }

  /** At most the one packet is picked, and once. */
  lemma OneCandidate(r: Sender.State, rto: real)
    requires r.urgent == r.normal == [] && r.bucket.tokens >= 1250.0
    requires 0 in r.inFlight && |r.inFlight[0].datagram| == 30
    ensures Sender.Batched(r, [0], rto, 0.0, 0).bucket.tokens >= 1000.0
    ensures Sender.Batched(r, [0], rto, 0.0, 0).urgent == Sender.Batched(r, [0], rto, 0.0, 0).normal == []
  {
    var xs := Sender.EligibleOf([0], r.inFlight, rto, 0.0);
    assert Sender.EligibleOf([], r.inFlight, rto, 0.0) == [] && [0][1..] == [];
    var n := Sender.Round(xs, r.inFlight, r.bucket.tokens, []);
    assert Sender.FreshRound(r, [0], rto, 0.0) == Sender.SentFresh(n, 0.0);
    if xs != [] {
      assert xs == [0] && Sender.PickHead(n, 0.0).queue == [];
      assert Sender.SentFresh(n, 0.0) == Sender.SentFresh(Sender.PickHead(n, 0.0), 0.0) == Sender.PickHead(n, 0.0);
    }
  }

  lemma SecondTurnTaken(s: Sender.State)
    requires OneInFlight(s)
    ensures var e, env := SecondTurn().event, SecondTurn().env;
      && Sender.Admits(s, e) && Sender.Possible(s, e, env)
      && var s' := Sender.Turn(s, e, env);
         s'.urgent == [] && s'.normal == [] && 0 in s'.inFlight && s'.inFlight[0].nakCount == 1
  {
    var e, env := SecondTurn().event, SecondTurn().env;
    SecondHandled(s, e.sack, env);
    SecondBatch(Sender.Ready(s, e, env), env.rto);
  }

  lemma SecondHandled(s: Sender.State, sack: Sack.Payload, env: Sender.Env)
    requires OneInFlight(s) && sack.base == 0 && env.afterAck == [0]
    requires |sack.words| == Sack.SACK_WORDS && forall i | 0 <= i < |sack.words| :: sack.words[i] == 0
    ensures Sender.Unacked(s.inFlight, sack) == s.inFlight
    ensures var h := Sender.Handled(s, Sender.SackIn(sack), env);
      && h.inFlight.Keys == {0} && h.inFlight[0] == s.inFlight[0].(nakCount := 1)
      && h.normal == [0] && h.urgent == [] && h.bucket == s.bucket
  {
    Sack.AllZeroBits(sack.words, 0);
    assert Sender.Unacked(s.inFlight, sack) == s.inFlight;
    var total := Sender.BytesOf(Sender.AckedOf(env.beforeAck, sack), s.inFlight);
    NakedOnce(s.(prober := Congestion.Acked(s.prober, total, env.eventTime).0), sack);
  }

  lemma SecondBatch(r: Sender.State, rto: real)
    requires r.inFlight.Keys == {0} && r.inFlight[0].nakCount == 1 && |r.inFlight[0].datagram| == 30
    requires r.normal == [0] && r.urgent == [] && r.bucket.tokens >= 1000.0
    ensures var s' := Sender.Batched(r, [0], rto, 0.0, 0);
      s'.urgent == [] && s'.normal == [] && 0 in s'.inFlight && s'.inFlight[0].nakCount == 1
  {
    SenderFacts.BatchIsSound(r, [0], rto, 0.0, 0);
    LastPop(r.inFlight, r.bucket.tokens);
  }

  lemma NakedOnce(s: Sender.State, sack: Sack.Payload)
    requires s.inFlight.Keys == {0} && s.inFlight[0].nakCount == 0 && s.urgent == s.normal == []
    requires !Sack.Received(sack, 0)
    ensures var h := Sender.NakAll(s, sack, [0]);
      && h.inFlight.Keys == {0} && h.inFlight[0] == s.inFlight[0].(nakCount := 1)
      && h.normal == [0] && h.urgent == [] && h.bucket == s.bucket
  {
    assert [0][1..] == [];
    assert Sender.NakAll(Sender.NakOne(s, sack, 0), sack, []) == Sender.NakOne(s, sack, 0);
  }

  lemma LastPop(m: map<u64, Sender.Entry>, tokens: real)
    requires 0 in m && tokens >= |m[0].datagram| as real
    ensures Sender.Drained(Sender.Round([0], m, tokens, []), 0.0).queue == []
    ensures Sender.Drained(Sender.Round([], m, tokens, []), 0.0) == Sender.Round([], m, tokens, [])
  {
    var r := Sender.Round([0], m, tokens, []);
    var r' := Sender.PickHead(r, 0.0);
    assert Sender.Drained(r, 0.0) == Sender.Drained(r', 0.0) == r';
  }

  // ---- the end of the receiver ----

  /** One chunk and then a FIN, which any datagram with that flag and the session's number is: the receiver is gone
      before the packet arrived, and whatever happens from then on, the sender's loop does not end. */
  lemma FinStrandsSender(session: u32, now: real) returns (ss: seq<Protocol.System>, actions: seq<Protocol.Action>)
    ensures Protocol.Execution(ss, actions) && |ss| == 3
    ensures forall t | Progress.MayReach(ss[2], t) :: !t.exited
  {
    var s0 := Liveness.SomeStart(session, now);
    var s1, first := ChunkSent(s0);
    var s2, second := FinArrives(s1);
    ss, actions := [s0, s1, s2], [first, second];
    TwoSteps(s0, first, s1, second, s2);
    NoExitFrom(s2, 0);
  }

  lemma NoExitFrom(s: Protocol.System, q: u64)
    requires Progress.Stuck(s, q)
    ensures forall t | Progress.MayReach(s, t) :: !t.exited
  {
    forall t | Progress.MayReach(s, t) ensures !t.exited { Progress.StuckNeverExits(s, q, t); }
  }

  lemma TwoSteps(s: Protocol.System, a: Protocol.Action, m: Protocol.System, b: Protocol.Action, t: Protocol.System)
    requires Protocol.Starts(s) && Protocol.Next(s, a, m) && Sack.Canonical(m.rcv.sack) && Protocol.Next(m, b, t)
    ensures Protocol.Execution([s, m, t], [a, b])
  {
  }

  lemma ChunkSent(s: Protocol.System) returns (t: Protocol.System, a: Protocol.Action)
    requires Protocol.Starts(s)
    ensures Protocol.Next(s, a, t) && Liveness.Live(t) && !t.done && 0 in t.snd.inFlight && t.rcv == s.rcv
  {
    var e := Sender.Chunk([7]);
    assert Chunks([7], Sender.MAX_PAYLOAD) == [[7]];
    var env := Progress.PlainEnv(s, e, s.clock);
    t, a := Protocol.Turned(s, e, env), Protocol.SenderTurn(e, env);
    Liveness.StartsLive(s);
    Liveness.NextKeepsLive(s, a, t);
    Protocol.EnqueuedKept(s.snd, [[7]], env.stamp, env.eventTime);
    Protocol.TurnSends(s.snd, e, env);
  }

  lemma FinArrives(s: Protocol.System) returns (t: Protocol.System, a: Protocol.Action)
    requires Liveness.Live(s) && !s.done && 0 in s.snd.inFlight
    requires s.rcv.sackTx == [] && forall q: nat :: !Sack.Received(s.rcv.sack, q)
    ensures Protocol.Next(s, a, t) && Progress.Stuck(t, 0)
  {
    t, a := FinTaken(s);
    Liveness.NextKeepsLive(s, a, t);
  }

  /** The last SACK goes into the channel, and the loop is over. */
  lemma FinTaken(s: Protocol.System) returns (t: Protocol.System, a: Protocol.Action)
    requires Sack.Canonical(s.rcv.sack) && !s.done
    ensures Protocol.Next(s, a, t) && t.done && t.snd == s.snd && t.rcv.sackTx == s.rcv.sackTx + [s.rcv.sack]
  {
    var buf := Packet.Encode(Packet.NewFin(s.rcv.session, 0, 0));
    Receiver.ClassifyFin(s.rcv.session, 0, 0);
    t, a := s.(rcv := Receiver.HeartbeatSent(s.rcv, true, 0), done := true), Protocol.Deliver(buf, 0, true);
    assert Receiver.Processed(s.rcv, buf, 0, true, t.rcv, Some(true));
  }

  // ---- transfers without frames ----

  /** One file of 1500 bytes: outside direct mode the writer gives up on it. */
  lemma SmallFileFailsUnframed(ps: seq<bytes>)
    ensures var files := [Packer.File([0x61], Zeros(1500))];
      (forall c :: c in ps <==> c in Unframed.RawPieces(WriterOrder.Wire(files))) ==>
        !Writer.FedChunks(Writer.START, ps).0
  {
    var files := [Packer.File([0x61], Zeros(1500))];
    CeilDivOne(1500, Packer.BLOCK_SIZE);
    assert !Unframed.FitsOneDatagram(files);
    if forall c :: c in ps <==> c in Unframed.RawPieces(WriterOrder.Wire(files)) {
      Unframed.UnframedTransfer(files, ps, map[]);
    }
  }

  // ---- addresses and messages ----

  /** A binding response with one XOR-MAPPED-ADDRESS, as it is on the wire. */
  function BindingResponse(tid: Tlv.Tid): bytes {
    [0x01, 0x01, 0x00, 0x0C, 0x21, 0x12, 0xA4, 0x42] + tid + MappedValue()
  }

  function MappedValue(): (r: bytes)
    ensures |r| == 12
  {
    [0x00, 0x20, 0x00, 0x08, 0x00, 0x01, 0xA1, 0x47, 0xE1, 0x12, 0xA6, 0x43]
  }

  /** It says 192.0.2.1, port 32853 (the address of section 2.2 of RFC 5769). */
  lemma BindingResponseReads(tid: Tlv.Tid)
    ensures Stun.Parsing(BindingResponse(tid)) ==
            Ok(Stun.StunMessage(0x0101, tid, [Stun.XorMappedAddress(Addresses.V4(0xC000_0201, 32853))]))
  {
    var buf, body := BindingResponse(tid), MappedValue();
    assert buf[8..20] == tid && buf[20..32] == body;
    Tlv.FieldIs(buf, 0);
    Tlv.FieldIs(buf, 2);
    Addresses.FourBytesRead(buf[4..8]);
    MappedValueReads(tid);
  }

  lemma MappedValueReads(tid: Tlv.Tid)
    ensures Stun.ParsedAttributes(MappedValue(), 0, tid) ==
            Ok([Stun.XorMappedAddress(Addresses.V4(0xC000_0201, 32853))])
  {
    var body := MappedValue();
    Tlv.FieldIs(body, 0);
    Tlv.FieldIs(body, 2);
    var val := body[4..12];
    assert val == [0x00, 0x01, 0xA1, 0x47, 0xE1, 0x12, 0xA6, 0x43];
    ValueReads(val, tid);
    LastAttribute(body, tid);
  }

  lemma LastAttribute(body: bytes, tid: Tlv.Tid)
    requires |body| == 12 && Tlv.Field(body, 0) == 0x0020 && Tlv.Field(body, 2) == 8
    requires Stun.DecodeXorMapped(body[4..12], tid).Ok?
    ensures Stun.ParsedAttributes(body, 0, tid) ==
            Ok([Stun.XorMappedAddress(Stun.DecodeXorMapped(body[4..12], tid).value)])
  {
    var raw := Tlv.Attr(0x0020, body[4..12]);
    var x := Stun.XorMappedAddress(Stun.DecodeXorMapped(body[4..12], tid).value);
    assert Stun.Decode(raw, tid) == Ok(x);
    assert Stun.ParsedAttributes(body, 12, tid) == Ok([]);
    assert [x] + [] == [x];
  }

  lemma ValueReads(val: bytes, tid: Tlv.Tid)
    requires val == [0x00, 0x01, 0xA1, 0x47, 0xE1, 0x12, 0xA6, 0x43]
    ensures Stun.DecodeXorMapped(val, tid) == Ok(Addresses.V4(0xC000_0201, 32853))
  {
    Tlv.FieldIs(val, 2);
    Addresses.FourBytesRead(val[4..8]);
    PortMasked(Tlv.Field(val, 2), 0x2112);
    AddressMasked(Addresses.ReadIp(val), 0x2112_A442);
  }

  lemma PortMasked(v: nat, key: nat)
    requires v == 0xA147 && key == 0x2112
    ensures Xor(v, key) == 32853
  {
    PortBytesMasked();
    XorByBytes(0xA1, 0x47, 0x21, 0x12);
  }

  lemma AddressMasked(v: nat, key: nat)
    requires v == 0xE112_A643 && key == 0x2112_A442
    ensures Xor(v, key) == 0xC000_0201
  {
    var hi, lo, keyHi, keyLo := v / 0x1_0000, v % 0x1_0000, key / 0x1_0000, key % 0x1_0000;
    HalvesMasked(hi, lo, keyHi, keyLo);
    assert Pow2(8) == 256;
    Pow2Adds(8, 8);
    XorOfParts(hi, lo, keyHi, keyLo, 16);
  }

  lemma HalvesMasked(hi: nat, lo: nat, keyHi: nat, keyLo: nat)
    requires hi == 0xE112 && lo == 0xA643 && keyHi == 0x2112 && keyLo == 0xA442
    ensures Xor(hi, keyHi) == 0xC000 && Xor(lo, keyLo) == 0x0201
  {
    HighMasked();
    LowMasked();
    XorByBytes(0xE1, 0x12, 0x21, 0x12);
    XorByBytes(0xA6, 0x43, 0xA4, 0x42);
  }

  lemma PortBytesMasked()
    ensures Xor(0xA1, 0x21) == 0x80
    ensures Xor(0x47, 0x12) == 0x55
  {
    assert Xor(0x2, 0x0) == 0x2;
    assert Xor(0xA, 0x2) == 0x8;
    assert Xor(0x28, 0x8) == 0x20;
    assert Xor(0x1, 0x0) == 0x1;
    assert Xor(0x4, 0x1) == 0x5;
    assert Xor(0x11, 0x4) == 0x15;
  }

  lemma HighMasked()
    ensures Xor(0xE1, 0x21) == 0xC0
    ensures Xor(0x12, 0x12) == 0x00
  {
    assert Xor(0x3, 0x0) == 0x3;
    assert Xor(0xE, 0x2) == 0xC;
    assert Xor(0x38, 0x8) == 0x30;
    assert Xor(0x1, 0x1) == 0x0;
    assert Xor(0x4, 0x4) == 0x0;
  }

  lemma LowMasked()
    ensures Xor(0xA6, 0xA4) == 0x02
    ensures Xor(0x43, 0x42) == 0x01
  {
    assert Xor(0x2, 0x2) == 0x0;
    assert Xor(0xA, 0xA) == 0x0;
    assert Xor(0x29, 0x29) == 0x0;
    assert Xor(0x1, 0x1) == 0x0;
    assert Xor(0x4, 0x4) == 0x0;
    assert Xor(0x10, 0x10) == 0x0;
  }

  lemma XorByBytes(a: byte, b: byte, c: byte, d: byte)
    ensures Xor(a as int * 256 + b, c as int * 256 + d) == Xor(a, c) * 256 + Xor(b, d)
  {
    assert Pow2(8) == 256;
    XorOfParts(a, b, c, d, 8);
  }

  /** The IPv6 loopback address does not survive the peer-address codec. */
  lemma LoopbackV6IsLost(port: u16, tid: Tlv.Tid)
    ensures var a := Addresses.V6(Zeros(15) + [1], port);
      Turn.ParseXorMapped(Turn.EncodeXorPeer(a), tid) != Some(a)
  {
    Turn.PeerAddressRoundTrip(Addresses.V6(Zeros(15) + [1], port), tid);
  }

  /** A binding response with the address it exists for, and a raw attribute of the old address type:
      neither survives. */
  lemma AddressAttributesAreLost(tid: Tlv.Tid, addr: Addresses.SocketAddr, data: bytes)
    ensures var m := Stun.StunMessage(0x0101, tid, [Stun.XorMappedAddress(addr)]);
      Stun.Parsing(Stun.Serialised(m)) != Ok(m)
    ensures var m := Stun.StunMessage(0x0101, tid, [Stun.Unknown(0x0001, data)]);
      Stun.Parsing(Stun.Serialised(m)) != Ok(m)
  {
    var m1 := Stun.StunMessage(0x0101, tid, [Stun.XorMappedAddress(addr)]);
    var m2 := Stun.StunMessage(0x0101, tid, [Stun.Unknown(0x0001, data)]);
    Stun.StunRoundTrip(m1);
    Stun.StunRoundTrip(m2);
    assert !Stun.Plain(m1.attributes[0]) && !Stun.Plain(m2.attributes[0]);
  }
}
