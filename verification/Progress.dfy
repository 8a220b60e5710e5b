/** When the sender's loop can still come to its end: always while the receiver runs, and after a FIN exactly when
    the SACKs that are in the channel already claim everything in flight. */
module Progress {
  import opened Bits
  import opened Bytes
  import opened Seqs
  import opened Sack
  import opened SackManager
  import opened SackArrival
  import opened Congestion
  import opened Sender
  import opened SenderFacts
  import opened SenderProgress
  import opened Retransmit
  import opened Receiver
  import opened Protocol
  import opened Liveness
  import Paths
  import Session

  // ---- sequences of steps ----

  /** Capacity of the channel from receiver to sender. */
  const SACK_CHANNEL: nat := 512

  predicate HasRoom(s: System) {
    |s.rcv.sackTx| < s.taken + SACK_CHANNEL
  }

  /** A biased `select` asks the probe timer first, then the SACK channel, then the application. */
  predicate Selects(s: System, e: Event, at: real) {
    match e
    case ProbeTimer => s.tick <= at
    case SackIn(sack) => at < s.tick && NextSack(s, sack)
    case _ => at < s.tick && s.taken == |s.rcv.sackTx|
  }

  /** `Next` lets SACKs be lost, repeated and reordered, and events come in any order. In one process the two loops
      share a bounded channel, which does none of that, and the round-trip statistics. */
  ghost predicate Orderly(s: System, a: Action, s': System)
    requires Canonical(s.rcv.sack)
  {
    && Next(s, a, s')
    && match a
       case SenderTurn(e, env) => Selects(s, e, env.eventTime) && env.rto == Session.RtoOf(s.rcv.rtt)
       case Deliver(_, _, room) => room == HasRoom(s)
       case Heartbeat(room, _) => room == HasRoom(s)
  }

  ghost predicate AnyStep(s: System, t: System) {
    Canonical(s.rcv.sack) && exists a :: Next(s, a, t)
  }

  ghost predicate OrderlyStep(s: System, t: System) {
    Canonical(s.rcv.sack) && exists a :: Orderly(s, a, t)
  }

  /** Some finite sequence of steps leads from s to t... */
  ghost predicate MayReach(s: System, t: System) {
    Paths.Reaches(AnyStep, s, t)
  }

  /** ...and one of orderly steps. */
  ghost predicate Reaches(s: System, t: System) {
    Paths.Reaches(OrderlyStep, s, t)
  }

  lemma OneStep(s: System, a: Action, t: System)
    requires Canonical(s.rcv.sack) && Orderly(s, a, t)
    ensures Reaches(s, t)
  {
    Paths.OneStep(OrderlyStep, s, t);
  }

  lemma NoStep(s: System)
    ensures Reaches(s, s)
  {
    Paths.NoStep(OrderlyStep, s);
  }

  lemma Joined(s: System, m: System, t: System)
    requires Reaches(s, m) && Reaches(m, t)
    ensures Reaches(s, t)
  {
    Paths.Joined(OrderlyStep, s, m, t);
  }

  lemma OrderlyIsAny(s: System, t: System)
    requires Reaches(s, t)
    ensures MayReach(s, t)
  {
    Paths.Weaker(OrderlyStep, AnyStep, s, t);
  }

  // ---- a turn that can be taken ----

  /** Every finite set of keys has an iteration order. */
  lemma {:induction false} OrderOf(keys: set<u64>) returns (order: seq<u64>)
    ensures IsOrder(order, keys)
    decreases keys
  {
    if keys == {} {
      order := [];
    } else {
      var q :| q in keys;
      var rest := OrderOf(keys - {q});
      order := [q] + rest;
      DistinctCons(q, rest);
    }
  }

  /** When the bucket is full again. */
  function FullAt(b: Bucket): real
    requires b.rate > 0.0
  {
    b.lastRefill + (CAPACITY as real + AbsReal(b.tokens)) / b.rate
  }

  function AbsReal(x: real): real { if x < 0.0 then -x else x }

  lemma FullByThen(b: Bucket, now: real)
    requires b.rate > 0.0 && FullAt(b) <= now
    ensures Refilled(b, now).tokens == CAPACITY as real
  {
    var need := CAPACITY as real + AbsReal(b.tokens);
    DividesBack(need, b.rate);
    ScaledAtLeast(b.rate, need / b.rate, Elapsed(now, b.lastRefill));
  }

  lemma DividesBack(x: real, y: real)
    requires x > 0.0 && y > 0.0
    ensures x / y > 0.0 && y * (x / y) == x
  {
  }

  lemma ScaledAtLeast(y: real, d: real, d': real)
    requires y > 0.0 && d <= d'
    ensures y * d <= y * d'
  {
  }

  /** Any event the sender admits can be handled at any time, and the kernel may take the batch whole. */
  lemma PlainEnv(s: System, e: Event, at: real) returns (env: Env)
    requires Admits(s.snd, e)
    ensures Possible(s.snd, e, env) && env.wired == BATCH_SIZE && env.rto == Session.RtoOf(s.rcv.rtt)
    ensures env.eventTime == env.refillTime == env.sendTime == at
  {
    var before := OrderOf(s.snd.inFlight.Keys);
    var after := OrderOf(if e.SackIn? then Unacked(s.snd.inFlight, e.sack).Keys else {});
    var env0 := Env(at, at, at, _ => 0, before, after, [], Session.RtoOf(s.rcv.rtt), BATCH_SIZE);
    var unsent := OrderOf(Handled(s.snd, e, env0).inFlight.Keys);
    env := env0.(unsent := unsent);
    assert Handled(s.snd, e, env) == Handled(s.snd, e, env0);
  }

  /** And the clock may have advanced by then so far that the bucket is full. */
  lemma FullEnv(s: System, e: Event, at: real) returns (env: Env)
    requires Admits(s.snd, e) && Funded(s.snd)
    ensures Possible(s.snd, e, env) && env.wired == BATCH_SIZE && env.rto == Session.RtoOf(s.rcv.rtt)
    ensures env.eventTime == at <= env.refillTime == env.sendTime
    ensures Ready(s.snd, e, env).bucket.tokens == CAPACITY as real
  {
    var env0 := PlainEnv(s, e, at);
    var h := Handled(s.snd, e, env0);
    HandledFunded(s.snd, e, env0);
    var t := if at < FullAt(h.bucket) then FullAt(h.bucket) else at;
    env := env0.(refillTime := t, sendTime := t);
    assert Handled(s.snd, e, env) == h;
    FullByThen(h.bucket, t);
  }

  /** A turn that `select` allows, with the timeout the statistics give. */
  ghost predicate CanTurn(s: System, e: Event, env: Env) {
    SenderMay(s, e, env) && Selects(s, e, env.eventTime) && env.rto == Session.RtoOf(s.rcv.rtt)
  }

  lemma TurnedIsNext(s: System, e: Event, env: Env)
    requires Live(s) && CanTurn(s, e, env)
    ensures Orderly(s, SenderTurn(e, env), Turned(s, e, env)) && Live(Turned(s, e, env))
    ensures Reaches(s, Turned(s, e, env))
  {
    SenderKeepsLive(s, e, env, Turned(s, e, env));
    OneStep(s, SenderTurn(e, env), Turned(s, e, env));
  }

  /** What turns without new chunks leave alone. */
  ghost predicate SameWork(s: System, t: System) {
    && t.rcv == s.rcv && t.done == s.done && t.snd.nextSeq == s.snd.nextSeq && s.wire <= t.wire
    && t.chunks == s.chunks && t.snd.inFlight.Keys <= s.snd.inFlight.Keys
  }

  /** The probe timer changes nothing but rates, clock and queues. */
  lemma TimerKeeps(s: System, env: Env)
    requires Live(s) && CanTurn(s, ProbeTimer, env)
    ensures var t := Turned(s, ProbeTimer, env);
      && SameWork(s, t) && t.snd.inFlight.Keys == s.snd.inFlight.Keys && t.snd.shutdown == s.snd.shutdown
      && t.taken == s.taken && !t.exited
  {
    BatchIsSound(Ready(s.snd, ProbeTimer, env), env.unsent, env.rto, env.sendTime, env.wired);
  }

  /** How many periods the probe timer is behind. */
  function Behind(s: System): nat {
    if s.clock < s.tick then 0 else ((s.clock - s.tick) / PROBE_PERIOD).Floor + 1
  }

  /** Ticks that are overdue are taken one after the other; then the timer is quiet. */
  lemma {:induction false} CatchUp(s: System) returns (t: System)
    requires Live(s) && !s.exited
    ensures Reaches(s, t) && Live(t) && SameWork(s, t) && !t.exited && t.clock < t.tick
    ensures t.taken == s.taken && t.snd.inFlight.Keys == s.snd.inFlight.Keys && t.snd.shutdown == s.snd.shutdown
    decreases Behind(s)
  {
    if s.clock < s.tick {
      t := s;
      NoStep(s);
    } else {
      var env := PlainEnv(s, ProbeTimer, s.clock);
      var m := Turned(s, ProbeTimer, env);
      TurnedIsNext(s, ProbeTimer, env);
      TimerKeeps(s, env);
      t := CatchUp(m);
      Joined(s, m, t);
    }
  }

  // ---- a queued packet gets on the wire ----

  ghost predicate OnWire(s: System, b: u64) {
    exists d :: d in s.wire && Classify(d, s.rcv.session).Data? && Classify(d, s.rcv.session).sn == b
  }

  predicate Queued(s: Sender.State, b: u64) {
    b in s.urgent || b in s.normal
  }

  lemma {:induction false} DrainShrinks(r: Round, now: real)
    ensures |Drained(r, now).queue| <= |r.queue|
    ensures Payable(r.inFlight) && r.tokens >= LARGEST as real && r.picked == [] && r.queue != []
            ==> |Drained(r, now).queue| < |r.queue|
    decreases |r.queue|
  {
    if |r.picked| < BATCH_SIZE && r.queue != [] {
      if !HeadInFlight(r) {
        DrainShrinks(Popped(r), now);
      } else if Affordable(r) {
        DrainShrinks(PickHead(r, now), now);
      }
    }
  }

  /** A batch from a full bucket shortens the queues. */
  lemma BatchShrinks(r: Sender.State, env: Env)
    requires Payable(r.inFlight) && r.bucket.tokens == CAPACITY as real && r.urgent + r.normal != []
    ensures var s' := Batched(r, env.unsent, env.rto, env.sendTime, env.wired);
      |s'.urgent| + |s'.normal| < |r.urgent| + |r.normal|
  {
    var u := Round(r.urgent, r.inFlight, r.bucket.tokens, []);
    DrainShrinks(u, env.sendTime);
    DrainShrinks(UrgentRound(r, env.sendTime).(queue := r.normal), env.sendTime);
  }

  /** A queued packet is still queued after a batch, or was picked by it. */
  lemma BatchKeepsQueued(r: Sender.State, env: Env, b: u64)
    requires b in r.inFlight && Queued(r, b)
    ensures var s' := Batched(r, env.unsent, env.rto, env.sendTime, env.wired);
      Queued(s', b) || b in Picked(r, env.unsent, env.rto, env.sendTime)
  {
    BatchKeepsQueues(r, env.unsent, env.rto, env.sendTime, env.wired);
    DrainedQueue(Round(r.urgent, r.inFlight, r.bucket.tokens, []), env.sendTime);
    var u, n := UrgentRound(r, env.sendTime), NormalRound(r, env.sendTime);
    DrainedQueue(u.(queue := r.normal), env.sendTime);
    FreshFollows(r, env.unsent, env.rto, env.sendTime);
    assert u.picked <= n.picked <= FreshRound(r, env.unsent, env.rto, env.sendTime).picked;
  }

  // ---- every run of full turns empties the queues ----

  /** Turns without a SACK, each from a full bucket and with a batch that the kernel takes whole. */
  ghost predicate FullTurns(s: Sender.State, steps: seq<Step>)
    decreases |steps|
  {
    steps == [] ||
    (var e, env := steps[0].event, steps[0].env;
     && Admits(s, e) && Possible(s, e, env) && !e.SackIn?
     && Ready(s, e, env).bucket.tokens == CAPACITY as real && |TurnPicks(s, e, env)| <= env.wired
     && FullTurns(Turn(s, e, env), steps[1..]))
  }

  /** One of the turns puts the packet on the wire. */
  ghost predicate GoesOut(s: Sender.State, steps: seq<Step>, q: u64)
    requires FullTurns(s, steps)
    decreases |steps|
  {
    steps != [] &&
    (var e, env := steps[0].event, steps[0].env;
     q in Taken(TurnPicks(s, e, env), env.wired) || GoesOut(Turn(s, e, env), steps[1..], q))
  }

  /** Without a SACK the event of a turn leaves the queues alone and takes nothing out of flight. */
  lemma EventKeepsQueues(s: Sender.State, e: Event, env: Env)
    requires Admits(s, e) && !e.SackIn? && Payable(s.inFlight)
    ensures var r := Ready(s, e, env);
      r.urgent == s.urgent && r.normal == s.normal && s.inFlight.Keys <= r.inFlight.Keys && Payable(r.inFlight)
  {
    HandledPayable(s, e, env);
    if e.Chunk? {
      var pieces := Chunks(e.payload, MAX_PAYLOAD);
      EnqueuedDated(s, pieces, env.stamp, env.eventTime, s.nextSeq);
      EnqueuedKept(s, pieces, env.stamp, env.eventTime);
    }
  }

  /** As many such turns as there are queued numbers put every queued packet in flight on the wire, whatever else
      happens in them and in whatever order the maps are visited. */
  lemma {:induction false} QueuedAllGoOut(s: Sender.State, steps: seq<Step>, q: u64)
    requires FullTurns(s, steps) && |s.urgent| + |s.normal| <= |steps|
    requires Payable(s.inFlight) && q in s.inFlight && Queued(s, q)
    ensures GoesOut(s, steps, q)
    decreases |steps|
  {
    var e, env := steps[0].event, steps[0].env;
    var r, s' := Ready(s, e, env), Turn(s, e, env);
    EventKeepsQueues(s, e, env);
    BatchShrinks(r, env);
    BatchKeepsQueued(r, env, q);
    if q !in TurnPicks(s, e, env) {
      BatchIsSound(r, env.unsent, env.rto, env.sendTime, env.wired);
      QueuedAllGoOut(s', steps[1..], q);
    }
  }

  // ---- one queued packet ----

  /** A turn whose batch the kernel takes whole puts every pick on the wire. */
  lemma PicksGoOut(s: System, e: Event, env: Env, b: u64)
    requires Live(s) && CanTurn(s, e, env) && env.wired == BATCH_SIZE && b in TurnPicks(s.snd, e, env)
    ensures OnWire(Turned(s, e, env), b)
  {
    var s' := Turned(s, e, env);
    TurnedIsNext(s, e, env);
    BatchIsSound(Ready(s.snd, e, env), env.unsent, env.rto, env.sendTime, env.wired);
    assert Taken(TurnPicks(s.snd, e, env), env.wired) == TurnPicks(s.snd, e, env);
    assert s'.snd.inFlight[b].datagram in s'.wire;
  }

  lemma WireKeeps(s: System, t: System, b: u64)
    requires SameWork(s, t) && OnWire(s, b)
    ensures OnWire(t, b)
  {
  }

  /** The time of the next turn of the probe timer. */
  function TickTime(s: System): real {
    if s.clock < s.tick then s.tick else s.clock
  }

  /** One turn of the probe timer with a full bucket. */
  lemma TimerTurn(s: System, b: u64) returns (t: System)
    requires Live(s) && !s.exited && b in s.snd.inFlight && Queued(s.snd, b)
    ensures Reaches(s, t) && Live(t) && SameWork(s, t) && !t.exited && b in t.snd.inFlight
    ensures |t.snd.urgent| + |t.snd.normal| < |s.snd.urgent| + |s.snd.normal|
    ensures Queued(t.snd, b) || OnWire(t, b)
  {
    var env := FullEnv(s, ProbeTimer, TickTime(s));
    t := Turned(s, ProbeTimer, env);
    TurnedIsNext(s, ProbeTimer, env);
    TimerKeeps(s, env);
    var r := Ready(s.snd, ProbeTimer, env);
    BatchShrinks(r, env);
    BatchKeepsQueued(r, env, b);
    if b in TurnPicks(s.snd, ProbeTimer, env) { PicksGoOut(s, ProbeTimer, env, b); }
  }

  lemma {:induction false} QueuedGoesOut(s: System, b: u64) returns (t: System)
    requires Live(s) && !s.exited && b in s.snd.inFlight && (Queued(s.snd, b) || OnWire(s, b))
    ensures Reaches(s, t) && Live(t) && SameWork(s, t) && !t.exited && OnWire(t, b)
    decreases |s.snd.urgent| + |s.snd.normal|
  {
    if OnWire(s, b) {
      t := s;
      NoStep(s);
    } else {
      var m := TimerTurn(s, b);
      t := QueuedGoesOut(m, b);
      Joined(s, m, t);
    }
  }

  // ---- one more number is acknowledged ----

  /** A heartbeat with room in the channel. */
  ghost function Beaten(s: System): System
    requires Canonical(s.rcv.sack)
  {
    s.(rcv := HeartbeatSent(s.rcv, true, 0))
  }

  lemma BeatenIsNext(s: System)
    requires Live(s) && !s.done && s.taken == |s.rcv.sackTx|
    ensures Reaches(s, Beaten(s)) && Live(Beaten(s)) && NextSack(Beaten(s), s.rcv.sack)
  {
    assert Orderly(s, Heartbeat(true, 0), Beaten(s));
    NextKeepsLive(s, Heartbeat(true, 0), Beaten(s));
    OneStep(s, Heartbeat(true, 0), Beaten(s));
  }

  lemma {:induction false} NakQueues(s: Sender.State, sack: Payload, order: seq<u64>, b: u64)
    requires b in s.inFlight && !Received(sack, b) && (b in order || Queued(s, b))
    ensures Queued(NakAll(s, sack, order), b) && b in NakAll(s, sack, order).inFlight
    decreases |order|
  {
    if order != [] {
      HeadSplit(order);
      NakQueues(NakOne(s, sack, order[0]), sack, order[1..], b);
    }
  }

  /** The next SACK is taken: exactly what it claims leaves flight, and every gap is queued or even sent. */
  lemma SackTurn(s: System) returns (t: System)
    requires Live(s) && !s.exited && s.taken < |s.rcv.sackTx|
    ensures Reaches(s, t) && Live(t) && SameWork(s, t) && t.taken == s.taken + 1
    ensures t.snd.inFlight.Keys == Unacked(s.snd.inFlight, s.rcv.sackTx[s.taken]).Keys
    ensures forall b | b in t.snd.inFlight :: Queued(t.snd, b) || OnWire(t, b)
  {
    var m := CatchUp(s);
    var e := SackIn(m.rcv.sackTx[m.taken]);
    var env := PlainEnv(m, e, m.clock);
    t := Turned(m, e, env);
    TurnedIsNext(m, e, env);
    Joined(s, m, t);
    SackLeaves(m.snd, e.sack, env);
    BatchIsSound(Ready(m.snd, e, env), env.unsent, env.rto, env.sendTime, env.wired);
    forall b | b in t.snd.inFlight ensures Queued(t.snd, b) || OnWire(t, b) { GapQueued(m, e.sack, env, b); }
  }

  lemma GapQueued(s: System, sack: Payload, env: Env, b: u64)
    requires Live(s) && CanTurn(s, SackIn(sack), env) && env.wired == BATCH_SIZE
    requires b in s.snd.inFlight && !Received(sack, b)
    ensures var t := Turned(s, SackIn(sack), env); Queued(t.snd, b) || OnWire(t, b)
  {
    var e := SackIn(sack);
    var total := BytesOf(AckedOf(env.beforeAck, sack), s.snd.inFlight);
    var m := s.snd.(inFlight := Unacked(s.snd.inFlight, sack), prober := Acked(s.snd.prober, total, env.eventTime).0);
    NakQueues(m, sack, env.afterAck, b);
    BatchKeepsQueued(Ready(s.snd, e, env), env, b);
    if b in TurnPicks(s.snd, e, env) { PicksGoOut(s, e, env, b); }
  }

  /** SACK after SACK, in order, until the channel is empty, unless the loop ends on the way. */
  lemma {:induction false} DrainChannel(s: System) returns (t: System)
    requires Live(s) && !s.exited
    ensures Reaches(s, t) && Live(t) && SameWork(s, t) && (t.exited || t.taken == |t.rcv.sackTx|)
    decreases |s.rcv.sackTx| - s.taken
  {
    if s.taken == |s.rcv.sackTx| {
      t := s;
      NoStep(s);
    } else {
      t := SackTurn(s);
      if !t.exited {
        var m := t;
        t := DrainChannel(m);
        Joined(s, m, t);
      }
    }
  }

  /** The network delivers the packet the receiver waits for. */
  lemma Delivery(s: System, d: bytes) returns (t: System)
    requires Live(s) && !s.done && d in s.wire
    requires Classify(d, s.rcv.session).Data? && Classify(d, s.rcv.session).sn == s.rcv.sack.base
    ensures Reaches(s, t) && Live(t) && t == s.(rcv := t.rcv) && t.rcv.sack.base > s.rcv.sack.base
  {
    var p' := ArrivalHappens(s.rcv.sack, s.rcv.sack.base);
    AwaitedMovesBase(s.rcv.sack, p');
    t := DeliverOne(s, d, p');
  }

  lemma AwaitedMovesBase(p: Payload, p': Payload)
    requires Arrival(p, p.base, p')
    ensures p'.base > p.base
  {
    assert Received(p', p.base);
  }

  lemma DeliverOne(s: System, d: bytes, p': Payload) returns (t: System)
    requires Live(s) && !s.done && d in s.wire && Classify(d, s.rcv.session).Data?
    requires Arrival(s.rcv.sack, Classify(d, s.rcv.session).sn, p')
    ensures Reaches(s, t) && Live(t) && t == s.(rcv := t.rcv) && t.rcv.sack == p'
  {
    var k := Classify(d, s.rcv.session);
    t := s.(rcv := Arrived(s.rcv, k.sn, k.payload, p'));
    ArrivedIsProcessed(s.rcv, d, k.sn, k.payload, HasRoom(s), p');
    var a := Deliver(d, 0, HasRoom(s));
    assert Orderly(s, a, t);
    NextKeepsLive(s, a, t);
    OneStep(s, a, t);
  }

  function Arrived(r: Receiver.State, sn: u64, payload: bytes, p': Payload): Receiver.State {
    r.(sack := p', meter := MeterArrival(r.meter, sn), dataSeen := true, log := r.log + [(sn, payload)])
  }

  lemma ArrivedIsProcessed(r: Receiver.State, d: bytes, sn: u64, payload: bytes, room: bool, p': Payload)
    requires Canonical(r.sack) && Classify(d, r.session) == Data(sn, payload) && Arrival(r.sack, sn, p')
    ensures Processed(r, d, 0, room, Arrived(r, sn, payload, p'), Some(false))
  {
  }

  /** The receiver claims nothing that was not handed out. */
  lemma BaseInRange(s: System)
    requires Live(s)
    ensures s.rcv.sack.base <= s.snd.nextSeq
  {
    var base := s.rcv.sack.base;
    if base > 0 {
      assert Received(s.rcv.sack, base - 1);
      assert Delivered(s.rcv.log, base - 1);
    }
  }

  /** While the receiver runs and something is unclaimed, its base can move up. */
  lemma BaseAdvances(s: System) returns (t: System)
    requires Live(s) && !s.exited && !s.done && s.rcv.sack.base < s.snd.nextSeq
    ensures Reaches(s, t) && Live(t) && !t.done && t.snd.nextSeq == s.snd.nextSeq && t.chunks == s.chunks
    ensures t.exited || t.rcv.sack.base > s.rcv.sack.base
  {
    t := DrainChannel(s);
    if !t.exited {
      var m := t;
      t := GapFilled(m);
      Joined(s, m, t);
    }
  }

  /** From an empty channel: a heartbeat, its SACK, the queues, and the packet the receiver waits for. */
  lemma GapFilled(s: System) returns (t: System)
    requires Live(s) && !s.exited && !s.done && s.taken == |s.rcv.sackTx| && s.rcv.sack.base < s.snd.nextSeq
    ensures Reaches(s, t) && Live(t) && !t.done && t.snd.nextSeq == s.snd.nextSeq && t.chunks == s.chunks
    ensures !t.exited && t.rcv.sack.base > s.rcv.sack.base
  {
    var b := s.rcv.sack.base;
    BeatenIsNext(s);
    var m := SackTurn(Beaten(s));
    Joined(s, Beaten(s), m);
    assert b in m.snd.inFlight;
    var w := QueuedGoesOut(m, b);
    Joined(s, m, w);
    var d :| d in w.wire && Classify(d, w.rcv.session).Data? && Classify(d, w.rcv.session).sn == b;
    t := Delivery(w, d);
    Joined(s, w, t);
  }

  lemma {:induction false} EverythingClaimed(s: System) returns (t: System)
    requires Live(s) && !s.exited && !s.done
    ensures Reaches(s, t) && Live(t) && !t.done && t.chunks == s.chunks
    ensures t.exited || t.rcv.sack.base == t.snd.nextSeq
    decreases s.snd.nextSeq - s.rcv.sack.base
  {
    BaseInRange(s);
    if s.rcv.sack.base == s.snd.nextSeq {
      t := s;
      NoStep(s);
    } else {
      t := BaseAdvances(s);
      if !t.exited {
        var m := t;
        BaseInRange(m);
        t := EverythingClaimed(m);
        Joined(s, m, t);
      }
    }
  }

  // ---- the exit ----

  /** With nothing in flight and nothing in the channel a shutdown command ends the loop. */
  lemma EmptyExits(s: System) returns (t: System)
    requires Live(s) && !s.exited && s.snd.inFlight == map[] && s.taken == |s.rcv.sackTx|
    ensures Reaches(s, t) && Live(t) && t.exited && t.chunks == s.chunks
  {
    var m := CatchUp(s);
    var env := PlainEnv(m, Shutdown, m.clock);
    t := Turned(m, Shutdown, env);
    TurnedIsNext(m, Shutdown, env);
    Joined(s, m, t);
    BatchIsSound(Ready(m.snd, Shutdown, env), env.unsent, env.rto, env.sendTime, env.wired);
    assert t.snd.inFlight.Keys == {};
  }

  /** Every packet in flight is claimed by some SACK there is. */
  ghost predicate AllClaimed(s: System) {
    forall q | q in s.snd.inFlight :: exists p :: p in s.rcv.sackTx && Received(p, q)
  }

  /** When the SACKs there are claim everything, taking them out of the channel is enough. */
  lemma ClaimedExits(s: System) returns (t: System)
    requires Live(s) && !s.exited && AllClaimed(s)
    ensures Reaches(s, t) && Live(t) && t.exited && t.chunks == s.chunks
  {
    t := DrainChannel(s);
    if !t.exited {
      var m := t;
      NothingLeft(s, m);
      t := EmptyExits(m);
      Joined(s, m, t);
    }
  }

  lemma NothingLeft(s: System, m: System)
    requires AllClaimed(s) && SameWork(s, m) && Settled(m.snd.inFlight, m.rcv.sackTx, |m.rcv.sackTx|)
    ensures m.snd.inFlight == map[]
  {
    forall q | q in s.snd.inFlight ensures q !in m.snd.inFlight {
      var p :| p in m.rcv.sackTx && Received(p, q);
    }
  }

  /** With everything claimed and the channel empty, one more heartbeat claims it all. */
  lemma BeatExits(s: System) returns (t: System)
    requires Live(s) && !s.exited && !s.done && s.taken == |s.rcv.sackTx| && s.rcv.sack.base == s.snd.nextSeq
    ensures Reaches(s, t) && Live(t) && t.exited && t.chunks == s.chunks
  {
    BeatenIsNext(s);
    var m := Beaten(s);
    BaseClaimsAll(m);
    t := ClaimedExits(m);
    Joined(s, m, t);
  }

  lemma BaseClaimsAll(s: System)
    requires Live(s) && NextSack(s, s.rcv.sack) && s.rcv.sack.base == s.snd.nextSeq
    ensures AllClaimed(s)
  {
    forall q | q in s.snd.inFlight ensures s.rcv.sack in s.rcv.sackTx && Received(s.rcv.sack, q) {
      assert Carried(s.snd.inFlight, s.rcv.session, s.accepted, q);
    }
  }

  lemma RunningExits(s: System) returns (t: System)
    requires Live(s) && !s.exited && !s.done
    ensures Reaches(s, t) && Live(t) && t.exited && t.chunks == s.chunks
  {
    t := EverythingClaimed(s);
    if !t.exited {
      var m := t;
      t := SettledExits(m);
      Joined(s, m, t);
    }
  }

  lemma SettledExits(s: System) returns (t: System)
    requires Live(s) && !s.exited && !s.done && s.rcv.sack.base == s.snd.nextSeq
    ensures Reaches(s, t) && Live(t) && t.exited && t.chunks == s.chunks
  {
    t := DrainChannel(s);
    if !t.exited {
      var m := t;
      t := BeatExits(m);
      Joined(s, m, t);
    }
  }

  /** While the receiver runs, or once it has claimed everything in flight, finitely many orderly steps end the
      sender's loop with every byte of every payload accepted so far delivered. */
  lemma ExitReachable(ss: seq<System>, actions: seq<Action>, i: nat) returns (t: System)
    requires Execution(ss, actions) && i < |ss| && (ss[i].done ==> AllClaimed(ss[i]))
    ensures Reaches(ss[i], t) && t.exited && t.chunks == ss[i].chunks
    ensures forall c | 0 <= c < |t.chunks| :: AllDelivered(t, c)
  {
    LiveAlways(ss, actions, i);
    if ss[i].exited {
      t := ss[i];
      NoStep(t);
    } else if ss[i].done {
      t := ClaimedExits(ss[i]);
    } else {
      t := RunningExits(ss[i]);
    }
    forall c | 0 <= c < |t.chunks| ensures AllDelivered(t, c) { ExitedDelivered(t, c); }
  }

  // ---- no exit ----

  /** The receiver is gone, and no SACK there is claims q, which is in flight. */
  ghost predicate Stuck(s: System, q: u64) {
    Live(s) && s.done && q in s.snd.inFlight && forall p | p in s.rcv.sackTx :: !Received(p, q)
  }

  lemma NextKeepsStuck(s: System, a: Action, s': System, q: u64)
    requires Stuck(s, q) && Next(s, a, s')
    ensures Stuck(s', q)
  {
    NextKeepsLive(s, a, s');
    var e, env := a.event, a.env;
    match e {
      case SackIn(sack) => SackLeaves(s.snd, sack, env);
      case Chunk(payload) => EnqueuedKept(s.snd, Chunks(payload, MAX_PAYLOAD), env.stamp, env.eventTime);
      case _ =>
    }
    BatchIsSound(Ready(s.snd, e, env), env.unsent, env.rto, env.sendTime, env.wired);
  }

  lemma AnyKeepsStuck(s: System, m: System, q: u64)
    requires Stuck(s, q) && AnyStep(s, m)
    ensures Stuck(m, q)
  {
    var a :| Next(s, a, m);
    NextKeepsStuck(s, a, m, q);
  }

  lemma StuckNeverExits(s: System, q: u64, t: System)
    requires Stuck(s, q) && MayReach(s, t)
    ensures !t.exited
  {
    var stuck := (x: System) => Stuck(x, q);
    forall x, y | stuck(x) && AnyStep(x, y) ensures stuck(y) { AnyKeepsStuck(x, y, q); }
    Paths.Kept(AnyStep, stuck, s, t);
  }

  /** From a reachable state the sender's loop can end if and only if the receiver is still running or the SACKs
      already issued claim everything in flight: otherwise no steps end it, orderly or not. */
  lemma ExitIff(ss: seq<System>, actions: seq<Action>, i: nat)
    requires Execution(ss, actions) && i < |ss|
    ensures (exists t :: Reaches(ss[i], t) && t.exited) <==> (ss[i].done ==> AllClaimed(ss[i]))
    ensures (exists t :: MayReach(ss[i], t) && t.exited) <==> (ss[i].done ==> AllClaimed(ss[i]))
  {
    LiveAlways(ss, actions, i);
    var s := ss[i];
    if s.done && !AllClaimed(s) {
      var q :| q in s.snd.inFlight && forall p | p in s.rcv.sackTx :: !Received(p, q);
      forall t | MayReach(s, t) ensures !t.exited { StuckNeverExits(s, q, t); }
      forall t | Reaches(s, t) ensures !t.exited { OrderlyIsAny(s, t); }
    } else {
      var t := ExitReachable(ss, actions, i);
      OrderlyIsAny(s, t);
    }
  }
}
