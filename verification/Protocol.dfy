/** Sender, network and receiver as one step system. The network drops, duplicates and reorders:
    any datagram ever sent may arrive any number of times at any moment, and so may any SACK. A FIN, whoever
    sent it, ends the receiver's loop. */
module Protocol {
  import opened Bits
  import opened Bytes
  import opened Seqs
  import opened Packet
  import opened Sack
  import opened SackManager
  import opened Sender
  import opened SenderFacts
  import opened Receiver
  import Congestion
  import Session

  /** A payload the application handed over, and the sequence number of its first piece. */
  datatype Accepted = Accepted(payload: bytes, first: u64)

  function Pieces(c: Accepted): seq<bytes> {
    Chunks(c.payload, MAX_PAYLOAD)
  }

  /** `wire`: every datagram ever sent. `accepted`: the bytes enqueued under each number.
      `exited`: the sender's loop is over. `done`: the receiver's loop is over. `taken`: how many SACKs the
      sender has taken out of the channel in the order they were put in. `clock`: the sender's last reading of
      its clock. `tick`: when its probe timer is due next. */
  datatype System = System(
    snd: Sender.State, rcv: Receiver.State, wire: set<bytes>,
    accepted: map<u64, bytes>, chunks: seq<Accepted>, exited: bool,
    done: bool, taken: nat, clock: real, tick: real)

  datatype Action = SenderTurn(event: Event, env: Env)
                  | Deliver(buf: bytes, now: u64, room: bool)
                  | Heartbeat(room: bool, ts: u64)

  ghost predicate Starts(s: System) {
    && s.snd == Initial(s.rcv.session, s.clock) && s.tick == s.clock
    && Canonical(s.rcv.sack) && s.rcv.sack.base == 0 && (forall q: nat :: !Received(s.rcv.sack, q))
    && s.rcv.log == [] && s.rcv.sackTx == []
    && s.wire == {} && s.accepted == map[] && s.chunks == [] && !s.exited && !s.done && s.taken == 0
  }

  function Recorded(accepted: map<u64, bytes>, first: u64, pieces: seq<bytes>): map<u64, bytes>
    requires first + |pieces| < TWO64
    decreases |pieces|
  {
    if pieces == [] then accepted else Recorded(accepted[first := pieces[0]], first + 1, pieces[1..])
  }

  /** The period of the probe timer, in seconds. */
  const PROBE_PERIOD: real := 0.5

  /** The clock does not run backwards, the probe timer is not early, and the timeout is one there can be. */
  ghost predicate Timed(s: System, e: Event, env: Env) {
    && s.clock <= env.eventTime <= env.refillTime <= env.sendTime
    && (e.ProbeTimer? ==> s.tick <= env.eventTime)
    && Session.CanBeRto(env.rto)
  }

  /** The sender may take the event: SACKs come from the receiver, and the 64-bit numbers are not used up. */
  ghost predicate SenderMay(s: System, e: Event, env: Env) {
    && !s.exited && Admits(s.snd, e) && Possible(s.snd, e, env) && Timed(s, e, env)
    && (e.SackIn? ==> e.sack in s.rcv.sackTx)
    && (e.Chunk? ==> s.snd.nextSeq + |Chunks(e.payload, MAX_PAYLOAD)| + SACK_WINDOW + 1 < TWO64)
  }

  /** The next SACK in the channel. */
  predicate NextSack(s: System, sack: Payload) {
    s.taken < |s.rcv.sackTx| && s.rcv.sackTx[s.taken] == sack
  }

  /** What the batch of the turn puts on the wire. */
  function SentOut(s: System, e: Event, env: Env): set<bytes>
    requires Admits(s.snd, e)
  {
    var snd := Turn(s.snd, e, env);
    set q | q in Taken(TurnPicks(s.snd, e, env), env.wired) && q in snd.inFlight :: snd.inFlight[q].datagram
  }

  /** The system after a turn of the sender. */
  ghost function Turned(s: System, e: Event, env: Env): System
    requires SenderMay(s, e, env)
  {
    var snd := Turn(s.snd, e, env);
    s.(snd := snd, wire := s.wire + SentOut(s, e, env),
       accepted := if e.Chunk? then Recorded(s.accepted, s.snd.nextSeq, Chunks(e.payload, MAX_PAYLOAD)) else s.accepted,
       chunks := if e.Chunk? then s.chunks + [Accepted(e.payload, s.snd.nextSeq)] else s.chunks,
       exited := Finished(snd),
       taken := if e.SackIn? && NextSack(s, e.sack) then s.taken + 1 else s.taken,
       clock := env.sendTime,
       tick := if e.ProbeTimer? then s.tick + PROBE_PERIOD else s.tick)
  }

  ghost predicate SenderStep(s: System, e: Event, env: Env, s': System) {
    SenderMay(s, e, env) && s' == Turned(s, e, env)
  }

  /** A datagram from the wire, or anything else that does not claim to be this session's data. */
  ghost predicate MayArrive(s: System, buf: bytes) {
    buf in s.wire || !Classify(buf, s.rcv.session).Data?
  }

  ghost predicate Next(s: System, a: Action, s': System)
    requires Canonical(s.rcv.sack)
  {
    match a
    case SenderTurn(e, env) => SenderStep(s, e, env, s')
    case Deliver(buf, now, room) =>
      && !s.done && MayArrive(s, buf)
      && (exists r :: Processed(s.rcv, buf, now, room, s'.rcv, r) && s'.done == (r == Some(true)))
      && s' == s.(rcv := s'.rcv, done := s'.done)
    case Heartbeat(room, ts) => !s.done && s' == s.(rcv := HeartbeatSent(s.rcv, room, ts))
  }

  // ---- the invariant ----

  /** Some entry of the log carries number `q`. */
  ghost predicate Delivered(log: seq<(u64, bytes)>, q: nat) {
    exists i :: 0 <= i < |log| && log[i].0 == q
  }

  ghost predicate ClaimsOnlyDelivered(p: Payload, log: seq<(u64, bytes)>) {
    Canonical(p) && forall q: nat :: Received(p, q) ==> Delivered(log, q)
  }

  ghost predicate Genuine(d: bytes, session: u32, accepted: map<u64, bytes>) {
    var k := Classify(d, session);
    k.Data? && k.sn in accepted && k.payload == accepted[k.sn]
  }

  ghost predicate PieceHeld(c: Accepted, accepted: map<u64, bytes>, i: nat)
    requires i < |Pieces(c)|
  {
    c.first + i in accepted && accepted[c.first + i] == Pieces(c)[i]
  }

  ghost predicate Holds(c: Accepted, accepted: map<u64, bytes>, next: nat) {
    && c.first + |Pieces(c)| <= next
    && forall i: nat | i < |Pieces(c)| :: PieceHeld(c, accepted, i)
  }

  ghost predicate SendSide(snd: Sender.State, session: u32, accepted: map<u64, bytes>) {
    && snd.session == session
    && snd.nextSeq + SACK_WINDOW + 1 < TWO64
    && (forall q: u64 :: q in accepted <==> q < snd.nextSeq)
    && forall q | q in snd.inFlight :: Carried(snd.inFlight, session, accepted, q)
  }

  /** The packet in flight under `q` is DATA and carries what was enqueued under that number. */
  ghost predicate Carried(inFlight: map<u64, Entry>, session: u32, accepted: map<u64, bytes>, q: u64)
    requires q in inFlight
  {
    q in accepted && Classify(inFlight[q].datagram, session) == Data(q, accepted[q])
  }

  ghost predicate Inv(s: System) {
    && SendSide(s.snd, s.rcv.session, s.accepted)
    && (forall d | d in s.wire :: Genuine(d, s.rcv.session, s.accepted))
    && (forall i | 0 <= i < |s.rcv.log| :: s.rcv.log[i].0 in s.accepted && s.rcv.log[i].1 == s.accepted[s.rcv.log[i].0])
    && ClaimsOnlyDelivered(s.rcv.sack, s.rcv.log)
    && (forall p | p in s.rcv.sackTx :: ClaimsOnlyDelivered(p, s.rcv.log))
    && (forall q: u64 | q < s.snd.nextSeq :: q in s.snd.inFlight || Delivered(s.rcv.log, q))
    && (forall i | 0 <= i < |s.chunks| :: Holds(s.chunks[i], s.accepted, s.snd.nextSeq))
    && (s.exited ==> Finished(s.snd))
  }

  // ---- the sender keeps it ----

  lemma {:induction false} NakAllDatagrams(s: Sender.State, sack: Payload, order: seq<u64>)
    ensures var s' := NakAll(s, sack, order);
      && s'.inFlight.Keys == s.inFlight.Keys && s'.nextSeq == s.nextSeq && s'.session == s.session
      && forall q | q in s.inFlight :: s'.inFlight[q].datagram == s.inFlight[q].datagram
    decreases |order|
  {
    if order != [] {
      NakAllDatagrams(NakOne(s, sack, order[0]), sack, order[1..]);
    }
  }

  lemma {:induction false} RecordedAt(accepted: map<u64, bytes>, first: u64, pieces: seq<bytes>)
    requires first + |pieces| < TWO64
    ensures var m := Recorded(accepted, first, pieces);
      && (forall q: u64 :: q in m <==> q in accepted || first <= q < first + |pieces|)
      && (forall q | q in accepted && !(first <= q < first + |pieces|) :: m[q] == accepted[q])
      && forall i | 0 <= i < |pieces| :: m[first + i] == pieces[i]
    decreases |pieces|
  {
    if pieces != [] {
      var m1 := accepted[first := pieces[0]];
      RecordedAt(m1, first + 1, pieces[1..]);
      var m := Recorded(accepted, first, pieces);
      forall i | 0 <= i < |pieces| ensures m[first + i] == pieces[i] {
        if i == 0 { assert m[first] == m1[first]; } else { assert m[first + 1 + (i - 1)] == pieces[1..][i - 1]; }
      }
    }
  }

  lemma {:induction false} EnqueuedNumbers(s: Sender.State, pieces: seq<bytes>, stamp: u64 -> u64, now: real)
    requires s.nextSeq + |pieces| < TWO64
    ensures var s' := EnqueuedChunks(s, pieces, stamp, now);
      s'.session == s.session && s'.nextSeq == s.nextSeq + |pieces|
    decreases |pieces|
  {
    if pieces != [] {
      EnqueuedNumbers(WithChunk(s, pieces[0], stamp, now), pieces[1..], stamp, now);
    }
  }

  /** Enqueueing puts each piece in flight under its own number and leaves the others alone. */
  lemma {:induction false} EnqueuedInFlight(s: Sender.State, pieces: seq<bytes>, stamp: u64 -> u64, now: real, q: u64)
    requires s.nextSeq + |pieces| < TWO64
    ensures var m := EnqueuedChunks(s, pieces, stamp, now).inFlight;
      if q < s.nextSeq || s.nextSeq + |pieces| <= q then
        (q in m <==> q in s.inFlight) && (q in m ==> m[q] == s.inFlight[q])
      else
        q in m && m[q].datagram == DataDatagram(s.session, q, stamp(q), pieces[q - s.nextSeq])
    decreases |pieces|
  {
    if pieces != [] {
      EnqueuedInFlight(WithChunk(s, pieces[0], stamp, now), pieces[1..], stamp, now, q);
    }
  }

  /** The piece enqueued under `q` travels as a DATA packet that carries it. */
  lemma EnqueuedCarries(s: Sender.State, pieces: seq<bytes>, stamp: u64 -> u64, now: real, q: u64)
    requires s.nextSeq <= q < s.nextSeq + |pieces| < TWO64
    requires |pieces[q - s.nextSeq]| < TWO16
    ensures var m := EnqueuedChunks(s, pieces, stamp, now).inFlight;
      q in m && Classify(m[q].datagram, s.session) == Data(q, pieces[q - s.nextSeq])
  {
    EnqueuedInFlight(s, pieces, stamp, now, q);
    ClassifyData(s.session, q, stamp(q), pieces[q - s.nextSeq]);
  }

  /** What travels under a number that enqueueing hands out: the DATA header with that number, its own time stamp and
      the piece's length, then the piece; 1443 bytes of the payload each, except for the last. */
  lemma EnqueuedTravels(s: Sender.State, payload: bytes, stamp: u64 -> u64, now: real, q: u64)
    requires Fits(s, payload) && s.nextSeq <= q < s.nextSeq + |Chunks(payload, MAX_PAYLOAD)|
    ensures var pieces, m := Chunks(payload, MAX_PAYLOAD), Enqueued(s, payload, stamp, now).inFlight;
      && q in m && var d, piece := m[q].datagram, pieces[q - s.nextSeq];
         && (if q + 1 < s.nextSeq + |pieces| then |piece| == 1443 else 0 < |piece| <= 1443)
         && ReadFrom(d) == Some(Header(s.session, q, stamp(q), 0x04, |piece|, 0, 0, 0)) && d[29..] == piece
  {
    var pieces := Chunks(payload, MAX_PAYLOAD);
    var i := q - s.nextSeq;
    EnqueuedInFlight(s, pieces, stamp, now, q);
    ChunksShape(payload, MAX_PAYLOAD);
    if i + 1 < |pieces| { ChunkFull(payload, MAX_PAYLOAD, i); }
    Below16(|pieces[i]|);
    ReadInvertsEncode(NewData(s.session, q, stamp(q), |pieces[i]|), pieces[i]);
  }

  lemma EnqueuedSendSide(s: Sender.State, session: u32, accepted: map<u64, bytes>, pieces: seq<bytes>,
                         stamp: u64 -> u64, now: real)
    requires s.nextSeq + |pieces| + SACK_WINDOW + 1 < TWO64
    requires forall i | 0 <= i < |pieces| :: |pieces[i]| < TWO16
    requires SendSide(s, session, accepted)
    ensures SendSide(EnqueuedChunks(s, pieces, stamp, now), session, Recorded(accepted, s.nextSeq, pieces))
  {
    EnqueuedNumbers(s, pieces, stamp, now);
    RecordedKeys(accepted, s.nextSeq, pieces);
    var h, accepted' := EnqueuedChunks(s, pieces, stamp, now), Recorded(accepted, s.nextSeq, pieces);
    forall q | q in h.inFlight ensures Carried(h.inFlight, session, accepted', q) {
      EnqueuedOne(s, session, accepted, pieces, stamp, now, q);
    }
  }

  lemma EnqueuedKept(s: Sender.State, pieces: seq<bytes>, stamp: u64 -> u64, now: real)
    requires s.nextSeq + |pieces| < TWO64
    ensures forall q: u64 | q in s.inFlight || s.nextSeq <= q < s.nextSeq + |pieces| ::
              q in EnqueuedChunks(s, pieces, stamp, now).inFlight
  {
    forall q: u64 | q in s.inFlight || s.nextSeq <= q < s.nextSeq + |pieces|
      ensures q in EnqueuedChunks(s, pieces, stamp, now).inFlight
    {
      EnqueuedInFlight(s, pieces, stamp, now, q);
    }
  }

  lemma RecordedKeys(accepted: map<u64, bytes>, first: u64, pieces: seq<bytes>)
    requires first + |pieces| < TWO64
    ensures forall q: u64 :: q in Recorded(accepted, first, pieces) <==> q in accepted || first <= q < first + |pieces|
  {
    RecordedAt(accepted, first, pieces);
  }

  lemma RecordedPiece(accepted: map<u64, bytes>, first: u64, pieces: seq<bytes>, q: u64)
    requires first + |pieces| < TWO64
    ensures var m := Recorded(accepted, first, pieces);
      && (first <= q < first + |pieces| ==> q in m && m[q] == pieces[q - first])
      && (!(first <= q < first + |pieces|) && q in accepted ==> q in m && m[q] == accepted[q])
  {
    RecordedAt(accepted, first, pieces);
    if first <= q < first + |pieces| {
      assert Recorded(accepted, first, pieces)[first + (q - first)] == pieces[q - first];
    }
  }

  lemma EnqueuedOne(s: Sender.State, session: u32, accepted: map<u64, bytes>, pieces: seq<bytes>,
                    stamp: u64 -> u64, now: real, q: u64)
    requires s.nextSeq + |pieces| < TWO64
    requires forall i | 0 <= i < |pieces| :: |pieces[i]| < TWO16
    requires SendSide(s, session, accepted) && q in EnqueuedChunks(s, pieces, stamp, now).inFlight
    ensures Carried(EnqueuedChunks(s, pieces, stamp, now).inFlight, session, Recorded(accepted, s.nextSeq, pieces), q)
  {
    RecordedPiece(accepted, s.nextSeq, pieces, q);
    if s.nextSeq <= q < s.nextSeq + |pieces| {
      EnqueuedCarries(s, pieces, stamp, now, q);
    } else {
      OldCarried(s, session, accepted, pieces, stamp, now, q);
    }
  }

  lemma OldCarried(s: Sender.State, session: u32, accepted: map<u64, bytes>, pieces: seq<bytes>,
                   stamp: u64 -> u64, now: real, q: u64)
    requires s.nextSeq + |pieces| < TWO64 && !(s.nextSeq <= q < s.nextSeq + |pieces|)
    requires SendSide(s, session, accepted) && q in EnqueuedChunks(s, pieces, stamp, now).inFlight
    ensures Carried(EnqueuedChunks(s, pieces, stamp, now).inFlight, session, accepted, q)
  {
    EnqueuedInFlight(s, pieces, stamp, now, q);
    assert Carried(s.inFlight, session, accepted, q);
  }

  lemma PiecesFit(payload: bytes)
    ensures forall i | 0 <= i < |Chunks(payload, MAX_PAYLOAD)| :: |Chunks(payload, MAX_PAYLOAD)[i]| < TWO16
  {
    ChunksShape(payload, MAX_PAYLOAD);
  }

  /** What the event of a turn does, seen from the protocol: nothing leaves the in-flight map undelivered. */
  ghost predicate HandledWell(s: System, h: Sender.State, accepted': map<u64, bytes>) {
    && SendSide(h, s.rcv.session, accepted')
    && s.snd.nextSeq <= h.nextSeq
    && (forall q | q in s.accepted :: q in accepted' && accepted'[q] == s.accepted[q])
    && forall q: u64 | q < h.nextSeq :: q in h.inFlight || Delivered(s.rcv.log, q)
  }

  /** What is in flight in `m'` was in flight in `m`, with the same bytes. */
  ghost predicate Fewer(m: map<u64, Entry>, m': map<u64, Entry>) {
    forall q | q in m' :: q in m && m'[q].datagram == m[q].datagram
  }

  lemma FewerSendSide(snd: Sender.State, snd': Sender.State, session: u32, accepted: map<u64, bytes>)
    requires SendSide(snd, session, accepted) && Fewer(snd.inFlight, snd'.inFlight)
    requires snd'.session == snd.session && snd'.nextSeq == snd.nextSeq
    ensures SendSide(snd', session, accepted)
  {
    forall q | q in snd'.inFlight ensures Carried(snd'.inFlight, session, accepted, q) {
      assert Carried(snd.inFlight, session, accepted, q);
    }
  }

  /** A SACK takes exactly the packets it claims out of flight. */
  lemma SackLeaves(s: Sender.State, sack: Payload, env: Env)
    requires Admits(s, SackIn(sack))
    ensures var h := Handled(s, SackIn(sack), env);
      && h.session == s.session && h.nextSeq == s.nextSeq
      && h.inFlight.Keys == Unacked(s.inFlight, sack).Keys && Fewer(s.inFlight, h.inFlight)
  {
    var total := BytesOf(AckedOf(env.beforeAck, sack), s.inFlight);
    var m := s.(inFlight := Unacked(s.inFlight, sack), prober := Congestion.Acked(s.prober, total, env.eventTime).0);
    NakAllDatagrams(m, sack, env.afterAck);
  }

  lemma SackHandledWell(s: System, sack: Payload, env: Env)
    requires Inv(s) && SenderMay(s, SackIn(sack), env)
    ensures HandledWell(s, Handled(s.snd, SackIn(sack), env), s.accepted)
  {
    var h := Handled(s.snd, SackIn(sack), env);
    SackLeaves(s.snd, sack, env);
    FewerSendSide(s.snd, h, s.rcv.session, s.accepted);
    assert ClaimsOnlyDelivered(sack, s.rcv.log);
    SackGoneDelivered(s, sack, h.inFlight);
  }

  lemma SackGoneDelivered(s: System, sack: Payload, inFlight: map<u64, Entry>)
    requires Inv(s) && ClaimsOnlyDelivered(sack, s.rcv.log) && inFlight.Keys == Unacked(s.snd.inFlight, sack).Keys
    ensures forall q: u64 | q < s.snd.nextSeq :: q in inFlight || Delivered(s.rcv.log, q)
  {
    forall q: u64 | q < s.snd.nextSeq ensures q in inFlight || Delivered(s.rcv.log, q) {
      if q in s.snd.inFlight && !Received(sack, q) { assert q in Unacked(s.snd.inFlight, sack); }
    }
  }

  lemma ChunkHandledWell(s: System, payload: bytes, env: Env)
    requires Inv(s) && SenderMay(s, Chunk(payload), env)
    ensures HandledWell(s, Handled(s.snd, Chunk(payload), env),
                        Recorded(s.accepted, s.snd.nextSeq, Chunks(payload, MAX_PAYLOAD)))
    ensures Handled(s.snd, Chunk(payload), env).nextSeq == s.snd.nextSeq + |Chunks(payload, MAX_PAYLOAD)|
  {
    var pieces := Chunks(payload, MAX_PAYLOAD);
    PiecesFit(payload);
    EnqueuedSendSide(s.snd, s.rcv.session, s.accepted, pieces, env.stamp, env.eventTime);
    EnqueuedKept(s.snd, pieces, env.stamp, env.eventTime);
    EnqueuedNumbers(s.snd, pieces, env.stamp, env.eventTime);
    RecordedAt(s.accepted, s.snd.nextSeq, pieces);
  }

  lemma EventHandledWell(s: System, e: Event, env: Env, s': System)
    requires Inv(s) && SenderStep(s, e, env, s')
    ensures HandledWell(s, Handled(s.snd, e, env), s'.accepted)
  {
    match e {
      case SackIn(sack) => SackHandledWell(s, sack, env);
      case Chunk(payload) => ChunkHandledWell(s, payload, env);
      case ProbeTimer =>
      case Shutdown =>
    }
  }

  /** The batch of a turn: what is in flight is unchanged, and what goes on the wire is genuine. */
  lemma BatchHandledWell(s: System, e: Event, env: Env, s': System)
    requires Inv(s) && SenderStep(s, e, env, s')
    requires HandledWell(s, Handled(s.snd, e, env), s'.accepted)
    ensures HandledWell(s, s'.snd, s'.accepted) && s'.snd.nextSeq == Handled(s.snd, e, env).nextSeq
    ensures forall d | d in s'.wire :: Genuine(d, s.rcv.session, s'.accepted)
  {
    TurnSends(s.snd, e, env);
    SameContentWell(s, Handled(s.snd, e, env), s'.snd, s'.accepted);
    WireGenuine(s, e, env, s');
  }

  lemma TurnSends(snd: Sender.State, e: Event, env: Env)
    requires Admits(snd, e)
    ensures var h, snd' := Handled(snd, e, env), Turn(snd, e, env);
      SameContent(h.inFlight, snd'.inFlight) && snd'.nextSeq == h.nextSeq && snd'.session == h.session
  {
    BatchIsSound(Ready(snd, e, env), env.unsent, env.rto, env.sendTime, env.wired);
  }

  lemma WireGenuine(s: System, e: Event, env: Env, s': System)
    requires Inv(s) && SenderStep(s, e, env, s') && HandledWell(s, s'.snd, s'.accepted)
    ensures forall d | d in s'.wire :: Genuine(d, s.rcv.session, s'.accepted)
  {
    forall d | d in s'.wire ensures Genuine(d, s.rcv.session, s'.accepted) {
      if d in s.wire {
        assert Genuine(d, s.rcv.session, s.accepted);
      } else {
        var q :| q in s'.snd.inFlight && s'.snd.inFlight[q].datagram == d;
        assert Carried(s'.snd.inFlight, s.rcv.session, s'.accepted, q);
      }
    }
  }

  lemma SameContentWell(s: System, h: Sender.State, h': Sender.State, accepted: map<u64, bytes>)
    requires HandledWell(s, h, accepted) && SameContent(h.inFlight, h'.inFlight)
    requires h'.nextSeq == h.nextSeq && h'.session == h.session
    ensures HandledWell(s, h', accepted)
  {
    FewerSendSide(h, h', s.rcv.session, accepted);
  }

  lemma StillHolds(c: Accepted, accepted: map<u64, bytes>, next: nat, accepted': map<u64, bytes>, next': nat)
    requires Holds(c, accepted, next) && next <= next'
    requires forall q | q in accepted :: q in accepted' && accepted'[q] == accepted[q]
    ensures Holds(c, accepted', next')
  {
    forall i: nat | i < |Pieces(c)| ensures PieceHeld(c, accepted', i) {
      assert PieceHeld(c, accepted, i);
    }
  }

  lemma NewChunkHolds(s: System, payload: bytes, env: Env)
    requires Inv(s) && SenderMay(s, Chunk(payload), env)
    ensures Holds(Accepted(payload, s.snd.nextSeq), Recorded(s.accepted, s.snd.nextSeq, Chunks(payload, MAX_PAYLOAD)),
                  Handled(s.snd, Chunk(payload), env).nextSeq)
  {
    EnqueuedNumbers(s.snd, Chunks(payload, MAX_PAYLOAD), env.stamp, env.eventTime);
    RecordedHolds(s.accepted, Accepted(payload, s.snd.nextSeq));
  }

  lemma RecordedHolds(accepted: map<u64, bytes>, c: Accepted)
    requires c.first + |Pieces(c)| < TWO64
    ensures Holds(c, Recorded(accepted, c.first, Pieces(c)), c.first + |Pieces(c)|)
  {
    forall i: nat | i < |Pieces(c)| ensures PieceHeld(c, Recorded(accepted, c.first, Pieces(c)), i) {
      RecordedPiece(accepted, c.first, Pieces(c), c.first + i);
    }
  }

  lemma ChunksKeepHolding(s: System, e: Event, env: Env, s': System)
    requires Inv(s) && SenderStep(s, e, env, s')
    requires HandledWell(s, s'.snd, s'.accepted) && s'.snd.nextSeq == Handled(s.snd, e, env).nextSeq
    ensures forall i | 0 <= i < |s'.chunks| :: Holds(s'.chunks[i], s'.accepted, s'.snd.nextSeq)
  {
    OldChunksHold(s, s'.snd, s'.accepted);
    if e.Chunk? { NewChunkHolds(s, e.payload, env); }
  }

  lemma OldChunksHold(s: System, h: Sender.State, accepted': map<u64, bytes>)
    requires Inv(s) && HandledWell(s, h, accepted')
    ensures forall i | 0 <= i < |s.chunks| :: Holds(s.chunks[i], accepted', h.nextSeq)
  {
    forall i | 0 <= i < |s.chunks| ensures Holds(s.chunks[i], accepted', h.nextSeq) {
      StillHolds(s.chunks[i], s.accepted, s.snd.nextSeq, accepted', h.nextSeq);
    }
  }

  lemma SenderKeepsInv(s: System, e: Event, env: Env, s': System)
    requires Inv(s) && SenderStep(s, e, env, s')
    ensures Inv(s')
  {
    EventHandledWell(s, e, env, s');
    BatchHandledWell(s, e, env, s');
    ChunksKeepHolding(s, e, env, s');
  }

  // ---- the receiver keeps it ----

  lemma DeliveredGrows(log: seq<(u64, bytes)>, x: (u64, bytes), q: nat)
    ensures Delivered(log, q) ==> Delivered(log + [x], q)
    ensures Delivered(log + [x], x.0)
  {
    if Delivered(log, q) {
      var i :| 0 <= i < |log| && log[i].0 == q;
      assert (log + [x])[i].0 == q;
    }
    assert (log + [x])[|log|].0 == x.0;
  }

  /** One more delivery: every claim of the updated bitmap, and every older claim, is still covered by the log. */
  lemma ArrivalKeepsClaims(p: Payload, log: seq<(u64, bytes)>, x: (u64, bytes))
    requires ClaimsOnlyDelivered(p, log)
    ensures ClaimsOnlyDelivered(p, log + [x])
    ensures forall p' | Arrival(p, x.0, p') :: ClaimsOnlyDelivered(p', log + [x])
  {
    forall q: nat ensures Delivered(log, q) ==> Delivered(log + [x], q) { DeliveredGrows(log, x, q); }
    DeliveredGrows(log, x, x.0);
  }

  lemma DataKeepsInv(s: System, buf: bytes, now: u64, room: bool, r: Option<bool>, s': System)
    requires Inv(s) && MayArrive(s, buf)
    requires Processed(s.rcv, buf, now, room, s'.rcv, r) && s' == s.(rcv := s'.rcv, done := s'.done)
    requires Classify(buf, s.rcv.session).Data?
    ensures Inv(s')
  {
    var k := Classify(buf, s.rcv.session);
    var x := (k.sn, k.payload);
    assert Genuine(buf, s.rcv.session, s.accepted);
    assert s'.rcv.log == s.rcv.log + [x];
    ArrivalKeepsClaims(s.rcv.sack, s.rcv.log, x);
    forall p | p in s'.rcv.sackTx ensures ClaimsOnlyDelivered(p, s'.rcv.log) { ArrivalKeepsClaims(p, s.rcv.log, x); }
    forall q: u64 | q < s.snd.nextSeq ensures q in s.snd.inFlight || Delivered(s'.rcv.log, q) {
      DeliveredGrows(s.rcv.log, x, q);
    }
  }

  lemma DeliverKeepsInv(s: System, buf: bytes, now: u64, room: bool, s': System)
    requires Inv(s) && Next(s, Deliver(buf, now, room), s')
    ensures Inv(s')
  {
    var r :| Processed(s.rcv, buf, now, room, s'.rcv, r);
    if Classify(buf, s.rcv.session).Data? {
      DataKeepsInv(s, buf, now, room, r, s');
    } else {
      OtherKeepsInv(s, buf, now, room, r, s');
    }
  }

  lemma OtherKeepsInv(s: System, buf: bytes, now: u64, room: bool, r: Option<bool>, s': System)
    requires Inv(s) && Processed(s.rcv, buf, now, room, s'.rcv, r) && s' == s.(rcv := s'.rcv, done := s'.done)
    requires !Classify(buf, s.rcv.session).Data?
    ensures Inv(s')
  {
    assert s'.rcv.log == s.rcv.log && s'.rcv.sack == s.rcv.sack && s'.rcv.session == s.rcv.session;
    assert forall p | p in s'.rcv.sackTx :: p in s.rcv.sackTx || p == s.rcv.sack;
  }

  /** In every state the invariant allows, an arriving datagram keeps the 64-bit arithmetic of the receiver in range. */
  lemma ArrivalsInRange(s: System, buf: bytes)
    requires Inv(s) && MayArrive(s, buf)
    ensures InRange(s.rcv, buf)
  {
    assert Received(s.rcv.sack, s.snd.nextSeq) ==> Delivered(s.rcv.log, s.snd.nextSeq);
  }

  lemma NextKeepsInv(s: System, a: Action, s': System)
    requires Inv(s) && Next(s, a, s')
    ensures Inv(s')
  {
    match a
    case SenderTurn(e, env) => SenderKeepsInv(s, e, env, s');
    case Deliver(buf, now, room) => DeliverKeepsInv(s, buf, now, room, s');
    case Heartbeat(room, ts) =>
  }

  // ---- runs ----

  ghost predicate Execution(ss: seq<System>, actions: seq<Action>) {
    && |ss| == |actions| + 1
    && Starts(ss[0])
    && forall i | 0 <= i < |actions| :: Canonical(ss[i].rcv.sack) && Next(ss[i], actions[i], ss[i + 1])
  }

  lemma ExecutionStep(ss: seq<System>, actions: seq<Action>, i: nat)
    requires Execution(ss, actions) && i < |actions|
    ensures Canonical(ss[i].rcv.sack) && Next(ss[i], actions[i], ss[i + 1])
  {
  }

  lemma {:induction false} InvAlways(ss: seq<System>, actions: seq<Action>, n: nat)
    requires Execution(ss, actions) && n < |ss|
    ensures Inv(ss[n])
  {
    if n > 0 {
      InvAlways(ss, actions, n - 1);
      OneMoreInv(ss, actions, n - 1);
    }
  }

  lemma OneMoreInv(ss: seq<System>, actions: seq<Action>, i: nat)
    requires Execution(ss, actions) && i < |actions| && Inv(ss[i])
    ensures Inv(ss[i + 1])
  {
    ExecutionStep(ss, actions, i);
    NextKeepsInv(ss[i], actions[i], ss[i + 1]);
  }

  /** Safety in every reachable state: each number handed out is still in flight or was delivered with
      exactly the bytes enqueued under it, and every SACK, however stale, claims only such numbers. */
  lemma NothingLost(ss: seq<System>, actions: seq<Action>, n: nat)
    requires Execution(ss, actions) && n < |ss|
    ensures var s := ss[n];
      && (forall q: u64 | q < s.snd.nextSeq ::
            q in s.accepted && (q in s.snd.inFlight || (q, s.accepted[q]) in s.rcv.log))
      && forall p, q: u64 | p in s.rcv.sackTx && Received(p, q) :: q in s.accepted && (q, s.accepted[q]) in s.rcv.log
  {
    InvAlways(ss, actions, n);
    var s := ss[n];
    forall q: u64 | Delivered(s.rcv.log, q) ensures q in s.accepted && (q, s.accepted[q]) in s.rcv.log {
      DeliveredEntry(s, q);
    }
  }

  /** The pieces of a payload, in order, are log entries under consecutive numbers, and they join up to it. */
  ghost predicate AllDelivered(s: System, c: nat)
    requires c < |s.chunks|
  {
    var a := s.chunks[c];
    && Concat(Pieces(a)) == a.payload
    && forall i: nat | i < |Pieces(a)| :: Logged(s.rcv.log, a.first + i, Pieces(a)[i])
  }

  ghost predicate Logged(log: seq<(u64, bytes)>, q: nat, piece: bytes) {
    q < TWO64 && (q, piece) in log
  }

  lemma DeliveredEntry(s: System, q: u64)
    requires Inv(s) && Delivered(s.rcv.log, q)
    ensures q in s.accepted && (q, s.accepted[q]) in s.rcv.log
  {
    var i :| 0 <= i < |s.rcv.log| && s.rcv.log[i].0 == q;
    assert s.rcv.log[i] == (q, s.accepted[q]);
  }

  lemma ExitedDelivered(s: System, c: nat)
    requires Inv(s) && s.exited && c < |s.chunks|
    ensures AllDelivered(s, c)
  {
    var a := s.chunks[c];
    ConcatChunks(a.payload, MAX_PAYLOAD);
    forall i: nat | i < |Pieces(a)| ensures Logged(s.rcv.log, a.first + i, Pieces(a)[i]) { PieceDelivered(s, c, i); }
  }

  lemma PieceDelivered(s: System, c: nat, i: nat)
    requires Inv(s) && s.exited && c < |s.chunks| && i < |Pieces(s.chunks[c])|
    ensures var a := s.chunks[c]; Logged(s.rcv.log, a.first + i, Pieces(a)[i])
  {
    var a := s.chunks[c];
    assert Holds(a, s.accepted, s.snd.nextSeq);
    assert PieceHeld(a, s.accepted, i);
    assert s.snd.inFlight == map[];
    DeliveredEntry(s, a.first + i);
  }

  /** When the sender's loop has exited, every byte of every accepted payload was delivered: its pieces,
      in order, are log entries under consecutive numbers, and they join up to the payload. */
  lemma ExitMeansDelivered(ss: seq<System>, actions: seq<Action>, n: nat, c: nat)
    requires Execution(ss, actions) && n < |ss| && ss[n].exited && c < |ss[n].chunks|
    ensures AllDelivered(ss[n], c)
  {
    InvAlways(ss, actions, n);
    ExitedDelivered(ss[n], c);
  }
}
