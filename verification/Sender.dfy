/** The send side of a session: in-flight packets, the two retransmit queues, paced batches and
    the shutdown rule of the run loop (crates/protocol/src/sender.rs). */
module Sender {
  import opened Bits
  import opened Bytes
  import opened Seqs
  import opened Packet
  import opened Sack
  import opened Congestion
  import Session

  const BATCH_SIZE: nat := 64
  const MAX_PAYLOAD: nat := 1443

  datatype Entry = Entry(datagram: bytes, lastSent: real, nakCount: nat)

  datatype State = State(
    session: u32, inFlight: map<u64, Entry>, urgent: seq<u64>, normal: seq<u64>, nextSeq: u64,
    bucket: Bucket, prober: Prober, shutdown: bool)

  // ---- enqueueing ----

  /** A chunk in flight under the next sequence number, dated a second back as "unsent"; `stamp` is the
      clock that dates the header of each sequence number. */
  function WithChunk(s: State, chunk: bytes, stamp: u64 -> u64, now: real): State
    requires s.nextSeq + 1 < TWO64
  {
    var e := Entry(DataDatagram(s.session, s.nextSeq, stamp(s.nextSeq), chunk), now - 1.0, 0);
    s.(inFlight := s.inFlight[s.nextSeq := e], nextSeq := s.nextSeq + 1)
  }

  /** One entry per chunk under consecutive sequence numbers. */
  function EnqueuedChunks(s: State, chunks: seq<bytes>, stamp: u64 -> u64, now: real): State
    requires s.nextSeq + |chunks| < TWO64
    decreases |chunks|
  {
    if chunks == [] then s else EnqueuedChunks(WithChunk(s, chunks[0], stamp, now), chunks[1..], stamp, now)
  }

  lemma EnqueuedStep(s: State, chunks: seq<bytes>, i: nat, stamp: u64 -> u64, now: real)
    requires i < |chunks| && s.nextSeq + (|chunks| - i) < TWO64
    ensures EnqueuedChunks(s, chunks[i..], stamp, now) ==
            EnqueuedChunks(WithChunk(s, chunks[i], stamp, now), chunks[i + 1..], stamp, now)
  {
    assert chunks[i..][1..] == chunks[i + 1..];
  }

  predicate Fits(s: State, payload: bytes) {
    s.nextSeq + |Chunks(payload, MAX_PAYLOAD)| < TWO64
  }

  function Enqueued(s: State, payload: bytes, stamp: u64 -> u64, now: real): State
    requires Fits(s, payload)
  {
    EnqueuedChunks(s, Chunks(payload, MAX_PAYLOAD), stamp, now)
  }

  // ---- SACK processing ----

  ghost predicate Distinct(qs: seq<u64>) {
    forall i, j | 0 <= i < j < |qs| :: qs[i] != qs[j]
  }

  /** `order` visits each key once: the iteration order of a hash map. */
  ghost predicate IsOrder(order: seq<u64>, keys: set<u64>) {
    && (forall q: u64 :: q in order <==> q in keys)
    && Distinct(order)
  }

  function AckedOf(order: seq<u64>, sack: Payload): seq<u64> {
    if order == [] then []
    else (if order[0] < sack.base || Received(sack, order[0]) then [order[0]] else []) + AckedOf(order[1..], sack)
  }

  function BytesOf(order: seq<u64>, inFlight: map<u64, Entry>): nat {
    if order == [] then 0
    else (if order[0] in inFlight then |inFlight[order[0]].datagram| else 0) + BytesOf(order[1..], inFlight)
  }

  /** The in-flight packets a SACK does not cover. */
  function Unacked(inFlight: map<u64, Entry>, sack: Payload): map<u64, Entry> {
    map q | q in inFlight && !Received(sack, q) :: inFlight[q]
  }

  /** One reported gap: to the normal queue the first time, to the urgent one the second. */
  function NakOne(s: State, sack: Payload, q: u64): State {
    if q !in s.inFlight || Received(sack, q) then s
    else
      var e := s.inFlight[q];
      if e.nakCount + 1 >= 2 then
        s.(inFlight := s.inFlight[q := e.(nakCount := 0)], urgent := s.urgent + [q])
      else
        s.(inFlight := s.inFlight[q := e.(nakCount := e.nakCount + 1)], normal := s.normal + [q])
  }

  function NakAll(s: State, sack: Payload, order: seq<u64>): State
    decreases |order|
  {
    if order == [] then s else NakAll(NakOne(s, sack, order[0]), sack, order[1..])
  }

  /** `before` and `after` are the iteration orders of the map before and after the acked entries leave it. */
  function Sacked(s: State, sack: Payload, before: seq<u64>, after: seq<u64>, now: real): State {
    var total := BytesOf(AckedOf(before, sack), s.inFlight);
    NakAll(s.(inFlight := Unacked(s.inFlight, sack), prober := Acked(s.prober, total, now).0), sack, after)
  }

  // ---- batches ----

  /** A send round under way: a queue, what is in flight, the tokens left, and the numbers picked so far. */
  datatype Round = Round(queue: seq<u64>, inFlight: map<u64, Entry>, tokens: real, picked: seq<u64>)

  /** The number in front of the queue is popped... */
  function Popped(r: Round): Round
    requires r.queue != []
  {
    r.(queue := r.queue[1..])
  }

  predicate HeadInFlight(r: Round) {
    r.queue != [] && r.queue[0] in r.inFlight
  }

  predicate Affordable(r: Round)
    requires HeadInFlight(r)
  {
    r.tokens >= |r.inFlight[r.queue[0]].datagram| as real
  }

  /** ...and its packet picked: paid for and dated. */
  function PickHead(r: Round, now: real): Round
    requires HeadInFlight(r)
  {
    var q := r.queue[0];
    Round(r.queue[1..], r.inFlight[q := r.inFlight[q].(lastSent := now)],
          r.tokens - |r.inFlight[q].datagram| as real, r.picked + [q])
  }

  /** Pops until the batch is full, the queue is empty, or the tokens run out (then the number goes back). */
  function Drained(r: Round, now: real): Round
    decreases |r.queue|
  {
    if |r.picked| >= BATCH_SIZE || r.queue == [] then r
    else if !HeadInFlight(r) then Drained(Popped(r), now)
    else if Affordable(r) then Drained(PickHead(r, now), now)
    else r.(queue := r.queue[1..] + [r.queue[0]])
  }

  /** Not sent for longer than the timeout and not reported as an odd gap. */
  predicate Eligible(e: Entry, rto: real, now: real) {
    Elapsed(now, e.lastSent) > rto && e.nakCount == 0
  }

  function EligibleOf(order: seq<u64>, inFlight: map<u64, Entry>, rto: real, now: real): seq<u64> {
    if order == [] then []
    else
      (if order[0] in inFlight && Eligible(inFlight[order[0]], rto, now) then [order[0]] else []) +
      EligibleOf(order[1..], inFlight, rto, now)
  }

  function Taken(xs: seq<u64>, n: nat): (r: seq<u64>)
    ensures |r| <= n
  {
    if |xs| <= n then xs else xs[..n]
  }

  /** The queue of this round is the list of eligible entries; the first one the tokens do not cover ends it. */
  function SentFresh(r: Round, now: real): Round
    decreases |r.queue|
  {
    if r.queue == [] then r
    else if !HeadInFlight(r) then SentFresh(Popped(r), now)
    else if Affordable(r) then SentFresh(PickHead(r, now), now)
    else r
  }

  function UrgentRound(s: State, now: real): Round {
    Drained(Round(s.urgent, s.inFlight, s.bucket.tokens, []), now)
  }

  function NormalRound(s: State, now: real): Round {
    var u := UrgentRound(s, now);
    Drained(u.(queue := s.normal), now)
  }

  function FreshRound(s: State, order: seq<u64>, rto: real, now: real): Round {
    var n := NormalRound(s, now);
    var room := if |n.picked| <= BATCH_SIZE then BATCH_SIZE - |n.picked| else 0;
    SentFresh(n.(queue := Taken(EligibleOf(order, n.inFlight, rto, now), room)), now)
  }

  /** Urgent, then normal, then never-sent or timed-out packets; the kernel accepts the first `wired` of them. */
  function Batched(s: State, order: seq<u64>, rto: real, now: real, wired: nat): State {
    var f := FreshRound(s, order, rto, now);
    s.(urgent := UrgentRound(s, now).queue, normal := NormalRound(s, now).queue,
       inFlight := f.inFlight, bucket := s.bucket.(tokens := f.tokens),
       prober := Sent(s.prober, BytesOf(Taken(f.picked, wired), f.inFlight)))
  }

  function Picked(s: State, order: seq<u64>, rto: real, now: real): seq<u64> {
    FreshRound(s, order, rto, now).picked
  }

  function DatagramsOf(picked: seq<u64>, inFlight: map<u64, Entry>): (r: seq<bytes>)
    requires forall q | q in picked :: q in inFlight
    ensures |r| == |picked|
  {
    seq(|picked|, i requires 0 <= i < |picked| => inFlight[picked[i]].datagram)
  }

  // ---- one turn of the run loop ----

  datatype Event = ProbeTimer | SackIn(sack: Payload) | Chunk(payload: bytes) | Shutdown

  /** What the surroundings contribute to a turn: clock readings at the event, the refill and the batch,
      header time stamps, hash-map orders, the retransmission timeout, and how many datagrams the kernel took. */
  datatype Env = Env(
    eventTime: real, refillTime: real, sendTime: real, stamp: u64 -> u64,
    beforeAck: seq<u64>, afterAck: seq<u64>, unsent: seq<u64>, rto: real, wired: nat)

  predicate Admits(s: State, e: Event) {
    && Sane(s.prober)
    && (e.Chunk? ==> Fits(s, e.payload))
  }

  function Handled(s: State, e: Event, env: Env): State
    requires Admits(s, e)
  {
    match e
    case ProbeTimer =>
      var (p, change) := Evaluated(s.prober, env.eventTime);
      s.(prober := p, bucket := match change case Some(r) => WithRate(s.bucket, r) case None => s.bucket)
    case SackIn(sack) => Sacked(s, sack, env.beforeAck, env.afterAck, env.eventTime)
    case Chunk(payload) => Enqueued(s, payload, env.stamp, env.eventTime)
    case Shutdown => s.(shutdown := true)
  }

  function Refilling(s: State, now: real): State {
    s.(bucket := Refilled(s.bucket, now))
  }

  function Ready(s: State, e: Event, env: Env): State
    requires Admits(s, e)
  {
    Refilling(Handled(s, e, env), env.refillTime)
  }

  /** A turn: the event, a refill, a batch. */
  function Turn(s: State, e: Event, env: Env): State
    requires Admits(s, e)
  {
    Batched(Ready(s, e, env), env.unsent, env.rto, env.sendTime, env.wired)
  }

  function TurnPicks(s: State, e: Event, env: Env): seq<u64>
    requires Admits(s, e)
  {
    Picked(Ready(s, e, env), env.unsent, env.rto, env.sendTime)
  }

  /** The loop's exit test. */
  predicate Finished(s: State) {
    s.shutdown && s.inFlight == map[]
  }

  /** The orders in `env` really are iteration orders of the maps they stand for. */
  ghost predicate Possible(s: State, e: Event, env: Env)
    requires Admits(s, e)
  {
    && (e.SackIn? ==>
          && IsOrder(env.beforeAck, s.inFlight.Keys)
          && IsOrder(env.afterAck, Unacked(s.inFlight, e.sack).Keys))
    && IsOrder(env.unsent, Handled(s, e, env).inFlight.Keys)
  }

  function Initial(session: u32, now: real): State {
    State(session, map[], [], [], 0, Bucket(10_000_000 as real / 8.0 / 1000.0, 10_000_000 as real / 8.0, now),
          FreshProber(now), false)
  }

  // ---- facts the methods need ----

  ghost predicate AllInFlight(qs: seq<u64>, inFlight: map<u64, Entry>) {
    forall q | q in qs :: q in inFlight
  }

  lemma {:induction false} AckedOfMembers(order: seq<u64>, sack: Payload)
    ensures forall q: u64 :: q in AckedOf(order, sack) <==> q in order && Received(sack, q)
  {
    if order != [] { AckedOfMembers(order[1..], sack); }
  }

  ghost function Except(all: map<u64, Entry>, qs: seq<u64>): map<u64, Entry> {
    map q | q in all && q !in qs :: all[q]
  }

  lemma DistinctCons(q: u64, qs: seq<u64>)
    requires q !in qs && Distinct(qs)
    ensures Distinct([q] + qs)
  {
    forall i, j | 0 <= i < j < |[q] + qs| ensures ([q] + qs)[i] != ([q] + qs)[j] {
      assert ([q] + qs)[j] == qs[j - 1];
    }
  }

  lemma {:induction false} AckedOfDistinct(order: seq<u64>, sack: Payload)
    requires Distinct(order)
    ensures Distinct(AckedOf(order, sack))
  {
    if order != [] {
      AckedOfDistinct(order[1..], sack);
      AckedOfMembers(order[1..], sack);
      assert [] + AckedOf(order[1..], sack) == AckedOf(order[1..], sack);
      DistinctCons(order[0], AckedOf(order[1..], sack));
    }
  }

  lemma {:induction false} AckedOfSnoc(order: seq<u64>, sack: Payload, q: u64)
    ensures AckedOf(order + [q], sack) == AckedOf(order, sack) + if Received(sack, q) then [q] else []
  {
    if order == [] {
      assert (order + [q])[1..] == [];
    } else {
      AckedOfSnoc(order[1..], sack, q);
      assert (order + [q])[1..] == order[1..] + [q];
      Assoc(if Received(sack, order[0]) then [order[0]] else [], AckedOf(order[1..], sack),
            if Received(sack, q) then [q] else []);
    }
  }

  lemma {:induction false} EligibleOfSnoc(order: seq<u64>, inFlight: map<u64, Entry>, rto: real, now: real, q: u64)
    ensures EligibleOf(order + [q], inFlight, rto, now) ==
            EligibleOf(order, inFlight, rto, now) +
            if q in inFlight && Eligible(inFlight[q], rto, now) then [q] else []
  {
    if order == [] {
      assert (order + [q])[1..] == [];
    } else {
      EligibleOfSnoc(order[1..], inFlight, rto, now, q);
      assert (order + [q])[1..] == order[1..] + [q];
      Assoc(if order[0] in inFlight && Eligible(inFlight[order[0]], rto, now) then [order[0]] else [],
            EligibleOf(order[1..], inFlight, rto, now),
            if q in inFlight && Eligible(inFlight[q], rto, now) then [q] else []);
    }
  }

  // ---- the sender task ----

  class SenderTask {
    const session: u32
    var inFlight: map<u64, Entry>
    var urgent: seq<u64>
    var normal: seq<u64>
    var nextSeq: u64
    var shutdownRequested: bool
    const pacer: TokenBucket
    const profiler: BandwidthProfiler
    const stats: Session.SessionStats

    ghost predicate Valid()
      reads this, profiler
    {
      profiler.Valid()
    }

    function Value(): State
      reads this, pacer, profiler
    {
      State(session, inFlight, urgent, normal, nextSeq, pacer.Value(), profiler.Value(), shutdownRequested)
    }

    constructor (session: u32, stats: Session.SessionStats, now: real)
      ensures Valid() && fresh(pacer) && fresh(profiler) && this.stats == stats
      ensures Value() == Initial(session, now)
    {
      this.session, this.stats := session, stats;
      inFlight, urgent, normal, nextSeq, shutdownRequested := map[], [], [], 0, false;
      pacer := new TokenBucket(10_000_000, now);
      profiler := new BandwidthProfiler(now);
    }

    method EnqueueData(payload: bytes, stamp: u64 -> u64, now: real)
      requires Valid() && Fits(Value(), payload)
      modifies this
      ensures Valid() && Value() == Enqueued(old(Value()), payload, stamp, now)
    {
      var chunks := Chunks(payload, MAX_PAYLOAD);
      for i := 0 to |chunks|
        invariant Valid() && nextSeq + (|chunks| - i) < TWO64
        invariant EnqueuedChunks(Value(), chunks[i..], stamp, now) == Enqueued(old(Value()), payload, stamp, now)
      {
        EnqueuedStep(Value(), chunks, i, stamp, now);
        EnqueueChunk(chunks[i], stamp, now);
      }
    }

    method EnqueueChunk(chunk: bytes, stamp: u64 -> u64, now: real)
      requires Valid() && nextSeq + 1 < TWO64
      modifies this
      ensures Valid() && Value() == WithChunk(old(Value()), chunk, stamp, now)
    {
      var header := NewData(session, nextSeq, stamp(nextSeq), |chunk| % TWO16);
      var datagram := BuildDatagram(header, chunk);
      inFlight := inFlight[nextSeq := Entry(datagram, now - 1.0, 0)];
      nextSeq := nextSeq + 1;
    }

    /** Drops what the SACK covers, credits its bytes to the prober, and queues the gaps. The rate the
        prober may return is not used. */
    method ProcessSack(sack: Payload, before: seq<u64>, after: seq<u64>, now: real)
      requires Valid()
      requires IsOrder(before, inFlight.Keys)
      modifies this, profiler
      ensures Valid() && Value() == Sacked(old(Value()), sack, before, after, now)
    {
      var acked := CollectAcked(sack, before);
      AckedOfMembers(before, sack);
      AckedOfDistinct(before, sack);
      var total := RemoveAcked(sack, acked);
      var _ := profiler.OnBytesAcked(total, now);
      ghost var s := Value();
      for i := 0 to |after|
        invariant Valid()
        invariant NakAll(Value(), sack, after[i..]) == NakAll(s, sack, after)
        invariant pacer.Value() == old(pacer.Value())
      {
        var q := after[i];
        if q in inFlight && !Received(sack, q) {
          var e := inFlight[q];
          if e.nakCount + 1 >= 2 {
            urgent := urgent + [q];
            inFlight := inFlight[q := e.(nakCount := 0)];
          } else {
            normal := normal + [q];
            inFlight := inFlight[q := e.(nakCount := e.nakCount + 1)];
          }
        }
      }
    }

    method CollectAcked(sack: Payload, before: seq<u64>) returns (acked: seq<u64>)
      ensures acked == AckedOf(before, sack)
    {
      acked := [];
      for i := 0 to |before|
        invariant acked == AckedOf(before[..i], sack)
      {
        AckedOfSnoc(before[..i], sack, before[i]);
        assert before[..i + 1] == before[..i] + [before[i]];
        if before[i] < sack.base || Received(sack, before[i]) {
          acked := acked + [before[i]];
        }
      }
      assert before[..|before|] == before;
    }

    method RemoveAcked(sack: Payload, acked: seq<u64>) returns (total: nat)
      requires Distinct(acked) && forall q: u64 :: q in acked <==> q in inFlight && Received(sack, q)
      modifies this`inFlight
      ensures inFlight == Unacked(old(inFlight), sack)
      ensures total == BytesOf(acked, old(inFlight))
    {
      ghost var all := inFlight;
      total := 0;
      for i := 0 to |acked|
        invariant inFlight == Except(all, acked[..i])
        invariant total + BytesOf(acked[i..], all) == BytesOf(acked, all)
      {
        var q := acked[i];
        assert acked[i..][1..] == acked[i + 1..];
        assert acked[..i + 1] == acked[..i] + [q];
        assert q !in acked[..i];
        if q in inFlight {
          total := total + |inFlight[q].datagram|;
          inFlight := inFlight - {q};
        }
      }
      assert acked[..|acked|] == acked;
    }

    /** Both retransmit loops of a batch: pop, send if still in flight and affordable, or put back and stop. */
    method DrainQueue(queue: seq<u64>, ghost picked: seq<u64>, batch: seq<bytes>, now: real)
      returns (queue': seq<u64>, ghost picked': seq<u64>, batch': seq<bytes>)
      requires AllInFlight(picked, inFlight) && batch == DatagramsOf(picked, inFlight)
      modifies this`inFlight, pacer`tokens
      ensures Round(queue', inFlight, pacer.tokens, picked') ==
              old(Drained(Round(queue, inFlight, pacer.tokens, picked), now))
      ensures AllInFlight(picked', inFlight) && batch' == DatagramsOf(picked', inFlight)
    {
      queue', picked', batch' := queue, picked, batch;
      while |batch'| < BATCH_SIZE && queue' != []
        invariant Drained(Round(queue', inFlight, pacer.tokens, picked'), now) ==
                  old(Drained(Round(queue, inFlight, pacer.tokens, picked), now))
        invariant AllInFlight(picked', inFlight) && batch' == DatagramsOf(picked', inFlight)
        decreases |queue'|
      {
        var q := queue'[0];
        queue' := queue'[1..];
        if q in inFlight {
          var ok := pacer.TryConsume(|inFlight[q].datagram|);
          if ok {
            batch' := batch' + [inFlight[q].datagram];
            inFlight := inFlight[q := inFlight[q].(lastSent := now)];
            picked' := picked' + [q];
          } else {
            queue' := queue' + [q];
            break;
          }
        }
      }
    }

    method CollectUnsent(order: seq<u64>, room: nat, now: real) returns (unsent: seq<u64>)
      ensures unsent == Taken(EligibleOf(order, inFlight, RtoSeconds(stats), now), room)
    {
      var rto := RtoSeconds(stats);
      unsent := [];
      for i := 0 to |order|
        invariant unsent == EligibleOf(order[..i], inFlight, rto, now)
      {
        EligibleOfSnoc(order[..i], inFlight, rto, now, order[i]);
        assert order[..i + 1] == order[..i] + [order[i]];
        if order[i] in inFlight && Eligible(inFlight[order[i]], rto, now) {
          unsent := unsent + [order[i]];
        }
      }
      assert order[..|order|] == order;
      unsent := Taken(unsent, room);
    }

    /** Never-sent and timed-out packets, until the tokens run out. */
    method SendUnsent(unsent: seq<u64>, ghost picked: seq<u64>, batch: seq<bytes>, now: real)
      returns (ghost picked': seq<u64>, batch': seq<bytes>)
      requires AllInFlight(picked, inFlight) && batch == DatagramsOf(picked, inFlight)
      modifies this`inFlight, pacer`tokens
      ensures var f := old(SentFresh(Round(unsent, inFlight, pacer.tokens, picked), now));
        f.inFlight == inFlight && f.tokens == pacer.tokens && f.picked == picked'
      ensures AllInFlight(picked', inFlight) && batch' == DatagramsOf(picked', inFlight)
    {
      picked', batch' := picked, batch;
      for i := 0 to |unsent|
        invariant SentFresh(Round(unsent[i..], inFlight, pacer.tokens, picked'), now) ==
                  old(SentFresh(Round(unsent, inFlight, pacer.tokens, picked), now))
        invariant AllInFlight(picked', inFlight) && batch' == DatagramsOf(picked', inFlight)
      {
        var q := unsent[i];
        assert unsent[i..][1..] == unsent[i + 1..];
        if q in inFlight {
          var ok := pacer.TryConsume(|inFlight[q].datagram|);
          if ok {
            batch' := batch' + [inFlight[q].datagram];
            inFlight := inFlight[q := inFlight[q].(lastSent := now)];
            picked' := picked' + [q];
          } else {
            break;
          }
        }
      }
    }

    /** Urgent retransmits first, then normal ones. */
    method DrainQueues(now: real) returns (ghost picked: seq<u64>, batch: seq<bytes>)
      requires Valid()
      modifies this`urgent, this`normal, this`inFlight, pacer`tokens
      ensures Valid()
      ensures urgent == old(UrgentRound(Value(), now)).queue
      ensures Round(normal, inFlight, pacer.tokens, picked) == old(NormalRound(Value(), now))
      ensures AllInFlight(picked, inFlight) && batch == DatagramsOf(picked, inFlight)
    {
      picked, batch := [], [];
      urgent, picked, batch := DrainQueue(urgent, picked, batch, now);
      normal, picked, batch := DrainQueue(normal, picked, batch, now);
    }

    method PickBatch(order: seq<u64>, now: real) returns (ghost picked: seq<u64>, batch: seq<bytes>)
      requires Valid()
      modifies this, pacer
      ensures Valid()
      ensures Value() == Batched(old(Value()), order, RtoSeconds(stats), now, 0)
      ensures picked == Picked(old(Value()), order, RtoSeconds(stats), now)
      ensures AllInFlight(picked, inFlight) && batch == DatagramsOf(picked, inFlight)
    {
      picked, batch := DrainQueues(now);
      var room := if |batch| <= BATCH_SIZE then BATCH_SIZE - |batch| else 0;
      var unsent := CollectUnsent(order, room, now);
      picked, batch := SendUnsent(unsent, picked, batch, now);
    }

    /** Returns the batch handed to the kernel; the first `wired` datagrams of it are sent. */
    method SendBatch(order: seq<u64>, now: real, wired: nat) returns (batch: seq<bytes>)
      requires Valid()
      modifies this, pacer, profiler
      ensures Valid()
      ensures Value() == Batched(old(Value()), order, RtoSeconds(stats), now, wired)
      ensures var picks := Picked(old(Value()), order, RtoSeconds(stats), now);
        AllInFlight(picks, inFlight) && batch == DatagramsOf(picks, inFlight)
    {
      ghost var picked;
      picked, batch := PickBatch(order, now);
      if batch != [] {
        var total := TotalBytes(batch, wired, picked);
        profiler.OnBytesSent(total);
      }
    }

    method TotalBytes(batch: seq<bytes>, wired: nat, ghost picked: seq<u64>) returns (total: nat)
      requires AllInFlight(picked, inFlight) && batch == DatagramsOf(picked, inFlight)
      ensures total == BytesOf(Taken(picked, wired), inFlight)
    {
      total := 0;
      ghost var sent := Taken(picked, wired);
      var n := if |batch| <= wired then |batch| else wired;
      for i := 0 to n
        invariant total + BytesOf(sent[i..], inFlight) == BytesOf(sent, inFlight)
      {
        assert sent[i..][1..] == sent[i + 1..];
        total := total + |batch[i]|;
      }
    }

    /** One turn of the run loop; the loop breaks when this returns true. */
    method RunOnce(e: Event, env: Env) returns (batch: seq<bytes>, done: bool)
      requires Valid() && Admits(Value(), e) && Possible(Value(), e, env)
      modifies this, pacer, profiler
      ensures Valid()
      ensures Value() == Turn(old(Value()), e, env.(rto := RtoSeconds(stats)))
      ensures var picks := TurnPicks(old(Value()), e, env.(rto := RtoSeconds(stats)));
        AllInFlight(picks, inFlight) && batch == DatagramsOf(picks, inFlight)
      ensures done == Finished(Value())
    {
      match e {
        case ProbeTimer =>
          var change := profiler.EvaluateProbe(env.eventTime);
          match change {
            case Some(r) => pacer.SetRate(r);
            case None =>
          }
        case SackIn(sack) => ProcessSack(sack, env.beforeAck, env.afterAck, env.eventTime);
        case Chunk(payload) => EnqueueData(payload, env.stamp, env.eventTime);
        case Shutdown => shutdownRequested := true;
      }
      pacer.Refill(env.refillTime);
      batch := SendBatch(env.unsent, env.sendTime, env.wired);
      done := shutdownRequested && |inFlight| == 0;
    }
  }

  /** The retransmission timeout in seconds. */
  function RtoSeconds(stats: Session.SessionStats): real
    reads stats
  {
    Session.RtoOf(stats.Value())
  }
}
