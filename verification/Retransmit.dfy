/** Gaps alternate between the two queues, and a packet that was never on the wire waits in one of them for every push
    that the kernel has not turned away: exactly when it turned all of them away is the packet stranded. */
module Retransmit {
  import opened Bits
  import opened Bytes
  import opened Seqs
  import opened Sack
  import opened Congestion
  import opened Sender
  import opened SenderFacts

  /** The history of one sequence number: SACKs it outlived, pushes to each queue, whether it ever went on the
      wire, and how often it left each queue for a batch that the kernel cut short before it. */
  datatype Tally = Tally(survived: nat, toNormal: nat, toUrgent: nat, wired: bool, cutNormal: nat, cutUrgent: nat)

  ghost function Pushes(before: seq<u64>, after: seq<u64>, q: u64): nat {
    if multiset(after)[q] >= multiset(before)[q] then multiset(after)[q] - multiset(before)[q] else 0
  }

  ghost function Pops(before: seq<u64>, after: seq<u64>, q: u64): nat {
    Pushes(after, before, q)
  }

  ghost function TallyOf(book: map<u64, Tally>, q: u64): Tally {
    if q in book then book[q] else Tally(0, 0, 0, false, 0, 0)
  }

  ghost function Handling(t: Tally, s: State, h: State, e: Event, q: u64): Tally {
    if e.SackIn? && q in h.inFlight
    then t.(survived := t.survived + 1, toNormal := t.toNormal + Pushes(s.normal, h.normal, q),
            toUrgent := t.toUrgent + Pushes(s.urgent, h.urgent, q))
    else t
  }

  /** A batch of picks, of which the kernel took the first `wired`. */
  ghost function Batching(t: Tally, h: State, s': State, picks: seq<u64>, wired: nat, q: u64): Tally {
    if q in Taken(picks, wired) then t.(wired := true)
    else if q in picks then
      t.(cutNormal := t.cutNormal + Pops(h.normal, s'.normal, q),
         cutUrgent := t.cutUrgent + Pops(h.urgent, s'.urgent, q))
    else t
  }

  /** The book after a turn, read off the states before and after the event and after the batch. */
  ghost function BookAfter(book: map<u64, Tally>, s: State, e: Event, env: Env): map<u64, Tally>
    requires Admits(s, e)
  {
    var h := Handled(s, e, env);
    map q: u64 | 0 <= q < h.nextSeq ::
      Batching(Handling(TallyOf(book, q), s, h, e, q), h, Turn(s, e, env), TurnPicks(s, e, env), env.wired, q)
  }

  // ---- the invariant ----

  /** After k survived SACKs: nak_count is k mod 2, half of them (rounded up) went to the normal queue and the rest
      to the urgent one; and of a packet that was never on the wire, the pushes to a queue are those still waiting
      there and those that ended in a batch cut before it. */
  ghost predicate Accounted(s: State, t: Tally, q: u64)
    requires q in s.inFlight
  {
    && s.inFlight[q].nakCount == t.survived % 2
    && t.toNormal == (t.survived + 1) / 2
    && t.toUrgent == t.survived / 2
    && (!t.wired ==> multiset(s.normal)[q] + t.cutNormal == t.toNormal
                     && multiset(s.urgent)[q] + t.cutUrgent == t.toUrgent)
  }

  ghost predicate KnownOnly(s: State) {
    && (forall q | q in s.inFlight :: q < s.nextSeq)
    && (forall q | q in s.normal :: q < s.nextSeq)
    && (forall q | q in s.urgent :: q < s.nextSeq)
  }

  ghost predicate Booked(s: State, book: map<u64, Tally>) {
    && KnownOnly(s)
    && (forall q | q in book :: q < s.nextSeq)
    && forall q | q in s.inFlight :: Accounted(s, TallyOf(book, q), q)
  }

  // ---- one SACK ----

  /** What reporting the gaps in `order` does to one packet. */
  ghost predicate NakEffect(s: State, s': State, order: seq<u64>, q: u64)
    requires s.inFlight.Keys == s'.inFlight.Keys && q in s.inFlight
  {
    var nak := s.inFlight[q].nakCount;
    var hit := q in order;
    && s'.inFlight[q].nakCount == (if hit then 1 - nak else nak)
    && multiset(s'.normal)[q] == multiset(s.normal)[q] + (if hit && nak == 0 then 1 else 0)
    && multiset(s'.urgent)[q] == multiset(s.urgent)[q] + (if hit && nak == 1 then 1 else 0)
  }

  ghost predicate Gaps(s: State, sack: Payload, order: seq<u64>) {
    && Distinct(order)
    && forall q | q in order :: q in s.inFlight && !Received(sack, q) && s.inFlight[q].nakCount <= 1
  }

  lemma NakOneEffect(s: State, sack: Payload, q: u64, p: u64)
    requires q in s.inFlight && !Received(sack, q) && s.inFlight[q].nakCount <= 1 && p in s.inFlight
    ensures var s' := NakOne(s, sack, q);
      s'.inFlight.Keys == s.inFlight.Keys && NakEffect(s, s', [q], p)
  {
  }

  lemma {:induction false} NakAllEffect(s: State, sack: Payload, order: seq<u64>, p: u64)
    requires Gaps(s, sack, order) && p in s.inFlight
    ensures var s' := NakAll(s, sack, order);
      && s'.inFlight.Keys == s.inFlight.Keys && s'.nextSeq == s.nextSeq
      && NakEffect(s, s', order, p)
      && s.normal <= s'.normal && s.urgent <= s'.urgent
    decreases |order|
  {
    if order != [] {
      var q := order[0];
      var s1 := NakOne(s, sack, q);
      NakOneEffect(s, sack, q, p);
      assert q !in order[1..];
      forall k | k in order[1..] ensures k in s1.inFlight && !Received(sack, k) && s1.inFlight[k].nakCount <= 1 {
        assert k in order;
      }
      NakAllEffect(s1, sack, order[1..], p);
      assert p in order <==> p == q || p in order[1..];
    }
  }

  lemma {:induction false} NakAllKnown(s: State, sack: Payload, order: seq<u64>)
    requires KnownOnly(s)
    ensures var s' := NakAll(s, sack, order);
      KnownOnly(s') && s'.nextSeq == s.nextSeq && s'.inFlight.Keys == s.inFlight.Keys
    decreases |order|
  {
    if order != [] { NakAllKnown(NakOne(s, sack, order[0]), sack, order[1..]); }
  }

  /** One reported gap: the count flips, and one push goes to the queue the count called for. */
  lemma GapOutcome(s: State, m: State, sack: Payload, order: seq<u64>, q: u64)
    requires q in s.inFlight && s.inFlight[q].nakCount <= 1
    requires m.inFlight == Unacked(s.inFlight, sack) && m.normal == s.normal && m.urgent == s.urgent
    requires Gaps(m, sack, order) && q in order
    ensures var h, nak := NakAll(m, sack, order), s.inFlight[q].nakCount;
      && q in h.inFlight && h.inFlight[q].nakCount == 1 - nak
      && Pushes(s.normal, h.normal, q) == (if nak == 0 then 1 else 0)
      && Pushes(s.urgent, h.urgent, q) == (if nak == 1 then 1 else 0)
      && multiset(h.normal)[q] == multiset(s.normal)[q] + Pushes(s.normal, h.normal, q)
      && multiset(h.urgent)[q] == multiset(s.urgent)[q] + Pushes(s.urgent, h.urgent, q)
  {
    NakAllEffect(m, sack, order, q);
    var h, nak := NakAll(m, sack, order), s.inFlight[q].nakCount;
    PushCounts(s, h, q, nak);
  }

  /** One surviving packet, its gaps reported in `order`. */
  lemma SurvivorAccounted(s: State, m: State, t: Tally, sack: Payload, order: seq<u64>, q: u64)
    requires q in s.inFlight && Accounted(s, t, q)
    requires m.inFlight == Unacked(s.inFlight, sack) && m.normal == s.normal && m.urgent == s.urgent
    requires Gaps(m, sack, order) && q in order
    ensures var h := NakAll(m, sack, order);
      q in h.inFlight && Accounted(h, Handling(t, s, h, SackIn(sack), q), q)
  {
    GapOutcome(s, m, sack, order, q);
    ParityStep(t.survived);
  }

  /** What the effect of a SACK amounts to in pushes. */
  lemma PushCounts(s: State, h: State, q: u64, nak: nat)
    requires multiset(h.normal)[q] == multiset(s.normal)[q] + (if nak == 0 then 1 else 0)
    requires multiset(h.urgent)[q] == multiset(s.urgent)[q] + (if nak == 1 then 1 else 0)
    ensures Pushes(s.normal, h.normal, q) == (if nak == 0 then 1 else 0)
    ensures Pushes(s.urgent, h.urgent, q) == (if nak == 1 then 1 else 0)
  {
  }

  lemma ParityStep(k: nat)
    ensures (k + 1) % 2 == 1 - k % 2
    ensures (k + 2) / 2 == (k + 1) / 2 + (if k % 2 == 0 then 1 else 0)
    ensures (k + 1) / 2 == k / 2 + (if k % 2 == 1 then 1 else 0)
  {
  }

  lemma SackBooked(s: State, book: map<u64, Tally>, sack: Payload, env: Env)
    requires Booked(s, book) && Sane(s.prober) && Possible(s, SackIn(sack), env)
    ensures HandledBooked(s, book, SackIn(sack), env)
  {
    var total := BytesOf(AckedOf(env.beforeAck, sack), s.inFlight);
    var m := s.(inFlight := Unacked(s.inFlight, sack), prober := Acked(s.prober, total, env.eventTime).0);
    var h := NakAll(m, sack, env.afterAck);
    assert h == Handled(s, SackIn(sack), env);
    NakAllKnown(m, sack, env.afterAck);
    forall k | k in env.afterAck ensures k in m.inFlight && !Received(sack, k) && m.inFlight[k].nakCount <= 1 {
      assert Accounted(s, TallyOf(book, k), k);
    }
    forall q | q in h.inFlight ensures Accounted(h, Handling(TallyOf(book, q), s, h, SackIn(sack), q), q) {
      SurvivorAccounted(s, m, TallyOf(book, q), sack, env.afterAck, q);
    }
  }

  /** The bookkeeping between the event and the batch of a turn. */
  ghost predicate HandledBooked(s: State, book: map<u64, Tally>, e: Event, env: Env)
    requires Admits(s, e)
  {
    var h := Handled(s, e, env);
    && KnownOnly(h) && s.nextSeq <= h.nextSeq
    && forall q | q in h.inFlight :: Accounted(h, Handling(TallyOf(book, q), s, h, e, q), q)
  }

  // ---- one chunk ----

  lemma NotQueued(queue: seq<u64>, q: u64)
    ensures q in queue <==> multiset(queue)[q] > 0
  {
  }

  lemma InsertBooked(s: State, book: map<u64, Tally>, chunk: bytes, stamp: u64 -> u64, now: real)
    requires Booked(s, book) && s.nextSeq + 1 < TWO64
    ensures Booked(WithChunk(s, chunk, stamp, now), book)
  {
    var s1 := WithChunk(s, chunk, stamp, now);
    NotQueued(s.normal, s.nextSeq);
    NotQueued(s.urgent, s.nextSeq);
    forall q | q in s1.inFlight ensures Accounted(s1, TallyOf(book, q), q) {
      assert q != s.nextSeq ==> Accounted(s, TallyOf(book, q), q);
    }
  }

  lemma {:induction false} ChunksBooked(s: State, book: map<u64, Tally>, chunks: seq<bytes>,
                                        stamp: u64 -> u64, now: real)
    requires Booked(s, book) && s.nextSeq + |chunks| < TWO64
    ensures Booked(EnqueuedChunks(s, chunks, stamp, now), book)
    ensures s.nextSeq <= EnqueuedChunks(s, chunks, stamp, now).nextSeq
    decreases |chunks|
  {
    if chunks != [] {
      InsertBooked(s, book, chunks[0], stamp, now);
      ChunksBooked(WithChunk(s, chunks[0], stamp, now), book, chunks[1..], stamp, now);
    }
  }

  // ---- one batch ----

  /** A drained queue keeps every number still in flight that it did not pick, and gains none. */
  lemma {:induction false} DrainedQueue(r: Round, now: real)
    ensures var d := Drained(r, now);
      && d.inFlight.Keys == r.inFlight.Keys && r.picked <= d.picked
      && (forall q | q in d.queue :: q in r.queue)
      && forall q | q in r.queue && q in r.inFlight :: q in d.queue || q in d.picked
    decreases |r.queue|
  {
    if |r.picked| < BATCH_SIZE && r.queue != [] {
      HeadSplit(r.queue);
      if !HeadInFlight(r) {
        DrainedQueue(Popped(r), now);
      } else if Affordable(r) {
        var r' := PickHead(r, now);
        assert r'.inFlight.Keys == r.inFlight.Keys && r.queue[0] in r'.picked;
        DrainedQueue(r', now);
      }
    }
  }

  /** A queue only loses numbers when drained, and one in flight only by being picked. */
  lemma {:induction false} DrainedCounts(r: Round, now: real, q: u64)
    ensures var d := Drained(r, now);
      && multiset(d.queue)[q] <= multiset(r.queue)[q]
      && (q in r.inFlight && multiset(d.queue)[q] < multiset(r.queue)[q] ==> q in d.picked)
    decreases |r.queue|
  {
    if |r.picked| < BATCH_SIZE && r.queue != [] {
      HeadSplit(r.queue);
      if !HeadInFlight(r) {
        DrainedCounts(Popped(r), now, q);
      } else if Affordable(r) {
        var r' := PickHead(r, now);
        assert r.queue[0] in r'.picked;
        DrainedCounts(r', now, q);
        DrainedQueue(r', now);
      }
    }
  }

  lemma BatchCounts(s: State, order: seq<u64>, rto: real, now: real, wired: nat, q: u64)
    requires q in s.inFlight
    ensures var s' := Batched(s, order, rto, now, wired);
      && multiset(s'.normal)[q] + Pops(s.normal, s'.normal, q) == multiset(s.normal)[q]
      && multiset(s'.urgent)[q] + Pops(s.urgent, s'.urgent, q) == multiset(s.urgent)[q]
      && (Pops(s.normal, s'.normal, q) + Pops(s.urgent, s'.urgent, q) > 0 ==> q in Picked(s, order, rto, now))
  {
    var u0 := Round(s.urgent, s.inFlight, s.bucket.tokens, []);
    DrainedQueue(u0, now);
    DrainedCounts(u0, now, q);
    var n0 := UrgentRound(s, now).(queue := s.normal);
    DrainedQueue(n0, now);
    DrainedCounts(n0, now, q);
    FreshKeepsPicks(s, order, rto, now);
  }

  lemma FreshKeepsPicks(s: State, order: seq<u64>, rto: real, now: real)
    ensures NormalRound(s, now).picked <= Picked(s, order, rto, now)
  {
    var n := NormalRound(s, now);
    SentFreshPicks(n.(queue := Taken(EligibleOf(order, n.inFlight, rto, now),
                                     if |n.picked| <= BATCH_SIZE then BATCH_SIZE - |n.picked| else 0)), now);
  }

  lemma {:induction false} SentFreshPicks(r: Round, now: real)
    ensures r.picked <= SentFresh(r, now).picked
    decreases |r.queue|
  {
    if r.queue != [] {
      if !HeadInFlight(r) {
        SentFreshPicks(Popped(r), now);
      } else if Affordable(r) {
        SentFreshPicks(PickHead(r, now), now);
      }
    }
  }

  lemma BatchKeepsQueues(s: State, order: seq<u64>, rto: real, now: real, wired: nat)
    ensures var s' := Batched(s, order, rto, now, wired);
      && (forall q | q in s'.normal :: q in s.normal) && (forall q | q in s'.urgent :: q in s.urgent)
      && forall q | q in s.normal && q in s.inFlight :: q in s'.normal || q in Picked(s, order, rto, now)
  {
    DrainedQueue(Round(s.urgent, s.inFlight, s.bucket.tokens, []), now);
    var u := UrgentRound(s, now).(queue := s.normal);
    DrainedQueue(u, now);
    FreshKeepsPicks(s, order, rto, now);
  }

  // ---- turns and runs ----

  lemma EventBooked(s: State, book: map<u64, Tally>, e: Event, env: Env)
    requires Booked(s, book) && Admits(s, e) && Possible(s, e, env)
    ensures HandledBooked(s, book, e, env)
  {
    match e {
      case SackIn(sack) => SackBooked(s, book, sack, env);
      case Chunk(payload) => ChunksBooked(s, book, Chunks(payload, MAX_PAYLOAD), env.stamp, env.eventTime);
      case ProbeTimer =>
      case Shutdown =>
    }
  }

  lemma TurnBooked(s: State, book: map<u64, Tally>, e: Event, env: Env)
    requires Booked(s, book) && Admits(s, e) && Possible(s, e, env)
    ensures Booked(Turn(s, e, env), BookAfter(book, s, e, env))
  {
    EventBooked(s, book, e, env);
    var r, s' := Ready(s, e, env), Turn(s, e, env);
    BatchIsSound(r, env.unsent, env.rto, env.sendTime, env.wired);
    BatchKeepsQueues(r, env.unsent, env.rto, env.sendTime, env.wired);
    forall q | q in s'.inFlight ensures Accounted(s', TallyOf(BookAfter(book, s, e, env), q), q) {
      TurnAccounted(s, book, e, env, q);
    }
  }

  lemma TurnAccounted(s: State, book: map<u64, Tally>, e: Event, env: Env, q: u64)
    requires Admits(s, e) && HandledBooked(s, book, e, env) && q in Turn(s, e, env).inFlight
    ensures Accounted(Turn(s, e, env), TallyOf(BookAfter(book, s, e, env), q), q)
  {
    var h, r := Handled(s, e, env), Ready(s, e, env);
    BatchIsSound(r, env.unsent, env.rto, env.sendTime, env.wired);
    BatchCounts(r, env.unsent, env.rto, env.sendTime, env.wired, q);
    BatchAccounted(h, Turn(s, e, env), Handling(TallyOf(book, q), s, h, e, q), TurnPicks(s, e, env), env.wired, q);
  }

  /** What leaves a queue is on the wire or counted as cut. */
  lemma BatchAccounted(h: State, s': State, t: Tally, picks: seq<u64>, wired: nat, q: u64)
    requires q in h.inFlight && q in s'.inFlight && s'.inFlight[q].nakCount == h.inFlight[q].nakCount
    requires Accounted(h, t, q)
    requires multiset(s'.normal)[q] + Pops(h.normal, s'.normal, q) == multiset(h.normal)[q]
    requires multiset(s'.urgent)[q] + Pops(h.urgent, s'.urgent, q) == multiset(h.urgent)[q]
    requires Pops(h.normal, s'.normal, q) + Pops(h.urgent, s'.urgent, q) > 0 ==> q in picks
    ensures Accounted(s', Batching(t, h, s', picks, wired, q), q)
  {
  }

  ghost function BookEnd(s: State, book: map<u64, Tally>, steps: seq<SenderFacts.Step>): map<u64, Tally>
    requires Runs(s, steps)
    decreases |steps|
  {
    if steps == [] then book
    else BookEnd(Turn(s, steps[0].event, steps[0].env), BookAfter(book, s, steps[0].event, steps[0].env), steps[1..])
  }

  /** Over every interleaving of chunks, SACKs, timers and batches the bookkeeping holds. */
  lemma {:induction false} RunBooked(s: State, book: map<u64, Tally>, steps: seq<SenderFacts.Step>)
    requires Booked(s, book) && Runs(s, steps)
    ensures Booked(End(s, steps), BookEnd(s, book, steps))
    decreases |steps|
  {
    if steps != [] {
      TurnBooked(s, book, steps[0].event, steps[0].env);
      var e, env := steps[0].event, steps[0].env;
      RunBooked(Turn(s, e, env), BookAfter(book, s, e, env), steps[1..]);
    }
  }

  /** A packet that was never on the wire, whose count keeps it from being sent for its age. */
  ghost predicate Held(s: State, t: Tally, q: u64) {
    q in s.inFlight && !t.wired && s.inFlight[q].nakCount == 1
  }

  /** At the end of any run, a never-transmitted packet has an odd count and is outside the normal queue if and only
      if it survived an odd number of SACKs and every one of its pushes to that queue ended in a batch cut before it;
      and it is in neither queue if and only if that is so of all its pushes. */
  lemma StrandedIff(s: State, book: map<u64, Tally>, steps: seq<SenderFacts.Step>, q: u64)
    requires Booked(s, book) && Runs(s, steps) && q in End(s, steps).inFlight
    requires !TallyOf(BookEnd(s, book, steps), q).wired
    ensures var (s', t) := (End(s, steps), TallyOf(BookEnd(s, book, steps), q));
      && (Held(s', t, q) && q !in s'.normal <==> t.survived % 2 == 1 && t.cutNormal == (t.survived + 1) / 2)
      && (Held(s', t, q) && q !in s'.normal && q !in s'.urgent <==>
            t.survived % 2 == 1 && t.cutNormal + t.cutUrgent == t.survived)
  {
    RunBooked(s, book, steps);
    var s', t := End(s, steps), TallyOf(BookEnd(s, book, steps), q);
    assert Accounted(s', t, q);
    NotQueued(s'.normal, q);
    NotQueued(s'.urgent, q);
  }

  /** Every batch of the run is taken whole by the kernel. */
  ghost predicate Whole(s: State, steps: seq<SenderFacts.Step>)
    requires Runs(s, steps)
    decreases |steps|
  {
    steps == [] ||
    (|TurnPicks(s, steps[0].event, steps[0].env)| <= steps[0].env.wired
     && Whole(Turn(s, steps[0].event, steps[0].env), steps[1..]))
  }

  ghost predicate Uncut(book: map<u64, Tally>) {
    forall q | q in book :: book[q].cutNormal == book[q].cutUrgent == 0
  }

  lemma WholeTurn(s: State, book: map<u64, Tally>, e: Event, env: Env)
    requires Admits(s, e) && |TurnPicks(s, e, env)| <= env.wired && Uncut(book)
    ensures Uncut(BookAfter(book, s, e, env))
  {
    assert Taken(TurnPicks(s, e, env), env.wired) == TurnPicks(s, e, env);
  }

  lemma {:induction false} WholeIsUncut(s: State, book: map<u64, Tally>, steps: seq<SenderFacts.Step>)
    requires Runs(s, steps) && Whole(s, steps) && Uncut(book)
    ensures Uncut(BookEnd(s, book, steps))
    decreases |steps|
  {
    if steps != [] {
      var e, env := steps[0].event, steps[0].env;
      WholeTurn(s, book, e, env);
      WholeIsUncut(Turn(s, e, env), BookAfter(book, s, e, env), steps[1..]);
    }
  }

  /** If the kernel takes every batch whole, a never-transmitted packet has an even count or waits in the normal
      queue, at the end of every run from a new sender. */
  lemma NeverStranded(session: u32, now: real, steps: seq<SenderFacts.Step>, q: u64)
    requires Runs(Initial(session, now), steps) && Whole(Initial(session, now), steps)
    requires Held(End(Initial(session, now), steps), TallyOf(BookEnd(Initial(session, now), map[], steps), q), q)
    ensures q in End(Initial(session, now), steps).normal
  {
    var s := Initial(session, now);
    InitialBooked(session, now);
    RunBooked(s, map[], steps);
    WholeIsUncut(s, map[], steps);
    HeldIsQueued(End(s, steps), BookEnd(s, map[], steps), q);
  }

  lemma HeldIsQueued(s: State, book: map<u64, Tally>, q: u64)
    requires Booked(s, book) && Uncut(book) && Held(s, TallyOf(book, q), q)
    ensures q in s.normal
  {
    assert Accounted(s, TallyOf(book, q), q);
    NotQueued(s.normal, q);
  }

  lemma InitialBooked(session: u32, now: real)
    ensures Booked(Initial(session, now), map[])
  {
  }
}
