/** What the sender's steps keep: contents of what is in flight, the pacing budget, and the retransmit bookkeeping. */
module SenderFacts {
  import opened Bits
  import opened Bytes
  import opened Seqs
  import opened Sack
  import opened Congestion
  import opened Sender

  // ---- batches ----

  /** Same packets with the same bytes and gap counts; only transmission times may differ. */
  ghost predicate SameContent(m: map<u64, Entry>, m': map<u64, Entry>) {
    && m.Keys == m'.Keys
    && forall q | q in m :: m'[q].datagram == m[q].datagram && m'[q].nakCount == m[q].nakCount
  }

  lemma {:induction false} BytesOfContent(xs: seq<u64>, m: map<u64, Entry>, m': map<u64, Entry>)
    requires SameContent(m, m')
    ensures BytesOf(xs, m) == BytesOf(xs, m')
  {
    if xs != [] { BytesOfContent(xs[1..], m, m'); }
  }

  lemma {:induction false} BytesOfSnoc(xs: seq<u64>, q: u64, m: map<u64, Entry>)
    requires q in m
    ensures BytesOf(xs + [q], m) == BytesOf(xs, m) + |m[q].datagram|
  {
    if xs == [] {
      assert (xs + [q])[1..] == [];
    } else {
      BytesOfSnoc(xs[1..], q, m);
      assert (xs + [q])[1..] == xs[1..] + [q];
    }
  }

  /** What every part of a batch keeps, from the start of the batch: contents, the bound of 64, and
      the ledger "tokens left + bytes picked = tokens at the start". */
  ghost predicate Balanced(m: map<u64, Entry>, tokens: real, r: Round) {
    && SameContent(m, r.inFlight)
    && AllInFlight(r.picked, m)
    && |r.picked| <= BATCH_SIZE
    && r.tokens + BytesOf(r.picked, m) as real == tokens
    && (tokens >= 0.0 ==> r.tokens >= 0.0)
  }

  lemma PickKeepsBalance(m: map<u64, Entry>, tokens: real, r: Round, now: real)
    requires Balanced(m, tokens, r) && HeadInFlight(r) && Affordable(r) && |r.picked| < BATCH_SIZE
    ensures Balanced(m, tokens, PickHead(r, now))
  {
    BytesOfSnoc(r.picked, r.queue[0], m);
  }

  lemma {:induction false} DrainedBalanced(m: map<u64, Entry>, tokens: real, r: Round, now: real)
    requires Balanced(m, tokens, r)
    ensures Balanced(m, tokens, Drained(r, now))
    decreases |r.queue|
  {
    if |r.picked| < BATCH_SIZE && r.queue != [] {
      if !HeadInFlight(r) {
        DrainedBalanced(m, tokens, Popped(r), now);
      } else if Affordable(r) {
        PickKeepsBalance(m, tokens, r, now);
        DrainedBalanced(m, tokens, PickHead(r, now), now);
      }
    }
  }

  lemma {:induction false} SentFreshBalanced(m: map<u64, Entry>, tokens: real, r: Round, now: real)
    requires Balanced(m, tokens, r) && |r.picked| + |r.queue| <= BATCH_SIZE
    ensures Balanced(m, tokens, SentFresh(r, now))
    decreases |r.queue|
  {
    if r.queue != [] {
      if !HeadInFlight(r) {
        SentFreshBalanced(m, tokens, Popped(r), now);
      } else if Affordable(r) {
        PickKeepsBalance(m, tokens, r, now);
        SentFreshBalanced(m, tokens, PickHead(r, now), now);
      }
    }
  }

  lemma RoundsBalanced(s: State, order: seq<u64>, rto: real, now: real)
    ensures Balanced(s.inFlight, s.bucket.tokens, UrgentRound(s, now))
    ensures Balanced(s.inFlight, s.bucket.tokens, NormalRound(s, now))
    ensures Balanced(s.inFlight, s.bucket.tokens, FreshRound(s, order, rto, now))
  {
    DrainedBalanced(s.inFlight, s.bucket.tokens, Round(s.urgent, s.inFlight, s.bucket.tokens, []), now);
    DrainedBalanced(s.inFlight, s.bucket.tokens, UrgentRound(s, now).(queue := s.normal), now);
    var n := NormalRound(s, now);
    var xs := Taken(EligibleOf(order, n.inFlight, rto, now), BATCH_SIZE - |n.picked|);
    SentFreshBalanced(s.inFlight, s.bucket.tokens, n.(queue := xs), now);
  }

  /** A batch sends at most 64 packets, all of them in flight, loses none, alters none, and pays for each byte. */
  lemma BatchIsSound(s: State, order: seq<u64>, rto: real, now: real, wired: nat)
    ensures var s' := Batched(s, order, rto, now, wired);
      var picks := Picked(s, order, rto, now);
      && SameContent(s.inFlight, s'.inFlight) && s'.nextSeq == s.nextSeq && s'.session == s.session
      && AllInFlight(picks, s.inFlight) && |picks| <= 64
      && s'.bucket.tokens + BytesOf(picks, s.inFlight) as real == s.bucket.tokens
      && (s.bucket.tokens >= 0.0 ==> s'.bucket.tokens >= 0.0)
  {
    RoundsBalanced(s, order, rto, now);
  }

  /** A turn: at most 64 datagrams and 3000 bytes, whatever the bucket held before. */
  lemma TurnIsPaced(s: State, e: Event, env: Env)
    requires Admits(s, e) && s.bucket.tokens >= 0.0 && s.bucket.rate >= 0.0
    ensures var s' := Turn(s, e, env);
      var picks := TurnPicks(s, e, env);
      && |picks| <= 64 && BytesOf(picks, Handled(s, e, env).inFlight) <= 3000
      && s'.bucket.tokens >= 0.0 && s'.bucket.rate >= 0.0
      && s'.bucket.tokens + BytesOf(picks, Handled(s, e, env).inFlight) as real <= s.bucket.tokens + CreditOf(s, e, env)
  {
    ReadyIsPaced(s, e, env);
    BatchIsPaced(Ready(s, e, env), env.unsent, env.rto, env.sendTime, env.wired);
  }

  /** After the refill: a bucket within its capacity, and no more in it than the credit allows. */
  lemma ReadyIsPaced(s: State, e: Event, env: Env)
    requires Admits(s, e) && s.bucket.tokens >= 0.0 && s.bucket.rate >= 0.0
    ensures var r := Ready(s, e, env);
      && 0.0 <= r.bucket.tokens <= CAPACITY as real && r.bucket.rate >= 0.0
      && r.inFlight == Handled(s, e, env).inFlight
      && r.bucket.tokens <= s.bucket.tokens + CreditOf(s, e, env)
  {
    HandledKeepsBucket(s, e, env);
    RefillIsPaced(Handled(s, e, env).bucket, env.refillTime);
  }

  /** A batch spends exactly the bytes it picks, out of at most a full bucket. */
  lemma BatchIsPaced(r: State, order: seq<u64>, rto: real, now: real, wired: nat)
    requires 0.0 <= r.bucket.tokens <= CAPACITY as real
    ensures var s' := Batched(r, order, rto, now, wired);
      var picks := Picked(r, order, rto, now);
      && |picks| <= BATCH_SIZE && BytesOf(picks, r.inFlight) <= CAPACITY
      && s'.bucket.tokens >= 0.0 && s'.bucket.rate == r.bucket.rate
      && s'.bucket.tokens + BytesOf(picks, r.inFlight) as real == r.bucket.tokens
  {
    BatchIsSound(r, order, rto, now, wired);
  }

  lemma ProductNonNegative(a: real, b: real)
    requires a >= 0.0 && b >= 0.0
    ensures a * b >= 0.0
  {
  }

  lemma RefillIsPaced(b: Bucket, now: real)
    requires b.tokens >= 0.0 && b.rate >= 0.0
    ensures var b' := Refilled(b, now);
      && 0.0 <= b'.tokens <= CAPACITY as real && b'.rate == b.rate
      && b'.tokens <= b.tokens + b.rate * Elapsed(now, b.lastRefill)
  {
    ProductNonNegative(b.rate, Elapsed(now, b.lastRefill));
  }

  /** The refill of a turn: the rate in force then, times the time since the previous refill. */
  function CreditOf(s: State, e: Event, env: Env): real
    requires Admits(s, e)
  {
    var b := Handled(s, e, env).bucket;
    b.rate * Elapsed(env.refillTime, b.lastRefill)
  }

  lemma {:induction false} EnqueuedKeepsBucket(s: State, chunks: seq<bytes>, stamp: u64 -> u64, now: real)
    requires s.nextSeq + |chunks| < TWO64
    ensures EnqueuedChunks(s, chunks, stamp, now).bucket == s.bucket
    decreases |chunks|
  {
    if chunks != [] {
      EnqueuedKeepsBucket(WithChunk(s, chunks[0], stamp, now), chunks[1..], stamp, now);
    }
  }

  lemma {:induction false} NakAllKeepsBucket(s: State, sack: Payload, order: seq<u64>)
    ensures NakAll(s, sack, order).bucket == s.bucket
    decreases |order|
  {
    if order != [] { NakAllKeepsBucket(NakOne(s, sack, order[0]), sack, order[1..]); }
  }

  /** Handling an event never adds tokens, and leaves a non-negative rate. */
  lemma HandledKeepsBucket(s: State, e: Event, env: Env)
    requires Admits(s, e) && s.bucket.tokens >= 0.0 && s.bucket.rate >= 0.0
    ensures var b := Handled(s, e, env).bucket;
      0.0 <= b.tokens <= s.bucket.tokens && b.rate >= 0.0 && b.lastRefill == s.bucket.lastRefill
  {
    match e
    case Chunk(payload) => EnqueuedKeepsBucket(s, Chunks(payload, MAX_PAYLOAD), env.stamp, env.eventTime);
    case SackIn(sack) =>
      var total := BytesOf(AckedOf(env.beforeAck, sack), s.inFlight);
      NakAllKeepsBucket(s.(inFlight := Unacked(s.inFlight, sack), prober := Acked(s.prober, total, env.eventTime).0),
                        sack, env.afterAck);
    case _ =>
  }

  // ---- whole runs of the loop ----

  datatype Step = Step(event: Event, env: Env)

  ghost predicate Runs(s: State, steps: seq<Step>)
    decreases |steps|
  {
    steps == [] ||
    (Admits(s, steps[0].event) && Possible(s, steps[0].event, steps[0].env)
     && Runs(Turn(s, steps[0].event, steps[0].env), steps[1..]))
  }

  ghost function End(s: State, steps: seq<Step>): State
    requires Runs(s, steps)
    decreases |steps|
  {
    if steps == [] then s else End(Turn(s, steps[0].event, steps[0].env), steps[1..])
  }

  ghost function BytesPut(s: State, steps: seq<Step>): nat
    requires Runs(s, steps)
    decreases |steps|
  {
    if steps == [] then 0
    else
      var (e, env) := (steps[0].event, steps[0].env);
      BytesOf(TurnPicks(s, e, env), Handled(s, e, env).inFlight) + BytesPut(Turn(s, e, env), steps[1..])
  }

  ghost function Credit(s: State, steps: seq<Step>): real
    requires Runs(s, steps)
    decreases |steps|
  {
    if steps == [] then 0.0
    else
      var (e, env) := (steps[0].event, steps[0].env);
      CreditOf(s, e, env) + Credit(Turn(s, e, env), steps[1..])
  }

  /** Over any run the bytes put into batches are covered by the starting tokens and the refills. */
  lemma {:induction false} PacedOverRuns(s: State, steps: seq<Step>)
    requires Runs(s, steps) && s.bucket.tokens >= 0.0 && s.bucket.rate >= 0.0
    ensures End(s, steps).bucket.tokens >= 0.0
    ensures End(s, steps).bucket.tokens + BytesPut(s, steps) as real <= s.bucket.tokens + Credit(s, steps)
    decreases |steps|
  {
    if steps != [] {
      TurnIsPaced(s, steps[0].event, steps[0].env);
      PacedOverRuns(Turn(s, steps[0].event, steps[0].env), steps[1..]);
    }
  }
}
