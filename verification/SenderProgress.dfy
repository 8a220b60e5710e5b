/** Batches are work-conserving: nothing that could have been sent is held back
    (crates/protocol/src/sender.rs:272-351). */
module SenderProgress {
  import opened Bits
  import opened Bytes
  import opened Seqs
  import opened Sender
  import opened SenderFacts
  import opened Retransmit

  /** An in-flight packet that the tokens left do not cover. */
  ghost predicate ShortOf(m: map<u64, Entry>, tokens: real, q: u64) {
    q in m && tokens < |m[q].datagram| as real
  }

  /** A later round of a batch: same packets, no more tokens, and everything picked before still comes first. */
  ghost predicate Continues(r: Round, r': Round) {
    SameContent(r.inFlight, r'.inFlight) && r'.tokens <= r.tokens && r.picked <= r'.picked
  }

  lemma ContinuesStep(r: Round, now: real, r': Round)
    requires HeadInFlight(r) && Continues(PickHead(r, now), r')
    ensures Continues(r, r')
  {
    var mid := r.picked + [r.queue[0]];
    assert r.picked <= mid <= r'.picked;
  }

  /** A queue round ends with a full batch, an empty queue, or a packet at its tail that the tokens do not cover. */
  ghost predicate Served(r: Round) {
    || |r.picked| >= BATCH_SIZE
    || r.queue == []
    || ShortOf(r.inFlight, r.tokens, r.queue[|r.queue| - 1])
  }

  lemma {:induction false} DrainedServes(r: Round, now: real)
    ensures Served(Drained(r, now)) && Continues(r, Drained(r, now))
    decreases |r.queue|
  {
    if |r.picked| < BATCH_SIZE && r.queue != [] {
      if !HeadInFlight(r) {
        DrainedServes(Popped(r), now);
      } else if Affordable(r) {
        DrainedServes(PickHead(r, now), now);
        ContinuesStep(r, now, Drained(PickHead(r, now), now));
      }
    }
  }

  /** What the last round makes of its candidates: it picks them in order until the tokens do not cover one. */
  ghost predicate ServesFresh(r: Round, d: Round) {
    && Continues(r, d)
    && |d.queue| <= |r.queue|
    && d.picked == r.picked + r.queue[..|r.queue| - |d.queue|]
    && (d.queue != [] ==> d.queue[0] in r.queue && ShortOf(d.inFlight, d.tokens, d.queue[0]))
  }

  lemma ServesOneMore(r: Round, now: real, d: Round)
    requires HeadInFlight(r) && Affordable(r) && ServesFresh(PickHead(r, now), d)
    ensures ServesFresh(r, d)
  {
    ContinuesStep(r, now, d);
    HeadFirst(r.picked, r.queue, |d.queue|);
    HeadSplit(r.queue);
  }

  /** Appending a queue's first element and then elements of its tail appends a prefix of the queue. */
  lemma HeadFirst(picked: seq<u64>, queue: seq<u64>, left: nat)
    requires left < |queue|
    ensures (picked + [queue[0]]) + queue[1..][..|queue[1..]| - left] == picked + queue[..|queue| - left]
  {
    var k := |queue| - 1 - left;
    HeadTake(queue, k);
    Assoc(picked, [queue[0]], queue[1..][..k]);
  }

  lemma {:induction false} FreshServes(r: Round, now: real)
    requires forall q | q in r.queue :: q in r.inFlight
    ensures ServesFresh(r, SentFresh(r, now))
    decreases |r.queue|
  {
    if r.queue == [] {
      assert r.picked + [] == r.picked;
    } else {
      assert r.queue[0] in r.queue && forall x | x in r.queue[1..] :: x in r.queue;
      if Affordable(r) {
        FreshServes(PickHead(r, now), now);
        ServesOneMore(r, now, SentFresh(PickHead(r, now), now));
      } else {
        assert r.queue[..0] == [] && r.picked + [] == r.picked;
      }
    }
  }

  lemma {:induction false} EligibleOfMembers(order: seq<u64>, m: map<u64, Entry>, rto: real, now: real, q: u64)
    ensures q in EligibleOf(order, m, rto, now) <==> q in order && q in m && Eligible(m[q], rto, now)
  {
    if order != [] {
      EligibleOfMembers(order[1..], m, rto, now, q);
      HeadSplit(order);
    }
  }

  /** Retransmission queues: what is left in one after a batch that is not full ends with a packet that the
      tokens left do not cover. */
  lemma QueuesServed(s: State, order: seq<u64>, rto: real, now: real, wired: nat)
    ensures var s' := Batched(s, order, rto, now, wired);
      |Picked(s, order, rto, now)| < 64 ==>
        && (s'.urgent == [] || ShortOf(s.inFlight, s'.bucket.tokens, s'.urgent[|s'.urgent| - 1]))
        && (s'.normal == [] || ShortOf(s.inFlight, s'.bucket.tokens, s'.normal[|s'.normal| - 1]))
  {
    var u, n, f := UrgentRound(s, now), NormalRound(s, now), FreshRound(s, order, rto, now);
    DrainedServes(Round(s.urgent, s.inFlight, s.bucket.tokens, []), now);
    DrainedServes(u.(queue := s.normal), now);
    FreshFollows(s, order, rto, now);
    assert |u.picked| <= |n.picked| <= |f.picked|;
  }

  lemma FreshFollows(s: State, order: seq<u64>, rto: real, now: real)
    ensures var n := NormalRound(s, now);
      var xs := EligibleOf(order, n.inFlight, rto, now);
      var room := if |n.picked| <= BATCH_SIZE then BATCH_SIZE - |n.picked| else 0;
      var f := FreshRound(s, order, rto, now);
      && Continues(n, f)
      && |f.queue| <= |Taken(xs, room)|
      && f.picked == n.picked + Taken(xs, room)[..|Taken(xs, room)| - |f.queue|]
      && (f.queue != [] ==> f.queue[0] in xs && ShortOf(f.inFlight, f.tokens, f.queue[0]))
  {
    var n := NormalRound(s, now);
    var xs := EligibleOf(order, n.inFlight, rto, now);
    var room := if |n.picked| <= BATCH_SIZE then BATCH_SIZE - |n.picked| else 0;
    forall q | q in Taken(xs, room) ensures q in n.inFlight && q in xs {
      EligibleOfMembers(order, n.inFlight, rto, now, q);
    }
    FreshServes(n.(queue := Taken(xs, room)), now);
  }

  /** New packets: a batch that is not full has picked every eligible one that no queue round had picked, unless the
      tokens left do not cover some eligible packet. */
  lemma FreshServed(s: State, order: seq<u64>, rto: real, now: real)
    ensures var n := NormalRound(s, now);
      var f := FreshRound(s, order, rto, now);
      |f.picked| < 64 ==>
        || (forall q | q in order && q in n.inFlight && Eligible(n.inFlight[q], rto, now) :: q in f.picked)
        || (exists q | q in order && q in n.inFlight && Eligible(n.inFlight[q], rto, now) ::
              ShortOf(n.inFlight, f.tokens, q))
  {
    var n, f := NormalRound(s, now), FreshRound(s, order, rto, now);
    var xs := EligibleOf(order, n.inFlight, rto, now);
    FreshFollows(s, order, rto, now);
    if |f.picked| < BATCH_SIZE {
      if f.queue == [] {
        forall q | q in order && q in n.inFlight && Eligible(n.inFlight[q], rto, now) ensures q in f.picked {
          EligibleOfMembers(order, n.inFlight, rto, now, q);
          var room := BATCH_SIZE - |n.picked|;
          assert Taken(xs, room)[..|Taken(xs, room)|] == Taken(xs, room);
          assert Taken(xs, room) == xs;
        }
      } else {
        EligibleOfMembers(order, n.inFlight, rto, now, f.queue[0]);
        assert ShortOf(n.inFlight, f.tokens, f.queue[0]);
      }
    }
  }

  // ---- when a new packet may go ----

  lemma {:induction false} DrainedUntouched(r: Round, now: real, q: u64)
    requires q in r.inFlight && q !in r.queue
    ensures var d := Drained(r, now);
      q in d.inFlight && d.inFlight[q] == r.inFlight[q] && q !in d.queue && (q in d.picked <==> q in r.picked)
    decreases |r.queue|
  {
    if |r.picked| < BATCH_SIZE && r.queue != [] {
      HeadSplit(r.queue);
      if !HeadInFlight(r) {
        DrainedUntouched(Popped(r), now, q);
      } else if Affordable(r) {
        DrainedUntouched(PickHead(r, now), now, q);
      }
    }
  }

  /** Chunks go in flight dated one second back, with no gap reported. */
  lemma {:induction false} EnqueuedDated(s: State, pieces: seq<bytes>, stamp: u64 -> u64, now: real, q: u64)
    requires s.nextSeq + |pieces| < TWO64
    ensures var m := EnqueuedChunks(s, pieces, stamp, now).inFlight;
      if s.nextSeq <= q < s.nextSeq + |pieces| then q in m && m[q].lastSent == now - 1.0 && m[q].nakCount == 0
      else (q in m <==> q in s.inFlight) && (q in m ==> m[q] == s.inFlight[q])
    ensures var s' := EnqueuedChunks(s, pieces, stamp, now);
      s'.urgent == s.urgent && s'.normal == s.normal
    decreases |pieces|
  {
    if pieces != [] { EnqueuedDated(WithChunk(s, pieces[0], stamp, now), pieces[1..], stamp, now, q); }
  }

  /** A packet is a candidate of the very turn that enqueues it if and only if the timeout is below one second plus
      the time between enqueueing and sending: dating it one second back does not mark it as unsent under a
      longer one. */
  lemma NewPacketEligible(s: State, payload: bytes, env: Env, q: u64)
    requires Admits(s, Chunk(payload)) && Possible(s, Chunk(payload), env) && KnownOnly(s)
    requires s.nextSeq <= q < s.nextSeq + |Chunks(payload, MAX_PAYLOAD)| && env.eventTime <= env.sendTime
    ensures var n := NormalRound(Ready(s, Chunk(payload), env), env.sendTime);
      q in EligibleOf(env.unsent, n.inFlight, env.rto, env.sendTime) <==> env.rto < 1.0 + (env.sendTime - env.eventTime)
  {
    var r := Ready(s, Chunk(payload), env);
    EnqueuedDated(s, Chunks(payload, MAX_PAYLOAD), env.stamp, env.eventTime, q);
    var u := Round(r.urgent, r.inFlight, r.bucket.tokens, []);
    DrainedUntouched(u, env.sendTime, q);
    DrainedUntouched(Drained(u, env.sendTime).(queue := r.normal), env.sendTime, q);
    EligibleOfMembers(env.unsent, NormalRound(r, env.sendTime).inFlight, env.rto, env.sendTime, q);
  }

  // ---- a packet that only a SACK can bring back ----

  /** In flight with an odd count, and in neither queue. */
  ghost predicate Waits(s: State, q: u64) {
    && q < s.nextSeq && q in s.inFlight && s.inFlight[q].nakCount == 1
    && q !in s.urgent && q !in s.normal
  }

  /** Without a SACK a turn neither picks such a packet nor changes its state. */
  lemma TurnKeepsWaiting(s: State, e: Event, env: Env, q: u64)
    requires Admits(s, e) && !e.SackIn? && Waits(s, q)
    ensures q !in TurnPicks(s, e, env) && Waits(Turn(s, e, env), q)
  {
    var r := Ready(s, e, env);
    if e.Chunk? {
      EnqueuedDated(s, Chunks(e.payload, MAX_PAYLOAD), env.stamp, env.eventTime, q);
      EnqueuedUpwards(s, Chunks(e.payload, MAX_PAYLOAD), env.stamp, env.eventTime);
    }
    assert Waits(r, q) && r.inFlight[q] == s.inFlight[q];
    BatchKeepsWaiting(r, env, q);
  }

  lemma {:induction false} EnqueuedUpwards(s: State, pieces: seq<bytes>, stamp: u64 -> u64, now: real)
    requires s.nextSeq + |pieces| < TWO64
    ensures EnqueuedChunks(s, pieces, stamp, now).nextSeq == s.nextSeq + |pieces|
    decreases |pieces|
  {
    if pieces != [] { EnqueuedUpwards(WithChunk(s, pieces[0], stamp, now), pieces[1..], stamp, now); }
  }

  lemma BatchKeepsWaiting(r: State, env: Env, q: u64)
    requires Waits(r, q)
    ensures q !in Picked(r, env.unsent, env.rto, env.sendTime)
    ensures Waits(Batched(r, env.unsent, env.rto, env.sendTime, env.wired), q)
  {
    DrainedUntouched(Round(r.urgent, r.inFlight, r.bucket.tokens, []), env.sendTime, q);
    DrainedUntouched(UrgentRound(r, env.sendTime).(queue := r.normal), env.sendTime, q);
    FreshFollows(r, env.unsent, env.rto, env.sendTime);
    EligibleOfMembers(env.unsent, NormalRound(r, env.sendTime).inFlight, env.rto, env.sendTime, q);
    BatchIsSound(r, env.unsent, env.rto, env.sendTime, env.wired);
  }

  /** One of the turns picks the packet. */
  ghost predicate PickedIn(s: State, steps: seq<Step>, q: u64)
    requires Runs(s, steps)
    decreases |steps|
  {
    steps != [] &&
    (var e, env := steps[0].event, steps[0].env;
     q in TurnPicks(s, e, env) || PickedIn(Turn(s, e, env), steps[1..], q))
  }

  /** Whatever else happens and however long it takes: until the next SACK the packet is not sent. */
  lemma {:induction false} WaitsForSack(s: State, steps: seq<Step>, q: u64)
    requires Runs(s, steps) && Waits(s, q) && forall i | 0 <= i < |steps| :: !steps[i].event.SackIn?
    ensures !PickedIn(s, steps, q) && Waits(End(s, steps), q)
    decreases |steps|
  {
    if steps != [] {
      var e, env := steps[0].event, steps[0].env;
      TurnKeepsWaiting(s, e, env, q);
      WaitsForSack(Turn(s, e, env), steps[1..], q);
    }
  }
}
