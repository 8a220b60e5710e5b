/** When packets go out: what a batch dates, in which order it picks, and that without a SACK no packet goes out again
    before its timeout (crates/protocol/src/sender.rs:272-335). */
module Resend {
  import opened Bits
  import opened Seqs
  import Sack
  import opened Congestion
  import opened Sender
  import opened SenderFacts
  import opened Retransmit
  import opened SenderProgress

  // ---- dates ----

  /** Every pick of the round is dated now; every other packet keeps its date. */
  ghost predicate Dated(r: Round, d: Round, now: real) {
    && r.inFlight.Keys == d.inFlight.Keys && r.picked <= d.picked
    && forall q | q in d.inFlight ::
         d.inFlight[q].lastSent == if q in d.picked[|r.picked|..] then now else r.inFlight[q].lastSent
  }

  lemma DatedStep(r: Round, d: Round, now: real)
    requires HeadInFlight(r) && Dated(PickHead(r, now), d, now)
    ensures Dated(r, d, now)
  {
    var n := |r.picked|;
    var r' := PickHead(r, now);
    assert r'.picked == r.picked + [r.queue[0]] && r.picked <= d.picked;
    assert d.picked[n] == r.queue[0];
    assert d.picked[n..] == [d.picked[n]] + d.picked[n + 1..];
  }

  lemma {:induction false} DrainedDates(r: Round, now: real)
    ensures Dated(r, Drained(r, now), now)
    decreases |r.queue|
  {
    if |r.picked| < BATCH_SIZE && r.queue != [] {
      if !HeadInFlight(r) {
        DrainedDates(Popped(r), now);
      } else if Affordable(r) {
        DrainedDates(PickHead(r, now), now);
        DatedStep(r, Drained(PickHead(r, now), now), now);
      }
    }
  }

  lemma {:induction false} SentFreshDates(r: Round, now: real)
    ensures Dated(r, SentFresh(r, now), now)
    decreases |r.queue|
  {
    if r.queue != [] {
      if !HeadInFlight(r) {
        SentFreshDates(Popped(r), now);
      } else if Affordable(r) {
        SentFreshDates(PickHead(r, now), now);
        DatedStep(r, SentFresh(PickHead(r, now), now), now);
      }
    }
  }

  lemma DatedJoins(a: Round, b: Round, b': Round, c: Round, now: real)
    requires Dated(a, b, now) && Dated(b', c, now) && b'.inFlight == b.inFlight && b'.picked == b.picked
    ensures Dated(a, c, now)
  {
    var n := |a.picked|;
    assert c.picked[n..] == c.picked[n..|b.picked|] + c.picked[|b.picked|..];
    assert c.picked[n..|b.picked|] == b.picked[n..];
  }

  /** After a batch the picks carry its time, and the others the time they had. */
  lemma BatchDates(s: State, order: seq<u64>, rto: real, now: real, wired: nat)
    ensures var m := Batched(s, order, rto, now, wired).inFlight;
      && m.Keys == s.inFlight.Keys
      && forall q | q in m :: m[q].lastSent == if q in Picked(s, order, rto, now) then now else s.inFlight[q].lastSent
  {
    var r0 := Round(s.urgent, s.inFlight, s.bucket.tokens, []);
    var u, n, f := UrgentRound(s, now), NormalRound(s, now), FreshRound(s, order, rto, now);
    var room := if |n.picked| <= BATCH_SIZE then BATCH_SIZE - |n.picked| else 0;
    DrainedDates(r0, now);
    DrainedDates(u.(queue := s.normal), now);
    SentFreshDates(n.(queue := Taken(EligibleOf(order, n.inFlight, rto, now), room)), now);
    DatedJoins(r0, u, u.(queue := s.normal), n, now);
    DatedJoins(r0, n, n.(queue := Taken(EligibleOf(order, n.inFlight, rto, now), room)), f, now);
    assert f.picked[0..] == f.picked;
  }

  // ---- order ----

  /** The numbers of `qs` that are in flight, in order. */
  function Present(qs: seq<u64>, m: map<u64, Entry>): seq<u64> {
    if qs == [] then [] else (if qs[0] in m then [qs[0]] else []) + Present(qs[1..], m)
  }

  lemma {:induction false} PresentSame(qs: seq<u64>, m: map<u64, Entry>, m': map<u64, Entry>)
    requires m.Keys == m'.Keys
    ensures Present(qs, m) == Present(qs, m')
  {
    if qs != [] { PresentSame(qs[1..], m, m'); }
  }

  /** The first n numbers have left the queue in order, those in flight into the batch; the next may have gone to the
      tail because the tokens do not cover its packet. */
  ghost predicate TookFirst(r: Round, d: Round, n: nat) {
    && n <= |r.queue|
    && d.picked == r.picked + Present(r.queue[..n], r.inFlight)
    && (d.queue == r.queue[n..] || (n < |r.queue| && d.queue == r.queue[n + 1..] + [r.queue[n]]
                                    && ShortOf(d.inFlight, d.tokens, r.queue[n])))
  }

  lemma TookOneMore(r: Round, r': Round, d: Round, n: nat)
    requires r.queue != [] && r'.queue == r.queue[1..] && r'.inFlight.Keys == r.inFlight.Keys && TookFirst(r', d, n)
    requires r'.picked == r.picked + if r.queue[0] in r.inFlight then [r.queue[0]] else []
    ensures TookFirst(r, d, n + 1)
  {
    HeadTake(r.queue, n);
    assert r.queue[..n + 1][1..] == r'.queue[..n] && r.queue[..n + 1][0] == r.queue[0];
    PresentSame(r'.queue[..n], r.inFlight, r'.inFlight);
    Assoc(r.picked, if r.queue[0] in r.inFlight then [r.queue[0]] else [], Present(r'.queue[..n], r.inFlight));
    assert r.queue[n + 1..] == r'.queue[n..];
    if n + 1 < |r.queue| { assert r.queue[n + 2..] == r'.queue[n + 1..] && r.queue[n + 1] == r'.queue[n]; }
  }

  lemma TookNone(r: Round)
    ensures r.picked == r.picked + Present(r.queue[..0], r.inFlight) && r.queue == r.queue[0..]
  {
  }

  /** A queue is served from its front. */
  lemma {:induction false} DrainedInOrder(r: Round, now: real) returns (n: nat)
    ensures TookFirst(r, Drained(r, now), n)
    decreases |r.queue|
  {
    if |r.picked| < BATCH_SIZE && r.queue != [] {
      if !HeadInFlight(r) {
        n := DrainedInOrder(Popped(r), now);
        TookOneMore(r, Popped(r), Drained(r, now), n);
        n := n + 1;
      } else if Affordable(r) {
        n := DrainedInOrder(PickHead(r, now), now);
        TookOneMore(r, PickHead(r, now), Drained(r, now), n);
        n := n + 1;
      } else {
        n := 0;
        TookNone(r);
      }
    } else {
      n := 0;
      TookNone(r);
    }
  }

  /** A batch is the front of the urgent queue, then the front of the normal one, then the front of the candidates. */
  lemma BatchInOrder(s: State, order: seq<u64>, rto: real, now: real, wired: nat) returns (u: nat, n: nat, f: nat)
    ensures var s' := Batched(s, order, rto, now, wired);
      var cs := EligibleOf(order, NormalRound(s, now).inFlight, rto, now);
      && u <= |s.urgent| && n <= |s.normal| && f <= |cs|
      && Picked(s, order, rto, now) == Present(s.urgent[..u], s.inFlight) + Present(s.normal[..n], s.inFlight) + cs[..f]
      && (s'.urgent == s.urgent[u..] || (u < |s.urgent| && s'.urgent == s.urgent[u + 1..] + [s.urgent[u]]))
      && (s'.normal == s.normal[n..] || (n < |s.normal| && s'.normal == s.normal[n + 1..] + [s.normal[n]]))
  {
    var r0 := Round(s.urgent, s.inFlight, s.bucket.tokens, []);
    u := DrainedInOrder(r0, now);
    var ur := UrgentRound(s, now);
    n := DrainedInOrder(ur.(queue := s.normal), now);
    DrainedQueue(r0, now);
    PresentSame(s.normal[..n], s.inFlight, ur.inFlight);
    f := FreshPrefix(s, order, rto, now);
    assert [] + Present(s.urgent[..u], s.inFlight) == Present(s.urgent[..u], s.inFlight);
  }

  lemma FreshPrefix(s: State, order: seq<u64>, rto: real, now: real) returns (f: nat)
    ensures var n := NormalRound(s, now);
      var cs := EligibleOf(order, n.inFlight, rto, now);
      f <= |cs| && Picked(s, order, rto, now) == n.picked + cs[..f]
  {
    FreshFollows(s, order, rto, now);
    var n := NormalRound(s, now);
    var cs := EligibleOf(order, n.inFlight, rto, now);
    var room := if |n.picked| <= BATCH_SIZE then BATCH_SIZE - |n.picked| else 0;
    var xs := Taken(cs, room);
    f := |xs| - |FreshRound(s, order, rto, now).queue|;
    assert xs[..f] == cs[..f];
  }

  // ---- no early retransmission ----

  /** A packet that is in neither queue and was last sent at `lastSent` is picked only when the timeout is over. */
  lemma PickedWhenOld(s: State, order: seq<u64>, rto: real, now: real, q: u64)
    requires q in s.inFlight && q !in s.urgent && q !in s.normal && rto >= 0.0
    requires q in Picked(s, order, rto, now)
    ensures now - s.inFlight[q].lastSent > rto && s.inFlight[q].nakCount == 0
  {
    DrainedUntouched(Round(s.urgent, s.inFlight, s.bucket.tokens, []), now, q);
    DrainedUntouched(UrgentRound(s, now).(queue := s.normal), now, q);
    var f := FreshPrefix(s, order, rto, now);
    var n := NormalRound(s, now);
    assert q in EligibleOf(order, n.inFlight, rto, now);
    EligibleOfMembers(order, n.inFlight, rto, now, q);
  }

  /** After no event of the run is the packet in a queue: no SACK has asked for it. */
  ghost predicate Unasked(s: State, steps: seq<Step>, q: u64)
    requires Runs(s, steps)
    decreases |steps|
  {
    steps == [] ||
    (var e, env := steps[0].event, steps[0].env;
     var h := Handled(s, e, env);
     && q !in h.urgent && q !in h.normal && env.rto >= 0.0
     && Unasked(Turn(s, e, env), steps[1..], q))
  }

  /** Every transmission comes more than the timeout of its turn after the one before; `last` is the last so far. */
  ghost predicate Spaced(s: State, steps: seq<Step>, q: u64, last: real)
    requires Runs(s, steps)
    decreases |steps|
  {
    steps == [] ||
    (var e, env := steps[0].event, steps[0].env;
     var goes := q in TurnPicks(s, e, env);
     && (goes ==> env.sendTime - last > env.rto)
     && Spaced(Turn(s, e, env), steps[1..], q, if goes then env.sendTime else last))
  }

  /** Events leave the date of a packet alone, and put nothing in flight under a number already handed out. */
  lemma EventKeepsDate(s: State, e: Event, env: Env, q: u64)
    requires Admits(s, e) && q < s.nextSeq
    ensures var h := Handled(s, e, env);
      && s.nextSeq <= h.nextSeq
      && (q in h.inFlight ==> q in s.inFlight && h.inFlight[q].lastSent == s.inFlight[q].lastSent)
  {
    match e
    case Chunk(payload) =>
      EnqueuedDated(s, Chunks(payload, MAX_PAYLOAD), env.stamp, env.eventTime, q);
      EnqueuedUpwards(s, Chunks(payload, MAX_PAYLOAD), env.stamp, env.eventTime);
    case SackIn(sack) =>
      var total := BytesOf(AckedOf(env.beforeAck, sack), s.inFlight);
      NakAllDates(s.(inFlight := Unacked(s.inFlight, sack), prober := Acked(s.prober, total, env.eventTime).0),
                  sack, env.afterAck);
    case _ =>
  }

  lemma {:induction false} NakAllDates(s: State, sack: Sack.Payload, order: seq<u64>)
    ensures var s' := NakAll(s, sack, order);
      && s'.nextSeq == s.nextSeq && s'.inFlight.Keys == s.inFlight.Keys
      && forall q | q in s'.inFlight :: s'.inFlight[q].lastSent == s.inFlight[q].lastSent
    decreases |order|
  {
    if order != [] { NakAllDates(NakOne(s, sack, order[0]), sack, order[1..]); }
  }

  lemma TurnSpaced(s: State, e: Event, env: Env, q: u64, last: real)
    requires Admits(s, e) && q < s.nextSeq && (q in s.inFlight ==> s.inFlight[q].lastSent == last)
    requires var h := Handled(s, e, env); q !in h.urgent && q !in h.normal && env.rto >= 0.0
    ensures var s', goes := Turn(s, e, env), q in TurnPicks(s, e, env);
      && (goes ==> env.sendTime - last > env.rto) && q < s'.nextSeq
      && (q in s'.inFlight ==> s'.inFlight[q].lastSent == if goes then env.sendTime else last)
  {
    var r := Ready(s, e, env);
    EventKeepsDate(s, e, env, q);
    BatchIsSound(r, env.unsent, env.rto, env.sendTime, env.wired);
    BatchDates(r, env.unsent, env.rto, env.sendTime, env.wired);
    if q in TurnPicks(s, e, env) { PickedWhenOld(r, env.unsent, env.rto, env.sendTime, q); }
  }

  /** Over whole runs: as long as no SACK asks for it, a packet goes out again only after its timeout. */
  lemma {:induction false} NeverEarly(s: State, steps: seq<Step>, q: u64, last: real)
    requires Runs(s, steps) && Unasked(s, steps, q)
    requires q < s.nextSeq && (q in s.inFlight ==> s.inFlight[q].lastSent == last)
    ensures Spaced(s, steps, q, last)
    decreases |steps|
  {
    if steps != [] {
      var e, env := steps[0].event, steps[0].env;
      TurnSpaced(s, e, env, q, last);
      NeverEarly(Turn(s, e, env), steps[1..], q, if q in TurnPicks(s, e, env) then env.sendTime else last);
    }
  }
}
