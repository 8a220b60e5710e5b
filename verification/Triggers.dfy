/** When the prober reacts: when it climbs again, above which loss it drops to the floor, and how often it looks
    (crates/protocol/src/congestion.rs:200-290). */
module Triggers {
  import opened Bytes
  import opened Congestion
  import opened Prober

  // ---- the ladder ----

  /** Seven rungs from 10 Mbit/s to 2 Gbit/s, each above the one before; the floor is below them all. */
  lemma Ladder(i: nat, j: nat)
    requires i < j < STEPS
    ensures STEPS == 7 && FLOOR_RATE == 5_000_000
    ensures 10_000_000 <= StepRate(i) < StepRate(j) <= 2_000_000_000
    ensures StepRate(0) == 10_000_000 && StepRate(STEPS - 1) == 2_000_000_000
  {
  }

  // ---- a new climb ----

  lemma BestIsRatio(p: Congestion.Prober)
    requires Climbing(p) && p.phase.Steady?
    ensures 0.0 <= p.bestGoodput <= 1.0
  {
    var n :| FinishedClimb(p, n);
    if p.bestGoodput != 0.0 {
      var j: nat :| j < n && Attains(p.results, j, p.bestGoodput, p.bestRate);
    }
  }

  /** Something was sent in the step, and less than four fifths of the best goodput came back. */
  predicate Short(p: Congestion.Prober) {
    p.sent > 0 && p.acked as real < p.bestGoodput * 0.8 * p.sent as real
  }

  lemma ShortIs(p: Congestion.Prober)
    requires 0.0 <= p.bestGoodput <= 1.0
    ensures Short(p) <==> p.sent > 0 && Ratio(ProbeResult(p.sent, p.acked)) < p.bestGoodput * 0.8
  {
    if p.sent > 0 { RatioBelow(p.sent, p.acked, p.bestGoodput * 0.8); }
  }

  /** A steady prober climbs again at a due timer if and only if the step was short; otherwise it keeps its rate. */
  lemma ClimbsAgainIff(p: Congestion.Prober, now: real)
    requires Climbing(p) && p.phase.Steady?
    ensures var p' := Evaluated(p, now).0;
      if now - p.stepStart >= 0.5 && Short(p)
      then p' == FreshProber(now).(results := p.results, lossEma := p.lossEma)
      else p'.phase == p.phase
  {
    BestIsRatio(p);
    ShortIs(p);
    SteadyStep(p, now, Short(p));
  }

  lemma SteadyStep(p: Congestion.Prober, now: real, short: bool)
    requires Sane(p) && p.phase.Steady? && p.bestGoodput <= 1.0
    requires short <==> p.sent > 0 && Ratio(ProbeResult(p.sent, p.acked)) < p.bestGoodput * 0.8
    ensures var p' := Evaluated(p, now).0;
      if now - p.stepStart >= 0.5 && short
      then p' == FreshProber(now).(results := p.results, lossEma := p.lossEma)
      else p'.phase == p.phase
  {
  }

  lemma RatioBelow(sent: nat, acked: nat, limit: real)
    requires sent > 0 && limit <= 1.0
    ensures Ratio(ProbeResult(sent, acked)) < limit <==> acked as real < limit * sent as real
  {
    var x, y := acked as real, sent as real;
    assert x / y * y == x;
    if x / y < limit { ScaledLess(x / y, limit, y); } else { ScaledAtMost(limit, x / y, y); }
  }

  lemma ScaledLess(a: real, b: real, y: real)
    requires a < b && y > 0.0
    ensures a * y < b * y
  {
  }

  /** From the floor it starts afresh at the first due timer, as a new prober would. */
  lemma FloorStartsAfresh(p: Congestion.Prober, now: real)
    requires Sane(p) && p.phase.Throttling?
    ensures Evaluated(p, now) ==
            if now - p.stepStart >= 0.5 then (FreshProber(now).(results := p.results), Some(10_000_000)) else (p, None)
  {
  }

  // ---- the floor ----

  /** The share of the step's bytes that has not come back, none while nothing has been sent. */
  function StepLoss(p: Congestion.Prober, n: nat): (r: real)
    ensures 0.0 <= r <= 1.0
  {
    if p.sent > 0 then 1.0 - Ratio(ProbeResult(p.sent, p.acked + n)) else 0.0
  }

  /** A SACK drops the prober to the floor if and only if the smoothed loss it leads to is above three tenths. */
  lemma ThrottlesIff(p: Congestion.Prober, n: nat, now: real)
    requires Sane(p) && !p.phase.Throttling?
    ensures var (p', change) := Acked(p, n, now);
      && p'.lossEma == (if p.sent > 0 then p.lossEma + (StepLoss(p, n) - p.lossEma) / 5.0 else p.lossEma)
      && (p'.phase.Throttling? <==> p'.lossEma > 0.3)
      && (p'.phase.Throttling? ==> change == Some(5_000_000) && p'.sent == p'.acked == 0 && p'.stepStart == now)
      && (!p'.phase.Throttling? ==> change == None && p' == p.(acked := p.acked + n, lossEma := p'.lossEma))
  {
  }

  /** Every SACK among the events finds at most `limit` of the step's bytes missing. */
  ghost predicate LossAtMost(p: Congestion.Prober, es: seq<Event>, limit: real)
    requires Sane(p)
    decreases |es|
  {
    es == [] ||
    ((es[0].BytesAcked? ==> StepLoss(p, es[0].n) <= limit) && LossAtMost(Step(p, es[0]).0, es[1..], limit))
  }

  /** At a loss of at most three tenths the prober never drops to the floor. */
  lemma {:induction false} ModerateLossNeverThrottles(p: Congestion.Prober, es: seq<Event>)
    requires Sane(p) && !p.phase.Throttling? && p.lossEma <= 0.3 && LossAtMost(p, es, 0.3)
    ensures NeverThrottles(p, es)
    decreases |es|
  {
    if es != [] {
      if es[0].BytesAcked? { ThrottlesIff(p, es[0].n, es[0].now); }
      ModerateLossNeverThrottles(Step(p, es[0]).0, es[1..]);
    }
  }

  /** SACKs only, each with something sent in the step and at least `limit` of it missing. */
  ghost predicate LossAtLeast(p: Congestion.Prober, es: seq<Event>, limit: real)
    requires Sane(p)
    decreases |es|
  {
    es == [] ||
    (es[0].BytesAcked? && (!p.phase.Throttling? ==> p.sent > 0 && StepLoss(p, es[0].n) >= limit)
     && LossAtLeast(Step(p, es[0]).0, es[1..], limit))
  }

  /** At a loss of more than three tenths the prober is at the floor after finitely many SACKs of a step: once their
      number n satisfies n * gap / 5 > 0.3, where gap is the excess. */
  lemma {:induction false} HeavyLossThrottles(p: Congestion.Prober, es: seq<Event>, gap: real)
    requires Sane(p) && gap > 0.0 && LossAtLeast(p, es, 0.3 + gap)
    requires p.phase.Throttling? || (p.lossEma <= 0.3 && Enough(p.lossEma, |es|, gap))
    ensures After(p, es).phase.Throttling?
    decreases |es|
  {
    if p.phase.Throttling? {
      FloorStays(p, es, 0.3 + gap);
    } else {
      ThrottlesIff(p, es[0].n, es[0].now);
      var p' := Step(p, es[0]).0;
      if !p'.phase.Throttling? { EnoughNext(p.lossEma, p'.lossEma, |es|, gap); }
      HeavyLossThrottles(p', es[1..], gap);
    }
  }

  /** n steps of at least a fifth of the excess lead above three tenths. */
  predicate Enough(ema: real, n: nat, gap: real) {
    n > 0 && ema + n as real * (gap / 5.0) > 0.3
  }

  lemma EnoughNext(ema: real, ema': real, n: nat, gap: real)
    requires gap > 0.0 && Enough(ema, n, gap) && ema' <= 0.3 && ema' >= ema + gap / 5.0
    ensures Enough(ema', n - 1, gap)
  {
  }

  lemma {:induction false} FloorStays(p: Congestion.Prober, es: seq<Event>, limit: real)
    requires Sane(p) && p.phase.Throttling? && LossAtLeast(p, es, limit)
    ensures After(p, es).phase.Throttling?
    decreases |es|
  {
    if es != [] { FloorStays(Step(p, es[0]).0, es[1..], limit); }
  }
}
