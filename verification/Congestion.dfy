/** Rate-based congestion control: the token bucket and the bandwidth prober
    (crates/protocol/src/congestion.rs). Rates, ratios and times are reals. */
module Congestion {
  import opened Bytes

  // ---- token bucket ----

  const CAPACITY: nat := 3000

  datatype Bucket = Bucket(tokens: real, rate: real, lastRefill: real)

  function MinReal(a: real, b: real): real { if a <= b then a else b }

  /** `duration_since`: zero when the clock reads no later than `since`. */
  function Elapsed(now: real, since: real): (r: real)
    ensures r >= 0.0
  {
    if now > since then now - since else 0.0
  }

  function Refilled(b: Bucket, now: real): Bucket {
    Bucket(MinReal(b.tokens + b.rate * Elapsed(now, b.lastRefill), CAPACITY as real), b.rate, now)
  }

  function WithRate(b: Bucket, rateBps: nat): Bucket {
    Bucket(MinReal(b.tokens, CAPACITY as real), rateBps as real / 8.0, b.lastRefill)
  }

  lemma ScaledAtMost(a: real, b: real, d: real)
    requires a <= b && d >= 0.0
    ensures a * d <= b * d
  {
  }

  class TokenBucket {
    var tokens: real
    var rate: real
    var lastRefill: real

    function Value(): Bucket
      reads this
    {
      Bucket(tokens, rate, lastRefill)
    }

    /** Seeded with a millisecond's worth of tokens. */
    constructor (rateBps: nat, now: real)
      ensures Value() == Bucket(rateBps as real / 8.0 / 1000.0, rateBps as real / 8.0, now)
    {
      tokens, rate, lastRefill := rateBps as real / 8.0 / 1000.0, rateBps as real / 8.0, now;
    }

    /** The elapsed time is not credited first: it will be, at the new rate, by the next refill. */
    method SetRate(rateBps: nat)
      modifies this
      ensures Value() == WithRate(old(Value()), rateBps)
    {
      rate := rateBps as real / 8.0;
      tokens := MinReal(tokens, CAPACITY as real);
    }

    method Refill(now: real)
      modifies this
      ensures Value() == Refilled(old(Value()), now)
    {
      var elapsed := Elapsed(now, lastRefill);
      lastRefill := now;
      tokens := MinReal(tokens + rate * elapsed, CAPACITY as real);
    }

    method TryConsume(n: nat) returns (ok: bool)
      modifies this`tokens
      ensures ok == (old(tokens) >= n as real)
      ensures tokens == if ok then old(tokens) - n as real else old(tokens)
    {
      ok := tokens >= n as real;
      if ok { tokens := tokens - n as real; }
    }
  }

  // ---- bandwidth prober ----

  const STEPS: nat := 7

  /** The probe ladder in bits per second. */
  function StepRate(i: nat): (r: nat)
    requires i < STEPS
    ensures r > 0
  {
    [10_000_000, 50_000_000, 100_000_000, 200_000_000, 500_000_000, 1_000_000_000, 2_000_000_000][i]
  }

  const FLOOR_RATE: nat := 5_000_000

  /** Seconds spent at a step before it is evaluated. */
  const STEP_SECONDS: real := 0.5

  datatype Phase = Probing(step: nat) | Steady(rate: nat) | Throttling

  datatype ProbeResult = ProbeResult(sent: nat, acked: nat)

  /** The goodput ratio of a step, capped at 1. */
  function Ratio(r: ProbeResult): (g: real)
    ensures 0.0 <= g <= 1.0
  {
    if r.sent == 0 then 0.0 else MinReal(r.acked as real / r.sent as real, 1.0)
  }

  datatype Prober = Prober(
    phase: Phase, results: seq<ProbeResult>, sent: nat, acked: nat, stepStart: real,
    lossEma: real, bestRate: nat, bestGoodput: real)

  predicate Sane(p: Prober) {
    |p.results| == STEPS && (p.phase.Probing? ==> p.phase.step < STEPS)
  }

  function FreshProber(now: real): Prober {
    Prober(Probing(0), seq(STEPS, _ => ProbeResult(0, 0)), 0, 0, now, 0.0, StepRate(0), 0.0)
  }

  function CurrentRate(p: Prober): nat
    requires Sane(p)
  {
    match p.phase
    case Probing(i) => StepRate(i)
    case Steady(r) => r
    case Throttling => FLOOR_RATE
  }

  function Sent(p: Prober, n: nat): Prober {
    p.(sent := p.sent + n)
  }

  function NextStep(p: Prober, phase: Phase, now: real): Prober {
    p.(phase := phase, sent := 0, acked := 0, stepStart := now)
  }

  /** Acknowledged bytes: the smoothed loss, and the drop to the floor above 30 %. */
  function Acked(p: Prober, n: nat, now: real): (Prober, Option<nat>) {
    var a := p.acked + n;
    var ema := if p.sent > 0 then 0.80 * p.lossEma + 0.20 * (1.0 - Ratio(ProbeResult(p.sent, a))) else p.lossEma;
    var p1 := p.(acked := a, lossEma := ema);
    if ema <= 0.30 || p.phase.Throttling? then (p1, None)
    else (NextStep(p1, Throttling, now), Some(FLOOR_RATE))
  }

  predicate Due(p: Prober, now: real) {
    Elapsed(now, p.stepStart) >= STEP_SECONDS
  }

  /** The climb ends after the last rung, or at a ratio below 0.95 of its predecessor's. */
  predicate ClimbEnds(p: Prober, i: nat, ratio: real)
    requires |p.results| == STEPS && i < STEPS
  {
    i + 1 >= STEPS || (i > 0 && ratio < Ratio(p.results[i - 1]) * 0.95)
  }

  function Restarted(p: Prober, now: real): Prober {
    NextStep(p, Probing(0), now).(bestGoodput := 0.0, bestRate := StepRate(0))
  }

  /** One timer tick of the prober. */
  function Evaluated(p: Prober, now: real): (Prober, Option<nat>)
    requires Sane(p)
  {
    if !Due(p, now) then (p, None)
    else
      match p.phase
      case Probing(i) =>
        var result := ProbeResult(p.sent, p.acked);
        var ratio := Ratio(result);
        var better := ratio > p.bestGoodput;
        var p1 := p.(bestGoodput := if better then ratio else p.bestGoodput,
                     bestRate := if better then StepRate(i) else p.bestRate,
                     results := p.results[i := result]);
        if ClimbEnds(p1, i, ratio) then (NextStep(p1, Steady(p1.bestRate), now), Some(p1.bestRate))
        else (NextStep(p1, Probing(i + 1), now), Some(StepRate(i + 1)))
      case Steady(r) =>
        var goodput := if p.sent > 0 then Ratio(ProbeResult(p.sent, p.acked)) else 1.0;
        if goodput < p.bestGoodput * 0.80 then (Restarted(p, now), Some(StepRate(0)))
        else (NextStep(p, Steady(r), now), Some(r))
      case Throttling =>
        (Restarted(p, now).(lossEma := 0.0), Some(StepRate(0)))
  }

  class BandwidthProfiler {
    var phase: Phase
    var results: seq<ProbeResult>
    var sent: nat
    var acked: nat
    var stepStart: real
    var lossEma: real
    var bestRate: nat
    var bestGoodput: real

    function Value(): Prober
      reads this
    {
      Prober(phase, results, sent, acked, stepStart, lossEma, bestRate, bestGoodput)
    }

    ghost predicate Valid()
      reads this
    {
      Sane(Value())
    }

    constructor (now: real)
      ensures Valid() && Value() == FreshProber(now)
    {
      phase, results, sent, acked := Probing(0), seq(STEPS, _ => ProbeResult(0, 0)), 0, 0;
      stepStart, lossEma, bestRate, bestGoodput := now, 0.0, StepRate(0), 0.0;
    }

    method OnBytesSent(n: nat)
      requires Valid()
      modifies this`sent
      ensures Valid() && Value() == Sent(old(Value()), n)
    {
      sent := sent + n;
    }

    method OnBytesAcked(n: nat, now: real) returns (change: Option<nat>)
      requires Valid()
      modifies this
      ensures Valid() && (Value(), change) == Acked(old(Value()), n, now)
    {
      acked := acked + n;
      if sent > 0 {
        var stepLoss := 1.0 - Ratio(ProbeResult(sent, acked));
        lossEma := 0.80 * lossEma + 0.20 * stepLoss;
      }
      if lossEma > 0.30 {
        change := EnterThrottle(now);
      } else {
        change := None;
      }
    }

    method EnterThrottle(now: real) returns (change: Option<nat>)
      requires Valid()
      modifies this
      ensures Valid()
      ensures old(phase).Throttling? ==> Value() == old(Value()) && change == None
      ensures !old(phase).Throttling? ==>
                Value() == NextStep(old(Value()), Throttling, now) && change == Some(FLOOR_RATE)
    {
      if phase == Throttling { return None; }
      phase := Throttling;
      ResetStepCounters(now);
      change := Some(FLOOR_RATE);
    }

    method ResetStepCounters(now: real)
      modifies this`sent, this`acked, this`stepStart
      ensures sent == 0 && acked == 0 && stepStart == now
    {
      sent, acked, stepStart := 0, 0, now;
    }

    method EvaluateProbe(now: real) returns (change: Option<nat>)
      requires Valid()
      modifies this
      ensures Valid() && (Value(), change) == Evaluated(old(Value()), now)
    {
      if Elapsed(now, stepStart) < STEP_SECONDS { return None; }
      match phase {
        case Probing(i) =>
          var result := ProbeResult(sent, acked);
          var ratio := Ratio(result);
          if ratio > bestGoodput {
            bestGoodput := ratio;
            bestRate := StepRate(i);
          }
          results := results[i := result];
          if i + 1 >= STEPS || (i > 0 && ratio < Ratio(results[i - 1]) * 0.95) {
            phase := Steady(bestRate);
            ResetStepCounters(now);
            return Some(bestRate);
          }
          phase := Probing(i + 1);
          ResetStepCounters(now);
          change := Some(StepRate(i + 1));
        case Steady(r) =>
          var goodput := if sent > 0 then Ratio(ProbeResult(sent, acked)) else 1.0;
          if goodput < bestGoodput * 0.80 {
            bestGoodput, bestRate := 0.0, StepRate(0);
            phase := Probing(0);
            ResetStepCounters(now);
            return Some(StepRate(0));
          }
          ResetStepCounters(now);
          change := Some(r);
        case Throttling =>
          phase := Probing(0);
          bestGoodput, bestRate := 0.0, StepRate(0);
          lossEma := 0.0;
          ResetStepCounters(now);
          change := Some(StepRate(0));
      }
    }
  }
}
