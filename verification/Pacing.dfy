/** The pacer and the prober over whole runs of the sender: how many bytes the clock allows, at which rate, and what
    the prober is told about them. */
module Pacing {
  import opened Bits
  import opened Bytes
  import opened Seqs
  import opened Congestion
  import opened Sender
  import opened SenderFacts
  import Liveness
  import Prober

  // ---- refills and the clock ----

  /** Refilling in between changes nothing: no moment is credited twice, none is lost. */
  lemma RefillComposes(b: Bucket, t1: real, t2: real)
    requires b.rate >= 0.0 && b.lastRefill <= t1 <= t2
    ensures Refilled(Refilled(b, t1), t2) == Refilled(b, t2)
  {
    var r, d1, d2 := b.rate, Elapsed(t1, b.lastRefill), Elapsed(t2, t1);
    assert Elapsed(t2, b.lastRefill) == d1 + d2;
    assert r * (d1 + d2) == r * d1 + r * d2;
    ProductNonNegative(r, d1);
    ProductNonNegative(r, d2);
  }

  /** After a change of rate the time since the last refill is credited at the new rate, on top of at most 3000. */
  lemma RateChangeCredits(b: Bucket, bps: nat, t: real)
    requires b.lastRefill <= t
    ensures Refilled(WithRate(b, bps), t).tokens
         == MinReal(MinReal(b.tokens, 3000.0) + bps as real / 8.0 * (t - b.lastRefill), 3000.0)
  {
  }

  /** The refills of a run read a clock that does not run backwards. */
  predicate Forward(steps: seq<Step>, since: real)
    decreases |steps|
  {
    steps == [] || (since <= steps[0].env.refillTime && Forward(steps[1..], steps[0].env.refillTime))
  }

  /** What a rate allows between two clock readings. */
  function Allowed(rate: real, from: real, to: real): real {
    rate * (to - from)
  }

  /** What the clock readings allow: per turn its rate times the time since the previous turn's refill. */
  ghost function Budget(s: State, steps: seq<Step>, since: real): real
    requires Runs(s, steps)
    decreases |steps|
  {
    if steps == [] then 0.0
    else
      var (e, env) := (steps[0].event, steps[0].env);
      Allowed(Handled(s, e, env).bucket.rate, since, env.refillTime) +
      Budget(Turn(s, e, env), steps[1..], env.refillTime)
  }

  /** The bytes put into batches are covered by the starting tokens and by what the clock readings allow. */
  lemma {:induction false} PacedByClock(s: State, steps: seq<Step>)
    requires Runs(s, steps) && Forward(steps, s.bucket.lastRefill)
    requires s.bucket.tokens >= 0.0 && s.bucket.rate >= 0.0
    ensures BytesPut(s, steps) as real <= s.bucket.tokens + Budget(s, steps, s.bucket.lastRefill)
    decreases |steps|
  {
    if steps != [] {
      TurnByClock(s, steps[0].event, steps[0].env);
      PacedByClock(Turn(s, steps[0].event, steps[0].env), steps[1..]);
    }
  }

  lemma TurnByClock(s: State, e: Event, env: Env)
    requires Admits(s, e) && s.bucket.lastRefill <= env.refillTime
    requires s.bucket.tokens >= 0.0 && s.bucket.rate >= 0.0
    ensures var s' := Turn(s, e, env);
      && s'.bucket.lastRefill == env.refillTime && s'.bucket.tokens >= 0.0 && s'.bucket.rate >= 0.0
      && s'.bucket.tokens + BytesOf(TurnPicks(s, e, env), Handled(s, e, env).inFlight) as real
         <= s.bucket.tokens + Allowed(Handled(s, e, env).bucket.rate, s.bucket.lastRefill, env.refillTime)
  {
    TurnIsPaced(s, e, env);
    CreditIsAllowed(s, e, env);
    TurnDatesRefill(s, e, env);
  }

  lemma CreditIsAllowed(s: State, e: Event, env: Env)
    requires Admits(s, e) && s.bucket.lastRefill <= env.refillTime
    requires s.bucket.tokens >= 0.0 && s.bucket.rate >= 0.0
    ensures CreditOf(s, e, env) == Allowed(Handled(s, e, env).bucket.rate, s.bucket.lastRefill, env.refillTime)
  {
    HandledKeepsBucket(s, e, env);
  }

  lemma TurnDatesRefill(s: State, e: Event, env: Env)
    requires Admits(s, e)
    ensures Turn(s, e, env).bucket.lastRefill == env.refillTime
  {
  }

  ghost predicate RatesAtMost(s: State, steps: seq<Step>, limit: real)
    requires Runs(s, steps)
    decreases |steps|
  {
    steps == [] ||
    (var e, env := steps[0].event, steps[0].env;
     Handled(s, e, env).bucket.rate <= limit && RatesAtMost(Turn(s, e, env), steps[1..], limit))
  }

  function LastTime(steps: seq<Step>, since: real): real {
    if steps == [] then since else LastTime(steps[1..], steps[0].env.refillTime)
  }

  lemma {:induction false} BudgetAtMost(s: State, steps: seq<Step>, since: real, limit: real)
    requires Runs(s, steps) && Forward(steps, since) && RatesAtMost(s, steps, limit)
    ensures Budget(s, steps, since) <= Allowed(limit, since, LastTime(steps, since))
    decreases |steps|
  {
    if steps != [] {
      var e, env := steps[0].event, steps[0].env;
      BudgetAtMost(Turn(s, e, env), steps[1..], env.refillTime, limit);
      AllowedAdds(Handled(s, e, env).bucket.rate, limit, since, env.refillTime, LastTime(steps, since));
    }
  }

  lemma AllowedAdds(rate: real, limit: real, from: real, mid: real, to: real)
    requires rate <= limit && from <= mid
    ensures Allowed(rate, from, mid) + Allowed(limit, mid, to) <= Allowed(limit, from, to)
  {
    ScaledAtMost(rate, limit, mid - from);
    assert to - from == (mid - from) + (to - mid);
    SplitProduct(limit, mid - from, to - mid);
  }

  lemma SplitProduct(a: real, x: real, y: real)
    ensures a * (x + y) == a * x + a * y
  {
  }

  /** At rates of at most `limit` no more than the starting tokens and `limit` times the elapsed time go out. */
  lemma PacedAtRate(s: State, steps: seq<Step>, limit: real)
    requires Runs(s, steps) && Forward(steps, s.bucket.lastRefill) && RatesAtMost(s, steps, limit)
    requires s.bucket.tokens >= 0.0 && s.bucket.rate >= 0.0
    ensures BytesPut(s, steps) as real
         <= s.bucket.tokens + Allowed(limit, s.bucket.lastRefill, LastTime(steps, s.bucket.lastRefill))
  {
    PacedByClock(s, steps);
    BudgetAtMost(s, steps, s.bucket.lastRefill, limit);
  }

  // ---- the prober's part in a turn ----

  /** What the event of a turn is to the prober. */
  ghost function ProberAfter(s: State, e: Event, env: Env): Congestion.Prober
    requires Admits(s, e)
  {
    match e
    case ProbeTimer => Evaluated(s.prober, env.eventTime).0
    case SackIn(sack) => Acked(s.prober, BytesOf(AckedOf(env.beforeAck, sack), s.inFlight), env.eventTime).0
    case _ => s.prober
  }

  lemma HandledProber(s: State, e: Event, env: Env)
    requires Admits(s, e)
    ensures Handled(s, e, env).prober == ProberAfter(s, e, env)
    ensures !e.ProbeTimer? ==> Handled(s, e, env).bucket == s.bucket
  {
    match e
    case SackIn(sack) =>
      var p := ProberAfter(s, e, env);
      Liveness.NakAllKeeps(s.(inFlight := Unacked(s.inFlight, sack), prober := p), sack, env.afterAck);
    case Chunk(payload) =>
      Liveness.EnqueuedKeepsFunds(s, Chunks(payload, MAX_PAYLOAD), env.stamp, env.eventTime);
    case _ =>
  }

  // ---- the pacer follows the prober ----

  /** The last rate the probe timer reported, in bits per second. */
  ghost function LastReport(s: State, steps: seq<Step>, before: nat): nat
    requires Runs(s, steps)
    decreases |steps|
  {
    if steps == [] then before
    else
      var (e, env) := (steps[0].event, steps[0].env);
      var report := if e.ProbeTimer? then Evaluated(s.prober, env.eventTime).1 else None;
      LastReport(Turn(s, e, env), steps[1..], match report case Some(r) => r case None => before)
  }

  /** The pacer sends at one eighth, in bytes per second, of the last rate the probe timer reported. */
  lemma {:induction false} PacerObeys(s: State, steps: seq<Step>, before: nat)
    requires Runs(s, steps) && s.bucket.rate == before as real / 8.0
    ensures End(s, steps).bucket.rate == LastReport(s, steps, before) as real / 8.0
    decreases |steps|
  {
    if steps != [] {
      var e, env := steps[0].event, steps[0].env;
      HandledProber(s, e, env);
      var report := if e.ProbeTimer? then Evaluated(s.prober, env.eventTime).1 else None;
      PacerObeys(Turn(s, e, env), steps[1..], match report case Some(r) => r case None => before);
    }
  }

  /** Ten megabits per second before the first report. */
  lemma PacerObeysFromStart(session: u32, now: real, steps: seq<Step>)
    requires Runs(Initial(session, now), steps)
    ensures End(Initial(session, now), steps).bucket.rate
         == LastReport(Initial(session, now), steps, 10_000_000) as real / 8.0
  {
    PacerObeys(Initial(session, now), steps, 10_000_000);
  }

  /** The pacer is at the prober's rate, except while the prober is throttling. */
  ghost predicate InStep(s: State) {
    && Prober.Climbing(s.prober)
    && (s.prober.phase.Throttling? || s.bucket.rate == CurrentRate(s.prober) as real / 8.0)
  }

  lemma EventKeepsInStep(s: State, e: Event, env: Env)
    requires Admits(s, e) && InStep(s)
    ensures InStep(Handled(s, e, env))
    ensures e.ProbeTimer? && env.eventTime - s.prober.stepStart >= 0.5 ==>
              Handled(s, e, env).bucket.rate == CurrentRate(Handled(s, e, env).prober) as real / 8.0
  {
    HandledProber(s, e, env);
    match e
    case ProbeTimer =>
      Prober.StepKeepsClimbing(s.prober, Prober.Timer(env.eventTime));
      Prober.ReportsAreCurrent(s.prober, Prober.Timer(env.eventTime));
    case SackIn(sack) =>
      var total := BytesOf(AckedOf(env.beforeAck, sack), s.inFlight);
      Prober.StepKeepsClimbing(s.prober, Prober.BytesAcked(total, env.eventTime));
      Prober.ReportsAreCurrent(s.prober, Prober.BytesAcked(total, env.eventTime));
    case _ =>
  }

  lemma TurnKeepsInStep(s: State, e: Event, env: Env)
    requires Admits(s, e) && InStep(s)
    ensures InStep(Turn(s, e, env))
    ensures e.ProbeTimer? && env.eventTime - s.prober.stepStart >= 0.5 ==>
              Turn(s, e, env).bucket.rate == CurrentRate(Turn(s, e, env).prober) as real / 8.0
  {
    EventKeepsInStep(s, e, env);
    var h, s' := Handled(s, e, env), Turn(s, e, env);
    BatchIsSound(Ready(s, e, env), env.unsent, env.rto, env.sendTime, env.wired);
    var n := BytesOf(Taken(TurnPicks(s, e, env), env.wired), s'.inFlight);
    assert s'.prober == Sent(h.prober, n);
    Prober.StepKeepsClimbing(h.prober, Prober.BytesSent(n));
  }

  /** Over whole runs. Entering the throttling phase does not slow the pacer down; every due timer puts it in step. */
  lemma {:induction false} PacerInStep(s: State, steps: seq<Step>)
    requires Runs(s, steps) && InStep(s)
    ensures InStep(End(s, steps))
    decreases |steps|
  {
    if steps != [] {
      TurnKeepsInStep(s, steps[0].event, steps[0].env);
      PacerInStep(Turn(s, steps[0].event, steps[0].env), steps[1..]);
    }
  }

  lemma InitialInStep(session: u32, now: real)
    ensures InStep(Initial(session, now))
  {
    Prober.FreshIsClimbing(now);
  }

  // ---- the highest speed ----

  /** No rate the prober holds or the pacer uses is above the top of the ladder, 2 Gbit/s. */
  ghost predicate Limited(s: State) {
    && 0.0 <= s.bucket.rate <= 250_000_000.0 && Sane(s.prober) && s.prober.bestRate <= 2_000_000_000
    && (s.prober.phase.Steady? ==> s.prober.phase.rate <= 2_000_000_000)
  }

  lemma EventKeepsLimited(s: State, e: Event, env: Env)
    requires Admits(s, e) && Limited(s)
    ensures Limited(Handled(s, e, env))
  {
    HandledProber(s, e, env);
  }

  lemma TurnKeepsLimited(s: State, e: Event, env: Env)
    requires Admits(s, e) && Limited(s)
    ensures Handled(s, e, env).bucket.rate <= 250_000_000.0 && Limited(Turn(s, e, env))
  {
    EventKeepsLimited(s, e, env);
  }

  lemma {:induction false} LimitedRates(s: State, steps: seq<Step>)
    requires Runs(s, steps) && Limited(s)
    ensures RatesAtMost(s, steps, 250_000_000.0)
    decreases |steps|
  {
    if steps != [] {
      TurnKeepsLimited(s, steps[0].event, steps[0].env);
      LimitedRates(Turn(s, steps[0].event, steps[0].env), steps[1..]);
    }
  }

  /** Whatever is acknowledged, lost or enqueued: a sender that has run for t seconds has put at most 1250 bytes plus
      250 million bytes times t into its batches. */
  lemma TopSpeed(session: u32, now: real, steps: seq<Step>)
    requires Runs(Initial(session, now), steps) && Forward(steps, now)
    ensures BytesPut(Initial(session, now), steps) as real
         <= 1250.0 + Allowed(250_000_000.0, now, LastTime(steps, now))
  {
    var s := Initial(session, now);
    LimitedRates(s, steps);
    PacedAtRate(s, steps, 250_000_000.0);
  }
}
