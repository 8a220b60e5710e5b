/** What the bandwidth prober's state means after any run: it locks onto the best observed step. */
module Prober {
  import opened Bytes
  import opened Congestion

  datatype Event = BytesSent(n: nat) | BytesAcked(n: nat, now: real) | Timer(now: real)

  function Step(p: Congestion.Prober, e: Event): (Congestion.Prober, Option<nat>)
    requires Sane(p)
  {
    match e
    case BytesSent(n) => (Sent(p, n), None)
    case BytesAcked(n, now) => Acked(p, n, now)
    case Timer(now) => Evaluated(p, now)
  }

  function After(p: Congestion.Prober, es: seq<Event>): (p': Congestion.Prober)
    requires Sane(p)
    ensures Sane(p')
    decreases |es|
  {
    if es == [] then p else After(Step(p, es[0]).0, es[1..])
  }

  // ---- the best step ----

  /** `goodput` is the highest ratio of the first k steps and `rate` the lowest rung attaining it
      (the first rung when every ratio is zero). */
  ghost predicate BestOf(rs: seq<ProbeResult>, k: nat, goodput: real, rate: nat)
    requires k <= |rs| == STEPS
  {
    && (forall i | 0 <= i < k :: Ratio(rs[i]) <= goodput)
    && ((goodput == 0.0 && rate == StepRate(0)) ||
        exists j: nat | j < k :: Attains(rs, j, goodput, rate))
  }

  ghost predicate Attains(rs: seq<ProbeResult>, j: nat, goodput: real, rate: nat)
    requires j < |rs| == STEPS
  {
    && goodput > 0.0 && Ratio(rs[j]) == goodput && rate == StepRate(j)
    && forall i | 0 <= i < j :: Ratio(rs[i]) < goodput
  }

  /** No step before the k-th dropped below 0.95 of its predecessor. */
  ghost predicate NoDropBefore(rs: seq<ProbeResult>, k: nat)
    requires k <= |rs|
  {
    forall i | 0 < i < k :: Ratio(rs[i]) >= Ratio(rs[i - 1]) * 0.95
  }

  /** A climb of n steps that was over: the ladder ended, or the last step dropped. */
  ghost predicate FinishedClimb(p: Congestion.Prober, n: nat)
    requires |p.results| == STEPS
  {
    && 1 <= n <= STEPS
    && BestOf(p.results, n, p.bestGoodput, p.bestRate)
    && NoDropBefore(p.results, n - 1)
    && (n == STEPS || (n >= 2 && Ratio(p.results[n - 1]) < Ratio(p.results[n - 2]) * 0.95))
  }

  ghost predicate Climbing(p: Congestion.Prober) {
    && Sane(p)
    && match p.phase
       case Probing(k) => BestOf(p.results, k, p.bestGoodput, p.bestRate) && NoDropBefore(p.results, k)
       case Steady(r) => r == p.bestRate && exists n :: FinishedClimb(p, n)
       case Throttling => true
  }

  /** One more result keeps the best. */
  lemma BestGrows(rs: seq<ProbeResult>, i: nat, r: ProbeResult, goodput: real, rate: nat)
    requires i < |rs| == STEPS && BestOf(rs, i, goodput, rate)
    ensures var better := Ratio(r) > goodput;
      BestOf(rs[i := r], i + 1, if better then Ratio(r) else goodput, if better then StepRate(i) else rate)
  {
    var rs' := rs[i := r];
    if Ratio(r) > goodput {
      assert Attains(rs', i, Ratio(r), StepRate(i));
    } else if !(goodput == 0.0 && rate == StepRate(0)) {
      var j: nat :| j < i && Attains(rs, j, goodput, rate);
      assert Attains(rs', j, goodput, rate);
    }
  }

  /** Recording one more step keeps the invariant. */
  lemma RecordStep(p: Congestion.Prober, now: real, i: nat)
    requires Climbing(p) && p.phase == Probing(i) && Due(p, now)
    ensures Climbing(Evaluated(p, now).0)
  {
    var p' := Evaluated(p, now).0;
    BestGrows(p.results, i, ProbeResult(p.sent, p.acked), p.bestGoodput, p.bestRate);
    if p'.phase.Steady? { assert FinishedClimb(p', i + 1); }
  }

  lemma StepKeepsClimbing(p: Congestion.Prober, e: Event)
    requires Climbing(p)
    ensures Climbing(Step(p, e).0)
  {
    var p' := Step(p, e).0;
    if p.phase.Probing? && e.Timer? && Due(p, e.now) {
      RecordStep(p, e.now, p.phase.step);
    } else if p'.phase == p.phase && SameChoice(p, p') {
      SameClimb(p, p');
    } else if !p'.phase.Throttling? {
      assert p'.phase == Probing(0) && p'.bestGoodput == 0.0 && p'.bestRate == StepRate(0);
      FreshClimb(p');
    }
  }

  ghost predicate SameChoice(p: Congestion.Prober, p': Congestion.Prober) {
    p'.results == p.results && p'.bestGoodput == p.bestGoodput && p'.bestRate == p.bestRate
  }

  /** A climb is a fact about the recorded results and the choice made from them. */
  lemma SameClimb(p: Congestion.Prober, p': Congestion.Prober)
    requires Climbing(p) && Sane(p') && p'.phase == p.phase && SameChoice(p, p')
    ensures Climbing(p')
  {
    if p.phase.Steady? {
      var n :| FinishedClimb(p, n);
      assert FinishedClimb(p', n);
    }
  }

  lemma FreshClimb(p: Congestion.Prober)
    requires Sane(p) && p.phase == Probing(0) && p.bestGoodput == 0.0 && p.bestRate == StepRate(0)
    ensures Climbing(p)
  {
  }

  /** In every reachable state: while probing, the best so far; when steady, the best of a finished climb. */
  lemma {:induction false} AlwaysOnBest(p: Congestion.Prober, es: seq<Event>)
    requires Climbing(p)
    ensures Climbing(After(p, es))
    decreases |es|
  {
    if es != [] {
      StepKeepsClimbing(p, es[0]);
      AlwaysOnBest(Step(p, es[0]).0, es[1..]);
    }
  }

  lemma FreshIsClimbing(now: real)
    ensures Climbing(FreshProber(now))
  {
  }

  /** A reported rate is the rate now in force, and silence means it did not change. */
  lemma ReportsAreCurrent(p: Congestion.Prober, e: Event)
    requires Climbing(p)
    ensures var (p', change) := Step(p, e);
      match change
      case Some(r) => Sane(p') && CurrentRate(p') == r
      case None => Sane(p') && CurrentRate(p') == CurrentRate(p)
  {
    StepKeepsClimbing(p, e);
  }

  // ---- progress ----

  function DueTimers(p: Congestion.Prober, es: seq<Event>): nat
    requires Sane(p)
    decreases |es|
  {
    if es == [] then 0
    else (if es[0].Timer? && Due(p, es[0].now) then 1 else 0) + DueTimers(Step(p, es[0]).0, es[1..])
  }

  ghost predicate NeverThrottles(p: Congestion.Prober, es: seq<Event>)
    requires Sane(p)
    decreases |es|
  {
    !p.phase.Throttling? && (es != [] ==> NeverThrottles(Step(p, es[0]).0, es[1..]))
  }

  /** Without throttling, a climb at rung k is over within STEPS - k due evaluations. */
  lemma {:induction false} SteadyInTime(p: Congestion.Prober, es: seq<Event>, k: nat) returns (n: nat)
    requires Sane(p) && p.phase == Probing(k)
    requires NeverThrottles(p, es) && DueTimers(p, es) >= STEPS - k
    ensures n <= |es| && After(p, es[..n]).phase.Steady?
    decreases |es|
  {
    var p1 := Step(p, es[0]).0;
    assert NeverThrottles(p1, es[1..]);
    if p1.phase.Steady? {
      n := 1;
      assert es[..1][1..] == [];
      assert After(p, es[..1]) == After(p1, []);
    } else {
      var m := SteadyInTime(p1, es[1..], p1.phase.step);
      n := m + 1;
      assert es[..n][0] == es[0] && es[..n][1..] == es[1..][..m];
    }
  }

  // ---- which rung that is ----

  /** A finished climb chose the first rung exactly when no later step recorded a better ratio. */
  lemma FirstRungKept(p: Congestion.Prober, n: nat)
    requires |p.results| == STEPS && FinishedClimb(p, n)
    ensures p.bestRate == StepRate(0) <==> forall i | 0 <= i < n :: Ratio(p.results[i]) <= Ratio(p.results[0])
  {
    if !(p.bestGoodput == 0.0 && p.bestRate == StepRate(0)) {
      var j: nat :| j < n && Attains(p.results, j, p.bestGoodput, p.bestRate);
      assert StepRate(j) == StepRate(0) <==> j == 0;
    }
  }

  /** Past the first step of a climb that had a full ratio there, or settled after it. */
  ghost predicate OnFullFirstStep(p: Congestion.Prober) {
    && Sane(p) && p.bestGoodput == 1.0 && p.bestRate == StepRate(0)
    && ((p.phase.Probing? && p.phase.step > 0) || p.phase == Steady(StepRate(0)))
  }

  /** No throttling and no new climb after any of the events. */
  ghost predicate Uninterrupted(p: Congestion.Prober, es: seq<Event>)
    requires Sane(p)
    decreases |es|
  {
    !p.phase.Throttling? && p.phase != Probing(0) && (es != [] ==> Uninterrupted(Step(p, es[0]).0, es[1..]))
  }

  lemma {:induction false} FullFirstStepKept(p: Congestion.Prober, es: seq<Event>)
    requires OnFullFirstStep(p) && Uninterrupted(p, es)
    ensures OnFullFirstStep(After(p, es))
    decreases |es|
  {
    if es != [] {
      assert OnFullFirstStep(Step(p, es[0]).0);
      FullFirstStepKept(Step(p, es[0]).0, es[1..]);
    }
  }

  /** If at the first evaluation of a climb everything sent so far has been acknowledged, the prober settles at the
      bottom of the ladder, whatever the higher rungs would carry, until it throttles or climbs again. */
  lemma FullFirstStepDecides(p: Congestion.Prober, now: real, es: seq<Event>)
    requires Climbing(p) && p.phase == Probing(0) && Due(p, now) && 0 < p.sent <= p.acked
    requires Uninterrupted(Step(p, Timer(now)).0, es)
    ensures var p' := After(Step(p, Timer(now)).0, es);
      && p'.bestGoodput == 1.0 && p'.bestRate == StepRate(0)
      && (p'.phase.Steady? ==> CurrentRate(p') == StepRate(0))
  {
    FullRatio(p.sent, p.acked);
    FullFirstStepKept(Step(p, Timer(now)).0, es);
  }

  lemma FullRatio(sent: nat, acked: nat)
    requires 0 < sent
    ensures Ratio(ProbeResult(sent, acked)) == 1.0 <==> acked >= sent
  {
    AtLeastOne(acked as real, sent as real);
  }

  lemma AtLeastOne(x: real, y: real)
    requires y > 0.0
    ensures x / y >= 1.0 <==> x >= y
  {
    var q := x / y;
    assert q * y == x;
    if q >= 1.0 { assert (q - 1.0) * y >= 0.0; } else { assert (1.0 - q) * y > 0.0; }
  }

  // ---- acknowledgements that come late ----

  /** A step of 100 bytes with `acked` bytes acknowledged by its evaluation. */
  function Round(acked: nat, now: real): seq<Event> {
    [BytesSent(100), BytesAcked(acked, now), Timer(now)]
  }

  /** n steps in a row, each evaluated half a second after the one before, with everything acknowledged in time. */
  function FullRounds(n: nat, now: real): seq<Event> {
    if n == 0 then [] else Round(100, now) + FullRounds(n - 1, now + STEP_SECONDS)
  }

  /** Everything sent is acknowledged, but ten bytes of the first step only during the second. */
  function LateAcks(): seq<Event> {
    Round(90, 0.5) + (Round(110, 1.0) + FullRounds(5, 1.5))
  }

  lemma {:induction false} AfterAppend(p: Congestion.Prober, a: seq<Event>, b: seq<Event>)
    requires Sane(p)
    ensures After(p, a + b) == After(After(p, a), b)
    decreases |a|
  {
    if a == [] {
      assert a + b == b;
    } else {
      AfterAppend(Step(p, a[0]).0, a[1..], b);
      assert (a + b)[1..] == a[1..] + b;
    }
  }

  /** One such step on rung i, from freshly reset counters. */
  lemma RoundTaken(p: Congestion.Prober, i: nat, acked: nat, now: real)
    requires Sane(p) && p.phase == Probing(i) && p.sent == p.acked == 0
    requires Due(p, now) && 0.0 <= p.lossEma <= 0.1 && acked >= 90
    ensures var r := ProbeResult(100, acked);
      var p' := After(p, Round(acked, now));
      && p'.results == p.results[i := r] && p'.sent == p'.acked == 0 && p'.stepStart == now && 0.0 <= p'.lossEma <= 0.1
      && p'.bestGoodput == (if Ratio(r) > p.bestGoodput then Ratio(r) else p.bestGoodput)
      && p'.bestRate == (if Ratio(r) > p.bestGoodput then StepRate(i) else p.bestRate)
      && p'.phase == (if ClimbEnds(p', i, Ratio(r)) then Steady(p'.bestRate) else Probing(i + 1))
  {
    var es := Round(acked, now);
    var p1 := Sent(p, 100);
    var p2 := Acked(p1, acked, now).0;
    assert Ratio(ProbeResult(100, acked)) >= 0.9;
    assert p2.phase == p.phase && 0.0 <= p2.lossEma <= 0.1;
    assert es[1..] == [BytesAcked(acked, now), Timer(now)] && es[1..][1..] == [Timer(now)] && es[1..][1..][1..] == [];
    assert After(p, es) == After(p1, es[1..]) == After(p2, es[1..][1..]) == Evaluated(p2, now).0;
  }

  /** After a full best ratio, full steps to the end of the ladder settle on the rung that had it first. */
  lemma {:induction false} FullRoundsSettle(p: Congestion.Prober, i: nat, now: real)
    requires Sane(p) && p.phase == Probing(i) && p.sent == p.acked == 0 && p.bestGoodput == 1.0
    requires p.stepStart == now - STEP_SECONDS && 0.0 <= p.lossEma <= 0.1
    ensures After(p, FullRounds(STEPS - i, now)).phase == Steady(p.bestRate)
    decreases STEPS - i
  {
    var rest := FullRounds(STEPS - i - 1, now + STEP_SECONDS);
    AfterAppend(p, Round(100, now), rest);
    RoundTaken(p, i, 100, now);
    var p' := After(p, Round(100, now));
    if i + 1 < STEPS {
      FullRoundsSettle(p', i + 1, now + STEP_SECONDS);
    } else {
      assert rest == [];
    }
  }

  /** That everything is acknowledged in the end is not enough: an acknowledgement that arrives after its step was
      evaluated makes the next step look better, and the prober settles on the second rung. */
  lemma LateAcksLeaveFirstRung()
    ensures After(FreshProber(0.0), LateAcks()).phase == Steady(StepRate(1))
  {
    var p0 := FreshProber(0.0);
    RoundTaken(p0, 0, 90, 0.5);
    AfterAppend(p0, Round(90, 0.5), Round(110, 1.0) + FullRounds(5, 1.5));
    SecondRungTaken(After(p0, Round(90, 0.5)));
  }

  lemma SecondRungTaken(p: Congestion.Prober)
    requires Sane(p) && p.phase == Probing(1) && p.sent == p.acked == 0 && p.stepStart == 0.5
    requires 0.0 <= p.lossEma <= 0.1 && p.bestGoodput < 1.0
    ensures After(p, Round(110, 1.0) + FullRounds(5, 1.5)).phase == Steady(StepRate(1))
  {
    RoundTaken(p, 1, 110, 1.0);
    AfterAppend(p, Round(110, 1.0), FullRounds(5, 1.5));
    FullRatio(100, 110);
    FullRoundsSettle(After(p, Round(110, 1.0)), 2, 1.5);
  }
}
