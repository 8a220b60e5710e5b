/** What the receive-side bitmap and its loss meter mean after a whole history of arrivals and heartbeats. */
module SackHistory {
  import opened Sack
  import opened SackManager

  // ---- the bitmap refines a set of arrivals ----

  /** `ps[i]` is the bitmap before the i-th arrival; the manager starts out claiming only what lies below `initial`. */
  ghost predicate History(initial: nat, arrivals: seq<nat>, ps: seq<Payload>) {
    && |ps| == |arrivals| + 1
    && ps[0].base == initial
    && (forall q: nat :: Received(ps[0], q) == (q < initial))
    && forall i | 0 <= i < |arrivals| :: Arrival(ps[i], arrivals[i], ps[i + 1])
  }

  /** `q` arrived among the first `n`, inside the window of that moment. */
  ghost predicate ArrivedInWindow(arrivals: seq<nat>, ps: seq<Payload>, n: nat, q: nat)
    requires n <= |arrivals| < |ps|
  {
    exists i | 0 <= i < n :: arrivals[i] == q && q < ps[i].base + SACK_WINDOW
  }

  /** After any history the bitmap claims exactly the numbers below `initial` and those that arrived
      inside the window of their moment, and its base is the least number it does not claim. */
  lemma {:induction false} ClaimsAreArrivals(initial: nat, arrivals: seq<nat>, ps: seq<Payload>, n: nat)
    requires History(initial, arrivals, ps) && n <= |arrivals|
    ensures forall q: nat :: Received(ps[n], q) <==> q < initial || ArrivedInWindow(arrivals, ps, n, q)
    ensures !Received(ps[n], ps[n].base) && initial <= ps[n].base
    ensures forall q: nat | q < ps[n].base :: Received(ps[n], q)
  {
    if n > 0 {
      ClaimsAreArrivals(initial, arrivals, ps, n - 1);
      assert Arrival(ps[n - 1], arrivals[n - 1], ps[n]);
      forall q: nat
        ensures Received(ps[n], q) <==> q < initial || ArrivedInWindow(arrivals, ps, n, q)
      {
        if ArrivedInWindow(arrivals, ps, n, q) && !ArrivedInWindow(arrivals, ps, n - 1, q) {
          assert arrivals[n - 1] == q && q < ps[n - 1].base + SACK_WINDOW;
        }
        if q == arrivals[n - 1] && q < ps[n - 1].base + SACK_WINDOW {
          assert ArrivedInWindow(arrivals, ps, n, q);
        }
      }
    }
  }

  /** Everything between the first expected number and the base really arrived, and no claim is invented. */
  lemma OnlyArrivalsClaimed(initial: nat, arrivals: seq<nat>, ps: seq<Payload>, n: nat, q: nat)
    requires History(initial, arrivals, ps) && n <= |arrivals|
    requires q >= initial && Received(ps[n], q)
    ensures q in arrivals[..n]
  {
    ClaimsAreArrivals(initial, arrivals, ps, n);
    var i :| 0 <= i < n && arrivals[i] == q && q < ps[i].base + SACK_WINDOW;
    assert arrivals[..n][i] == q;
  }

  /** When no arrival overran the window of its moment, the bitmap is exactly the set of arrivals. */
  lemma InWindowHistoryIsExact(initial: nat, arrivals: seq<nat>, ps: seq<Payload>, n: nat)
    requires History(initial, arrivals, ps) && n <= |arrivals|
    requires forall i | 0 <= i < n :: arrivals[i] < ps[i].base + SACK_WINDOW
    ensures forall q: nat :: Received(ps[n], q) <==> q < initial || q in arrivals[..n]
  {
    ClaimsAreArrivals(initial, arrivals, ps, n);
    forall q: nat ensures Received(ps[n], q) <==> q < initial || q in arrivals[..n] {
      if q in arrivals[..n] {
        var i :| 0 <= i < n && arrivals[..n][i] == q;
        assert arrivals[i] == q;
      }
    }
  }

  // ---- the loss meter over a history ----

  datatype Event = Arrive(sn: nat) | Heartbeat

  function Fresh(initial: nat): Meter {
    Meter(0, 0, initial, 0.0, 5)
  }

  function MeterStep(m: Meter, e: Event): Meter {
    match e
    case Arrive(sn) => MeterArrival(m, sn)
    case Heartbeat => MeterTick(m)
  }

  /** The meter after the events `es`, starting from `m`. */
  function MeterFrom(m: Meter, es: seq<Event>): Meter {
    if es == [] then m else MeterStep(MeterFrom(m, es[..|es| - 1]), es[|es| - 1])
  }

  lemma {:induction false} MeterJoins(m: Meter, a: seq<Event>, b: seq<Event>)
    ensures MeterFrom(m, a + b) == MeterFrom(MeterFrom(m, a), b)
    decreases |b|
  {
    if b == [] {
      assert a + b == a;
    } else {
      MeterJoins(m, a, b[..|b| - 1]);
      assert (a + b)[..|a + b| - 1] == a + b[..|b| - 1];
    }
  }

  function MeterAfter(initial: nat, es: seq<Event>): Meter {
    MeterFrom(Fresh(initial), es)
  }

  /** What all past heartbeats reported as expected. */
  function ReportedExpected(initial: nat, es: seq<Event>): nat {
    if es == [] then 0
    else
      var before := es[..|es| - 1];
      ReportedExpected(initial, before) +
      if es[|es| - 1].Heartbeat? then MeterAfter(initial, before).expected else 0
  }

  /** One past the highest arrival, or `initial` when none reached it. */
  function HighWater(initial: nat, es: seq<Event>): nat {
    if es == [] then initial
    else
      var h := HighWater(initial, es[..|es| - 1]);
      match es[|es| - 1]
      case Arrive(sn) => if sn >= h then sn + 1 else h
      case Heartbeat => h
  }

  /** Loss accounting telescopes: nothing expected is counted twice or lost across heartbeats. */
  lemma {:induction false} ExpectedTelescopes(initial: nat, es: seq<Event>)
    ensures var m := MeterAfter(initial, es);
      && m.nextExpected == HighWater(initial, es)
      && ReportedExpected(initial, es) + m.expected == m.nextExpected - initial
      && 0.0 <= m.lossEma <= 1.0
  {
    if es != [] { ExpectedTelescopes(initial, es[..|es| - 1]); }
  }

  /** How many packets arrived after the last heartbeat, late and repeated ones included. */
  function ArrivalsSince(es: seq<Event>): nat {
    if es == [] || es[|es| - 1].Heartbeat? then 0 else ArrivalsSince(es[..|es| - 1]) + 1
  }

  lemma {:induction false} PacketsAreArrivals(initial: nat, es: seq<Event>)
    ensures MeterAfter(initial, es).packets == ArrivalsSince(es)
  {
    if es != [] { PacketsAreArrivals(initial, es[..|es| - 1]); }
  }

  /** The share of the numbers an interval expected that did not arrive; a surplus of late packets counts as none. */
  lemma LossIsMissingShare(received: nat, expected: nat)
    requires expected > 0
    ensures var loss := IntervalLoss(received, expected);
      loss * expected as real == if received < expected then (expected - received) as real else 0.0
  {
  }

  // ---- steady loss ----

  function Power(x: real, n: nat): (r: real)
    requires x >= 0.0
    ensures r >= 0.0
  {
    if n == 0 then 1.0 else x * Power(x, n - 1)
  }

  /** The estimate after n heartbeats that each report loss p, starting from e0. */
  function EmaAfter(e0: real, p: real, n: nat): real {
    if n == 0 then e0 else 0.75 * EmaAfter(e0, p, n - 1) + 0.25 * p
  }

  function Heartbeats(es: seq<Event>): nat {
    if es == [] then 0 else Heartbeats(es[..|es| - 1]) + if es[|es| - 1].Heartbeat? then 1 else 0
  }

  /** Every heartbeat among `es` closes a non-idle interval of loss p. */
  ghost predicate ConstantLoss(m: Meter, es: seq<Event>, p: real) {
    es == [] ||
    var before := es[..|es| - 1];
    && ConstantLoss(m, before, p)
    && (es[|es| - 1].Heartbeat? ==>
          var m' := MeterFrom(m, before);
          m'.expected > 0 && IntervalLoss(m'.packets, m'.expected) == p)
  }

  /** However arrivals and heartbeats interleave, only the number of heartbeats matters. */
  lemma {:induction false} SteadyLossIsEma(m: Meter, es: seq<Event>, p: real)
    requires ConstantLoss(m, es, p)
    ensures MeterFrom(m, es).lossEma == EmaAfter(m.lossEma, p, Heartbeats(es))
    ensures Heartbeats(es) > 0 ==> MeterFrom(m, es).intervalMs == Band(MeterFrom(m, es).lossEma)
  {
    if es != [] { SteadyLossIsEma(m, es[..|es| - 1], p); }
  }

  lemma PullFactor(d: real, w: real, v: real)
    requires v == 0.75 * w
    ensures d * v == 0.75 * (d * w)
  {
  }

  lemma TimesOne(d: real, w: real)
    requires w == 1.0
    ensures d * w == d
  {
  }

  /** Under constant loss p an estimate that is off by d closes in on p geometrically. */
  lemma {:induction false} EmaClosedForm(d: real, p: real, n: nat)
    ensures EmaAfter(p + d, p, n) == p + d * Power(0.75, n)
  {
    if n > 0 {
      EmaClosedForm(d, p, n - 1);
      PullFactor(d, Power(0.75, n - 1), Power(0.75, n));
    } else {
      TimesOne(d, Power(0.75, n));
    }
  }

  /** (3/4)^n (1 + n/3) <= 1. */
  lemma {:induction false} PowerShrinks(n: nat)
    ensures 0.0 < Power(0.75, n) <= 1.0
    ensures Power(0.75, n) * (3.0 + n as real) <= 3.0
  {
    if n > 0 {
      PowerShrinks(n - 1);
      var w := Power(0.75, n - 1);
      var m := (n - 1) as real;
      assert w * (4.0 + m) == w * (3.0 + m) + w;
      assert (0.75 * w) * (4.0 + m) == 0.75 * (w * (4.0 + m));
    }
  }

  /** From some heartbeat on the estimate is within `gap` of p, and never on the other side of p than e0. */
  lemma EmaConverges(e0: real, p: real, gap: real) returns (N: nat)
    requires 0.0 <= e0 <= 1.0 && 0.0 <= p <= 1.0 && gap > 0.0
    ensures forall n: nat | n >= N :: -gap < EmaAfter(e0, p, n) - p < gap
  {
    N := (3.0 / gap).Floor + 1;
    assert p + (e0 - p) == e0;
    forall n: nat | n >= N ensures -gap < EmaAfter(e0, p, n) - p < gap { WithinGap(e0 - p, p, gap, n); }
  }

  lemma WithinGap(d: real, p: real, gap: real, n: nat)
    requires -1.0 <= d <= 1.0 && gap > 0.0 && n as real > 3.0 / gap
    ensures -gap < EmaAfter(p + d, p, n) - p < gap
  {
    EmaClosedForm(d, p, n);
    PowerShrinks(n);
    var w := Power(0.75, n);
    BelowGap(w, gap, n as real);
    ScaledBelow(d, w, gap);
  }

  lemma ScaledBelow(d: real, w: real, gap: real)
    requires -1.0 <= d <= 1.0 && 0.0 < w < gap
    ensures -gap < d * w < gap
  {
    ScaledDown(d, w);
  }

  lemma BelowGap(w: real, gap: real, n: real)
    requires gap > 0.0 && n > 3.0 / gap && w * (3.0 + n) <= 3.0
    ensures w < gap
  {
    var q := 3.0 / gap;
    assert q * gap == 3.0;
    assert (3.0 + n) * gap > q * gap;
    assert w >= gap ==> w * (3.0 + n) >= gap * (3.0 + n);
  }

  lemma ScaledDown(d: real, w: real)
    requires -1.0 <= d <= 1.0 && w > 0.0
    ensures -w <= d * w <= w
    ensures d <= 0.0 ==> d * w <= 0.0
    ensures d > 0.0 ==> d * w > 0.0
  {
  }

  lemma EmaStaysOnSide(d: real, p: real, n: nat)
    requires -1.0 <= d <= 1.0
    ensures d <= 0.0 ==> EmaAfter(p + d, p, n) <= p
    ensures d > 0.0 ==> EmaAfter(p + d, p, n) > p
  {
    EmaClosedForm(d, p, n);
    PowerShrinks(n);
    ScaledDown(d, Power(0.75, n));
  }

  /** From some heartbeat on, the interval is the one of p's own band. */
  ghost predicate Settles(e0: real, p: real) {
    exists N: nat :: SettledFrom(e0, p, N)
  }

  ghost predicate SettledFrom(e0: real, p: real, N: nat) {
    forall n: nat | n >= N :: Band(EmaAfter(e0, p, n)) == Band(p)
  }

  function Min(a: real, b: real): real { if a <= b then a else b }
  function Dist(a: real, b: real): real { if a <= b then b - a else a - b }

  /** The heartbeat interval settles in the band of the loss, except when the loss sits exactly on a
      band's edge and the estimate starts above it: then the estimate never comes down to the edge. */
  lemma SettlesUnlessAboveEdge(e0: real, p: real)
    requires 0.0 <= e0 <= 1.0 && 0.0 <= p <= 1.0
    ensures Settles(e0, p) <==> !((p == 0.10 || p == 0.20) && e0 > p)
  {
    var gap := if p == 0.10 || p == 0.20 then 0.05 else Min(Dist(p, 0.10), Dist(p, 0.20));
    var N := EmaConverges(e0, p, gap);
    assert p + (e0 - p) == e0;
    if (p == 0.10 || p == 0.20) && e0 > p {
      forall M: nat ensures !SettledFrom(e0, p, M) {
        EmaStaysOnSide(e0 - p, p, M);
        assert Band(EmaAfter(e0, p, M)) != Band(p);
      }
    } else {
      forall n: nat | n >= N ensures Band(EmaAfter(e0, p, n)) == Band(p) {
        EmaStaysOnSide(e0 - p, p, n);
      }
      assert SettledFrom(e0, p, N);
    }
  }
}
