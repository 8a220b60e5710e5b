/** RTT estimation on 64-bit machine integers (crates/protocol/src/session.rs:89-122). */
module Session {
  import opened Bits

  const TWO63: int := 0x8000_0000_0000_0000

  /** `srtt_us` and `rttvar_us`, in microseconds; srtt is 0 until the first sample. */
  datatype Rtt = Rtt(srtt: u64, rttvar: u64)

  /** Reinterpretation of a word as i64, and of an integer as the i64 it wraps to. */
  function AsI64(x: int): (r: int)
    ensures -TWO63 <= r < TWO63
    ensures -TWO63 <= x < TWO63 ==> r == x
  {
    (x + TWO63) % TWO64 - TWO63
  }

  function Abs(x: int): nat { if x < 0 then -x else x }

  function Deviation(srtt: u64, sample: u64): u64 {
    Abs(AsI64(AsI64(srtt) - AsI64(sample)))
  }

  /** One sample, with every product and sum taken modulo 2^64. */
  function Updated(s: Rtt, sample: u64): Rtt {
    if s.srtt == 0 then Rtt(sample, sample / 2)
    else
      Rtt((7 * s.srtt % TWO64 / 8 + sample / 8) % TWO64,
          (3 * s.rttvar % TWO64 / 4 + Deviation(s.srtt, sample) / 4) % TWO64)
  }

  function SaturatingAdd(a: nat, b: nat): u64 {
    if a + b < TWO64 then a + b else TWO64 - 1
  }

  function RtoMicros(s: Rtt): (r: u64)
    ensures 200_000 <= r <= 10_000_000
  {
    var raw := SaturatingAdd(s.srtt, 4 * s.rttvar % TWO64);
    if raw < 200_000 then 200_000 else if raw > 10_000_000 then 10_000_000 else raw
  }

  /** The timeout in seconds. */
  function RtoOf(s: Rtt): real {
    RtoMicros(s) as real / 1_000_000.0
  }

  /** A timeout that `rto()` can return. */
  ghost predicate CanBeRto(seconds: real) {
    exists s :: seconds == RtoOf(s)
  }

  class SessionStats {
    var srtt: u64
    var rttvar: u64

    function Value(): Rtt
      reads this
    {
      Rtt(srtt, rttvar)
    }

    constructor ()
      ensures Value() == Rtt(0, 5000)
    {
      srtt, rttvar := 0, 5000;
    }

    method UpdateRtt(sample: u64)
      modifies this
      ensures Value() == Updated(old(Value()), sample)
    {
      var newSrtt, newRttvar: u64;
      if srtt == 0 {
        newSrtt, newRttvar := sample, sample / 2;
      } else {
        var deviation := Deviation(srtt, sample);
        newRttvar := (3 * rttvar % TWO64 / 4 + deviation / 4) % TWO64;
        newSrtt := (7 * srtt % TWO64 / 8 + sample / 8) % TWO64;
      }
      srtt, rttvar := newSrtt, newRttvar;
    }

    function Rto(): u64
      reads this
    {
      RtoMicros(Value())
    }
  }

  /** Before any sample the timeout is the smallest there is, a fifth of a second. */
  lemma FirstTimeout()
    ensures RtoOf(Rtt(0, 5000)) == 0.2
  {
  }

  // ---- one update on samples of at most 2^60 ----

  const MAX_RTT: nat := 0x1000_0000_0000_0000

  /** No operation overflows, so the update is the plain truncating one. */
  lemma NoOverflow(s: Rtt, sample: u64)
    requires s.srtt <= MAX_RTT && s.rttvar <= MAX_RTT && sample <= MAX_RTT
    ensures 7 * s.srtt < TWO63 && 3 * s.rttvar < TWO63 && 4 * s.rttvar < TWO63
    ensures Deviation(s.srtt, sample) == Abs(s.srtt - sample)
    ensures s.srtt != 0 ==>
      Updated(s, sample) == Rtt(7 * s.srtt / 8 + sample / 8, 3 * s.rttvar / 4 + Abs(s.srtt - sample) / 4)
  {
    DeviationExact(s.srtt, sample);
    Below64(7 * s.srtt);
    Below64(3 * s.rttvar);
    Below64(7 * s.srtt / 8 + sample / 8);
    Below64(3 * s.rttvar / 4 + Abs(s.srtt - sample) / 4);
  }

  /** The timeout of section 2 of RFC 6298, SRTT plus four times RTTVAR, kept between 0.2 and 10 seconds. */
  lemma TimeoutIs(s: Rtt)
    requires s.srtt <= MAX_RTT && s.rttvar <= MAX_RTT
    ensures var raw := s.srtt + 4 * s.rttvar;
      && (200_000 <= raw <= 10_000_000 ==> RtoMicros(s) == raw)
      && (raw < 200_000 ==> RtoMicros(s) == 200_000) && (raw > 10_000_000 ==> RtoMicros(s) == 10_000_000)
  {
    Below64(4 * s.rttvar);
  }

  lemma DeviationExact(srtt: u64, sample: u64)
    requires srtt <= MAX_RTT && sample <= MAX_RTT
    ensures Deviation(srtt, sample) == Abs(srtt - sample) <= MAX_RTT
  {
  }

  /** Sections 2.2 and 2.3 of RFC 6298 with alpha = 1/8 and beta = 1/4: the first sample sets (R, R/2);
      each later one is the RFC's real-valued update, low by less than two microseconds. */
  lemma FollowsRfc6298(s: Rtt, sample: u64)
    requires s.srtt <= MAX_RTT && s.rttvar <= MAX_RTT && sample <= MAX_RTT
    ensures var s' := Updated(s, sample);
      if s.srtt == 0 then
        s'.srtt == sample && 2 * s'.rttvar <= sample <= 2 * s'.rttvar + 1
      else
        && 8 * s'.srtt <= 7 * s.srtt + sample <= 8 * s'.srtt + 14
        && 4 * s'.rttvar <= 3 * s.rttvar + Abs(s.srtt - sample) <= 4 * s'.rttvar + 6
  {
    NoOverflow(s, sample);
  }

  // ---- whole runs ----

  function Run(s: Rtt, samples: seq<u64>): Rtt {
    if samples == [] then s else Updated(Run(s, samples[..|samples| - 1]), samples[|samples| - 1])
  }

  /** Once a sample in [m, M] is in, SRTT stays within [m - 14, M] and RTTVAR at most M. */
  lemma {:induction false} EstimatesStayInRange(samples: seq<u64>, m: nat, M: nat)
    requires M <= MAX_RTT && samples != []
    requires forall i | 0 <= i < |samples| :: m <= samples[i] <= M
    ensures var s := Run(Rtt(0, 5000), samples);
      m - 14 <= s.srtt <= M && s.rttvar <= M
  {
    var before := samples[..|samples| - 1];
    var r := samples[|samples| - 1];
    if before == [] {
      assert Run(Rtt(0, 5000), before) == Rtt(0, 5000);
    } else {
      EstimatesStayInRange(before, m, M);
      NoOverflow(Run(Rtt(0, 5000), before), r);
    }
  }

  function Repeated(s: Rtt, r: u64, n: nat): Rtt {
    if n == 0 then s else Updated(Repeated(s, r, n - 1), r)
  }

  /** SRTT within 14 below a constant sample, RTTVAR at most 12. */
  predicate Settled(s: Rtt, r: u64) {
    r - 14 <= s.srtt <= r && s.rttvar <= 12
  }

  function Above(t: Rtt, r: u64): nat { if t.srtt > r then t.srtt - r else 0 }
  function Below(t: Rtt, r: u64): nat { if t.srtt < r - 14 then r - t.srtt else 0 }

  /** Until both have settled, a constant sample pulls SRTT towards itself, and then RTTVAR down. */
  lemma UpdateApproaches(t: Rtt, r: u64)
    requires t.srtt <= MAX_RTT && t.rttvar <= MAX_RTT && r <= MAX_RTT && !Settled(t, r)
    ensures var t' := Updated(t, r);
      && t'.srtt <= MAX_RTT && t'.rttvar <= MAX_RTT
      && Above(t', r) <= Above(t, r)
      && (Above(t', r) == Above(t, r) ==> Below(t', r) <= Below(t, r))
      && (Above(t', r) == Above(t, r) && Below(t', r) == Below(t, r) ==> t'.rttvar < t.rttvar)
  {
    NoOverflow(t, r);
  }

  /** Under a constant sample, whatever came before, the estimates settle and stay settled. */
  lemma ConstantSampleSettles(s: Rtt, r: u64) returns (N: nat)
    requires s.srtt <= MAX_RTT && s.rttvar <= MAX_RTT && r <= MAX_RTT
    ensures forall n: nat | n >= N :: Settled(Repeated(s, r, n), r)
  {
    var n := 0;
    var t := s;
    while !Settled(t, r)
      invariant t == Repeated(s, r, n) && t.srtt <= MAX_RTT && t.rttvar <= MAX_RTT
      decreases Above(t, r), Below(t, r), t.rttvar
    {
      UpdateApproaches(t, r);
      t := Updated(t, r);
      n := n + 1;
    }
    N := n;
    forall k: nat | k >= N ensures Settled(Repeated(s, r, k), r) { StaysSettled(s, r, N, k); }
  }

  lemma {:induction false} StaysSettled(s: Rtt, r: u64, N: nat, k: nat)
    requires r <= MAX_RTT && N <= k && Settled(Repeated(s, r, N), r)
    ensures Settled(Repeated(s, r, k), r)
  {
    if k > N {
      StaysSettled(s, r, N, k - 1);
      NoOverflow(Repeated(s, r, k - 1), r);
    }
  }
}
