/** The receive-side bitmap manager: cumulative acknowledgement and the adaptive heartbeat
    (crates/protocol/src/sack.rs:186-292). */
module SackManager {
  import opened Bits
  import opened Sack

  /** What one arrival does to the bitmap: `sn` is recorded when it lies in the window, nothing
      else changes, and the base moves to the least number not received. */
  ghost predicate Arrival(p: Payload, sn: nat, p': Payload) {
    && Canonical(p')
    && p.base <= p'.base <= p.base + SACK_WINDOW
    && !Received(p', p'.base)
    && forall q: nat :: Received(p', q) == (Received(p, q) || (q == sn && sn < p.base + SACK_WINDOW))
  }

  /** The relation leaves no choice: `Arrival` pins down the whole payload. */
  lemma ArrivalDetermines(p: Payload, sn: nat, p': Payload, p'': Payload)
    requires Arrival(p, sn, p') && Arrival(p, sn, p'')
    ensures p' == p''
  {
    assert Received(p', p''.base) == Received(p'', p''.base);
    assert Received(p', p'.base) == Received(p'', p'.base);
    assert p'.base == p''.base;
    ClaimsDetermine(p', p'');
  }

  /** Loss measurement between heartbeats, with the smoothed estimate as a real. */
  datatype Meter = Meter(packets: nat, expected: nat, nextExpected: nat, lossEma: real, intervalMs: nat)

  function MeterArrival(m: Meter, sn: nat): Meter {
    var m' := if sn >= m.nextExpected
              then m.(expected := m.expected + (sn - m.nextExpected + 1), nextExpected := sn + 1)
              else m;
    m'.(packets := m.packets + 1)
  }

  function IntervalLoss(received: nat, expected: nat): (r: real)
    requires expected > 0
    ensures 0.0 <= r <= 1.0
  {
    if received >= expected then 0.0
    else
      var missing := expected - received;
      assert missing as real <= expected as real;
      missing as real / expected as real
  }

  function Band(loss: real): nat {
    if loss > 0.20 then 1 else if loss > 0.10 then 3 else 5
  }

  function MeterTick(m: Meter): Meter {
    var ema := if m.expected > 0 then 0.75 * m.lossEma + 0.25 * IntervalLoss(m.packets, m.expected) else m.lossEma;
    Meter(0, 0, m.nextExpected, ema, Band(ema))
  }

  class Manager {
    const payload: SackPayload
    var packetsSince: nat
    var expectedSince: nat
    var intervalMs: nat
    var nextExpected: nat
    var lossEma: real

    ghost predicate Valid()
      reads this, payload, payload.words
    {
      payload.Valid()
    }

    function Value(): Payload
      reads this, payload, payload.words
    {
      payload.Value()
    }

    function Meters(): Meter
      reads this
    {
      Meter(packetsSince, expectedSince, nextExpected, lossEma, intervalMs)
    }

    constructor (initial: u64)
      ensures Valid() && fresh(payload) && fresh(payload.words)
      ensures forall q: nat :: Received(Value(), q) == (q < initial)
      ensures Value().base == initial
      ensures Meters() == Meter(0, 0, initial, 0.0, 5)
    {
      payload := new SackPayload(initial);
      packetsSince, expectedSince, intervalMs, nextExpected, lossEma := 0, 0, 5, initial, 0.0;
    }

    /** Counts, marks, then slides the base over the contiguous prefix, at most 1024 steps. */
    method OnPacketReceived(sn: u64)
      requires Valid()
      requires sn + 1 < TWO64 && Value().base + SACK_WINDOW < TWO64
      modifies this, payload, payload.words
      ensures Valid()
      ensures Arrival(old(Value()), sn, Value())
      ensures Meters() == MeterArrival(old(Meters()), sn)
    {
      if sn >= nextExpected {
        expectedSince := expectedSince + (sn - nextExpected + 1);
        nextExpected := sn + 1;
      }
      packetsSince := packetsSince + 1;
      ghost var p := payload.Value();
      payload.MarkReceived(sn);

      var newBase := payload.base;
      while payload.IsReceived(newBase)
        invariant payload.base <= newBase <= payload.base + SACK_WINDOW
        invariant forall q: nat | q < newBase :: Received(payload.Value(), q)
        decreases payload.base + SACK_WINDOW - newBase
      {
        newBase := newBase + 1;
      }
      ghost var marked := payload.Value();
      if newBase > payload.base {
        payload.AdvanceBase(newBase);
      }
      SlideKeepsClaims(p, sn, marked, payload.Value(), newBase);
    }

    /** The heartbeat: folds the interval's loss into the estimate, resets the counters, adapts the interval. */
    method Tick() returns (sack: Payload)
      requires Valid()
      modifies this
      ensures Valid() && sack == Value() == old(Value())
      ensures Meters() == MeterTick(old(Meters()))
    {
      if expectedSince > 0 {
        lossEma := 0.75 * lossEma + 0.25 * IntervalLoss(packetsSince, expectedSince);
      }
      packetsSince, expectedSince := 0, 0;
      intervalMs := if lossEma > 0.20 then 1 else if lossEma > 0.10 then 3 else 5;
      sack := payload.Value();
    }
  }

  /** Sliding to the first unreceived number changes no claim. */
  lemma SlideKeepsClaims(p: Payload, sn: nat, marked: Payload, p': Payload, newBase: nat)
    requires Canonical(p') && p'.base == newBase
    requires p.base == marked.base <= newBase <= p.base + SACK_WINDOW
    requires forall q: nat :: Received(marked, q) == (Received(p, q) || (q == sn && sn < p.base + SACK_WINDOW))
    requires forall q: nat | q < newBase :: Received(marked, q)
    requires !Received(marked, newBase)
    requires p' == marked || forall q: nat :: Received(p', q) == (q < newBase || Received(marked, q))
    ensures Arrival(p, sn, p')
  {
    forall q: nat ensures Received(p', q) == Received(marked, q) {}
  }
}
