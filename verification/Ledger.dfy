/** What the prober knows about a step is what happened in it: the bytes the kernel took and the bytes SACKs removed
    from flight since the step began. */
module Ledger {
  import opened Bits
  import opened Bytes
  import opened Seqs
  import opened Sack
  import opened Congestion
  import opened Sender
  import opened SenderFacts
  import opened Pacing

  // ---- bytes in flight ----

  ghost function TotalBytes(m: map<u64, Entry>): nat
    decreases |m|
  {
    if m == map[] then 0
    else
      var q :| q in m;
      |m[q].datagram| + TotalBytes(m - {q})
  }

  lemma {:induction false} TotalWithout(m: map<u64, Entry>, q: u64)
    requires q in m
    ensures TotalBytes(m) == |m[q].datagram| + TotalBytes(m - {q})
    decreases |m|
  {
    var p :| p in m && TotalBytes(m) == |m[p].datagram| + TotalBytes(m - {p});
    if p != q {
      TotalWithout(m - {p}, q);
      TotalWithout(m - {q}, p);
      assert (m - {p}) - {q} == (m - {q}) - {p};
    }
  }

  lemma {:induction false} TotalSame(m: map<u64, Entry>, m': map<u64, Entry>)
    requires m.Keys == m'.Keys && forall q | q in m :: m'[q].datagram == m[q].datagram
    ensures TotalBytes(m) == TotalBytes(m')
    decreases |m|
  {
    if m == map[] {
      assert m' == map[];
    } else {
      var q :| q in m;
      TotalWithout(m, q);
      TotalWithout(m', q);
      TotalSame(m - {q}, m' - {q});
    }
  }

  lemma {:induction false} BytesOfOthers(qs: seq<u64>, m: map<u64, Entry>, q: u64)
    requires q !in qs
    ensures BytesOf(qs, m - {q}) == BytesOf(qs, m)
  {
    if qs != [] { BytesOfOthers(qs[1..], m, q); }
  }

  /** Taking distinct packets out takes exactly their bytes out. */
  lemma {:induction false} TotalExcept(m: map<u64, Entry>, qs: seq<u64>)
    requires Distinct(qs) && AllInFlight(qs, m)
    ensures TotalBytes(m) == BytesOf(qs, m) + TotalBytes(Except(m, qs))
    decreases |qs|
  {
    if qs == [] {
      assert Except(m, qs) == m;
    } else {
      var q, rest := qs[0], qs[1..];
      assert Distinct(rest) && q !in rest;
      TotalWithout(m, q);
      TotalExcept(m - {q}, rest);
      BytesOfOthers(rest, m, q);
      HeadSplit(qs);
      assert Except(m - {q}, rest) == Except(m, qs);
    }
  }

  // ---- one turn ----

  /** The bytes a SACK is credited with are those that leave flight. */
  lemma AckedIsRemoved(s: State, sack: Payload, env: Env)
    requires Admits(s, SackIn(sack)) && Possible(s, SackIn(sack), env)
    ensures var h := Handled(s, SackIn(sack), env);
      TotalBytes(s.inFlight) == BytesOf(AckedOf(env.beforeAck, sack), s.inFlight) + TotalBytes(h.inFlight)
  {
    var acked := AckedOf(env.beforeAck, sack);
    AckedOfMembers(env.beforeAck, sack);
    AckedOfDistinct(env.beforeAck, sack);
    TotalExcept(s.inFlight, acked);
    assert Except(s.inFlight, acked) == Unacked(s.inFlight, sack);
    var m := s.(inFlight := Unacked(s.inFlight, sack), prober := ProberAfter(s, SackIn(sack), env));
    NakAllSame(m, sack, env.afterAck);
    TotalSame(Unacked(s.inFlight, sack), Handled(s, SackIn(sack), env).inFlight);
  }

  lemma {:induction false} NakAllSame(s: State, sack: Payload, order: seq<u64>)
    ensures var m := NakAll(s, sack, order).inFlight;
      m.Keys == s.inFlight.Keys && forall q | q in m :: m[q].datagram == s.inFlight[q].datagram
    decreases |order|
  {
    if order != [] { NakAllSame(NakOne(s, sack, order[0]), sack, order[1..]); }
  }

  /** Since `began`, the kernel took `sent` bytes and SACKs removed `acked` bytes from flight. */
  datatype Tally = Tally(sent: nat, acked: nat, began: real)

  /** A step begins when the timer finds half a second gone, or when the prober drops to the floor. */
  ghost predicate Begins(t: Tally, s: State, e: Event, env: Env)
    requires Admits(s, e)
  {
    || (e.ProbeTimer? && env.eventTime - t.began >= 0.5)
    || (!s.prober.phase.Throttling? && Handled(s, e, env).prober.phase.Throttling?)
  }

  ghost function Removed(s: State, h: State): nat {
    if TotalBytes(h.inFlight) <= TotalBytes(s.inFlight) then TotalBytes(s.inFlight) - TotalBytes(h.inFlight) else 0
  }

  ghost function AfterEvent(t: Tally, s: State, e: Event, env: Env): Tally
    requires Admits(s, e)
  {
    if Begins(t, s, e, env) then Tally(0, 0, env.eventTime)
    else if e.SackIn? then t.(acked := t.acked + Removed(s, Handled(s, e, env)))
    else t
  }

  ghost function AfterTurn(t: Tally, s: State, e: Event, env: Env): Tally
    requires Admits(s, e)
  {
    var t1 := AfterEvent(t, s, e, env);
    t1.(sent := t1.sent + BytesOf(Taken(TurnPicks(s, e, env), env.wired), Turn(s, e, env).inFlight))
  }

  ghost predicate Agrees(p: Congestion.Prober, t: Tally) {
    p.sent == t.sent && p.acked == t.acked && p.stepStart == t.began
  }

  lemma EventTallied(s: State, t: Tally, e: Event, env: Env)
    requires Admits(s, e) && Possible(s, e, env) && Agrees(s.prober, t)
    ensures Agrees(Handled(s, e, env).prober, AfterEvent(t, s, e, env))
  {
    HandledProber(s, e, env);
    match e
    case SackIn(sack) => AckedIsRemoved(s, sack, env);
    case _ =>
  }

  lemma TurnTallied(s: State, t: Tally, e: Event, env: Env)
    requires Admits(s, e) && Possible(s, e, env) && Agrees(s.prober, t)
    ensures Agrees(Turn(s, e, env).prober, AfterTurn(t, s, e, env))
  {
    EventTallied(s, t, e, env);
  }

  /** An evaluation in mid-climb records the step's own totals. */
  lemma RecordedTally(s: State, t: Tally, env: Env)
    requires Admits(s, ProbeTimer) && Agrees(s.prober, t) && s.prober.phase.Probing?
    requires env.eventTime - t.began >= 0.5
    ensures Handled(s, ProbeTimer, env).prober.results[s.prober.phase.step] == ProbeResult(t.sent, t.acked)
  {
  }

  /** The timer reports a rate exactly when half a second has passed since the step began. */
  lemma ReportsWhenDue(s: State, t: Tally, now: real)
    requires Sane(s.prober) && Agrees(s.prober, t)
    ensures Evaluated(s.prober, now).1.Some? <==> now - t.began >= 0.5
  {
  }

  // ---- runs ----

  ghost function TallyOf(s: State, t: Tally, steps: seq<Step>): Tally
    requires Runs(s, steps)
    decreases |steps|
  {
    if steps == [] then t
    else
      var (e, env) := (steps[0].event, steps[0].env);
      TallyOf(Turn(s, e, env), AfterTurn(t, s, e, env), steps[1..])
  }

  /** At the end of every run. */
  lemma {:induction false} RunTallied(s: State, t: Tally, steps: seq<Step>)
    requires Runs(s, steps) && Agrees(s.prober, t)
    ensures Agrees(End(s, steps).prober, TallyOf(s, t, steps))
    decreases |steps|
  {
    if steps != [] {
      var e, env := steps[0].event, steps[0].env;
      TurnTallied(s, t, e, env);
      RunTallied(Turn(s, e, env), AfterTurn(t, s, e, env), steps[1..]);
    }
  }

  lemma InitialTallied(session: u32, now: real)
    ensures Agrees(Initial(session, now).prober, Tally(0, 0, now))
  {
  }
}
