/** Every arrival has its outcome: the relation that describes `on_packet_received`
    (crates/protocol/src/sack.rs:226-243) is a total function. */
module SackArrival {
  import opened Bits
  import opened Sack
  import opened SackManager

  // ---- words from bits ----

  /** The word whose bit i is `f(from + i)`. */
  function WordOf(f: nat -> bool, from: nat, n: nat): (w: nat)
    ensures w < Pow2(n)
    decreases n, from
  {
    if n == 0 then 0 else (if f(from) then 1 else 0) + 2 * WordOf(f, from + 1, n - 1)
  }

  lemma {:induction false} WordOfBit(f: nat -> bool, from: nat, n: nat, i: nat)
    requires i < n
    ensures Bit(WordOf(f, from, n), i) == f(from + i)
    decreases n
  {
    var rest := WordOf(f, from + 1, n - 1);
    assert WordOf(f, from, n) / 2 == rest;
    if i > 0 { WordOfBit(f, from + 1, n - 1, i - 1); }
  }

  function WordsOf(f: nat -> bool, from: nat): (ws: seq<u64>)
    ensures |ws| == SACK_WORDS
  {
    Pow2Is64();
    seq(SACK_WORDS, k requires 0 <= k < SACK_WORDS => WordOf(f, from + 64 * k, 64))
  }

  lemma WordsOfBit(f: nat -> bool, from: nat, off: nat)
    ensures BitAt(WordsOf(f, from), off) == (off < SACK_WINDOW && f(from + off))
  {
    var k, i := off / 64, off % 64;
    assert off == 64 * k + i;
    if k < SACK_WORDS {
      WordOfBit(f, from + 64 * k, 64, i);
      assert from + 64 * k + i == from + off;
      WordsOfAt(f, from, k);
    }
  }

  lemma WordsOfAt(f: nat -> bool, from: nat, k: nat)
    requires k < SACK_WORDS
    ensures WordsOf(f, from)[k] == WordOf(f, from + 64 * k, 64)
  {
  }

  function LastNonzero(ws: seq<u64>, n: nat): (c: nat)
    requires n <= |ws|
    ensures c <= n && (c > 0 ==> ws[c - 1] != 0)
    ensures forall i | c <= i < n :: ws[i] == 0
  {
    if n == 0 then 0 else if ws[n - 1] != 0 then n else LastNonzero(ws, n - 1)
  }

  // ---- the outcome ----

  predicate Claimed(p: Payload, sn: nat, q: nat) {
    Received(p, q) || (q == sn && sn < p.base + SACK_WINDOW)
  }

  function LeastGap(p: Payload, sn: nat, q: nat): (r: nat)
    requires Canonical(p) && p.base <= q <= p.base + SACK_WINDOW
    ensures q <= r <= p.base + SACK_WINDOW && !Claimed(p, sn, r)
    ensures forall x | q <= x < r :: Claimed(p, sn, x)
    decreases p.base + SACK_WINDOW - q
  {
    if Claimed(p, sn, q) then LeastGap(p, sn, q + 1) else q
  }

  /** Below the end of the 64-bit range every arrival has an outcome. */
  lemma ArrivalHappens(p: Payload, sn: nat) returns (p': Payload)
    requires Canonical(p) && p.base + SACK_WINDOW < TWO64
    ensures Arrival(p, sn, p')
  {
    var f := (q: nat) => Claimed(p, sn, q);
    var base := LeastGap(p, sn, p.base);
    var ws := WordsOf(f, base);
    p' := Payload(base, LastNonzero(ws, SACK_WORDS), ws);
    forall q: nat ensures Received(p', q) == Claimed(p, sn, q) {
      if q >= base { WordsOfBit(f, base, q - base); }
    }
  }
}
