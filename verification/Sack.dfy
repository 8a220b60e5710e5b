/** The SACK bitmap: 1024 bits over 16 machine words above `base_seq`, updated in place
    (crates/protocol/src/sack.rs). */
module Sack {
  import opened Bits

  const SACK_WORDS: nat := 16
  const SACK_WINDOW: nat := 1024

  /** The contents of a payload: what `clone` copies and what travels to the sender. */
  datatype Payload = Payload(base: u64, wordCount: byte, words: seq<u64>)

  /** Bit `off` of the bitmap. */
  predicate BitAt(ws: seq<u64>, off: nat) {
    off / 64 < |ws| && Bit(ws[off / 64], off % 64)
  }

  /** What the payload claims about sequence number `q`. */
  predicate Received(p: Payload, q: nat) {
    q < p.base || BitAt(p.words, q - p.base)
  }

  /** word_count indexes the last nonzero word, or is 0 when there is none. */
  predicate Canonical(p: Payload) {
    && |p.words| == SACK_WORDS
    && p.wordCount <= SACK_WORDS
    && (p.wordCount > 0 ==> p.words[p.wordCount - 1] != 0)
    && forall i | p.wordCount <= i < SACK_WORDS :: p.words[i] == 0
  }

  // ---- single words ----

  lemma OneBit(b: nat, i: nat)
    requires b < 64 && i < 64
    ensures Bit(Shl64(1, b), i) == (i == b)
  {
    BitOfShl64(1, b, i);
    if i > b {
      assert Pow2(1) == 2 && Pow2(0) == 1;
      BitsBelowWidth(1, 1, i - b);
    }
  }

  function SetBit(w: u64, b: nat): (r: u64)
    requires b < 64
    ensures r != 0
    ensures forall i: nat | i < 64 :: Bit(r, i) == (i == b || Bit(w, i))
  {
    Pow2Is64();
    OrFits(w, Shl64(1, b), 64);
    assert forall i: nat | i < 64 :: Bit(Or(w, Shl64(1, b)), i) == (i == b || Bit(w, i)) by {
      forall i: nat | i < 64 ensures Bit(Or(w, Shl64(1, b)), i) == (i == b || Bit(w, i)) {
        BitOfOr(w, Shl64(1, b), i);
        OneBit(b, i);
      }
    }
    assert Bit(Or(w, Shl64(1, b)), b);
    BitOfZero(b);
    Or(w, Shl64(1, b))
  }

  /** A word shifted right by `s` with `carry` or-ed in: its own upper bits, then the low bits of the word above. */
  function ShiftIn(w: u64, above: u64, s: nat): u64
    requires 0 < s < 64
  {
    Pow2Is64();
    OrFits(Shr(w, s), Shl64(above, 64 - s), 64);
    Or(Shr(w, s), Shl64(above, 64 - s))
  }

  /** The carry of the loop below is the part of the next word up that moves in. */
  lemma CarryShifts(w: u64, above: u64, s: nat, carry: u64)
    requires 0 < s < 64 && carry == Shl64(above, 64 - s)
    ensures Or(Shr(w, s), carry) == ShiftIn(w, above, s) < TWO64
  {
  }

  lemma NoCarry(s: nat)
    requires 0 < s < 64
    ensures Shl64(0, 64 - s) == 0
  {
    Pow2Is64();
    Shl64IsProduct(0, 64 - s, 0);
  }

  lemma ShiftInBits(w: u64, above: u64, s: nat, i: nat)
    requires 0 < s < 64 && i < 64
    ensures Bit(ShiftIn(w, above, s), i) == (if i + s < 64 then Bit(w, i + s) else Bit(above, i + s - 64))
  {
    BitOfOr(Shr(w, s), Shl64(above, 64 - s), i);
    BitOfShr(w, s, i);
    BitOfShl64(above, 64 - s, i);
    if i + s >= 64 {
      Pow2Is64();
      BitsBelowWidth(w, 64, i + s);
    }
  }

  // ---- the bitmap as a sequence of words ----

  ghost predicate IsWordShift(ws: seq<u64>, ws': seq<u64>, k: nat) {
    && |ws| == |ws'| == SACK_WORDS
    && forall i | 0 <= i < SACK_WORDS :: ws'[i] == if i + k < SACK_WORDS then ws[i + k] else 0
  }

  function WordAt(ws: seq<u64>, i: nat): u64 {
    if i < |ws| then ws[i] else 0
  }

  ghost predicate IsBitShift(ws: seq<u64>, ws': seq<u64>, s: nat) {
    && |ws| == |ws'| == SACK_WORDS
    && 0 < s < 64
    && forall i | 0 <= i < SACK_WORDS :: ws'[i] == ShiftIn(ws[i], WordAt(ws, i + 1), s)
  }

  /** The low `shift` bits are gone and every other bit has moved down by `shift`. */
  ghost predicate Dropped(ws: seq<u64>, ws': seq<u64>, shift: nat) {
    forall off: nat :: BitAt(ws', off) == BitAt(ws, off + shift)
  }

  lemma WordShiftDrops(ws: seq<u64>, ws': seq<u64>, k: nat)
    requires IsWordShift(ws, ws', k)
    ensures Dropped(ws, ws', 64 * k)
  {
    forall off: nat ensures BitAt(ws', off) == BitAt(ws, off + 64 * k) {
      assert (off + 64 * k) / 64 == off / 64 + k;
      BitOfZero(off % 64);
    }
  }

  lemma BitShiftAt(ws: seq<u64>, ws': seq<u64>, s: nat, off: nat)
    requires IsBitShift(ws, ws', s)
    ensures BitAt(ws', off) == BitAt(ws, off + s)
  {
    var i := off / 64;
    var b := off % 64;
    if i < SACK_WORDS {
      ShiftInBits(ws[i], WordAt(ws, i + 1), s, b);
      SplitOffset(off, s);
      if b + s >= 64 { BitOfZero(b + s - 64); }
    }
  }

  lemma SplitOffset(off: nat, s: nat)
    requires s < 64
    ensures var b := off % 64;
      if b + s < 64 then (off + s) / 64 == off / 64 && (off + s) % 64 == b + s
      else (off + s) / 64 == off / 64 + 1 && (off + s) % 64 == b + s - 64
  {
  }

  lemma BitShiftDrops(ws: seq<u64>, ws': seq<u64>, s: nat)
    requires IsBitShift(ws, ws', s)
    ensures Dropped(ws, ws', s)
  {
    forall off: nat ensures BitAt(ws', off) == BitAt(ws, off + s) { BitShiftAt(ws, ws', s, off); }
  }

  lemma DroppedTwice(ws0: seq<u64>, ws1: seq<u64>, ws2: seq<u64>, m: nat, n: nat)
    requires Dropped(ws0, ws1, m) && Dropped(ws1, ws2, n)
    ensures Dropped(ws0, ws2, m + n)
  {
    forall off: nat ensures BitAt(ws2, off) == BitAt(ws0, off + (m + n)) {
      assert BitAt(ws1, off + n) == BitAt(ws0, (off + n) + m);
    }
  }

  lemma BothShiftsDrop(ws0: seq<u64>, ws1: seq<u64>, ws2: seq<u64>, k: nat, s: nat)
    requires IsWordShift(ws0, ws1, k)
    requires if s > 0 then IsBitShift(ws1, ws2, s) else ws2 == ws1
    ensures Dropped(ws0, ws2, 64 * k + s)
  {
    WordShiftDrops(ws0, ws1, k);
    if s > 0 {
      BitShiftDrops(ws1, ws2, s);
      DroppedTwice(ws0, ws1, ws2, 64 * k, s);
    }
  }

  lemma AllDropped(ws0: seq<u64>, ws: seq<u64>, shift: nat)
    requires |ws0| == SACK_WORDS && shift >= SACK_WINDOW
    requires forall i | 0 <= i < |ws| :: ws[i] == 0
    ensures Dropped(ws0, ws, shift)
  {
    forall off: nat ensures BitAt(ws, off) == BitAt(ws0, off + shift) { AllZeroBits(ws, off); }
  }

  /** Dropping the bits below a new base keeps every claim at or above it. */
  lemma SlideClaims(p: Payload, p': Payload, shift: nat)
    requires p'.base == p.base + shift && Dropped(p.words, p'.words, shift)
    ensures forall q: nat :: Received(p', q) == (q < p'.base || Received(p, q))
  {
    forall q: nat ensures Received(p', q) == (q < p'.base || Received(p, q)) {
      if q >= p'.base { assert BitAt(p'.words, q - p'.base) == BitAt(p.words, (q - p'.base) + shift); }
    }
  }

  lemma AllZeroBits(ws: seq<u64>, off: nat)
    requires forall i | 0 <= i < |ws| :: ws[i] == 0
    ensures !BitAt(ws, off)
  {
    BitOfZero(off % 64);
  }

  /** Two canonical payloads that claim the same are the same. */
  lemma ClaimsDetermine(p: Payload, p': Payload)
    requires Canonical(p) && Canonical(p') && p.base == p'.base
    requires forall q: nat :: Received(p, q) == Received(p', q)
    ensures p == p'
  {
    forall i | 0 <= i < SACK_WORDS ensures p.words[i] == p'.words[i] {
      forall b: nat | b < 64 ensures Bit(p.words[i], b) == Bit(p'.words[i], b) {
        SameBit(p, p', i, b);
      }
      Pow2Is64();
      BitsDetermine(p.words[i], p'.words[i], 64);
    }
    assert p.words == p'.words;
  }

  lemma SameBit(p: Payload, p': Payload, i: nat, b: nat)
    requires |p.words| == |p'.words| == SACK_WORDS && p.base == p'.base && i < SACK_WORDS && b < 64
    requires forall q: nat :: Received(p, q) == Received(p', q)
    ensures Bit(p.words[i], b) == Bit(p'.words[i], b)
  {
    var off := 64 * i + b;
    assert off / 64 == i && off % 64 == b;
    assert Received(p, p.base + off) == Received(p', p.base + off);
  }

  // ---- the payload object ----

  class SackPayload {
    var base: u64
    var wordCount: byte
    const words: array<u64>

    ghost predicate Valid()
      reads this, words
    {
      words.Length == SACK_WORDS && Canonical(Value())
    }

    function Value(): Payload
      reads this, words
    {
      Payload(base, wordCount, words[..])
    }

    constructor (initial: u64)
      ensures Valid() && fresh(words)
      ensures Value() == Payload(initial, 0, seq(SACK_WORDS, _ => 0))
      ensures forall q: nat :: Received(Value(), q) == (q < initial)
    {
      base, wordCount := initial, 0;
      words := new u64[SACK_WORDS](_ => 0);
      new;
      assert words[..] == seq(SACK_WORDS, _ => 0);
      forall q: nat ensures Received(Value(), q) == (q < initial) {
        if q >= initial { AllZeroBits(words[..], q - initial); }
      }
    }

    /** Records `sn` if it lies in the window; everything else the payload claims is unchanged. */
    method MarkReceived(sn: u64)
      requires Valid()
      modifies this`wordCount, words
      ensures Valid() && base == old(base)
      ensures forall q: nat ::
        Received(Value(), q) == (old(Received(Value(), q)) || (q == sn && sn < base + SACK_WINDOW))
    {
      if sn < base { return; }
      var offset := sn - base;
      if offset >= SACK_WINDOW { return; }
      var wordIdx, bitIdx := offset / 64, offset % 64;
      words[wordIdx] := SetBit(words[wordIdx], bitIdx);
      if wordIdx + 1 > wordCount {
        wordCount := wordIdx + 1;
      }
      assert forall off: nat :: BitAt(words[..], off) == (off == offset || BitAt(old(words[..]), off));
    }

    /** `is_received`, with its own window test. */
    function IsReceived(sn: u64): (r: bool)
      requires Valid()
      reads this, words
      ensures r == Received(Value(), sn)
    {
      if sn < base then true
      else
        var offset := sn - base;
        if offset >= SACK_WINDOW then false
        else Bit(words[offset / 64], offset % 64)
    }

    /** The window slides: afterwards exactly the numbers below the new base and those
        claimed before are claimed. */
    method AdvanceBase(newBase: u64)
      requires Valid()
      modifies this, words
      ensures Valid() && base == (if newBase > old(base) then newBase else old(base))
      ensures forall q: nat :: Received(Value(), q) == (q < newBase || old(Received(Value(), q)))
    {
      if newBase > base {
        ghost var p := Value();
        var shift := newBase - base;
        if shift >= SACK_WINDOW {
          Clear(shift);
        } else {
          DropBits(shift / 64, shift % 64);
        }
        base := newBase;
        SlideClaims(p, Value(), shift);
      }
    }

    /** The entire window is discarded. */
    method Clear(ghost shift: nat)
      requires words.Length == SACK_WORDS && shift >= SACK_WINDOW
      modifies this`wordCount, words
      ensures Valid()
      ensures Dropped(old(words[..]), words[..], shift)
    {
      forall i | 0 <= i < SACK_WORDS { words[i] := 0; }
      wordCount := 0;
      AllDropped(old(words[..]), words[..], shift);
    }

    method DropBits(wordShift: nat, bitShift: nat)
      requires words.Length == SACK_WORDS && wordShift < SACK_WORDS && bitShift < 64
      modifies this`wordCount, words
      ensures Valid()
      ensures Dropped(old(words[..]), words[..], 64 * wordShift + bitShift)
    {
      ghost var ws0 := words[..];
      ShiftWords(wordShift);
      ghost var ws1 := words[..];
      if bitShift > 0 {
        ShiftBits(bitShift);
      }
      TrimWordCount();
      BothShiftsDrop(ws0, ws1, words[..], wordShift, bitShift);
    }

    /** The word count again indexes the last nonzero word. */
    method TrimWordCount()
      requires words.Length == SACK_WORDS
      modifies this`wordCount
      ensures Valid()
    {
      wordCount := SACK_WORDS;
      while wordCount > 0 && words[wordCount - 1] == 0
        invariant wordCount <= SACK_WORDS
        invariant forall i | wordCount <= i < SACK_WORDS :: words[i] == 0
      {
        wordCount := wordCount - 1;
      }
    }

    /** `copy_within`, then zeros from the top. */
    method ShiftWords(wordShift: nat)
      requires words.Length == SACK_WORDS && wordShift < SACK_WORDS
      modifies words
      ensures IsWordShift(old(words[..]), words[..], wordShift)
    {
      if wordShift > 0 {
        forall i | 0 <= i < SACK_WORDS - wordShift { words[i] := words[i + wordShift]; }
        for i := SACK_WORDS - wordShift to SACK_WORDS
          invariant forall j | 0 <= j < SACK_WORDS - wordShift :: words[j] == old(words[j + wordShift])
          invariant forall j | SACK_WORDS - wordShift <= j < i :: words[j] == 0
        {
          words[i] := 0;
        }
      }
    }

    /** From the top word down, each hands its low bits to the next one as the carry. */
    method ShiftBits(bitShift: nat)
      requires words.Length == SACK_WORDS && 0 < bitShift < 64
      modifies words
      ensures IsBitShift(old(words[..]), words[..], bitShift)
    {
      ghost var ws0 := words[..];
      var carry: u64 := 0;
      NoCarry(bitShift);
      for i := SACK_WORDS downto 0
        invariant carry == Shl64(WordAt(ws0, i), 64 - bitShift)
        invariant forall j | 0 <= j < i :: words[j] == ws0[j]
        invariant forall j | i <= j < SACK_WORDS :: words[j] == ShiftIn(ws0[j], WordAt(ws0, j + 1), bitShift)
      {
        CarryShifts(words[i], WordAt(ws0, i + 1), bitShift, carry);
        var newCarry := Shl64(words[i], 64 - bitShift);
        words[i] := Or(Shr(words[i], bitShift), carry);
        carry := newCarry;
      }
    }
  }
}
