/** Fixed-width words as integers: the shift, or and xor of the u64 words in the SACK bitmap,
    of the ICE pair priority and of the STUN address masking, defined bit by bit. */
module Bits {

  const TWO16: nat := 0x1_0000
  const TWO32: nat := 0x1_0000_0000
  const TWO64: nat := 0x1_0000_0000_0000_0000

  type byte = x: int | 0 <= x < 256
  type u16 = x: int | 0 <= x < TWO16
  type u32 = x: int | 0 <= x < TWO32
  type u64 = x: int | 0 <= x < TWO64

  lemma Below16(x: nat)
    requires x < TWO16
    ensures x % TWO16 == x
  {
  }

  lemma Remainder16(x: nat)
    ensures x % TWO16 <= x && x % TWO16 < TWO16
    ensures x < TWO16 <==> x % TWO16 == x
  {
  }

  lemma Below32(x: nat)
    requires x < TWO32
    ensures x % TWO32 == x
  {
  }

  lemma Below64(x: nat)
    requires x < TWO64
    ensures x % TWO64 == x
  {
  }

  function Pow2(n: nat): (r: nat)
    ensures r > 0
  {
    if n == 0 then 1 else 2 * Pow2(n - 1)
  }

  /** Bit `i` of `w`: `(w >> i) & 1 == 1`. */
  predicate Bit(w: nat, i: nat) {
    if i == 0 then w % 2 == 1 else Bit(w / 2, i - 1)
  }

  /** `w >> s`. */
  function Shr(w: nat, s: nat): (r: nat)
    ensures r <= w
  {
    if s == 0 then w else Shr(w / 2, s - 1)
  }

  /** `w << s` on a 64-bit word: bits pushed past position 63 are lost. */
  function Shl64(w: u64, s: nat): u64
    decreases s
  {
    if s == 0 then w else Shl64((2 * w) % TWO64, s - 1)
  }

  /** `a | b`. */
  function Or(a: nat, b: nat): nat
    decreases a + b
  {
    if a == 0 then b
    else if b == 0 then a
    else 2 * Or(a / 2, b / 2) + (if a % 2 == 1 || b % 2 == 1 then 1 else 0)
  }

  /** `a ^ b`. */
  function Xor(a: nat, b: nat): nat
    decreases a + b
  {
    if a == 0 then b
    else if b == 0 then a
    else 2 * Xor(a / 2, b / 2) + (if a % 2 != b % 2 then 1 else 0)
  }

  // ---- bits of shifted and combined words ----

  lemma {:induction false} BitOfZero(i: nat)
    ensures !Bit(0, i)
  {
    if i > 0 { BitOfZero(i - 1); }
  }

  lemma {:induction false} BitOfShr(w: nat, s: nat, i: nat)
    ensures Bit(Shr(w, s), i) == Bit(w, i + s)
  {
    if s > 0 { BitOfShr(w / 2, s - 1, i); }
  }

  lemma {:induction false} BitOfOr(a: nat, b: nat, i: nat)
    ensures Bit(Or(a, b), i) == (Bit(a, i) || Bit(b, i))
    decreases a + b
  {
    BitOfZero(i);
    if a != 0 && b != 0 && i > 0 {
      assert Or(a, b) / 2 == Or(a / 2, b / 2);
      BitOfOr(a / 2, b / 2, i - 1);
    }
  }

  lemma {:induction false} BitOfXor(a: nat, b: nat, i: nat)
    ensures Bit(Xor(a, b), i) == (Bit(a, i) != Bit(b, i))
    decreases a + b
  {
    BitOfZero(i);
    if a != 0 && b != 0 && i > 0 {
      assert Xor(a, b) / 2 == Xor(a / 2, b / 2);
      BitOfXor(a / 2, b / 2, i - 1);
    }
  }

  lemma BitOfDouble(w: u64, i: nat)
    requires i < 64
    ensures Bit((2 * w) % TWO64, i) == (i > 0 && Bit(w, i - 1))
  {
    var d := (2 * w) % TWO64;
    if 2 * w >= TWO64 {
      assert d == 2 * w - TWO64;
      Pow2Is64();
      BitBelow(d, 1, 64, i);
    }
    assert Bit(d, i) == Bit(2 * w, i);
  }

  /** Adding a multiple of 2^n leaves the bits below n alone. */
  lemma {:induction false} BitBelow(w: nat, q: nat, n: nat, i: nat)
    requires i < n
    ensures Bit(q * Pow2(n) + w, i) == Bit(w, i)
  {
    assert q * Pow2(n) == 2 * (q * Pow2(n - 1));
    if i > 0 {
      assert (q * Pow2(n) + w) / 2 == q * Pow2(n - 1) + w / 2;
      BitBelow(w / 2, q, n - 1, i - 1);
    }
  }

  lemma Pow2Is64()
    ensures Pow2(64) == TWO64
  {
    assert Pow2(8) == 256;
    Pow2Adds(8, 8);
    Pow2Adds(16, 16);
    Pow2Adds(32, 32);
  }

  lemma {:induction false} Pow2Adds(m: nat, n: nat)
    ensures Pow2(m + n) == Pow2(m) * Pow2(n)
  {
    if m > 0 { Pow2Adds(m - 1, n); }
  }

  lemma {:induction false} BitOfShl64(w: u64, s: nat, i: nat)
    requires i < 64
    ensures Bit(Shl64(w, s), i) == (i >= s && Bit(w, i - s))
    decreases s
  {
    if s > 0 {
      var d := (2 * w) % TWO64;
      BitOfShl64(d, s - 1, i);
      if i >= s - 1 {
        BitOfDouble(w, i - (s - 1));
      }
    }
  }

  lemma {:induction false} BitsBelowWidth(w: nat, n: nat, i: nat)
    requires w < Pow2(n) && n <= i
    ensures !Bit(w, i)
  {
    if n == 0 { BitOfZero(i); } else { BitsBelowWidth(w / 2, n - 1, i - 1); }
  }

  /** A word of n bits is determined by them. */
  lemma {:induction false} BitsDetermine(a: nat, b: nat, n: nat)
    requires a < Pow2(n) && b < Pow2(n)
    requires forall i: nat | i < n :: Bit(a, i) == Bit(b, i)
    ensures a == b
  {
    if n > 0 {
      assert Bit(a, 0) == Bit(b, 0);
      forall i: nat | i < n - 1 ensures Bit(a / 2, i) == Bit(b / 2, i) {
        assert Bit(a, i + 1) == Bit(b, i + 1);
      }
      BitsDetermine(a / 2, b / 2, n - 1);
    }
  }

  lemma {:induction false} SomeBitSet(w: nat, n: nat) returns (i: nat)
    requires 0 < w < Pow2(n)
    ensures i < n && Bit(w, i)
  {
    if w % 2 == 1 { i := 0; } else { i := SomeBitSet(w / 2, n - 1); i := i + 1; }
  }

  lemma {:induction false} OrFits(a: nat, b: nat, n: nat)
    requires a < Pow2(n) && b < Pow2(n)
    ensures Or(a, b) < Pow2(n)
    decreases a + b
  {
    if a != 0 && b != 0 {
      OrFits(a / 2, b / 2, n - 1);
    }
  }

  lemma {:induction false} XorFits(a: nat, b: nat, n: nat)
    requires a < Pow2(n) && b < Pow2(n)
    ensures Xor(a, b) < Pow2(n)
    decreases a + b
  {
    if a != 0 && b != 0 {
      XorFits(a / 2, b / 2, n - 1);
    }
  }

  /** Masking twice with the same key restores the value. */
  lemma {:induction false} XorTwice(a: nat, k: nat)
    ensures Xor(Xor(a, k), k) == a
    decreases a + k
  {
    if a == 0 { XorSelf(k); }
    else if k != 0 {
      XorTwice(a / 2, k / 2);
      assert Xor(a, k) / 2 == Xor(a / 2, k / 2);
      assert Xor(a, k) % 2 == (if a % 2 != k % 2 then 1 else 0);
      if Xor(a, k) == 0 {
        assert Xor(a / 2, k / 2) == 0;
      }
    }
  }

  lemma XorHalves(x: nat, y: nat)
    ensures Xor(x, y) == 2 * Xor(x / 2, y / 2) + (if x % 2 != y % 2 then 1 else 0)
  {
  }

  lemma HalfOfBlock(a: nat, b: nat, n: nat)
    requires n > 0
    ensures (a * Pow2(n) + b) / 2 == a * Pow2(n - 1) + b / 2 && (a * Pow2(n) + b) % 2 == b % 2
  {
    assert a * Pow2(n) == 2 * (a * Pow2(n - 1));
  }

  /** High and low parts are masked on their own. */
  lemma {:induction false} XorOfParts(a: nat, b: nat, c: nat, d: nat, n: nat)
    requires b < Pow2(n) && d < Pow2(n)
    ensures Xor(a * Pow2(n) + b, c * Pow2(n) + d) == Xor(a, c) * Pow2(n) + Xor(b, d)
    decreases n
  {
    if n > 0 {
      var x, y := a * Pow2(n) + b, c * Pow2(n) + d;
      HalfOfBlock(a, b, n);
      HalfOfBlock(c, d, n);
      XorHalves(x, y);
      XorHalves(b, d);
      XorOfParts(a, b / 2, c, d / 2, n - 1);
      HalfOfBlock(Xor(a, c), 0, n);
      assert Xor(a, c) * Pow2(n) == 2 * (Xor(a, c) * Pow2(n - 1));
    }
  }

  lemma {:induction false} XorSelf(k: nat)
    ensures Xor(k, k) == 0
  {
    if k != 0 { XorSelf(k / 2); }
  }

  lemma DoubleProduct(w: nat, p: nat, d: nat)
    requires d == 2 * w
    ensures w * (2 * p) == d * p
  {
  }

  lemma ProductAtLeast(w: nat, p: nat)
    requires p > 0
    ensures w * p >= w
  {
    assert w * p == w * (p - 1) + w;
  }

  /** `w << s` is the product, as long as nothing is pushed out. */
  lemma {:induction false} Shl64IsProduct(w: u64, s: nat, r: nat)
    requires r == w * Pow2(s) && r < TWO64
    ensures Shl64(w, s) == r
    decreases s
  {
    if s > 0 {
      var p := Pow2(s - 1);
      assert Pow2(s) == 2 * p;
      DoubleProduct(w, p, 2 * w);
      ProductAtLeast(2 * w, p);
      assert (2 * w) % TWO64 == 2 * w;
      Shl64IsProduct(2 * w, s - 1, r);
    } else {
      assert Pow2(0) == 1;
    }
  }

  /** Or with a value that fits below the lowest set block is addition. */
  lemma {:induction false} OrOfDisjoint(a: nat, b: nat, n: nat)
    requires b < Pow2(n)
    ensures Or(a * Pow2(n), b) == a * Pow2(n) + b
  {
    if n > 0 && a != 0 && b != 0 {
      assert a * Pow2(n) == 2 * (a * Pow2(n - 1));
      assert a * Pow2(n) > 0;
      OrOfDisjoint(a, b / 2, n - 1);
      assert Or(a * Pow2(n), b) == 2 * Or(a * Pow2(n - 1), b / 2) + b % 2;
    }
  }
}
