/** Byte strings and the little- and big-endian integer encodings every wire format here uses. */
module Bytes {
  import opened Bits
  import opened Seqs

  type bytes = seq<byte>

  datatype Option<+T> = None | Some(value: T)

  datatype Result<+T, +E> = Ok(value: T) | Err(error: E)

  function Zeros(n: nat): (r: bytes)
    ensures |r| == n
  {
    seq(n, _ => 0)
  }

  function Pow256(w: nat): (r: nat)
    ensures r > 0
  {
    if w == 0 then 1 else 256 * Pow256(w - 1)
  }

  /** The low `w` bytes of `v`, least significant first (`to_le_bytes` after a cast to that width). */
  function LE(v: nat, w: nat): (r: bytes)
    ensures |r| == w
    decreases v, w
  {
    if w == 0 then [] else [v % 256] + LE(v / 256, w - 1)
  }

  function FromLE(b: bytes): (r: nat)
    ensures r < Pow256(|b|)
  {
    if b == [] then 0 else b[0] + 256 * FromLE(b[1..])
  }

  /** The low `w` bytes of `v`, most significant first (`to_be_bytes`). */
  function BE(v: nat, w: nat): (r: bytes)
    ensures |r| == w
    decreases v, w
  {
    if w == 0 then [] else BE(v / 256, w - 1) + [v % 256]
  }

  function FromBE(b: bytes): (r: nat)
    ensures r < Pow256(|b|)
  {
    if b == [] then 0 else 256 * FromBE(b[..|b| - 1]) + b[|b| - 1]
  }

  lemma {:induction false} FromLEInverts(v: nat, w: nat)
    requires v < Pow256(w)
    ensures FromLE(LE(v, w)) == v
    decreases w
  {
    if w > 0 {
      FromLEInverts(v / 256, w - 1);
      assert LE(v, w)[1..] == LE(v / 256, w - 1);
    }
  }

  lemma LowByte(low: byte, v: nat)
    ensures (low + 256 * v) % 256 == low && (low + 256 * v) / 256 == v
  {
  }

  lemma {:induction false} LEInverts(b: bytes)
    ensures LE(FromLE(b), |b|) == b
  {
    if b != [] {
      var v := FromLE(b[1..]);
      LEInverts(b[1..]);
      LowByte(b[0], v);
      assert b == [b[0]] + b[1..];
    }
  }

  lemma {:induction false} FromBEInverts(v: nat, w: nat)
    requires v < Pow256(w)
    ensures FromBE(BE(v, w)) == v
    decreases w
  {
    if w > 0 {
      FromBEInverts(v / 256, w - 1);
      assert BE(v, w)[..w - 1] == BE(v / 256, w - 1);
    }
  }

  lemma DivideTwice(v: nat, p: nat)
    requires p > 0
    ensures v / 256 / p == v / (256 * p)
  {
    var q, r := v / 256 / p, v / 256 % p;
    assert v == 256 * (p * q + r) + v % 256;
    assert v == (256 * p) * q + (256 * r + v % 256);
    assert 256 * r + v % 256 < 256 * p;
    QuotientIs(v, 256 * p, q, 256 * r + v % 256);
  }

  /** Byte i of the little-endian form is the i-th digit to base 256. */
  lemma {:induction false} LEAt(v: nat, w: nat, i: nat)
    requires i < w
    ensures LE(v, w)[i] == v / Pow256(i) % 256
    decreases w
  {
    if i > 0 {
      LEAt(v / 256, w - 1, i - 1);
      DivideTwice(v, Pow256(i - 1));
    }
  }

  /** Byte i from the end of the big-endian form is the i-th digit to base 256. */
  lemma {:induction false} BEAt(v: nat, w: nat, i: nat)
    requires i < w
    ensures BE(v, w)[w - 1 - i] == v / Pow256(i) % 256
    decreases w
  {
    if i > 0 {
      BEAt(v / 256, w - 1, i - 1);
      DivideTwice(v, Pow256(i - 1));
    }
  }

  lemma Pow256Widths()
    ensures Pow256(1) == 256 && Pow256(2) == TWO16 && Pow256(4) == TWO32 && Pow256(8) == TWO64
  {
    assert Pow256(4) == TWO32;
    assert Pow256(6) == 256 * (256 * Pow256(4));
  }

  lemma Regroup(a: bytes, b: bytes, c: bytes, d: bytes)
    ensures a + b + c + d == a + (b + (c + d))
  {
  }

  /** The cursor step every parser below takes: a field is read back, and what follows it is next. */
  lemma ReadField(buf: bytes, pos: nat, field: bytes, rest: bytes)
    requires pos <= |buf| && buf[pos..] == field + rest
    ensures pos + |field| <= |buf|
    ensures buf[pos..pos + |field|] == field
    ensures buf[pos + |field|..] == rest
  {
    assert |buf[pos..]| == |buf| - pos;
    assert buf[pos..pos + |field|] == buf[pos..][..|field|];
    assert buf[pos + |field|..] == buf[pos..][|field|..];
  }

  /** A buffer that is four fields in a row has each of them at its offset. */
  lemma FourFields(buf: bytes, pos: nat, a: bytes, b: bytes, c: bytes, d: bytes, rest: bytes)
    requires pos <= |buf| && buf[pos..] == (a + (b + (c + d))) + rest
    ensures pos + |a| + |b| + |c| + |d| <= |buf|
    ensures buf[pos..][..|a|] == a == buf[pos..pos + |a|]
    ensures buf[pos + |a|..pos + |a| + |b|] == b
    ensures buf[pos + |a| + |b|..pos + |a| + |b| + |c|] == c
    ensures buf[pos + |a| + |b| + |c|..] == d + rest
  {
    assert buf[pos..] == a + ((b + (c + d)) + rest);
    ReadField(buf, pos, a, (b + (c + d)) + rest);
    assert (b + (c + d)) + rest == b + ((c + d) + rest);
    ReadField(buf, pos + |a|, b, (c + d) + rest);
    assert (c + d) + rest == c + (d + rest);
    ReadField(buf, pos + |a| + |b|, c, d + rest);
  }
}

/** Cutting, joining and summing sequences. */
module Seqs {

  function Concat<T>(ss: seq<seq<T>>): (r: seq<T>) {
    if ss == [] then [] else ss[0] + Concat(ss[1..])
  }

  lemma Assoc<T>(a: seq<T>, b: seq<T>, c: seq<T>)
    ensures (a + b) + c == a + (b + c)
  {
  }

  lemma LastSplit<T>(s: seq<T>)
    requires s != []
    ensures s == s[..|s| - 1] + [s[|s| - 1]]
  {
  }

  lemma HeadSplit<T>(s: seq<T>)
    requires s != []
    ensures s == [s[0]] + s[1..]
  {
  }

  lemma HeadTake<T>(s: seq<T>, k: nat)
    requires k < |s|
    ensures s[..k + 1] == [s[0]] + s[1..][..k]
  {
  }

  lemma AppendBack<T>(a: seq<T>, b: seq<T>)
    ensures (a + b)[|a|..|a| + |b|] == b
  {
  }

  lemma AppendAt<T>(a: seq<T>, b: seq<T>, i: nat)
    requires i < |a| + |b|
    ensures (a + b)[i] == if i < |a| then a[i] else b[i - |a|]
  {
  }

  lemma TakeSnoc<T>(a: seq<T>, b: seq<T>, k: nat)
    requires 0 < k <= |b|
    ensures a + b[..k] == (a + b[..k - 1]) + [b[k - 1]]
  {
  }

  /** `slice.chunks(n)`: pieces of length n, the last one possibly shorter. */
  function Chunks<T>(s: seq<T>, n: nat): (r: seq<seq<T>>)
    requires n > 0
  {
    if s == [] then []
    else if |s| <= n then [s]
    else [s[..n]] + Chunks(s[n..], n)
  }

  function CeilDiv(x: nat, n: nat): (r: nat)
    requires n > 0
  {
    (x + n - 1) / n
  }

  function Sum(xs: seq<nat>): nat {
    if xs == [] then 0 else xs[0] + Sum(xs[1..])
  }

  lemma {:induction false} ConcatChunks<T>(s: seq<T>, n: nat)
    requires n > 0
    ensures Concat(Chunks(s, n)) == s
  {
    if |s| > n {
      ConcatChunks(s[n..], n);
      assert Chunks(s, n)[1..] == Chunks(s[n..], n);
      assert s == s[..n] + s[n..];
    } else if s != [] {
      assert Chunks(s, n)[1..] == [];
    }
  }

  /** How many chunks there are, and where each one sits. */
  /** Every chunk but the last is full. */
  lemma {:induction false} ChunkFull<T>(s: seq<T>, n: nat, i: nat)
    requires n > 0 && i + 1 < |Chunks(s, n)|
    ensures |Chunks(s, n)[i]| == n
  {
    if i > 0 { ChunkFull(s[n..], n, i - 1); }
  }

  lemma {:induction false} ChunksShape<T>(s: seq<T>, n: nat)
    requires n > 0
    ensures |Chunks(s, n)| == CeilDiv(|s|, n)
    ensures forall i | 0 <= i < |Chunks(s, n)| :: 0 < |Chunks(s, n)[i]| <= n
    ensures |s| > n ==> |Chunks(s, n)| >= 2
  {
    if |s| > n {
      ChunksShape(s[n..], n);
      CeilDivStep(|s|, n);
    } else if s != [] {
      CeilDivOne(|s|, n);
    } else {
      CeilDivOne(0, n);
    }
  }

  lemma CeilDivStep(x: nat, n: nat)
    requires 0 < n < x
    ensures CeilDiv(x, n) == 1 + CeilDiv(x - n, n)
  {
    var y := x - 1;
    assert CeilDiv(x, n) == (y + n) / n;
    assert CeilDiv(x - n, n) == y / n;
    assert y + n == n * (y / n + 1) + y % n;
    QuotientIs(y + n, n, y / n + 1, y % n);
  }

  lemma CeilDivOne(x: nat, n: nat)
    requires x <= n && 0 < n
    ensures CeilDiv(x, n) == (if x == 0 then 0 else 1)
  {
    if x == 0 { QuotientIs(n - 1, n, 0, n - 1); } else { QuotientIs(x + n - 1, n, 1, x - 1); }
  }

  lemma QuotientIs(a: nat, n: nat, q: nat, r: nat)
    requires n > 0 && a == n * q + r && r < n
    ensures a / n == q && a % n == r
  {
    var d := a / n - q;
    assert a == n * (a / n) + a % n;
    assert n * d == r - a % n;
    MultipleAtLeast(n, d);
  }

  lemma MultipleAtLeast(n: nat, d: int)
    ensures d > 0 ==> n * d >= n
    ensures d < 0 ==> n * d + n <= 0
  {
  }

  lemma {:induction false} ConcatAppend<T>(a: seq<seq<T>>, b: seq<seq<T>>)
    ensures Concat(a + b) == Concat(a) + Concat(b)
  {
    if a == [] {
      assert a + b == b;
    } else {
      ConcatAppend(a[1..], b);
      assert (a + b)[1..] == a[1..] + b;
      Assoc(a[0], Concat(a[1..]), Concat(b));
    }
  }

  lemma ConcatSnoc<T>(a: seq<seq<T>>, x: seq<T>)
    ensures Concat(a + [x]) == Concat(a) + x
  {
    ConcatAppend(a, [x]);
    assert Concat([x]) == x + Concat([x][1..]) == x;
  }

  lemma {:induction false} SumAppend(a: seq<nat>, b: seq<nat>)
    ensures Sum(a + b) == Sum(a) + Sum(b)
  {
    if a == [] {
      assert a + b == b;
    } else {
      SumAppend(a[1..], b);
      assert (a + b)[1..] == a[1..] + b;
    }
  }

  function Without<T>(s: seq<T>, k: nat): (r: seq<T>)
    requires k < |s|
    ensures |r| == |s| - 1
  {
    s[..k] + s[k + 1..]
  }

  lemma WithoutFirst<T>(s: seq<T>)
    requires s != []
    ensures Without(s, 0) == s[1..]
  {
  }

  lemma WithoutLater<T>(s: seq<T>, k: nat)
    requires 0 < k < |s|
    ensures Without(s, k) == [s[0]] + Without(s[1..], k - 1)
  {
  }

  lemma WithoutMultiset<T>(s: seq<T>, k: nat)
    requires k < |s|
    ensures multiset(Without(s, k)) == multiset(s) - multiset{s[k]}
  {
    assert s == s[..k] + ([s[k]] + s[k + 1..]);
  }

  lemma {:induction false} WithoutSum(s: seq<nat>, k: nat)
    requires k < |s|
    ensures Sum(s) == s[k] + Sum(Without(s, k))
  {
    if k == 0 {
      assert Without(s, 0) == s[1..];
    } else {
      WithoutSum(s[1..], k - 1);
      assert Without(s, k)[0] == s[0];
      assert Without(s, k)[1..] == Without(s[1..], k - 1);
    }
  }

  /** A sum does not depend on the order of its terms. */
  lemma {:induction false} SumPermuted(a: seq<nat>, b: seq<nat>)
    requires multiset(a) == multiset(b)
    ensures Sum(a) == Sum(b)
    decreases |a|
  {
    if a == [] {
      assert |multiset(b)| == |b| == 0;
    } else {
      assert a[0] in multiset(b);
      var k :| 0 <= k < |b| && b[k] == a[0];
      WithoutMultiset(a, 0);
      WithoutMultiset(b, k);
      WithoutSum(a, 0);
      WithoutSum(b, k);
      SumPermuted(Without(a, 0), Without(b, k));
    }
  }
}
