/** Well-formed UTF-8, as `std::str::from_utf8` accepts it (section 4 of RFC 3629). */
module Utf8 {
  import opened Bits
  import opened Bytes

  predicate Tail(b: byte) { 0x80 <= b <= 0xBF }

  /** The length of the character in front, 0 when there is none: no overlong forms, no surrogates,
      nothing above U+10FFFF. */
  function FirstChar(b: bytes): (n: nat)
    requires b != []
    ensures n <= |b|
  {
    if b[0] <= 0x7F then 1
    else if 0xC2 <= b[0] <= 0xDF then (if |b| >= 2 && Tail(b[1]) then 2 else 0)
    else if 0xE0 <= b[0] <= 0xEF then
      (if |b| >= 3 && Tail(b[1]) && Tail(b[2]) && (b[0] == 0xE0 ==> b[1] >= 0xA0) && (b[0] == 0xED ==> b[1] <= 0x9F)
       then 3 else 0)
    else if 0xF0 <= b[0] <= 0xF4 then
      (if |b| >= 4 && Tail(b[1]) && Tail(b[2]) && Tail(b[3])
          && (b[0] == 0xF0 ==> b[1] >= 0x90) && (b[0] == 0xF4 ==> b[1] <= 0x8F)
       then 4 else 0)
    else 0
  }

  predicate WellFormed(b: bytes) {
    b == [] || (FirstChar(b) > 0 && WellFormed(b[FirstChar(b)..]))
  }

  // ---- what is well formed ----

  /** Unicode scalar values: no surrogates. */
  predicate Scalar(c: int) {
    0 <= c < 0xD800 || 0xE000 <= c < 0x11_0000
  }

  /** The encoding of one of them (section 3 of RFC 3629). */
  function Encoded(c: int): (r: bytes)
    requires Scalar(c)
    ensures r != []
  {
    if c < 0x80 then [c]
    else if c < 0x800 then [0xC0 + c / 0x40, 0x80 + c % 0x40]
    else if c < 0x1_0000 then [0xE0 + c / 0x1000, 0x80 + c / 0x40 % 0x40, 0x80 + c % 0x40]
    else [0xF0 + c / 0x4_0000, 0x80 + c / 0x1000 % 0x40, 0x80 + c / 0x40 % 0x40, 0x80 + c % 0x40]
  }

  type Char = c: int | Scalar(c) witness 0

  function Text(cs: seq<Char>): bytes {
    if cs == [] then [] else Encoded(cs[0]) + Text(cs[1..])
  }

  lemma EncodedIsChar(c: Char, rest: bytes)
    ensures FirstChar(Encoded(c) + rest) == |Encoded(c)|
  {
    var b := Encoded(c) + rest;
    if c < 0x800 {
      assert c >= 0x80 ==> 2 <= c / 0x40 <= 0x1F;
    } else if c < 0x1_0000 {
      ThreeByteForm(c);
    } else {
      FourByteForm(c);
    }
  }

  lemma ThreeByteForm(c: int)
    requires 0x800 <= c < 0x1_0000 && Scalar(c)
    ensures 0 <= c / 0x1000 <= 0xF
    ensures c / 0x1000 == 0 ==> c / 0x40 % 0x40 >= 0x20
    ensures c / 0x1000 == 0xD ==> c / 0x40 % 0x40 <= 0x1F
  {
  }

  lemma FourByteForm(c: int)
    requires 0x1_0000 <= c < 0x11_0000
    ensures 0 <= c / 0x4_0000 <= 4
    ensures c / 0x4_0000 == 0 ==> c / 0x1000 % 0x40 >= 0x10
    ensures c / 0x4_0000 == 4 ==> c / 0x1000 % 0x40 <= 0xF
  {
  }

  lemma {:induction false} TextIsWellFormed(cs: seq<Char>)
    ensures WellFormed(Text(cs))
  {
    if cs != [] {
      var e, rest := Encoded(cs[0]), Text(cs[1..]);
      TextIsWellFormed(cs[1..]);
      EncodedIsChar(cs[0], rest);
      assert (e + rest)[|e|..] == rest;
    }
  }

  /** The scalar value of the first n bytes. */
  function ValueOf(b: bytes, n: nat): int
    requires n <= |b| && 1 <= n <= 4
  {
    if n == 1 then b[0]
    else if n == 2 then Two(b[0] as int - 0xC0, b[1] as int - 0x80)
    else if n == 3 then Three(b[0] as int - 0xE0, b[1] as int - 0x80, b[2] as int - 0x80)
    else Four(b[0] as int - 0xF0, b[1] as int - 0x80, b[2] as int - 0x80, b[3] as int - 0x80)
  }

  function Two(x: int, y: int): int { x * 0x40 + y }
  function Three(x: int, y: int, z: int): int { x * 0x1000 + y * 0x40 + z }
  function Four(x: int, y: int, z: int, w: int): int { x * 0x4_0000 + y * 0x1000 + z * 0x40 + w }

  lemma TwoDigits(x: int, y: int)
    requires 2 <= x < 0x20 && 0 <= y < 0x40
    ensures var c := Two(x, y); 0x80 <= c < 0x800 && c / 0x40 == x && c % 0x40 == y
  {
  }

  lemma ThreeDigits(x: int, y: int, z: int)
    requires 0 <= x < 0x10 && 0 <= y < 0x40 && 0 <= z < 0x40
    requires (x == 0 ==> y >= 0x20) && (x == 0xD ==> y < 0x20)
    ensures var c := Three(x, y, z);
      0x800 <= c < 0x1_0000 && Scalar(c) && c / 0x1000 == x && c / 0x40 % 0x40 == y && c % 0x40 == z
  {
    var c := Three(x, y, z);
    assert c / 0x40 == x * 0x40 + y;
  }

  lemma FourDigits(x: int, y: int, z: int, w: int)
    requires 0 <= x <= 4 && 0 <= y < 0x40 && 0 <= z < 0x40 && 0 <= w < 0x40
    requires (x == 0 ==> y >= 0x10) && (x == 4 ==> y < 0x10)
    ensures var c := Four(x, y, z, w);
      && 0x1_0000 <= c < 0x11_0000
      && c / 0x4_0000 == x && c / 0x1000 % 0x40 == y && c / 0x40 % 0x40 == z && c % 0x40 == w
  {
    var c := Four(x, y, z, w);
    assert c / 0x40 == x * 0x1000 + y * 0x40 + z;
    assert c / 0x1000 == x * 0x40 + y;
  }

  lemma CharIsEncoded(b: bytes)
    requires b != [] && FirstChar(b) > 0
    ensures var n := FirstChar(b);
      1 <= n <= 4 && Scalar(ValueOf(b, n)) && Encoded(ValueOf(b, n)) == b[..n]
  {
    var n := FirstChar(b);
    if n == 2 {
      TwoDigits(b[0] as int - 0xC0, b[1] as int - 0x80);
    } else if n == 3 {
      ThreeIsEncoded(b);
    } else if n == 4 {
      FourIsEncoded(b);
    }
  }

  lemma ThreeIsEncoded(b: bytes)
    requires b != [] && FirstChar(b) == 3
    ensures Scalar(ValueOf(b, 3)) && Encoded(ValueOf(b, 3)) == b[..3]
  {
    ThreeDigits(b[0] as int - 0xE0, b[1] as int - 0x80, b[2] as int - 0x80);
  }

  lemma FourIsEncoded(b: bytes)
    requires b != [] && FirstChar(b) == 4
    ensures Scalar(ValueOf(b, 4)) && Encoded(ValueOf(b, 4)) == b[..4]
  {
    FourDigits(b[0] as int - 0xF0, b[1] as int - 0x80, b[2] as int - 0x80, b[3] as int - 0x80);
  }

  lemma TextCons(c: Char, rest: seq<Char>)
    ensures Text([c] + rest) == Encoded(c) + Text(rest)
  {
    assert ([c] + rest)[1..] == rest;
  }

  lemma Peel(b: bytes) returns (c: Char, rest: bytes)
    requires WellFormed(b) && b != []
    ensures b == Encoded(c) + rest && WellFormed(rest) && |rest| < |b|
  {
    var n := FirstChar(b);
    CharIsEncoded(b);
    c, rest := ValueOf(b, n), b[n..];
    assert b == b[..n] + b[n..];
  }

  lemma {:induction false} WellFormedIsText(b: bytes) returns (cs: seq<Char>)
    requires WellFormed(b)
    ensures Text(cs) == b
    decreases |b|
  {
    if b == [] {
      cs := [];
    } else {
      var c, rest := Peel(b);
      var more := WellFormedIsText(rest);
      TextCons(c, more);
      cs := [c] + more;
    }
  }

  /** The accepted paths are exactly the encodings of sequences of scalar values. */
  lemma Utf8Iff(b: bytes)
    ensures WellFormed(b) <==> exists cs :: Text(cs) == b
  {
    if WellFormed(b) { var cs := WellFormedIsText(b); }
    if cs :| Text(cs) == b { TextIsWellFormed(cs); }
  }
}
