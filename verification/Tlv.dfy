/** Padded type-length-value lists, as STUN and TURN messages carry them (section 15 of RFC 5389). */
module Tlv {
  import opened Bits
  import opened Bytes
  import opened Seqs

  const MAGIC_COOKIE: u32 := 0x2112_A442
  const HEADER_LEN: nat := 20

  type Tid = b: bytes | |b| == 12 witness seq(12, _ => 0)

  datatype Attr = Attr(kind: u16, value: bytes)

  function Pad(n: nat): (r: nat)
    ensures r < 4 && (n + r) % 4 == 0
  {
    (4 - n % 4) % 4
  }

  /** The length field is the low 16 bits of the value's length. */
  function AttrBytes(a: Attr): (r: bytes)
    ensures |r| == 4 + |a.value| + Pad(|a.value|)
  {
    BE(a.kind, 2) + (BE(|a.value| % TWO16, 2) + (a.value + Zeros(Pad(|a.value|))))
  }

  function Body(attrs: seq<Attr>): bytes {
    if attrs == [] then [] else Body(attrs[..|attrs| - 1]) + AttrBytes(attrs[|attrs| - 1])
  }

  function Field(buf: bytes, pos: nat): (r: u16)
    requires pos + 2 <= |buf|
  {
    Pow256Widths();
    FromBE(buf[pos..pos + 2])
  }

  /** Attribute after attribute from `pos`, ending silently at the first that overruns the buffer. */
  function Parsed(buf: bytes, pos: nat): seq<Attr>
    decreases |buf| + 4 - pos
  {
    if pos + 4 > |buf| then []
    else
      var n := Field(buf, pos + 2);
      if pos + 4 + n > |buf| then []
      else [Attr(Field(buf, pos), buf[pos + 4..pos + 4 + n])] + Parsed(buf, pos + 4 + n + Pad(n))
  }

  /** Values whose length the 2-byte field can express. */
  predicate Encodable(attrs: seq<Attr>) {
    forall i | 0 <= i < |attrs| :: |attrs[i].value| < TWO16
  }

  /** Type, body length (its low 16 bits), cookie, transaction id, body. */
  function Header(msgType: u16, length: nat, tid: Tid): (r: bytes)
    ensures |r| == HEADER_LEN
  {
    BE(msgType, 2) + (BE(length % TWO16, 2) + (BE(MAGIC_COOKIE, 4) + tid))
  }

  function Message(msgType: u16, tid: Tid, body: bytes): bytes {
    Header(msgType, |body|, tid) + body
  }

  // ---- reading back ----

  lemma FieldReads(v: u16, w: nat)
    requires w == 2
    ensures FromBE(BE(v, w)) == v
  {
    WidthOf16(w);
    FromBEInverts(v, w);
  }

  /** Two bytes, the more significant one first. */
  lemma FieldIs(buf: bytes, pos: nat)
    requires pos + 2 <= |buf|
    ensures Field(buf, pos) == buf[pos] as int * 256 + buf[pos + 1]
  {
    var b := buf[pos..pos + 2];
    assert b[..1] == [buf[pos]] && b[..1][..0] == [];
    assert FromBE(b[..1]) == 256 * FromBE([]) + buf[pos];
  }

  lemma WidthOf16(w: nat)
    requires w == 2
    ensures Pow256(w) == TWO16
  {
    Pow256Widths();
  }

  lemma {:induction false} BodyCons(a: Attr, rest: seq<Attr>)
    ensures Body([a] + rest) == AttrBytes(a) + Body(rest)
    decreases |rest|
  {
    if rest == [] {
      assert [a] + rest == [a] && [a][..0] == [];
      assert [] + AttrBytes(a) == AttrBytes(a) + [];
    } else {
      var i := |rest| - 1;
      BodyCons(a, rest[..i]);
      assert ([a] + rest)[..i + 1] == [a] + rest[..i];
      Assoc(AttrBytes(a), Body(rest[..i]), AttrBytes(rest[i]));
    }
  }

  lemma BodySnoc(attrs: seq<Attr>, a: Attr)
    ensures Body(attrs + [a]) == Body(attrs) + AttrBytes(a)
  {
    assert (attrs + [a])[..|attrs|] == attrs;
  }

  /** Four fields in front of `rest`, the first two of them 2-byte integers. */
  lemma FieldsRead(buf: bytes, pos: nat, kind: bytes, length: bytes, value: bytes, zeros: bytes, rest: bytes)
    requires pos <= |buf| && buf[pos..] == (kind + (length + (value + zeros))) + rest
    requires |kind| == 2 && |length| == 2
    ensures pos + 4 + |value| + |zeros| <= |buf| && buf[pos + 4 + |value| + |zeros|..] == rest
    ensures Field(buf, pos) == FromBE(kind) && Field(buf, pos + 2) == FromBE(length)
    ensures buf[pos + 4..pos + 4 + |value|] == value
  {
    FourFields(buf, pos, kind, length, value, zeros, rest);
    ReadField(buf, pos + 4 + |value|, zeros, rest);
  }

  lemma AttrFields(buf: bytes, pos: nat, a: Attr, rest: bytes)
    requires pos <= |buf| && buf[pos..] == AttrBytes(a) + rest && |a.value| < TWO16
    ensures pos + |AttrBytes(a)| <= |buf| && buf[pos + |AttrBytes(a)|..] == rest
    ensures Field(buf, pos) == a.kind && Field(buf, pos + 2) == |a.value|
    ensures buf[pos + 4..pos + 4 + |a.value|] == a.value
  {
    Below16(|a.value|);
    var kind, length := BE(a.kind, 2), BE(|a.value| % TWO16, 2);
    assert FromBE(kind) == a.kind && FromBE(length) == |a.value| by {
      FieldReads(a.kind, 2);
      FieldReads(|a.value|, 2);
    }
    FieldsRead(buf, pos, kind, length, a.value, Zeros(Pad(|a.value|)), rest);
  }

  lemma AttrReads(buf: bytes, pos: nat, a: Attr, rest: bytes)
    requires pos <= |buf| && buf[pos..] == AttrBytes(a) + rest && |a.value| < TWO16
    ensures pos + |AttrBytes(a)| <= |buf| && buf[pos + |AttrBytes(a)|..] == rest
    ensures Parsed(buf, pos) == [a] + Parsed(buf, pos + |AttrBytes(a)|)
  {
    AttrFields(buf, pos, a, rest);
    ParsedStep(buf, pos, a);
  }

  lemma ParsedStep(buf: bytes, pos: nat, a: Attr)
    requires pos + 4 + |a.value| <= |buf| && Field(buf, pos) == a.kind && Field(buf, pos + 2) == |a.value|
    requires buf[pos + 4..pos + 4 + |a.value|] == a.value
    ensures Parsed(buf, pos) == [a] + Parsed(buf, pos + |AttrBytes(a)|)
    ensures Parsed(buf, pos) == [a] + Parsed(buf, pos + 4 + |a.value| + Pad(|a.value|))
  {
    var next := pos + 4 + |a.value| + Pad(|a.value|);
    assert pos + |AttrBytes(a)| == next;
  }

  lemma BodySplit(attrs: seq<Attr>)
    requires attrs != []
    ensures Body(attrs) == AttrBytes(attrs[0]) + Body(attrs[1..])
    ensures [attrs[0]] + attrs[1..] == attrs
  {
    assert [attrs[0]] + attrs[1..] == attrs;
    BodyCons(attrs[0], attrs[1..]);
  }

  lemma {:induction false} BodyReadsBack(buf: bytes, pos: nat, attrs: seq<Attr>)
    requires pos <= |buf| && buf[pos..] == Body(attrs) && Encodable(attrs)
    ensures Parsed(buf, pos) == attrs
    decreases |attrs|
  {
    if attrs != [] {
      var a, rest := attrs[0], attrs[1..];
      BodySplit(attrs);
      AttrReads(buf, pos, a, Body(rest));
      var next := pos + |AttrBytes(a)|;
      BodyReadsBack(buf, next, rest);
      assert Parsed(buf, pos) == [a] + rest;
    }
  }

  lemma {:induction false} ParsedIsEncodable(buf: bytes, pos: nat)
    ensures Encodable(Parsed(buf, pos))
    decreases |buf| + 4 - pos
  {
    if pos + 4 <= |buf| {
      var n := Field(buf, pos + 2);
      if pos + 4 + n <= |buf| { ParsedIsEncodable(buf, pos + 4 + n + Pad(n)); }
    }
  }

  /** An attribute list survives the wire if and only if every length fits its 2-byte field. */
  lemma RoundTripsWhenEncodable(attrs: seq<Attr>)
    ensures Parsed(Body(attrs), 0) == attrs <==> Encodable(attrs)
  {
    assert Body(attrs)[0..] == Body(attrs);
    if Encodable(attrs) { BodyReadsBack(Body(attrs), 0, attrs); }
    ParsedIsEncodable(Body(attrs), 0);
  }

  lemma AlignedSum(n: nat, a: Attr)
    requires n % 4 == 0
    ensures (n + |AttrBytes(a)|) % 4 == 0
  {
    var k := |a.value| + Pad(|a.value|);
    assert (n + 4 + k) % 4 == 0;
  }

  lemma {:induction false} BodyAligned(attrs: seq<Attr>)
    ensures |Body(attrs)| % 4 == 0
  {
    if attrs != [] {
      var last := attrs[|attrs| - 1];
      BodyAligned(attrs[..|attrs| - 1]);
      AlignedSum(|Body(attrs[..|attrs| - 1])|, last);
    }
  }

  lemma BodyGrows(a: Attr, rest: seq<Attr>)
    ensures |Body([a] + rest)| == |AttrBytes(a)| + |Body(rest)|
  {
    BodyCons(a, rest);
  }

  /** Encoding the parsed attributes again takes no more than the buffer, up to missing padding. */
  lemma {:induction false} ParsedConsumes(buf: bytes, pos: nat)
    requires pos <= |buf| + 3
    ensures pos + |Body(Parsed(buf, pos))| <= |buf| + 3
    decreases |buf| + 4 - pos
  {
    if pos + 4 <= |buf| {
      var n := Field(buf, pos + 2);
      if pos + 4 + n <= |buf| {
        var a := Attr(Field(buf, pos), buf[pos + 4..pos + 4 + n]);
        ParsedStep(buf, pos, a);
        var next := pos + |AttrBytes(a)|;
        ParsedConsumes(buf, next);
        BodyGrows(a, Parsed(buf, next));
      }
    }
  }

  lemma HeaderReads(msgType: u16, length: nat, tid: Tid, body: bytes)
    ensures var m := Header(msgType, length, tid) + body;
      && Field(m, 0) == msgType && Field(m, 2) == length % TWO16
      && FromBE(m[4..8]) == MAGIC_COOKIE && m[8..20] == tid && m[HEADER_LEN..] == body
  {
    var m := Header(msgType, length, tid) + body;
    assert m[0..] == m;
    FieldReads(msgType, 2);
    FieldReads(length % TWO16, 2);
    CookieReads(4);
    FourFields(m, 0, BE(msgType, 2), BE(length % TWO16, 2), BE(MAGIC_COOKIE, 4), tid, body);
    ReadField(m, 8, tid, body);
  }

  lemma CookieReads(w: nat)
    requires w == 4
    ensures FromBE(BE(MAGIC_COOKIE, w)) == MAGIC_COOKIE
  {
    WidthOf32(w);
    FromBEInverts(MAGIC_COOKIE, w);
  }

  lemma WidthOf32(w: nat)
    requires w == 4
    ensures Pow256(w) == TWO32
  {
    Pow256Widths();
  }
}
