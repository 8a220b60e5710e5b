/** Building and taking apart TURN messages, and the masked addresses in them (crates/traversal/src/turn.rs). */
module Turn {
  import opened Bits
  import opened Bytes
  import opened Seqs
  import opened Tlv
  import opened Addresses

  const ATTR_MSG_INTEGRITY: u16 := 0x0008

  type Digest = b: bytes | |b| == 20 witness seq(20, _ => 0)

  // ---- messages ----

  /** `mac` stands for HMAC-SHA1. */
  function Signed(msgType: u16, tid: Tid, body: bytes, key: bytes, mac: (bytes, bytes) -> Digest): bytes {
    var covered := Header(msgType, |body| + 24, tid) + body;
    covered + AttrBytes(Attr(ATTR_MSG_INTEGRITY, mac(key, covered)))
  }

  /** A digest needs no padding. */
  lemma DigestAttr(mi: Digest)
    ensures AttrBytes(Attr(ATTR_MSG_INTEGRITY, mi)) == BE(ATTR_MSG_INTEGRITY, 2) + (BE(20, 2) + mi)
  {
    assert mi + Zeros(0) == mi;
    Below16(20);
  }

  class TurnMsg {
    const msgType: u16
    const tid: Tid
    var attrs: bytes
    ghost var pushed: seq<Attr>

    ghost predicate Valid()
      reads this
    {
      attrs == Body(pushed)
    }

    constructor (msgType: u16, tid: Tid)
      ensures Valid() && pushed == [] && this.msgType == msgType && this.tid == tid
    {
      this.msgType, this.tid, attrs, pushed := msgType, tid, [], [];
    }

    method PushAttr(kind: u16, value: bytes)
      requires Valid()
      modifies this
      ensures Valid() && pushed == old(pushed) + [Attr(kind, value)]
    {
      BodySnoc(pushed, Attr(kind, value));
      var pad := (4 - |value| % 4) % 4;
      var field := BE(kind, 2) + (BE(|value| % TWO16, 2) + (value + Zeros(pad)));
      attrs := attrs + field;
      pushed := pushed + [Attr(kind, value)];
    }

    method Build() returns (out: bytes)
      requires Valid()
      ensures out == Message(msgType, tid, Body(pushed))
    {
      out := Header(msgType, |attrs|, tid) + attrs;
    }

    /** The header already counts the attribute that is about to be appended when the digest is taken. */
    method BuildWithIntegrity(key: bytes, mac: (bytes, bytes) -> Digest) returns (out: bytes)
      requires Valid()
      ensures out == Signed(msgType, tid, Body(pushed), key, mac)
    {
      var header := Header(msgType, |attrs| + 4 + 20, tid);
      var preMi := header + attrs;
      var mi := mac(key, preMi);
      DigestAttr(mi);
      out := preMi + (BE(ATTR_MSG_INTEGRITY, 2) + (BE(20, 2) + mi));
    }
  }

  ghost predicate ReadSoFar(done: seq<Attr>, buf: bytes, pos: nat) {
    done + Parsed(buf, pos) == Parsed(buf, 0)
  }

  lemma OneMore(done: seq<Attr>, buf: bytes, pos: nat, a: Attr)
    requires pos + 4 + |a.value| <= |buf| && Field(buf, pos) == a.kind && Field(buf, pos + 2) == |a.value|
    requires buf[pos + 4..pos + 4 + |a.value|] == a.value
    requires ReadSoFar(done, buf, pos)
    ensures ReadSoFar(done + [a], buf, pos + 4 + |a.value| + Pad(|a.value|))
  {
    ParsedStep(buf, pos, a);
    Assoc(done, [a], Parsed(buf, pos + 4 + |a.value| + Pad(|a.value|)));
  }

  /** The loop of `parse_raw_attrs`. */
  method ParseRawAttrs(buf: bytes) returns (attrs: seq<Attr>)
    ensures attrs == Parsed(buf, 0)
  {
    attrs := [];
    var pos := 0;
    ReadNothing(buf);
    while pos + 4 <= |buf|
      invariant ReadSoFar(attrs, buf, pos)
      decreases |buf| + 4 - pos
    {
      var t, n := Field(buf, pos), Field(buf, pos + 2);
      if pos + 4 + n > |buf| { break; }
      var a := Attr(t, buf[pos + 4..pos + 4 + n]);
      assert |a.value| == n;
      OneMore(attrs, buf, pos, a);
      attrs := attrs + [a];
      pos := pos + 4 + n + Pad(n);
    }
    ReadAll(attrs, buf, pos);
  }

  lemma ReadNothing(buf: bytes)
    ensures ReadSoFar([], buf, 0)
  {
    assert [] + Parsed(buf, 0) == Parsed(buf, 0);
  }

  /** At the end, or where an attribute overruns, nothing follows. */
  lemma ReadAll(done: seq<Attr>, buf: bytes, pos: nat)
    requires ReadSoFar(done, buf, pos)
    requires pos + 4 > |buf| || pos + 4 + Field(buf, pos + 2) > |buf|
    ensures Parsed(buf, 0) == done
  {
    assert done + [] == done;
  }

  // ---- what a built message says ----

  /** The header length is the body length if and only if it fits 16 bits, and the pushed attributes are
      read back if and only if each value's length does. */
  lemma BuiltReadsBack(msgType: u16, tid: Tid, attrs: seq<Attr>)
    ensures var out := Message(msgType, tid, Body(attrs));
      && Field(out, 0) == msgType && out[8..20] == tid
      && (Field(out, 2) == |out| - HEADER_LEN <==> |Body(attrs)| < TWO16)
      && (Parsed(out[HEADER_LEN..], 0) == attrs <==> Encodable(attrs))
  {
    HeaderReads(msgType, |Body(attrs)|, tid, Body(attrs));
    Remainder16(|Body(attrs)|);
    RoundTripsWhenEncodable(attrs);
  }

  /** Signing appends exactly one 20-byte attribute behind the pushed ones; the header length is the final
      body length, and the digest covers everything before that attribute with this length in place
      (section 15.4 of RFC 5389). */
  lemma SignedReadsBack(msgType: u16, tid: Tid, attrs: seq<Attr>, key: bytes, mac: (bytes, bytes) -> Digest)
    ensures var out := Signed(msgType, tid, Body(attrs), key, mac);
      var covered := out[..|out| - 24];
      && Field(covered, 0) == msgType && covered[8..20] == tid && covered[HEADER_LEN..] == Body(attrs)
      && (Field(covered, 2) == |out| - HEADER_LEN <==> |Body(attrs)| + 24 < TWO16)
      && (Parsed(out[HEADER_LEN..], 0) == attrs + [Attr(0x0008, mac(key, covered))] <==> Encodable(attrs))
  {
    var last := SignedSplits(msgType, tid, attrs, key, mac);
    var covered := Header(msgType, |Body(attrs)| + 24, tid) + Body(attrs);
    SignedFacts(Signed(msgType, tid, Body(attrs), key, mac), covered, msgType, tid, attrs, last);
  }

  lemma SignedFacts(out: bytes, covered: bytes, msgType: u16, tid: Tid, attrs: seq<Attr>, last: Attr)
    requires covered == Header(msgType, |Body(attrs)| + 24, tid) + Body(attrs) && |last.value| < TWO16
    requires |out| == |covered| + 24 && out[HEADER_LEN..] == Body(attrs + [last])
    ensures Field(covered, 0) == msgType && covered[8..20] == tid && covered[HEADER_LEN..] == Body(attrs)
    ensures Field(covered, 2) == |out| - HEADER_LEN <==> |Body(attrs)| + 24 < TWO16
    ensures Parsed(out[HEADER_LEN..], 0) == attrs + [last] <==> Encodable(attrs)
  {
    HeaderCounts(msgType, tid, Body(attrs));
    SignedParses(out[HEADER_LEN..], attrs, last);
  }

  lemma SignedParses(tail: bytes, attrs: seq<Attr>, last: Attr)
    requires tail == Body(attrs + [last]) && |last.value| < TWO16
    ensures Parsed(tail, 0) == attrs + [last] <==> Encodable(attrs)
  {
    RoundTripsWhenEncodable(attrs + [last]);
    LastFits(attrs, last);
  }

  lemma HeaderCounts(msgType: u16, tid: Tid, body: bytes)
    ensures var covered := Header(msgType, |body| + 24, tid) + body;
      && Field(covered, 0) == msgType && covered[8..20] == tid && covered[HEADER_LEN..] == body
      && |covered| == HEADER_LEN + |body|
      && (Field(covered, 2) == |body| + 24 <==> |body| + 24 < TWO16)
  {
    HeaderReads(msgType, |body| + 24, tid, body);
    Remainder16(|body| + 24);
  }

  lemma SignedSplits(msgType: u16, tid: Tid, attrs: seq<Attr>, key: bytes, mac: (bytes, bytes) -> Digest)
    returns (last: Attr)
    ensures var out := Signed(msgType, tid, Body(attrs), key, mac);
      var covered := Header(msgType, |Body(attrs)| + 24, tid) + Body(attrs);
      && last == Attr(ATTR_MSG_INTEGRITY, mac(key, covered))
      && |out| == |covered| + 24 && out[..|out| - 24] == covered
      && out[HEADER_LEN..] == Body(attrs + [last])
  {
    var header := Header(msgType, |Body(attrs)| + 24, tid);
    last := Attr(ATTR_MSG_INTEGRITY, mac(key, header + Body(attrs)));
    BodySnoc(attrs, last);
    Behind(header, Body(attrs), AttrBytes(last));
  }

  lemma LastFits(attrs: seq<Attr>, last: Attr)
    requires |last.value| < TWO16
    ensures Encodable(attrs + [last]) <==> Encodable(attrs)
  {
    var all := attrs + [last];
    assert all[|attrs|] == last;
    assert forall i | 0 <= i < |attrs| :: all[i] == attrs[i];
  }

  lemma Behind(header: bytes, body: bytes, tail: bytes)
    ensures ((header + body) + tail)[..|header + body|] == header + body
    ensures ((header + body) + tail)[|header|..] == body + tail
  {
  }

  // ---- masked addresses ----

  /** `encode_xor_peer`: an IPv6 address goes out unmasked. */
  function EncodeXorPeer(a: SocketAddr): bytes {
    match a
    case V4(ip, port) => [0, 1] + (BE(Mask16(port), 2) + BE(Mask32(ip), 4))
    case V6(octets, port) => [0, 2] + (BE(Mask16(port), 2) + octets)
  }

  function ParseXorMapped(val: bytes, tid: Tid): Option<SocketAddr> {
    if |val| < 8 then None
    else
      var port := Mask16(Field(val, 2));
      if val[1] == 0x01 then Some(V4(Mask32(ReadIp(val)), port))
      else if val[1] == 0x02 && |val| >= 20 then Some(V6(Mask6(val[4..20], tid), port))
      else None
  }

  lemma V4RoundTrips(ip: u32, port: u16, tid: Tid)
    ensures ParseXorMapped(EncodeXorPeer(V4(ip, port)), tid) == Some(V4(ip, port))
  {
    var val := EncodeXorPeer(V4(ip, port));
    AddressLayout(1, Mask16(port), BE(Mask32(ip), 4));
    assert val[4..8] == val[4..];
    IpReads(Mask32(ip), 4);
    MaskTwice(port, ip, 0, 0);
  }

  lemma V6ComesBackMasked(octets: bytes, port: u16, tid: Tid)
    requires |octets| == 16
    ensures ParseXorMapped(EncodeXorPeer(V6(octets, port)), tid) == Some(V6(Mask6(octets, tid), port))
  {
    var val := EncodeXorPeer(V6(octets, port));
    AddressLayout(2, Mask16(port), octets);
    assert val[4..20] == val[4..];
    MaskTwice(port, 0, 0, 0);
  }

  /** The address codec round-trips if and only if the address is IPv4: the encoder leaves IPv6 octets
      unmasked, against section 15.2 of RFC 5389, and the decoder always unmasks. */
  lemma PeerAddressRoundTrip(a: SocketAddr, tid: Tid)
    requires Proper(a)
    ensures ParseXorMapped(EncodeXorPeer(a), tid) == Some(a) <==> a.V4?
  {
    match a
    case V4(ip, port) => V4RoundTrips(ip, port, tid);
    case V6(octets, port) =>
      V6ComesBackMasked(octets, port, tid);
      MaskChangesV6(octets, tid);
  }
}
