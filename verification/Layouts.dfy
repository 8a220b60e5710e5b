/** Where each wire format puts each byte: offsets and byte orders, spelled out digit by digit. */
module Layouts {
  import opened Bits
  import opened Bytes
  import Packet
  import Sack
  import SackCodec
  import Packer
  import Direct
  import Tlv
  import Addresses

  /** The w bytes at `pos` are the digits of `v` to base 256, least significant first... */
  ghost predicate LittleAt(buf: bytes, pos: nat, v: nat, w: nat) {
    pos + w <= |buf| && forall i: nat | i < w :: buf[pos + i] == v / Pow256(i) % 256
  }

  /** ...or most significant first. */
  ghost predicate BigAt(buf: bytes, pos: nat, v: nat, w: nat) {
    pos + w <= |buf| && forall i: nat | i < w :: buf[pos + (w - 1 - i)] == v / Pow256(i) % 256
  }

  lemma LittleSlice(buf: bytes, pos: nat, v: nat, w: nat)
    requires pos + w <= |buf| && buf[pos..pos + w] == LE(v, w)
    ensures LittleAt(buf, pos, v, w)
  {
    forall i: nat | i < w ensures buf[pos + i] == v / Pow256(i) % 256 {
      LEAt(v, w, i);
      assert buf[pos + i] == buf[pos..pos + w][i];
    }
  }

  lemma BigSlice(buf: bytes, pos: nat, v: nat, w: nat)
    requires pos + w <= |buf| && buf[pos..pos + w] == BE(v, w)
    ensures BigAt(buf, pos, v, w)
  {
    forall i: nat | i < w ensures buf[pos + (w - 1 - i)] == v / Pow256(i) % 256 {
      BEAt(v, w, i);
      assert buf[pos + (w - 1 - i)] == buf[pos..pos + w][w - 1 - i];
    }
  }

  /** The 29 bytes of a packet header. */
  lemma PacketLayout(h: Packet.Header)
    ensures var b := Packet.Encode(h);
      && LittleAt(b, 0, h.sessionId, 4) && LittleAt(b, 4, h.sequenceNumber, 8) && LittleAt(b, 12, h.timestampUs, 8)
      && b[20] == h.flags && LittleAt(b, 21, h.payloadLen, 2) && LittleAt(b, 23, h.fecGroupId, 4)
      && b[27] == h.fecIndex && b[28] == h.fecGroupSize && |b| == 29
  {
    var b := Packet.Encode(h);
    Packet.FieldsOf(h, []);
    assert b + [] == b;
    LittleSlice(b, 0, h.sessionId, 4);
    LittleSlice(b, 4, h.sequenceNumber, 8);
    LittleSlice(b, 12, h.timestampUs, 8);
    LittleSlice(b, 21, h.payloadLen, 2);
    LittleSlice(b, 23, h.fecGroupId, 4);
  }

  lemma {:induction false} WordAt(ws: seq<u64>, k: nat)
    requires k < |ws|
    ensures SackCodec.WordBytes(ws)[8 * k..8 * k + 8] == LE(ws[k], 8)
  {
    var w, rest := LE(ws[0], 8), SackCodec.WordBytes(ws[1..]);
    if k > 0 {
      WordAt(ws[1..], k - 1);
      assert (w + rest)[8 * k..8 * k + 8] == rest[8 * (k - 1)..8 * (k - 1) + 8];
    }
  }

  /** A serialised SACK: base, count, and word k at offset 9 + 8k. */
  lemma SackLayout(p: Sack.Payload, k: nat)
    requires |p.words| == Sack.SACK_WORDS && p.wordCount <= Sack.SACK_WORDS
    ensures var b := SackCodec.Encode(p);
      && LittleAt(b, 0, p.base, 8) && b[8] == p.wordCount && |b| == 9 + 8 * p.wordCount
      && (k < p.wordCount ==> LittleAt(b, 9 + 8 * k, p.words[k], 8))
  {
    var b, ws := SackCodec.Encode(p), p.words[..p.wordCount];
    var body := SackCodec.WordBytes(ws);
    assert b[0..8] == LE(p.base, 8);
    LittleSlice(b, 0, p.base, 8);
    if k < p.wordCount {
      WordAt(ws, k);
      assert b[9 + 8 * k..9 + 8 * k + 8] == body[8 * k..8 * k + 8];
      LittleSlice(b, 9 + 8 * k, p.words[k], 8);
    }
  }

  /** A block: magic, version, id, entry count, then the manifest, then the payload. */
  lemma BlockLayout(id: u64, es: seq<Packer.FileEntry>, payload: bytes)
    requires |es| < TWO32
    ensures var b, m := Packer.Serialised(id, es, payload), Packer.ManifestBytes(es);
      && LittleAt(b, 0, 0x5544_5058, 4) && LittleAt(b, 4, 1, 2) && LittleAt(b, 6, id, 8) && LittleAt(b, 14, |es|, 4)
      && b[18..] == m + payload
  {
    Below32(|es|);
    BlockHeader(Packer.Serialised(id, es, payload), id, |es|, Packer.ManifestBytes(es) + payload);
  }

  lemma BlockHeader(b: bytes, id: u64, n: u32, rest: bytes)
    requires b == LE(Packer.MAGIC, 4) + (LE(Packer.VERSION, 2) + (LE(id, 8) + (LE(n, 4) + rest)))
    ensures LittleAt(b, 0, 0x5544_5058, 4) && LittleAt(b, 4, 1, 2) && LittleAt(b, 6, id, 8) && LittleAt(b, 14, n, 4)
    ensures b[18..] == rest
  {
    var w, x, y, z := LE(Packer.MAGIC, 4), LE(Packer.VERSION, 2), LE(id, 8), LE(n, 4);
    FourSlices(b, w, x, y, z, rest);
    LittleSlice(b, 0, 0x5544_5058, 4);
    LittleSlice(b, 4, 1, 2);
    LittleSlice(b, 6, id, 8);
    LittleSlice(b, 14, n, 4);
  }

  lemma FourSlices(b: bytes, w: bytes, x: bytes, y: bytes, z: bytes, rest: bytes)
    requires b == w + (x + (y + (z + rest))) && |w| == |z| == 4 && |x| == 2 && |y| == 8
    ensures |b| >= 18 && b[0..4] == w && b[4..6] == x && b[6..14] == y && b[14..18] == z && b[18..] == rest
  {
  }

  /** A manifest entry: the path behind its 2-byte length, then offset, size, part and number of parts. */
  lemma EntryLayout(e: Packer.FileEntry)
    ensures var b, n := Packer.EntryBytes(e), |e.path|;
      && LittleAt(b, 0, n, 2) && b[2..2 + n] == e.path && |b| == 26 + n
      && LittleAt(b, 2 + n, e.offset, 8) && LittleAt(b, 10 + n, e.size, 8)
      && LittleAt(b, 18 + n, e.partIndex, 4) && LittleAt(b, 22 + n, e.totalParts, 4)
  {
    var b, n, tail := Packer.EntryBytes(e), |e.path|, Packer.EntryTail(e);
    assert b[0..] == b;
    ReadField(b, 0, LE(n, 2), e.path + tail);
    ReadField(b, 2, e.path, tail);
    LittleSlice(b, 0, n, 2);
    TailLayout(b, 2 + n, e);
  }

  lemma TailLayout(b: bytes, pos: nat, e: Packer.FileEntry)
    requires pos <= |b| && b[pos..] == Packer.EntryTail(e)
    ensures LittleAt(b, pos, e.offset, 8) && LittleAt(b, pos + 8, e.size, 8)
    ensures LittleAt(b, pos + 16, e.partIndex, 4) && LittleAt(b, pos + 20, e.totalParts, 4)
  {
    var o, s, i, t := LE(e.offset, 8), LE(e.size, 8), LE(e.partIndex, 4), LE(e.totalParts, 4);
    ReadField(b, pos, o, s + (i + t));
    ReadField(b, pos + 8, s, i + t);
    ReadField(b, pos + 16, i, t);
    assert b[pos + 20..pos + 24] == b[pos + 20..];
    LittleSlice(b, pos, e.offset, 8);
    LittleSlice(b, pos + 8, e.size, 8);
    LittleSlice(b, pos + 16, e.partIndex, 4);
    LittleSlice(b, pos + 20, e.totalParts, 4);
  }

  /** A frame of direct mode: the block behind its 8-byte length. */
  lemma FrameLayout(block: bytes)
    requires |block| < TWO64
    ensures LittleAt(Direct.Frame(block), 0, |block|, 8) && Direct.Frame(block)[8..] == block
  {
    Below64(|block|);
    var f := Direct.Frame(block);
    assert f[0..8] == LE(|block|, 8);
    LittleSlice(f, 0, |block|, 8);
  }

  /** An attribute: type and length in network order, the value, and zeros up to a multiple of four. */
  lemma AttributeLayout(a: Tlv.Attr)
    requires |a.value| < TWO16
    ensures var b, n := Tlv.AttrBytes(a), |a.value|;
      && BigAt(b, 0, a.kind, 2) && BigAt(b, 2, n, 2) && b[4..4 + n] == a.value
      && |b| % 4 == 0 && 4 + n <= |b| < 8 + n && forall i | 4 + n <= i < |b| :: b[i] == 0
  {
    Below16(|a.value|);
    var b, n, zeros := Tlv.AttrBytes(a), |a.value|, Zeros(Tlv.Pad(|a.value|));
    assert b[0..] == b;
    ReadField(b, 0, BE(a.kind, 2), BE(n, 2) + (a.value + zeros));
    ReadField(b, 2, BE(n, 2), a.value + zeros);
    ReadField(b, 4, a.value, zeros);
    BigSlice(b, 0, a.kind, 2);
    BigSlice(b, 2, n, 2);
    forall i | 4 + n <= i < |b| ensures b[i] == 0 { assert b[i] == b[4 + n..][i - (4 + n)]; }
  }

  /** A STUN or TURN header: type, body length, cookie, transaction id. */
  lemma MessageLayout(msgType: u16, length: nat, tid: Tlv.Tid)
    requires length < TWO16
    ensures var b := Tlv.Header(msgType, length, tid);
      && BigAt(b, 0, msgType, 2) && BigAt(b, 2, length, 2)
      && b[4..8] == [0x21, 0x12, 0xA4, 0x42] && b[8..] == tid && |b| == 20
  {
    Below16(length);
    Addresses.CookieBytes(4);
    var b := Tlv.Header(msgType, length, tid);
    var cookie := BE(Tlv.MAGIC_COOKIE, 4);
    assert b[0..] == b;
    ReadField(b, 0, BE(msgType, 2), BE(length, 2) + (cookie + tid));
    ReadField(b, 2, BE(length, 2), cookie + tid);
    ReadField(b, 4, cookie, tid);
    BigSlice(b, 0, msgType, 2);
    BigSlice(b, 2, length, 2);
  }
}
