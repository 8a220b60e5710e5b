/** Transport addresses as STUN attributes carry them: port and address masked with the magic cookie
    (section 15.2 of RFC 5389). */
module Addresses {
  import opened Bits
  import opened Bytes
  import opened Tlv

  datatype SocketAddr = V4(ip: u32, port: u16) | V6(octets: seq<byte>, port: u16)

  predicate Proper(a: SocketAddr) {
    a.V6? ==> |a.octets| == 16
  }

  function Mask16(v: u16): u16 {
    assert Pow2(8) == 256;
    Pow2Adds(8, 8);
    XorFits(v, MAGIC_COOKIE / TWO16, 16);
    Xor(v, MAGIC_COOKIE / TWO16)
  }

  function Mask32(v: u32): u32 {
    assert Pow2(8) == 256;
    Pow2Adds(8, 8);
    Pow2Adds(16, 16);
    XorFits(v, MAGIC_COOKIE, 32);
    Xor(v, MAGIC_COOKIE)
  }

  function XorByte(a: byte, b: byte): byte {
    assert Pow2(8) == 256;
    XorFits(a, b, 8);
    Xor(a, b)
  }

  /** The cookie followed by the transaction id. */
  function Key6(tid: Tid): (r: bytes)
    ensures |r| == 16
  {
    BE(MAGIC_COOKIE, 4) + tid
  }

  function Mask6(octets: bytes, tid: Tid): (r: bytes)
    requires |octets| == 16
    ensures |r| == 16
    ensures forall i | 0 <= i < 16 :: r[i] == XorByte(octets[i], Key6(tid)[i])
  {
    seq(16, i requires 0 <= i < 16 => XorByte(octets[i], Key6(tid)[i]))
  }

  function ReadIp(val: bytes): u32
    requires |val| >= 8
  {
    Pow256Widths();
    FromBE(val[4..8])
  }

  // ---- what the masks are ----

  /** Bit by bit, the port is the field with the bits of 0x2112 flipped. */
  lemma PortBits(v: u16, i: nat)
    ensures Bit(Mask16(v), i) == (Bit(v, i) != Bit(0x2112, i))
  {
    BitOfXor(v, 0x2112, i);
  }

  /** The IPv4 address is its four bytes, most significant first, with the bits of 0x2112A442 flipped. */
  lemma AddressBits(val: bytes, i: nat)
    requires |val| >= 8
    ensures Bit(Mask32(ReadIp(val)), i) == (Bit(FourBytes(val[4..8]), i) != Bit(0x2112_A442, i))
  {
    FourBytesRead(val[4..8]);
    BitOfXor(ReadIp(val), 0x2112_A442, i);
  }

  function FourBytes(b: bytes): nat
    requires |b| == 4
  {
    b[0] as int * 0x100_0000 + b[1] as int * 0x1_0000 + b[2] as int * 0x100 + b[3]
  }

  lemma FourBytesRead(b: bytes)
    requires |b| == 4
    ensures FromBE(b) == FourBytes(b)
  {
    assert b[..3][..2] == b[..2] && b[..2][..1] == b[..1] && b[..1][..0] == [];
    assert FromBE(b[..1]) == 256 * FromBE([]) + b[0];
    assert FromBE(b[..2]) == 256 * FromBE(b[..1]) + b[1];
    assert FromBE(b[..3]) == 256 * FromBE(b[..2]) + b[2];
  }

  /** An IPv6 octet is the wire's with the bits of the cookie's four bytes, then the transaction id, flipped. */
  lemma OctetBits(octets: bytes, tid: Tid, k: nat, i: nat)
    requires |octets| == 16 && k < 16
    ensures Bit(Mask6(octets, tid)[k], i) == (Bit(octets[k], i) != Bit(([0x21, 0x12, 0xA4, 0x42] + tid)[k], i))
  {
    CookieBytes(4);
    BitOfXor(octets[k], Key6(tid)[k], i);
  }

  lemma CookieBytes(w: nat)
    requires w == 4
    ensures BE(MAGIC_COOKIE, w) == [0x21, 0x12, 0xA4, 0x42]
  {
    assert BE(MAGIC_COOKIE, w) == BE(MAGIC_COOKIE / 256, w - 1) + [MAGIC_COOKIE % 256];
    assert BE(MAGIC_COOKIE / 256, w - 1) == BE(MAGIC_COOKIE / 65536, w - 2) + [MAGIC_COOKIE / 256 % 256];
    assert BE(MAGIC_COOKIE / 65536, w - 2) == BE(MAGIC_COOKIE / 16777216, w - 3) + [MAGIC_COOKIE / 65536 % 256];
    assert BE(MAGIC_COOKIE / 16777216, w - 3) == [] + [0x21];
  }

  lemma MaskTwice(v: u16, ip: u32, a: byte, b: byte)
    ensures Mask16(Mask16(v)) == v && Mask32(Mask32(ip)) == ip && XorByte(XorByte(a, b), b) == a
  {
    XorTwice(v, MAGIC_COOKIE / TWO16);
    XorTwice(ip, MAGIC_COOKIE);
    XorTwice(a, b);
  }

  lemma IpReads(v: u32, w: nat)
    requires w == 4
    ensures FromBE(BE(v, w)) == v
  {
    WidthOf32(w);
    FromBEInverts(v, w);
  }

  lemma AddressLayout(family: byte, port: u16, ip: bytes)
    ensures var val := [0, family] + (BE(port, 2) + ip);
      |val| == 4 + |ip| && val[1] == family && Field(val, 2) == port && val[4..] == ip
  {
    var val := [0, family] + (BE(port, 2) + ip);
    assert val[0..] == val;
    ReadField(val, 0, [0, family], BE(port, 2) + ip);
    ReadField(val, 2, BE(port, 2), ip);
    FieldReads(port, 2);
  }

  lemma MaskChangesV6(octets: bytes, tid: Tid)
    requires |octets| == 16
    ensures Mask6(octets, tid) != octets
  {
    CookieBytes(4);
    var a := octets[0];
    assert Key6(tid)[0] == 0x21;
    assert Mask6(octets, tid)[0] == XorByte(a, 0x21);
    assert XorByte(a, 0x21) % 2 != a % 2;
  }
}
