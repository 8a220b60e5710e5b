/** STUN messages (crates/traversal/src/stun.rs). */
module Stun {
  import opened Bits
  import opened Bytes
  import opened Seqs
  import opened Tlv
  import opened Addresses
  import Turn

  const ATTR_MAPPED: u16 := 0x0001
  const ATTR_XOR_MAPPED: u16 := 0x0020

  datatype StunAttribute = XorMappedAddress(addr: SocketAddr) | MappedAddress(addr: SocketAddr)
                         | Unknown(kind: u16, data: bytes)

  datatype StunMessage = StunMessage(msgType: u16, tid: Tid, attributes: seq<StunAttribute>)

  datatype Error = MessageTooShort | CookieMismatch | BodyCut | AttributeOverflow | BadAddress

  // ---- decoding ----

  function DecodeXorMapped(val: bytes, tid: Tid): Result<SocketAddr, Error> {
    if |val| < 4 then Err(BadAddress)
    else
      var port := Mask16(Field(val, 2));
      if val[1] == 0x01 then (if |val| < 8 then Err(BadAddress) else Ok(V4(Mask32(ReadIp(val)), port)))
      else if val[1] == 0x02 then (if |val| < 20 then Err(BadAddress) else Ok(V6(Mask6(val[4..20], tid), port)))
      else Err(BadAddress)
  }

  function DecodeMapped(val: bytes): Result<SocketAddr, Error> {
    if |val| < 4 then Err(BadAddress)
    else if val[1] == 0x01 then (if |val| < 8 then Err(BadAddress) else Ok(V4(ReadIp(val), Field(val, 2))))
    else Err(BadAddress)
  }

  predicate Known(kind: u16) {
    kind == ATTR_MAPPED || kind == ATTR_XOR_MAPPED
  }

  function Decode(a: Attr, tid: Tid): Result<StunAttribute, Error> {
    if a.kind == ATTR_XOR_MAPPED then
      match DecodeXorMapped(a.value, tid) case Ok(x) => Ok(XorMappedAddress(x)) case Err(e) => Err(e)
    else if a.kind == ATTR_MAPPED then
      match DecodeMapped(a.value) case Ok(x) => Ok(MappedAddress(x)) case Err(e) => Err(e)
    else Ok(Unknown(a.kind, a.value))
  }

  function Prepend(x: StunAttribute, r: Result<seq<StunAttribute>, Error>): Result<seq<StunAttribute>, Error> {
    match r case Ok(xs) => Ok([x] + xs) case Err(e) => Err(e)
  }

  /** Unlike the TURN parser, an attribute overrunning the buffer is an error. */
  function ParsedAttributes(buf: bytes, pos: nat, tid: Tid): Result<seq<StunAttribute>, Error>
    decreases |buf| + 4 - pos
  {
    if pos + 4 > |buf| then Ok([])
    else
      var n := Field(buf, pos + 2);
      if pos + 4 + n > |buf| then Err(AttributeOverflow)
      else
        match Decode(Attr(Field(buf, pos), buf[pos + 4..pos + 4 + n]), tid)
        case Err(e) => Err(e)
        case Ok(x) => Prepend(x, ParsedAttributes(buf, pos + 4 + n + Pad(n), tid))
  }

  function ReadCookie(buf: bytes): u32
    requires |buf| >= HEADER_LEN
  {
    Pow256Widths();
    FromBE(buf[4..8])
  }

  function Parsing(buf: bytes): Result<StunMessage, Error> {
    if |buf| < HEADER_LEN then Err(MessageTooShort)
    else if ReadCookie(buf) != MAGIC_COOKIE then Err(CookieMismatch)
    else if |buf| < HEADER_LEN + Field(buf, 2) then Err(BodyCut)
    else
      match ParsedAttributes(buf[HEADER_LEN..HEADER_LEN + Field(buf, 2)], 0, buf[8..20])
      case Err(e) => Err(e)
      case Ok(attributes) => Ok(StunMessage(Field(buf, 0), buf[8..20], attributes))
  }

  // ---- encoding ----

  /** Address attributes are read-only: they serialise to nothing. */
  function Raw(x: StunAttribute): seq<Attr> {
    if x.Unknown? then [Attr(x.kind, x.data)] else []
  }

  function Raws(xs: seq<StunAttribute>): (r: seq<Attr>)
    ensures |r| <= |xs|
  {
    if xs == [] then [] else Raw(xs[0]) + Raws(xs[1..])
  }

  function Serialised(m: StunMessage): bytes {
    Message(m.msgType, m.tid, Body(Raws(m.attributes)))
  }

  // ---- the methods ----

  lemma {:induction false} BodyAppend(a: seq<Attr>, b: seq<Attr>)
    ensures Body(a + b) == Body(a) + Body(b)
    decreases |b|
  {
    if b == [] {
      assert a + b == a;
    } else {
      var i := |b| - 1;
      BodyAppend(a, b[..i]);
      assert a + b == (a + b[..i]) + [b[i]] && b == b[..i] + [b[i]];
      BodySnoc(a + b[..i], b[i]);
      Assoc(Body(a), Body(b[..i]), AttrBytes(b[i]));
    }
  }

  lemma {:induction false} RawsAppend(xs: seq<StunAttribute>, ys: seq<StunAttribute>)
    ensures Raws(xs + ys) == Raws(xs) + Raws(ys)
    decreases |xs|
  {
    if xs == [] {
      assert xs + ys == ys;
    } else {
      RawsAppend(xs[1..], ys);
      TailOfSum(xs, ys);
      Assoc(Raw(xs[0]), Raws(xs[1..]), Raws(ys));
    }
  }

  lemma TailOfSum(xs: seq<StunAttribute>, ys: seq<StunAttribute>)
    requires xs != []
    ensures xs + ys != [] && (xs + ys)[0] == xs[0] && (xs + ys)[1..] == xs[1..] + ys
  {
  }

  lemma RawBody(done: seq<StunAttribute>, x: StunAttribute)
    ensures Body(Raws(done + [x])) == Body(Raws(done)) + Body(Raw(x))
  {
    RawsAppend(done, [x]);
    assert Raws([x]) == Raw(x) + Raws([]) == Raw(x);
    BodyAppend(Raws(done), Raw(x));
  }

  method SerialiseAttribute(attr: StunAttribute, out: bytes) returns (out': bytes)
    ensures out' == out + Body(Raw(attr))
  {
    match attr {
      case Unknown(kind, data) =>
        BodySnoc([], Attr(kind, data));
        out' := out + (BE(kind, 2) + (BE(|data| % TWO16, 2) + (data + Zeros(Pad(|data|)))));
      case _ =>
        out' := out;
    }
  }

  method Serialise(m: StunMessage) returns (out: bytes)
    ensures out == Serialised(m)
  {
    var body: bytes := [];
    for i := 0 to |m.attributes|
      invariant body == Body(Raws(m.attributes[..i]))
    {
      RawBody(m.attributes[..i], m.attributes[i]);
      assert m.attributes[..i + 1] == m.attributes[..i] + [m.attributes[i]];
      body := SerialiseAttribute(m.attributes[i], body);
    }
    assert m.attributes[..|m.attributes|] == m.attributes;
    out := Header(m.msgType, |body|, m.tid) + body;
  }

  ghost function After(done: seq<StunAttribute>, r: Result<seq<StunAttribute>, Error>)
    : Result<seq<StunAttribute>, Error>
  {
    match r case Ok(xs) => Ok(done + xs) case Err(e) => Err(e)
  }

  lemma AfterOne(done: seq<StunAttribute>, x: StunAttribute, r: Result<seq<StunAttribute>, Error>)
    ensures After(done, Prepend(x, r)) == After(done + [x], r)
    ensures After([], r) == r
  {
    if r.Ok? {
      Assoc(done, [x], r.value);
      assert [] + r.value == r.value;
    }
  }

  method ParseAttributes(buf: bytes, tid: Tid) returns (r: Result<seq<StunAttribute>, Error>)
    ensures r == ParsedAttributes(buf, 0, tid)
  {
    var attrs: seq<StunAttribute> := [];
    var pos := 0;
    AfterOne([], Unknown(0, []), ParsedAttributes(buf, 0, tid));
    while pos + 4 <= |buf|
      invariant ReadSoFar(attrs, buf, pos, tid)
      decreases |buf| + 4 - pos
    {
      var kind, n := Field(buf, pos), Field(buf, pos + 2);
      if pos + 4 + n > |buf| { return Err(AttributeOverflow); }
      var attr := Decode(Attr(kind, buf[pos + 4..pos + 4 + n]), tid);
      if attr.Err? { return Err(attr.error); }
      OneMore(attrs, buf, pos, tid, n, attr.value);
      attrs := attrs + [attr.value];
      pos := pos + 4 + n + Pad(n);
    }
    ReadAll(attrs, buf, pos, tid);
    r := Ok(attrs);
  }

  lemma ReadAll(done: seq<StunAttribute>, buf: bytes, pos: nat, tid: Tid)
    requires ReadSoFar(done, buf, pos, tid) && pos + 4 > |buf|
    ensures ParsedAttributes(buf, 0, tid) == Ok(done)
  {
    assert done + [] == done;
  }

  ghost predicate ReadSoFar(done: seq<StunAttribute>, buf: bytes, pos: nat, tid: Tid) {
    After(done, ParsedAttributes(buf, pos, tid)) == ParsedAttributes(buf, 0, tid)
  }

  lemma OneMore(done: seq<StunAttribute>, buf: bytes, pos: nat, tid: Tid, n: u16, x: StunAttribute)
    requires pos + 4 + n <= |buf| && n == Field(buf, pos + 2)
    requires Decode(Attr(Field(buf, pos), buf[pos + 4..pos + 4 + n]), tid) == Ok(x)
    requires ReadSoFar(done, buf, pos, tid)
    ensures ReadSoFar(done + [x], buf, pos + 4 + n + Pad(n), tid)
  {
    ParsedOne(buf, pos, tid, n, x);
    AfterOne(done, x, ParsedAttributes(buf, pos + 4 + n + Pad(n), tid));
  }

  lemma ParsedOne(buf: bytes, pos: nat, tid: Tid, n: u16, x: StunAttribute)
    requires pos + 4 + n <= |buf| && n == Field(buf, pos + 2)
    requires Decode(Attr(Field(buf, pos), buf[pos + 4..pos + 4 + n]), tid) == Ok(x)
    ensures ParsedAttributes(buf, pos, tid) == Prepend(x, ParsedAttributes(buf, pos + 4 + n + Pad(n), tid))
  {
  }

  method Parse(buf: bytes) returns (r: Result<StunMessage, Error>)
    ensures r == Parsing(buf)
  {
    if |buf| < HEADER_LEN { return Err(MessageTooShort); }
    var attrLen := Field(buf, 2);
    if ReadCookie(buf) != MAGIC_COOKIE { return Err(CookieMismatch); }
    var tid: Tid := buf[8..20];
    if |buf| < HEADER_LEN + attrLen { return Err(BodyCut); }
    var attributes := ParseAttributes(buf[HEADER_LEN..HEADER_LEN + attrLen], tid);
    match attributes {
      case Err(e) => r := Err(e);
      case Ok(xs) => r := Ok(StunMessage(Field(buf, 0), tid, xs));
    }
  }

  /** The first XOR-MAPPED-ADDRESS; without one the last, not the first, MAPPED-ADDRESS. */
  method MappedAddr(attributes: seq<StunAttribute>) returns (r: Option<SocketAddr>)
    ensures r.None? <==> forall i | 0 <= i < |attributes| :: attributes[i].Unknown?
    ensures r.Some? ==> exists i | 0 <= i < |attributes| ::
              && !attributes[i].Unknown? && attributes[i].addr == r.value
              && (attributes[i].XorMappedAddress? ==> forall j | 0 <= j < i :: !attributes[j].XorMappedAddress?)
              && (attributes[i].MappedAddress? ==>
                    && (forall j | 0 <= j < |attributes| :: !attributes[j].XorMappedAddress?)
                    && (forall j | i < j < |attributes| :: attributes[j].Unknown?))
  {
    var fallback: Option<SocketAddr> := None;
    ghost var at := 0;
    for i := 0 to |attributes|
      invariant forall j | 0 <= j < i :: !attributes[j].XorMappedAddress?
      invariant fallback.None? ==> forall j | 0 <= j < i :: attributes[j].Unknown?
      invariant fallback.Some? ==> 0 <= at < i && attributes[at] == MappedAddress(fallback.value)
      invariant fallback.Some? ==> forall j | at < j < i :: attributes[j].Unknown?
    {
      match attributes[i] {
        case XorMappedAddress(a) => return Some(a);
        case MappedAddress(a) => fallback, at := Some(a), i;
        case Unknown(_, _) =>
      }
    }
    r := fallback;
  }

  lemma CookieIs(buf: bytes)
    requires |buf| >= HEADER_LEN
    ensures ReadCookie(buf) == MAGIC_COOKIE <==> buf[4..8] == [0x21, 0x12, 0xA4, 0x42]
  {
    FourBytesRead(buf[4..8]);
  }

  /** Which error comes first: too short for a header, not a STUN message, cut short; and what an accepted message
      says of itself. */
  lemma HeaderDecides(buf: bytes)
    ensures |buf| < 20 ==> Parsing(buf) == Err(MessageTooShort)
    ensures |buf| >= 20 && buf[4..8] != [0x21, 0x12, 0xA4, 0x42] ==> Parsing(buf) == Err(CookieMismatch)
    ensures |buf| >= 20 && buf[4..8] == [0x21, 0x12, 0xA4, 0x42] && |buf| < 20 + (buf[2] as int * 256 + buf[3]) ==>
              Parsing(buf) == Err(BodyCut)
    ensures Parsing(buf).Ok? ==> |buf| >= 20 && var m := Parsing(buf).value;
              m.msgType == buf[0] as int * 256 + buf[1] && m.tid == buf[8..20]
  {
    if |buf| >= 20 {
      CookieIs(buf);
      FieldIs(buf, 0);
      FieldIs(buf, 2);
    }
  }

  // ---- the two parsers ----

  /** The STUN and the TURN decoder accept the same masked addresses and read them alike. */
  lemma DecodersAgree(val: bytes, tid: Tid)
    ensures DecodeXorMapped(val, tid).Ok? <==> Turn.ParseXorMapped(val, tid).Some?
    ensures DecodeXorMapped(val, tid).Ok? ==> Turn.ParseXorMapped(val, tid) == Some(DecodeXorMapped(val, tid).value)
  {
  }

  /** Which mask comes off, whichever decoder reads the value: bit by bit, the port's key is 0x2112... */
  lemma UnmaskedV4(val: bytes, tid: Tid, ip: u32, port: u16, i: nat)
    requires DecodeXorMapped(val, tid) == Ok(V4(ip, port)) || Turn.ParseXorMapped(val, tid) == Some(V4(ip, port))
    ensures |val| >= 8 && val[1] == 1
    ensures Bit(port, i) == (Bit(val[2] as int * 256 + val[3], i) != Bit(0x2112, i))
    ensures Bit(ip, i) == (Bit(FourBytes(val[4..8]), i) != Bit(0x2112_A442, i))
  {
    FieldIs(val, 2);
    PortBits(Field(val, 2), i);
    AddressBits(val, i);
  }

  /** ...and that of an IPv6 address is the cookie followed by the transaction id. */
  lemma UnmaskedV6(val: bytes, tid: Tid, octets: bytes, port: u16, k: nat, i: nat)
    requires DecodeXorMapped(val, tid) == Ok(V6(octets, port)) ||
             Turn.ParseXorMapped(val, tid) == Some(V6(octets, port))
    requires k < 16
    ensures |val| >= 20 && val[1] == 2 && |octets| == 16
    ensures Bit(port, i) == (Bit(val[2] as int * 256 + val[3], i) != Bit(0x2112, i))
    ensures Bit(octets[k], i) == (Bit(val[4 + k], i) != Bit(([0x21, 0x12, 0xA4, 0x42] + tid)[k], i))
  {
    FieldIs(val, 2);
    PortBits(Field(val, 2), i);
    OctetBits(val[4..20], tid, k, i);
  }

  /** An unmasked address is read as it stands; IPv6 is not. */
  lemma PlainAddress(val: bytes)
    ensures DecodeMapped(val).Ok? <==> |val| >= 8 && val[1] == 1
    ensures DecodeMapped(val).Ok? ==>
              DecodeMapped(val).value == V4(FourBytes(val[4..8]), val[2] as int * 256 + val[3])
  {
    if |val| >= 8 {
      FieldIs(val, 2);
      FourBytesRead(val[4..8]);
    }
  }

  ghost predicate DecodesTo(raws: seq<Attr>, xs: seq<StunAttribute>, tid: Tid) {
    |raws| == |xs| && forall i | 0 <= i < |xs| :: Decode(raws[i], tid) == Ok(xs[i])
  }

  lemma DecodesCons(a: Attr, x: StunAttribute, raws: seq<Attr>, xs: seq<StunAttribute>, tid: Tid)
    requires Decode(a, tid) == Ok(x) && DecodesTo(raws, xs, tid)
    ensures DecodesTo([a] + raws, [x] + xs, tid)
  {
  }

  lemma StepIsRaw(buf: bytes, pos: nat, tid: Tid)
    requires pos + 4 <= |buf| && ParsedAttributes(buf, pos, tid).Ok?
    ensures var n := Field(buf, pos + 2);
      pos + 4 + n <= |buf| && ParsedAttributes(buf, pos + 4 + n + Pad(n), tid).Ok?
    ensures var n := Field(buf, pos + 2);
      var a := Attr(Field(buf, pos), buf[pos + 4..pos + 4 + n]);
      && Decode(a, tid).Ok?
      && Parsed(buf, pos) == [a] + Parsed(buf, pos + 4 + n + Pad(n))
      && ParsedAttributes(buf, pos, tid).value ==
         [Decode(a, tid).value] + ParsedAttributes(buf, pos + 4 + n + Pad(n), tid).value
  {
  }

  /** Whatever the STUN parser accepts, the TURN parser reads as the same attributes undecoded. */
  lemma {:induction false} StrictIsRaw(buf: bytes, pos: nat, tid: Tid)
    requires ParsedAttributes(buf, pos, tid).Ok?
    ensures DecodesTo(Parsed(buf, pos), ParsedAttributes(buf, pos, tid).value, tid)
    decreases |buf| + 4 - pos
  {
    if pos + 4 <= |buf| {
      StepIsRaw(buf, pos, tid);
      var n := Field(buf, pos + 2);
      StrictIsRaw(buf, pos + 4 + n + Pad(n), tid);
      StrictCons(buf, pos, pos + 4 + n + Pad(n), Attr(Field(buf, pos), buf[pos + 4..pos + 4 + n]), tid);
    }
  }

  lemma StrictCons(buf: bytes, pos: nat, next: nat, a: Attr, tid: Tid)
    requires ParsedAttributes(buf, pos, tid).Ok? && ParsedAttributes(buf, next, tid).Ok? && Decode(a, tid).Ok?
    requires DecodesTo(Parsed(buf, next), ParsedAttributes(buf, next, tid).value, tid)
    requires Parsed(buf, pos) == [a] + Parsed(buf, next)
    requires ParsedAttributes(buf, pos, tid).value == [Decode(a, tid).value] + ParsedAttributes(buf, next, tid).value
    ensures DecodesTo(Parsed(buf, pos), ParsedAttributes(buf, pos, tid).value, tid)
  {
    DecodesCons(a, Decode(a, tid).value, Parsed(buf, next), ParsedAttributes(buf, next, tid).value, tid);
  }

  lemma ParsesOne(buf: bytes, pos: nat, a: Attr, rest: bytes, tid: Tid)
    requires pos <= |buf| && buf[pos..] == AttrBytes(a) + rest && |a.value| < TWO16 && !Known(a.kind)
    ensures pos + |AttrBytes(a)| <= |buf| && buf[pos + |AttrBytes(a)|..] == rest
    ensures ParsedAttributes(buf, pos + |AttrBytes(a)|, tid).Ok? ==> ParsedAttributes(buf, pos, tid).Ok?
  {
    AttrFields(buf, pos, a, rest);
  }

  /** And when the raw attributes all decode and nothing overruns, the STUN parser accepts. */
  lemma {:induction false} PlainParses(buf: bytes, pos: nat, raws: seq<Attr>, tid: Tid)
    requires pos <= |buf| && buf[pos..] == Body(raws) && Encodable(raws)
    requires forall i | 0 <= i < |raws| :: !Known(raws[i].kind)
    ensures ParsedAttributes(buf, pos, tid).Ok?
    decreases |raws|
  {
    if raws != [] {
      var a, rest := raws[0], raws[1..];
      BodySplit(raws);
      ParsesOne(buf, pos, a, Body(rest), tid);
      PlainParses(buf, pos + |AttrBytes(a)|, rest, tid);
    }
  }

  // ---- round trip ----

  predicate Plain(x: StunAttribute) {
    x.Unknown? && !Known(x.kind)
  }

  predicate AllPlain(xs: seq<StunAttribute>) {
    forall i | 0 <= i < |xs| :: Plain(xs[i])
  }

  lemma {:induction false} RawsOfUnknown(xs: seq<StunAttribute>)
    ensures |Raws(xs)| == |xs| <==> forall i | 0 <= i < |xs| :: xs[i].Unknown?
    ensures |Raws(xs)| == |xs| ==> forall i | 0 <= i < |xs| :: Raws(xs)[i] == Attr(xs[i].kind, xs[i].data)
  {
    if xs != [] {
      RawsOfUnknown(xs[1..]);
      assert forall i | 0 <= i < |xs[1..]| :: xs[1..][i] == xs[i + 1];
    }
  }

  lemma {:induction false} RawsAreFewer(raws: seq<Attr>, xs: seq<StunAttribute>, tid: Tid)
    requires DecodesTo(raws, xs, tid)
    ensures |Body(Raws(xs))| <= |Body(raws)|
    decreases |xs|
  {
    if xs != [] {
      var a, rest := raws[0], raws[1..];
      assert raws == [a] + rest;
      BodyGrows(a, rest);
      assert Decode(a, tid) == Ok(xs[0]);
      assert forall i | 0 <= i < |rest| :: Decode(rest[i], tid) == Ok(xs[1..][i]) by {
        forall i | 0 <= i < |rest| ensures Decode(rest[i], tid) == Ok(xs[1..][i]) {
          assert Decode(raws[i + 1], tid) == Ok(xs[i + 1]);
        }
      }
      RawsAreFewer(rest, xs[1..], tid);
      if xs[0].Unknown? {
        assert Raws(xs) == [a] + Raws(xs[1..]);
        BodyGrows(a, Raws(xs[1..]));
      } else {
        assert Raws(xs) == Raws(xs[1..]);
      }
    } else {
      assert raws == [];
    }
  }

  /** A parsed list cannot be longer than the buffer it came from, so a body whose length wraps is never restored. */
  lemma BodyDidNotWrap(body: bytes, cut: bytes, xs: seq<StunAttribute>, tid: Tid)
    requires body == Body(Raws(xs)) && |cut| == |body| % TWO16
    requires ParsedAttributes(cut, 0, tid) == Ok(xs)
    ensures |body| < TWO16
  {
    StrictIsRaw(cut, 0, tid);
    RawsAreFewer(Parsed(cut, 0), xs, tid);
    ParsedConsumes(cut, 0);
    BodyAligned(Raws(xs));
    AlignedRemainder(|body|);
  }

  lemma AlignedRemainder(n: nat)
    requires n % 4 == 0 && n <= n % TWO16 + 3
    ensures n < TWO16
  {
  }

  /** A list that was restored from its own encoding holds only plain attributes. */
  lemma RestoredIsPlain(xs: seq<StunAttribute>, tid: Tid)
    requires |Body(Raws(xs))| < TWO16 && ParsedAttributes(Body(Raws(xs)), 0, tid) == Ok(xs)
    ensures AllPlain(xs)
  {
    var raws := Raws(xs);
    BodyBoundsValues(raws);
    RoundTripsWhenEncodable(raws);
    StrictIsRaw(Body(raws), 0, tid);
    RawsOfUnknown(xs);
    UndecodedArePlain(raws, xs, tid);
  }

  lemma UndecodedArePlain(raws: seq<Attr>, xs: seq<StunAttribute>, tid: Tid)
    requires DecodesTo(raws, xs, tid) && forall i | 0 <= i < |xs| :: xs[i].Unknown?
    ensures AllPlain(xs)
  {
    forall i | 0 <= i < |xs| ensures Plain(xs[i]) { UnknownIsPlain(raws[i], xs[i], tid); }
  }

  lemma UnknownIsPlain(a: Attr, x: StunAttribute, tid: Tid)
    requires Decode(a, tid) == Ok(x) && x.Unknown?
    ensures Plain(x)
  {
  }

  lemma {:induction false} BodyBoundsValues(raws: seq<Attr>)
    ensures forall i | 0 <= i < |raws| :: |raws[i].value| <= |Body(raws)|
  {
    if raws != [] {
      var i := |raws| - 1;
      BodyBoundsValues(raws[..i]);
      assert forall k | 0 <= k < i :: raws[k] == raws[..i][k];
    }
  }

  lemma PlainRaws(xs: seq<StunAttribute>)
    requires AllPlain(xs)
    ensures |Raws(xs)| == |xs|
    ensures forall i | 0 <= i < |xs| ::
              !Known(Raws(xs)[i].kind) && xs[i] == Unknown(Raws(xs)[i].kind, Raws(xs)[i].value)
  {
    forall i | 0 <= i < |xs| ensures xs[i].Unknown? && !Known(xs[i].kind) { assert Plain(xs[i]); }
    RawsOfUnknown(xs);
  }

  lemma PlainDecodes(raws: seq<Attr>, xs: seq<StunAttribute>, ys: seq<StunAttribute>, tid: Tid)
    requires |raws| == |xs| && DecodesTo(raws, ys, tid)
    requires forall i | 0 <= i < |xs| :: !Known(raws[i].kind) && xs[i] == Unknown(raws[i].kind, raws[i].value)
    ensures ys == xs
  {
    forall i | 0 <= i < |xs| ensures ys[i] == xs[i] { assert Decode(raws[i], tid) == Ok(ys[i]); }
  }

  lemma PlainIsRestored(xs: seq<StunAttribute>, tid: Tid)
    requires |Body(Raws(xs))| < TWO16 && AllPlain(xs)
    ensures ParsedAttributes(Body(Raws(xs)), 0, tid) == Ok(xs)
  {
    var raws := Raws(xs);
    PlainRaws(xs);
    BodyBoundsValues(raws);
    assert Body(raws)[0..] == Body(raws);
    PlainParses(Body(raws), 0, raws, tid);
    RoundTripsWhenEncodable(raws);
    StrictIsRaw(Body(raws), 0, tid);
    PlainDecodes(raws, xs, ParsedAttributes(Body(raws), 0, tid).value, tid);
  }

  ghost function WithAttributes(m: StunMessage, r: Result<seq<StunAttribute>, Error>): Result<StunMessage, Error> {
    match r case Err(e) => Err(e) case Ok(xs) => Ok(StunMessage(m.msgType, m.tid, xs))
  }

  /** What the parser makes of a header followed by enough bytes. */
  lemma BehindHeader(m: StunMessage, length: nat, n: u16, rest: bytes)
    requires n == length % TWO16 && n <= |rest|
    ensures Parsing(Header(m.msgType, length, m.tid) + rest) == WithAttributes(m, ParsedAttributes(rest[..n], 0, m.tid))
  {
    var buf := Header(m.msgType, length, m.tid) + rest;
    HeaderReads(m.msgType, length, m.tid, rest);
    assert buf[HEADER_LEN..HEADER_LEN + n] == buf[HEADER_LEN..][..n];
  }

  /** Parsing inverts serialising if and only if the message has no address attributes, none of its
      attributes uses an address type, and its body length fits the 16-bit header field. */
  lemma StunRoundTrip(m: StunMessage)
    ensures Parsing(Serialised(m)) == Ok(m) <==> AllPlain(m.attributes) && |Body(Raws(m.attributes))| < TWO16
  {
    var body := Body(Raws(m.attributes));
    var n := |body| % TWO16;
    Remainder16(|body|);
    BehindHeader(m, |body|, n, body);
    if |body| < TWO16 {
      assert body[..n] == body;
      if AllPlain(m.attributes) { PlainIsRestored(m.attributes, m.tid); }
      if ParsedAttributes(body, 0, m.tid) == Ok(m.attributes) { RestoredIsPlain(m.attributes, m.tid); }
    } else if ParsedAttributes(body[..n], 0, m.tid) == Ok(m.attributes) {
      BodyDidNotWrap(body, body[..n], m.attributes, m.tid);
    }
  }

  /** Bytes behind the message are ignored. */
  lemma TrailingBytesIgnored(m: StunMessage, more: bytes)
    requires AllPlain(m.attributes) && |Body(Raws(m.attributes))| < TWO16
    ensures Parsing(Serialised(m) + more) == Ok(m)
  {
    var body := Body(Raws(m.attributes));
    Remainder16(|body|);
    Assoc(Header(m.msgType, |body|, m.tid), body, more);
    BehindHeader(m, |body|, |body|, body + more);
    assert (body + more)[..|body|] == body;
    PlainIsRestored(m.attributes, m.tid);
  }
}
