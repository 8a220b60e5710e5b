/** Direct mode: every block is sent as a length-prefixed frame cut into datagrams, and the receiver
    puts the frames together again (crates/cli/src/send.rs:124-165, crates/cli/src/receive.rs:143-171). */
module Direct {
  import opened Bits
  import opened Bytes
  import opened Seqs
  import opened Packet
  import opened Sender

  const SESSION: u32 := 1

  datatype Command = SendChunk(data: bytes) | Shutdown

  /** The blocks handed over before the shutdown command. */
  function Accepted(cmds: seq<Command>): seq<bytes> {
    if cmds == [] || cmds[0].Shutdown? then [] else [cmds[0].data] + Accepted(cmds[1..])
  }

  function Frame(block: bytes): (r: bytes)
    ensures |r| == 8 + |block|
  {
    LE(|block| % TWO64, 8) + block
  }

  /** The byte stream of the frames. */
  function Stream(blocks: seq<bytes>): bytes {
    if blocks == [] then [] else Frame(blocks[0]) + Stream(blocks[1..])
  }

  /** The datagram payloads: each frame is cut on its own, so no datagram spans two frames. */
  function Pieces(blocks: seq<bytes>): seq<bytes> {
    if blocks == [] then [] else Chunks(Frame(blocks[0]), MAX_PAYLOAD) + Pieces(blocks[1..])
  }

  /** Payload i travels under sequence number i. */
  function Datagrams(pieces: seq<bytes>, clock: nat -> u64): (r: seq<bytes>)
    ensures |r| == |pieces|
    ensures forall i | 0 <= i < |r| :: r[i] == DataDatagram(SESSION, i % TWO64, clock(i), pieces[i])
  {
    seq(|pieces|, i requires 0 <= i < |pieces| => DataDatagram(SESSION, i % TWO64, clock(i), pieces[i]))
  }

  function Fins(sn: nat, ts: u64): (r: seq<bytes>)
    ensures |r| == 5
    ensures forall k | 0 <= k < 5 :: r[k] == Encode(NewFin(SESSION, sn % TWO64, ts))
  {
    seq(5, _ => Encode(NewFin(SESSION, sn % TWO64, ts)))
  }

  // ---- the sending task ----

  lemma {:induction false} PiecesSnoc(blocks: seq<bytes>, b: bytes)
    ensures Pieces(blocks + [b]) == Pieces(blocks) + Chunks(Frame(b), MAX_PAYLOAD)
  {
    if blocks == [] {
      assert ([] + [b])[1..] == [];
    } else {
      PiecesSnoc(blocks[1..], b);
      assert (blocks + [b])[1..] == blocks[1..] + [b];
      Assoc(Chunks(Frame(blocks[0]), MAX_PAYLOAD), Pieces(blocks[1..]), Chunks(Frame(b), MAX_PAYLOAD));
    }
  }

  lemma DatagramsSnoc(pieces: seq<bytes>, p: bytes, clock: nat -> u64)
    ensures Datagrams(pieces + [p], clock)
         == Datagrams(pieces, clock) + [DataDatagram(SESSION, |pieces| % TWO64, clock(|pieces|), p)]
  {
  }

  /** Sends every block up to the shutdown command, then FIN five times. `clock(i)` dates the i-th datagram. */
  method SendDirect(cmds: seq<Command>, clock: nat -> u64) returns (wire: seq<bytes>, bytesSent: nat)
    ensures var pieces := Pieces(Accepted(cmds));
      && wire == Datagrams(pieces, clock) + Fins(|pieces|, clock(|pieces|))
      && bytesSent == |Stream(Accepted(cmds))|
  {
    var sn: nat := 0;
    wire, bytesSent := [], 0;
    ghost var blocks: seq<bytes> := [];
    var i := 0;
    assert cmds[0..] == cmds;
    while i < |cmds| && cmds[i].SendChunk?
      invariant i <= |cmds|
      invariant blocks + Accepted(cmds[i..]) == Accepted(cmds)
      invariant SentFor(blocks, clock, wire, sn, bytesSent)
    {
      AcceptedStep(cmds, i, blocks);
      var data := cmds[i].data;
      wire, sn, bytesSent := SendFrame(data, wire, sn, bytesSent, blocks, clock);
      blocks := blocks + [data];
      i := i + 1;
    }
    assert blocks == Accepted(cmds) by { assert blocks + [] == blocks; }
    wire := SendFins(wire, sn, clock(sn));
  }

  ghost predicate SentFor(blocks: seq<bytes>, clock: nat -> u64, wire: seq<bytes>, sn: nat, bytesSent: nat) {
    wire == Datagrams(Pieces(blocks), clock) && sn == |Pieces(blocks)| && bytesSent == |Stream(blocks)|
  }

  lemma AcceptedStep(cmds: seq<Command>, i: nat, blocks: seq<bytes>)
    requires i < |cmds| && cmds[i].SendChunk?
    ensures (blocks + [cmds[i].data]) + Accepted(cmds[i + 1..]) == blocks + Accepted(cmds[i..])
  {
    assert cmds[i..][1..] == cmds[i + 1..];
  }

  method SendFins(wire: seq<bytes>, sn: nat, ts: u64) returns (wire': seq<bytes>)
    ensures wire' == wire + Fins(sn, ts)
  {
    var fin := Encode(NewFin(SESSION, sn % TWO64, ts));
    wire' := wire;
    for k := 0 to 5
      invariant wire' == wire + Fins(sn, ts)[..k]
    {
      wire' := wire' + [fin];
    }
    assert Fins(sn, ts)[..5] == Fins(sn, ts);
  }

  /** Length prefix, then the payload-sized pieces of the frame under the next sequence numbers. */
  method SendFrame(data: bytes, wire: seq<bytes>, sn: nat, bytesSent: nat, ghost blocks: seq<bytes>, clock: nat -> u64)
    returns (wire': seq<bytes>, sn': nat, bytesSent': nat)
    requires SentFor(blocks, clock, wire, sn, bytesSent)
    ensures SentFor(blocks + [data], clock, wire', sn', bytesSent')
  {
    var framed := LE(|data| % TWO64, 8) + data;
    wire', sn', bytesSent' := SendChunks(framed, wire, sn, bytesSent, Pieces(blocks), clock);
    PiecesSnoc(blocks, data);
    StreamSnoc(blocks, data);
  }

  method SendChunks(framed: bytes, wire: seq<bytes>, sn: nat, bytesSent: nat, ghost pieces: seq<bytes>,
                    clock: nat -> u64)
    returns (wire': seq<bytes>, sn': nat, bytesSent': nat)
    requires wire == Datagrams(pieces, clock) && sn == |pieces|
    ensures wire' == Datagrams(pieces + Chunks(framed, MAX_PAYLOAD), clock)
    ensures sn' == |pieces| + |Chunks(framed, MAX_PAYLOAD)|
    ensures bytesSent' == bytesSent + |framed|
  {
    var chunks := Chunks(framed, MAX_PAYLOAD);
    wire', sn', bytesSent' := wire, sn, bytesSent;
    assert pieces + chunks[..0] == pieces;
    for i := 0 to |chunks|
      invariant sn' == |pieces| + i
      invariant wire' == Datagrams(pieces + chunks[..i], clock)
      invariant bytesSent' == bytesSent + |Concat(chunks[..i])|
    {
      var hdr := NewData(SESSION, sn' % TWO64, clock(sn'), |chunks[i]| % TWO16);
      var pkt := BuildDatagram(hdr, chunks[i]);
      assert chunks[..i + 1] == chunks[..i] + [chunks[i]];
      assert pieces + chunks[..i + 1] == (pieces + chunks[..i]) + [chunks[i]];
      DatagramsSnoc(pieces + chunks[..i], chunks[i], clock);
      ConcatSnoc(chunks[..i], chunks[i]);
      wire' := wire' + [pkt];
      sn' := sn' + 1;
      bytesSent' := bytesSent' + |chunks[i]|;
    }
    assert chunks[..|chunks|] == chunks;
    ConcatChunks(framed, MAX_PAYLOAD);
  }

  // ---- the stream ----

  lemma {:induction false} StreamSnoc(blocks: seq<bytes>, b: bytes)
    ensures Stream(blocks + [b]) == Stream(blocks) + Frame(b)
  {
    if blocks == [] {
      assert ([] + [b])[1..] == [];
    } else {
      StreamSnoc(blocks[1..], b);
      assert (blocks + [b])[1..] == blocks[1..] + [b];
      Assoc(Frame(blocks[0]), Stream(blocks[1..]), Frame(b));
    }
  }

  /** The datagram payloads join up to the stream, none is empty, and each fits a datagram. */
  lemma {:induction false} PiecesAreStream(blocks: seq<bytes>)
    ensures Concat(Pieces(blocks)) == Stream(blocks)
    ensures forall i | 0 <= i < |Pieces(blocks)| :: 0 < |Pieces(blocks)[i]| <= MAX_PAYLOAD
  {
    if blocks != [] {
      PiecesAreStream(blocks[1..]);
      ConcatChunks(Frame(blocks[0]), MAX_PAYLOAD);
      ChunksShape(Frame(blocks[0]), MAX_PAYLOAD);
      ConcatAppend(Chunks(Frame(blocks[0]), MAX_PAYLOAD), Pieces(blocks[1..]));
    }
  }

  // ---- the reassembly task ----

  datatype Drainage = Drainage(blocks: seq<bytes>, rest: bytes)

  /** Every complete frame at the front of the accumulator, and what remains. */
  function Drained(accum: bytes): Drainage
    decreases |accum|
  {
    if |accum| < 8 then Drainage([], accum)
    else
      var n := FromLE(accum[..8]);
      if |accum| < 8 + n then Drainage([], accum)
      else
        var d := Drained(accum[8 + n..]);
        Drainage([accum[8..8 + n]] + d.blocks, d.rest)
  }

  /** Draining early changes nothing: what comes later continues where the first drain stopped. */
  lemma {:induction false} DrainedAppend(a: bytes, b: bytes)
    ensures var d := Drained(a); var e := Drained(d.rest + b);
      Drained(a + b) == Drainage(d.blocks + e.blocks, e.rest)
    decreases |a|
  {
    var n := if |a| < 8 then 0 else FromLE(a[..8]);
    if |a| < 8 || |a| < 8 + n {
      assert [] + Drained(a + b).blocks == Drained(a + b).blocks;
    } else {
      var a' := a[8 + n..];
      DrainedAppend(a', b);
      assert (a + b)[..8] == a[..8] && (a + b)[8..8 + n] == a[8..8 + n] && (a + b)[8 + n..] == a' + b;
      var d := Drained(a');
      Assoc([a[8..8 + n]], d.blocks, Drained(d.rest + b).blocks);
    }
  }

  /** Extends the accumulator by each payload and drains every complete block, in nested loops. */
  method Reassemble(chunks: seq<bytes>) returns (blocks: seq<bytes>, accum: bytes)
    ensures Drainage(blocks, accum) == Drained(Concat(chunks))
  {
    blocks, accum := [], [];
    for i := 0 to |chunks|
      invariant Drainage(blocks, accum) == Drained(Concat(chunks[..i]))
    {
      ghost var before := Concat(chunks[..i]);
      assert chunks[..i + 1] == chunks[..i] + [chunks[i]];
      ConcatSnoc(chunks[..i], chunks[i]);
      DrainedAppend(before, chunks[i]);
      accum := accum + chunks[i];
      blocks, accum := DrainInto(blocks, accum);
    }
    assert chunks[..|chunks|] == chunks;
  }

  /** The inner loop: hands out complete frames until the accumulator holds none. */
  method DrainInto(blocks: seq<bytes>, accum: bytes) returns (blocks': seq<bytes>, accum': bytes)
    ensures Drainage(blocks', accum') == Drainage(blocks + Drained(accum).blocks, Drained(accum).rest)
  {
    blocks', accum' := blocks, accum;
    while true
      invariant Drainage(blocks' + Drained(accum').blocks, Drained(accum').rest)
             == Drainage(blocks + Drained(accum).blocks, Drained(accum).rest)
      decreases |accum'|
    {
      if |accum'| < 8 { break; }
      var n := FromLE(accum'[..8]);
      if |accum'| < 8 + n { break; }
      var block := accum'[8..8 + n];
      Assoc(blocks', [block], Drained(accum'[8 + n..]).blocks);
      accum' := accum'[8 + n..];
      blocks' := blocks' + [block];
    }
    assert blocks' + [] == blocks';
  }

  // ---- reassembly inverts framing, wherever the stream is cut ----

  /** Lengths an 8-byte prefix can express. */
  predicate Framable(blocks: seq<bytes>) {
    forall i | 0 <= i < |blocks| :: |blocks[i]| < TWO64
  }

  lemma TwoFields(a: bytes, b: bytes, rest: bytes)
    ensures var s := (a + b) + rest;
      s[..|a|] == a && s[|a|..|a| + |b|] == b && s[|a| + |b|..] == rest
  {
  }

  ghost predicate Leads(s: bytes, block: bytes, more: bytes) {
    && |s| >= 8 + |block| && FromLE(s[..8]) == |block|
    && s[8..8 + |block|] == block && s[8 + |block|..] == more
  }

  lemma PrefixReads(p: bytes, block: bytes, more: bytes)
    requires |p| == 8 && FromLE(p) == |block|
    ensures Leads((p + block) + more, block, more)
  {
    TwoFields(p, block, more);
  }

  lemma WidthOf64(w: nat)
    requires w == 8
    ensures Pow256(w) == TWO64
  {
    Pow256Widths();
  }

  lemma LengthReads(n: u64, w: nat)
    requires w == 8
    ensures FromLE(LE(n, w)) == n
  {
    WidthOf64(w);
    FromLEInverts(n, w);
  }

  lemma FrameReads(block: bytes, more: bytes)
    requires |block| < TWO64
    ensures Leads(Frame(block) + more, block, more)
  {
    Below64(|block|);
    LengthReads(|block|, 8);
    PrefixReads(LE(|block| % TWO64, 8), block, more);
  }

  /** An unfinished frame stays in the accumulator. */
  lemma PartFrameWaits(block: bytes, n: nat)
    requires |block| < TWO64 && n < |Frame(block)|
    ensures Drained(Frame(block)[..n]) == Drainage([], Frame(block)[..n])
  {
    if n >= 8 {
      FrameReads(block, []);
      assert Frame(block) + [] == Frame(block);
      assert Frame(block)[..n][..8] == Frame(block)[..8];
    }
  }

  /** Exactly the k frames that fit in n bytes have come out, in order, and the rest of the n bytes waits. */
  ghost predicate DrainsTo(blocks: seq<bytes>, n: nat, k: nat)
    requires n <= |Stream(blocks)|
  {
    && k <= |blocks| && |Stream(blocks[..k])| <= n
    && (k < |blocks| ==> n < |Stream(blocks[..k + 1])|)
    && Drained(Stream(blocks)[..n]) == Drainage(blocks[..k], Stream(blocks)[|Stream(blocks[..k])|..n])
  }

  /** Any prefix of the stream, however it was cut into payloads, drains to its complete frames. */
  lemma {:induction false} PrefixDrains(blocks: seq<bytes>, n: nat) returns (k: nat)
    requires Framable(blocks) && n <= |Stream(blocks)|
    ensures DrainsTo(blocks, n, k)
    decreases |blocks|
  {
    if blocks == [] {
      k := 0;
    } else {
      var b, rest := blocks[0], blocks[1..];
      if n < |Frame(b)| {
        k := 0;
        assert Stream(blocks)[..n] == Frame(b)[..n];
        PartFrameWaits(b, n);
        StreamCons(blocks, 0);
      } else {
        k := PrefixDrains(rest, n - |Frame(b)|);
        AnotherFrame(b, rest, n, k);
        assert [b] + rest == blocks;
        k := k + 1;
      }
    }
  }

  lemma AnotherFrame(b: bytes, rest: seq<bytes>, n: nat, k: nat)
    requires |b| < TWO64 && |Frame(b)| <= n <= |Frame(b)| + |Stream(rest)|
    requires DrainsTo(rest, n - |Frame(b)|, k)
    ensures ([b] + rest)[1..] == rest && DrainsTo([b] + rest, n, k + 1)
  {
    assert ([b] + rest)[1..] == rest;
    FrontLengths(b, rest, k);
    FrontDrains(b, rest, n, k);
  }

  lemma FrontDrains(b: bytes, rest: seq<bytes>, n: nat, k: nat)
    requires |b| < TWO64 && |Frame(b)| <= n <= |Frame(b)| + |Stream(rest)|
    requires DrainsTo(rest, n - |Frame(b)|, k)
    ensures Drained((Frame(b) + Stream(rest))[..n]) ==
            Drainage([b] + rest[..k], (Frame(b) + Stream(rest))[|Frame(b)| + |Stream(rest[..k])|..n])
  {
    FrameDrains(Frame(b), b, Stream(rest), n, rest[..k], |Stream(rest[..k])|);
  }

  lemma FrameDrains(f: bytes, b: bytes, s: bytes, n: nat, out: seq<bytes>, m: nat)
    requires |b| < TWO64 && f == Frame(b) && |f| + m <= n <= |f| + |s|
    requires Drained(s[..n - |f|]) == Drainage(out, s[m..n - |f|])
    ensures Drained((f + s)[..n]) == Drainage([b] + out, (f + s)[|f| + m..n])
  {
    FirstFrameOut(b, s, n);
    SliceBehind(f, s, m, n);
  }

  lemma FrontLengths(b: bytes, rest: seq<bytes>, k: nat)
    requires k <= |rest|
    ensures var blocks := [b] + rest;
      && blocks[..k + 1] == [b] + rest[..k]
      && |Stream(blocks[..k + 1])| == |Frame(b)| + |Stream(rest[..k])|
      && (k < |rest| ==> |Stream(blocks[..k + 2])| == |Frame(b)| + |Stream(rest[..k + 1])|)
  {
    var blocks := [b] + rest;
    assert blocks[1..] == rest;
    StreamCons(blocks, k);
    if k < |rest| { StreamCons(blocks, k + 1); }
  }

  lemma SliceBehind(f: bytes, s: bytes, m: nat, n: nat)
    requires |f| + m <= n <= |f| + |s|
    ensures (f + s)[|f| + m..n] == s[m..n - |f|]
  {
  }

  lemma StreamCons(blocks: seq<bytes>, k: nat)
    requires blocks != [] && k < |blocks|
    ensures |Stream(blocks[..k + 1])| == |Frame(blocks[0])| + |Stream(blocks[1..][..k])|
  {
    assert blocks[..k + 1][1..] == blocks[1..][..k];
  }

  lemma FirstFrameOut(b: bytes, rest: bytes, n: nat)
    requires |b| < TWO64 && |Frame(b)| <= n <= |Frame(b)| + |rest|
    ensures var d := Drained(rest[..n - |Frame(b)|]);
      Drained((Frame(b) + rest)[..n]) == Drainage([b] + d.blocks, d.rest)
  {
    var more := rest[..n - |Frame(b)|];
    assert (Frame(b) + rest)[..n] == Frame(b) + more;
    FrameReads(b, more);
  }

  /** The whole stream drains to exactly the blocks, whatever the cut. */
  lemma StreamDrains(blocks: seq<bytes>, chunks: seq<bytes>)
    requires Framable(blocks) && Concat(chunks) == Stream(blocks)
    ensures Drained(Concat(chunks)) == Drainage(blocks, [])
  {
    var n := |Stream(blocks)|;
    var k := PrefixDrains(blocks, n);
    if k < |blocks| { StreamPrefixFits(blocks, k + 1); }
    assert blocks[..|blocks|] == blocks;
    assert Stream(blocks)[..n] == Stream(blocks);
  }

  lemma {:induction false} StreamPrefixFits(blocks: seq<bytes>, k: nat)
    requires k <= |blocks|
    ensures |Stream(blocks[..k])| <= |Stream(blocks)|
    decreases |blocks|
  {
    if k > 0 {
      StreamPrefixFits(blocks[1..], k - 1);
      StreamCons(blocks, k - 1);
    }
  }
}
