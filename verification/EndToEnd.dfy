/** Direct mode from end to end: files, packing, frames, datagrams, receiver, reassembly, writer, files. */
module EndToEnd {
  import opened Bits
  import opened Bytes
  import opened Seqs
  import opened Packet
  import Sack
  import opened SackManager
  import opened Packer
  import opened Unpacker
  import opened Packing
  import opened Writer
  import opened Reassembly
  import opened WriterOrder
  import opened Direct
  import Receiver
  import Sender
  import Session

  // ---- what the application sees of a run of the receiver ----

  /** One turn of the receiver's loop. */
  datatype Step = Arrive(buf: bytes, now: u64, room: bool) | Heartbeat(room: bool, ts: u64)

  ghost predicate Turn(s: Receiver.State, step: Step, s': Receiver.State)
    requires Sack.Canonical(s.sack)
  {
    match step
    case Arrive(buf, now, room) => exists r :: Receiver.Processed(s, buf, now, room, s', r)
    case Heartbeat(room, ts) => s' == Receiver.HeartbeatSent(s, room, ts)
  }

  /** A FIN ends the receiver's loop. */
  predicate Ends(step: Step) {
    step.Arrive? && Receiver.Classify(step.buf, SESSION).Fin?
  }

  /** A run from a receiver that has seen nothing; a FIN can only be its last step. */
  ghost predicate Run(ss: seq<Receiver.State>, steps: seq<Step>) {
    && |ss| == |steps| + 1 && ss[0].log == []
    && (forall i | 0 <= i < |ss| :: Sack.Canonical(ss[i].sack) && ss[i].session == SESSION)
    && (forall i | 0 <= i < |steps| :: Turn(ss[i], steps[i], ss[i + 1]))
    && forall i | 0 <= i < |steps| - 1 :: !Ends(steps[i])
  }

  function Arrivals(steps: seq<Step>): seq<bytes> {
    if steps == [] then []
    else Arrivals(steps[..|steps| - 1]) + (var last := steps[|steps| - 1]; if last.Arrive? then [last.buf] else [])
  }

  function PayloadOf(d: bytes): seq<bytes> {
    var k := Receiver.Classify(d, SESSION);
    if k.Data? then [k.payload] else []
  }

  function PayloadsIn(ds: seq<bytes>): seq<bytes> {
    if ds == [] then [] else PayloadsIn(ds[..|ds| - 1]) + PayloadOf(ds[|ds| - 1])
  }

  lemma PayloadsSnoc(ds: seq<bytes>, d: bytes)
    ensures PayloadsIn(ds + [d]) == PayloadsIn(ds) + PayloadOf(d)
  {
    assert (ds + [d])[..|ds|] == ds;
  }

  lemma TurnDelivers(s: Receiver.State, step: Step, s': Receiver.State)
    requires Sack.Canonical(s.sack) && s.session == SESSION && Turn(s, step, s')
    ensures Receiver.Payloads(s'.log) == Receiver.Payloads(s.log) + if step.Arrive? then PayloadOf(step.buf) else []
  {
  }

  /** Whatever arrives in whatever order, between whatever heartbeats: the application gets the payloads
      of the arriving data packets, in order of arrival. */
  lemma {:induction false} LogIsArrivals(ss: seq<Receiver.State>, steps: seq<Step>, n: nat)
    requires Run(ss, steps) && n <= |steps|
    ensures Receiver.Payloads(ss[n].log) == PayloadsIn(Arrivals(steps[..n]))
  {
    if n > 0 {
      LogIsArrivals(ss, steps, n - 1);
      assert steps[..n][..n - 1] == steps[..n - 1];
      TurnDelivers(ss[n - 1], steps[n - 1], ss[n]);
      var before := Arrivals(steps[..n - 1]);
      if steps[n - 1].Arrive? {
        PayloadsSnoc(before, steps[n - 1].buf);
      } else {
        assert before + [] == before && PayloadsIn(before) + [] == PayloadsIn(before);
      }
    }
  }

  // ---- what the sender puts on the wire ----

  lemma DataPayload(i: nat, ts: u64, piece: bytes)
    requires |piece| <= Sender.MAX_PAYLOAD
    ensures PayloadOf(DataDatagram(SESSION, i % TWO64, ts, piece)) == [piece]
  {
    Receiver.ClassifyData(SESSION, i % TWO64, ts, piece);
  }

  lemma {:induction false} DataPayloads(pieces: seq<bytes>, clock: nat -> u64)
    requires forall i | 0 <= i < |pieces| :: |pieces[i]| <= Sender.MAX_PAYLOAD
    ensures PayloadsIn(Datagrams(pieces, clock)) == pieces
  {
    if pieces != [] {
      var i := |pieces| - 1;
      var before, p := pieces[..i], pieces[i];
      DataPayloads(before, clock);
      DatagramsSnoc(before, p, clock);
      DataPayload(i, clock(i), p);
      PayloadsSnoc(Datagrams(before, clock), DataDatagram(SESSION, i % TWO64, clock(i), p));
      LastSplit(pieces);
    }
  }

  lemma {:induction false} FinsCarryNothing(ds: seq<bytes>, sn: nat, ts: u64, k: nat)
    requires k <= 5
    ensures PayloadsIn(ds + Fins(sn, ts)[..k]) == PayloadsIn(ds)
  {
    if k == 0 {
      assert ds + Fins(sn, ts)[..0] == ds;
    } else {
      FinsCarryNothing(ds, sn, ts, k - 1);
      Receiver.ClassifyFin(SESSION, sn % TWO64, ts);
      TakeSnoc(ds, Fins(sn, ts), k);
      PayloadsSnoc(ds + Fins(sn, ts)[..k - 1], Fins(sn, ts)[k - 1]);
    }
  }

  // ---- the blocks of a packing fit their frames ----

  lemma {:induction false} ManifestSize(es: seq<FileEntry>)
    ensures |ManifestBytes(es)| <= |es| * 65562
  {
    if es != [] {
      ManifestSize(es[1..]);
      assert |EntryBytes(es[0])| <= 65562;
    }
  }

  lemma WireFrames(files: seq<File>)
    requires Storable(files)
    ensures Framable(Wire(files))
  {
    var packed := Pack(files, []);
    PackWellFormed(files, [], |files|);
    forall i | 0 <= i < |packed| ensures |Wire(files)[i]| < TWO64 {
      assert WellFormed(packed[i], |files|);
      ManifestSize(EntriesFrom(packed[i]));
      SerialisedSize(i % TWO64, EntriesFrom(packed[i]), Payload(packed[i]));
    }
  }

  // ---- the theorem ----

  /** The wire of direct mode up to the first FIN, or just before it. */
  function DirectWire(files: seq<File>, clock: nat -> u64, k: nat): seq<bytes>
    requires k <= 1
  {
    var pieces := Pieces(Wire(files));
    Datagrams(pieces, clock) + Fins(|pieces|, clock(|pieces|))[..k]
  }

  lemma WirePayloads(files: seq<File>, clock: nat -> u64, k: nat)
    requires Storable(files) && k <= 1
    ensures PayloadsIn(DirectWire(files, clock, k)) == Pieces(Wire(files))
  {
    var pieces := Pieces(Wire(files));
    PiecesAreStream(Wire(files));
    DataPayloads(pieces, clock);
    FinsCarryNothing(Datagrams(pieces, clock), |pieces|, clock(|pieces|), k);
  }

  /** The writer has put exactly the original files on disk, and counted exactly their bytes. */
  ghost predicate Transferred(files: seq<File>, disk: map<Path, bytes>, chunks: seq<bytes>) {
    var (ok, st) := FedChunks(START, chunks);
    && ok && Restored(disk, files, Applied(disk, st.writes))
    && st.total == Sum(FileSizes(files)) && st.partial == map[]
  }

  lemma PiecesTransfer(files: seq<File>, disk: map<Path, bytes>)
    requires DistinctPaths(files) && Storable(files)
    ensures Drained(Concat(Pieces(Wire(files)))) == Drainage(Wire(files), [])
    ensures Transferred(files, disk, Wire(files))
  {
    WireFrames(files);
    PiecesAreStream(Wire(files));
    StreamDrains(Wire(files), Pieces(Wire(files)));
    AnyOrderOfBlocksRestores(files, Wire(files), disk);
    EachBlockOnceIsExact(files, Wire(files));
  }

  /** In-order, lossless delivery of the direct-mode wire, with any heartbeats in between, and the FIN that ends
      the loop seen or not yet: reassembling and writing what the receiver handed over restores the files. */
  lemma DirectTransfer(files: seq<File>, disk: map<Path, bytes>, clock: nat -> u64, k: nat,
                       ss: seq<Receiver.State>, steps: seq<Step>)
    requires DistinctPaths(files) && Storable(files) && k <= 1
    requires Run(ss, steps) && Arrivals(steps) == DirectWire(files, clock, k)
    ensures var d := Drained(Concat(Receiver.Payloads(ss[|steps|].log)));
      d.rest == [] && Transferred(files, disk, d.blocks)
  {
    LogIsArrivals(ss, steps, |steps|);
    assert steps[..|steps|] == steps;
    WirePayloads(files, clock, k);
    PiecesTransfer(files, disk);
  }

  // ---- the same composition in code ----

  /** In order and without loss, the receiver's window slides along: everything below i is received. */
  ghost predicate Caught(s: Receiver.State, i: nat) {
    && Sack.Canonical(s.sack) && s.session == SESSION && s.sack.base == i
    && forall q: nat :: Sack.Received(s.sack, q) == (q < i)
  }

  lemma CatchesNext(s: Receiver.State, i: nat, p': Sack.Payload)
    requires Caught(s, i) && Arrival(s.sack, i, p')
    ensures p'.base == i + 1 && forall q: nat :: Sack.Received(p', q) == (q < i + 1)
  {
    assert !Sack.Received(p', i + 1);
    assert !Sack.Received(p', p'.base);
    if p'.base > i + 1 { assert Sack.Received(p', i + 1); }
  }

  lemma DataTurn(s: Receiver.State, i: u64, piece: bytes, buf: bytes, now: u64, room: bool, s': Receiver.State,
                 r: Option<bool>)
    requires Caught(s, i) && Receiver.Classify(buf, SESSION) == Receiver.Data(i, piece)
    requires Receiver.Processed(s, buf, now, room, s', r) && Sack.Canonical(s'.sack)
    ensures Caught(s', i + 1) && r == Some(false)
    ensures Receiver.Payloads(s'.log) == Receiver.Payloads(s.log) + [piece]
  {
    CatchesNext(s, i, s'.sack);
  }

  lemma FinTurn(s: Receiver.State, buf: bytes, now: u64, room: bool, s': Receiver.State, r: Option<bool>)
    requires Sack.Canonical(s.sack) && s.session == SESSION && Receiver.Classify(buf, SESSION) == Receiver.Fin
    requires Receiver.Processed(s, buf, now, room, s', r)
    ensures r == Some(true) && s'.log == s.log
  {
  }

  /** What the i-th datagram of the wire is. */
  function NextDatagram(pieces: seq<bytes>, i: nat, ts: u64): bytes
    requires i <= |pieces| < TWO64
  {
    if i < |pieces| then DataDatagram(SESSION, i, ts, pieces[i]) else Encode(NewFin(SESSION, i, ts))
  }

  lemma NextKind(pieces: seq<bytes>, i: nat, ts: u64)
    requires i <= |pieces| < TWO64 && (i < |pieces| ==> |pieces[i]| <= Sender.MAX_PAYLOAD)
    ensures Receiver.Classify(NextDatagram(pieces, i, ts), SESSION)
         == if i < |pieces| then Receiver.Data(i, pieces[i]) else Receiver.Fin
  {
    if i < |pieces| { Receiver.ClassifyData(SESSION, i, ts, pieces[i]); } else { Receiver.ClassifyFin(SESSION, i, ts); }
  }

  lemma NextTurn(s: Receiver.State, pieces: seq<bytes>, i: u64, buf: bytes, now: u64, room: bool, s': Receiver.State,
                 r: Option<bool>)
    requires Caught(s, i) && i <= |pieces| && Receiver.Payloads(s.log) == pieces[..i]
    requires Receiver.Classify(buf, SESSION) == if i < |pieces| then Receiver.Data(i, pieces[i]) else Receiver.Fin
    requires Receiver.Processed(s, buf, now, room, s', r) && Sack.Canonical(s'.sack)
    ensures r == Some(i == |pieces|)
    ensures Receiver.Payloads(s'.log) == pieces[..if i == |pieces| then i else i + 1]
    ensures i < |pieces| ==> Caught(s', i + 1)
  {
    if i < |pieces| {
      DataTurn(s, i, pieces[i], buf, now, room, s', r);
      LastSplit(pieces[..i + 1]);
      assert pieces[..i + 1][..i] == pieces[..i];
    } else {
      FinTurn(s, buf, now, room, s', r);
    }
  }

  /** The next datagram of the wire, given to a receiver that has taken all before it. */
  method TakeNext(receiver: Receiver.ReceiverTask, buf: bytes, ghost i: nat, ghost pieces: seq<bytes>, ghost ts: u64,
                  now: u64, room: bool)
    returns (fin: bool)
    requires i <= |pieces| && |pieces| + Sack.SACK_WINDOW < TWO64
    requires i < |pieces| ==> |pieces[i]| <= Sender.MAX_PAYLOAD
    requires buf == NextDatagram(pieces, i, ts)
    requires receiver.Valid() && Caught(receiver.Value(), i) && receiver.dataTx == pieces[..i]
    modifies receiver, receiver.manager, receiver.manager.payload, receiver.manager.payload.words, receiver.stats
    ensures receiver.Valid() && fin == (i == |pieces|)
    ensures receiver.dataTx == pieces[..if fin then i else i + 1]
    ensures !fin ==> Caught(receiver.Value(), i + 1)
  {
    NextKind(pieces, i, ts);
    ghost var s := receiver.Value();
    var r := receiver.ProcessDatagram(buf, now, room);
    ghost var s' := receiver.Value();
    NextTurn(s, pieces, i, buf, now, room, s', r);
    fin := r == Some(true);
  }

  lemma WireAt(pieces: seq<bytes>, clock: nat -> u64, i: nat)
    requires i <= |pieces| < TWO64
    ensures var wire := Datagrams(pieces, clock) + Fins(|pieces|, clock(|pieces|));
      i < |wire| && wire[i] == NextDatagram(pieces, i, clock(i))
  {
    AppendAt(Datagrams(pieces, clock), Fins(|pieces|, clock(|pieces|)), i);
    Below64(i);
  }

  /** The receiver's loop: datagram after datagram until the first FIN. */
  method ReceiveWire(wire: seq<bytes>, ghost pieces: seq<bytes>, ghost clock: nat -> u64,
                     now: nat -> u64, room: nat -> bool)
    returns (payloads: seq<bytes>)
    requires wire == Datagrams(pieces, clock) + Fins(|pieces|, clock(|pieces|))
    requires forall i | 0 <= i < |pieces| :: |pieces[i]| <= Sender.MAX_PAYLOAD
    requires |pieces| + Sack.SACK_WINDOW < TWO64
    ensures payloads == pieces
  {
    var stats := new Session.SessionStats();
    var receiver := new Receiver.ReceiverTask(SESSION, 0, stats);
    var i, fin := 0, false;
    while !fin
      invariant receiver.Valid() && fresh(receiver) && fresh(receiver.stats)
      invariant fresh(receiver.manager) && fresh(receiver.manager.payload) && fresh(receiver.manager.payload.words)
      invariant i <= |pieces| + 1
      invariant if fin then receiver.dataTx == pieces
                else i <= |pieces| && Caught(receiver.Value(), i) && receiver.dataTx == pieces[..i]
      decreases |pieces| + 1 - i
    {
      WireAt(pieces, clock, i);
      fin := TakeNext(receiver, wire[i], i, pieces, clock(i), now(i), room(i));
      i := i + 1;
    }
    payloads := receiver.dataTx;
  }

  /** A writer on a disk that takes every write. */
  method WriteOut(chunks: seq<bytes>, disk: map<Path, bytes>, ready: nat -> nat)
    returns (written: Option<nat>, disk': map<Path, bytes>)
    ensures var (ok, st) := FedChunks(START, chunks);
      && written == (if ok then Some(st.total) else None)
      && (ok ==> disk' == Applied(disk, st.writes))
  {
    var writer := new AsyncWriter(disk, _ => true, _ => Written);
    written := writer.ReceiveAndWrite(chunks, ready);
    disk' := writer.disk;
  }

  /** The whole of direct mode over a lossless, ordered path, onto a disk that takes every write. */
  method Transfer(files: seq<File>, disk: map<Path, bytes>, clock: nat -> u64, now: nat -> u64, room: nat -> bool,
                  ready: nat -> nat)
    returns (written: Option<nat>, disk': map<Path, bytes>)
    requires DistinctPaths(files) && Storable(files)
    requires |Pieces(Wire(files))| + Sack.SACK_WINDOW < TWO64
    ensures Restored(disk, files, disk') && written == Some(Sum(FileSizes(files)))
  {
    var blocks := PackFiles(files);
    var cmds: seq<Command> := seq(|blocks|, i requires 0 <= i < |blocks| => SendChunk(blocks[i].data)) + [Shutdown];
    AcceptedAll(cmds, Wire(files));
    var wire, _ := SendDirect(cmds, clock);
    PiecesAreStream(Wire(files));
    var payloads := ReceiveWire(wire, Pieces(Wire(files)), clock, now, room);
    var chunks, _ := Reassemble(payloads);
    PiecesTransfer(files, disk);
    written, disk' := WriteOut(chunks, disk, ready);
  }

  lemma {:induction false} AcceptedAll(cmds: seq<Command>, datas: seq<bytes>)
    requires |cmds| == |datas| + 1 && cmds[|datas|] == Shutdown
    requires forall i | 0 <= i < |datas| :: cmds[i] == SendChunk(datas[i])
    ensures Accepted(cmds) == datas
    decreases |datas|
  {
    if datas != [] {
      AcceptedAll(cmds[1..], datas[1..]);
    }
  }
}
