/** A block cut short never unpacks. Outside direct mode datagram payloads go to the writer as they
    are (crates/cli/src/receive.rs:198-220), so a transfer succeeds only when every block fits one datagram. */
module Unframed {
  import opened Bits
  import opened Bytes
  import opened Seqs
  import opened Packer
  import opened Unpacker
  import opened Packing
  import opened Writer
  import opened Reassembly
  import opened WriterOrder
  import Sender
  import Utf8

  // ---- the parser on a cut buffer ----

  lemma ReadPrefix(buf: bytes, n: nat, pos: nat, w: nat)
    requires n <= |buf| && pos + w <= n
    ensures ReadBytes(buf[..n], pos, w) == ReadBytes(buf, pos, w)
    ensures ReadLE(buf[..n], pos, w) == ReadLE(buf, pos, w)
  {
    assert buf[..n][pos..pos + w] == buf[pos..pos + w];
  }

  /** On a cut buffer an entry either fails to parse or parses as before, within the cut. */
  lemma EntryPrefix(buf: bytes, n: nat, pos: nat)
    requires n <= |buf|
    ensures var r := ParseEntry(buf[..n], pos);
      r.Ok? ==> r == ParseEntry(buf, pos) && r.value.pos <= n
  {
    if pos + 2 <= n {
      ReadPrefix(buf, n, pos, 2);
      var k := FromLE(buf[pos..pos + 2]);
      if pos + 2 + k <= n {
        ReadPrefix(buf, n, pos + 2, k);
        if Utf8.WellFormed(buf[pos + 2..pos + 2 + k]) { TailPrefix(buf, n, pos + 2 + k, buf[pos + 2..pos + 2 + k]); }
      }
    }
  }

  lemma TailPrefix(buf: bytes, n: nat, pos: nat, path: Path)
    requires n <= |buf|
    ensures var r := ParseTail(buf[..n], pos, path);
      r.Ok? ==> r == ParseTail(buf, pos, path) && r.value.pos <= n
  {
    if pos + 24 <= n {
      ReadPrefix(buf, n, pos, 8);
      ReadPrefix(buf, n, pos + 8, 8);
      ReadPrefix(buf, n, pos + 16, 4);
      ReadPrefix(buf, n, pos + 20, 4);
    }
  }

  lemma {:induction false} EntriesPrefix(buf: bytes, n: nat, pos: nat, count: nat)
    requires n <= |buf|
    ensures var r := ParseEntries(buf[..n], pos, count);
      r.Ok? ==> r == ParseEntries(buf, pos, count)
    decreases count
  {
    if count > 0 {
      EntryPrefix(buf, n, pos);
      var e := ParseEntry(buf[..n], pos);
      if e.Ok? { EntriesPrefix(buf, n, e.value.pos, count - 1); }
    }
  }

  lemma {:induction false} SlicesFit(buf: bytes, start: nat, es: seq<FileEntry>, i: nat)
    requires Slices(buf, start, es).Ok? && i < |es|
    ensures start + es[i].offset + es[i].size <= |buf|
    decreases |es|
  {
    if i > 0 { SlicesFit(buf, start, es[1..], i - 1); }
  }

  lemma LastEntryEndsPayload(before: seq<Item>, item: Item)
    requires |Payload(before + [item])| < TWO64
    ensures var e := EntriesFrom(before + [item])[|before|]; e.offset + e.size == |Payload(before + [item])|
  {
    PayloadSnoc(before, item);
    Below64(|Payload(before)|);
    Below64(|item.data|);
  }

  /** Every proper prefix of a block is rejected. */
  lemma ProperPrefixRejected(id: u64, items: seq<Item>, n: nat)
    requires Encodable(items) && n < |BlockBytes(id, items)|
    ensures Unpacked(BlockBytes(id, items)[..n]).Err?
  {
    if n >= 18 {
      CutBlockFails(BlockBytes(id, items), id, items, EntriesFrom(items), n);
    }
  }

  lemma CutBlockFails(buf: bytes, id: u64, items: seq<Item>, es: seq<FileEntry>, n: nat)
    requires Encodable(items) && es == EntriesFrom(items) && buf == Serialised(id, es, Payload(items))
    requires 18 <= n < |buf|
    ensures Unpacked(buf[..n]).Err?
  {
    var start := BlockReadsBack(buf, id, es, Payload(items));
    CutManifest(buf, n, start, es, items);
  }

  lemma CutHeader(buf: bytes, n: nat)
    requires 18 <= n <= |buf|
    ensures buf[..n][0..4] == buf[0..4] && buf[..n][14..18] == buf[14..18]
  {
  }

  lemma NoManifestNoBlock(buf: bytes, count: nat)
    requires |buf| >= 18 && FromLE(buf[14..18]) == count && ParseEntries(buf, 18, count).Err?
    ensures Unpacked(buf).Err?
  {
  }

  lemma CutManifest(buf: bytes, n: nat, start: nat, es: seq<FileEntry>, items: seq<Item>)
    requires Encodable(items) && es == EntriesFrom(items) && |buf| == start + |Payload(items)|
    requires 18 <= n < |buf| && FromLE(buf[0..4]) == MAGIC && FromLE(buf[14..18]) == |es|
    requires ParseEntries(buf, 18, |es|) == Ok(At(es, start))
    ensures Unpacked(buf[..n]).Err?
  {
    var cut := buf[..n];
    CutHeader(buf, n);
    EntriesPrefix(buf, n, 18, |es|);
    if ParseEntries(cut, 18, |es|).Ok? {
      CutSlicesFail(cut, start, items, |buf|);
      AfterHeader(cut, es, start);
    } else {
      NoManifestNoBlock(cut, |es|);
    }
  }

  lemma CutSlicesFail(cut: bytes, start: nat, items: seq<Item>, whole: nat)
    requires Encodable(items) && |cut| < whole == start + |Payload(items)|
    requires items == [] ==> start <= |cut|
    ensures Slices(cut, start, EntriesFrom(items)).Err?
  {
    if items != [] {
      var i := |items| - 1;
      assert items[..i] + [items[i]] == items;
      LastEntryEndsPayload(items[..i], items[i]);
      var r := Slices(cut, start, EntriesFrom(items));
      if r.Ok? { SlicesFit(cut, start, EntriesFrom(items), |items| - 1); }
    }
  }

  // ---- the writer fed with unframed payloads ----

  /** What the sender of crates/protocol/src/sender.rs:240-264 makes of the blocks. */
  function RawPieces(blocks: seq<bytes>): seq<bytes> {
    if blocks == [] then [] else Chunks(blocks[0], Sender.MAX_PAYLOAD) + RawPieces(blocks[1..])
  }

  ghost predicate IsBlock(b: bytes) {
    exists id: u64, items :: Encodable(items) && b == BlockBytes(id, items)
  }

  ghost predicate AreBlocks(blocks: seq<bytes>) {
    forall i | 0 <= i < |blocks| :: IsBlock(blocks[i])
  }

  ghost predicate Narrow(blocks: seq<bytes>) {
    forall i | 0 <= i < |blocks| :: |blocks[i]| <= Sender.MAX_PAYLOAD
  }

  /** The writer gets through its input exactly when every piece of it unpacks. */
  lemma {:induction false} AcceptedMeans(st: Progress, chunks: seq<bytes>)
    ensures FedChunks(st, chunks).0 <==> AllUnpack(chunks)
    decreases |chunks|
  {
    if chunks != [] {
      assert chunks[0] in chunks;
      HeadSplit(chunks);
      assert AllUnpack(chunks) <==> Unpacked(chunks[0]).Ok? && AllUnpack(chunks[1..]) by {
        assert forall c :: c in chunks <==> c == chunks[0] || c in chunks[1..];
      }
      if Unpacked(chunks[0]).Ok? { AcceptedMeans(FedAll(st, Unpacked(chunks[0]).value), chunks[1..]); }
    }
  }

  lemma BlockPieces(b: bytes)
    requires IsBlock(b)
    ensures |b| <= Sender.MAX_PAYLOAD ==> Chunks(b, Sender.MAX_PAYLOAD) == [b] && Unpacked(b).Ok?
    ensures |b| > Sender.MAX_PAYLOAD ==>
      Chunks(b, Sender.MAX_PAYLOAD)[0] == b[..Sender.MAX_PAYLOAD] && Unpacked(b[..Sender.MAX_PAYLOAD]).Err?
  {
    var id: u64, items :| Encodable(items) && b == BlockBytes(id, items);
    if |b| > Sender.MAX_PAYLOAD {
      ProperPrefixRejected(id, items, Sender.MAX_PAYLOAD);
    } else {
      UnpackInvertsPack(id, items);
      BlockNotEmpty(id, items);
    }
  }

  lemma BlockNotEmpty(id: u64, items: seq<Item>)
    ensures |BlockBytes(id, items)| >= 18
  {
  }

  /** Uncut blocks are their own pieces; the first piece of a cut one does not unpack. */
  lemma {:induction false} PiecesUnpack(blocks: seq<bytes>)
    requires AreBlocks(blocks)
    ensures Narrow(blocks) ==> RawPieces(blocks) == blocks
    ensures AllUnpack(RawPieces(blocks)) <==> Narrow(blocks)
    decreases |blocks|
  {
    if blocks != [] {
      var b, rest := blocks[0], blocks[1..];
      assert IsBlock(b) && AreBlocks(rest) by { assert forall i | 0 <= i < |rest| :: rest[i] == blocks[i + 1]; }
      BlockPieces(b);
      PiecesUnpack(rest);
      HeadSplit(blocks);
      NarrowCons(b, rest);
      UnpackAppend(Chunks(b, Sender.MAX_PAYLOAD), RawPieces(rest));
      if |b| > Sender.MAX_PAYLOAD { assert b[..Sender.MAX_PAYLOAD] in Chunks(b, Sender.MAX_PAYLOAD); }
    }
  }

  lemma NarrowCons(b: bytes, rest: seq<bytes>)
    ensures Narrow([b] + rest) <==> |b| <= Sender.MAX_PAYLOAD && Narrow(rest)
  {
    var all := [b] + rest;
    assert all[0] == b && forall i | 0 <= i < |rest| :: all[i + 1] == rest[i];
  }

  lemma UnpackAppend(a: seq<bytes>, b: seq<bytes>)
    ensures AllUnpack(a + b) <==> AllUnpack(a) && AllUnpack(b)
  {
    assert forall c :: c in a + b <==> c in a || c in b;
  }

  /** The pieces in any order, each at least once and any number of times: the writer gets through them if and only if
      no block was cut. */
  lemma PiecesAccepted(st: Progress, blocks: seq<bytes>, ps: seq<bytes>)
    requires AreBlocks(blocks) && forall c :: c in ps <==> c in RawPieces(blocks)
    ensures FedChunks(st, ps).0 <==> Narrow(blocks)
  {
    AcceptedMeans(st, ps);
    PiecesUnpack(blocks);
    assert AllUnpack(ps) <==> AllUnpack(RawPieces(blocks));
  }

  // ---- which transfers that lets through ----

  /** The bytes of a block that holds all the files: manifest entries and contents behind the 18-byte header. */
  function EntriesSize(files: seq<File>): nat {
    if files == [] then 0 else 26 + |files[0].path| + |files[0].data| + EntriesSize(files[1..])
  }

  predicate FitsOneDatagram(files: seq<File>) {
    files == [] || 18 + EntriesSize(files) <= Sender.MAX_PAYLOAD
  }

  function ItemsSize(items: seq<Item>): nat {
    if items == [] then 0
    else
      var last := items[|items| - 1];
      ItemsSize(items[..|items| - 1]) + 26 + |last.path| + |last.data|
  }

  lemma {:induction false} ManifestSnoc(es: seq<FileEntry>, e: FileEntry)
    ensures |ManifestBytes(es + [e])| == |ManifestBytes(es)| + 26 + |e.path|
  {
    if es == [] {
      assert (es + [e])[1..] == [];
    } else {
      ManifestSnoc(es[1..], e);
      assert (es + [e])[1..] == es[1..] + [e];
    }
  }

  lemma {:induction false} ManifestAndPayload(items: seq<Item>)
    ensures |ManifestBytes(EntriesFrom(items))| + |Payload(items)| == ItemsSize(items)
  {
    if items != [] {
      var before, x := items[..|items| - 1], items[|items| - 1];
      ManifestAndPayload(before);
      ManifestSnoc(EntriesFrom(before),
                   FileEntry(x.path, |Payload(before)| % TWO64, |x.data| % TWO64, x.part, x.total));
    }
  }

  lemma BlockSize(id: u64, items: seq<Item>)
    ensures |BlockBytes(id, items)| == 18 + ItemsSize(items)
  {
    ManifestAndPayload(items);
    SerialisedSize(id, EntriesFrom(items), Payload(items));
  }

  lemma {:induction false} ItemsSizeCons(x: Item, rest: seq<Item>)
    ensures ItemsSize([x] + rest) == 26 + |x.path| + |x.data| + ItemsSize(rest)
    decreases |rest|
  {
    if rest == [] {
      assert ([x] + rest)[..0] == [] && [x] + rest == [x];
    } else {
      ItemsSizeCons(x, rest[..|rest| - 1]);
      assert ([x] + rest)[..|rest|] == [x] + rest[..|rest| - 1];
    }
  }

  lemma {:induction false} SmallItemsSize(files: seq<File>)
    requires AllSmall(files)
    ensures ItemsSize(AllItems(files)) == EntriesSize(files)
  {
    if files != [] {
      assert AllSmall(files[1..]);
      SmallItemsSize(files[1..]);
      ItemsSizeCons(ItemsOf(files[0])[0], AllItems(files[1..]));
    }
  }

  /** Files that fit a block together are packed into one. */
  lemma {:induction false} PackedTogether(files: seq<File>, cur: seq<Item>)
    requires |Payload(cur)| + EntriesSize(files) <= BLOCK_SIZE
    ensures Pack(files, cur) == Flushed(cur + AllItems(files)) && AllSmall(files)
    decreases |files|
  {
    if files == [] {
      assert cur + [] == cur;
    } else {
      var item := Item(files[0].path, 0, 1, files[0].data);
      PayloadSnoc(cur, item);
      PackedTogether(files[1..], cur + [item]);
      Assoc(cur, [item], AllItems(files[1..]));
      assert forall i | 0 < i < |files| :: files[i] == files[1..][i - 1];
    }
  }

  /** A split file fills a block of its own. */
  lemma {:induction false} PartInPack(files: seq<File>, cur: seq<Item>, f: File)
    requires f in files && |f.data| > BLOCK_SIZE
    ensures |Parts(f)| > 0 && [Parts(f)[0]] in Pack(files, cur)
    decreases |files|
  {
    var g, rest := files[0], files[1..];
    var item := Item(g.path, 0, 1, g.data);
    ChunksShape(f.data, BLOCK_SIZE);
    HeadSplit(files);
    if g == f {
      assert Singles(Parts(f))[0] == [Parts(f)[0]];
      assert [Parts(f)[0]] in Singles(Parts(f));
    } else if |g.data| > BLOCK_SIZE {
      PartInPack(rest, [], f);
    } else if |Payload(cur)| + |g.data| > BLOCK_SIZE {
      PartInPack(rest, [item], f);
    } else {
      PartInPack(rest, cur + [item], f);
    }
  }

  lemma PartFillsBlock(id: u64, f: File)
    requires |f.data| > BLOCK_SIZE
    ensures |Parts(f)| > 0 && |BlockBytes(id, [Parts(f)[0]])| > BLOCK_SIZE
  {
    ChunksShape(f.data, BLOCK_SIZE);
    PartAt(f.path, Chunks(f.data, BLOCK_SIZE), 0, CeilDiv(|f.data|, BLOCK_SIZE) % TWO32, 0);
    BlockSize(id, [Parts(f)[0]]);
    ItemsSizeCons(Parts(f)[0], []);
    assert [Parts(f)[0]] + [] == [Parts(f)[0]];
  }

  lemma SplitIsWide(files: seq<File>, k: nat)
    requires k < |files|
    ensures |files[k].data| > BLOCK_SIZE ==> !Narrow(Wire(files))
  {
    if |files[k].data| > BLOCK_SIZE {
      PartInPack(files, [], files[k]);
      var i :| 0 <= i < |Pack(files, [])| && Pack(files, [])[i] == [Parts(files[k])[0]];
      PartFillsBlock(i % TWO64, files[k]);
      assert |Wire(files)[i]| > Sender.MAX_PAYLOAD;
    }
  }

  lemma WireSizes(files: seq<File>, i: nat)
    requires i < |Pack(files, [])|
    ensures |Wire(files)[i]| == 18 + ItemsSize(Pack(files, [])[i])
    ensures Sizes(Pack(files, []))[i] <= |Wire(files)[i]|
  {
    BlockSize(i % TWO64, Pack(files, [])[i]);
    ManifestAndPayload(Pack(files, [])[i]);
  }

  /** Two neighbouring blocks of small files overflow one block, so one of them is wider than a datagram. */
  lemma NeighboursAreWide(files: seq<File>)
    requires Storable(files) && AllSmall(files)
    ensures |Pack(files, [])| > 1 ==> !Narrow(Wire(files))
  {
    if |Pack(files, [])| > 1 {
      PackIsDense(files);
      WireSizes(files, 0);
      WireSizes(files, 1);
      assert Sizes(Pack(files, []))[0] + Sizes(Pack(files, []))[1] > BLOCK_SIZE;
      assert |Wire(files)[0]| > Sender.MAX_PAYLOAD || |Wire(files)[1]| > Sender.MAX_PAYLOAD;
    }
  }

  lemma NarrowIsOneBlock(files: seq<File>)
    requires Storable(files) && Narrow(Wire(files))
    ensures AllSmall(files) && |Pack(files, [])| <= 1
  {
    forall k | 0 <= k < |files| ensures |files[k].data| <= BLOCK_SIZE { SplitIsWide(files, k); }
    NeighboursAreWide(files);
  }

  lemma ConcatOne<T>(ss: seq<seq<T>>)
    requires |ss| <= 1 && Concat(ss) != []
    ensures ss == [Concat(ss)]
  {
    HeadSplit(ss);
    assert ss[1..] == [] && ss[0] + [] == ss[0];
  }

  lemma OneBlockIsAll(files: seq<File>)
    requires files != [] && AllSmall(files) && |Pack(files, [])| <= 1
    ensures Pack(files, []) == [AllItems(files)] && |Wire(files)[0]| == 18 + EntriesSize(files)
  {
    PackKeepsOrder(files, []);
    assert [] + AllItems(files) == AllItems(files);
    assert AllItems(files)[0] == ItemsOf(files[0])[0];
    ConcatOne(Pack(files, []));
    WireSizes(files, 0);
    SmallItemsSize(files);
  }

  lemma NarrowFits(files: seq<File>)
    requires Storable(files) && Narrow(Wire(files))
    ensures FitsOneDatagram(files)
  {
    if files != [] {
      NarrowIsOneBlock(files);
      OneBlockIsAll(files);
    }
  }

  lemma FitsIsNarrow(files: seq<File>)
    requires FitsOneDatagram(files)
    ensures Narrow(Wire(files))
  {
    if files != [] {
      PackedTogether(files, []);
      OneBlockIsAll(files);
    }
  }

  /** Every block fits a datagram if and only if the whole transfer does. */
  lemma NarrowMeans(files: seq<File>)
    requires Storable(files)
    ensures Narrow(Wire(files)) <==> FitsOneDatagram(files)
  {
    if FitsOneDatagram(files) { FitsIsNarrow(files); }
    if Narrow(Wire(files)) { NarrowFits(files); }
  }

  /** A transfer that is not in direct mode. However the pieces arrive, in any order and repeated any number of times
      as long as none is missing, the writer gets through them if and only if the whole transfer, manifest included,
      fits a single datagram; and then the files are restored. */
  lemma UnframedTransfer(files: seq<File>, ps: seq<bytes>, disk: map<Path, bytes>)
    requires DistinctPaths(files) && Storable(files)
    requires forall c :: c in ps <==> c in RawPieces(Wire(files))
    ensures var (ok, st) := FedChunks(START, ps);
      && (ok <==> FitsOneDatagram(files))
      && (ok ==> Restored(disk, files, Applied(disk, st.writes)))
  {
    WireIsBlocks(files);
    PiecesAccepted(START, Wire(files), ps);
    NarrowMeans(files);
    if Narrow(Wire(files)) {
      PiecesUnpack(Wire(files));
      AnyOrderOfBlocksRestores(files, ps, disk);
    }
  }

  lemma WireIsBlocks(files: seq<File>)
    requires Storable(files)
    ensures AreBlocks(Wire(files))
  {
    var packed := Pack(files, []);
    PackWellFormed(files, [], |files|);
    forall i | 0 <= i < |packed| ensures IsBlock(Wire(files)[i]) {
      assert WellFormed(packed[i], |files|);
      assert Wire(files)[i] == BlockBytes(i % TWO64, packed[i]);
    }
  }
}
