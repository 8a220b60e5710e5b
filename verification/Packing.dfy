/** What packing guarantees: nothing lost or reordered, every block within its size, and next-fit density. */
module Packing {
  import opened Bits
  import opened Bytes
  import opened Seqs
  import opened Packer
  import opened Unpacker

  /** What the 4-byte part and count fields of the manifest can express. */
  predicate Storable(files: seq<File>) {
    |files| < TWO32 && forall i | 0 <= i < |files| :: CeilDiv(|files[i].data|, BLOCK_SIZE) < TWO32
  }

  // ---- the parts of a file ----

  function DataOf(items: seq<Item>): (r: seq<bytes>)
    ensures |r| == |items|
    ensures forall i | 0 <= i < |items| :: r[i] == items[i].data
  {
    seq(|items|, i requires 0 <= i < |items| => items[i].data)
  }

  /** Items are the consecutive parts 0..n-1 of the file, and their bytes join up to it. */
  ghost predicate PartsOfFile(items: seq<Item>, f: File) {
    && (forall i: nat | i < |items| :: items[i].path == f.path && items[i].part == i && items[i].total == |items|
                                       && |items[i].data| <= BLOCK_SIZE)
    && Concat(DataOf(items)) == f.data
  }

  /** A file of at most a block is one item with total_parts 1; a larger one is
      ceil(len / BLOCK_SIZE) >= 2 consecutive parts. */
  lemma ItemsAreParts(f: File)
    requires CeilDiv(|f.data|, BLOCK_SIZE) < TWO32
    ensures PartsOfFile(ItemsOf(f), f)
    ensures |ItemsOf(f)| == (if |f.data| <= BLOCK_SIZE then 1 else CeilDiv(|f.data|, BLOCK_SIZE))
    ensures |f.data| > BLOCK_SIZE ==> |ItemsOf(f)| >= 2
  {
    var items := ItemsOf(f);
    if |f.data| > BLOCK_SIZE {
      var chunks := Chunks(f.data, BLOCK_SIZE);
      ChunksShape(f.data, BLOCK_SIZE);
      Below32(|chunks|);
      forall i: nat | i < |chunks| ensures items[i] == Item(f.path, i, |chunks|, chunks[i]) {
        Below32(i);
        PartAt(f.path, chunks, 0, |chunks|, i);
      }
      assert DataOf(items) == chunks;
      ConcatChunks(f.data, BLOCK_SIZE);
    } else {
      assert DataOf(items) == [f.data];
      ConcatSnoc([], f.data);
      assert [] + [f.data] == [f.data];
    }
  }

  // ---- order and conservation ----

  lemma {:induction false} ConcatSingles(items: seq<Item>)
    ensures Concat(Singles(items)) == items
  {
    if items != [] {
      ConcatSingles(items[1..]);
      assert Singles(items)[1..] == Singles(items[1..]);
    }
  }

  lemma ConcatFlushed(cur: seq<Item>)
    ensures Concat(Flushed(cur)) == cur
  {
    if cur != [] { assert [cur][1..] == []; }
  }

  lemma OrderWithFlush(cur: seq<Item>, blocks: seq<seq<Item>>, items: seq<Item>)
    requires Concat(blocks) == items
    ensures Concat(Flushed(cur) + blocks) == cur + items
  {
    ConcatFlushed(cur);
    ConcatAppend(Flushed(cur), blocks);
  }

  lemma OrderWithParts(parts: seq<Item>, blocks: seq<seq<Item>>, items: seq<Item>)
    requires Concat(blocks) == [] + items
    ensures Concat(Singles(parts) + blocks) == parts + items
  {
    ConcatSingles(parts);
    ConcatAppend(Singles(parts), blocks);
    assert [] + items == items;
  }

  /** The blocks, read in order, are the items of the files in order. */
  lemma {:induction false} PackKeepsOrder(files: seq<File>, cur: seq<Item>)
    ensures Concat(Pack(files, cur)) == cur + AllItems(files)
    decreases |files|
  {
    if files == [] {
      ConcatFlushed(cur);
      assert cur + [] == cur;
    } else {
      var f, rest := files[0], files[1..];
      var item := Item(f.path, 0, 1, f.data);
      if |f.data| > BLOCK_SIZE {
        PackKeepsOrder(rest, []);
        OrderWithParts(Parts(f), Pack(rest, []), AllItems(rest));
        OrderWithFlush(cur, Singles(Parts(f)) + Pack(rest, []), Parts(f) + AllItems(rest));
      } else if |Payload(cur)| + |f.data| > BLOCK_SIZE {
        PackKeepsOrder(rest, [item]);
        OrderWithFlush(cur, Pack(rest, [item]), [item] + AllItems(rest));
      } else {
        PackKeepsOrder(rest, cur + [item]);
        Assoc(cur, [item], AllItems(rest));
      }
    }
  }

  // ---- block shapes ----

  ghost predicate WellFormed(block: seq<Item>, maxItems: nat) {
    block != [] && |Payload(block)| <= BLOCK_SIZE && |block| <= maxItems
  }

  lemma {:induction false} PackWellFormed(files: seq<File>, cur: seq<Item>, maxItems: nat)
    requires |Payload(cur)| <= BLOCK_SIZE && |cur| + |files| <= maxItems
    ensures forall i | 0 <= i < |Pack(files, cur)| :: WellFormed(Pack(files, cur)[i], maxItems)
    decreases |files|
  {
    if files != [] {
      var f, rest := files[0], files[1..];
      var item := Item(f.path, 0, 1, f.data);
      if |f.data| > BLOCK_SIZE {
        ChunksShape(f.data, BLOCK_SIZE);
        forall i: nat | i < |Parts(f)| ensures WellFormed([Parts(f)[i]], maxItems) {
          PartAt(f.path, Chunks(f.data, BLOCK_SIZE), 0, CeilDiv(|f.data|, BLOCK_SIZE) % TWO32, i);
          SingleItem(Parts(f)[i]);
        }
        PackWellFormed(rest, [], maxItems);
      } else if |Payload(cur)| + |f.data| > BLOCK_SIZE {
        SingleItem(item);
        PackWellFormed(rest, [item], maxItems);
      } else {
        PayloadSnoc(cur, item);
        PackWellFormed(rest, cur + [item], maxItems);
      }
    }
  }

  lemma {:induction false} BlocksAtMostItems(packed: seq<seq<Item>>)
    requires forall i | 0 <= i < |packed| :: packed[i] != []
    ensures |packed| <= |Concat(packed)|
  {
    if packed != [] {
      assert packed[0] != [] && forall i | 0 <= i < |packed[1..]| :: packed[1..][i] == packed[i + 1];
      BlocksAtMostItems(packed[1..]);
    }
  }

  lemma {:induction false} ItemCount(files: seq<File>)
    requires Storable(files)
    ensures |AllItems(files)| <= |files| * 0xFFFF_FFFF
  {
    if files != [] {
      ItemsAreParts(files[0]);
      ItemCount(files[1..]);
    }
  }

  /** The 8-byte block id cannot run out. */
  lemma BlockCount(files: seq<File>)
    requires Storable(files)
    ensures |Pack(files, [])| < TWO64
  {
    PackWellFormed(files, [], |files|);
    forall i | 0 <= i < |Pack(files, [])| ensures Pack(files, [])[i] != [] {
      assert WellFormed(Pack(files, [])[i], |files|);
    }
    BlocksAtMostItems(Pack(files, []));
    PackKeepsOrder(files, []);
    assert [] + AllItems(files) == AllItems(files);
    ItemCount(files);
  }

  /** Blocks are numbered 0, 1, ..., each is within BLOCK_SIZE, and each unpacks to exactly its items. */
  lemma BlocksUnpack(files: seq<File>, i: nat)
    requires Storable(files) && i < |Pack(files, [])|
    ensures var blocks := Blocks(Pack(files, []));
      && |blocks| == |Pack(files, [])|
      && blocks[i].id == i
      && |Payload(Pack(files, [])[i])| <= 0x100_0000
      && Unpacked(blocks[i].data) == Ok(Pack(files, [])[i])
  {
    var packed := Pack(files, []);
    PackWellFormed(files, [], |files|);
    assert WellFormed(packed[i], |files|);
    BlockCount(files);
    Below64(i);
    UnpackInvertsPack(i, packed[i]);
  }

  /** Every block of a packing, read back from its bytes: the manifest tiles what follows it. */
  lemma BlocksTile(files: seq<File>, i: nat) returns (es: seq<FileEntry>, start: nat)
    requires Storable(files) && i < |Pack(files, [])|
    ensures var data := Blocks(Pack(files, []))[i].data;
      && |data| >= 18 && ParseEntries(data, 18, FromLE(data[14..18])) == Ok(At(es, start))
      && start <= |data| && Tiles(es, data[start..]) && |es| == |Pack(files, [])[i]|
  {
    var items := Pack(files, [])[i];
    PackWellFormed(files, [], |files|);
    assert WellFormed(items, |files|);
    es := EntriesFrom(items);
    start := BlockReadsBack(Blocks(Pack(files, []))[i].data, i % TWO64, es, Payload(items));
    EntriesTile(items);
  }

  /** What a reader gets by unpacking block after block. */
  function UnpackedAll(blocks: seq<PackBlock>): Result<seq<Item>, Error> {
    if blocks == [] then Ok([])
    else
      match (Unpacked(blocks[0].data), UnpackedAll(blocks[1..]))
      case (Ok(a), Ok(b)) => Ok(a + b)
      case (Err(e), _) => Err(e)
      case (_, Err(e)) => Err(e)
  }

  lemma {:induction false} UnpackedAllIs(blocks: seq<PackBlock>, packed: seq<seq<Item>>)
    requires |blocks| == |packed| && forall i | 0 <= i < |blocks| :: Unpacked(blocks[i].data) == Ok(packed[i])
    ensures UnpackedAll(blocks) == Ok(Concat(packed))
    decreases |blocks|
  {
    if blocks != [] {
      assert forall i | 0 <= i < |blocks[1..]| :: blocks[1..][i] == blocks[i + 1] && packed[1..][i] == packed[i + 1];
      UnpackedAllIs(blocks[1..], packed[1..]);
    }
  }

  /** Packing then unpacking returns the files' items in order: each small file once, each large one
      as its consecutive parts. */
  lemma PackRoundTrip(files: seq<File>)
    requires Storable(files)
    ensures UnpackedAll(Blocks(Pack(files, []))) == Ok(AllItems(files))
  {
    var packed := Pack(files, []);
    var blocks := Blocks(packed);
    forall i | 0 <= i < |blocks| ensures Unpacked(blocks[i].data) == Ok(packed[i]) { BlocksUnpack(files, i); }
    UnpackedAllIs(blocks, packed);
    PackKeepsOrder(files, []);
    assert [] + AllItems(files) == AllItems(files);
  }

  // ---- bytes and density ----

  function Sizes(packed: seq<seq<Item>>): (r: seq<nat>)
    ensures |r| == |packed|
    ensures forall i | 0 <= i < |packed| :: r[i] == |Payload(packed[i])|
  {
    seq(|packed|, i requires 0 <= i < |packed| => |Payload(packed[i])|)
  }

  function FileSizes(files: seq<File>): (r: seq<nat>)
    ensures |r| == |files|
    ensures forall i | 0 <= i < |files| :: r[i] == |files[i].data|
  {
    seq(|files|, i requires 0 <= i < |files| => |files[i].data|)
  }

  lemma {:induction false} PayloadAppend(a: seq<Item>, b: seq<Item>)
    ensures Payload(a + b) == Payload(a) + Payload(b)
  {
    if b == [] {
      assert a + b == a;
    } else {
      var before, x := b[..|b| - 1], b[|b| - 1];
      PayloadAppend(a, before);
      PayloadAppendOne(a, before, x);
      assert b == before + [x];
    }
  }

  lemma PayloadAppendOne(a: seq<Item>, b: seq<Item>, x: Item)
    requires Payload(a + b) == Payload(a) + Payload(b)
    ensures Payload(a + (b + [x])) == Payload(a) + Payload(b + [x])
  {
    Assoc(a, b, [x]);
    PayloadSnoc(a + b, x);
    PayloadSnoc(b, x);
    Assoc(Payload(a), Payload(b), x.data);
  }

  lemma {:induction false} SizesSum(packed: seq<seq<Item>>)
    ensures Sum(Sizes(packed)) == |Payload(Concat(packed))|
  {
    if packed != [] {
      SizesSum(packed[1..]);
      PayloadAppend(packed[0], Concat(packed[1..]));
      assert Sizes(packed)[1..] == Sizes(packed[1..]);
    }
  }

  lemma {:induction false} PayloadIsConcat(items: seq<Item>)
    ensures Payload(items) == Concat(DataOf(items))
  {
    if items != [] {
      var i := |items| - 1;
      PayloadIsConcat(items[..i]);
      ConcatSnoc(DataOf(items[..i]), items[i].data);
      assert DataOf(items) == DataOf(items[..i]) + [items[i].data];
    }
  }

  lemma {:induction false} AllItemsBytes(files: seq<File>)
    requires Storable(files)
    ensures |Payload(AllItems(files))| == Sum(FileSizes(files))
  {
    if files != [] {
      AllItemsBytes(files[1..]);
      ItemsAreParts(files[0]);
      PayloadIsConcat(ItemsOf(files[0]));
      PayloadAppend(ItemsOf(files[0]), AllItems(files[1..]));
      assert FileSizes(files)[1..] == FileSizes(files[1..]);
    }
  }

  /** Bytes are conserved: the payload sizes add up to the file sizes. */
  lemma BytesConserved(files: seq<File>)
    requires Storable(files)
    ensures Sum(Sizes(Pack(files, []))) == Sum(FileSizes(files))
  {
    SizesSum(Pack(files, []));
    PackKeepsOrder(files, []);
    assert [] + AllItems(files) == AllItems(files);
    AllItemsBytes(files);
  }

  ghost predicate NextFit(sizes: seq<nat>) {
    forall i | 0 <= i < |sizes| - 1 :: sizes[i] + sizes[i + 1] > BLOCK_SIZE
  }

  lemma NextFitCons(x: nat, sizes: seq<nat>)
    requires NextFit(sizes) && (sizes != [] ==> x + sizes[0] > BLOCK_SIZE)
    ensures NextFit([x] + sizes)
  {
    var s := [x] + sizes;
    forall i | 0 <= i < |s| - 1 ensures s[i] + s[i + 1] > BLOCK_SIZE {
      if i > 0 { assert s[i] == sizes[i - 1] && s[i + 1] == sizes[i]; }
    }
  }

  ghost predicate AllSmall(files: seq<File>) {
    forall i | 0 <= i < |files| :: |files[i].data| <= BLOCK_SIZE
  }

  lemma CloseBlock(cur: seq<Item>, packed: seq<seq<Item>>)
    requires NextFit(Sizes(packed)) && packed != [] && |Payload(cur)| + Sizes(packed)[0] > BLOCK_SIZE
    requires |Payload(cur)| > 0
    ensures NextFit(Sizes(Flushed(cur) + packed)) && Sizes(Flushed(cur) + packed)[0] == |Payload(cur)|
  {
    NextFitCons(|Payload(cur)|, Sizes(packed));
    SizesCons(cur, packed);
  }

  lemma SizesCons(block: seq<Item>, packed: seq<seq<Item>>)
    ensures Sizes([block] + packed) == [|Payload(block)|] + Sizes(packed)
  {
  }

  /** A block is closed only when the next file does not fit: two neighbours always overflow one block. */
  lemma {:induction false} PackIsNextFit(files: seq<File>, cur: seq<Item>)
    requires AllSmall(files) && |Payload(cur)| <= BLOCK_SIZE
    ensures NextFit(Sizes(Pack(files, cur)))
    ensures cur != [] ==> Pack(files, cur) != [] && Sizes(Pack(files, cur))[0] >= |Payload(cur)|
    decreases |files|
  {
    if files != [] {
      var f, rest := files[0], files[1..];
      var item := Item(f.path, 0, 1, f.data);
      assert AllSmall(rest);
      if |Payload(cur)| + |f.data| > BLOCK_SIZE {
        SingleItem(item);
        PackIsNextFit(rest, [item]);
        CloseBlock(cur, Pack(rest, [item]));
      } else {
        PayloadSnoc(cur, item);
        PackIsNextFit(rest, cur + [item]);
      }
    }
  }

  lemma {:induction false} NextFitBound(sizes: seq<nat>)
    requires NextFit(sizes) && sizes != []
    ensures (|sizes| - 1) * BLOCK_SIZE + sizes[0] <= 2 * Sum(sizes)
  {
    if |sizes| > 1 {
      assert forall i | 0 <= i < |sizes[1..]| :: sizes[1..][i] == sizes[i + 1];
      NextFitBound(sizes[1..]);
    } else {
      assert sizes[1..] == [];
    }
  }

  /** Without split files, m blocks hold more than (m - 1) / 2 blocks' worth of bytes. */
  lemma PackIsDense(files: seq<File>)
    requires Storable(files) && AllSmall(files)
    ensures NextFit(Sizes(Pack(files, [])))
    ensures (|Pack(files, [])| - 1) * BLOCK_SIZE <= 2 * Sum(FileSizes(files))
  {
    PackIsNextFit(files, []);
    BytesConserved(files);
    if Pack(files, []) != [] { NextFitBound(Sizes(Pack(files, []))); }
  }
}
