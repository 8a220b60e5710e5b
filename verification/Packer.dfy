/** The bulk packer: small files share a block, large ones are split, and a block starts with a
    binary manifest (crates/ioengine/src/packer.rs). */
module Packer {
  import opened Bits
  import opened Bytes
  import opened Seqs
  import Utf8

  const BLOCK_SIZE: nat := 16 * 1024 * 1024
  const MAGIC: u32 := 0x5544_5058
  const VERSION: u16 := 1

  /** A relative path as the manifest stores it: UTF-8 whose length fits the 2-byte field. */
  type Path = p: bytes | |p| < TWO16 && Utf8.WellFormed(p)

  datatype File = File(path: Path, data: bytes)

  datatype FileEntry = FileEntry(path: Path, offset: u64, size: u64, partIndex: u32, totalParts: u32)

  datatype PackBlock = PackBlock(id: u64, data: bytes)

  /** One manifest entry together with the bytes it stands for. */
  datatype Item = Item(path: Path, part: u32, total: u32, data: bytes)

  // ---- which items a file becomes, and which block each goes to ----

  function PartsFrom(path: Path, chunks: seq<bytes>, index: nat, total: u32): (r: seq<Item>)
    ensures |r| == |chunks|
    decreases |chunks|
  {
    if chunks == [] then []
    else [Item(path, index % TWO32, total, chunks[0])] + PartsFrom(path, chunks[1..], index + 1, total)
  }

  function Parts(f: File): seq<Item> {
    PartsFrom(f.path, Chunks(f.data, BLOCK_SIZE), 0, CeilDiv(|f.data|, BLOCK_SIZE) % TWO32)
  }

  /** One whole item, or the parts of a file larger than a block. */
  function ItemsOf(f: File): seq<Item> {
    if |f.data| > BLOCK_SIZE then Parts(f) else [Item(f.path, 0, 1, f.data)]
  }

  function AllItems(files: seq<File>): seq<Item> {
    if files == [] then [] else ItemsOf(files[0]) + AllItems(files[1..])
  }

  function Payload(items: seq<Item>): bytes {
    if items == [] then [] else Payload(items[..|items| - 1]) + items[|items| - 1].data
  }

  /** `flush`: an empty accumulator yields no block. */
  function Flushed(cur: seq<Item>): seq<seq<Item>> {
    if cur == [] then [] else [cur]
  }

  function Singles(items: seq<Item>): (r: seq<seq<Item>>)
    ensures |r| == |items|
    ensures forall i | 0 <= i < |items| :: r[i] == [items[i]]
  {
    seq(|items|, i requires 0 <= i < |items| => [items[i]])
  }

  /** Next-fit packing: the blocks, as lists of items, with `cur` still open. */
  function Pack(files: seq<File>, cur: seq<Item>): seq<seq<Item>> {
    if files == [] then Flushed(cur)
    else
      var f, rest := files[0], files[1..];
      if |f.data| > BLOCK_SIZE then Flushed(cur) + (Singles(Parts(f)) + Pack(rest, []))
      else
        var item := Item(f.path, 0, 1, f.data);
        if |Payload(cur)| + |f.data| > BLOCK_SIZE then Flushed(cur) + Pack(rest, [item])
        else Pack(rest, cur + [item])
  }

  // ---- the wire form of a block ----

  function EntriesFrom(items: seq<Item>): (r: seq<FileEntry>)
    ensures |r| == |items|
  {
    if items == [] then []
    else
      var i := |items| - 1;
      EntriesFrom(items[..i]) +
      [FileEntry(items[i].path, |Payload(items[..i])| % TWO64, |items[i].data| % TWO64, items[i].part, items[i].total)]
  }

  function EntryBytes(e: FileEntry): (r: bytes)
    ensures |r| == 26 + |e.path|
  {
    LE(|e.path|, 2) + (e.path + EntryTail(e))
  }

  function EntryTail(e: FileEntry): (r: bytes)
    ensures |r| == 24
  {
    LE(e.offset, 8) + (LE(e.size, 8) + (LE(e.partIndex, 4) + LE(e.totalParts, 4)))
  }

  function ManifestBytes(es: seq<FileEntry>): bytes {
    if es == [] then [] else EntryBytes(es[0]) + ManifestBytes(es[1..])
  }

  function Serialised(id: u64, es: seq<FileEntry>, payload: bytes): bytes {
    LE(MAGIC, 4) + (LE(VERSION, 2) + (LE(id, 8) + (LE(|es| % TWO32, 4) + (ManifestBytes(es) + payload))))
  }

  function BlockBytes(id: u64, items: seq<Item>): bytes {
    Serialised(id, EntriesFrom(items), Payload(items))
  }

  /** The blocks on the wire, numbered from 0. */
  function Blocks(packed: seq<seq<Item>>): (r: seq<PackBlock>)
    ensures |r| == |packed|
  {
    seq(|packed|, i requires 0 <= i < |packed| => PackBlock(i % TWO64, BlockBytes(i % TWO64, packed[i])))
  }

  // ---- the packing method ----

  method Serialise(id: u64, entries: seq<FileEntry>, payload: bytes) returns (data: bytes)
    ensures data == Serialised(id, entries, payload)
  {
    var body: bytes := [];
    for i := 0 to |entries|
      invariant body + ManifestBytes(entries[i..]) == ManifestBytes(entries)
    {
      var e := entries[i];
      assert entries[i..][1..] == entries[i + 1..];
      body := body + EntryBytes(e);
    }
    data := LE(MAGIC, 4) + (LE(VERSION, 2) + (LE(id, 8) + (LE(|entries| % TWO32, 4) + (body + payload))));
  }

  /** The accumulator of the block under construction, as the packing loop holds it. */
  ghost predicate Accumulates(entries: seq<FileEntry>, payload: bytes, cur: seq<Item>) {
    entries == EntriesFrom(cur) && payload == Payload(cur)
  }

  /** What has been produced so far, and the next id. */
  ghost predicate Emitted(blocks: seq<PackBlock>, blockId: nat, packed: seq<seq<Item>>) {
    blocks == Blocks(packed) && blockId == |packed|
  }

  lemma EmitOne(blocks: seq<PackBlock>, blockId: nat, packed: seq<seq<Item>>, items: seq<Item>)
    requires Emitted(blocks, blockId, packed)
    ensures Emitted(blocks + [PackBlock(blockId % TWO64, BlockBytes(blockId % TWO64, items))], blockId + 1,
                    packed + [items])
  {
  }

  method Flush(blocks: seq<PackBlock>, blockId: nat, entries: seq<FileEntry>, payload: bytes,
               ghost cur: seq<Item>, ghost packed: seq<seq<Item>>)
    returns (blocks': seq<PackBlock>, blockId': nat)
    requires Accumulates(entries, payload, cur) && Emitted(blocks, blockId, packed)
    ensures Emitted(blocks', blockId', packed + Flushed(cur))
  {
    if entries == [] {
      assert packed + [] == packed;
      return blocks, blockId;
    }
    var data := Serialise(blockId % TWO64, entries, payload);
    EmitOne(blocks, blockId, packed, cur);
    blocks', blockId' := blocks + [PackBlock(blockId % TWO64, data)], blockId + 1;
  }

  lemma {:induction false} PartAt(path: Path, chunks: seq<bytes>, index: nat, total: u32, i: nat)
    requires i < |chunks|
    ensures PartsFrom(path, chunks, index, total)[i] == Item(path, (index + i) % TWO32, total, chunks[i])
    decreases i
  {
    if i > 0 { PartAt(path, chunks[1..], index + 1, total, i - 1); }
  }

  /** A block with a single entry at offset 0. */
  method EmitPart(part: Item, blocks: seq<PackBlock>, blockId: nat, ghost packed: seq<seq<Item>>)
    returns (blocks': seq<PackBlock>, blockId': nat)
    requires Emitted(blocks, blockId, packed)
    ensures Emitted(blocks', blockId', packed + [[part]])
  {
    var entry := FileEntry(part.path, 0, |part.data| % TWO64, part.part, part.total);
    var data := Serialise(blockId % TWO64, [entry], part.data);
    SingleItem(part);
    EmitOne(blocks, blockId, packed, [part]);
    blocks', blockId' := blocks + [PackBlock(blockId % TWO64, data)], blockId + 1;
  }

  lemma PartIs(f: File, i: nat)
    requires i < |Chunks(f.data, BLOCK_SIZE)|
    ensures var chunks := Chunks(f.data, BLOCK_SIZE);
      Parts(f)[i] == Item(f.path, i % TWO32, CeilDiv(|f.data|, BLOCK_SIZE) % TWO32, chunks[i])
  {
    PartAt(f.path, Chunks(f.data, BLOCK_SIZE), 0, CeilDiv(|f.data|, BLOCK_SIZE) % TWO32, i);
    assert 0 + i == i;
  }

  lemma SinglesSnoc(parts: seq<Item>, i: nat)
    requires i < |parts|
    ensures Singles(parts[..i + 1]) == Singles(parts[..i]) + [[parts[i]]]
  {
  }

  lemma PartAdded(packed: seq<seq<Item>>, parts: seq<Item>, i: nat)
    requires i < |parts|
    ensures packed + Singles(parts[..i + 1]) == (packed + Singles(parts[..i])) + [[parts[i]]]
  {
    SinglesSnoc(parts, i);
    Assoc(packed, Singles(parts[..i]), [[parts[i]]]);
  }

  /** Each chunk of a large file becomes a block of its own. */
  method SplitFile(f: File, blocks: seq<PackBlock>, blockId: nat, ghost packed: seq<seq<Item>>)
    returns (blocks': seq<PackBlock>, blockId': nat)
    requires Emitted(blocks, blockId, packed)
    ensures Emitted(blocks', blockId', packed + Singles(Parts(f)))
  {
    var total := CeilDiv(|f.data|, BLOCK_SIZE) % TWO32;
    var chunks := Chunks(f.data, BLOCK_SIZE);
    ghost var parts := Parts(f);
    blocks', blockId' := blocks, blockId;
    assert packed + Singles(parts[..0]) == packed;
    for i := 0 to |chunks|
      invariant Emitted(blocks', blockId', packed + Singles(parts[..i]))
    {
      PartIs(f, i);
      ghost var before := packed + Singles(parts[..i]);
      blocks', blockId' := EmitPart(Item(f.path, i % TWO32, total, chunks[i]), blocks', blockId', before);
      PartAdded(packed, parts, i);
    }
    assert parts[..|chunks|] == parts;
  }

  lemma SingleItem(item: Item)
    ensures Payload([item]) == item.data
    ensures EntriesFrom([item]) == [FileEntry(item.path, 0, |item.data| % TWO64, item.part, item.total)]
  {
    assert [item][..0] == [];
  }

  lemma PayloadSnoc(cur: seq<Item>, item: Item)
    ensures Payload(cur + [item]) == Payload(cur) + item.data
    ensures EntriesFrom(cur + [item]) ==
            EntriesFrom(cur) +
            [FileEntry(item.path, |Payload(cur)| % TWO64, |item.data| % TWO64, item.part, item.total)]
  {
    assert (cur + [item])[..|cur|] == cur;
  }

  /** `pack_files`: ids count up from 0, and the blocks are the wire forms of the next-fit packing. */
  method PackFiles(files: seq<File>) returns (blocks: seq<PackBlock>)
    ensures blocks == Blocks(Pack(files, []))
  {
    blocks := [];
    var blockId: nat := 0;
    var entries: seq<FileEntry> := [];
    var payload: bytes := [];
    ghost var cur: seq<Item> := [];
    ghost var packed: seq<seq<Item>> := [];
    for i := 0 to |files|
      invariant Accumulates(entries, payload, cur)
      invariant Emitted(blocks, blockId, packed)
      invariant packed + Pack(files[i..], cur) == Pack(files, [])
    {
      var f := files[i];
      PackStep(files, i, cur);
      if |f.data| > BLOCK_SIZE {
        Regrouped(packed, Flushed(cur), Singles(Parts(f)), Pack(files[i + 1..], []));
        blocks, blockId := Flush(blocks, blockId, entries, payload, cur, packed);
        packed := packed + Flushed(cur);
        entries, payload, cur := [], [], [];
        blocks, blockId := SplitFile(f, blocks, blockId, packed);
        packed := packed + Singles(Parts(f));
      } else {
        Regrouped(packed, Flushed(cur), [], Pack(files[i + 1..], [] + [Item(f.path, 0, 1, f.data)]));
        if |payload| + |f.data| > BLOCK_SIZE {
          blocks, blockId := Flush(blocks, blockId, entries, payload, cur, packed);
          packed := packed + Flushed(cur);
          entries, payload, cur := [], [], [];
        }
        var entry := FileEntry(f.path, |payload| % TWO64, |f.data| % TWO64, 0, 1);
        PayloadSnoc(cur, Item(f.path, 0, 1, f.data));
        payload := payload + f.data;
        entries := entries + [entry];
        cur := cur + [Item(f.path, 0, 1, f.data)];
      }
    }
    blocks, blockId := Flush(blocks, blockId, entries, payload, cur, packed);
  }

  lemma Regrouped<T>(a: seq<T>, b: seq<T>, c: seq<T>, d: seq<T>)
    ensures a + (b + (c + d)) == ((a + b) + c) + d
    ensures c == [] ==> a + (b + d) == (a + b) + d
  {
  }

  /** One turn of the packing loop. */
  lemma PackStep(files: seq<File>, i: nat, cur: seq<Item>)
    requires i < |files|
    ensures var f := files[i];
      var item := Item(f.path, 0, 1, f.data);
      Pack(files[i..], cur) ==
        if |f.data| > BLOCK_SIZE then Flushed(cur) + (Singles(Parts(f)) + Pack(files[i + 1..], []))
        else if |Payload(cur)| + |f.data| > BLOCK_SIZE then Flushed(cur) + Pack(files[i + 1..], [] + [item])
        else Pack(files[i + 1..], cur + [item])
  {
    assert files[i..][1..] == files[i + 1..];
    assert [] + [Item(files[i].path, 0, 1, files[i].data)] == [Item(files[i].path, 0, 1, files[i].data)];
  }
}
