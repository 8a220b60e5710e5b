/** The writer over whole blocks: neither the order in which blocks arrive nor their repetition matters
    (crates/ioengine/src/writer.rs:105-161 fed with the blocks of crates/ioengine/src/packer.rs). */
module WriterOrder {
  import opened Bits
  import opened Bytes
  import opened Seqs
  import opened Packer
  import opened Unpacker
  import opened Packing
  import opened Writer
  import opened Reassembly
  import opened ExactlyOnce

  /** The block bytes, in packing order. */
  function Wire(files: seq<File>): (r: seq<bytes>)
    ensures |r| == |Pack(files, [])|
    ensures forall i | 0 <= i < |r| :: r[i] == Blocks(Pack(files, []))[i].data
  {
    var blocks := Blocks(Pack(files, []));
    seq(|blocks|, i requires 0 <= i < |blocks| => blocks[i].data)
  }

  function ItemsIn(chunk: bytes): seq<Item> {
    match Unpacked(chunk) case Ok(items) => items case Err(_) => []
  }

  function ItemsOfChunks(chunks: seq<bytes>): seq<Item> {
    if chunks == [] then [] else ItemsIn(chunks[0]) + ItemsOfChunks(chunks[1..])
  }

  ghost predicate AllUnpack(chunks: seq<bytes>) {
    forall c | c in chunks :: Unpacked(c).Ok?
  }

  lemma {:induction false} FedAllAppend(st: Progress, a: seq<Item>, b: seq<Item>)
    ensures FedAll(st, a + b) == FedAll(FedAll(st, a), b)
    decreases |a|
  {
    if a == [] {
      assert a + b == b;
    } else {
      assert (a + b)[1..] == a[1..] + b;
      FedAllAppend(Fed(st, a[0]), a[1..], b);
    }
  }

  /** Blocks that all unpack amount to feeding their items one after the other. */
  lemma {:induction false} FedChunksIs(st: Progress, chunks: seq<bytes>)
    requires AllUnpack(chunks)
    ensures FedChunks(st, chunks) == (true, FedAll(st, ItemsOfChunks(chunks)))
    decreases |chunks|
  {
    if chunks != [] {
      assert chunks[0] in chunks && forall c | c in chunks[1..] :: c in chunks;
      FedAllAppend(st, ItemsIn(chunks[0]), ItemsOfChunks(chunks[1..]));
      FedChunksIs(FedAll(st, ItemsIn(chunks[0])), chunks[1..]);
    }
  }

  lemma {:induction false} ItemOfSomeChunk(chunks: seq<bytes>, item: Item)
    ensures item in ItemsOfChunks(chunks) <==> exists c | c in chunks :: item in ItemsIn(c)
  {
    if chunks != [] {
      ItemOfSomeChunk(chunks[1..], item);
      assert forall c :: c in chunks <==> c == chunks[0] || c in chunks[1..];
    }
  }

  lemma {:induction false} ItemsOfChunksAre(chunks: seq<bytes>, packed: seq<seq<Item>>)
    requires |chunks| == |packed| && forall i | 0 <= i < |chunks| :: Unpacked(chunks[i]) == Ok(packed[i])
    ensures ItemsOfChunks(chunks) == Concat(packed)
    decreases |chunks|
  {
    if chunks != [] {
      assert forall i | 0 <= i < |chunks[1..]| :: chunks[1..][i] == chunks[i + 1] && packed[1..][i] == packed[i + 1];
      ItemsOfChunksAre(chunks[1..], packed[1..]);
    }
  }

  /** The blocks of a packing unpack to the items of its files, in order. */
  lemma WireUnpacks(files: seq<File>)
    requires Storable(files)
    ensures AllUnpack(Wire(files)) && ItemsOfChunks(Wire(files)) == AllItems(files)
  {
    var wire := Wire(files);
    forall i | 0 <= i < |wire| ensures Unpacked(wire[i]) == Ok(Pack(files, [])[i]) { BlocksUnpack(files, i); }
    ItemsOfChunksAre(wire, Pack(files, []));
    PackKeepsOrder(files, []);
    assert [] + AllItems(files) == AllItems(files);
  }

  /** Any permutation of the blocks, with any block repeated any number of times: the disk holds
      exactly the original files, and every other path is as it was. */
  lemma AnyOrderOfBlocksRestores(files: seq<File>, chunks: seq<bytes>, disk: map<Path, bytes>)
    requires DistinctPaths(files) && Storable(files)
    requires forall c :: c in chunks <==> c in Wire(files)
    ensures var (ok, st) := FedChunks(START, chunks); ok && Restored(disk, files, Applied(disk, st.writes))
  {
    WireUnpacks(files);
    FedChunksIs(START, chunks);
    forall item ensures item in ItemsOfChunks(chunks) <==> item in AllItems(files) {
      ItemOfSomeChunk(chunks, item);
      ItemOfSomeChunk(Wire(files), item);
    }
    AnyOrderRestores(files, ItemsOfChunks(chunks), disk);
  }

  function Bag(chunks: seq<bytes>): multiset<Item> {
    multiset(ItemsOfChunks(chunks))
  }

  lemma BagCons(c: bytes, rest: seq<bytes>)
    ensures Bag([c] + rest) == multiset(ItemsIn(c)) + Bag(rest)
  {
    assert ([c] + rest)[1..] == rest;
  }

  lemma Interchange(a: multiset<Item>, b: multiset<Item>, c: multiset<Item>)
    ensures a + (b + c) == b + (a + c)
  {
  }

  lemma {:induction false} BagWithout(chunks: seq<bytes>, k: nat)
    requires k < |chunks|
    ensures Bag(chunks) == multiset(ItemsIn(chunks[k])) + Bag(Without(chunks, k))
  {
    var c, rest := chunks[0], chunks[1..];
    HeadSplit(chunks);
    BagCons(c, rest);
    if k == 0 {
      WithoutFirst(chunks);
    } else {
      BagWithout(rest, k - 1);
      WithoutLater(chunks, k);
      BagCons(c, Without(rest, k - 1));
      Interchange(multiset(ItemsIn(c)), multiset(ItemsIn(chunks[k])), Bag(Without(rest, k - 1)));
    }
  }

  lemma {:induction false} BagPermuted(a: seq<bytes>, b: seq<bytes>)
    requires multiset(a) == multiset(b)
    ensures Bag(a) == Bag(b)
    decreases |a|
  {
    if a == [] {
      assert |multiset(b)| == |b| == 0;
    } else {
      assert a[0] in multiset(b);
      var k :| 0 <= k < |b| && b[k] == a[0];
      WithoutMultiset(a, 0);
      WithoutMultiset(b, k);
      BagWithout(a, 0);
      BagWithout(b, k);
      BagPermuted(Without(a, 0), Without(b, k));
    }
  }

  /** Each block once, in any order: the byte count is the sum of the file sizes, no partial file is
      left, and each file has been written exactly once. */
  lemma EachBlockOnceIsExact(files: seq<File>, chunks: seq<bytes>)
    requires DistinctPaths(files) && Storable(files)
    requires multiset(chunks) == multiset(Wire(files))
    ensures var (ok, st) := FedChunks(START, chunks);
      && ok && st.total == Sum(FileSizes(files)) && st.partial == map[]
      && multiset(st.writes) == multiset(WritesOf(files))
  {
    WireUnpacks(files);
    BagPermuted(chunks, Wire(files));
    forall c | c in chunks ensures c in Wire(files) { assert c in multiset(chunks); }
    FedChunksIs(START, chunks);
    OnceIsExact(files, ItemsOfChunks(chunks));
  }

  /** A transfer that stopped early, with no item repeated: a file is on its way to disk exactly when
      all its items arrived, and of the others exactly the arrived parts are kept. */
  lemma InterruptedIsExact(files: seq<File>, items: seq<Item>, f: File)
    requires DistinctPaths(files) && Storable(files) && f in files
    requires NoRepeats(items) && forall i | 0 <= i < |items| :: Owned(files, items[i])
    ensures var st := FedAll(START, items);
      && (WriteOf(f) in st.writes <==> forall item | item in ItemsOf(f) :: item in items)
      && (WriteOf(f) !in st.writes ==> KeptParts(st.partial, f.path) == FedParts(f, SetOf(items)))
  {
    StartIsExact(files);
    FedAllKeepsExact(files, {}, START, items);
    assert {} + SetOf(items) == SetOf(items);
    assert ExactFor(f, SetOf(items), FedAll(START, items));
    AllFedMeans(f, items);
  }

  lemma AllFedMeans(f: File, items: seq<Item>)
    ensures AllFed(f, SetOf(items)) <==> forall item | item in ItemsOf(f) :: item in items
  {
    var fed := SetOf(items);
    if AllFed(f, fed) {
      forall item | item in ItemsOf(f) ensures item in items {
        var k: nat :| k < |ItemsOf(f)| && ItemsOf(f)[k] == item;
        assert k in FedParts(f, fed);
      }
    }
  }
}
