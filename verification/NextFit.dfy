/** Next-fit, stated without the algorithm: which packing the packer produces, and that there is no other. */
module NextFit {
  import opened Bits
  import opened Seqs
  import opened Packer
  import opened Packing

  predicate Unsplit(block: seq<Item>) {
    forall i | 0 <= i < |block| :: block[i].total == 1
  }

  /** A block holds whole files, or a single part of a larger one. */
  ghost predicate Fits(block: seq<Item>) {
    block != [] && |Payload(block)| <= BLOCK_SIZE && (Unsplit(block) || |block| == 1)
  }

  /** The first file of a block of whole files did not fit the block of whole files before it. */
  ghost predicate Overflows(a: seq<Item>, b: seq<Item>)
    requires b != []
  {
    Unsplit(a) && Unsplit(b) ==> |Payload(a)| + |b[0].data| > BLOCK_SIZE
  }

  ghost predicate IsNextFit(blocks: seq<seq<Item>>) {
    && (forall i | 0 <= i < |blocks| :: Fits(blocks[i]))
    && forall i | 0 <= i < |blocks| - 1 :: Overflows(blocks[i], blocks[i + 1])
  }

  lemma NextFitCons(a: seq<Item>, blocks: seq<seq<Item>>)
    requires Fits(a) && IsNextFit(blocks) && (blocks != [] ==> Overflows(a, blocks[0]))
    ensures IsNextFit([a] + blocks)
  {
    var all := [a] + blocks;
    forall i | 0 <= i < |all| - 1 ensures Overflows(all[i], all[i + 1]) {
      if i > 0 { assert all[i] == blocks[i - 1] && all[i + 1] == blocks[i]; }
    }
  }

  // ---- the packer's blocks ----

  lemma {:induction false} SinglesFit(items: seq<Item>, rest: seq<seq<Item>>)
    requires forall i | 0 <= i < |items| :: items[i].total != 1 && |items[i].data| <= BLOCK_SIZE
    requires IsNextFit(rest)
    ensures IsNextFit(Singles(items) + rest)
  {
    if items == [] {
      assert Singles(items) + rest == rest;
    } else {
      SinglesFit(items[1..], rest);
      SingleItem(items[0]);
      assert [items[0]][0].total != 1;
      NextFitCons([items[0]], Singles(items[1..]) + rest);
      assert Singles(items) == [[items[0]]] + Singles(items[1..]);
      Assoc([[items[0]]], Singles(items[1..]), rest);
    }
  }

  lemma PartsSplit(f: File)
    requires |f.data| > BLOCK_SIZE && CeilDiv(|f.data|, BLOCK_SIZE) < TWO32
    ensures forall i | 0 <= i < |Parts(f)| :: Parts(f)[i].total != 1 && |Parts(f)[i].data| <= BLOCK_SIZE
  {
    ItemsAreParts(f);
    assert ItemsOf(f) == Parts(f);
  }

  lemma FlushFits(cur: seq<Item>, rest: seq<seq<Item>>)
    requires Unsplit(cur) && |Payload(cur)| <= BLOCK_SIZE && IsNextFit(rest)
    requires cur != [] && rest != [] ==> Overflows(cur, rest[0])
    ensures IsNextFit(Flushed(cur) + rest)
  {
    if cur == [] { assert Flushed(cur) + rest == rest; } else { NextFitCons(cur, rest); }
  }

  ghost predicate Opens(cur: seq<Item>, blocks: seq<seq<Item>>) {
    cur != [] ==> blocks != [] && cur <= blocks[0]
  }

  lemma {:induction false} PackIsNextFit(files: seq<File>, cur: seq<Item>)
    requires forall i | 0 <= i < |files| :: CeilDiv(|files[i].data|, BLOCK_SIZE) < TWO32
    requires Unsplit(cur) && |Payload(cur)| <= BLOCK_SIZE
    ensures IsNextFit(Pack(files, cur)) && Opens(cur, Pack(files, cur))
    decreases |files|
  {
    if files == [] {
      FlushFits(cur, []);
      assert Flushed(cur) + [] == Flushed(cur);
    } else {
      assert forall i | 0 <= i < |files[1..]| :: files[1..][i] == files[i + 1];
      if |files[0].data| > BLOCK_SIZE { PackLarge(files, cur); } else { PackSmall(files, cur); }
    }
  }

  lemma PackLarge(files: seq<File>, cur: seq<Item>)
    requires files != [] && |files[0].data| > BLOCK_SIZE && CeilDiv(|files[0].data|, BLOCK_SIZE) < TWO32
    requires Unsplit(cur) && |Payload(cur)| <= BLOCK_SIZE
    requires forall i | 0 <= i < |files[1..]| :: CeilDiv(|files[1..][i].data|, BLOCK_SIZE) < TWO32
    ensures IsNextFit(Pack(files, cur)) && Opens(cur, Pack(files, cur))
    decreases |files|, 0
  {
    var f, rest := files[0], files[1..];
    PackIsNextFit(rest, []);
    PartsSplit(f);
    ItemsAreParts(f);
    SinglesFit(Parts(f), Pack(rest, []));
    var blocks := Singles(Parts(f)) + Pack(rest, []);
    assert blocks[0] == [Parts(f)[0]] && !Unsplit(blocks[0]) by { assert blocks[0][0].total != 1; }
    FlushFits(cur, blocks);
  }

  lemma PackSmall(files: seq<File>, cur: seq<Item>)
    requires files != [] && |files[0].data| <= BLOCK_SIZE
    requires Unsplit(cur) && |Payload(cur)| <= BLOCK_SIZE
    requires forall i | 0 <= i < |files[1..]| :: CeilDiv(|files[1..][i].data|, BLOCK_SIZE) < TWO32
    ensures IsNextFit(Pack(files, cur)) && Opens(cur, Pack(files, cur))
    decreases |files|, 0
  {
    var f, rest := files[0], files[1..];
    var item := Item(f.path, 0, 1, f.data);
    if |Payload(cur)| + |f.data| > BLOCK_SIZE {
      SingleItem(item);
      PackIsNextFit(rest, [item]);
      assert Pack(rest, [item])[0][0] == item;
      FlushFits(cur, Pack(rest, [item]));
    } else {
      PayloadSnoc(cur, item);
      PackIsNextFit(rest, cur + [item]);
    }
  }

  // ---- there is no other ----

  lemma {:induction false} PayloadGrows(block: seq<Item>, k: nat)
    requires k <= |block|
    ensures |Payload(block[..k])| <= |Payload(block)|
    decreases |block|
  {
    if k == |block| {
      assert block[..k] == block;
    } else {
      PayloadGrows(block[..|block| - 1], k);
      assert block[..|block| - 1][..k] == block[..k];
    }
  }

  /** More whole files in a row than the first block of a next-fit packing holds are more than a block holds. */
  lemma LongerOverflows(blocks: seq<seq<Item>>, c: seq<Item>)
    requires IsNextFit(blocks) && blocks != [] && blocks[0] <= c && |blocks[0]| < |c| && c <= Concat(blocks)
    requires Unsplit(c)
    ensures |Payload(c)| > BLOCK_SIZE
  {
    SecondBlock(blocks, c);
    var k := |blocks[0]|;
    UnsplitPrefix(blocks[0], c);
    PayloadOfMore(c, k);
    assert c[..k] == blocks[0];
    assert Overflows(blocks[0], blocks[1]);
  }

  lemma PayloadOfMore(c: seq<Item>, k: nat)
    requires k < |c|
    ensures |Payload(c[..k])| + |c[k].data| <= |Payload(c)|
  {
    PayloadSnoc(c[..k], c[k]);
    assert c[..k + 1] == c[..k] + [c[k]];
    PayloadGrows(c, k + 1);
  }

  lemma UnsplitPrefix(a: seq<Item>, c: seq<Item>)
    requires a <= c && Unsplit(c)
    ensures Unsplit(a)
  {
    assert forall i | 0 <= i < |a| :: a[i] == c[i];
  }

  lemma SecondBlock(blocks: seq<seq<Item>>, c: seq<Item>)
    requires IsNextFit(blocks) && blocks != [] && |blocks[0]| < |c| && c <= Concat(blocks)
    ensures |blocks| > 1 && blocks[1] != [] && c[|blocks[0]|] == blocks[1][0]
    ensures Unsplit(c) ==> Unsplit(blocks[1])
  {
    var tail := blocks[1..];
    assert Concat(blocks) == blocks[0] + Concat(tail);
    assert Concat(tail) != [];
    assert Fits(blocks[1]) && tail[0] == blocks[1];
    assert Concat(tail)[0] == tail[0][0];
  }

  lemma FirstNotShorter(a: seq<seq<Item>>, b: seq<seq<Item>>)
    requires IsNextFit(a) && IsNextFit(b) && a != [] && b != [] && Concat(a) == Concat(b)
    ensures |a[0]| >= |b[0]|
  {
    assert Fits(a[0]) && Fits(b[0]);
    if |a[0]| < |b[0]| {
      assert Concat(a) == a[0] + Concat(a[1..]) && Concat(b) == b[0] + Concat(b[1..]);
      assert a[0] == Concat(a)[..|a[0]|] && b[0] == Concat(b)[..|b[0]|];
      assert b[0][..|a[0]|] == Concat(b)[..|a[0]|];
      LongerOverflows(a, b[0]);
    }
  }

  lemma ConcatNotEmpty(blocks: seq<seq<Item>>)
    requires IsNextFit(blocks) && blocks != []
    ensures Concat(blocks) != []
  {
    assert Fits(blocks[0]);
  }

  /** The order of the items and the next-fit rule leave no choice. */
  lemma {:induction false} NextFitIsUnique(a: seq<seq<Item>>, b: seq<seq<Item>>)
    requires IsNextFit(a) && IsNextFit(b) && Concat(a) == Concat(b)
    ensures a == b
    decreases |a|
  {
    if a == [] {
      if b != [] { ConcatNotEmpty(b); }
    } else if b == [] {
      ConcatNotEmpty(a);
    } else {
      FirstNotShorter(a, b);
      FirstNotShorter(b, a);
      SameTails(a, b);
      TailIsNextFit(a);
      TailIsNextFit(b);
      NextFitIsUnique(a[1..], b[1..]);
      HeadSplit(a);
      HeadSplit(b);
    }
  }

  lemma SameTails(a: seq<seq<Item>>, b: seq<seq<Item>>)
    requires a != [] && b != [] && Concat(a) == Concat(b) && |a[0]| == |b[0]|
    ensures a[0] == b[0] && Concat(a[1..]) == Concat(b[1..])
  {
    var n := |a[0]|;
    assert a[0] == Concat(a)[..n] && b[0] == Concat(b)[..n];
    assert Concat(a[1..]) == Concat(a)[n..] && Concat(b[1..]) == Concat(b)[n..];
  }

  lemma TailIsNextFit(a: seq<seq<Item>>)
    requires IsNextFit(a) && a != []
    ensures IsNextFit(a[1..])
  {
    forall i | 0 <= i < |a[1..]| - 1 ensures Overflows(a[1..][i], a[1..][i + 1]) {
      assert a[1..][i] == a[i + 1] && a[1..][i + 1] == a[i + 2];
    }
  }

  /** The packer's blocks are the one arrangement of the files' items, in order, by the next-fit rule. */
  lemma PackIsTheNextFit(files: seq<File>, blocks: seq<seq<Item>>)
    requires Storable(files)
    ensures blocks == Pack(files, []) <==> IsNextFit(blocks) && Concat(blocks) == AllItems(files)
  {
    PackIsNextFit(files, []);
    PackKeepsOrder(files, []);
    assert [] + AllItems(files) == AllItems(files);
    if IsNextFit(blocks) && Concat(blocks) == AllItems(files) { NextFitIsUnique(blocks, Pack(files, [])); }
  }
}
