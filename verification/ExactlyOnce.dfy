/** When every item comes exactly once: the byte count is exact and nothing is left half assembled. */
module ExactlyOnce {
  import opened Bits
  import opened Bytes
  import opened Seqs
  import opened Packer
  import opened Packing
  import opened Writer
  import opened Reassembly

  // ---- sequences without repetition ----

  ghost predicate NoRepeats<T>(xs: seq<T>) {
    forall i, j | 0 <= i < j < |xs| :: xs[i] != xs[j]
  }

  lemma {:induction false} CountWithoutRepeats<T>(xs: seq<T>, x: T)
    requires NoRepeats(xs)
    ensures multiset(xs)[x] == if x in xs then 1 else 0
  {
    if xs != [] {
      assert xs == [xs[0]] + xs[1..];
      CountWithoutRepeats(xs[1..], x);
    }
  }

  lemma SameMembersPermute<T>(a: seq<T>, b: seq<T>)
    requires NoRepeats(a) && NoRepeats(b) && forall x :: x in a <==> x in b
    ensures multiset(a) == multiset(b)
  {
    forall x ensures multiset(a)[x] == multiset(b)[x] {
      CountWithoutRepeats(a, x);
      CountWithoutRepeats(b, x);
    }
  }

  lemma RepeatCounted<T>(b: seq<T>, i: nat, j: nat)
    requires i < j < |b| && b[i] == b[j]
    ensures multiset(b)[b[j]] >= 2
  {
    assert b == b[..j] + ([b[j]] + b[j + 1..]);
    assert b[..j][i] == b[j];
  }

  lemma PermutedNoRepeats<T>(a: seq<T>, b: seq<T>)
    requires NoRepeats(a) && multiset(a) == multiset(b)
    ensures NoRepeats(b)
  {
    forall i, j | 0 <= i < j < |b| ensures b[i] != b[j] {
      if b[i] == b[j] { RepeatCounted(b, i, j); }
      CountWithoutRepeats(a, b[j]);
    }
  }

  // ---- bytes written ----

  function WriteBytes(ws: seq<Write>): nat {
    if ws == [] then 0 else |ws[0].data| + WriteBytes(ws[1..])
  }

  lemma {:induction false} WriteBytesSnoc(ws: seq<Write>, w: Write)
    ensures WriteBytes(ws + [w]) == WriteBytes(ws) + |w.data|
  {
    if ws == [] {
      assert (ws + [w])[1..] == [];
    } else {
      WriteBytesSnoc(ws[1..], w);
      assert (ws + [w])[1..] == ws[1..] + [w];
    }
  }

  lemma {:induction false} WriteBytesWithout(ws: seq<Write>, k: nat)
    requires k < |ws|
    ensures WriteBytes(ws) == |ws[k].data| + WriteBytes(Without(ws, k))
  {
    if k == 0 {
      assert Without(ws, 0) == ws[1..];
    } else {
      WriteBytesWithout(ws[1..], k - 1);
      assert Without(ws, k)[0] == ws[0];
      assert Without(ws, k)[1..] == Without(ws[1..], k - 1);
    }
  }

  lemma {:induction false} WriteBytesPermuted(a: seq<Write>, b: seq<Write>)
    requires multiset(a) == multiset(b)
    ensures WriteBytes(a) == WriteBytes(b)
    decreases |a|
  {
    if a == [] {
      assert |multiset(b)| == |b| == 0;
    } else {
      assert a[0] in multiset(b);
      var k :| 0 <= k < |b| && b[k] == a[0];
      WithoutMultiset(a, 0);
      WithoutMultiset(b, k);
      WriteBytesWithout(a, 0);
      WriteBytesWithout(b, k);
      WriteBytesPermuted(Without(a, 0), Without(b, k));
    }
  }

  function WritesOf(files: seq<File>): (r: seq<Write>)
    ensures |r| == |files|
    ensures forall i | 0 <= i < |files| :: r[i] == WriteOf(files[i])
  {
    seq(|files|, i requires 0 <= i < |files| => WriteOf(files[i]))
  }

  lemma {:induction false} WritesOfBytes(files: seq<File>)
    ensures WriteBytes(WritesOf(files)) == Sum(FileSizes(files))
  {
    if files != [] {
      WritesOfBytes(files[1..]);
      assert WritesOf(files)[1..] == WritesOf(files[1..]);
      assert FileSizes(files)[1..] == FileSizes(files[1..]);
    }
  }

  // ---- the exact state after each item was fed at most once ----

  /** The part numbers of `f` fed so far. */
  ghost function FedParts(f: File, fed: set<Item>): set<nat> {
    set k | k in Range(|ItemsOf(f)|) && ItemsOf(f)[k] in fed
  }

  ghost predicate AllFed(f: File, fed: set<Item>) {
    FedParts(f, fed) == Range(|ItemsOf(f)|)
  }

  /** A file is written exactly when all of it was fed; until then exactly the fed parts are kept. */
  ghost predicate ExactFor(f: File, fed: set<Item>, st: Progress) {
    if AllFed(f, fed) then WriteOf(f) in st.writes && f.path !in st.partial
    else WriteOf(f) !in st.writes && KeptParts(st.partial, f.path) == FedParts(f, fed)
  }

  ghost predicate Exact(files: seq<File>, fed: set<Item>, st: Progress) {
    && Sound(files, st)
    && (forall f | f in files :: ExactFor(f, fed, st))
    && NoRepeats(st.writes)
    && st.total == WriteBytes(st.writes)
  }

  lemma OthersFedParts(files: seq<File>, fed: set<Item>, f: File, item: Item, g: File)
    requires Storable(files) && f in files && item in ItemsOf(f) && g in files && g.path != f.path
    ensures FedParts(g, fed + {item}) == FedParts(g, fed)
  {
    StorableFile(files, f);
    StorableFile(files, g);
    ItemOfFile(f, item);
    forall k | k in Range(|ItemsOf(g)|) ensures ItemsOf(g)[k] != item { ItemOfFile(g, ItemsOf(g)[k]); }
  }

  /** An item of another file changes nothing for `g`. */
  lemma OthersExact(files: seq<File>, fed: set<Item>, st: Progress, f: File, item: Item, g: File)
    requires DistinctPaths(files) && Storable(files) && Sound(files, st)
    requires f in files && item in ItemsOf(f) && g in files && g.path != f.path && ExactFor(g, fed, st)
    ensures ExactFor(g, fed + {item}, Fed(st, item))
  {
    FedCases(files, st, f, item);
    OthersFedParts(files, fed, f, item, g);
  }

  lemma FedPartsGrow(files: seq<File>, f: File, fed: set<Item>, item: Item)
    requires Storable(files) && f in files && item in ItemsOf(f) && item !in fed
    ensures FedParts(f, fed + {item}) == FedParts(f, fed) + {item.part}
    ensures !AllFed(f, fed)
  {
    StorableFile(files, f);
    ItemOfFile(f, item);
    forall k | k in FedParts(f, fed + {item}) ensures k in FedParts(f, fed) + {item.part} {
      if ItemsOf(f)[k] == item { ItemsAreParts(f); }
    }
    assert item.part !in FedParts(f, fed);
  }

  lemma OwnExact(files: seq<File>, fed: set<Item>, st: Progress, f: File, item: Item)
    requires DistinctPaths(files) && Storable(files) && Sound(files, st)
    requires f in files && item in ItemsOf(f) && item !in fed && ExactFor(f, fed, st)
    ensures ExactFor(f, fed + {item}, Fed(st, item))
    ensures var ws := Fed(st, item).writes;
      ws == st.writes || (WriteOf(f) !in st.writes && ws == st.writes + [WriteOf(f)])
  {
    FedPartsGrow(files, f, fed, item);
    FedCases(files, st, f, item);
    StorableFile(files, f);
    ItemOfFile(f, item);
    if Split(f) {
      WithPartKeeps(files, st, f, item);
    } else {
      assert Range(|ItemsOf(f)|) == {0};
      SmallNotPartial(files, st, f);
    }
  }

  lemma SmallNotPartial(files: seq<File>, st: Progress, f: File)
    requires DistinctPaths(files) && Sound(files, st) && f in files && !Split(f)
    ensures f.path !in st.partial
  {
    forall g | g in files && g.path == f.path ensures g == f { PathDetermines(files, f, g); }
  }

  lemma WritesStayExact(files: seq<File>, st: Progress, f: File, item: Item)
    requires DistinctPaths(files) && Storable(files) && Sound(files, st) && f in files && item in ItemsOf(f)
    requires NoRepeats(st.writes) && st.total == WriteBytes(st.writes)
    requires var ws := Fed(st, item).writes;
      ws == st.writes || (WriteOf(f) !in st.writes && ws == st.writes + [WriteOf(f)])
    ensures NoRepeats(Fed(st, item).writes) && Fed(st, item).total == WriteBytes(Fed(st, item).writes)
  {
    FedCases(files, st, f, item);
    WriteBytesSnoc(st.writes, WriteOf(f));
  }

  lemma FedKeepsExact(files: seq<File>, fed: set<Item>, st: Progress, item: Item)
    requires DistinctPaths(files) && Storable(files) && Owned(files, item) && item !in fed
    requires Exact(files, fed, st)
    ensures Exact(files, fed + {item}, Fed(st, item))
  {
    var f :| f in files && item in ItemsOf(f);
    var st' := Fed(st, item);
    FedKeepsSound(files, st, f, item);
    OwnExact(files, fed, st, f, item);
    WritesStayExact(files, st, f, item);
    forall g | g in files ensures ExactFor(g, fed + {item}, st') {
      if g.path == f.path { PathDetermines(files, f, g); } else { OthersExact(files, fed, st, f, item, g); }
    }
  }

  lemma {:induction false} FedAllKeepsExact(files: seq<File>, fed: set<Item>, st: Progress, items: seq<Item>)
    requires DistinctPaths(files) && Storable(files) && NoRepeats(items)
    requires forall i | 0 <= i < |items| :: Owned(files, items[i]) && items[i] !in fed
    requires Exact(files, fed, st)
    ensures Exact(files, fed + SetOf(items), FedAll(st, items))
    decreases |items|
  {
    if items == [] {
      assert fed + SetOf(items) == fed;
    } else {
      var item, rest := items[0], items[1..];
      FedKeepsExact(files, fed, st, item);
      RestIsNew(fed, items);
      FedAllKeepsExact(files, fed + {item}, Fed(st, item), rest);
    }
  }

  lemma RestIsNew(fed: set<Item>, items: seq<Item>)
    requires items != [] && NoRepeats(items) && forall i | 0 <= i < |items| :: items[i] !in fed
    ensures NoRepeats(items[1..])
    ensures forall i | 0 <= i < |items[1..]| :: items[1..][i] in items && items[1..][i] !in fed + {items[0]}
    ensures fed + SetOf(items) == (fed + {items[0]}) + SetOf(items[1..])
  {
    assert forall i | 0 <= i < |items[1..]| :: items[1..][i] == items[i + 1];
    HeadSplit(items);
  }

  lemma StartIsExact(files: seq<File>)
    requires Storable(files)
    ensures Exact(files, {}, START)
  {
    forall f | f in files ensures ExactFor(f, {}, START) {
      StorableFile(files, f);
      ItemsAreParts(f);
      assert FedParts(f, {}) == {};
      assert 0 in Range(|ItemsOf(f)|);
    }
  }

  // ---- the items of distinct files are distinct ----

  lemma ItemsNoRepeats(f: File)
    requires CeilDiv(|f.data|, BLOCK_SIZE) < TWO32
    ensures NoRepeats(ItemsOf(f))
  {
    ItemsAreParts(f);
    forall i, j | 0 <= i < j < |ItemsOf(f)| ensures ItemsOf(f)[i] != ItemsOf(f)[j] {
      assert ItemsOf(f)[i].part == i && ItemsOf(f)[j].part == j;
    }
  }

  lemma AppendNoRepeats<T>(a: seq<T>, b: seq<T>)
    requires NoRepeats(a) && NoRepeats(b) && forall x | x in a :: x !in b
    ensures NoRepeats(a + b)
  {
    var c := a + b;
    forall i, j | 0 <= i < j < |c| ensures c[i] != c[j] {
      if i < |a| <= j { assert c[i] in a && c[j] == b[j - |a|] && b[j - |a|] in b; }
    }
  }

  lemma ItemsApart(files: seq<File>, g: File, x: Item)
    requires DistinctPaths(files) && Storable(files) && files != []
    requires g in files[1..] && x in ItemsOf(files[0])
    ensures x !in ItemsOf(g)
  {
    var k :| 0 <= k < |files[1..]| && files[1..][k] == g;
    assert files[k + 1].path != files[0].path;
    StorableFile(files, files[0]);
    StorableFile(files, g);
    ItemOfFile(files[0], x);
    forall y | y in ItemsOf(g) ensures y.path == g.path { ItemOfFile(g, y); }
  }

  lemma {:induction false} AllItemsNoRepeats(files: seq<File>)
    requires DistinctPaths(files) && Storable(files)
    ensures NoRepeats(AllItems(files))
  {
    if files != [] {
      var f, rest := files[0], files[1..];
      AllItemsNoRepeats(rest);
      ItemsNoRepeats(f);
      forall x | x in ItemsOf(f) ensures x !in AllItems(rest) {
        AllItemsMembers(rest, x);
        forall g | g in rest ensures x !in ItemsOf(g) { ItemsApart(files, g, x); }
      }
      AppendNoRepeats(ItemsOf(f), AllItems(rest));
    }
  }

  /** Each item once, in any order: all bytes counted exactly, every file written once, nothing left over. */
  lemma OnceIsExact(files: seq<File>, items: seq<Item>)
    requires DistinctPaths(files) && Storable(files)
    requires multiset(items) == multiset(AllItems(files))
    ensures var st := FedAll(START, items);
      && st.total == Sum(FileSizes(files)) && st.partial == map[]
      && multiset(st.writes) == multiset(WritesOf(files))
  {
    AllItemsNoRepeats(files);
    PermutedNoRepeats(AllItems(files), items);
    StartIsExact(files);
    forall x ensures x in items <==> x in AllItems(files) {
      assert x in items <==> x in multiset(items);
      assert x in AllItems(files) <==> x in multiset(AllItems(files));
    }
    forall i | 0 <= i < |items| ensures Owned(files, items[i]) { AllItemsMembers(files, items[i]); }
    FedAllKeepsExact(files, {}, START, items);
    EverythingFed(files, {} + SetOf(items), FedAll(START, items));
  }

  lemma EverythingFed(files: seq<File>, fed: set<Item>, st: Progress)
    requires DistinctPaths(files) && Storable(files) && Exact(files, fed, st)
    requires forall item :: item in fed <==> item in AllItems(files)
    ensures st.total == Sum(FileSizes(files)) && st.partial == map[]
    ensures multiset(st.writes) == multiset(WritesOf(files))
  {
    forall f | f in files ensures AllFed(f, fed) {
      forall k | k in Range(|ItemsOf(f)|) ensures ItemsOf(f)[k] in fed { AllItemsMembers(files, ItemsOf(f)[k]); }
    }
    forall f | f in files ensures WriteOf(f) in st.writes && f.path !in st.partial { assert ExactFor(f, fed, st); }
    assert forall path :: path !in st.partial;
    forall w ensures w in st.writes <==> w in WritesOf(files) {
      if w in WritesOf(files) {
        var i :| 0 <= i < |files| && WritesOf(files)[i] == w;
        assert files[i] in files;
      }
      if w in st.writes {
        var f :| f in files && w == WriteOf(f);
        var i :| 0 <= i < |files| && files[i] == f;
        assert WritesOf(files)[i] == w;
      }
    }
    SameMembersPermute(st.writes, WritesOf(files));
    WriteBytesPermuted(st.writes, WritesOf(files));
    WritesOfBytes(files);
  }
}
