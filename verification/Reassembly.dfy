/** The writer's result does not depend on the order or repetition of blocks. */
module Reassembly {
  import opened Bits
  import opened Bytes
  import opened Seqs
  import opened Packer
  import opened Packing
  import opened Writer

  ghost predicate DistinctPaths(files: seq<File>) {
    forall i, j | 0 <= i < j < |files| :: files[i].path != files[j].path
  }

  lemma PathDetermines(files: seq<File>, f: File, g: File)
    requires DistinctPaths(files) && f in files && g in files && f.path == g.path
    ensures f == g
  {
    var i :| 0 <= i < |files| && files[i] == f;
    var j :| 0 <= j < |files| && files[j] == g;
  }

  lemma StorableFile(files: seq<File>, f: File)
    requires Storable(files) && f in files
    ensures CeilDiv(|f.data|, BLOCK_SIZE) < TWO32
  {
  }

  predicate Split(f: File) { |f.data| > BLOCK_SIZE }

  function WriteOf(f: File): Write { Write(f.path, f.data) }

  // ---- part numbers ----

  function Range(n: nat): (r: set<nat>)
    ensures forall k: nat :: k in r <==> k < n
  {
    if n == 0 then {} else Range(n - 1) + {n - 1}
  }

  lemma {:induction false} RangeSize(n: nat)
    ensures |Range(n)| == n
  {
    if n > 0 { RangeSize(n - 1); }
  }

  lemma FullWhenCounted(ks: set<nat>, n: nat)
    requires ks <= Range(n)
    ensures |ks| <= n
    ensures |ks| == n <==> ks == Range(n)
  {
    RangeSize(n);
    SubsetSize(ks, Range(n));
  }

  lemma {:induction false} SubsetSize<T>(a: set<T>, b: set<T>)
    requires a <= b
    ensures |a| <= |b|
    ensures |a| == |b| ==> a == b
    decreases b
  {
    if a != {} {
      var x :| x in a;
      SubsetSize(a - {x}, b - {x});
      assert a == (a - {x}) + {x} && b == (b - {x}) + {x};
    } else if b != {} {
      var x :| x in b;
      assert |b - {x}| + 1 == |b|;
    }
  }

  lemma {:induction false} AssembledIs(parts: map<nat, bytes>, items: seq<Item>, i: nat)
    requires i <= |items|
    requires forall k: nat | k < |items| :: k in parts && parts[k] == items[k].data
    ensures AssembledFrom(parts, i, |items|) == Concat(DataOf(items[i..]))
    decreases |items| - i
  {
    if i < |items| {
      AssembledIs(parts, items, i + 1);
      assert DataOf(items[i..])[1..] == DataOf(items[i + 1..]);
    }
  }

  // ---- the invariant, for items fed in any order, any number of times ----

  /** What is kept for a split file: some of its own parts, but not all. */
  ghost predicate KeepsPartsOf(p: Partial, f: File) {
    Split(f) && OwnParts(p, ItemsOf(f)) && p.parts.Keys != Range(|ItemsOf(f)|)
  }

  ghost predicate Sound(files: seq<File>, st: Progress) {
    && (forall w | w in st.writes :: exists f | f in files :: w == WriteOf(f))
    && forall path | path in st.partial :: exists f | f in files :: f.path == path && KeepsPartsOf(st.partial[path], f)
  }

  /** An item that has been fed is not forgotten: its file is written, or its part is kept. */
  ghost predicate Remembered(st: Progress, f: File, item: Item) {
    || WriteOf(f) in st.writes
    || (f.path in st.partial && item.part in st.partial[f.path].parts)
  }

  ghost predicate Remembers(files: seq<File>, fed: set<Item>, st: Progress) {
    forall f, item | f in files && item in ItemsOf(f) && item in fed :: Remembered(st, f, item)
  }

  lemma ItemOfFile(f: File, item: Item)
    requires CeilDiv(|f.data|, BLOCK_SIZE) < TWO32 && item in ItemsOf(f)
    ensures item.path == f.path && item.part < |ItemsOf(f)| && item.total == |ItemsOf(f)|
    ensures ItemsOf(f)[item.part] == item
    ensures item.total == 1 <==> !Split(f)
  {
    ItemsAreParts(f);
    var i :| 0 <= i < |ItemsOf(f)| && ItemsOf(f)[i] == item;
    assert ItemsOf(f)[i].part == i;
  }

  /** Own parts only, whether or not all of them. */
  ghost predicate OwnParts(p: Partial, items: seq<Item>) {
    && p.total == |items|
    && p.parts.Keys <= Range(|items|)
    && forall k | k in p.parts :: p.parts[k] == items[k].data
  }

  lemma AddPart(p: Partial, items: seq<Item>, item: Item)
    requires OwnParts(p, items) && item.part < |items| && items[item.part] == item
    ensures var p' := p.(parts := p.parts[item.part := item.data]);
      && OwnParts(p', items)
      && p'.parts.Keys == p.parts.Keys + {item.part}
      && (IsComplete(p') <==> p'.parts.Keys == Range(|items|))
  {
    var p' := p.(parts := p.parts[item.part := item.data]);
    assert p'.parts.Keys == p.parts.Keys + {item.part};
    FullWhenCounted(p'.parts.Keys, |items|);
    assert |p'.parts| == |p'.parts.Keys|;
  }

  ghost function KeptParts(partial: map<Path, Partial>, path: Path): set<nat> {
    if path in partial then partial[path].parts.Keys else {}
  }

  /** The partial entry after a part of `f` arrives, before the completeness test. */
  lemma WithPartKeeps(files: seq<File>, st: Progress, f: File, item: Item)
    requires DistinctPaths(files) && Storable(files) && Sound(files, st)
    requires f in files && Split(f) && item in ItemsOf(f)
    ensures var p := WithPart(st.partial, item);
      && OwnParts(p, ItemsOf(f))
      && (IsComplete(p) <==> p.parts.Keys == Range(|ItemsOf(f)|))
      && p.parts.Keys == KeptParts(st.partial, f.path) + {item.part}
  {
    StorableFile(files, f);
    ItemOfFile(f, item);
    if item.path in st.partial {
      var g :| g in files && g.path == item.path && KeepsPartsOf(st.partial[item.path], g);
      PathDetermines(files, f, g);
      AddPart(st.partial[item.path], ItemsOf(f), item);
    } else {
      AddPart(Partial(item.total, map[]), ItemsOf(f), item);
    }
  }

  lemma CompleteIsFile(files: seq<File>, st: Progress, f: File, item: Item)
    requires DistinctPaths(files) && Storable(files) && Sound(files, st)
    requires f in files && Split(f) && item in ItemsOf(f) && IsComplete(WithPart(st.partial, item))
    ensures Assembled(WithPart(st.partial, item)) == f.data
  {
    WithPartKeeps(files, st, f, item);
    StorableFile(files, f);
    ItemsAreParts(f);
    AssembledIs(WithPart(st.partial, item).parts, ItemsOf(f), 0);
    assert ItemsOf(f)[0..] == ItemsOf(f);
  }

  /** The three things one item can do. */
  ghost predicate FedCase(st: Progress, f: File, item: Item, st': Progress) {
    var p := WithPart(st.partial, item);
    if !Split(f) then
      st' == Progress(st.partial, st.writes + [WriteOf(f)], st.total + |f.data|)
    else if p.parts.Keys == Range(|ItemsOf(f)|) then
      st' == Progress(st.partial - {f.path}, st.writes + [WriteOf(f)], st.total + |f.data|)
    else
      st' == st.(partial := st.partial[f.path := p]) && KeepsPartsOf(p, f)
  }

  lemma FedCases(files: seq<File>, st: Progress, f: File, item: Item)
    requires DistinctPaths(files) && Storable(files) && Sound(files, st)
    requires f in files && item in ItemsOf(f)
    ensures FedCase(st, f, item, Fed(st, item))
  {
    if Split(f) { FedPart(files, st, f, item); } else { FedWhole(files, st, f, item); }
  }

  lemma FedWhole(files: seq<File>, st: Progress, f: File, item: Item)
    requires !Split(f) && item in ItemsOf(f)
    ensures FedCase(st, f, item, Fed(st, item))
  {
    assert item == Item(f.path, 0, 1, f.data);
  }

  lemma FedPart(files: seq<File>, st: Progress, f: File, item: Item)
    requires DistinctPaths(files) && Storable(files) && Sound(files, st)
    requires f in files && Split(f) && item in ItemsOf(f)
    ensures FedCase(st, f, item, Fed(st, item))
  {
    StorableFile(files, f);
    ItemOfFile(f, item);
    WithPartKeeps(files, st, f, item);
    var p := WithPart(st.partial, item);
    if IsComplete(p) { CompleteIsFile(files, st, f, item); }
    PartOutcome(st, f, item, p);
  }

  lemma PartOutcome(st: Progress, f: File, item: Item, p: Partial)
    requires p == WithPart(st.partial, item) && Split(f) && item.total != 1 && item.path == f.path
    requires OwnParts(p, ItemsOf(f)) && (IsComplete(p) <==> p.parts.Keys == Range(|ItemsOf(f)|))
    requires IsComplete(p) ==> Assembled(p) == f.data
    ensures FedCase(st, f, item, Fed(st, item))
  {
  }

  lemma FedKeepsSound(files: seq<File>, st: Progress, f: File, item: Item)
    requires DistinctPaths(files) && Storable(files) && Sound(files, st)
    requires f in files && item in ItemsOf(f)
    ensures Sound(files, Fed(st, item))
  {
    FedCases(files, st, f, item);
    var st' := Fed(st, item);
    forall path | path in st'.partial
      ensures exists g | g in files :: g.path == path && KeepsPartsOf(st'.partial[path], g)
    {
      FedPathSound(files, st, f, item, path);
    }
  }

  lemma FedPathSound(files: seq<File>, st: Progress, f: File, item: Item, path: Path)
    requires DistinctPaths(files) && Storable(files) && Sound(files, st)
    requires f in files && item in ItemsOf(f) && path in Fed(st, item).partial
    ensures exists g | g in files :: g.path == path && KeepsPartsOf(Fed(st, item).partial[path], g)
  {
    FedCases(files, st, f, item);
    var p := Fed(st, item).partial[path];
    if path in st.partial && p == st.partial[path] {
      var g :| g in files && g.path == path && KeepsPartsOf(st.partial[path], g);
    } else {
      assert f.path == path && KeepsPartsOf(p, f);
    }
  }

  lemma FedRemembersOne(files: seq<File>, st: Progress, f: File, item: Item, g: File, other: Item)
    requires DistinctPaths(files) && Storable(files) && Sound(files, st)
    requires f in files && item in ItemsOf(f) && g in files && other in ItemsOf(g)
    requires other == item || Remembered(st, g, other)
    ensures Remembered(Fed(st, item), g, other)
  {
    FedCases(files, st, f, item);
    StorableFile(files, f);
    StorableFile(files, g);
    ItemOfFile(f, item);
    ItemOfFile(g, other);
    if f.path == g.path {
      PathDetermines(files, f, g);
      if Split(f) { WithPartKeeps(files, st, f, item); }
    }
  }

  lemma FedRemembers(files: seq<File>, st: Progress, fed: set<Item>, f: File, item: Item)
    requires DistinctPaths(files) && Storable(files) && Sound(files, st) && Remembers(files, fed, st)
    requires f in files && item in ItemsOf(f)
    ensures Remembers(files, fed + {item}, Fed(st, item))
  {
    forall g, other | g in files && other in ItemsOf(g) && other in fed + {item}
      ensures Remembered(Fed(st, item), g, other)
    {
      FedRemembersOne(files, st, f, item, g, other);
    }
  }

  /** `item` belongs to one of the files. */
  ghost predicate Owned(files: seq<File>, item: Item) {
    exists f | f in files :: item in ItemsOf(f)
  }

  function SetOf(items: seq<Item>): (r: set<Item>)
    ensures forall item :: item in r <==> item in items
  {
    if items == [] then {} else {items[0]} + SetOf(items[1..])
  }

  lemma {:induction false} FedAllKeeps(files: seq<File>, st: Progress, fed: set<Item>, items: seq<Item>)
    requires DistinctPaths(files) && Storable(files)
    requires forall i | 0 <= i < |items| :: Owned(files, items[i])
    requires Sound(files, st) && Remembers(files, fed, st)
    ensures Sound(files, FedAll(st, items)) && Remembers(files, fed + SetOf(items), FedAll(st, items))
    decreases |items|
  {
    if items == [] {
      assert fed + SetOf(items) == fed;
    } else {
      var item, rest := items[0], items[1..];
      FedKeepsBoth(files, st, fed, item);
      assert forall i | 0 <= i < |rest| :: rest[i] == items[i + 1];
      FedAllKeeps(files, Fed(st, item), fed + {item}, rest);
      assert fed + SetOf(items) == (fed + {item}) + SetOf(rest);
    }
  }

  lemma FedKeepsBoth(files: seq<File>, st: Progress, fed: set<Item>, item: Item)
    requires DistinctPaths(files) && Storable(files) && Owned(files, item)
    requires Sound(files, st) && Remembers(files, fed, st)
    ensures Sound(files, Fed(st, item)) && Remembers(files, fed + {item}, Fed(st, item))
  {
    var f :| f in files && item in ItemsOf(f);
    FedKeepsSound(files, st, f, item);
    FedRemembers(files, st, fed, f, item);
  }

  /** Once every item has been fed, every file has been written. */
  lemma AllWritten(files: seq<File>, fed: set<Item>, st: Progress, f: File)
    requires DistinctPaths(files) && Storable(files)
    requires Sound(files, st) && Remembers(files, fed, st)
    requires f in files && forall item | item in ItemsOf(f) :: item in fed
    ensures WriteOf(f) in st.writes
  {
    if WriteOf(f) !in st.writes {
      StorableFile(files, f);
      ItemsAreParts(f);
      assert Remembered(st, f, ItemsOf(f)[0]);
      var g :| g in files && g.path == f.path && KeepsPartsOf(st.partial[f.path], g);
      PathDetermines(files, f, g);
      var ks := st.partial[f.path].parts.Keys;
      forall k: nat | k < |ItemsOf(f)| ensures k in ks {
        assert ItemsOf(f)[k] in fed;
        assert Remembered(st, f, ItemsOf(f)[k]);
      }
    }
  }

  // ---- the disk ----

  lemma {:induction false} AppliedHolds(disk: map<Path, bytes>, writes: seq<Write>, files: seq<File>, path: Path)
    requires DistinctPaths(files)
    requires forall w | w in writes :: exists f | f in files :: w == WriteOf(f)
    ensures var d := Applied(disk, writes);
      if exists w | w in writes :: w.path == path then
        path in d && exists f | f in files :: f.path == path && d[path] == f.data
      else
        (path in d <==> path in disk) && (path in d ==> d[path] == disk[path])
    decreases |writes|
  {
    if writes != [] {
      var i := |writes| - 1;
      var before, w := writes[..i], writes[i];
      assert writes == before + [w];
      AppliedSnoc(disk, before, w);
      assert forall x | x in before :: x in writes;
      AppliedHolds(disk, before, files, path);
      assert w in writes;
      assert forall x :: x in writes <==> x in before || x == w;
    }
  }

  /** The disk after the writes: the original files on their paths, everything else as before. */
  ghost predicate Restored(disk: map<Path, bytes>, files: seq<File>, disk': map<Path, bytes>) {
    && (forall f | f in files :: f.path in disk' && disk'[f.path] == f.data)
    && forall path: Path | !exists f | f in files :: f.path == path ::
         (path in disk' <==> path in disk) && (path in disk' ==> disk'[path] == disk[path])
  }

  lemma WritesRestore(disk: map<Path, bytes>, files: seq<File>, writes: seq<Write>)
    requires DistinctPaths(files)
    requires forall w | w in writes :: exists f | f in files :: w == WriteOf(f)
    requires forall f | f in files :: WriteOf(f) in writes
    ensures Restored(disk, files, Applied(disk, writes))
  {
    var d := Applied(disk, writes);
    forall f | f in files ensures f.path in d && d[f.path] == f.data {
      AppliedHolds(disk, writes, files, f.path);
      assert WriteOf(f).path == f.path;
      var g :| g in files && g.path == f.path && d[f.path] == g.data;
      PathDetermines(files, f, g);
    }
    forall path: Path | !exists f | f in files :: f.path == path
      ensures (path in d <==> path in disk) && (path in d ==> d[path] == disk[path])
    {
      AppliedHolds(disk, writes, files, path);
    }
  }

  lemma {:induction false} AllItemsMembers(files: seq<File>, item: Item)
    ensures item in AllItems(files) <==> Owned(files, item)
  {
    if files != [] {
      AllItemsMembers(files[1..], item);
      assert item in AllItems(files) <==> item in ItemsOf(files[0]) || item in AllItems(files[1..]);
    }
  }

  /** Feeding the items of the files in any order, each at least once and any number of times, restores
      exactly the original files. */
  lemma AnyOrderRestores(files: seq<File>, items: seq<Item>, disk: map<Path, bytes>)
    requires DistinctPaths(files) && Storable(files)
    requires forall item :: item in items <==> item in AllItems(files)
    ensures Restored(disk, files, Applied(disk, FedAll(START, items).writes))
  {
    forall i | 0 <= i < |items| ensures Owned(files, items[i]) {
      assert items[i] in items;
      AllItemsMembers(files, items[i]);
    }
    FedAllKeeps(files, START, {}, items);
    var st := FedAll(START, items);
    var fed := {} + SetOf(items);
    forall f | f in files ensures WriteOf(f) in st.writes {
      forall item | item in ItemsOf(f) ensures item in fed { AllItemsMembers(files, item); }
      AllWritten(files, fed, st, f);
    }
    WritesRestore(disk, files, st.writes);
  }
}
