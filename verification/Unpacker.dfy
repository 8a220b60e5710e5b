/** Reading a block back: the cursor-based manifest parser and its round trip with the packer
    (crates/ioengine/src/packer.rs:165-266). */
module Unpacker {
  import opened Bits
  import opened Bytes
  import opened Seqs
  import opened Packer
  import Utf8

  datatype Error = Truncated | BadMagic | BadPath | OutOfBounds

  /** A value and the cursor behind it. */
  datatype At<+T> = At(value: T, pos: nat)

  function ReadBytes(buf: bytes, pos: nat, n: nat): (r: Option<bytes>)
    ensures r.Some? ==> |r.value| == n && pos + n <= |buf|
  {
    if pos + n > |buf| then None else Some(buf[pos..pos + n])
  }

  function ReadLE(buf: bytes, pos: nat, w: nat): (r: Option<nat>)
    ensures r.Some? ==> r.value < Pow256(w)
  {
    match ReadBytes(buf, pos, w)
    case None => None
    case Some(b) => Some(FromLE(b))
  }

  /** One manifest entry; its fields are read in order, and the path has to be UTF-8. */
  function ParseEntry(buf: bytes, pos: nat): Result<At<FileEntry>, Error> {
    Pow256Widths();
    match ReadLE(buf, pos, 2)
    case None => Err(Truncated)
    case Some(n) =>
      match ReadBytes(buf, pos + 2, n)
      case None => Err(Truncated)
      case Some(path) => if Utf8.WellFormed(path) then ParseTail(buf, pos + 2 + n, path) else Err(BadPath)
  }

  /** The fixed-width fields behind the path. */
  function ParseTail(buf: bytes, pos: nat, path: Path): Result<At<FileEntry>, Error> {
    Pow256Widths();
    match (ReadLE(buf, pos, 8), ReadLE(buf, pos + 8, 8), ReadLE(buf, pos + 16, 4), ReadLE(buf, pos + 20, 4))
    case (Some(offset), Some(size), Some(part), Some(total)) =>
      Ok(At(FileEntry(path, offset, size, part, total), pos + 24))
    case _ => Err(Truncated)
  }

  function ParseEntries(buf: bytes, pos: nat, count: nat): Result<At<seq<FileEntry>>, Error>
    decreases count
  {
    if count == 0 then Ok(At([], pos))
    else
      match ParseEntry(buf, pos)
      case Err(x) => Err(x)
      case Ok(At(e, pos1)) =>
        match ParseEntries(buf, pos1, count - 1)
        case Err(x) => Err(x)
        case Ok(At(es, pos2)) => Ok(At([e] + es, pos2))
  }

  function SliceOf(buf: bytes, start: nat, e: FileEntry): Result<bytes, Error> {
    if start + e.offset + e.size > |buf| then Err(OutOfBounds)
    else Ok(buf[start + e.offset..start + e.offset + e.size])
  }

  function Slices(buf: bytes, start: nat, es: seq<FileEntry>): Result<seq<Item>, Error> {
    if es == [] then Ok([])
    else
      match SliceOf(buf, start, es[0])
      case Err(x) => Err(x)
      case Ok(data) =>
        match Slices(buf, start, es[1..])
        case Err(x) => Err(x)
        case Ok(items) => Ok([Item(es[0].path, es[0].partIndex, es[0].totalParts, data)] + items)
  }

  /** The items of a block: each manifest entry with the bytes it points at. */
  function Unpacked(buf: bytes): Result<seq<Item>, Error> {
    if |buf| < 18 then Err(Truncated)
    else if FromLE(buf[0..4]) != MAGIC then Err(BadMagic)
    else
      match ParseEntries(buf, 18, FromLE(buf[14..18]))
      case Err(x) => Err(x)
      case Ok(At(es, start)) => Slices(buf, start, es)
  }

  // ---- the method ----

  /** Entries already read, in front of the outcome of reading the rest. */
  ghost function After(done: seq<FileEntry>, r: Result<At<seq<FileEntry>>, Error>): Result<At<seq<FileEntry>>, Error> {
    match r case Err(x) => Err(x) case Ok(At(es, p)) => Ok(At(done + es, p))
  }

  ghost function ItemsAfter(done: seq<Item>, r: Result<seq<Item>, Error>): Result<seq<Item>, Error> {
    match r case Err(x) => Err(x) case Ok(items) => Ok(done + items)
  }

  lemma AfterStep(done: seq<FileEntry>, e: FileEntry, r: Result<At<seq<FileEntry>>, Error>)
    ensures After(done, After([e], r)) == After(done + [e], r)
    ensures After([], r) == r
  {
    if r.Ok? {
      assert done + ([e] + r.value.value) == (done + [e]) + r.value.value;
      assert [] + r.value.value == r.value.value;
    }
  }

  /** Reading all entries amounts to those in `done` and then `left` more from `pos`. */
  ghost predicate Resumes(all: Result<At<seq<FileEntry>>, Error>, done: seq<FileEntry>,
                          buf: bytes, pos: nat, left: nat)
  {
    all == After(done, ParseEntries(buf, pos, left))
  }

  lemma ResumesFirst(buf: bytes, pos: nat, count: nat)
    ensures Resumes(ParseEntries(buf, pos, count), [], buf, pos, count)
  {
    AfterStep([], FileEntry([], 0, 0, 0, 0), ParseEntries(buf, pos, count));
  }

  lemma ResumesLast(all: Result<At<seq<FileEntry>>, Error>, done: seq<FileEntry>, buf: bytes, pos: nat)
    requires Resumes(all, done, buf, pos, 0)
    ensures all == Ok(At(done, pos))
  {
    assert done + [] == done;
  }

  lemma ResumesNext(all: Result<At<seq<FileEntry>>, Error>, done: seq<FileEntry>, buf: bytes, pos: nat, left: nat)
    requires left > 0 && Resumes(all, done, buf, pos, left)
    ensures match ParseEntry(buf, pos)
            case Err(x) => all == Err(x)
            case Ok(At(e, next)) => Resumes(all, done + [e], buf, next, left - 1)
  {
    match ParseEntry(buf, pos)
    case Err(_) =>
    case Ok(At(e, next)) => AfterStep(done, e, ParseEntries(buf, next, left - 1));
  }

  lemma ItemsAfterStep(done: seq<Item>, x: Item, r: Result<seq<Item>, Error>)
    ensures ItemsAfter(done, ItemsAfter([x], r)) == ItemsAfter(done + [x], r)
    ensures ItemsAfter([], r) == r
  {
    if r.Ok? {
      assert done + ([x] + r.value) == (done + [x]) + r.value;
      assert [] + r.value == r.value;
    }
  }

  method ReadBytesAt(buf: bytes, pos: nat, n: nat) returns (r: Option<bytes>, pos': nat)
    ensures r == ReadBytes(buf, pos, n)
    ensures pos' == if r.Some? then pos + n else pos
  {
    if pos + n > |buf| { return None, pos; }
    return Some(buf[pos..pos + n]), pos + n;
  }

  method ReadIntAt(buf: bytes, pos: nat, w: nat) returns (r: Option<nat>, pos': nat)
    ensures r == ReadLE(buf, pos, w)
    ensures pos' == if r.Some? then pos + w else pos
  {
    var b;
    b, pos' := ReadBytesAt(buf, pos, w);
    r := match b case Some(x) => Some(FromLE(x)) case None => None;
  }

  method ReadEntryAt(buf: bytes, start: nat) returns (r: Result<At<FileEntry>, Error>)
    ensures r == ParseEntry(buf, start)
  {
    Pow256Widths();
    var pos := start;
    var len, path, offset, size, part, total;
    len, pos := ReadIntAt(buf, pos, 2);
    if len == None { return Err(Truncated); }
    path, pos := ReadBytesAt(buf, pos, len.value);
    if path == None { return Err(Truncated); }
    if !Utf8.WellFormed(path.value) { return Err(BadPath); }
    offset, pos := ReadIntAt(buf, pos, 8);
    if offset == None { return Err(Truncated); }
    size, pos := ReadIntAt(buf, pos, 8);
    if size == None { return Err(Truncated); }
    part, pos := ReadIntAt(buf, pos, 4);
    if part == None { return Err(Truncated); }
    total, pos := ReadIntAt(buf, pos, 4);
    if total == None { return Err(Truncated); }
    r := Ok(At(FileEntry(path.value, offset.value, size.value, part.value, total.value), pos));
  }

  /** `unpack_entries`: header, magic, manifest, then a slice of the payload per entry. */
  method UnpackEntries(block: PackBlock) returns (r: Result<seq<Item>, Error>)
    ensures r == Unpacked(block.data)
  {
    var buf := block.data;
    var pos: nat := 0;
    var magic, version, id, count;
    magic, pos := ReadIntAt(buf, pos, 4);
    if magic == None { return Err(Truncated); }
    version, pos := ReadIntAt(buf, pos, 2);
    if version == None { return Err(Truncated); }
    id, pos := ReadIntAt(buf, pos, 8);
    if id == None { return Err(Truncated); }
    count, pos := ReadIntAt(buf, pos, 4);
    if count == None { return Err(Truncated); }
    if magic.value != MAGIC { return Err(BadMagic); }

    var manifest := ReadManifest(buf, pos, count.value);
    match manifest {
      case Err(x) => r := Err(x);
      case Ok(At(entries, start)) => r := SliceEntries(buf, start, entries);
    }
  }

  method ReadManifest(buf: bytes, start: nat, count: nat) returns (r: Result<At<seq<FileEntry>>, Error>)
    ensures r == ParseEntries(buf, start, count)
  {
    var entries: seq<FileEntry>, pos := [], start;
    ghost var all := ParseEntries(buf, start, count);
    ResumesFirst(buf, pos, count);
    for i := 0 to count
      invariant Resumes(all, entries, buf, pos, count - i)
    {
      ResumesNext(all, entries, buf, pos, count - i);
      var e := ReadEntryAt(buf, pos);
      if e.Err? { return Err(e.error); }
      entries, pos := entries + [e.value.value], e.value.pos;
    }
    ResumesLast(all, entries, buf, pos);
    r := Ok(At(entries, pos));
  }

  method SliceEntries(buf: bytes, start: nat, entries: seq<FileEntry>) returns (r: Result<seq<Item>, Error>)
    ensures r == Slices(buf, start, entries)
  {
    var items: seq<Item> := [];
    ItemsAfterStep([], Item([], 0, 0, []), Slices(buf, start, entries));
    assert entries[0..] == entries;
    for i := 0 to |entries|
      invariant Slices(buf, start, entries) == ItemsAfter(items, Slices(buf, start, entries[i..]))
    {
      var e := entries[i];
      assert entries[i..][1..] == entries[i + 1..];
      if start + e.offset + e.size > |buf| { return Err(OutOfBounds); }
      var x := Item(e.path, e.partIndex, e.totalParts, buf[start + e.offset..start + e.offset + e.size]);
      ItemsAfterStep(items, x, Slices(buf, start, entries[i + 1..]));
      items := items + [x];
    }
    assert items + [] == items;
    r := Ok(items);
  }

  // ---- round trip ----

  lemma ReadBack(buf: bytes, pos: nat, v: nat, w: nat, rest: bytes)
    requires pos <= |buf| && buf[pos..] == LE(v, w) + rest && v < Pow256(w)
    ensures ReadLE(buf, pos, w) == Some(v)
    ensures pos + w <= |buf| && buf[pos + w..] == rest
  {
    ReadField(buf, pos, LE(v, w), rest);
    FromLEInverts(v, w);
  }

  lemma Nested(a: bytes, b: bytes, c: bytes, rest: bytes)
    ensures (a + (b + c)) + rest == a + (b + (c + rest))
  {
    Assoc(a, b + c, rest);
    Assoc(b, c, rest);
  }

  lemma Nested4(a: bytes, b: bytes, c: bytes, d: bytes, rest: bytes)
    ensures (a + (b + (c + d))) + rest == a + (b + (c + (d + rest)))
  {
    Nested(a, b, c + d, rest);
    Assoc(c, d, rest);
  }

  lemma EntryReadsBack(buf: bytes, pos: nat, e: FileEntry, rest: bytes)
    requires pos <= |buf| && buf[pos..] == EntryBytes(e) + rest
    ensures ParseEntry(buf, pos) == Ok(At(e, pos + |EntryBytes(e)|))
    ensures pos + |EntryBytes(e)| <= |buf| && buf[pos + |EntryBytes(e)|..] == rest
  {
    EntrySplits(e, rest);
    FieldsReadBack(buf, pos, e, EntryTail(e) + rest, rest);
  }

  lemma FieldsReadBack(buf: bytes, pos: nat, e: FileEntry, tail: bytes, rest: bytes)
    requires pos <= |buf| && buf[pos..] == LE(|e.path|, 2) + (e.path + tail) && tail == EntryTail(e) + rest
    ensures ParseEntry(buf, pos) == Ok(At(e, pos + 26 + |e.path|))
    ensures pos + 26 + |e.path| <= |buf| && buf[pos + 26 + |e.path|..] == rest
  {
    HeadReadsBack(buf, pos, e, tail);
    TailReadsBack(buf, pos + 2 + |e.path|, e, rest);
    assert (pos + 2 + |e.path|) + 24 == pos + 26 + |e.path|;
  }

  lemma HeadReadsBack(buf: bytes, pos: nat, e: FileEntry, rest: bytes)
    requires pos <= |buf| && buf[pos..] == LE(|e.path|, 2) + (e.path + rest)
    ensures ParseEntry(buf, pos) == ParseTail(buf, pos + 2 + |e.path|, e.path)
    ensures pos + 2 + |e.path| <= |buf| && buf[pos + 2 + |e.path|..] == rest
  {
    PathCounted(e.path);
    ReadBack(buf, pos, |e.path|, 2, e.path + rest);
    ReadField(buf, pos + 2, e.path, rest);
  }

  lemma PathCounted(path: Path)
    ensures |path| < Pow256(2)
  {
    Pow256Widths();
  }

  lemma EntrySplits(e: FileEntry, rest: bytes)
    ensures EntryBytes(e) + rest == LE(|e.path|, 2) + (e.path + (EntryTail(e) + rest))
    ensures EntryTail(e) + rest == LE(e.offset, 8) +
                                   (LE(e.size, 8) + (LE(e.partIndex, 4) + (LE(e.totalParts, 4) + rest)))
  {
    Nested(LE(|e.path|, 2), e.path, EntryTail(e), rest);
    Nested4(LE(e.offset, 8), LE(e.size, 8), LE(e.partIndex, 4), LE(e.totalParts, 4), rest);
  }

  lemma TailReadsBack(buf: bytes, pos: nat, e: FileEntry, rest: bytes)
    requires pos <= |buf|
    requires buf[pos..] == EntryTail(e) + rest
    ensures ParseTail(buf, pos, e.path) == Ok(At(e, pos + 24))
    ensures pos + 24 <= |buf| && buf[pos + 24..] == rest
  {
    Pow256Widths();
    EntrySplits(e, rest);
    var r5 := LE(e.totalParts, 4) + rest;
    var r4 := LE(e.partIndex, 4) + r5;
    var r3 := LE(e.size, 8) + r4;
    ReadBack(buf, pos, e.offset, 8, r3);
    ReadBack(buf, pos + 8, e.size, 8, r4);
    ReadBack(buf, pos + 16, e.partIndex, 4, r5);
    ReadBack(buf, pos + 20, e.totalParts, 4, rest);
  }

  lemma ParseStep(buf: bytes, pos: nat, es: seq<FileEntry>, p1: nat, p2: nat)
    requires es != [] && ParseEntry(buf, pos) == Ok(At(es[0], p1))
    requires ParseEntries(buf, p1, |es[1..]|) == Ok(At(es[1..], p2))
    ensures ParseEntries(buf, pos, |es|) == Ok(At(es, p2))
  {
    HeadSplit(es);
    assert |es[1..]| == |es| - 1;
  }

  lemma FirstEntry(buf: bytes, pos: nat, e: FileEntry, more: bytes, rest: bytes) returns (next: nat)
    requires pos <= |buf| && buf[pos..] == (EntryBytes(e) + more) + rest
    ensures ParseEntry(buf, pos) == Ok(At(e, next))
    ensures next <= |buf| && buf[next..] == more + rest
  {
    Assoc(EntryBytes(e), more, rest);
    EntryReadsBack(buf, pos, e, more + rest);
    next := pos + |EntryBytes(e)|;
  }

  lemma {:induction false} EntriesReadBack(buf: bytes, pos: nat, es: seq<FileEntry>, rest: bytes) returns (end: nat)
    requires pos <= |buf| && buf[pos..] == ManifestBytes(es) + rest
    ensures ParseEntries(buf, pos, |es|) == Ok(At(es, end))
    ensures end <= |buf| && buf[end..] == rest
    decreases |es|
  {
    if es == [] {
      end := pos;
      assert [] + rest == rest;
    } else {
      var p1 := FirstEntry(buf, pos, es[0], ManifestBytes(es[1..]), rest);
      end := EntriesReadBack(buf, p1, es[1..], rest);
      ParseStep(buf, pos, es, p1, end);
    }
  }

  /** What an entry list says about a payload, entry by entry. */
  ghost predicate Describes(es: seq<FileEntry>, payload: bytes, items: seq<Item>) {
    && |es| == |items|
    && forall i: nat | i < |es| :: DescribesOne(es[i], payload, items[i])
  }

  ghost predicate DescribesOne(e: FileEntry, payload: bytes, item: Item) {
    && e.offset + e.size <= |payload|
    && Item(e.path, e.partIndex, e.totalParts, payload[e.offset..e.offset + e.size]) == item
  }

  lemma DescribesOneMore(e: FileEntry, payload: bytes, more: bytes, item: Item)
    requires DescribesOne(e, payload, item)
    ensures DescribesOne(e, payload + more, item)
  {
    assert (payload + more)[e.offset..e.offset + e.size] == payload[e.offset..e.offset + e.size];
  }

  lemma DescribesLast(payload: bytes, item: Item)
    requires |payload + item.data| < TWO64
    ensures DescribesOne(FileEntry(item.path, |payload| % TWO64, |item.data| % TWO64, item.part, item.total),
                         payload + item.data, item)
  {
    assert (payload + item.data)[|payload|..|payload| + |item.data|] == item.data;
  }

  /** Entries that cover the payload from its first to its last byte, each starting where the one before ends. */
  ghost predicate Tiles(es: seq<FileEntry>, payload: bytes) {
    && (es == [] ==> payload == [])
    && (es != [] ==> es[0].offset == 0 && es[|es| - 1].offset + es[|es| - 1].size == |payload|)
    && forall i: nat | i + 1 < |es| :: es[i].offset + es[i].size == es[i + 1].offset
  }

  lemma TilesOneMore(es: seq<FileEntry>, payload: bytes, e: FileEntry, more: bytes)
    requires Tiles(es, payload) && e.offset == |payload| && e.size == |more|
    ensures Tiles(es + [e], payload + more)
  {
  }

  /** The manifest of a block tiles its payload, without gap or overlap. */
  lemma {:induction false} EntriesTile(items: seq<Item>)
    requires |Payload(items)| < TWO64
    ensures Tiles(EntriesFrom(items), Payload(items))
  {
    if items != [] {
      var before, x := items[..|items| - 1], items[|items| - 1];
      EntriesTile(before);
      Below64(|Payload(before)|);
      Below64(|x.data|);
      TilesOneMore(EntriesFrom(before), Payload(before),
                   FileEntry(x.path, |Payload(before)| % TWO64, |x.data| % TWO64, x.part, x.total), x.data);
    }
  }

  /** Each entry points at exactly the bytes of its item. */
  lemma {:induction false} EntriesDescribe(items: seq<Item>)
    requires |Payload(items)| < TWO64
    ensures Describes(EntriesFrom(items), Payload(items), items)
  {
    if items != [] {
      var i := |items| - 1;
      var before := items[..i];
      EntriesDescribe(before);
      var es, es' := EntriesFrom(before), EntriesFrom(items);
      DescribesLast(Payload(before), items[i]);
      forall k: nat | k < |items| ensures DescribesOne(es'[k], Payload(items), items[k]) {
        if k < i { DescribesOneMore(es[k], Payload(before), items[i].data, before[k]); }
      }
    }
  }

  lemma {:induction false} SlicesFollow(buf: bytes, start: nat, es: seq<FileEntry>, items: seq<Item>)
    requires start <= |buf| && Describes(es, buf[start..], items)
    ensures Slices(buf, start, es) == Ok(items)
    decreases |es|
  {
    if es == [] {
      assert items == [];
    } else {
      assert DescribesOne(es[0], buf[start..], items[0]);
      forall i: nat | i < |es[1..]| ensures DescribesOne(es[1..][i], buf[start..], items[1..][i]) {
        assert DescribesOne(es[i + 1], buf[start..], items[i + 1]);
      }
      SlicesFollow(buf, start, es[1..], items[1..]);
      assert buf[start..][es[0].offset..es[0].offset + es[0].size] ==
             buf[start + es[0].offset..start + es[0].offset + es[0].size];
      assert [items[0]] + items[1..] == items;
    }
  }

  /** What the manifest's count field and 8-byte offsets can express. */
  predicate Encodable(items: seq<Item>) {
    |items| < TWO32 && |Payload(items)| < TWO64
  }

  lemma HeaderReadsBack(buf: bytes, id: u64, count: u32, rest: bytes)
    requires buf == LE(MAGIC, 4) + (LE(VERSION, 2) + (LE(id, 8) + (LE(count, 4) + rest)))
    ensures |buf| >= 18 && FromLE(buf[0..4]) == MAGIC && FromLE(buf[14..18]) == count && buf[18..] == rest
  {
    Pow256Widths();
    assert buf[0..] == buf;
    ReadBack(buf, 0, MAGIC, 4, LE(VERSION, 2) + (LE(id, 8) + (LE(count, 4) + rest)));
    ReadBack(buf, 4, VERSION, 2, LE(id, 8) + (LE(count, 4) + rest));
    ReadBack(buf, 6, id, 8, LE(count, 4) + rest);
    ReadBack(buf, 14, count, 4, rest);
  }

  /** Unpacking a packed block returns exactly the items packed into it. */
  lemma UnpackInvertsPack(id: u64, items: seq<Item>)
    requires Encodable(items)
    ensures Unpacked(BlockBytes(id, items)) == Ok(items)
  {
    var buf, es, payload := BlockBytes(id, items), EntriesFrom(items), Payload(items);
    var start := BlockReadsBack(buf, id, es, payload);
    EntriesDescribe(items);
    SlicesFollow(buf, start, es, items);
  }

  lemma SerialisedSize(id: u64, es: seq<FileEntry>, payload: bytes)
    ensures |Serialised(id, es, payload)| == 18 + |ManifestBytes(es)| + |payload|
  {
  }

  lemma BlockReadsBack(buf: bytes, id: u64, es: seq<FileEntry>, payload: bytes) returns (start: nat)
    requires |es| < TWO32 && buf == Serialised(id, es, payload)
    ensures |buf| >= 18 && FromLE(buf[0..4]) == MAGIC && FromLE(buf[14..18]) == |es|
    ensures ParseEntries(buf, 18, |es|) == Ok(At(es, start))
    ensures |buf| == start + |payload| && buf[start..] == payload && Unpacked(buf) == Slices(buf, start, es)
  {
    Below32(|es|);
    HeaderReadsBack(buf, id, |es|, ManifestBytes(es) + payload);
    start := EntriesReadBack(buf, 18, es, payload);
    AfterHeader(buf, es, start);
  }

  lemma AfterHeader(buf: bytes, es: seq<FileEntry>, start: nat)
    requires |buf| >= 18 && FromLE(buf[0..4]) == MAGIC && FromLE(buf[14..18]) == |es|
    requires ParseEntries(buf, 18, |es|) == Ok(At(es, start))
    ensures Unpacked(buf) == Slices(buf, start, es)
  {
  }
}
