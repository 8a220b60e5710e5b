/** Which buffers the unpacker accepts, and as what: the format of a block, stated without a parser
    (crates/ioengine/src/packer.rs:165-207). */
module BlockFormat {
  import opened Bits
  import opened Bytes
  import opened Seqs
  import opened Packer
  import opened Unpacker

  /** Magic number, any version, any id, the number of entries, the entries; the payload is the rest. */
  ghost predicate HasManifest(buf: bytes, es: seq<FileEntry>, start: nat) {
    && 18 <= start <= |buf| && |es| < TWO32
    && buf[0..4] == [0x58, 0x50, 0x44, 0x55]
    && buf[14..18] == LE(|es|, 4) && buf[18..start] == ManifestBytes(es)
  }

  /** The item is what the entry says of it and the bytes it points at. */
  ghost predicate Sliced(buf: bytes, start: nat, e: FileEntry, x: Item) {
    && start + e.offset + e.size <= |buf|
    && x == Item(e.path, e.partIndex, e.totalParts, buf[start + e.offset..start + e.offset + e.size])
  }

  ghost predicate AllSliced(buf: bytes, start: nat, es: seq<FileEntry>, items: seq<Item>) {
    |es| == |items| && forall i | 0 <= i < |es| :: Sliced(buf, start, es[i], items[i])
  }

  // ---- what was read is there ----

  lemma WasRead(buf: bytes, pos: nat, w: nat, v: nat)
    requires ReadLE(buf, pos, w) == Some(v)
    ensures pos + w <= |buf| && buf[pos..pos + w] == LE(v, w)
  {
    LEInverts(buf[pos..pos + w]);
  }

  lemma Adjoin(buf: bytes, i: nat, j: nat, k: nat)
    requires i <= j <= k <= |buf|
    ensures buf[i..k] == buf[i..j] + buf[j..k]
  {
  }

  lemma TailIs(buf: bytes, pos: nat, path: Path, e: FileEntry, end: nat)
    requires ParseTail(buf, pos, path) == Ok(At(e, end))
    ensures e.path == path && end == pos + 24 <= |buf| && buf[pos..end] == EntryTail(e)
  {
    WasRead(buf, pos, 8, e.offset);
    WasRead(buf, pos + 8, 8, e.size);
    WasRead(buf, pos + 16, 4, e.partIndex);
    WasRead(buf, pos + 20, 4, e.totalParts);
    Adjoin(buf, pos, pos + 8, pos + 24);
    Adjoin(buf, pos + 8, pos + 16, pos + 24);
    Adjoin(buf, pos + 16, pos + 20, pos + 24);
  }

  lemma EntryIs(buf: bytes, pos: nat, e: FileEntry, end: nat)
    requires ParseEntry(buf, pos) == Ok(At(e, end))
    ensures pos <= end <= |buf| && buf[pos..end] == EntryBytes(e)
  {
    var n := ReadLE(buf, pos, 2).value;
    WasRead(buf, pos, 2, n);
    TailIs(buf, pos + 2 + n, e.path, e, end);
    Adjoin(buf, pos, pos + 2, end);
    Adjoin(buf, pos + 2, pos + 2 + n, end);
  }

  lemma {:induction false} EntriesAre(buf: bytes, pos: nat, count: nat, es: seq<FileEntry>, end: nat)
    requires pos <= |buf| && ParseEntries(buf, pos, count) == Ok(At(es, end))
    ensures |es| == count && pos <= end <= |buf| && buf[pos..end] == ManifestBytes(es)
    decreases count
  {
    if count > 0 {
      var At(e, mid) := ParseEntry(buf, pos).value;
      EntryIs(buf, pos, e, mid);
      var At(rest, _) := ParseEntries(buf, mid, count - 1).value;
      EntriesAre(buf, mid, count - 1, rest, end);
      Adjoin(buf, pos, mid, end);
      assert es[0] == e && es[1..] == rest;
    }
  }

  lemma {:induction false} SlicesAre(buf: bytes, start: nat, es: seq<FileEntry>, items: seq<Item>)
    ensures Slices(buf, start, es) == Ok(items) <==> AllSliced(buf, start, es, items)
    decreases |es|
  {
    if es != [] {
      if items == [] {
        SlicesNotEmpty(buf, start, es);
      } else {
        SlicesAre(buf, start, es[1..], items[1..]);
        SlicesStep(buf, start, es, items);
        SlicedStep(buf, start, es, items);
      }
    }
  }

  lemma SlicesNotEmpty(buf: bytes, start: nat, es: seq<FileEntry>)
    requires es != []
    ensures Slices(buf, start, es) != Ok([])
  {
  }

  lemma SlicesStep(buf: bytes, start: nat, es: seq<FileEntry>, items: seq<Item>)
    requires es != [] && items != []
    ensures Slices(buf, start, es) == Ok(items) <==>
            Sliced(buf, start, es[0], items[0]) && Slices(buf, start, es[1..]) == Ok(items[1..])
  {
    HeadSplit(items);
    var r := Slices(buf, start, es[1..]);
    if SliceOf(buf, start, es[0]).Ok? && r.Ok? {
      var x := Item(es[0].path, es[0].partIndex, es[0].totalParts, SliceOf(buf, start, es[0]).value);
      assert ([x] + r.value)[0] == x && ([x] + r.value)[1..] == r.value;
    }
  }

  lemma SlicedStep(buf: bytes, start: nat, es: seq<FileEntry>, items: seq<Item>)
    requires es != [] && items != []
    ensures AllSliced(buf, start, es, items) <==>
            Sliced(buf, start, es[0], items[0]) && AllSliced(buf, start, es[1..], items[1..])
  {
    if AllSliced(buf, start, es[1..], items[1..]) {
      assert forall i | 0 < i < |es| :: es[i] == es[1..][i - 1] && items[i] == items[1..][i - 1];
    }
  }

  // ---- the format ----

  lemma MagicIs(buf: bytes)
    requires |buf| >= 4
    ensures FromLE(buf[0..4]) == MAGIC <==> buf[0..4] == [0x58, 0x50, 0x44, 0x55]
  {
    MagicBytes(4);
    LEInverts(buf[0..4]);
    Pow256Widths();
    FromLEInverts(MAGIC, 4);
  }

  lemma MagicBytes(w: nat)
    requires w == 4
    ensures LE(MAGIC, w) == [0x58, 0x50, 0x44, 0x55]
  {
    assert LE(MAGIC, w) == [MAGIC % 256] + LE(MAGIC / 256, w - 1);
    assert LE(MAGIC / 256, w - 1) == [MAGIC / 256 % 256] + LE(MAGIC / 65536, w - 2);
    assert LE(MAGIC / 65536, w - 2) == [MAGIC / 65536 % 256] + LE(MAGIC / 16777216, w - 3);
    assert LE(MAGIC / 16777216, w - 3) == [0x55] + [];
  }

  lemma ManifestParses(buf: bytes, es: seq<FileEntry>, start: nat)
    requires HasManifest(buf, es, start)
    ensures FromLE(buf[0..4]) == MAGIC && FromLE(buf[14..18]) == |es|
    ensures ParseEntries(buf, 18, |es|) == Ok(At(es, start))
  {
    MagicIs(buf);
    Pow256Widths();
    FromLEInverts(|es|, 4);
    Adjoin(buf, 18, start, |buf|);
    assert buf[18..|buf|] == buf[18..];
    var end := EntriesReadBack(buf, 18, es, buf[start..]);
    assert |buf| - end == |buf[end..]| == |buf[start..|buf|]| == |buf| - start;
  }

  lemma ManifestWasParsed(buf: bytes, es: seq<FileEntry>, start: nat)
    requires |buf| >= 18 && FromLE(buf[0..4]) == MAGIC
    requires ParseEntries(buf, 18, FromLE(buf[14..18])) == Ok(At(es, start))
    ensures HasManifest(buf, es, start)
  {
    MagicIs(buf);
    LEInverts(buf[14..18]);
    Pow256Widths();
    EntriesAre(buf, 18, FromLE(buf[14..18]), es, start);
  }

  /** A buffer unpacks to the items if and only if it begins with the magic number and a manifest of entries, each
      naming its item and pointing at the item's bytes inside the buffer. */
  lemma UnpacksIff(buf: bytes, items: seq<Item>)
    ensures Unpacked(buf) == Ok(items) <==>
            exists es, start: nat :: HasManifest(buf, es, start) && AllSliced(buf, start, es, items)
  {
    if Unpacked(buf) == Ok(items) {
      var At(es, start) := ParseEntries(buf, 18, FromLE(buf[14..18])).value;
      ManifestWasParsed(buf, es, start);
      SlicesAre(buf, start, es, items);
    }
    if es, start: nat :| HasManifest(buf, es, start) && AllSliced(buf, start, es, items) {
      ManifestParses(buf, es, start);
      SlicesAre(buf, start, es, items);
    }
  }

  /** Which error comes first: too short for the header, then the magic number. */
  lemma HeaderErrors(buf: bytes)
    ensures |buf| < 18 ==> Unpacked(buf) == Err(Truncated)
    ensures |buf| >= 18 && buf[0..4] != [0x58, 0x50, 0x44, 0x55] ==> Unpacked(buf) == Err(BadMagic)
  {
    if |buf| >= 18 { MagicIs(buf); }
  }
}
