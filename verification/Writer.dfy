/** The receiving end of a bulk transfer: unpack each block, reassemble split files, write everything
    (crates/ioengine/src/writer.rs). The disk is a map from path to bytes. */
module Writer {
  import opened Bits
  import opened Bytes
  import opened Seqs
  import opened Packer
  import opened Unpacker

  datatype Partial = Partial(total: nat, parts: map<nat, bytes>)

  datatype Write = Write(path: Path, data: bytes)

  /** Reassembly in progress, the writes submitted so far in order, and the byte count. */
  datatype Progress = Progress(partial: map<Path, Partial>, writes: seq<Write>, total: nat)

  /** Parts i, i+1, ..., n-1 joined; a missing one contributes nothing. */
  function AssembledFrom(parts: map<nat, bytes>, i: nat, n: nat): bytes
    decreases n - i
  {
    if i >= n then [] else (if i in parts then parts[i] else []) + AssembledFrom(parts, i + 1, n)
  }

  function Assembled(p: Partial): bytes {
    AssembledFrom(p.parts, 0, p.total)
  }

  predicate IsComplete(p: Partial) {
    |p.parts| == p.total
  }

  function WithPart(partial: map<Path, Partial>, item: Item): Partial {
    var p := if item.path in partial then partial[item.path] else Partial(item.total, map[]);
    p.(parts := p.parts[item.part := item.data])
  }

  /** One item: an unsplit file is written at once, a part is kept until its file is complete. */
  function Fed(st: Progress, item: Item): Progress {
    if item.total == 1 then
      st.(writes := st.writes + [Write(item.path, item.data)], total := st.total + |item.data|)
    else
      var p := WithPart(st.partial, item);
      if IsComplete(p) then
        Progress(st.partial - {item.path}, st.writes + [Write(item.path, Assembled(p))], st.total + |Assembled(p)|)
      else st.(partial := st.partial[item.path := p])
  }

  function FedAll(st: Progress, items: seq<Item>): Progress
    decreases |items|
  {
    if items == [] then st else FedAll(Fed(st, items[0]), items[1..])
  }

  /** Blocks in order, up to the first that does not unpack. */
  function FedChunks(st: Progress, chunks: seq<bytes>): (bool, Progress)
    decreases |chunks|
  {
    if chunks == [] then (true, st)
    else
      match Unpacked(chunks[0])
      case Err(_) => (false, st)
      case Ok(items) => FedChunks(FedAll(st, items), chunks[1..])
  }

  const START := Progress(map[], [], 0)

  function Applied(disk: map<Path, bytes>, writes: seq<Write>): map<Path, bytes>
    decreases |writes|
  {
    if writes == [] then disk else Applied(disk[writes[0].path := writes[0].data], writes[1..])
  }

  lemma {:induction false} AppliedSnoc(disk: map<Path, bytes>, writes: seq<Write>, w: Write)
    ensures Applied(disk, writes + [w]) == Applied(disk, writes)[w.path := w.data]
    decreases |writes|
  {
    if writes == [] {
      assert (writes + [w])[1..] == [];
    } else {
      AppliedSnoc(disk[writes[0].path := writes[0].data], writes[1..], w);
      assert (writes + [w])[1..] == writes[1..] + [w];
    }
  }

  lemma FedWrites(st: Progress, item: Item)
    ensures st.writes <= Fed(st, item).writes && |Fed(st, item).writes| <= |st.writes| + 1
  {
  }

  lemma {:induction false} FedAllWrites(st: Progress, items: seq<Item>)
    ensures st.writes <= FedAll(st, items).writes
    decreases |items|
  {
    if items != [] {
      FedWrites(st, items[0]);
      FedAllWrites(Fed(st, items[0]), items[1..]);
    }
  }

  lemma {:induction false} FedChunksWrites(st: Progress, chunks: seq<bytes>)
    ensures st.writes <= FedChunks(st, chunks).1.writes
    decreases |chunks|
  {
    if chunks != [] && Unpacked(chunks[0]).Ok? {
      FedAllWrites(st, Unpacked(chunks[0]).value);
      FedChunksWrites(FedAll(st, Unpacked(chunks[0]).value), chunks[1..]);
    }
  }

  // ---- what becomes of requests ----

  /** A failed write may leave anything in its file, or leave it alone. */
  datatype Outcome = Written | Failed(left: Option<bytes>)

  function EffectOf(w: Write, o: Outcome): seq<Write> {
    match o
    case Written => [w]
    case Failed(None) => []
    case Failed(Some(left)) => [Write(w.path, left)]
  }

  function DiskAfter(disk: map<Path, bytes>, w: Write, o: Outcome): map<Path, bytes> {
    match o
    case Written => disk[w.path := w.data]
    case Failed(None) => disk
    case Failed(Some(left)) => disk[w.path := left]
  }

  /** What requests number `from`, `from + 1`, ... come to. */
  function Effective(ws: seq<Write>, outcome: nat -> Outcome, from: nat): seq<Write>
    decreases |ws|
  {
    if ws == [] then [] else EffectOf(ws[0], outcome(from)) + Effective(ws[1..], outcome, from + 1)
  }

  lemma TailSnoc(ws: seq<Write>, w: Write)
    requires ws != []
    ensures ws + [w] != [] && (ws + [w])[0] == ws[0] && (ws + [w])[1..] == ws[1..] + [w]
  {
  }

  lemma {:induction false} EffectiveSnoc(ws: seq<Write>, outcome: nat -> Outcome, from: nat, w: Write)
    ensures Effective(ws + [w], outcome, from) == Effective(ws, outcome, from) + EffectOf(w, outcome(from + |ws|))
    decreases |ws|
  {
    if ws == [] {
      assert (ws + [w])[1..] == [];
    } else {
      EffectiveSnoc(ws[1..], outcome, from + 1, w);
      TailSnoc(ws, w);
      Assoc(EffectOf(ws[0], outcome(from)), Effective(ws[1..], outcome, from + 1), EffectOf(w, outcome(from + |ws|)));
    }
  }

  lemma {:induction false} WellWritten(ws: seq<Write>, outcome: nat -> Outcome, from: nat)
    requires forall k: nat | from <= k < from + |ws| :: outcome(k).Written?
    ensures Effective(ws, outcome, from) == ws
    decreases |ws|
  {
    if ws != [] {
      WellWritten(ws[1..], outcome, from + 1);
      HeadSplit(ws);
    }
  }

  lemma {:induction false} AppliedAppend(disk: map<Path, bytes>, a: seq<Write>, b: seq<Write>)
    ensures Applied(disk, a + b) == Applied(Applied(disk, a), b)
    decreases |a|
  {
    if a == [] {
      assert a + b == b;
    } else {
      AppliedAppend(disk[a[0].path := a[0].data], a[1..], b);
      assert (a + b)[1..] == a[1..] + b;
    }
  }

  lemma OneMoreWrite(disk: map<Path, bytes>, ws: seq<Write>, outcome: nat -> Outcome, from: nat, w: Write)
    ensures Applied(disk, Effective(ws + [w], outcome, from)) ==
            Applied(Applied(disk, Effective(ws, outcome, from)), EffectOf(w, outcome(from + |ws|)))
  {
    EffectiveSnoc(ws, outcome, from, w);
    AppliedAppend(disk, Effective(ws, outcome, from), EffectOf(w, outcome(from + |ws|)));
  }

  /** One more request carried out. */
  lemma NextOnDisk(disk0: map<Path, bytes>, ws: seq<Write>, outcome: nat -> Outcome, k: nat, disk: map<Path, bytes>)
    requires k < |ws| && disk == Applied(disk0, Effective(ws[..k], outcome, 0))
    ensures Applied(disk0, Effective(ws[..k + 1], outcome, 0)) == DiskAfter(disk, ws[k], outcome(k))
  {
    NextSlices(ws, k);
    OneMoreWrite(disk0, ws[..k], outcome, 0, ws[k]);
    AppliedOne(disk, ws[k], outcome(k));
  }

  lemma AppliedOne(disk: map<Path, bytes>, w: Write, o: Outcome)
    ensures Applied(disk, EffectOf(w, o)) == DiskAfter(disk, w, o)
  {
  }

  lemma AppendSlices(ws: seq<Write>, w: Write, k: nat)
    requires k <= |ws|
    ensures (ws + [w])[..k] == ws[..k] && (ws + [w])[k..] == ws[k..] + [w]
  {
  }

  lemma NextSlices(ws: seq<Write>, k: nat)
    requires k < |ws|
    ensures ws[..k + 1] == ws[..k] + [ws[k]] && ws[k..][0] == ws[k] && ws[k..][1..] == ws[k + 1..]
  {
  }

  /** The first k requests are carried out, and the disk shows it; the rest is waiting. */
  ghost predicate Shows(disk: map<Path, bytes>, disk0: map<Path, bytes>, ws: seq<Write>, outcome: nat -> Outcome,
                        k: nat, pending: seq<Write>)
  {
    k <= |ws| && pending == ws[k..] && disk == Applied(disk0, Effective(ws[..k], outcome, 0))
  }

  lemma ShowsNext(disk: map<Path, bytes>, disk0: map<Path, bytes>, ws: seq<Write>, outcome: nat -> Outcome,
                  k: nat, pending: seq<Write>)
    requires Shows(disk, disk0, ws, outcome, k, pending) && pending != []
    ensures Shows(DiskAfter(disk, pending[0], outcome(k)), disk0, ws, outcome, k + 1, pending[1..])
  {
    NextSlices(ws, k);
    NextOnDisk(disk0, ws, outcome, k, disk);
  }

  lemma ShowsMore(disk: map<Path, bytes>, disk0: map<Path, bytes>, ws: seq<Write>, outcome: nat -> Outcome,
                  k: nat, pending: seq<Write>, w: Write)
    requires Shows(disk, disk0, ws, outcome, k, pending)
    ensures Shows(disk, disk0, ws + [w], outcome, k, pending + [w])
  {
    AppendSlices(ws, w, k);
  }

  /** The results waiting are those of the last of the first k requests, and all before were good. */
  ghost predicate Tells(results: seq<bool>, outcome: nat -> Outcome, k: nat) {
    && |results| <= k
    && (forall i: nat | i < k - |results| :: outcome(i).Written?)
    && forall i | 0 <= i < |results| :: results[i] == outcome(k - |results| + i).Written?
  }

  lemma TellsNext(results: seq<bool>, outcome: nat -> Outcome, k: nat)
    requires Tells(results, outcome, k)
    ensures Tells(results + [outcome(k).Written?], outcome, k + 1)
    ensures results != [] && results[0] ==> Tells(results[1..], outcome, k)
    ensures results != [] && !results[0] ==> exists i: nat :: i < k && !outcome(i).Written?
  {
    if results != [] { assert results[0] == outcome(k - |results|).Written?; }
  }

  class AsyncWriter {
    /** Whether the directory of the k-th request can be made, and what becomes of the k-th request carried out. */
    const makes: nat -> bool
    const outcome: nat -> Outcome
    var disk: map<Path, bytes>
    /** Requests the background thread has not carried out yet, oldest first; how many it has carried out. */
    var pending: seq<Write>
    var carried: nat
    /** Results that have not been reaped, oldest first. */
    var results: seq<bool>
    /** The disk to begin with, and every request ever submitted. */
    ghost const disk0: map<Path, bytes>
    ghost var submitted: seq<Write>

    constructor (disk: map<Path, bytes>, makes: nat -> bool, outcome: nat -> Outcome)
      ensures Valid() && submitted == [] && pending == [] && results == []
      ensures disk0 == disk && this.makes == makes && this.outcome == outcome
    {
      this.disk, this.makes, this.outcome, pending, carried, results := disk, makes, outcome, [], 0, [];
      disk0, submitted := disk, [];
    }

    /** The disk shows what has been carried out; the rest is waiting. */
    ghost predicate OnDisk()
      reads this
    {
      Shows(disk, disk0, submitted, outcome, carried, pending)
    }

    ghost predicate Valid()
      reads this
    {
      OnDisk() && Tells(results, outcome, carried) && forall k: nat | k < |submitted| :: makes(k)
    }

    ghost function Unreaped(): nat
      reads this
    {
      |pending| + |results|
    }

    /** Nothing goes wrong with the first n requests. */
    ghost predicate AllWell(n: nat)
      reads this
    {
      forall k: nat | k < n :: makes(k) && outcome(k).Written?
    }

    /** The request goes last in line, unless its directory cannot be made. */
    method SubmitWrite(path: Path, data: bytes) returns (ok: bool)
      requires Valid()
      modifies this`pending, this`submitted
      ensures Valid() && ok == makes(old(|submitted|))
      ensures submitted == if ok then old(submitted) + [Write(path, data)] else old(submitted)
      ensures |pending| == if ok then old(|pending|) + 1 else old(|pending|)
    {
      ok := makes(carried + |pending|);
      if ok {
        var w := Write(path, data);
        ShowsMore(disk, disk0, submitted, outcome, carried, pending, w);
        pending, submitted := pending + [w], submitted + [w];
      }
    }

    /** The background thread carries out up to `n` requests. */
    method Background(n: nat)
      requires Valid()
      modifies this`disk, this`pending, this`carried, this`results
      ensures Valid() && Unreaped() == old(Unreaped())
      ensures |pending| == if n <= old(|pending|) then old(|pending|) - n else 0
    {
      var k := if n <= |pending| then n else |pending|;
      for i := 0 to k
        invariant Valid() && Unreaped() == old(Unreaped())
        invariant |pending| == old(|pending|) - i
      {
        CarryOut();
      }
    }

    method CarryOut()
      requires Valid() && pending != []
      modifies this`disk, this`pending, this`carried, this`results
      ensures Valid() && carried == old(carried) + 1
      ensures |pending| == old(|pending|) - 1 && |results| == old(|results|) + 1
    {
      ShowsNext(disk, disk0, submitted, outcome, carried, pending);
      TellsNext(results, outcome, carried);
      WriteFile(pending[0]);
      pending, carried, results := pending[1..], carried + 1, results + [outcome(carried).Written?];
    }

    method WriteFile(w: Write)
      modifies this`disk
      ensures disk == DiskAfter(old(disk), w, outcome(carried))
    {
      match outcome(carried) {
        case Written => disk := disk[w.path := w.data];
        case Failed(None) =>
        case Failed(Some(left)) => disk := disk[w.path := left];
      }
    }

    /** Reaps every result available right now; a bad one ends it. */
    method Reap(inFlight: nat) returns (inFlight': nat, ok: bool)
      requires Valid() && inFlight == Unreaped()
      modifies this`results
      ensures OnDisk()
      ensures if ok then Valid() && inFlight' == Unreaped() else !AllWell(|submitted|)
    {
      inFlight' := inFlight;
      while inFlight' > 0 && results != []
        invariant Valid() && inFlight' == Unreaped()
      {
        TellsNext(results, outcome, carried);
        if !results[0] { return inFlight', false; }
        results := results[1..];
        inFlight' := inFlight' - 1;
      }
      ok := true;
    }

    /** `assemble`: drains the parts in index order. */
    method Assemble(p: Partial) returns (out: bytes)
      ensures out == Assembled(p)
    {
      var parts := p.parts;
      out := [];
      for i := 0 to p.total
        invariant forall k: nat | i <= k :: k in parts <==> k in p.parts
        invariant forall k: nat | i <= k && k in parts :: parts[k] == p.parts[k]
        invariant out + AssembledFrom(p.parts, i, p.total) == Assembled(p)
      {
        if i in parts {
          out := out + parts[i];
          parts := parts - {i};
        }
      }
    }

    /** The method's variables are those of the model, and the model's writes are what was submitted. */
    ghost predicate Follows(st: Progress, partial: map<Path, Partial>, inFlight: nat, total: nat)
      reads this
    {
      && Valid() && st.partial == partial && st.total == total && st.writes == submitted
      && inFlight == Unreaped()
    }

    /** Consumes the blocks. `ready(i)` is how many requests the background thread has got through by the i-th
        reaping. A block that does not unpack, a directory that cannot be made or a failed write ends it with what
        was submitted by then. */
    method ReceiveAndWrite(chunks: seq<bytes>, ready: nat -> nat) returns (r: Option<nat>)
      requires Valid() && submitted == [] && results == []
      modifies this
      ensures OnDisk()
      ensures var (ok, st) := FedChunks(START, chunks);
        && r == (if ok && AllWell(|st.writes|) then Some(st.total) else None)
        && submitted <= st.writes && (AllWell(|st.writes|) ==> submitted == st.writes)
      ensures r.Some? ==> carried == |submitted| && disk == Applied(disk0, submitted)
    {
      var partial: map<Path, Partial> := map[];
      var inFlight: nat, total: nat, tick: nat, ok := 0, 0, 0, true;
      ghost var st := START;
      for i := 0 to |chunks|
        invariant Follows(st, partial, inFlight, total)
        invariant FedChunks(st, chunks[i..]) == FedChunks(START, chunks)
      {
        FedChunksWrites(st, chunks[i..]);
        var entries := UnpackEntries(PackBlock(0, chunks[i]));
        assert chunks[i..][1..] == chunks[i + 1..];
        if entries.Err? { return None; }
        FedChunksWrites(FedAll(st, entries.value), chunks[i + 1..]);
        partial, inFlight, total, tick, ok := TakeItems(entries.value, partial, inFlight, total, tick, ready, st);
        if !ok { return None; }
        st := FedAll(st, entries.value);
      }
      ok := Finish(inFlight);
      r := if ok then Some(total) else None;
    }

    /** The items of one block, with a reaping after each. */
    method TakeItems(items: seq<Item>, partial: map<Path, Partial>, inFlight: nat, total: nat, tick: nat,
                     ready: nat -> nat, ghost st: Progress)
      returns (partial': map<Path, Partial>, inFlight': nat, total': nat, tick': nat, ok: bool)
      requires Follows(st, partial, inFlight, total)
      modifies this
      ensures OnDisk()
      ensures if ok then Follows(FedAll(st, items), partial', inFlight', total')
              else submitted <= FedAll(st, items).writes && !AllWell(|FedAll(st, items).writes|)
    {
      partial', inFlight', total', tick' := partial, inFlight, total, tick;
      ghost var now := st;
      for j := 0 to |items|
        invariant Follows(now, partial', inFlight', total')
        invariant FedAll(now, items[j..]) == FedAll(st, items)
      {
        assert items[j..][1..] == items[j + 1..];
        FedAllWrites(Fed(now, items[j]), items[j + 1..]);
        partial', inFlight', total', ok := TakeAndReap(items[j], partial', inFlight', total', ready(tick'), now);
        if !ok { return; }
        now := Fed(now, items[j]);
        tick' := tick' + 1;
      }
      ok := true;
    }

    /** One item, some work in the background, and a reaping. */
    method TakeAndReap(item: Item, partial: map<Path, Partial>, inFlight: nat, total: nat, ready: nat,
                       ghost st: Progress)
      returns (partial': map<Path, Partial>, inFlight': nat, total': nat, ok: bool)
      requires Follows(st, partial, inFlight, total)
      modifies this
      ensures OnDisk()
      ensures if ok then Follows(Fed(st, item), partial', inFlight', total')
              else submitted <= Fed(st, item).writes && !AllWell(|Fed(st, item).writes|)
    {
      FedWrites(st, item);
      partial', inFlight', total', ok := TakeItem(item, partial, inFlight, total, st);
      if ok {
        Background(ready);
        inFlight', ok := Reap(inFlight');
      }
    }

    /** Waits for every result that is still to come. */
    method Finish(inFlight: nat) returns (ok: bool)
      requires Valid() && inFlight == Unreaped()
      modifies this`disk, this`pending, this`carried, this`results
      ensures OnDisk() && ok == AllWell(|submitted|)
      ensures ok ==> carried == |submitted| && disk == Applied(disk0, submitted)
    {
      var left := inFlight;
      while left > 0
        invariant Valid() && left == Unreaped()
      {
        if results == [] { Background(1); }
        TellsNext(results, outcome, carried);
        if !results[0] { return false; }
        results := results[1..];
        left := left - 1;
      }
      AllCarriedOut();
      ok := true;
    }

    lemma AllCarriedOut()
      requires Valid() && Unreaped() == 0
      ensures carried == |submitted| && AllWell(|submitted|) && disk == Applied(disk0, submitted)
    {
      assert submitted[..|submitted|] == submitted;
      WellWritten(submitted, outcome, 0);
    }

    method TakeItem(item: Item, partial: map<Path, Partial>, inFlight: nat, total: nat, ghost st: Progress)
      returns (partial': map<Path, Partial>, inFlight': nat, total': nat, ok: bool)
      requires Follows(st, partial, inFlight, total)
      modifies this`pending, this`submitted
      ensures OnDisk()
      ensures if ok then Follows(Fed(st, item), partial', inFlight', total')
              else submitted == st.writes && |st.writes| < |Fed(st, item).writes| && !makes(|st.writes|)
    {
      partial', inFlight', total', ok := partial, inFlight, total, true;
      if item.total == 1 {
        total' := total' + |item.data|;
        ok := SubmitWrite(item.path, item.data);
        inFlight' := inFlight' + 1;
      } else {
        var p;
        p, partial' := KeepPart(item, partial);
        if IsComplete(p) {
          partial' := partial' - {item.path};
          var data := Assemble(p);
          total' := total' + |data|;
          ok := SubmitWrite(item.path, data);
          inFlight' := inFlight' + 1;
        }
      }
    }

    method KeepPart(item: Item, partial: map<Path, Partial>) returns (p: Partial, partial': map<Path, Partial>)
      ensures p == WithPart(partial, item) && partial' == partial[item.path := p]
      ensures partial' - {item.path} == partial - {item.path}
    {
      partial' := partial;
      if item.path !in partial' {
        partial' := partial'[item.path := Partial(item.total, map[])];
      }
      p := partial'[item.path];
      p := p.(parts := p.parts[item.part := item.data]);
      partial' := partial'[item.path := p];
    }
  }
}
