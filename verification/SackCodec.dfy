/** The SACK wire format: base_seq (8 bytes), word_count (1 byte), then that many words
    (crates/protocol/src/sack.rs:144-174). */
module SackCodec {
  import opened Bits
  import opened Bytes
  import opened Sack

  function WireSize(p: Payload): nat {
    8 + 1 + p.wordCount * 8
  }

  function WordBytes(ws: seq<u64>): (r: bytes)
    ensures |r| == 8 * |ws|
  {
    if ws == [] then [] else LE(ws[0], 8) + WordBytes(ws[1..])
  }

  function Encode(p: Payload): bytes
    requires |p.words| == SACK_WORDS && p.wordCount <= SACK_WORDS
  {
    LE(p.base, 8) + ([p.wordCount] + WordBytes(p.words[..p.wordCount]))
  }

  /** Appends the wire bytes to the caller's buffer, word by word. */
  method Serialise(p: Payload, buf: bytes) returns (out: bytes)
    requires |p.words| == SACK_WORDS && p.wordCount <= SACK_WORDS
    ensures out == buf + Encode(p)
    ensures |out| == |buf| + WireSize(p)
  {
    var body: bytes := [];
    for i := 0 to p.wordCount
      invariant body == WordBytes(p.words[..i])
    {
      body := body + LE(p.words[i], 8);
      WordBytesSnoc(p.words[..i], p.words[i]);
      assert p.words[..i + 1] == p.words[..i] + [p.words[i]];
    }
    assert p.words[..p.wordCount] == p.words[..p.wordCount as int];
    Regroup(buf, LE(p.base, 8), [p.wordCount], body);
    out := buf + LE(p.base, 8) + [p.wordCount] + body;
  }

  lemma {:induction false} WordBytesSnoc(ws: seq<u64>, w: u64)
    ensures WordBytes(ws + [w]) == WordBytes(ws) + LE(w, 8)
  {
    if ws == [] {
      assert (ws + [w])[1..] == [];
    } else {
      WordBytesSnoc(ws[1..], w);
      assert (ws + [w])[1..] == ws[1..] + [w];
    }
  }

  /** What parsing yields: a payload and the bytes it took, None for short input, or the index
      panic of a word_count beyond the sixteen words. */
  datatype Parsed = Done(payload: Payload, consumed: nat) | TooShort | IndexPanic

  function WordAtOffset(data: bytes, i: nat): u64
    requires 9 + 8 * i + 8 <= |data|
  {
    Pow256Widths();
    FromLE(data[9 + 8 * i..9 + 8 * i + 8])
  }

  function Decode(data: bytes): Parsed {
    if |data| < 9 then TooShort
    else
      var count: nat := data[8];
      if |data| < 9 + 8 * count then TooShort
      else if count > SACK_WORDS then IndexPanic
      else
        Pow256Widths();
        Done(Payload(FromLE(data[0..8]), count,
                     seq(SACK_WORDS, i requires 0 <= i < SACK_WORDS => if i < count then WordAtOffset(data, i) else 0)),
             9 + 8 * count)
  }

  /** `deserialise`: zeroed words, filled from the front. */
  method Deserialise(data: bytes) returns (r: Parsed)
    ensures r == Decode(data)
  {
    if |data| < 9 { return TooShort; }
    var wordCount: nat := data[8];
    var needed := 9 + wordCount * 8;
    if |data| < needed { return TooShort; }
    if wordCount > SACK_WORDS { return IndexPanic; }
    var words := new u64[SACK_WORDS](_ => 0);
    for i := 0 to wordCount
      invariant forall j | 0 <= j < i :: words[j] == WordAtOffset(data, j)
      invariant forall j | i <= j < SACK_WORDS :: words[j] == 0
    {
      words[i] := WordAtOffset(data, i);
    }
    Pow256Widths();
    r := Done(Payload(FromLE(data[0..8]), wordCount, words[..]), needed);
    assert r.payload.words == Decode(data).payload.words;
  }

  lemma {:induction false} WordReadsBack(data: bytes, pos: nat, ws: seq<u64>, suffix: bytes, i: nat)
    requires i < |ws| && pos <= |data| && data[pos..] == WordBytes(ws) + suffix
    ensures pos + 8 * i + 8 <= |data| && FromLE(data[pos + 8 * i..pos + 8 * i + 8]) == ws[i]
    decreases i
  {
    var head, tail := LE(ws[0], 8), WordBytes(ws[1..]);
    assert (head + tail) + suffix == head + (tail + suffix);
    ReadField(data, pos, head, tail + suffix);
    if i == 0 { FromLEInverts8(ws[0]); } else { WordReadsBack(data, pos + 8, ws[1..], suffix, i - 1); }
  }

  /** Parsing undoes serialising, and takes exactly the bytes that were written. */
  lemma DecodeInvertsEncode(p: Payload, suffix: bytes)
    requires Canonical(p)
    ensures Decode(Encode(p) + suffix) == Done(p, WireSize(p))
    ensures WireSize(p) <= 137
  {
    var data := Encode(p) + suffix;
    var ws := p.words[..p.wordCount];
    ThreeFields(data, LE(p.base, 8), p.wordCount, WordBytes(ws), suffix);
    FromLEInverts8(p.base);
    forall i: nat | i < |ws| ensures WordAtOffset(data, i) == ws[i] { WordReadsBack(data, 9, ws, suffix, i); }
    var r := Decode(data);
    assert forall i | 0 <= i < SACK_WORDS :: r.payload.words[i] == p.words[i];
    assert r.payload.words == p.words;
  }

  lemma ThreeFields(data: bytes, head: bytes, count: byte, ws: bytes, suffix: bytes)
    requires |head| == 8 && data == (head + ([count] + ws)) + suffix
    ensures |data| >= 9 + |ws| && data[0..8] == head && data[8] == count && data[9..] == ws + suffix
  {
    assert data[0..] == head + (([count] + ws) + suffix);
    ReadField(data, 0, head, ([count] + ws) + suffix);
    assert ([count] + ws) + suffix == [count] + (ws + suffix);
    ReadField(data, 8, [count], ws + suffix);
    ReadField(data, 9, ws, suffix);
  }

  lemma FromLEInverts8(v: u64)
    ensures FromLE(LE(v, 8)) == v
  {
    Pow256Widths();
    FromLEInverts(v, 8);
  }

  /** Every proper prefix of an encoding is rejected as too short. */
  lemma PrefixRejected(p: Payload, n: nat)
    requires Canonical(p) && n < WireSize(p)
    ensures Decode(Encode(p)[..n]) == TooShort
  {
    if n >= 9 { assert Encode(p)[..n][8] == p.wordCount; }
  }

  /** What decides: nine bytes, then the count's words, then the count itself. */
  lemma CountDecides(data: bytes)
    ensures Decode(data) == TooShort <==> |data| < 9 || |data| < 9 + 8 * (data[8] as int)
    ensures Decode(data) == IndexPanic <==> |data| >= 9 && |data| >= 9 + 8 * (data[8] as int) && data[8] > 16
    ensures Decode(data).Done? ==> Decode(data).consumed == 9 + 8 * (data[8] as int)
  {
  }
}
