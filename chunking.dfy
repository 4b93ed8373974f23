/** The chunked key-value layout: a blob is cut into 256 KiB chunks stored
    under `base:chunk:i`, and the base key holds a JSON manifest
    `{"chunks":N,"v":1}`. */
module Chunking {
  import opened Wrappers
  import opened Strings
  import opened Errors
  import opened Model

  /** `redisChunkSize`: 256 KiB. */
  const ChunkSize: nat := 262144

  /** What `io.ReadFull` reports for one buffer. */
  datatype ReadStatus = Full | Eof | UnexpectedEof | Failed(e: Error)

  /** `io.ReadFull(rd, buf)` with `len(buf) == size`, after `pos` bytes were
      consumed: a full buffer is no error even at the very end; a short read
      is `io.EOF` when nothing was read and `io.ErrUnexpectedEOF` otherwise;
      a reader error ends a short read with that error. */
  function ReadFull(rd: Reader, pos: nat, size: nat): (r: (Bytes, ReadStatus))
    requires pos <= |rd.data| && size > 0
    ensures r.1 == Full <==> pos + size <= |rd.data|
    ensures r.1 == Eof <==> |rd.data| == pos && rd.failure.None?
    ensures r.1 == UnexpectedEof <==> pos < |rd.data| < pos + size && rd.failure.None?
    ensures r.1.Failed? <==> |rd.data| < pos + size && rd.failure.Some?
    ensures r.1.Failed? ==> Some(r.1.e) == rd.failure
    ensures r.1 != Full ==> r.0 == rd.data[pos..]
    ensures r.1 == Full ==> r.0 == rd.data[pos..pos + size]
  {
    if pos + size <= |rd.data| then (rd.data[pos..pos + size], Full)
    else match rd.failure
      case Some(e) => (rd.data[pos..], Failed(e))
      case None => (rd.data[pos..], if pos == |rd.data| then Eof else UnexpectedEof)
  }

  /** The chunks the save loop writes from position `pos` when every write
      succeeds, and the read error that ends it, if any: a full buffer is a
      chunk; a non-empty short buffer at the end is the last chunk; a reader
      error drops the short buffer. */
  function Pieces(rd: Reader, pos: nat): (r: (seq<Bytes>, Option<Error>))
    requires pos <= |rd.data|
    decreases |rd.data| - pos
  {
    var (b, st) := ReadFull(rd, pos, ChunkSize);
    match st
    case Full =>
      var (rest, e) := Pieces(rd, pos + ChunkSize);
      ([b] + rest, e)
    case Eof => ([], None)
    case UnexpectedEof => ([b], None)
    case Failed(e) => ([], Some(e))
  }

  /** Cutting a blob into chunks of `ChunkSize` bytes, the last one shorter. */
  function Split(d: Bytes): seq<Bytes>
    decreases |d|
  {
    if |d| == 0 then [] else if |d| <= ChunkSize then [d] else [d[..ChunkSize]] + Split(d[ChunkSize..])
  }

  function Concat(cs: seq<Bytes>): Bytes
  {
    if cs == [] then [] else cs[0] + Concat(cs[1..])
  }

  /** ceil(n / 262144) chunks, each full but the last, which is not empty;
      empty input gives none; put back together they are the input. */
  lemma {:induction false} SplitShape(d: Bytes)
    ensures |Split(d)| == (|d| + ChunkSize - 1) / ChunkSize
    ensures forall i :: 0 <= i < |Split(d)| - 1 ==> |Split(d)[i]| == ChunkSize
    ensures forall i :: 0 <= i < |Split(d)| ==> 0 < |Split(d)[i]| <= ChunkSize
    ensures Concat(Split(d)) == d
    decreases |d|
  {
    if |d| > ChunkSize {
      var rest := d[ChunkSize..];
      SplitShape(rest);
      var cs := Split(d);
      assert cs == [d[..ChunkSize]] + Split(rest);
      assert cs[1..] == Split(rest);
      assert forall i :: 1 <= i < |cs| ==> cs[i] == Split(rest)[i - 1];
      assert d == d[..ChunkSize] + rest;
    }
  }

  /** With a reader that ends cleanly the loop writes exactly the split of
      what is left. */
  lemma {:induction false} PiecesSplit(rd: Reader, pos: nat)
    requires pos <= |rd.data| && rd.failure.None?
    ensures Pieces(rd, pos) == (Split(rd.data[pos..]), None)
    decreases |rd.data| - pos
  {
    var d := rd.data[pos..];
    if pos + ChunkSize <= |rd.data| {
      PiecesSplit(rd, pos + ChunkSize);
      assert d[ChunkSize..] == rd.data[pos + ChunkSize..];
      assert d[..ChunkSize] == rd.data[pos..pos + ChunkSize];
      assert Pieces(rd, pos).0 == [d[..ChunkSize]] + Split(d[ChunkSize..]);
      if |d| == ChunkSize {
        assert d[ChunkSize..] == [] && d[..ChunkSize] == d;
        assert Split(d[ChunkSize..]) == [];
        assert [d] + [] == [d];
        assert Split(d) == [d];
      } else {
        assert Split(d) == [d[..ChunkSize]] + Split(d[ChunkSize..]);
      }
    } else if |d| == 0 {
      assert Split(d) == [];
    } else {
      assert Split(d) == [d];
    }
  }

  /** A reader that fails gets its full chunks written, never the short
      tail, and the save returns the reader's error. */
  lemma {:induction false} PiecesFailure(rd: Reader, pos: nat)
    requires pos <= |rd.data| && rd.failure.Some?
    ensures Pieces(rd, pos).1 == rd.failure
    ensures |Pieces(rd, pos).0| == (|rd.data| - pos) / ChunkSize
    ensures forall i :: 0 <= i < |Pieces(rd, pos).0| ==>
              Pieces(rd, pos).0[i] == rd.data[pos + i * ChunkSize..pos + (i + 1) * ChunkSize]
    decreases |rd.data| - pos
  {
    if pos + ChunkSize <= |rd.data| {
      PiecesFailure(rd, pos + ChunkSize);
      var rest := Pieces(rd, pos + ChunkSize).0;
      var cs := Pieces(rd, pos).0;
      assert cs == [rd.data[pos..pos + ChunkSize]] + rest;
      forall i | 1 <= i < |cs|
        ensures cs[i] == rd.data[pos + i * ChunkSize..pos + (i + 1) * ChunkSize]
      {
        assert cs[i] == rest[i - 1];
        assert pos + ChunkSize + (i - 1) * ChunkSize == pos + i * ChunkSize;
      }
    }
  }

  /** The first byte the open path tests, `'{'`. */
  const OpenBrace: byte := 123

  /** `chunkKey`: `base:chunk:i`. */
  function ChunkKey(base: string, i: nat): (k: string)
    ensures |k| > |base| && HasPrefix(k, base)
  {
    base + ":chunk:" + NatToDec(i)
  }

  /** Chunk keys are distinct from their base and from each other, and the
      listing's filter recognises them. */
  lemma {:induction false} ChunkKeyFacts(base: string, i: nat, j: nat)
    ensures ChunkKey(base, i) != base
    ensures i != j ==> ChunkKey(base, i) != ChunkKey(base, j)
    ensures Contains(ChunkKey(base, i), ":chunk:")
  {
    var t := ":chunk:";
    if ChunkKey(base, i) == ChunkKey(base, j) {
      assert NatToDec(i) == ChunkKey(base, i)[|base| + |t|..];
      assert NatToDec(j) == ChunkKey(base, j)[|base| + |t|..];
      NatToDecInjective(i, j);
    }
    ContainsWithin(base, t, NatToDec(i), t);
    ContainsSelf(t);
  }

  /** A manifest: `Chunks` is a Go `int`, so it may be negative. */
  datatype Manifest = Manifest(chunks: int, v: int)

  const ManifestHead: string := "{\"chunks\":"
  const ManifestTail: string := ",\"v\":1}"

  /** The bytes of `ManifestHead` and `ManifestTail`. */
  const HeadBytes: Bytes := [123, 34, 99, 104, 117, 110, 107, 115, 34, 58]
  const TailBytes: Bytes := [44, 34, 118, 34, 58, 49, 125]

  /** `strconv.Itoa(n)` as bytes. */
  function DecBytes(n: nat): Bytes
  {
    if n < 10 then [(48 + n) as byte] else DecBytes(n / 10) + [(48 + n % 10) as byte]
  }

  /** `json.Marshal(redisManifest{Chunks: n, V: 1})`. */
  function ManifestBytes(n: nat): Bytes
  {
    HeadBytes + DecBytes(n) + TailBytes
  }

  /** The encoder writes `{"chunks":` then the count in decimal then `,"v":1}`,
      so its output begins with `{`. */
  lemma {:induction false} ManifestText(n: nat)
    ensures Latin(ManifestBytes(n)) == ManifestHead + NatToDec(n) + ManifestTail
    ensures ManifestBytes(n)[0] == OpenBrace
  {
    DecBytesText(n);
    assert Latin(HeadBytes) == ManifestHead;
    assert Latin(TailBytes) == ManifestTail;
    LatinConcat(HeadBytes, DecBytes(n));
    LatinConcat(HeadBytes + DecBytes(n), TailBytes);
  }

  lemma {:induction false} DecBytesText(n: nat)
    ensures Latin(DecBytes(n)) == NatToDec(n)
  {
    if n >= 10 {
      DecBytesText(n / 10);
      LatinConcat(DecBytes(n / 10), [(48 + n % 10) as byte]);
    }
  }

  lemma {:induction false} LatinConcat(a: Bytes, b: Bytes)
    ensures Latin(a + b) == Latin(a) + Latin(b)
  {
  }

  /** A JSON decoder for the manifest, as far as the model relies on it: it
      reads back what the encoder writes. Other values it may decode or
      refuse as it likes, as `encoding/json` does. */
  ghost predicate Decodes(decode: Bytes -> Option<Manifest>)
  {
    forall n: nat :: decode(ManifestBytes(n)) == Some(Manifest(n, 1))
  }

  /** Bytes read as Latin-1 characters. */
  function Latin(b: Bytes): (s: string)
    ensures |s| == |b| && forall i :: 0 <= i < |b| ==> s[i] as int == b[i] as int
  {
    seq(|b|, i requires 0 <= i < |b| => b[i] as int as char)
  }

  /** The least decoder: it accepts exactly the encoder's output. */
  function DecodeCanonical(raw: Bytes): (m: Option<Manifest>)
  {
    var h := |HeadBytes|;
    var t := |TailBytes|;
    if |raw| < h + t then None
    else
      var mid := Latin(raw[h..|raw| - t]);
      if AllDigits(mid) && raw == ManifestBytes(DecToNat(mid)) then Some(Manifest(DecToNat(mid), 1)) else None
  }

  /** So a decoder exists and the model's assumption on it is consistent. */
  lemma CanonicalDecodes()
    ensures Decodes(DecodeCanonical)
  {
    forall n: nat ensures DecodeCanonical(ManifestBytes(n)) == Some(Manifest(n, 1)) {
      var raw := ManifestBytes(n);
      assert raw[|HeadBytes|..|raw| - |TailBytes|] == DecBytes(n);
      DecBytesText(n);
      DecRoundTrip(n);
    }
  }
}
