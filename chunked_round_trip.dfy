/** What the chunked Redis backend's operations promise together: the
    chunk layout a save leaves, the save/open round trip, what a failed save
    leaves behind, and what the listing shows. */
module ChunkedRoundTrip {
  import opened Wrappers
  import opened Strings
  import opened Errors
  import opened Model
  import opened Sanitize
  import opened Chunking
  import opened RedisChunked
  import Retry

  /** Every remote SET succeeds within its retry budget. */
  ghost predicate AllSucceed(sets: nat -> Retry.Script)
  {
    forall i: nat :: Retry.From(sets(i), 0).0 == Retry.Succeeded
  }

  /** The key space after chunks `cs` were written from index `idx` on. */
  function PutChunks(kv: Kv, base: string, idx: nat, cs: seq<Bytes>): Kv
    decreases |cs|
  {
    if cs == [] then kv else PutChunks(kv[ChunkKey(base, idx) := cs[0]], base, idx + 1, cs[1..])
  }

  /** The keys a listing shows. */
  function Visible(kv: Kv): set<string>
  {
    set k | k in kv && !Contains(k, ChunkMark)
  }

  lemma {:induction false} WriteAllSucceeds(kv: Kv, base: string, cs: seq<Bytes>, idx: nat, sets: nat -> Retry.Script)
    requires AllSucceed(sets)
    ensures WriteAll(kv, base, cs, idx, sets) == (PutChunks(kv, base, idx, cs), None)
    decreases |cs|
  {
    if cs != [] {
      WriteAllSucceeds(kv[ChunkKey(base, idx) := cs[0]], base, cs[1..], idx + 1, sets);
    }
  }

  lemma {:induction false} RangeStep(base: string, idx: nat, n: nat, k: string)
    requires k !in ChunkRange(base, idx, idx + n + 1)
    ensures k != ChunkKey(base, idx) && k !in ChunkRange(base, idx + 1, idx + 1 + n)
  {
    assert ChunkKey(base, idx) in ChunkRange(base, idx, idx + n + 1);
    assert ChunkRange(base, idx + 1, idx + 1 + n) <= ChunkRange(base, idx, idx + n + 1);
  }

  /** Writing chunks leaves every key outside their range as it was. */
  lemma {:induction false} PutChunksOther(kv: Kv, base: string, idx: nat, cs: seq<Bytes>, k: string)
    requires k !in ChunkRange(base, idx, idx + |cs|)
    ensures (k in PutChunks(kv, base, idx, cs)) == (k in kv)
    ensures k in kv ==> PutChunks(kv, base, idx, cs)[k] == kv[k]
    decreases |cs|
  {
    if cs != [] {
      RangeStep(base, idx, |cs| - 1, k);
      PutChunksOther(kv[ChunkKey(base, idx) := cs[0]], base, idx + 1, cs[1..], k);
    }
  }

  /** Chunk `j` of the written ones holds `cs[j]`. */
  lemma {:induction false} PutChunksAt(kv: Kv, base: string, idx: nat, cs: seq<Bytes>, j: nat)
    requires j < |cs|
    ensures ChunkKey(base, idx + j) in PutChunks(kv, base, idx, cs)
    ensures PutChunks(kv, base, idx, cs)[ChunkKey(base, idx + j)] == cs[j]
    decreases |cs|
  {
    var kv1 := kv[ChunkKey(base, idx) := cs[0]];
    if j == 0 {
      var k := ChunkKey(base, idx);
      assert k !in ChunkRange(base, idx + 1, idx + 1 + |cs[1..]|) by {
        forall i: nat | idx + 1 <= i < idx + |cs| ensures ChunkKey(base, i) != k {
          ChunkKeyFacts(base, i, idx);
        }
      }
      PutChunksOther(kv1, base, idx + 1, cs[1..], k);
    } else {
      PutChunksAt(kv1, base, idx + 1, cs[1..], j - 1);
      assert idx + 1 + (j - 1) == idx + j;
    }
  }

  lemma {:induction false} PutChunksKeys(kv: Kv, base: string, idx: nat, cs: seq<Bytes>)
    ensures PutChunks(kv, base, idx, cs).Keys == kv.Keys + ChunkRange(base, idx, idx + |cs|)
    decreases |cs|
  {
    if cs == [] {
      assert ChunkRange(base, idx, idx) == {};
    } else {
      PutChunksKeys(kv[ChunkKey(base, idx) := cs[0]], base, idx + 1, cs[1..]);
      assert ChunkRange(base, idx, idx + |cs|) == {ChunkKey(base, idx)} + ChunkRange(base, idx + 1, idx + 1 + |cs[1..]|);
    }
  }

  lemma {:induction false} ConcatAppend(a: seq<Bytes>, b: seq<Bytes>)
    ensures Concat(a + b) == Concat(a) + Concat(b)
  {
    if a == [] {
      assert a + b == b;
    } else {
      assert (a + b)[1..] == a[1..] + b;
      ConcatAppend(a[1..], b);
    }
  }

  /** Reading chunks `0` to `n - 1` back gives them in order. */
  lemma {:induction false} GatherAll(m: Kv, base: string, cs: seq<Bytes>, n: nat)
    requires n <= |cs|
    requires forall i :: 0 <= i < n ==> ChunkKey(base, i) in m && m[ChunkKey(base, i)] == cs[i]
    ensures Gather(m, base, n) == Ok(Concat(cs[..n]))
  {
    if n > 0 {
      GatherAll(m, base, cs, n - 1);
      assert cs[..n] == cs[..n - 1] + [cs[n - 1]];
      ConcatAppend(cs[..n - 1], [cs[n - 1]]);
      assert Concat([cs[n - 1]]) == cs[n - 1];
    }
  }

  /** With every write succeeding and a reader that ends cleanly, the old
      manifest's chunks are removed, the split of the input is written at
      chunks `0..N-1`, and the manifest with `N` goes to the base key. */
  lemma {:induction false} SaveSucceeds(kv: Kv, decode: Decoder, user: string, rel: string, base: string, rd: Reader,
                     sets: nat -> Retry.Script)
    requires KvKey(user, rel) == Ok(base) && rd.failure.None? && AllSucceed(sets)
    ensures var cs := Split(rd.data);
            SaveEffect(kv, decode, user, rel, rd, sets)
              == (PutChunks(DropOld(kv, base, decode), base, 0, cs)[base := ManifestBytes(|cs|)], None)
  {
    PiecesSplit(rd, 0);
    assert rd.data[0..] == rd.data;
    WriteAllSucceeds(DropOld(kv, base, decode), base, Split(rd.data), 0, sets);
  }

  /** The chunk count and sizes the save writes, and that every other key
      outside the old and new chunk ranges is untouched. */
  lemma {:induction false} SaveLayout(kv: Kv, decode: Decoder, user: string, rel: string, base: string, rd: Reader,
                   sets: nat -> Retry.Script, k: string)
    requires KvKey(user, rel) == Ok(base) && rd.failure.None? && AllSucceed(sets)
    ensures var r := SaveEffect(kv, decode, user, rel, rd, sets).0;
            var cs := Split(rd.data);
            && |cs| == (|rd.data| + ChunkSize - 1) / ChunkSize
            && base in r && r[base] == ManifestBytes(|cs|)
            && (forall j :: 0 <= j < |cs| ==> ChunkKey(base, j) in r && r[ChunkKey(base, j)] == cs[j])
            && (forall j :: 0 <= j < |cs| - 1 ==> |cs[j]| == ChunkSize)
            && (forall j :: 0 <= j < |cs| ==> 0 < |cs[j]| <= ChunkSize)
            && (k != base && k !in ChunkRange(base, 0, OldChunks(kv, base, decode)) && k !in ChunkRange(base, 0, |cs|)
                ==> (k in r <==> k in kv) && (k in kv ==> r[k] == kv[k]))
  {
    SaveSucceeds(kv, decode, user, rel, base, rd, sets);
    var cs := Split(rd.data);
    SplitShape(rd.data);
    var kv1 := DropOld(kv, base, decode);
    forall j | 0 <= j < |cs| ensures ChunkKey(base, j) in PutChunks(kv1, base, 0, cs) && PutChunks(kv1, base, 0, cs)[ChunkKey(base, j)] == cs[j] {
      PutChunksAt(kv1, base, 0, cs, j);
    }
    forall j | 0 <= j < |cs| ensures ChunkKey(base, j) != base {
      ChunkKeyFacts(base, j, j);
    }
    if k != base && k !in ChunkRange(base, 0, OldChunks(kv, base, decode)) && k !in ChunkRange(base, 0, |cs|) {
      PutChunksOther(kv1, base, 0, cs, k);
    }
  }

  /** `Save` then `Open` gives back the bytes read, whatever was stored
      before, when every write succeeds and the JSON decoder reads back
      what the encoder writes. */
  lemma {:induction false} SaveOpen(kv: Kv, decode: Decoder, user: string, rel: string, base: string, rd: Reader,
                 sets: nat -> Retry.Script)
    requires KvKey(user, rel) == Ok(base) && rd.failure.None? && AllSucceed(sets) && Decodes(decode)
    ensures SaveEffect(kv, decode, user, rel, rd, sets).1 == None
    ensures OpenEffect(SaveEffect(kv, decode, user, rel, rd, sets).0, decode, user, rel) == Ok(rd.data)
  {
    var cs := Split(rd.data);
    var r := SaveEffect(kv, decode, user, rel, rd, sets).0;
    SaveSucceeds(kv, decode, user, rel, base, rd, sets);
    SaveLayout(kv, decode, user, rel, base, rd, sets, base);
    ManifestText(|cs|);
    assert decode(r[base]) == Some(Manifest(|cs|, 1));
    assert ChunkMode(r[base], decode);
    GatherAll(r, base, cs, |cs|);
    assert cs[..|cs|] == cs;
    SplitShape(rd.data);
  }

  /** No write touches the base key. */
  lemma {:induction false} WriteAllKeepsBase(kv: Kv, base: string, cs: seq<Bytes>, idx: nat, sets: nat -> Retry.Script)
    ensures var r := WriteAll(kv, base, cs, idx, sets).0;
            (base in r <==> base in kv) && (base in kv ==> r[base] == kv[base])
    decreases |cs|
  {
    if cs != [] {
      ChunkKeyFacts(base, idx, idx);
      WriteAllKeepsBase(kv[ChunkKey(base, idx) := cs[0]], base, cs[1..], idx + 1, sets);
    }
  }

  lemma {:induction false} DropOldKeepsBase(kv: Kv, base: string, decode: Decoder)
    ensures (base in DropOld(kv, base, decode) <==> base in kv)
    ensures base in kv ==> DropOld(kv, base, decode)[base] == kv[base]
  {
    assert base !in ChunkRange(base, 0, OldChunks(kv, base, decode)) by {
      forall j: nat | j < OldChunks(kv, base, decode) ensures ChunkKey(base, j) != base {
        ChunkKeyFacts(base, j, j);
      }
    }
  }

  /** The manifest is written last: a save that fails leaves the base key
      as it was. */
  lemma {:induction false} FailedSaveKeepsBase(kv: Kv, decode: Decoder, user: string, rel: string, base: string, rd: Reader,
                            sets: nat -> Retry.Script)
    requires KvKey(user, rel) == Ok(base) && SaveEffect(kv, decode, user, rel, rd, sets).1.Some?
    ensures var r := SaveEffect(kv, decode, user, rel, rd, sets).0;
            (base in r <==> base in kv) && (base in kv ==> r[base] == kv[base])
  {
    var kv1 := DropOld(kv, base, decode);
    DropOldKeepsBase(kv, base, decode);
    WriteAllKeepsBase(kv1, base, Pieces(rd, 0).0, 0, sets);
  }

  /** A reader that fails makes the save fail with its error, after the
      full chunks before it were written. */
  lemma {:induction false} ReaderFailure(kv: Kv, decode: Decoder, user: string, rel: string, base: string, rd: Reader,
                      sets: nat -> Retry.Script)
    requires KvKey(user, rel) == Ok(base) && rd.failure.Some? && AllSucceed(sets)
    ensures SaveEffect(kv, decode, user, rel, rd, sets).1 == rd.failure
  {
    PiecesFailure(rd, 0);
    WriteAllSucceeds(DropOld(kv, base, decode), base, Pieces(rd, 0).0, 0, sets);
  }

  /** The old chunks go first, so a save whose first chunk write fails
      leaves a manifest whose chunks are gone: the blob no longer opens. */
  lemma {:induction false} FailedSaveLosesOld(kv: Kv, decode: Decoder, user: string, rel: string, base: string, rd: Reader,
                           sets: nat -> Retry.Script)
    requires KvKey(user, rel) == Ok(base) && OldChunks(kv, base, decode) > 0
    requires rd.failure.None? && |rd.data| > 0 && Retry.From(sets(0), 0).0 != Retry.Succeeded
    ensures SaveEffect(kv, decode, user, rel, rd, sets).1.Some?
    ensures OpenEffect(SaveEffect(kv, decode, user, rel, rd, sets).0, decode, user, rel) == Err(Nil)
  {
    var kv1 := DropOld(kv, base, decode);
    var n := OldChunks(kv, base, decode);
    PiecesSplit(rd, 0);
    assert rd.data[0..] == rd.data;
    SplitShape(rd.data);
    var cs := Split(rd.data);
    assert cs != [];
    var e := Retry.From(sets(0), 0).0;
    assert WriteAll(kv1, base, cs, 0, sets) == (kv1, Retry.RedisResult("set-chunk", e));
    DropOldKeepsBase(kv, base, decode);
    assert ChunkKey(base, 0) in ChunkRange(base, 0, n);
  }

  /** `Open` of a value that is not a manifest returns it unchanged; a value
      beginning with `{` that the decoder reads with zero chunks, such as a
      stored JSON object without a `chunks` field, opens as empty. */
  lemma {:induction false} OpenLegacy(kv: Kv, decode: Decoder, user: string, rel: string, base: string)
    requires KvKey(user, rel) == Ok(base) && base in kv
    ensures !ChunkMode(kv[base], decode) ==> OpenEffect(kv, decode, user, rel) == Ok(kv[base])
    ensures |kv[base]| > 0 && kv[base][0] == OpenBrace && decode(kv[base]) == Some(Manifest(0, 1))
            ==> OpenEffect(kv, decode, user, rel) == Ok([])
  {
  }

  /** `Delete` removes the base key and the old manifest's chunks and
      nothing else; `Open` then fails. */
  lemma {:induction false} DeleteRemoves(kv: Kv, decode: Decoder, user: string, rel: string, base: string, k: string)
    requires KvKey(user, rel) == Ok(base)
    ensures var r := DeleteEffect(kv, decode, user, rel).0;
            && base !in r
            && (forall j: nat :: j < OldChunks(kv, base, decode) ==> ChunkKey(base, j) !in r)
            && (k != base && k !in ChunkRange(base, 0, OldChunks(kv, base, decode)) ==> (k in r <==> k in kv))
            && OpenEffect(r, decode, user, rel) == Err(Nil)
  {
  }

  /** After a successful save a listing shows what it showed before plus the
      saved key: chunk keys never appear. */
  lemma {:induction false} ListAfterSave(kv: Kv, decode: Decoder, user: string, rel: string, base: string, rd: Reader,
                      sets: nat -> Retry.Script)
    requires KvKey(user, rel) == Ok(base) && rd.failure.None? && AllSucceed(sets) && !Contains(base, ChunkMark)
    ensures Visible(SaveEffect(kv, decode, user, rel, rd, sets).0) == Visible(kv) + {base}
  {
    var cs := Split(rd.data);
    var n := OldChunks(kv, base, decode);
    var kv1 := DropOld(kv, base, decode);
    SaveSucceeds(kv, decode, user, rel, base, rd, sets);
    PutChunksKeys(kv1, base, 0, cs);
    forall k | k in ChunkRange(base, 0, n) + ChunkRange(base, 0, |cs|) ensures Contains(k, ChunkMark) {
      var j: nat :| k == ChunkKey(base, j);
      ChunkKeyFacts(base, j, j);
    }
    var r := SaveEffect(kv, decode, user, rel, rd, sets).0;
    assert r.Keys == (kv.Keys - ChunkRange(base, 0, n)) + ChunkRange(base, 0, |cs|) + {base};
  }

  /** A path containing `:chunk:` is saved under a key the listing hides. */
  lemma {:induction false} ChunkLikePathHidden(user: string, rel: string)
    requires KvKey(user, rel).Ok? && Contains(CleanRel(rel).value, ChunkMark)
    ensures KvKey(user, rel).value !in Visible(map[KvKey(user, rel).value := []])
  {
    ContainsWithin(user + "/", CleanRel(rel).value, "", ChunkMark);
    assert KvKey(user, rel).value == user + "/" + CleanRel(rel).value + "";
  }

  lemma {:induction false} CleanKeepsPlain(x: string)
    requires CleanRel(x).Ok? && !HasPrefix(x, "./")
    ensures CleanRel(x).value == x
  {
  }

  lemma {:induction false} PlainExtends(rel: string, t: string)
    requires CleanRel(rel) == Ok(rel) && |t| > 0 && t[0] == ':'
    ensures !HasPrefix(rel + t, "./")
  {
    assert TrimPrefix(rel, "./") == rel;
    assert !HasPrefix(rel, "./");
    if |rel| >= 2 {
      assert (rel + t)[..2] == rel[..2];
    } else {
      assert (rel + t)[1] == ':';
    }
  }

  /** The key of path `rel + ":chunk:" + i` is the key of chunk `i` of path
      `rel`: saving the one overwrites a chunk of the other. */
  lemma {:induction false} PathAliasesChunk(user: string, rel: string, i: nat)
    requires CleanRel(rel) == Ok(rel) && KvKey(user, rel + ChunkMark + NatToDec(i)).Ok?
    ensures KvKey(user, rel + ChunkMark + NatToDec(i)).value == ChunkKey(KvKey(user, rel).value, i)
  {
    var t := ChunkMark + NatToDec(i);
    Associative(rel, ChunkMark, NatToDec(i));
    PlainExtends(rel, t);
    CleanKeepsPlain(rel + t);
    Associative(user + "/", rel, t);
    Associative(user + "/" + rel, ChunkMark, NatToDec(i));
  }
}
