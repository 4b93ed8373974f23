/** The chunked Redis backend over its key space, a map from keys to byte
    values. Each remote SET goes through the retry loop; the scripts of those
    calls and the JSON decoder are inputs. */
module RedisChunked {
  import opened Wrappers
  import opened Strings
  import opened Errors
  import opened Model
  import opened Sanitize
  import opened Chunking
  import Retry

  type Kv = map<string, Bytes>

  /** `json.Unmarshal` into a manifest. */
  type Decoder = Bytes -> Option<Manifest>

  /** `redis.Nil`: what GET of a missing key fails with. */
  const Nil: Error := Io("redis: nil")

  /** The listing's filter. */
  const ChunkMark: string := ":chunk:"

  /** The number of chunks `Save` and `Delete` remove before touching the
      base key: those of a stored value that begins with `{`, decodes, and
      names a positive count. */
  function OldChunks(kv: Kv, base: string, decode: Decoder): (n: nat)
    ensures n > 0 ==> base in kv && |kv[base]| > 0 && kv[base][0] == OpenBrace
                      && decode(kv[base]).Some? && decode(kv[base]).value.chunks == n
  {
    if base in kv && |kv[base]| > 0 && kv[base][0] == OpenBrace && decode(kv[base]).Some?
       && decode(kv[base]).value.chunks > 0
    then decode(kv[base]).value.chunks else 0
  }

  /** The keys of chunks `lo` to `hi - 1` of `base`. */
  function ChunkRange(base: string, lo: nat, hi: nat): set<string>
  {
    set j: nat | lo <= j < hi :: ChunkKey(base, j)
  }

  function DropOld(kv: Kv, base: string, decode: Decoder): (r: Kv)
    ensures r.Keys == kv.Keys - ChunkRange(base, 0, OldChunks(kv, base, decode))
  {
    kv - ChunkRange(base, 0, OldChunks(kv, base, decode))
  }

  /** Writing chunks `cs` at indices from `idx` on, call by call through the
      retry loop with the `idx`-th script; the first exhausted or cancelled
      write ends it with the wrapped error. */
  function WriteAll(kv: Kv, base: string, cs: seq<Bytes>, idx: nat, sets: nat -> Retry.Script): (r: (Kv, Option<Error>))
    decreases |cs|
  {
    if cs == [] then (kv, None)
    else
      var e := Retry.From(sets(idx), 0).0;
      if e == Retry.Succeeded then WriteAll(kv[ChunkKey(base, idx) := cs[0]], base, cs[1..], idx + 1, sets)
      else (kv, Retry.RedisResult("set-chunk", e))
  }

  /** After the chunks: a write error, else the read error, else the
      manifest write, the `n`-th call. */
  function Complete(kv: Kv, base: string, werr: Option<Error>, rerr: Option<Error>, n: nat,
                    sets: nat -> Retry.Script): (r: (Kv, Option<Error>))
  {
    if werr.Some? then (kv, werr)
    else if rerr.Some? then (kv, rerr)
    else
      var e := Retry.From(sets(n), 0).0;
      if e == Retry.Succeeded then (kv[base := ManifestBytes(n)], None)
      else (kv, Retry.RedisResult("set-manifest", e))
  }

  /** The rest of a save, given the chunks still to write from index `idx`
      and the read error after them. */
  function Tail(kv: Kv, base: string, p: (seq<Bytes>, Option<Error>), idx: nat, sets: nat -> Retry.Script): (Kv, Option<Error>)
  {
    var (kv2, werr) := WriteAll(kv, base, p.0, idx, sets);
    Complete(kv2, base, werr, p.1, idx + |p.0|, sets)
  }

  /** `Save`: the key space afterwards and the error returned. */
  function SaveEffect(kv: Kv, decode: Decoder, user: string, rel: string, rd: Reader,
                      sets: nat -> Retry.Script): (r: (Kv, Option<Error>))
    ensures KvKey(user, rel).Err? ==> r == (kv, Some(KvKey(user, rel).error))
  {
    match KvKey(user, rel)
    case Err(e) => (kv, Some(e))
    case Ok(base) => Tail(DropOld(kv, base, decode), base, Pieces(rd, 0), 0, sets)
  }

  /** Whether `Open` reads a stored value as a manifest. */
  predicate ChunkMode(raw: Bytes, decode: Decoder)
  {
    |raw| > 0 && raw[0] == OpenBrace && decode(raw).Some? && decode(raw).value.chunks >= 0
  }

  /** Chunks `0` to `n - 1`, concatenated; a missing one fails the read. */
  function Gather(kv: Kv, base: string, n: nat): (r: Result<Bytes>)
    ensures r.Ok? <==> forall i :: 0 <= i < n ==> ChunkKey(base, i) in kv
    ensures r.Err? ==> r.error == Nil
  {
    if n == 0 then Ok([])
    else match Gather(kv, base, n - 1)
      case Err(e) => Err(e)
      case Ok(b) => if ChunkKey(base, n - 1) in kv then Ok(b + kv[ChunkKey(base, n - 1)]) else Err(Nil)
  }

  /** `Open`: the bytes served. */
  function OpenEffect(kv: Kv, decode: Decoder, user: string, rel: string): (r: Result<Bytes>)
    ensures KvKey(user, rel).Err? ==> r == Err(KvKey(user, rel).error)
    ensures KvKey(user, rel).Ok? && KvKey(user, rel).value !in kv ==> r == Err(Nil)
  {
    match KvKey(user, rel)
    case Err(e) => Err(e)
    case Ok(base) =>
      if base !in kv then Err(Nil)
      else if ChunkMode(kv[base], decode) then Gather(kv, base, decode(kv[base]).value.chunks)
      else Ok(kv[base])
  }

  /** `Delete`: the old manifest's chunks, then the base key. */
  function DeleteEffect(kv: Kv, decode: Decoder, user: string, rel: string): (r: (Kv, Option<Error>))
    ensures KvKey(user, rel).Err? ==> r == (kv, Some(KvKey(user, rel).error))
    ensures KvKey(user, rel).Ok? ==> r.1 == None
  {
    match KvKey(user, rel)
    case Err(e) => (kv, Some(e))
    case Ok(base) => (DropOld(kv, base, decode) - {base}, None)
  }

  lemma {:induction false} PiecesFull(rd: Reader, pos: nat)
    requires pos + ChunkSize <= |rd.data|
    ensures Pieces(rd, pos) == ([rd.data[pos..pos + ChunkSize]] + Pieces(rd, pos + ChunkSize).0, Pieces(rd, pos + ChunkSize).1)
  {
  }

  lemma {:induction false} PiecesShort(rd: Reader, pos: nat)
    requires pos <= |rd.data| < pos + ChunkSize
    ensures Pieces(rd, pos) == if rd.failure.Some? then ([], rd.failure)
                               else if pos == |rd.data| then ([], None)
                               else ([rd.data[pos..]], None)
  {
  }

  /** One more chunk: it is written, or its failed write ends the save. */
  lemma {:induction false} TailCons(kv: Kv, base: string, b: Bytes, q: (seq<Bytes>, Option<Error>), idx: nat, sets: nat -> Retry.Script)
    ensures var e := Retry.From(sets(idx), 0).0;
            Tail(kv, base, ([b] + q.0, q.1), idx, sets)
              == if e == Retry.Succeeded then Tail(kv[ChunkKey(base, idx) := b], base, q, idx + 1, sets)
                 else (kv, Retry.RedisResult("set-chunk", e))
  {
    var cs := [b] + q.0;
    assert cs[0] == b && cs[1..] == q.0;
    var e := Retry.From(sets(idx), 0).0;
    if e != Retry.Succeeded {
      assert WriteAll(kv, base, cs, idx, sets) == (kv, Retry.RedisResult("set-chunk", e));
    }
  }

  /** No chunk left: the read error, or else the manifest. */
  lemma {:induction false} TailNil(kv: Kv, base: string, rerr: Option<Error>, idx: nat, sets: nat -> Retry.Script)
    ensures Tail(kv, base, ([], rerr), idx, sets)
              == if rerr.Some? then (kv, rerr) else Complete(kv, base, None, None, idx, sets)
  {
  }

  class Backend {
    var kv: Kv

    constructor (kv0: Kv)
      ensures kv == kv0
    {
      kv := kv0;
    }

    /** The best-effort loop deleting chunks `0` to `n - 1` of `base`. */
    method DropChunks(base: string, n: nat)
      modifies this
      ensures kv == old(kv) - ChunkRange(base, 0, n)
    {
      for i := 0 to n
        invariant kv == old(kv) - ChunkRange(base, 0, i)
      {
        kv := kv - {ChunkKey(base, i)};
        assert ChunkRange(base, 0, i + 1) == ChunkRange(base, 0, i) + {ChunkKey(base, i)};
      }
    }

    method Save(user: string, rel: string, rd: Reader, decode: Decoder, sets: nat -> Retry.Script)
      returns (err: Option<Error>)
      modifies this
      ensures (kv, err) == SaveEffect(old(kv), decode, user, rel, rd, sets)
    {
      var key := KvKey(user, rel);
      if key.Err? {
        return Some(key.error);
      }
      var base := key.value;
      DropChunks(base, OldChunks(kv, base, decode));
      var pos := 0;
      var idx := 0;
      while true
        invariant pos <= |rd.data|
        invariant Tail(kv, base, Pieces(rd, pos), idx, sets) == SaveEffect(old(kv), decode, user, rel, rd, sets)
        decreases |rd.data| - pos
      {
        var (b, st) := ReadFull(rd, pos, ChunkSize);
        if st == Full {
          PiecesFull(rd, pos);
          TailCons(kv, base, b, Pieces(rd, pos + ChunkSize), idx, sets);
        } else {
          PiecesShort(rd, pos);
          if st == UnexpectedEof {
            TailCons(kv, base, b, ([], None), idx, sets);
            TailNil(kv[ChunkKey(base, idx) := b], base, None, idx + 1, sets);
            assert [b] + [] == [b];
          } else {
            TailNil(kv, base, rd.failure, idx, sets);
          }
        }
        if st == Eof || st == UnexpectedEof {
          if |b| > 0 {
            var e, calls, waits := Retry.Run(sets(idx));
            if e != Retry.Succeeded {
              return Retry.RedisResult("set-chunk", e);
            }
            kv := kv[ChunkKey(base, idx) := b];
            idx := idx + 1;
          }
          break;
        }
        if st.Failed? {
          return Some(st.e);
        }
        var e, calls, waits := Retry.Run(sets(idx));
        if e != Retry.Succeeded {
          return Retry.RedisResult("set-chunk", e);
        }
        kv := kv[ChunkKey(base, idx) := b];
        idx := idx + 1;
        pos := pos + ChunkSize;
      }
      var e, calls, waits := Retry.Run(sets(idx));
      if e != Retry.Succeeded {
        return Retry.RedisResult("set-manifest", e);
      }
      kv := kv[base := ManifestBytes(idx)];
      err := None;
    }

    method Open(user: string, rel: string, decode: Decoder) returns (r: Result<Bytes>)
      ensures r == OpenEffect(kv, decode, user, rel)
    {
      var key := KvKey(user, rel);
      if key.Err? {
        return Err(key.error);
      }
      var base := key.value;
      if base !in kv {
        return Err(Nil);
      }
      var raw := kv[base];
      if !(|raw| > 0 && raw[0] == OpenBrace && decode(raw).Some? && decode(raw).value.chunks >= 0) {
        return Ok(raw);
      }
      var n := decode(raw).value.chunks;
      var out := [];
      for i := 0 to n
        invariant Gather(kv, base, i) == Ok(out)
      {
        var ck := ChunkKey(base, i);
        if ck !in kv {
          return Err(Nil);
        }
        out := out + kv[ck];
      }
      r := Ok(out);
    }

    /** Every key that is not a chunk key, in scan order. */
    method List() returns (out: seq<string>)
      ensures forall k :: k in out <==> k in kv && !Contains(k, ChunkMark)
    {
      out := [];
      var pending := kv.Keys;
      while pending != {}
        invariant pending <= kv.Keys
        invariant forall k :: k in out <==> k in kv && k !in pending && !Contains(k, ChunkMark)
        decreases |pending|
      {
        var k :| k in pending;
        if !Contains(k, ChunkMark) {
          out := out + [k];
        }
        pending := pending - {k};
      }
    }

    method Delete(user: string, rel: string, decode: Decoder) returns (err: Option<Error>)
      modifies this
      ensures (kv, err) == DeleteEffect(old(kv), decode, user, rel)
    {
      var key := KvKey(user, rel);
      if key.Err? {
        return Some(key.error);
      }
      var base := key.value;
      DropChunks(base, OldChunks(kv, base, decode));
      kv := kv - {base};
      err := None;
    }
  }
}
