/** The in-memory key-value backend (driver `redis-mem`): blobs kept in one
    map under the key `user/rel`. */
module RedisMem {
  import opened Wrappers
  import opened Strings
  import opened Errors
  import opened Model
  import opened Sanitize

  type Data = map<string, Bytes>

  /** The data after `Save`, and the error it returns. */
  function Put(data: Data, user: string, rel: string, rd: Reader): (r: (Data, Option<Error>))
    ensures r.1.None? <==> KvKey(user, rel).Ok? && rd.failure.None?
    ensures r.1.None? ==> r.0 == data[KvKey(user, rel).value := rd.data]
    ensures r.1.Some? ==> r.0 == data
    ensures KvKey(user, rel).Err? ==> r.1 == Some(KvKey(user, rel).error)
    ensures KvKey(user, rel).Ok? && rd.failure.Some? ==> r.1 == rd.failure
  {
    match KvKey(user, rel)
    case Err(e) => (data, Some(e))
    case Ok(key) =>
      if rd.failure.Some? then (data, rd.failure) else (data[key := rd.data], None)
  }

  /** The bytes `Open` serves. */
  function Get(data: Data, user: string, rel: string): (r: Result<Bytes>)
    ensures r.Ok? <==> KvKey(user, rel).Ok? && KvKey(user, rel).value in data
    ensures r.Ok? ==> r.value == data[KvKey(user, rel).value]
    ensures KvKey(user, rel).Err? ==> r == Err(KvKey(user, rel).error)
    ensures KvKey(user, rel).Ok? && KvKey(user, rel).value !in data ==> r == Err(NotExist)
  {
    match KvKey(user, rel)
    case Err(e) => Err(e)
    case Ok(key) => if key in data then Ok(data[key]) else Err(NotExist)
  }

  /** The data after `Delete`, and the error it returns. */
  function Drop(data: Data, user: string, rel: string): (r: (Data, Option<Error>))
    ensures r.1.None? <==> KvKey(user, rel).Ok?
    ensures r.1.None? ==> r.0 == data - {KvKey(user, rel).value}
    ensures r.1.Some? ==> r.0 == data && r.1 == Some(KvKey(user, rel).error)
  {
    match KvKey(user, rel)
    case Err(e) => (data, Some(e))
    case Ok(key) => (data - {key}, None)
  }

  class Backend {
    const root: string
    var data: Data

    /** `NewRedisMemBackend`: an empty map; the root defaults to `redis`. */
    constructor (root0: string)
      ensures root == (if root0 == "" then "redis" else root0)
      ensures data == map[]
    {
      root := if root0 == "" then "redis" else root0;
      data := map[];
    }

    method Save(user: string, rel: string, rd: Reader) returns (err: Option<Error>)
      modifies this
      ensures (data, err) == Put(old(data), user, rel, rd)
    {
      var key := KvKey(user, rel);
      if key.Err? {
        return Some(key.error);
      }
      if rd.failure.Some? {
        return rd.failure;
      }
      data := data[key.value := rd.data];
      err := None;
    }

    method Open(user: string, rel: string) returns (r: Result<Bytes>)
      ensures r == Get(data, user, rel)
    {
      var key := KvKey(user, rel);
      if key.Err? {
        return Err(key.error);
      }
      if key.value !in data {
        return Err(NotExist);
      }
      r := Ok(data[key.value]);
    }

    /** Every stored key once, in the map's iteration order. */
    method List() returns (out: seq<string>)
      ensures forall k :: k in out <==> k in data
      ensures |out| == |data.Keys|
      ensures forall i, j :: 0 <= i < j < |out| ==> out[i] != out[j]
    {
      out := [];
      var pending := data.Keys;
      while pending != {}
        invariant pending <= data.Keys
        invariant forall k :: k in out <==> k in data && k !in pending
        invariant forall i, j :: 0 <= i < j < |out| ==> out[i] != out[j]
        invariant |out| + |pending| == |data.Keys|
        decreases |pending|
      {
        var k :| k in pending;
        out := out + [k];
        pending := pending - {k};
      }
      assert pending == {};
    }

    method Delete(user: string, rel: string) returns (err: Option<Error>)
      modifies this
      ensures (data, err) == Drop(old(data), user, rel)
    {
      var key := KvKey(user, rel);
      if key.Err? {
        return Some(key.error);
      }
      data := data - {key.value};
      err := None;
    }
  }

  /** `Save` then `Open` gives back the bytes read, whatever was stored before. */
  lemma {:induction false} SaveOpen(data: Data, user: string, rel: string, b: Bytes)
    requires KvKey(user, rel).Ok?
    ensures Get(Put(data, user, rel, Reader(b, None)).0, user, rel) == Ok(b)
  {
  }

  /** `Save` changes no other key's bytes, and a different key's `Open` is
      unaffected. */
  lemma {:induction false} SaveKeepsOthers(data: Data, user: string, rel: string, rd: Reader, user2: string, rel2: string)
    requires KvKey(user2, rel2).Ok? && KvKey(user2, rel2) != KvKey(user, rel)
    ensures Get(Put(data, user, rel, rd).0, user2, rel2) == Get(data, user2, rel2)
  {
  }

  /** `Delete` succeeds whether or not the key is there, and `Open` then
      reports it missing. */
  lemma {:induction false} DeleteThenOpen(data: Data, user: string, rel: string)
    requires KvKey(user, rel).Ok?
    ensures Drop(data, user, rel).1 == None
    ensures Get(Drop(data, user, rel).0, user, rel) == Err(NotExist)
  {
  }

  /** `Delete` after `Save` of a new key restores the earlier map. */
  lemma {:induction false} SaveThenDelete(data: Data, user: string, rel: string, b: Bytes)
    requires KvKey(user, rel).Ok? && KvKey(user, rel).value !in data
    ensures Drop(Put(data, user, rel, Reader(b, None)).0, user, rel).0 == data
  {
    assert Drop(Put(data, user, rel, Reader(b, None)).0, user, rel).0 == data;
  }

  lemma FileTxtClean()
    ensures CleanRel("file.txt") == Ok("file.txt")
  {
    NoDoubledChar("file.txt", '.');
    assert [('.' as char), '.'] == "..";
    assert !HasPrefix("file.txt", "./") && !HasPrefix("file.txt", "/");
    Refused("file.txt");
  }

  /** The key the backend's scaffold scenario saves under. */
  lemma ScaffoldKey()
    ensures KvKey("user1", "file.txt") == Ok("user1/file.txt")
  {
    FileTxtClean();
    assert "user1" + "/" + "file.txt" == "user1/file.txt";
  }

  /** After one save into a new backend the listing is exactly that key, and
      after deleting it, empty. */
  lemma {:induction false} SaveListDelete(user: string, rel: string, key: string, b: Bytes)
    requires KvKey(user, rel) == Ok(key)
    ensures Put(map[], user, rel, Reader(b, None)).0.Keys == {key}
    ensures Drop(Put(map[], user, rel, Reader(b, None)).0, user, rel).0 == map[]
  {
  }
}
