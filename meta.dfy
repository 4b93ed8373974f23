/** The server's operational metadata: the last publish and install times
    and a map of `uint64` request counters, kept in `_meta.json` at the
    store root. Times are supplied by the caller; the file is held as the
    decoded JSON document. */
module OpsMeta {
  import opened Wrappers
  import opened Errors

  /** `uint64` counters wrap at 2^64. */
  const U64: nat := 0x1_0000_0000_0000_0000

  const PublishKey := "publish_requests"
  const InstallKey := "install_requests"
  const FileName := "_meta.json"

  type Metrics = map<string, nat>

  predicate InRange(m: Metrics)
  {
    forall k :: k in m ==> m[k] < U64
  }

  /** A missing counter reads as zero. */
  function Count(m: Metrics, k: string): nat
  {
    if k in m then m[k] else 0
  }

  /** `m[k]++` on a `map[string]uint64`. */
  function Bump(m: Metrics, k: string): (r: Metrics)
    ensures r.Keys == m.Keys + {k}
    ensures Count(m, k) + 1 < U64 ==> Count(r, k) == Count(m, k) + 1
    ensures Count(m, k) + 1 == U64 ==> Count(r, k) == 0
    ensures forall j :: j in m && j != k ==> r[j] == m[j]
    ensures InRange(m) ==> InRange(r)
  {
    m[k := (Count(m, k) + 1) % U64]
  }

  /** The JSON document as decoded: `metrics` may be `null` or absent. */
  datatype Document = Document(lastPublish: string, lastInstall: string, metrics: Option<Metrics>)

  /** `filepath.Join(root, "_meta.json")` for a root whose text has no `.`
      or `..` parts and no doubled separator: one `/` between the root and
      the file name, none added after a root ending in `/`. */
  function MetaPath(root: string): (p: string)
    ensures |p| > |root| && |p| >= |FileName|
    ensures p[|p| - |FileName|..] == FileName
    ensures root == "" ==> p == FileName
    ensures root != "" ==> p[..|root|] == root && (root[|root| - 1] == '/' <==> |p| == |root| + |FileName|)
  {
    if root == "" then FileName
    else if root[|root| - 1] == '/' then root + FileName
    else root + "/" + FileName
  }

  /** A decoded document's counters are `uint64` values. */
  predicate DocInRange(d: Document)
  {
    d.metrics.Some? ==> InRange(d.metrics.value)
  }

  /** The metadata files, by path. */
  class Files {
    var docs: map<string, Document>

    constructor (docs0: map<string, Document>)
      ensures docs == docs0
    {
      docs := docs0;
    }
  }

  class Meta {
    var lastPublish: string
    var lastInstall: string
    var metrics: Metrics
    var path: string

    ghost predicate Valid()
      reads this
    {
      InRange(metrics)
    }

    constructor (lastPublish0: string, lastInstall0: string, metrics0: Metrics, path0: string)
      requires InRange(metrics0)
      ensures Valid()
      ensures lastPublish == lastPublish0 && lastInstall == lastInstall0 && metrics == metrics0 && path == path0
    {
      lastPublish, lastInstall, metrics, path := lastPublish0, lastInstall0, metrics0, path0;
    }

    /** What `save` stores: the two times and the counters, nothing else. */
    function Contents(): (d: Document)
      reads this
      ensures d.metrics.Some?
    {
      Document(lastPublish, lastInstall, Some(metrics))
    }

    /** `save`: refuse an unset path; otherwise write through a temporary
        file renamed over the target, so a failure (`ioErr`) leaves the old
        file. */
    method Save(files: Files, ioErr: Option<Error>) returns (err: Option<Error>)
      modifies files
      ensures path == "" ==> err == Some(MetaPathUnset) && files.docs == old(files.docs)
      ensures path != "" ==> err == ioErr
      ensures path != "" && ioErr.Some? ==> files.docs == old(files.docs)
      ensures path != "" && ioErr.None? ==> files.docs == old(files.docs)[path := Contents()]
    {
      if path == "" {
        return Some(MetaPathUnset);
      }
      if ioErr.Some? {
        return ioErr;
      }
      files.docs := files.docs[path := Contents()];
      return None;
    }

    /** `recordPublish`: stamp the publish time, count the request, and save,
        ignoring a failed save. */
    method RecordPublish(now: string, files: Files, ioErr: Option<Error>)
      requires Valid()
      modifies this, files
      ensures Valid()
      ensures lastPublish == now && lastInstall == old(lastInstall) && path == old(path)
      ensures metrics == Bump(old(metrics), PublishKey)
      ensures files.docs == if path != "" && ioErr.None? then old(files.docs)[path := Contents()] else old(files.docs)
    {
      lastPublish := now;
      metrics := Bump(metrics, PublishKey);
      var _ := Save(files, ioErr);
    }

    /** `recordInstall`: the same for installs. */
    method RecordInstall(now: string, files: Files, ioErr: Option<Error>)
      requires Valid()
      modifies this, files
      ensures Valid()
      ensures lastInstall == now && lastPublish == old(lastPublish) && path == old(path)
      ensures metrics == Bump(old(metrics), InstallKey)
      ensures files.docs == if path != "" && ioErr.None? then old(files.docs)[path := Contents()] else old(files.docs)
    {
      lastInstall := now;
      metrics := Bump(metrics, InstallKey);
      var _ := Save(files, ioErr);
    }

    /** `snapshot`: the two times and a copy of the counters, made key by key. */
    method Snapshot() returns (lastPub: string, lastInst: string, cp: Metrics)
      ensures lastPub == lastPublish && lastInst == lastInstall && cp == metrics
    {
      cp := map[];
      var pending := metrics.Keys;
      while pending != {}
        invariant pending <= metrics.Keys
        invariant cp.Keys == metrics.Keys - pending
        invariant forall k :: k in cp ==> cp[k] == metrics[k]
        decreases |pending|
      {
        var k :| k in pending;
        cp := cp[k := metrics[k]];
        pending := pending - {k};
      }
      return lastPublish, lastInstall, cp;
    }
  }

  /** What `loadMeta` yields: the file's fields with absent counters made an
      empty map, defaults for a missing file, or the read or decode error
      `failure`. */
  function Loaded(docs: map<string, Document>, root: string, failure: Option<Error>): (r: Result<Document>)
    ensures r.Ok? ==> r.value.metrics.Some?
    ensures r.Ok? && MetaPath(root) !in docs ==> r.value == Document("", "", Some(map[]))
    ensures failure.Some? && MetaPath(root) in docs ==> r == Err(failure.value)
  {
    var p := MetaPath(root);
    if p !in docs then Ok(Document("", "", Some(map[])))
    else if failure.Some? then Err(failure.value)
    else
      var d := docs[p];
      Ok(Document(d.lastPublish, d.lastInstall, Some(if d.metrics.Some? then d.metrics.value else map[])))
  }

  /** `loadMeta`: a `Meta` bound to `root/_meta.json`, ready to record
      publishes and installs. */
  method LoadMeta(files: Files, root: string, failure: Option<Error>) returns (r: Result<Meta>)
    requires MetaPath(root) in files.docs ==> DocInRange(files.docs[MetaPath(root)])
    ensures r.Ok? ==> r.value.Valid()
    ensures Loaded(files.docs, root, failure).Err? <==> r.Err?
    ensures r.Err? ==> r.error == Loaded(files.docs, root, failure).error
    ensures r.Ok? ==> var d := Loaded(files.docs, root, failure).value;
                      && fresh(r.value) && r.value.path == MetaPath(root)
                      && r.value.lastPublish == d.lastPublish && r.value.lastInstall == d.lastInstall
                      && r.value.metrics == d.metrics.value
  {
    var p := MetaPath(root);
    if p !in files.docs {
      var m := new Meta("", "", map[], p);
      return Ok(m);
    }
    if failure.Some? {
      return Err(failure.value);
    }
    var d := files.docs[p];
    var m := new Meta(d.lastPublish, d.lastInstall, if d.metrics.Some? then d.metrics.value else map[], p);
    return Ok(m);
  }

  /** A saved document loads back as it was saved. */
  lemma {:induction false} SaveThenLoad(docs: map<string, Document>, root: string, lastPublish: string, lastInstall: string, metrics: Metrics)
    ensures Loaded(docs[MetaPath(root) := Document(lastPublish, lastInstall, Some(metrics))], root, None)
              == Ok(Document(lastPublish, lastInstall, Some(metrics)))
  {
  }

  /** After a publish from a counter below the wrap, the counter is at
      least one: the status page then shows `publish_requests >= 1`. */
  lemma {:induction false} PublishCounted(m: Metrics)
    requires Count(m, PublishKey) + 1 < U64
    ensures Count(Bump(m, PublishKey), PublishKey) >= 1
    ensures Count(Bump(m, PublishKey), InstallKey) == Count(m, InstallKey)
  {
  }
}
