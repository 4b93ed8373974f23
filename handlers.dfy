/** The HTTP handlers' own logic: the publish loop, the compare and install
    pipelines, prune counting and the server inventory. The store is seen
    through its `List` result, an `open` function, and scripts saying how
    the `k`-th `Save` or `Delete` call ends. */
module Handlers {
  import opened Wrappers
  import opened Strings
  import opened Errors
  import opened Model
  import opened Diff
  import opened OpsMeta
  import opened ServerTar

  /** The publish reply: an error status, or `{"stored": N}`. */
  datatype Reply = Failed(code: int) | Stored(count: nat)

  datatype SaveCall = SaveCall(user: string, rel: string, data: Bytes)

  const TarType := "application/x-tar"

  /** How the publish loop ends: an entry name without a `/`, a failed save,
      a stream error after the entries, or every entry consumed after
      `count` saves. */
  datatype Ending = BadName | SaveFailed(error: Error) | BadStream | Saved(count: nat)

  /** The publish loop from entry `i` on, after `k` saves: directories are
      skipped, a name that does not split ends the loop, so does a failed
      save, and so does a stream error after the entries. Also the saves
      made. */
  function PublishFrom(es: seq<Entry>, i: nat, failure: Option<Error>, saveErr: nat -> Option<Error>, k: nat): (r: (Ending, seq<SaveCall>))
    requires i <= |es|
    decreases |es| - i
  {
    if i == |es| then (if failure.Some? then BadStream else Saved(k), [])
    else if es[i].isDir then PublishFrom(es, i + 1, failure, saveErr, k)
    else
      var cut := CutFirst(es[i].name, '/');
      if cut.None? then (BadName, [])
      else
        var call := SaveCall(cut.value.0, cut.value.1, es[i].data);
        if saveErr(k).Some? then (SaveFailed(saveErr(k).value), [call])
        else
          var r := PublishFrom(es, i + 1, failure, saveErr, k + 1);
          (r.0, [call] + r.1)
  }

  /** The reply for the way the loop ended: a bad name or stream is 400, a
      failed save 400 when its message says "too long" and 500 otherwise. */
  function ReplyOf(end: Ending): (r: Reply)
    ensures r.Stored? <==> end.Saved?
    ensures end.Saved? ==> r.count == end.count
    ensures r.Failed? ==> r.code == 400 || r.code == 500
  {
    match end
    case BadName => Failed(400)
    case SaveFailed(e) => Failed(SaveStatus(e))
    case BadStream => Failed(400)
    case Saved(n) => Stored(n)
  }

  /** The status a failed save is answered with. */
  function SaveStatus(e: Error): (code: int)
    ensures code == 400 <==> SaysTooLong(e)
    ensures code == 400 || code == 500
  {
    if SaysTooLong(e) then 400 else 500
  }

  /** The whole handler: media type, then gzip, then the loop. */
  function PublishReply(contentType: string, encoding: string, gzipOk: bool, stream: TarStream, saveErr: nat -> Option<Error>): (r: (Reply, seq<SaveCall>))
  {
    if !HasPrefix(contentType, TarType) then (Failed(415), [])
    else if encoding == "gzip" && !gzipOk then (Failed(400), [])
    else
      var r := PublishFrom(stream.entries, 0, stream.failure, saveErr, 0);
      (ReplyOf(r.0), r.1)
  }

  /** `publishHandler`: the metadata records the publish only when every
      entry was consumed. */
  method Publish(contentType: string, encoding: string, gzipOk: bool, stream: TarStream, saveErr: nat -> Option<Error>,
                 meta: Meta, files: Files, now: string, ioErr: Option<Error>)
    returns (reply: Reply, calls: seq<SaveCall>)
    requires meta.Valid()
    modifies meta, files
    ensures (reply, calls) == PublishReply(contentType, encoding, gzipOk, stream, saveErr)
    ensures meta.Valid()
    ensures reply.Stored? ==>
              && meta.lastPublish == now && meta.lastInstall == old(meta.lastInstall) && meta.path == old(meta.path)
              && meta.metrics == Bump(old(meta.metrics), PublishKey)
              && files.docs == if meta.path != "" && ioErr.None? then old(files.docs)[meta.path := meta.Contents()] else old(files.docs)
    ensures reply.Failed? ==> unchanged(meta) && unchanged(files)
  {
    if !HasPrefix(contentType, TarType) {
      return Failed(415), [];
    }
    if encoding == "gzip" && !gzipOk {
      return Failed(400), [];
    }
    reply, calls := PublishLoop(stream.entries, stream.failure, saveErr);
    if reply.Stored? {
      meta.RecordPublish(now, files, ioErr);
    }
  }

  /** The loop over the archive's entries, saving each regular file. */
  method PublishLoop(es: seq<Entry>, failure: Option<Error>, saveErr: nat -> Option<Error>) returns (reply: Reply, calls: seq<SaveCall>)
    ensures reply == ReplyOf(PublishFrom(es, 0, failure, saveErr, 0).0)
    ensures calls == PublishFrom(es, 0, failure, saveErr, 0).1
  {
    ghost var whole := PublishFrom(es, 0, failure, saveErr, 0);
    assert [] + whole.1 == whole.1;
    calls := [];
    var stored := 0;
    var i := 0;
    while true
      invariant i <= |es| && stored == |calls|
      invariant whole == (PublishFrom(es, i, failure, saveErr, stored).0, calls + PublishFrom(es, i, failure, saveErr, stored).1)
      decreases |es| - i
    {
      if i == |es| {
        assert calls + [] == calls;
        if failure.Some? {
          return Failed(400), calls;
        }
        return Stored(stored), calls;
      }
      var e := es[i];
      if e.isDir {
        i := i + 1;
        continue;
      }
      var parts := CutFirst(e.name, '/');
      if parts.None? {
        assert calls + [] == calls;
        return Failed(400), calls;
      }
      var (user, rel) := parts.value;
      var err := saveErr(stored);
      ghost var rest := PublishFrom(es, i + 1, failure, saveErr, stored + 1).1;
      Associative(calls, [SaveCall(user, rel, e.data)], rest);
      calls := calls + [SaveCall(user, rel, e.data)];
      if err.Some? {
        return Failed(SaveStatus(err.value)), calls;
      }
      stored := stored + 1;
      i := i + 1;
    }
  }

  /** The regular entries from `i` on. */
  function Regular(es: seq<Entry>, i: nat): seq<Entry>
    requires i <= |es|
    decreases |es| - i
  {
    if i == |es| then [] else (if es[i].isDir then [] else [es[i]]) + Regular(es, i + 1)
  }

  /** Save call `j` is regular entry `j` split at its first `/`, with its
      contents, for every `j`. */
  predicate SavedAsNamed(regs: seq<Entry>, calls: seq<SaveCall>)
  {
    |calls| == |regs| && forall j :: 0 <= j < |calls| ==> NamedAs(regs[j], calls[j])
  }

  /** A save of entry `e`: its name is `user/rel`, its contents are saved. */
  predicate NamedAs(e: Entry, call: SaveCall)
  {
    e.name == call.user + "/" + call.rel && call.data == e.data
  }

  /** Saves `k` to `k + n - 1` all succeed. */
  predicate SavesSucceed(saveErr: nat -> Option<Error>, k: nat, n: nat)
  {
    forall j :: k <= j < k + n ==> saveErr(j).None?
  }

  /** A publish that stores: the stream ended cleanly, every save succeeded,
      and the count is `k` plus the number of saves. */
  lemma {:induction false} StoredCount(es: seq<Entry>, i: nat, failure: Option<Error>, saveErr: nat -> Option<Error>, k: nat)
    requires i <= |es| && PublishFrom(es, i, failure, saveErr, k).0.Saved?
    ensures failure.None?
    ensures PublishFrom(es, i, failure, saveErr, k).0.count == k + |PublishFrom(es, i, failure, saveErr, k).1|
    ensures SavesSucceed(saveErr, k, |PublishFrom(es, i, failure, saveErr, k).1|)
    decreases |es| - i
  {
    if i == |es| {
      assert PublishFrom(es, i, failure, saveErr, k) == (Saved(k), []);
    } else if es[i].isDir {
      StoredCount(es, i + 1, failure, saveErr, k);
    } else {
      var cut := CutFirst(es[i].name, '/');
      var rest := PublishFrom(es, i + 1, failure, saveErr, k + 1);
      assert PublishFrom(es, i, failure, saveErr, k) == (rest.0, [SaveCall(cut.value.0, cut.value.1, es[i].data)] + rest.1);
      StoredCount(es, i + 1, failure, saveErr, k + 1);
    }
  }

  /** A publish that stores saved every regular entry, in order, under the
      user and path its name splits into. */
  lemma {:induction false} StoredNamed(es: seq<Entry>, i: nat, failure: Option<Error>, saveErr: nat -> Option<Error>, k: nat)
    requires i <= |es| && PublishFrom(es, i, failure, saveErr, k).0.Saved?
    ensures SavedAsNamed(Regular(es, i), PublishFrom(es, i, failure, saveErr, k).1)
    decreases |es| - i
  {
    if i == |es| {
      assert PublishFrom(es, i, failure, saveErr, k).1 == [] && Regular(es, i) == [];
    } else if es[i].isDir {
      StoredNamed(es, i + 1, failure, saveErr, k);
      assert Regular(es, i) == Regular(es, i + 1);
    } else {
      var cut := CutFirst(es[i].name, '/');
      var call := SaveCall(cut.value.0, cut.value.1, es[i].data);
      var rest := PublishFrom(es, i + 1, failure, saveErr, k + 1);
      var calls := [call] + rest.1;
      assert PublishFrom(es, i, failure, saveErr, k) == (rest.0, calls);
      StoredNamed(es, i + 1, failure, saveErr, k + 1);
      var regs := [es[i]] + Regular(es, i + 1);
      assert Regular(es, i) == regs;
      assert NamedAs(es[i], call);
      forall j | 0 <= j < |calls|
        ensures NamedAs(regs[j], calls[j])
      {
        if j > 0 {
          assert calls[j] == rest.1[j - 1] && regs[j] == Regular(es, i + 1)[j - 1];
        }
      }
    }
  }

  /** A publish that stores: the stream ended cleanly, every regular entry
      split into user and path and was saved, in order, every save
      succeeded, and the count is the number of saves. */
  lemma {:induction false} StoredMeansAllSaved(es: seq<Entry>, failure: Option<Error>, saveErr: nat -> Option<Error>)
    requires PublishFrom(es, 0, failure, saveErr, 0).0.Saved?
    ensures failure.None?
    ensures PublishFrom(es, 0, failure, saveErr, 0).0.count == |PublishFrom(es, 0, failure, saveErr, 0).1|
    ensures SavedAsNamed(Regular(es, 0), PublishFrom(es, 0, failure, saveErr, 0).1)
    ensures SavesSucceed(saveErr, 0, |PublishFrom(es, 0, failure, saveErr, 0).1|)
  {
    StoredCount(es, 0, failure, saveErr, 0);
    StoredNamed(es, 0, failure, saveErr, 0);
  }

  /** The loop stops at the first failed save: every save before the last
      one made succeeded. */
  lemma {:induction false} EarlierSavesSucceeded(es: seq<Entry>, i: nat, failure: Option<Error>, saveErr: nat -> Option<Error>, k: nat)
    requires i <= |es|
    ensures forall j :: k <= j < k + |PublishFrom(es, i, failure, saveErr, k).1| - 1 ==> saveErr(j).None?
    decreases |es| - i
  {
    if i < |es| {
      if es[i].isDir {
        EarlierSavesSucceeded(es, i + 1, failure, saveErr, k);
      } else if CutFirst(es[i].name, '/').Some? && saveErr(k).None? {
        EarlierSavesSucceeded(es, i + 1, failure, saveErr, k + 1);
      }
    }
  }

  /** When the last save made failed, the reply is that failure's status. */
  predicate AbortsAtLast(r: (Ending, seq<SaveCall>), saveErr: nat -> Option<Error>, k: nat)
  {
    |r.1| > 0 && saveErr(k + |r.1| - 1).Some? ==> r.0 == SaveFailed(saveErr(k + |r.1| - 1).value)
  }

  /** A failed save ends the publish with its error status. */
  lemma {:induction false} FailedSaveAborts(es: seq<Entry>, i: nat, failure: Option<Error>, saveErr: nat -> Option<Error>, k: nat)
    requires i <= |es|
    ensures AbortsAtLast(PublishFrom(es, i, failure, saveErr, k), saveErr, k)
    decreases |es| - i
  {
    if i == |es| {
      assert PublishFrom(es, i, failure, saveErr, k).1 == [];
    } else if es[i].isDir {
      FailedSaveAborts(es, i + 1, failure, saveErr, k);
    } else {
      var cut := CutFirst(es[i].name, '/');
      if cut.None? {
        assert PublishFrom(es, i, failure, saveErr, k).1 == [];
      } else {
        var call := SaveCall(cut.value.0, cut.value.1, es[i].data);
        if saveErr(k).Some? {
          assert PublishFrom(es, i, failure, saveErr, k) == (SaveFailed(saveErr(k).value), [call]);
        } else {
          FailedSaveAborts(es, i + 1, failure, saveErr, k + 1);
          var rest := PublishFrom(es, i + 1, failure, saveErr, k + 1);
          assert PublishFrom(es, i, failure, saveErr, k) == (rest.0, [call] + rest.1);
          if |rest.1| == 0 {
            assert |[call] + rest.1| == 1;
          } else {
            assert k + |[call] + rest.1| - 1 == (k + 1) + |rest.1| - 1;
          }
        }
      }
    }
  }

  /** An empty archive is a successful publish of nothing. */
  lemma {:induction false} EmptyArchive(saveErr: nat -> Option<Error>, gzipOk: bool)
    ensures PublishReply(TarType, "", gzipOk, TarStream([], None), saveErr) == (Stored(0), [])
  {
    assert HasPrefix(TarType, TarType);
  }

  /** The length error of the path rules is answered with 400, any error
      without a `g` in its text with 500. */
  lemma {:induction false} SaveErrorStatus(e: Entry, u: string, rel: string, saveErr: nat -> Option<Error>, failure: Option<Error>)
    requires !e.isDir && CutFirst(e.name, '/') == Some((u, rel)) && saveErr(0).Some?
    ensures saveErr(0) == Some(PathTooLong) ==> ReplyOf(PublishFrom([e], 0, failure, saveErr, 0).0) == Failed(400)
    ensures 'g' !in Text(saveErr(0).value) ==> ReplyOf(PublishFrom([e], 0, failure, saveErr, 0).0) == Failed(500)
  {
    if saveErr(0) == Some(PathTooLong) {
      LengthErrorSaysTooLong();
    }
    if 'g' !in Text(saveErr(0).value) {
      NoTooLong(saveErr(0).value, Text(saveErr(0).value));
    }
  }

  /** The install filter: deletes and modifies only. */
  predicate InstallWanted(c: Change)
  {
    c.kind == Delete || c.kind == Modify
  }

  /** `installHandler` after decoding the request: the server inventory, the
      comparison, the archive of the wanted changes, then the install is
      recorded. A failed listing is a 500 with nothing recorded. */
  method Install(inventory: seq<InventoryItem>, users: seq<string>, listed: Result<seq<string>>, open: Opener,
                 hash: Bytes -> string, headerOk: nat -> bool, meta: Meta, files: Files, now: string, ioErr: Option<Error>)
    returns (status: int, entries: seq<Entry>, changes: seq<Change>)
    requires meta.Valid()
    modifies meta, files
    ensures meta.Valid()
    ensures listed.Err? ==> status == 500 && entries == [] && unchanged(meta) && unchanged(files)
    ensures listed.Ok? ==>
              && status == 200
              && IsChangeSet(changes, Index(inventory), Index(InventoryOf(listed.value, UserSet(users), open, hash)))
              && entries == Tar(changes, InstallWanted, open, headerOk, |changes|)
              && meta.lastInstall == now && meta.lastPublish == old(meta.lastPublish)
              && meta.metrics == Bump(old(meta.metrics), InstallKey) && meta.path == old(meta.path)
              && files.docs == if meta.path != "" && ioErr.None? then old(files.docs)[meta.path := meta.Contents()] else old(files.docs)
  {
    var serverInv := BuildStoreInventory(listed, users, open, hash);
    if serverInv.Err? {
      return 500, [], [];
    }
    changes := Compare(inventory, serverInv.value);
    var tarErr;
    entries, tarErr := WriteChangesTar(changes, InstallWanted, open, headerOk);
    meta.RecordInstall(now, files, ioErr);
    status := 200;
  }

  /** An install archive never carries an Add or a Same. */
  lemma {:induction false} InstallOnlyDeletesAndModifies(changes: seq<Change>, open: Opener, headerOk: nat -> bool, k: nat)
    requires k < |Picking.Picks(|changes|, Keep(changes, InstallWanted, open, headerOk))|
    ensures var j := Picking.Picks(|changes|, Keep(changes, InstallWanted, open, headerOk))[k];
            changes[j].kind == Delete || changes[j].kind == Modify
  {
    TarShape(changes, InstallWanted, open, headerOk);
  }

  /** `compareHandler` after decoding: a failed listing is a 500; otherwise
      the change set, followed with `include_same=1` by the Same changes. */
  method CompareHandler(inventory: seq<InventoryItem>, users: seq<string>, includeSame: bool, listed: Result<seq<string>>,
                        open: Opener, hash: Bytes -> string)
    returns (status: int, changes: seq<Change>, ghost computed: nat)
    ensures listed.Err? ==> status == 500 && changes == []
    ensures listed.Ok? ==>
              var cm, sm := Index(inventory), Index(InventoryOf(listed.value, UserSet(users), open, hash));
              && status == 200 && computed <= |changes|
              && IsChangeSet(changes[..computed], cm, sm)
              && (!includeSame ==> computed == |changes|)
              && (forall i :: computed <= i < |changes| ==> SameFor(cm, sm, ChangeKey(changes[i])) == Some(changes[i]))
              && (includeSame ==> forall k :: SameFor(cm, sm, k).Some? ==> SameFor(cm, sm, k).value in changes[computed..])
              && NoDupKeys(changes[computed..])
  {
    var serverInv := BuildStoreInventory(listed, users, open, hash);
    if serverInv.Err? {
      return 500, [], 0;
    }
    changes := Compare(inventory, serverInv.value);
    computed := |changes|;
    assert changes[..computed] == changes;
    if includeSame {
      changes := AppendSame(changes, inventory, serverInv.value);
    }
    status := 200;
  }

  /** The Same changes never repeat a computed key: a key either calls for
      a change or, with equal hashes on both sides, for a Same. */
  lemma {:induction false} SameNeverDuplicatesChange(cm: map<string, InventoryItem>, sm: map<string, InventoryItem>, changes: seq<Change>, c: Change)
    requires IsChangeSet(changes, cm, sm) && SameFor(cm, sm, ChangeKey(c)) == Some(c)
    ensures forall i :: 0 <= i < |changes| ==> ChangeKey(changes[i]) != ChangeKey(c)
  {
    SameExcludesChange(cm, sm, ChangeKey(c));
  }

  /** The pairs the prune loop deletes: those with a user and a path. */
  function PruneTargets(ds: seq<(string, string)>): (ts: seq<(string, string)>)
  {
    if ds == [] then [] else PruneTargets(ds[..|ds| - 1]) + (var d := ds[|ds| - 1]; if d.0 == "" || d.1 == "" then [] else [d])
  }

  lemma {:induction false} PruneTargetsFacts(ds: seq<(string, string)>)
    ensures |PruneTargets(ds)| <= |ds|
    ensures forall t :: t in PruneTargets(ds) <==> t in ds && t.0 != "" && t.1 != ""
  {
    if ds != [] {
      var pre := ds[..|ds| - 1];
      PruneTargetsFacts(pre);
      assert ds == pre + [ds[|ds| - 1]];
    }
  }

  /** `pruneHandler` after decoding: each pair with a user and a path is
      deleted and counted whatever `Delete` returns. */
  method Prune(ds: seq<(string, string)>) returns (deleted: nat, calls: seq<(string, string)>)
    ensures calls == PruneTargets(ds) && deleted == |calls|
  {
    deleted := 0;
    calls := [];
    for i := 0 to |ds|
      invariant calls == PruneTargets(ds[..i]) && deleted == |calls|
    {
      assert ds[..i + 1][..i] == ds[..i];
      var (user, path) := ds[i];
      if user == "" || path == "" {
        continue;
      }
      calls := calls + [(user, path)];
      deleted := deleted + 1;
    }
    assert ds[..|ds|] == ds;
  }

  function UserSet(users: seq<string>): set<string>
  {
    set i | 0 <= i < |users| :: users[i]
  }

  /** The inventory item a listed name gives, if any: it must split into
      user and path, name a listed user when the filter is not empty, and
      open. */
  function ItemFor(name: string, allowed: set<string>, open: Opener, hash: Bytes -> string): (r: seq<InventoryItem>)
    ensures |r| <= 1
  {
    match CutFirst(name, '/')
    case None => []
    case Some((u, p)) =>
      if |allowed| > 0 && u !in allowed then []
      else
        match open(u, p)
        case None => []
        case Some(d) => [InventoryItem(u, p, |d|, hash(d), false)]
  }

  function InventoryOf(names: seq<string>, allowed: set<string>, open: Opener, hash: Bytes -> string): seq<InventoryItem>
  {
    if names == [] then [] else InventoryOf(names[..|names| - 1], allowed, open, hash) + ItemFor(names[|names| - 1], allowed, open, hash)
  }

  /** `buildStoreInventory`. */
  method BuildStoreInventory(listed: Result<seq<string>>, filterUsers: seq<string>, open: Opener, hash: Bytes -> string)
    returns (r: Result<seq<InventoryItem>>)
    ensures listed.Err? ==> r == Err(listed.error)
    ensures listed.Ok? ==> r == Ok(InventoryOf(listed.value, UserSet(filterUsers), open, hash))
  {
    if listed.Err? {
      return Err(listed.error);
    }
    var allowed: set<string> := {};
    for i := 0 to |filterUsers|
      invariant allowed == UserSet(filterUsers[..i])
    {
      assert filterUsers[..i + 1] == filterUsers[..i] + [filterUsers[i]];
      allowed := allowed + {filterUsers[i]};
    }
    assert filterUsers[..|filterUsers|] == filterUsers;
    var names := listed.value;
    var inv: seq<InventoryItem> := [];
    for i := 0 to |names|
      invariant inv == InventoryOf(names[..i], allowed, open, hash)
    {
      assert names[..i + 1][..i] == names[..i];
      var parts := CutFirst(names[i], '/');
      if parts.None? {
        continue;
      }
      var (user, p) := parts.value;
      if |allowed| > 0 && user !in allowed {
        continue;
      }
      var f := open(user, p);
      if f.None? {
        continue;
      }
      inv := inv + [InventoryItem(user, p, |f.value|, hash(f.value), false)];
    }
    assert names[..|names|] == names;
    return Ok(inv);
  }

  /** Every item comes from a listed `user/path` of an allowed user that
      opened: it is a file, with that blob's size and hash. */
  lemma {:induction false} InventoryItems(names: seq<string>, allowed: set<string>, open: Opener, hash: Bytes -> string, it: InventoryItem)
    requires it in InventoryOf(names, allowed, open, hash)
    ensures exists j :: 0 <= j < |names| && names[j] == it.user + "/" + it.path
    ensures |allowed| == 0 || it.user in allowed
    ensures open(it.user, it.path).Some? && !it.isDir
    ensures it.size == |open(it.user, it.path).value| && it.hash == hash(open(it.user, it.path).value)
  {
    var pre := names[..|names| - 1];
    var last := ItemFor(names[|names| - 1], allowed, open, hash);
    if it in InventoryOf(pre, allowed, open, hash) {
      InventoryItems(pre, allowed, open, hash, it);
      var j :| 0 <= j < |pre| && pre[j] == it.user + "/" + it.path;
      assert names[j] == pre[j];
    } else {
      assert it in last;
      var cut := CutFirst(names[|names| - 1], '/');
      assert cut.Some? && cut.value == (it.user, it.path);
    }
  }

  /** Conversely a listed `user/path` of an allowed user that opens, whose
      user has no `/`, is in the inventory. */
  lemma {:induction false} InventoryComplete(names: seq<string>, allowed: set<string>, open: Opener, hash: Bytes -> string, j: nat, u: string, p: string)
    requires j < |names| && names[j] == u + "/" + p && '/' !in u
    requires (|allowed| == 0 || u in allowed) && open(u, p).Some?
    ensures InventoryItem(u, p, |open(u, p).value|, hash(open(u, p).value), false) in InventoryOf(names, allowed, open, hash)
  {
    var pre := names[..|names| - 1];
    if j < |names| - 1 {
      assert pre[j] == names[j];
      InventoryComplete(pre, allowed, open, hash, j, u, p);
    } else {
      CutFirstJoin(u, p, '/');
      assert u + "/" + p == u + ['/'] + p;
    }
  }
}
