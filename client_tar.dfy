/** The client's archive code: building the publish archive from the local
    files of each configured user, and unpacking an install archive into
    the users' homes. Both `transfer/tarutil.go` and `cli/tarutil.go` carry
    this logic, line for line. A user's home is the configured string,
    cleaned and taken as absolute. */
module ClientTar {
  import opened Wrappers
  import opened Strings
  import opened Errors
  import opened Model
  import opened Paths
  import opened FileTree

  /** `filepath.Join(home, rel)` for a user's home. */
  function HomePath(home: string, rel: string): (p: Path)
    ensures IsPath(p)
  {
    JoinPath(Abs(home), rel)
  }

  /** The archive entry change `j` becomes, if any: an Add or Modify of a
      configured user whose file exists and is not a directory, and whose
      open and header write succeed (`ok(j)`). */
  function PublishEntry(c: Change, homes: map<string, string>, t: Tree, ok: bool): (e: Option<Entry>)
  {
    if c.kind != Add && c.kind != Modify then None
    else if c.user !in homes then None
    else
      var abs := HomePath(homes[c.user], c.path);
      if abs !in t || t[abs].Dir? then None
      else if !ok then None
      else Some(Entry(c.user + "/" + c.path, false, t[abs].data, None))
  }

  /** The entries built from the first `n` changes, in order. */
  function PublishEntries(changes: seq<Change>, homes: map<string, string>, t: Tree, ok: nat -> bool, n: nat): seq<Entry>
    requires n <= |changes|
  {
    if n == 0 then []
    else
      PublishEntries(changes, homes, t, ok, n - 1)
        + (var e := PublishEntry(changes[n - 1], homes, t, ok(n - 1)); if e.Some? then [e.value] else [])
  }

  /** Every entry stems from an Add or Modify of a configured user, is named
      `user/path`, and carries that user's regular file. */
  lemma {:induction false} PublishedEntries(changes: seq<Change>, homes: map<string, string>, t: Tree, ok: nat -> bool, n: nat, e: Entry)
    requires n <= |changes| && e in PublishEntries(changes, homes, t, ok, n)
    ensures exists j :: 0 <= j < n && ok(j) && PublishEntry(changes[j], homes, t, true) == Some(e)
    ensures !e.isDir
  {
    if e !in PublishEntries(changes, homes, t, ok, n - 1) {
      assert PublishEntry(changes[n - 1], homes, t, true) == Some(e);
    } else {
      PublishedEntries(changes, homes, t, ok, n - 1, e);
    }
  }

  /** Conversely every Add or Modify of a configured user's regular file
      whose header is written is in the archive, under `user/path`. */
  lemma {:induction false} PublishComplete(changes: seq<Change>, homes: map<string, string>, t: Tree, ok: nat -> bool, n: nat, j: nat)
    requires j < n <= |changes| && ok(j)
    requires var c := changes[j];
             && (c.kind == Add || c.kind == Modify) && c.user in homes
             && IsFile(t, HomePath(homes[c.user], c.path))
    ensures var c := changes[j];
            Entry(c.user + "/" + c.path, false, t[HomePath(homes[c.user], c.path)].data, None) in PublishEntries(changes, homes, t, ok, n)
  {
    if j < n - 1 {
      PublishComplete(changes, homes, t, ok, n - 1, j);
    }
  }

  /** Add, Modify, and nothing else, become entries. */
  lemma {:induction false} OnlyAddAndModify(c: Change, homes: map<string, string>, t: Tree, ok: bool)
    requires PublishEntry(c, homes, t, ok).Some?
    ensures c.kind == Add || c.kind == Modify
    ensures c.user in homes && IsFile(t, HomePath(homes[c.user], c.path))
    ensures PublishEntry(c, homes, t, ok).value.name == c.user + "/" + c.path
  {
  }

  /** The server splits an entry name at its first `/`: that recovers the
      user and path whenever the user name has no `/`. */
  lemma {:induction false} NameSplitsBack(c: Change)
    requires '/' !in c.user
    ensures CutFirst(c.user + "/" + c.path, '/') == Some((c.user, c.path))
  {
    CutFirstJoin(c.user, c.path, '/');
    assert c.user + "/" + c.path == c.user + ['/'] + c.path;
  }

  /** Where an install entry goes, if anywhere: not a directory, a name that
      splits at its first `/`, a configured user. */
  function Target(e: Entry, homes: map<string, string>): (p: Option<Path>)
    ensures p.Some? ==> IsPath(p.value)
  {
    if e.isDir then None
    else
      match CutFirst(e.name, '/')
      case None => None
      case Some((u, rel)) => if u !in homes then None else Some(HomePath(homes[u], rel))
  }

  /** The targets of a whole stream, entry by entry. */
  function Targets(es: seq<Entry>, homes: map<string, string>): (ts: seq<Option<Path>>)
    ensures |ts| == |es|
    ensures forall k :: 0 <= k < |es| ==> ts[k] == Target(es[k], homes)
  {
    seq(|es|, k requires 0 <= k < |es| => Target(es[k], homes))
  }

  /** What one install entry does to the tree. */
  datatype Outcome = Skipped | Wrote(next: Tree) | Stopped(at: Tree, error: Error)

  /** One entry of the install loop, with its target: the target's
      directory is created, then its file (empty), then the body is copied
      in. A body cut short (`cut`) leaves the bytes delivered before the
      read failed in the file, and the loop stops with that failure. */
  function Install(t: Tree, target: Option<Path>, data: Bytes, cut: Option<Error>): (o: Outcome)
    requires WellFormed(t) && (target.Some? ==> IsPath(target.value))
    ensures o.Skipped? <==> target.None?
    ensures o.Wrote? ==> WellFormed(o.next)
    ensures o.Stopped? ==> WellFormed(o.at)
  {
    if target.None? then Skipped
    else
      var abs := target.value;
      var made := MkdirAll(t, DirOf(abs));
      if made.Err? then Stopped(t, made.error)
      else
        var created := WriteFile(made.value, abs, []);
        if created.Err? then Stopped(made.value, created.error)
        else
          var filled := WriteFile(created.value, abs, data);
          if cut.Some? then Stopped(filled.value, cut.value) else Wrote(filled.value)
  }

  /** An entry with a target is written exactly when its file can be
      created and its body is complete; a file that was created holds the
      bytes delivered, even when the body was cut short, and nothing else
      changes; otherwise the loop stops with no file changed. */
  lemma {:induction false} InstallFiles(t: Tree, target: Option<Path>, data: Bytes, cut: Option<Error>)
    requires WellFormed(t) && target.Some? && IsPath(target.value)
    ensures var o := Install(t, target, data, cut);
            var abs := target.value;
            && (o.Wrote? <==> Creatable(t, abs) && cut.None?)
            && (o.Wrote? ==> Files(o.next) == Files(t)[abs := data])
            && (o.Stopped? && Creatable(t, abs) ==> Some(o.error) == cut && Files(o.at) == Files(t)[abs := data])
            && (!Creatable(t, abs) ==> o.Stopped? && Files(o.at) == Files(t))
  {
    var abs := target.value;
    CreateSteps(t, abs, []);
    var made := MkdirAll(t, DirOf(abs));
    if made.Ok? {
      var created := WriteFile(made.value, abs, []);
      if created.Ok? {
        assert created.value[abs := File(data)] == made.value[abs := File(data)];
        FilesUpdate(made.value, abs, data);
      }
    }
  }

  /** Targets that are paths. */
  predicate PathTargets(ts: seq<Option<Path>>)
  {
    forall k :: 0 <= k < |ts| && ts[k].Some? ==> IsPath(ts[k].value)
  }

  /** The install loop from entry `i` on, with the entries' targets `ts`,
      after `w` files: the final tree, the count and the error. The first
      failure ends the loop with what it had. */
  function ApplyFrom(t: Tree, es: seq<Entry>, ts: seq<Option<Path>>, i: nat, failure: Option<Error>,
                     w: nat): (r: (Tree, nat, Option<Error>))
    requires WellFormed(t) && |ts| == |es| && PathTargets(ts) && i <= |es|
    ensures WellFormed(r.0)
    decreases |es| - i, 1
  {
    if i == |es| then (t, w, failure) else ApplyEntry(t, es, ts, i, failure, w)
  }

  /** Entry `i` of the install loop and the rest after it. */
  function ApplyEntry(t: Tree, es: seq<Entry>, ts: seq<Option<Path>>, i: nat, failure: Option<Error>,
                      w: nat): (r: (Tree, nat, Option<Error>))
    requires WellFormed(t) && |ts| == |es| && PathTargets(ts) && i < |es|
    ensures WellFormed(r.0)
    decreases |es| - i, 0
  {
    match Install(t, ts[i], es[i].data, es[i].cut)
    case Skipped => ApplyFrom(t, es, ts, i + 1, failure, w)
    case Stopped(at, e) => (at, w, Some(e))
    case Wrote(next) => ApplyFrom(next, es, ts, i + 1, failure, w + 1)
  }

  /** The writes a complete install makes, in order. */
  function Accepted(es: seq<Entry>, ts: seq<Option<Path>>, i: nat): seq<(Path, Bytes)>
    requires |ts| == |es| && i <= |es|
    decreases |es| - i
  {
    if i == |es| then []
    else (if ts[i].Some? then [(ts[i].value, es[i].data)] else []) + Accepted(es, ts, i + 1)
  }

  /** Writing `ws` over a file map, in order, a later write to a path
      replacing an earlier one. */
  function Overlay(m: map<Path, Bytes>, ws: seq<(Path, Bytes)>): map<Path, Bytes>
    decreases |ws|
  {
    if ws == [] then m else Overlay(m[ws[0].0 := ws[0].1], ws[1..])
  }

  /** A clean install read the whole stream and wrote every accepted entry. */
  lemma {:induction false} ApplyCounts(t: Tree, es: seq<Entry>, ts: seq<Option<Path>>, i: nat, failure: Option<Error>,
                                       w: nat)
    requires WellFormed(t) && |ts| == |es| && PathTargets(ts) && i <= |es|
    requires ApplyFrom(t, es, ts, i, failure, w).2.None?
    ensures ApplyFrom(t, es, ts, i, failure, w).1 == w + |Accepted(es, ts, i)|
    ensures failure.None?
    decreases |es| - i
  {
    if i == |es| {
      assert ApplyFrom(t, es, ts, i, failure, w) == (t, w, failure);
      assert Accepted(es, ts, i) == [];
    } else {
      var o := Install(t, ts[i], es[i].data, es[i].cut);
      if o.Skipped? {
        ApplyCounts(t, es, ts, i + 1, failure, w);
        assert Accepted(es, ts, i) == Accepted(es, ts, i + 1);
      } else if o.Wrote? {
        ApplyCounts(o.next, es, ts, i + 1, failure, w + 1);
        assert |Accepted(es, ts, i)| == 1 + |Accepted(es, ts, i + 1)|;
      }
    }
  }

  /** A clean install writes every accepted entry, and nothing else, over the
      files already there. */
  lemma {:induction false} ApplyWrites(t: Tree, es: seq<Entry>, ts: seq<Option<Path>>, i: nat, failure: Option<Error>,
                                       w: nat)
    requires WellFormed(t) && |ts| == |es| && PathTargets(ts) && i <= |es|
    requires ApplyFrom(t, es, ts, i, failure, w).2.None?
    ensures Files(ApplyFrom(t, es, ts, i, failure, w).0) == Overlay(Files(t), Accepted(es, ts, i))
    decreases |es| - i
  {
    if i == |es| {
      assert ApplyFrom(t, es, ts, i, failure, w) == (t, w, failure);
      assert Accepted(es, ts, i) == [];
    } else {
      var o := Install(t, ts[i], es[i].data, es[i].cut);
      if o.Skipped? {
        ApplyWrites(t, es, ts, i + 1, failure, w);
        assert Accepted(es, ts, i) == Accepted(es, ts, i + 1);
      } else if o.Wrote? {
        ApplyWrites(o.next, es, ts, i + 1, failure, w + 1);
        InstallFiles(t, ts[i], es[i].data, es[i].cut);
        var ws := Accepted(es, ts, i);
        assert ws == [(ts[i].value, es[i].data)] + Accepted(es, ts, i + 1);
        assert ws[1..] == Accepted(es, ts, i + 1);
      }
    }
  }

  /** However the install ends, it wrote at most the accepted entries; a
      failure returns the count reached so far. */
  lemma {:induction false} ApplyStopsShort(t: Tree, es: seq<Entry>, ts: seq<Option<Path>>, i: nat, failure: Option<Error>,
                                           w: nat)
    requires WellFormed(t) && |ts| == |es| && PathTargets(ts) && i <= |es|
    ensures w <= ApplyFrom(t, es, ts, i, failure, w).1 <= w + |Accepted(es, ts, i)|
    decreases |es| - i
  {
    if i == |es| {
      assert ApplyFrom(t, es, ts, i, failure, w) == (t, w, failure);
      assert Accepted(es, ts, i) == [];
    } else {
      var o := Install(t, ts[i], es[i].data, es[i].cut);
      if o.Skipped? {
        ApplyStopsShort(t, es, ts, i + 1, failure, w);
        assert Accepted(es, ts, i) == Accepted(es, ts, i + 1);
      } else if o.Wrote? {
        ApplyStopsShort(o.next, es, ts, i + 1, failure, w + 1);
        assert |Accepted(es, ts, i)| == 1 + |Accepted(es, ts, i + 1)|;
      }
    }
  }

  /** An entry cut short inside its body ends the install with the read
      error and the count reached so far, its file holding the bytes that
      arrived. */
  lemma {:induction false} ApplyCutShort(t: Tree, es: seq<Entry>, ts: seq<Option<Path>>, i: nat, failure: Option<Error>, w: nat)
    requires WellFormed(t) && |ts| == |es| && PathTargets(ts) && i < |es|
    requires ts[i].Some? && es[i].cut.Some? && Creatable(t, ts[i].value)
    ensures var r := ApplyFrom(t, es, ts, i, failure, w);
            Files(r.0) == Files(t)[ts[i].value := es[i].data] && r.1 == w && r.2 == es[i].cut
  {
    InstallFiles(t, ts[i], es[i].data, es[i].cut);
  }

  /** The client's local filesystem. */
  class Local {
    var fs: Tree

    constructor(t: Tree)
      requires WellFormed(t)
      ensures fs == t
    {
      fs := t;
    }

    /** `BuildPublishTar`: the archive entries, their count, and the
        writer's close error. */
    method BuildPublishTar(homes: map<string, string>, changes: seq<Change>, ok: nat -> bool, closeErr: Option<Error>)
      returns (entries: seq<Entry>, count: nat, err: Option<Error>)
      ensures entries == PublishEntries(changes, homes, fs, ok, |changes|)
      ensures count == |entries| && err == closeErr
    {
      entries := [];
      count := 0;
      for j := 0 to |changes|
        invariant entries == PublishEntries(changes, homes, fs, ok, j) && count == |entries|
      {
        var ch := changes[j];
        if ch.kind != Add && ch.kind != Modify {
          continue;
        }
        if ch.user !in homes {
          continue;
        }
        var abs := HomePath(homes[ch.user], ch.path);
        if abs !in fs || fs[abs].Dir? {
          continue;
        }
        if !ok(j) {
          continue;
        }
        entries := entries + [Entry(ch.user + "/" + ch.path, false, fs[abs].data, None)];
        count := count + 1;
      }
      err := closeErr;
    }

    /** `ApplyInstallTar`. */
    method ApplyInstallTar(homes: map<string, string>, stream: TarStream)
      returns (written: nat, err: Option<Error>)
      requires WellFormed(fs)
      modifies this
      ensures (fs, written, err) == ApplyFrom(old(fs), stream.entries, Targets(stream.entries, homes), 0, stream.failure, 0)
    {
      var es := stream.entries;
      ghost var ts := Targets(es, homes);
      ghost var whole := ApplyFrom(fs, es, ts, 0, stream.failure, 0);
      written := 0;
      var i := 0;
      while i < |es|
        invariant i <= |es| && WellFormed(fs)
        invariant ApplyFrom(fs, es, ts, i, stream.failure, written) == whole
        decreases |es| - i
      {
        var e := es[i];
        assert whole == ApplyEntry(fs, es, ts, i, stream.failure, written);
        if e.isDir {
          i := i + 1;
          continue;
        }
        var parts := CutFirst(e.name, '/');
        if parts.None? {
          i := i + 1;
          continue;
        }
        var (user, rel) := parts.value;
        if user !in homes {
          i := i + 1;
          continue;
        }
        var abs := HomePath(homes[user], rel);
        assert ts[i] == Target(e, homes) == Some(abs);
        ghost var o := Install(fs, ts[i], e.data, e.cut);
        var made := MkdirAll(fs, DirOf(abs));
        if made.Err? {
          assert o == Stopped(fs, made.error);
          return written, Some(made.error);
        }
        var created := WriteFile(made.value, abs, []);
        if created.Err? {
          assert o == Stopped(made.value, created.error);
          fs := made.value;
          return written, Some(created.error);
        }
        var filled := WriteFile(created.value, abs, e.data);
        if e.cut.Some? {
          assert o == Stopped(filled.value, e.cut.value);
          fs := filled.value;
          return written, e.cut;
        }
        assert o == Wrote(filled.value);
        fs := filled.value;
        assert whole == ApplyFrom(fs, es, ts, i + 1, stream.failure, written + 1);
        written := written + 1;
        i := i + 1;
      }
      err := stream.failure;
    }
  }
}
