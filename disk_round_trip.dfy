/** Restoring a backup: the archive the disk store's `Backup` writes,
    restored into a store with nothing below its root, reproduces every
    listed file with its contents, as long as every name passes the
    sanitiser (no `..` anywhere in it, at most `MaxPathLen` bytes). */
module DiskRoundTrip {
  import opened Wrappers
  import opened Strings
  import opened Errors
  import opened Model
  import opened Paths
  import opened FileTree
  import opened Sanitize
  import opened DiskStore

  predicate Below(root: Path, q: Path)
  {
    |root| < |q| && q[..|root|] == root
  }

  /** The files strictly below the root with their contents. */
  function FilesUnder(t: Tree, root: Path): map<Path, Bytes>
  {
    map q | q in t && t[q].File? && Below(root, q) :: t[q].data
  }

  /** A partially restored tree: what lies below the root is a part of the
      backed-up tree. */
  predicate Partial(s: Tree, fs: Tree, root: Path)
  {
    && WellFormed(s) && IsDir(s, root)
    && forall q :: q in s && Below(root, q) ==> q in fs && s[q] == fs[q]
  }

  /** A backed-up name passes the sanitiser unchanged when it has no `..`
      and is short enough. */
  lemma {:induction false} NameClean(fs: Tree, root: Path, p: Path)
    requires WellFormed(fs) && IsDir(fs, root) && p in Listed(fs, root)
    requires !Contains(NameOf(root, p), "..") && Utf8Len(NameOf(root, p)) <= MaxPathLen
    ensures CleanRel(NameOf(root, p)) == Ok(NameOf(root, p))
  {
    assert root in fs ==> Rooted(fs, root);
    ListedAreFiles(fs, root, p);
    assert Rooted(fs, p);
    var n := NameOf(root, p);
    var rest := p[|root|..];
    assert IsSegment(rest[0]);
    SplitHead(n);
    PathNoSlash(rest);
    SplitJoin(rest);
    assert TrimPrefix(n, "./") == n;
  }

  /** No directory that restoring a listed file needs is a file yet. */
  lemma {:induction false} MkdirStepOk(fs: Tree, root: Path, p: Path, s: Tree)
    requires WellFormed(fs) && IsPath(root) && IsDir(fs, root) && p in Listed(fs, root)
    requires Partial(s, fs, root)
    ensures p != [] && IsPath(Parent(p)) && MkdirAll(s, Parent(p)).Ok?
  {
    ListedAreFiles(fs, root, p);
    assert root in fs ==> Rooted(fs, root);
    assert Rooted(fs, p);
    var d := Parent(p);
    forall i | 0 < i <= |d| ensures !IsFile(s, d[..i]) {
      assert d[..i] == p[..i];
      if i < |root| {
        AncestorsAreDirs(s, root, i);
        assert root[..i] == p[..i];
      } else if i == |root| {
        assert p[..i] == root;
      } else {
        AncestorsAreDirs(fs, p, i);
        assert Below(root, p[..i]);
      }
    }
    MkdirAllFails(s, d);
  }

  /** Adding directories changes no file below the root. */
  lemma {:induction false} FilesUnderDirs(s: Tree, s2: Tree, root: Path)
    requires forall q :: q in s ==> q in s2 && s2[q] == s[q]
    requires forall q :: q in s2 && q !in s ==> s2[q] == Dir
    ensures FilesUnder(s2, root) == FilesUnder(s, root)
  {
  }

  /** Writing a file below the root adds it to the files below the root. */
  lemma {:induction false} FilesUnderPut(s: Tree, p: Path, data: Bytes, root: Path)
    requires Below(root, p)
    ensures FilesUnder(s[p := File(data)], root) == FilesUnder(s, root)[p := data]
  {
  }

  /** The directories created on the way are directories of the backed-up tree. */
  lemma {:induction false} MkdirStepPartial(fs: Tree, root: Path, p: Path, s: Tree, s2: Tree)
    requires WellFormed(fs) && p in fs && p != [] && Partial(s, fs, root)
    requires WellFormed(s2) && IsDir(s2, Parent(p))
    requires forall q :: q in s ==> q in s2 && s2[q] == s[q]
    requires forall q :: q in s2 && q !in s ==> s2[q] == Dir && IsPrefix(q, Parent(p))
    ensures Partial(s2, fs, root) && FilesUnder(s2, root) == FilesUnder(s, root)
  {
    forall q | q in s2 && Below(root, q) ensures q in fs && s2[q] == fs[q] {
      if q !in s {
        assert q == p[..|q|];
        AncestorsAreDirs(fs, p, |q|);
      }
    }
    assert IsDir(s2, root) by {
      assert root != [] ==> root in s;
    }
    FilesUnderDirs(s, s2, root);
  }

  /** Writing the file itself keeps the tree partial and adds that file. */
  lemma {:induction false} WriteStep(fs: Tree, root: Path, p: Path, s2: Tree)
    requires WellFormed(fs) && IsPath(p) && p != [] && IsFile(fs, p) && Below(root, p)
    requires Partial(s2, fs, root) && IsDir(s2, Parent(p))
    ensures WriteFile(s2, p, fs[p].data).Ok?
    ensures Partial(WriteFile(s2, p, fs[p].data).value, fs, root)
    ensures FilesUnder(WriteFile(s2, p, fs[p].data).value, root) == FilesUnder(s2, root)[p := fs[p].data]
  {
    assert p in s2 ==> s2[p] == fs[p];
    var s3 := s2[p := File(fs[p].data)];
    assert s3 == s2[p := fs[p]];
    FilesUnderPut(s2, p, fs[p].data, root);
  }

  /** Restoring one more backed-up file keeps the tree partial and adds
      exactly that file. */
  lemma {:induction false} RestoreStep(fs: Tree, root: Path, p: Path, s: Tree)
    requires WellFormed(fs) && IsPath(root) && IsDir(fs, root) && p in Listed(fs, root)
    requires !Contains(NameOf(root, p), "..") && Utf8Len(NameOf(root, p)) <= MaxPathLen
    requires Partial(s, fs, root)
    ensures var o := RestoreOne(s, root, Entry(NameOf(root, p), false, fs[p].data, None));
            o.err.None? && Partial(o.fs, fs, root) && FilesUnder(o.fs, root) == FilesUnder(s, root)[p := fs[p].data]
  {
    NameClean(fs, root, p);
    NameLeadsBack(fs, root, p);
    ListedAreFiles(fs, root, p);
    MkdirStepOk(fs, root, p, s);
    var s2 := MkdirAll(s, Parent(p)).value;
    MkdirStepPartial(fs, root, p, s, s2);
    WriteStep(fs, root, p, s2);
  }

  lemma {:induction false} RestoreCons(s: Tree, root: Path, e: Entry, rest: seq<Entry>)
    requires WellFormed(s) && IsPath(root) && !e.isDir && RestoreOne(s, root, e).err.None?
    ensures RestoreEffect(s, root, [e] + rest, None) == RestoreEffect(RestoreOne(s, root, e).fs, root, rest, None)
  {
    assert ([e] + rest)[1..] == rest;
  }

  lemma {:induction false} CoverCons(fs: Tree, paths: seq<Path>)
    requires paths != [] && forall i :: 0 <= i < |paths| ==> paths[i] in fs && fs[paths[i]].File?
    ensures (map q | q in paths :: fs[q].data) == (map q | q in paths[1..] :: fs[q].data)[paths[0] := fs[paths[0]].data]
  {
    assert forall q :: q in paths <==> q == paths[0] || q in paths[1..];
  }

  lemma {:induction false} MapShift(a: map<Path, Bytes>, m: map<Path, Bytes>, p: Path, d: Bytes)
    requires p in m ==> m[p] == d
    ensures a[p := d] + m == a + m[p := d]
  {
  }

  lemma {:induction false} ListedFiles(fs: Tree, root: Path, paths: seq<Path>)
    requires forall i :: 0 <= i < |paths| ==> paths[i] in Listed(fs, root)
    ensures forall i :: 0 <= i < |paths| ==> paths[i] in fs && fs[paths[i]].File?
  {
    forall i | 0 <= i < |paths| ensures paths[i] in fs && fs[paths[i]].File? {
      ListedAreFiles(fs, root, paths[i]);
    }
  }

  /** What restoring a run achieves from a partial tree. */
  predicate RunRestores(fs: Tree, root: Path, paths: seq<Path>, s: Tree)
    requires WellFormed(s) && IsPath(root)
    requires forall i :: 0 <= i < |paths| ==> paths[i] in fs && fs[paths[i]].File?
  {
    var o := RestoreEffect(s, root, Entries(fs, root, paths), None);
    && o.err.None? && Partial(o.fs, fs, root)
    && FilesUnder(o.fs, root) == FilesUnder(s, root) + map p | p in paths :: fs[p].data
  }

  lemma {:induction false} EntriesCons(fs: Tree, root: Path, paths: seq<Path>)
    requires paths != [] && forall i :: 0 <= i < |paths| ==> paths[i] in fs && fs[paths[i]].File?
    ensures Entries(fs, root, paths) == [Entry(NameOf(root, paths[0]), false, fs[paths[0]].data, None)] + Entries(fs, root, paths[1..])
  {
  }

  lemma {:induction false} EmptyBelow(blank: Tree, root: Path)
    requires forall q :: q in blank ==> !Below(root, q)
    ensures FilesUnder(blank, root) == map[]
  {
  }

  lemma {:induction false} UnionEmpty(a: map<Path, Bytes>, b: map<Path, Bytes>)
    requires a == map[]
    ensures a + b == b
  {
  }

  /** The first file restored, the rest of the run completes the restore. */
  lemma {:induction false} RunCons(fs: Tree, root: Path, paths: seq<Path>, s: Tree, s1: Tree)
    requires IsPath(root) && WellFormed(s) && WellFormed(s1) && paths != []
    requires forall i :: 0 <= i < |paths| ==> paths[i] in fs && fs[paths[i]].File?
    requires RestoreOne(s, root, Entry(NameOf(root, paths[0]), false, fs[paths[0]].data, None)) == Outcome(s1, None)
    requires FilesUnder(s1, root) == FilesUnder(s, root)[paths[0] := fs[paths[0]].data]
    requires RunRestores(fs, root, paths[1..], s1)
    ensures RunRestores(fs, root, paths, s)
  {
    var p := paths[0];
    var e := Entry(NameOf(root, p), false, fs[p].data, None);
    EntriesCons(fs, root, paths);
    RestoreCons(s, root, e, Entries(fs, root, paths[1..]));
    CoverCons(fs, paths);
    MapShift(FilesUnder(s, root), map q | q in paths[1..] :: fs[q].data, p, fs[p].data);
  }

  lemma {:induction false} RunEmpty(fs: Tree, root: Path, s: Tree)
    requires WellFormed(s) && IsPath(root) && Partial(s, fs, root)
    ensures RunRestores(fs, root, [], s)
  {
    assert FilesUnder(s, root) + map[] == FilesUnder(s, root);
  }

  /** Restoring a run of backed-up files adds exactly those files. */
  lemma {:induction false} RestoreRun(fs: Tree, root: Path, paths: seq<Path>, s: Tree)
    requires WellFormed(fs) && IsPath(root) && IsDir(fs, root)
    requires forall i :: 0 <= i < |paths| ==> paths[i] in Listed(fs, root)
    requires forall p :: p in Listed(fs, root) ==> !Contains(NameOf(root, p), "..") && Utf8Len(NameOf(root, p)) <= MaxPathLen
    requires Partial(s, fs, root)
    ensures forall i :: 0 <= i < |paths| ==> paths[i] in fs && fs[paths[i]].File?
    ensures RunRestores(fs, root, paths, s)
    decreases |paths|
  {
    ListedFiles(fs, root, paths);
    if paths == [] {
      RunEmpty(fs, root, s);
    } else {
      var p := paths[0];
      RestoreStep(fs, root, p, s);
      var s1 := RestoreOne(s, root, Entry(NameOf(root, p), false, fs[p].data, None)).fs;
      RestoreRun(fs, root, paths[1..], s1);
      RunCons(fs, root, paths, s, s1);
    }
  }

  /** The files an enumeration covers are the files below the root but the
      metadata file. */
  lemma {:induction false} CoverMap(fs: Tree, root: Path, paths: seq<Path>)
    requires WellFormed(fs) && IsDir(fs, root) && Enumerates(paths, fs, root)
    requires forall i :: 0 <= i < |paths| ==> paths[i] in fs && fs[paths[i]].File?
    ensures (map p | p in paths :: fs[p].data) == FilesUnder(fs, root) - {root + [MetaName]}
  {
    assert root in fs ==> Rooted(fs, root);
    assert !IsFile(fs, root);
    var want := FilesUnder(fs, root) - {root + [MetaName]};
    var got := map p | p in paths :: fs[p].data;
    forall q ensures q in got <==> q in want {
      assert q in want <==> q in Listed(fs, root);
    }
  }

  /** `Restore(Backup())` into a store with nothing below its root gives back
      every file below the root except the metadata file, with its contents. */
  lemma {:induction false} RestoreOfBackup(fs: Tree, root: Path, paths: seq<Path>, blank: Tree)
    requires WellFormed(fs) && IsPath(root) && IsDir(fs, root) && Enumerates(paths, fs, root)
    requires forall p :: p in Listed(fs, root) ==> !Contains(NameOf(root, p), "..") && Utf8Len(NameOf(root, p)) <= MaxPathLen
    requires WellFormed(blank) && IsDir(blank, root) && forall q :: q in blank ==> !Below(root, q)
    ensures forall i :: 0 <= i < |paths| ==> paths[i] in fs && fs[paths[i]].File?
    ensures var o := RestoreEffect(blank, root, Entries(fs, root, paths), None);
            o.err.None? && FilesUnder(o.fs, root) == FilesUnder(fs, root) - {root + [MetaName]}
  {
    RestoreRun(fs, root, paths, blank);
    EmptyBelow(blank, root);
    CoverMap(fs, root, paths);
    UnionEmpty(FilesUnder(blank, root), map p | p in paths :: fs[p].data);
  }

  /** Directory entries in an archive are skipped. */
  lemma {:induction false} RestoreSkipsDirs(s: Tree, root: Path, e: Entry, rest: seq<Entry>, failure: Option<Error>)
    requires WellFormed(s) && IsPath(root) && e.isDir
    ensures RestoreEffect(s, root, [e] + rest, failure) == RestoreEffect(s, root, rest, failure)
  {
    assert ([e] + rest)[1..] == rest;
  }

  /** The whole entry name is sanitised, so a stored file whose name holds
      two dots cannot be restored: the restore stops there, unchanged. */
  lemma {:induction false} RestoreRefusesDots(s: Tree, root: Path, data: Bytes, rest: seq<Entry>)
    requires WellFormed(s) && IsPath(root)
    ensures RestoreEffect(s, root, [Entry("u/a..b", false, data, None)] + rest, None) == Outcome(s, Some(PathTraversal))
  {
    DottedNameRefused();
  }

  /** An archive cut short inside a body stops the restore there with the
      read error, the file holding the bytes that arrived, as `io.Copy`
      leaves it; the entries after it are never reached. */
  lemma {:induction false} RestoreKeepsPartial(s: Tree, root: Path, e: Entry, rest: seq<Entry>, failure: Option<Error>)
    requires WellFormed(s) && IsPath(root) && !e.isDir && e.cut.Some? && CleanRel(e.name).Ok?
    requires Creatable(s, Resolve(root, Split(CleanRel(e.name).value)))
    ensures var o := RestoreEffect(s, root, [e] + rest, failure);
            o.err == e.cut && Files(o.fs) == Files(s)[Resolve(root, Split(CleanRel(e.name).value)) := e.data]
  {
    assert ([e] + rest)[0] == e;
    RestoreOneFiles(s, root, e);
  }

  lemma DottedNameRefused()
    ensures CleanRel("u/a..b") == Err(PathTraversal)
  {
    var n := "u/a..b";
    assert n[3..5] == "..";
    ContainsAt(n, "..", 3);
    assert n[..2][0] == 'u';
    Refused(n);
  }
}
