/** The disk store: blobs kept as files at `root/<user>/<relative path>` in
    the filesystem tree. Users are not validated, so a user such as `..`
    reaches outside the root, as in the source. */
module DiskStore {
  import opened Wrappers
  import opened Strings
  import opened Errors
  import opened Model
  import opened Paths
  import opened FileTree
  import opened Sanitize

  /** A filesystem after an operation, with the error it returned. */
  datatype Outcome = Outcome(fs: Tree, err: Option<Error>)

  /** The operational-metadata file the server may keep at the root. */
  const MetaName := "_meta.json"

  /** The cleaned absolute form of the configured root, relative roots being
      taken from the working directory. */
  function RootPath(cwd: Path, s: string): (p: Path)
    requires IsPath(cwd)
    ensures IsPath(p)
  {
    Resolve(if HasPrefix(s, "/") then [] else cwd, Split(s))
  }

  /** `filepath.Join(root, user, rel)`. */
  function BlobPath(root: Path, user: string, clean: string): (p: Path)
    requires IsPath(root)
    ensures IsPath(p)
  {
    JoinLast(root, Split(user), clean);
    Resolve(root, Split(user) + Split(clean))
  }

  /** `filepath.Join(root, user, filepath.Dir(rel))`. */
  function BlobDir(root: Path, user: string, clean: string): (p: Path)
    requires IsPath(root)
    ensures IsPath(p)
  {
    JoinLast(root, Split(user), clean);
    Resolve(root, Split(user) + DirParts(clean))
  }

  /** An accepted path either names a file directly inside its directory or,
      ending in `/` or `/.`, the directory itself. */
  lemma {:induction false} BlobPlacement(root: Path, user: string, rel: string)
    requires IsPath(root) && CleanRel(rel).Ok?
    ensures var clean := CleanRel(rel).value;
            var p, d := BlobPath(root, user, clean), BlobDir(root, user, clean);
            (IsSegment(Base(clean)) && p == d + [Base(clean)]) || (!IsSegment(Base(clean)) && p == d)
  {
    var clean := CleanRel(rel).value;
    NoDotDotPart(clean);
    JoinLast(root, Split(user), clean);
    assert Base(clean) == Split(clean)[|Split(clean)| - 1];
  }

  /** `Save`: sanitise, create the directory, copy the reader into a temporary
      file there and rename it over the target. A failed copy removes the
      temporary file, so only the created directories remain. */
  function SaveEffect(fs: Tree, root: Path, user: string, rel: string, r: Reader): (o: Outcome)
    requires WellFormed(fs) && IsPath(root)
    ensures WellFormed(o.fs)
  {
    match CleanRel(rel)
    case Err(e) => Outcome(fs, Some(e))
    case Ok(clean) =>
      match MkdirAll(fs, BlobDir(root, user, clean))
      case Err(e) => Outcome(fs, Some(e))
      case Ok(fs2) =>
        if r.failure.Some? then Outcome(fs2, r.failure)
        else
          match WriteFile(fs2, BlobPath(root, user, clean), r.data)
          case Err(e) => Outcome(fs2, Some(e))
          case Ok(fs3) => Outcome(fs3, None)
  }

  /** What a save does to the stored files: on success exactly the target
      holds the new bytes; on any failure, including a failed copy, no file
      changes. */
  lemma {:induction false} SaveFiles(fs: Tree, root: Path, user: string, rel: string, r: Reader)
    requires WellFormed(fs) && IsPath(root)
    ensures var o := SaveEffect(fs, root, user, rel, r);
            o.err.None? ==>
              (CleanRel(rel).Ok? && r.failure.None? &&
               Files(o.fs) == Files(fs)[BlobPath(root, user, CleanRel(rel).value) := r.data])
    ensures SaveEffect(fs, root, user, rel, r).err.Some? ==> Files(SaveEffect(fs, root, user, rel, r).fs) == Files(fs)
    ensures CleanRel(rel).Err? ==> SaveEffect(fs, root, user, rel, r) == Outcome(fs, Some(CleanRel(rel).error))
    ensures r.failure.Some? ==> SaveEffect(fs, root, user, rel, r).err.Some?
  {
    var o := SaveEffect(fs, root, user, rel, r);
    if CleanRel(rel).Ok? {
      var clean := CleanRel(rel).value;
      var m := MkdirAll(fs, BlobDir(root, user, clean));
      if m.Ok? && r.failure.None? {
        var p := BlobPath(root, user, clean);
        var w := WriteFile(m.value, p, r.data);
        if w.Ok? {
          FilesUpdate(m.value, p, r.data);
          assert o.fs == w.value;
        } else {
          assert o.fs == m.value;
        }
      } else if m.Ok? {
        assert o.fs == m.value;
      }
    }
  }

  /** A save succeeds exactly when the path is accepted, no directory on the
      way is a file, the reader ends cleanly, and the path names a file that
      is not an existing directory. */
  lemma {:induction false} SaveSucceeds(fs: Tree, root: Path, user: string, rel: string, r: Reader)
    requires WellFormed(fs) && IsPath(root)
    ensures SaveEffect(fs, root, user, rel, r).err.None? <==>
      && CleanRel(rel).Ok?
      && var clean := CleanRel(rel).value;
         var d := BlobDir(root, user, clean);
         && (forall i :: 0 < i <= |d| ==> !IsFile(fs, d[..i]))
         && r.failure.None?
         && IsSegment(Base(clean))
         && !IsDir(fs, BlobPath(root, user, clean))
  {
    if CleanRel(rel).Ok? {
      var clean := CleanRel(rel).value;
      BlobPlacement(root, user, rel);
      PlacedSaveSucceeds(fs, BlobDir(root, user, clean), BlobPath(root, user, clean), Base(clean), r);
    }
  }

  /** The directory-and-write part of a save, for a target placed in its
      directory as `BlobPlacement` says. */
  lemma {:induction false} PlacedSaveSucceeds(fs: Tree, d: Path, p: Path, base: string, r: Reader)
    requires WellFormed(fs) && IsPath(d) && IsPath(p)
    requires (IsSegment(base) && p == d + [base]) || (!IsSegment(base) && p == d)
    ensures (&& MkdirAll(fs, d).Ok? && r.failure.None?
             && WriteFile(MkdirAll(fs, d).value, p, r.data).Ok?) <==>
      && (forall i :: 0 < i <= |d| ==> !IsFile(fs, d[..i]))
      && r.failure.None?
      && IsSegment(base)
      && !IsDir(fs, p)
  {
    MkdirAllFails(fs, d);
    var m := MkdirAll(fs, d);
    if m.Ok? && IsSegment(base) {
      assert p !in m.value - fs.Keys ==> (p in m.value <==> p in fs);
      assert p in m.value && p !in fs ==> IsPrefix(p, d);
      assert |p| > |d|;
    }
  }

  /** `Open`: the node `filepath.Join(root, user, rel)` names. */
  function OpenEffect(fs: Tree, root: Path, user: string, rel: string): (r: Result<Node>)
    requires IsPath(root)
    ensures CleanRel(rel).Err? ==> r == Err(CleanRel(rel).error)
    ensures CleanRel(rel).Ok? ==> r == Open(fs, BlobPath(root, user, CleanRel(rel).value))
  {
    match CleanRel(rel)
    case Err(e) => Err(e)
    case Ok(clean) => Open(fs, BlobPath(root, user, clean))
  }

  /** Save then Open gives the saved bytes. */
  lemma {:induction false} SaveOpen(fs: Tree, root: Path, user: string, rel: string, data: Bytes)
    requires WellFormed(fs) && IsPath(root)
    ensures var o := SaveEffect(fs, root, user, rel, Reader(data, None));
            o.err.None? ==> OpenEffect(o.fs, root, user, rel) == Ok(File(data))
  {
    var o := SaveEffect(fs, root, user, rel, Reader(data, None));
    if o.err.None? {
      var clean := CleanRel(rel).value;
      var p := BlobPath(root, user, clean);
      var m := MkdirAll(fs, BlobDir(root, user, clean));
      assert m.Ok? && o.fs == m.value[p := File(data)];
      assert Open(o.fs, p) == Ok(File(data));
    }
  }

  /** `Delete`: removes the file `filepath.Join(root, user, rel)` names. */
  function DeleteEffect(fs: Tree, root: Path, user: string, rel: string): (o: Outcome)
    requires WellFormed(fs) && IsPath(root)
    ensures WellFormed(o.fs)
  {
    match CleanRel(rel)
    case Err(e) => Outcome(fs, Some(e))
    case Ok(clean) =>
      match Remove(fs, BlobPath(root, user, clean))
      case Err(e) => Outcome(fs, Some(e))
      case Ok(fs2) => Outcome(fs2, None)
  }

  /** Deleting removes that entry and nothing else; a missing file is an error. */
  lemma {:induction false} DeleteOnly(fs: Tree, root: Path, user: string, rel: string)
    requires WellFormed(fs) && IsPath(root)
    ensures var o := DeleteEffect(fs, root, user, rel);
            && (o.err.None? ==> CleanRel(rel).Ok? && o.fs == fs - {BlobPath(root, user, CleanRel(rel).value)})
            && (o.err.Some? ==> o.fs == fs)
            && (CleanRel(rel).Ok? && BlobPath(root, user, CleanRel(rel).value) !in fs ==> o.err.Some?)
            && (CleanRel(rel).Ok? && IsFile(fs, BlobPath(root, user, CleanRel(rel).value)) ==>
                  o.err.None? && Files(o.fs) == Files(fs) - {BlobPath(root, user, CleanRel(rel).value)})
  {
    if CleanRel(rel).Ok? {
      var p := BlobPath(root, user, CleanRel(rel).value);
      if IsFile(fs, p) {
        assert Files(fs - {p}) == Files(fs) - {p};
      }
    }
  }

  /** `filepath.Rel(root, p)` for a path at or below the root: the segments
      after the root, or `.` for the root itself. */
  function NameOf(root: Path, p: Path): string
  {
    if |root| < |p| then JoinSlash(p[|root|..]) else "."
  }

  /** The files `List` visits: the root itself when it is a file, otherwise
      every file below it except the root-level metadata file. */
  function Listed(fs: Tree, root: Path): (ps: set<Path>)
  {
    if IsFile(fs, root) then {root}
    else set p | p in FilesBelow(fs, root) && p != root + [MetaName]
  }

  /** The names `List` reports. */
  function ListNames(fs: Tree, root: Path): (names: set<string>)
  {
    set p | p in Listed(fs, root) :: NameOf(root, p)
  }

  /** Distinct listed files have distinct names. */
  lemma {:induction false} NameInjective(fs: Tree, root: Path, p: Path, q: Path)
    requires WellFormed(fs) && p in Listed(fs, root) && q in Listed(fs, root)
    ensures NameOf(root, p) == NameOf(root, q) ==> p == q
  {
    if !IsFile(fs, root) {
      assert Rooted(fs, p) && Rooted(fs, q);
      var a, b := p[|root|..], q[|root|..];
      PathNoSlash(a);
      PathNoSlash(b);
      JoinInjective(a, b);
      assert p == root + a && q == root + b;
    }
  }

  lemma MetaNameSplit()
    ensures Split(MetaName) == [MetaName]
  {
    assert '/' !in MetaName;
  }

  /** The root-level metadata file is never listed. */
  lemma {:induction false} MetaNeverListed(fs: Tree, root: Path)
    requires WellFormed(fs)
    ensures MetaName !in ListNames(fs, root)
  {
    if !IsFile(fs, root) {
      forall p | p in FilesBelow(fs, root) && NameOf(root, p) == MetaName ensures p == root + [MetaName] {
        assert Rooted(fs, p);
        var rest := p[|root|..];
        PathNoSlash(rest);
        MetaNameSplit();
        JoinInjective(rest, [MetaName]);
        assert p == root + rest;
      }
    }
  }

  /** `paths` lists every visited file once. */
  predicate Enumerates(paths: seq<Path>, fs: Tree, root: Path)
  {
    && (forall i :: 0 <= i < |paths| ==> paths[i] in Listed(fs, root))
    && (forall p :: p in Listed(fs, root) ==> p in paths)
    && Distinct(paths)
  }

  function Names(root: Path, paths: seq<Path>): (names: seq<string>)
    ensures |names| == |paths| && forall i :: 0 <= i < |paths| ==> names[i] == NameOf(root, paths[i])
  {
    if paths == [] then [] else [NameOf(root, paths[0])] + Names(root, paths[1..])
  }

  /** An enumeration's names are the listed names, each once. */
  lemma {:induction false} EnumeratedNames(fs: Tree, root: Path, paths: seq<Path>)
    requires WellFormed(fs) && Enumerates(paths, fs, root)
    ensures (set i | 0 <= i < |paths| :: Names(root, paths)[i]) == ListNames(fs, root)
    ensures Distinct(Names(root, paths))
  {
    var names := Names(root, paths);
    forall n | n in ListNames(fs, root) ensures n in set i | 0 <= i < |paths| :: names[i] {
      var p :| p in Listed(fs, root) && n == NameOf(root, p);
      var i :| 0 <= i < |paths| && paths[i] == p;
      assert names[i] == n;
    }
    forall i, j | 0 <= i < j < |paths| ensures Apart(names, i, j) {
      assert Apart(paths, i, j);
      NameInjective(fs, root, paths[i], paths[j]);
    }
  }

  /** The entries `Backup` writes for an enumeration of the visited files. */
  function Entries(fs: Tree, root: Path, paths: seq<Path>): (es: seq<Entry>)
    requires forall i :: 0 <= i < |paths| ==> paths[i] in fs && fs[paths[i]].File?
    ensures |es| == |paths|
    ensures forall i :: 0 <= i < |paths| ==> es[i] == Entry(NameOf(root, paths[i]), false, fs[paths[i]].data, None)
  {
    if paths == [] then [] else [Entry(NameOf(root, paths[0]), false, fs[paths[0]].data, None)] + Entries(fs, root, paths[1..])
  }

  /** A sequence holding each path's entry at its position is `Entries`. */
  lemma {:induction false} EntriesByIndex(fs: Tree, root: Path, paths: seq<Path>, es: seq<Entry>)
    requires forall i :: 0 <= i < |paths| ==> paths[i] in fs && fs[paths[i]].File?
    requires |es| == |paths|
    requires forall i :: 0 <= i < |paths| ==> es[i] == Entry(NameOf(root, paths[i]), false, fs[paths[i]].data, None)
    ensures es == Entries(fs, root, paths)
  {
  }

  lemma {:induction false} ListedAreFiles(fs: Tree, root: Path, p: Path)
    requires p in Listed(fs, root)
    ensures p in fs && fs[p].File? && |root| <= |p| && p[..|root|] == root
  {
  }

  /** A restored entry is found by joining its name to the root: a listed
      name leads back to its own file. */
  lemma {:induction false} NameLeadsBack(fs: Tree, root: Path, p: Path)
    requires WellFormed(fs) && IsPath(root) && p in Listed(fs, root)
    ensures Resolve(root, Split(NameOf(root, p))) == p
  {
    if IsFile(fs, root) {
      assert Split(".") == ["."];
    } else {
      assert Rooted(fs, p);
      var rest := p[|root|..];
      PathNoSlash(rest);
      SplitJoin(rest);
      ResolveSegments(root, rest);
      assert p == root + rest;
    }
  }

  /** What reading a listed name back needs: the path is a file and its
      name leads back to it. */
  predicate Readable(fs: Tree, root: Path, p: Path)
  {
    IsPath(root) && p in fs && fs[p].File? && Resolve(root, Split(NameOf(root, p))) == p
  }

  lemma {:induction false} EnumeratedReadable(fs: Tree, root: Path, paths: seq<Path>)
    requires WellFormed(fs) && IsPath(root)
    requires forall i :: 0 <= i < |paths| ==> paths[i] in Listed(fs, root)
    ensures forall i :: 0 <= i < |paths| ==> Readable(fs, root, paths[i])
  {
    forall i | 0 <= i < |paths| ensures Readable(fs, root, paths[i]) {
      ListedAreFiles(fs, root, paths[i]);
      NameLeadsBack(fs, root, paths[i]);
    }
  }

  /** One archive entry restored: sanitise the whole name, create its
      directory, then create (truncating) and fill the file. A body cut
      short leaves the bytes delivered before the read failed in the file
      and stops with that failure. */
  function RestoreOne(fs: Tree, root: Path, e: Entry): (o: Outcome)
    requires WellFormed(fs) && IsPath(root)
    ensures WellFormed(o.fs)
  {
    match CleanRel(e.name)
    case Err(err) => Outcome(fs, Some(err))
    case Ok(clean) =>
      var abs := Resolve(root, Split(clean));
      match MkdirAll(fs, DirOf(abs))
      case Err(err) => Outcome(fs, Some(err))
      case Ok(fs2) =>
        match WriteFile(fs2, abs, e.data)
        case Err(err) => Outcome(fs2, Some(err))
        case Ok(fs3) => Outcome(fs3, e.cut)
  }

  /** A restored entry whose file can be created holds the bytes its body
      delivered, even when the body was cut short, and the restore reports
      the body's read error; any other failure changes no file. */
  lemma {:induction false} RestoreOneFiles(fs: Tree, root: Path, e: Entry)
    requires WellFormed(fs) && IsPath(root)
    ensures CleanRel(e.name).Err? ==> RestoreOne(fs, root, e) == Outcome(fs, Some(CleanRel(e.name).error))
    ensures CleanRel(e.name).Ok? ==>
              var o := RestoreOne(fs, root, e);
              var abs := Resolve(root, Split(CleanRel(e.name).value));
              && (Creatable(fs, abs) ==> o.err == e.cut && Files(o.fs) == Files(fs)[abs := e.data])
              && (!Creatable(fs, abs) ==> o.err.Some? && Files(o.fs) == Files(fs))
  {
    if CleanRel(e.name).Ok? {
      var abs := Resolve(root, Split(CleanRel(e.name).value));
      CreateSteps(fs, abs, e.data);
      var m := MkdirAll(fs, DirOf(abs));
      if m.Ok? {
        FilesUpdate(m.value, abs, e.data);
      }
    }
  }

  /** `Restore`: directory entries are skipped, the first failure stops the
      restore, and a clean end of the archive succeeds. */
  function RestoreEffect(fs: Tree, root: Path, entries: seq<Entry>, failure: Option<Error>): (o: Outcome)
    requires WellFormed(fs) && IsPath(root)
    ensures WellFormed(o.fs)
    decreases |entries|
  {
    if entries == [] then Outcome(fs, failure)
    else if entries[0].isDir then RestoreEffect(fs, root, entries[1..], failure)
    else
      var o := RestoreOne(fs, root, entries[0]);
      if o.err.Some? then o else RestoreEffect(o.fs, root, entries[1..], failure)
  }

  class Store {
    const root: Path
    var fs: Tree

    ghost predicate Valid()
      reads this
    {
      WellFormed(fs) && IsPath(root)
    }

    constructor (root: Path, fs: Tree)
      requires WellFormed(fs) && IsPath(root)
      ensures Valid() && this.root == root && this.fs == fs
    {
      this.root := root;
      this.fs := fs;
    }

    method Save(user: string, rel: string, r: Reader) returns (err: Option<Error>)
      requires Valid()
      modifies this
      ensures Valid() && Outcome(fs, err) == SaveEffect(old(fs), root, user, rel, r)
    {
      var c := CleanRel(rel);
      if c.Err? {
        return Some(c.error);
      }
      var clean := c.value;
      var m := MkdirAll(fs, BlobDir(root, user, clean));
      if m.Err? {
        return Some(m.error);
      }
      fs := m.value;
      if r.failure.Some? {
        return r.failure;
      }
      var w := WriteFile(fs, BlobPath(root, user, clean), r.data);
      if w.Err? {
        return Some(w.error);
      }
      fs := w.value;
      return None;
    }

    method Open(user: string, rel: string) returns (r: Result<Node>)
      requires Valid()
      ensures r == OpenEffect(fs, root, user, rel)
    {
      var c := CleanRel(rel);
      if c.Err? {
        return Err(c.error);
      }
      r := FileTree.Open(fs, BlobPath(root, user, c.value));
    }

    method Delete(user: string, rel: string) returns (err: Option<Error>)
      requires Valid()
      modifies this
      ensures Valid() && Outcome(fs, err) == DeleteEffect(old(fs), root, user, rel)
    {
      var c := CleanRel(rel);
      if c.Err? {
        return Some(c.error);
      }
      var m := Remove(fs, BlobPath(root, user, c.value));
      if m.Err? {
        return Some(m.error);
      }
      fs := m.value;
      return None;
    }

    /** `List`: a missing root fails the walk; otherwise every visited file is
      reported once by its name relative to the root, in walk order. */
    method List() returns (r: Result<seq<string>>, ghost paths: seq<Path>)
      requires Valid()
      ensures r.Err? <==> !IsDir(fs, root) && root !in fs
      ensures r.Err? ==> r.error == NotExist
      ensures r.Ok? ==> Enumerates(paths, fs, root) && r.value == Names(root, paths)
    {
      if !IsDir(fs, root) && root !in fs {
        return Err(NotExist), [];
      }
      var out: seq<string> := [];
      paths := [];
      var pending := Listed(fs, root);
      while pending != {}
        invariant pending <= Listed(fs, root)
        invariant forall i :: 0 <= i < |paths| ==> paths[i] in Listed(fs, root) - pending
        invariant forall p :: p in Listed(fs, root) - pending ==> p in paths
        invariant Distinct(paths) && out == Names(root, paths)
        decreases |pending|
      {
        var p :| p in pending;
        DistinctAppend(paths, p);
        out := out + [NameOf(root, p)];
        paths := paths + [p];
        pending := pending - {p};
      }
      return Ok(out), paths;
    }

    /** `Backup`: one regular-file entry per listed name, carrying that
      file's contents. */
    method Backup() returns (r: Result<seq<Entry>>, ghost paths: seq<Path>)
      requires Valid()
      ensures r.Err? <==> !IsDir(fs, root) && root !in fs
      ensures r.Ok? ==> Enumerates(paths, fs, root) && r.value == Entries(fs, root, paths)
    {
      var names;
      names, paths := List();
      if names.Err? {
        return Err(names.error), paths;
      }
      EnumeratedReadable(fs, root, paths);
      var out := ReadAll(names.value, paths);
      return Ok(out), paths;
    }

    /** The loop of `Backup`: each listed name with its file's contents. */
    method ReadAll(names: seq<string>, ghost paths: seq<Path>) returns (out: seq<Entry>)
      requires Valid() && forall i :: 0 <= i < |paths| ==> Readable(fs, root, paths[i])
      requires |names| == |paths| && forall i :: 0 <= i < |paths| ==> names[i] == NameOf(root, paths[i])
      ensures (forall i :: 0 <= i < |paths| ==> paths[i] in fs && fs[paths[i]].File?) && out == Entries(fs, root, paths)
    {
      out := [];
      for i := 0 to |names|
        invariant |out| == i && forall k :: 0 <= k < i ==> out[k] == Entry(names[k], false, fs[paths[k]].data, None)
      {
        var e := ReadEntry(names[i], paths[i]);
        out := out + [e];
      }
      EntriesByIndex(fs, root, paths, out);
    }

    /** The entry for one listed name: the file the name leads back to. */
    method ReadEntry(rel: string, ghost p: Path) returns (e: Entry)
      requires Valid() && Readable(fs, root, p) && rel == NameOf(root, p)
      ensures e == Entry(rel, false, fs[p].data, None)
    {
      var abs := Resolve(root, Split(rel));
      e := Entry(rel, false, fs[abs].data, None);
    }

    /** One regular entry of `Restore`: sanitise its name, create its
      directory, then create and fill the file. */
    method RestoreEntry(e: Entry) returns (err: Option<Error>)
      requires Valid()
      modifies this
      ensures Valid() && Outcome(fs, err) == RestoreOne(old(fs), root, e)
    {
      var c := CleanRel(e.name);
      if c.Err? {
        return Some(c.error);
      }
      var abs := Resolve(root, Split(c.value));
      var m := MkdirAll(fs, DirOf(abs));
      if m.Err? {
        return Some(m.error);
      }
      fs := m.value;
      var w := WriteFile(fs, abs, e.data);
      if w.Err? {
        return Some(w.error);
      }
      fs := w.value;
      return e.cut;
    }

    method Restore(stream: TarStream) returns (err: Option<Error>)
      requires Valid()
      modifies this
      ensures Valid() && Outcome(fs, err) == RestoreEffect(old(fs), root, stream.entries, stream.failure)
    {
      var es := stream.entries;
      var i := 0;
      while i < |es|
        invariant 0 <= i <= |es| && Valid()
        invariant RestoreEffect(fs, root, es[i..], stream.failure) == RestoreEffect(old(fs), root, es, stream.failure)
      {
        assert es[i..][1..] == es[i + 1..];
        var e := es[i];
        if !e.isDir {
          err := RestoreEntry(e);
          if err.Some? {
            return err;
          }
        }
        i := i + 1;
      }
      return stream.failure;
    }
  }

  /** `New`: the root must be named and is created, with its ancestors. */
  method New(fs: Tree, cwd: Path, root: string) returns (r: Result<Store>)
    requires WellFormed(fs) && IsPath(cwd)
    ensures root == "" <==> r == Err(EmptyRoot)
    ensures root != "" ==> (r.Err? <==> MkdirAll(fs, RootPath(cwd, root)).Err?)
    ensures r.Ok? ==> fresh(r.value) && r.value.Valid() && r.value.root == RootPath(cwd, root)
                      && r.value.fs == MkdirAll(fs, RootPath(cwd, root)).value && IsDir(r.value.fs, r.value.root)
  {
    if root == "" {
      return Err(EmptyRoot);
    }
    var p := RootPath(cwd, root);
    var m := MkdirAll(fs, p);
    if m.Err? {
      return Err(m.error);
    }
    var s := new Store(p, m.value);
    return Ok(s);
  }

  /** No element occurs twice in `s`. */
  predicate Distinct<T(==)>(s: seq<T>)
  {
    forall i, j {:trigger Apart(s, i, j)} :: 0 <= i < j < |s| ==> Apart(s, i, j)
  }

  /** Positions `i` and `j` of `s` hold different elements. */
  predicate Apart<T(==)>(s: seq<T>, i: int, j: int)
  {
    0 <= i < |s| && 0 <= j < |s| && s[i] != s[j]
  }

  /** Appending an element not yet present keeps a sequence distinct. */
  lemma {:induction false} DistinctAppend<T>(s: seq<T>, x: T)
    requires Distinct(s) && forall k :: 0 <= k < |s| ==> s[k] != x
    ensures Distinct(s + [x])
  {
    var t := s + [x];
    forall i, j | 0 <= i < j < |t| ensures Apart(t, i, j) {
      if j < |s| {
        assert Apart(s, i, j);
      }
    }
  }

  /** The path a plain user name and a plain relative path designate. */
  lemma {:induction false} PlainBlobPath(root: Path, user: string, clean: string)
    requires IsPath(root) && IsSegment(user) && IsPath(Split(clean))
    ensures BlobPath(root, user, clean) == root + ([user] + Split(clean))
    ensures NameOf(root, root + ([user] + Split(clean))) == user + "/" + clean
  {
    var parts := [user] + Split(clean);
    assert Split(user) == [user];
    ResolveSegments(root, parts);
    assert (root + parts)[|root|..] == parts;
    assert JoinSlash(parts) == user + "/" + JoinSlash(Split(clean));
    JoinSplit(clean);
  }

  /** A file strictly below the root, other than the metadata file, is listed. */
  lemma {:induction false} FileIsListed(fs: Tree, root: Path, p: Path)
    requires WellFormed(fs) && IsFile(fs, p) && |root| < |p| && p[..|root|] == root && p != root + [MetaName]
    ensures p in Listed(fs, root) && NameOf(root, p) in ListNames(fs, root)
  {
    AncestorsAreDirs(fs, p, |root|);
    assert root in fs ==> Rooted(fs, root);
    assert p in FilesBelow(fs, root);
    assert p in Listed(fs, root);
  }

  /** A saved blob of a user that is one plain name is listed as
      `user/rel`, with the path as written after the sanitiser. */
  lemma {:induction false} SavedIsListed(fs: Tree, root: Path, user: string, rel: string, data: Bytes)
    requires WellFormed(fs) && IsPath(root) && IsSegment(user)
    requires CleanRel(rel).Ok? && IsPath(Split(CleanRel(rel).value))
    ensures var o := SaveEffect(fs, root, user, rel, Reader(data, None));
            o.err.None? ==> user + "/" + CleanRel(rel).value in ListNames(o.fs, root)
  {
    var o := SaveEffect(fs, root, user, rel, Reader(data, None));
    if o.err.None? {
      var clean := CleanRel(rel).value;
      PlainBlobPath(root, user, clean);
      var p := root + ([user] + Split(clean));
      SaveFiles(fs, root, user, rel, Reader(data, None));
      assert p in Files(o.fs);
      assert |p| > |root| + 1 && p[..|root|] == root;
      assert p != root + [MetaName];
      FileIsListed(o.fs, root, p);
    }
  }
}
