/** The server's older blob store: files at `root/<user>/<path>`, with the
    legacy path rules (no length limit), written in place without a
    temporary file. */
module LegacyStore {
  import opened Wrappers
  import opened Strings
  import opened Errors
  import opened Model
  import opened Paths
  import opened FileTree
  import opened Sanitize
  import DiskStore

  /** `path`: the file a user's relative path designates. */
  function PathOf(root: Path, user: string, rel: string): (r: Result<Path>)
    requires IsPath(root)
    ensures r.Err? <==> LegacyClean(rel).Err?
    ensures r.Err? ==> r.error == LegacyClean(rel).error
    ensures r.Ok? ==> IsPath(r.value)
  {
    match LegacyClean(rel)
    case Err(e) => Err(e)
    case Ok(clean) => Ok(DiskStore.BlobPath(root, user, clean))
  }

  /** Accepted paths have no `..` part: the file lies inside the user's
      directory `root/<user>`. */
  lemma {:induction false} StaysInUserDir(root: Path, user: string, rel: string)
    requires IsPath(root) && NoSlash(Split(user)) && PathOf(root, user, rel).Ok?
    ensures IsPrefix(Resolve(root, Split(user)), PathOf(root, user, rel).value)
  {
    var x := LegacyClean(rel).value;
    NoDotDotPart(x);
    ResolveConcat(root, Split(user), Split(x));
    ResolveNoUp(Resolve(root, Split(user)), Split(x));
  }

  /** `Save`: make the directory holding the file, truncate or create the
      file, then copy the reader into it. A copy that fails leaves the bytes
      read so far. */
  function SaveEffect(fs: Tree, root: Path, user: string, rel: string, r: Reader): (o: DiskStore.Outcome)
    requires WellFormed(fs) && IsPath(root)
    ensures WellFormed(o.fs)
  {
    match PathOf(root, user, rel)
    case Err(e) => DiskStore.Outcome(fs, Some(e))
    case Ok(p) =>
      match MkdirAll(fs, DirOf(p))
      case Err(e) => DiskStore.Outcome(fs, Some(e))
      case Ok(fs2) =>
        match WriteFile(fs2, p, r.data)
        case Err(e) => DiskStore.Outcome(fs2, Some(e))
        case Ok(fs3) => DiskStore.Outcome(fs3, r.failure)
  }

  /** Once the file is creatable the save leaves it holding exactly what the
      reader delivered, the old content gone, and returns the reader's error;
      otherwise it fails with no file changed. */
  lemma {:induction false} SaveTruncates(fs: Tree, root: Path, user: string, rel: string, r: Reader)
    requires WellFormed(fs) && IsPath(root) && PathOf(root, user, rel).Ok?
    ensures var o := SaveEffect(fs, root, user, rel, r);
            var p := PathOf(root, user, rel).value;
            && (Creatable(fs, p) ==> o.err == r.failure && Files(o.fs) == Files(fs)[p := r.data])
            && (!Creatable(fs, p) ==> o.err.Some? && Files(o.fs) == Files(fs))
  {
    var p := PathOf(root, user, rel).value;
    CreateSteps(fs, p, r.data);
    var m := MkdirAll(fs, DirOf(p));
    if m.Ok? {
      FilesUpdate(m.value, p, r.data);
    }
  }

  /** A save succeeds exactly when the path is accepted, the file is
      creatable and the reader ends cleanly; a refused path is reported with
      nothing changed. */
  lemma {:induction false} SaveSucceeds(fs: Tree, root: Path, user: string, rel: string, r: Reader)
    requires WellFormed(fs) && IsPath(root)
    ensures SaveEffect(fs, root, user, rel, r).err.None? <==>
              PathOf(root, user, rel).Ok? && Creatable(fs, PathOf(root, user, rel).value) && r.failure.None?
    ensures LegacyClean(rel).Err? ==> SaveEffect(fs, root, user, rel, r) == DiskStore.Outcome(fs, Some(LegacyClean(rel).error))
  {
    if PathOf(root, user, rel).Ok? {
      SaveTruncates(fs, root, user, rel, r);
    }
  }

  /** A name ending in `/` names the file before the slash: `x/` under a
      fresh root is saved as the file `/u/x`. */
  lemma {:induction false} TrailingSlashSaved(data: Bytes)
    ensures var o := SaveEffect(map[], [], "u", "x/", Reader(data, None));
            o.err.None? && Files(o.fs) == map[["u", "x"] := data]
  {
    TrailingSlashPath();
    var p: Path := ["u", "x"];
    assert Creatable(map[], p);
    SaveTruncates(map[], [], "u", "x/", Reader(data, None));
    assert Files(map[]) == map[];
  }

  lemma TrailingSlashPath()
    ensures PathOf([], "u", "x/") == Ok(["u", "x"])
  {
    assert "x/"[..1] == "x" && "x/"[2..] == "";
    SplitAt("x/", 1);
    assert Split("x/") == ["x", ""];
    assert LegacyClean("x/") == Ok("x/");
    assert Split("u") == ["u"];
    assert Resolve(["u", "x"], [""]) == ["u", "x"];
    assert Resolve(["u"], ["x", ""]) == ["u", "x"];
    assert Resolve([], ["u", "x", ""]) == ["u", "x"];
  }

  /** `Open`: `os.Open` of the path. */
  function OpenEffect(fs: Tree, root: Path, user: string, rel: string): (r: Result<Node>)
    requires IsPath(root)
    ensures PathOf(root, user, rel).Err? ==> r == Err(PathOf(root, user, rel).error)
    ensures PathOf(root, user, rel).Ok? ==> r == Open(fs, PathOf(root, user, rel).value)
  {
    match PathOf(root, user, rel)
    case Err(e) => Err(e)
    case Ok(p) => Open(fs, p)
  }

  /** Save then Open gives the saved bytes. */
  lemma {:induction false} SaveOpen(fs: Tree, root: Path, user: string, rel: string, data: Bytes)
    requires WellFormed(fs) && IsPath(root)
    ensures var o := SaveEffect(fs, root, user, rel, Reader(data, None));
            o.err.None? ==> OpenEffect(o.fs, root, user, rel) == Ok(File(data))
  {
  }

  /** A path too long for the other stores is taken here. */
  lemma {:induction false} NoLengthLimit(rel: string)
    requires Utf8Len(rel) > MaxPathLen && !HasPrefix(rel, "./") && !HasPrefix(rel, "/") && !Contains(rel, "..")
    ensures CleanRel(rel) == Err(PathTooLong) && LegacyClean(rel) == Ok(rel)
  {
    assert TrimPrefix(rel, "./") == rel;
  }

  /** The paths the walk reports: each non-directory it visits, the root
      included when it is a file; a missing root is a walk error and is
      skipped, giving nothing. */
  function Walked(fs: Tree, root: Path): set<Path>
  {
    if IsFile(fs, root) then {root} else FilesBelow(fs, root)
  }

  class Store {
    const root: Path
    var fs: Tree

    ghost predicate Valid()
      reads this
    {
      WellFormed(fs) && IsPath(root)
    }

    /** `NewStore`: the directory is created if possible; a failure is
        ignored. */
    constructor (fs0: Tree, cwd: Path, rootName: string)
      requires WellFormed(fs0) && IsPath(cwd)
      ensures Valid() && root == DiskStore.RootPath(cwd, rootName)
      ensures var m := MkdirAll(fs0, root); fs == if m.Ok? then m.value else fs0
    {
      root := DiskStore.RootPath(cwd, rootName);
      var m := MkdirAll(fs0, DiskStore.RootPath(cwd, rootName));
      fs := if m.Ok? then m.value else fs0;
    }

    method Save(user: string, rel: string, r: Reader) returns (err: Option<Error>)
      requires Valid()
      modifies this
      ensures Valid() && DiskStore.Outcome(fs, err) == SaveEffect(old(fs), root, user, rel, r)
    {
      var p := PathOf(root, user, rel);
      if p.Err? {
        return Some(p.error);
      }
      var m := MkdirAll(fs, DirOf(p.value));
      if m.Err? {
        return Some(m.error);
      }
      fs := m.value;
      var w := WriteFile(fs, p.value, r.data);
      if w.Err? {
        return Some(w.error);
      }
      fs := w.value;
      return r.failure;
    }

    method Open(user: string, rel: string) returns (r: Result<Node>)
      requires Valid()
      ensures r == OpenEffect(fs, root, user, rel)
    {
      var p := PathOf(root, user, rel);
      if p.Err? {
        return Err(p.error);
      }
      r := FileTree.Open(fs, p.value);
    }

    /** `Inventory`: the walked paths, each once, in walk order. */
    method Inventory() returns (out: seq<Path>)
      requires Valid()
      ensures forall i :: 0 <= i < |out| ==> out[i] in Walked(fs, root)
      ensures forall p :: p in Walked(fs, root) ==> p in out
      ensures DiskStore.Distinct(out)
    {
      out := [];
      var pending := Walked(fs, root);
      while pending != {}
        invariant pending <= Walked(fs, root)
        invariant forall i :: 0 <= i < |out| ==> out[i] in Walked(fs, root) - pending
        invariant forall p :: p in Walked(fs, root) - pending ==> p in out
        invariant DiskStore.Distinct(out)
        decreases |pending|
      {
        var p :| p in pending;
        DiskStore.DistinctAppend(out, p);
        out := out + [p];
        pending := pending - {p};
      }
    }
  }

  /** Every path the inventory reports is a file: directories never appear. */
  lemma {:induction false} WalkedAreFiles(fs: Tree, root: Path, p: Path)
    requires p in Walked(fs, root)
    ensures p in fs && fs[p].File?
  {
  }

  /** Under a plain user name the file lies strictly below the root. */
  lemma {:induction false} Below(root: Path, user: string, rel: string)
    requires IsPath(root) && IsSegment(user) && PathOf(root, user, rel).Ok?
    ensures var p := PathOf(root, user, rel).value; |root| < |p| && p[..|root|] == root
  {
    var p := PathOf(root, user, rel).value;
    assert Split(user) == [user];
    StaysInUserDir(root, user, rel);
    ResolveSegments(root, [user]);
    assert p[..|root| + 1][..|root|] == p[..|root|];
  }

  /** A file saved under a plain user name is in the inventory. */
  lemma {:induction false} SavedInInventory(fs: Tree, root: Path, user: string, rel: string, data: Bytes)
    requires WellFormed(fs) && IsPath(root) && IsSegment(user) && PathOf(root, user, rel).Ok?
    ensures var o := SaveEffect(fs, root, user, rel, Reader(data, None));
            o.err.None? ==> PathOf(root, user, rel).value in Walked(o.fs, root)
  {
    var o := SaveEffect(fs, root, user, rel, Reader(data, None));
    if o.err.None? {
      var p := PathOf(root, user, rel).value;
      var fs2 := MkdirAll(fs, DirOf(p)).value;
      assert o.fs == fs2[p := File(data)];
      assert IsFile(o.fs, p);
      Below(root, user, rel);
      AncestorsAreDirs(o.fs, p, |root|);
      assert root in o.fs ==> Rooted(o.fs, root);
      assert p in FilesBelow(o.fs, root);
    }
  }
}
