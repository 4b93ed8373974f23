/** A filesystem as a map from cleaned absolute paths to nodes, with the
    operating-system calls the core makes (`os.MkdirAll`, `os.Create`,
    `os.Rename`, `os.Remove`, `os.Open`) as functions on it. Every node's
    parent is a directory; `/` itself is always a directory and is not stored. */
module FileTree {
  import opened Wrappers
  import opened Errors
  import opened Model
  import opened Paths

  datatype Node = File(data: Bytes) | Dir

  type Tree = map<Path, Node>

  function Parent(p: Path): Path
    requires p != []
  {
    p[..|p| - 1]
  }

  predicate IsDir(t: Tree, p: Path)
  {
    p == [] || (p in t && t[p].Dir?)
  }

  predicate IsFile(t: Tree, p: Path)
  {
    p in t && t[p].File?
  }

  /** A node's path is a cleaned, non-empty path whose parent is a directory. */
  predicate Rooted(t: Tree, p: Path)
  {
    IsPath(p) && p != [] && IsDir(t, Parent(p))
  }

  predicate WellFormed(t: Tree)
  {
    forall p {:trigger Rooted(t, p)} :: p in t ==> Rooted(t, p)
  }

  /** The regular files and their contents. */
  function Files(t: Tree): map<Path, Bytes>
  {
    map p | p in t && t[p].File? :: t[p].data
  }

  /** Every ancestor of a stored node is a directory. */
  lemma {:induction false} AncestorsAreDirs(t: Tree, p: Path, i: nat)
    requires WellFormed(t) && p in t && i < |p|
    ensures IsDir(t, p[..i])
    decreases |p|
  {
    assert Rooted(t, p);
    if i < |p| - 1 {
      var q := Parent(p);
      assert q[..i] == p[..i];
      AncestorsAreDirs(t, q, i);
    } else {
      assert p[..i] == Parent(p);
    }
  }

  /** No file lies below another file. */
  lemma {:induction false} FilesPrefixFree(t: Tree, a: Path, b: Path)
    requires WellFormed(t) && IsFile(t, a) && b in t && a != b
    ensures !IsPrefix(a, b)
  {
    assert Rooted(t, a);
    if IsPrefix(a, b) {
      AncestorsAreDirs(t, b, |a|);
    }
  }

  lemma {:induction false} AddDirKeepsFiles(t: Tree, p: Path)
    requires WellFormed(t) && IsPath(p) && p != [] && p !in t && IsDir(t, Parent(p))
    ensures WellFormed(t[p := Dir]) && Files(t[p := Dir]) == Files(t)
  {
    var t2 := t[p := Dir];
    forall q | q in t2 ensures Rooted(t2, q) {
      if q != p { assert Rooted(t, q); }
    }
  }

  /** `os.MkdirAll(p)`: succeeds when `p` and its ancestors are directories or
      absent, creating the missing ones; fails on the first ancestor that is a
      file, changing nothing. */
  function MkdirAll(t: Tree, p: Path): (r: Result<Tree>)
    requires WellFormed(t) && IsPath(p)
    ensures r.Ok? ==> WellFormed(r.value) && IsDir(r.value, p) && Files(r.value) == Files(t)
    ensures r.Ok? ==> forall q :: q in t ==> q in r.value && r.value[q] == t[q]
    ensures r.Ok? ==> forall q :: q in r.value && q !in t ==> r.value[q] == Dir && IsPrefix(q, p)
    ensures r.Err? ==> r.error == Io("not a directory")
    decreases |p|
  {
    if p == [] then Ok(t)
    else if p in t then (if t[p].Dir? then Ok(t) else Err(Io("not a directory")))
    else
      match MkdirAll(t, Parent(p))
      case Err(e) => Err(e)
      case Ok(t2) =>
        assert p !in t2 by {
          assert !IsPrefix(p, Parent(p));
        }
        AddDirKeepsFiles(t2, p);
        Ok(t2[p := Dir])
  }

  /** `os.MkdirAll(p)` fails exactly when some ancestor of `p`, or `p`, is a file. */
  lemma {:induction false} MkdirAllFails(t: Tree, p: Path)
    requires WellFormed(t) && IsPath(p)
    ensures MkdirAll(t, p).Err? <==> exists i :: 0 < i <= |p| && IsFile(t, p[..i])
    decreases |p|
  {
    if p == [] {
    } else if p in t {
      if t[p].Dir? {
        forall i | 0 < i <= |p| ensures !IsFile(t, p[..i]) {
          if i < |p| { AncestorsAreDirs(t, p, i); } else { assert p[..i] == p; }
        }
      } else {
        assert p[..|p|] == p;
      }
    } else {
      MkdirAllFails(t, Parent(p));
      assert forall i :: 0 < i < |p| ==> Parent(p)[..i] == p[..i];
      assert p[..|p|] == p;
    }
  }

  predicate HasChild(t: Tree, p: Path)
  {
    exists q :: q in t && q != [] && Parent(q) == p
  }

  /** `os.Remove(p)`: removes a file or an empty directory. */
  function Remove(t: Tree, p: Path): (r: Result<Tree>)
    requires WellFormed(t)
    ensures r.Ok? <==> p in t && !(t[p].Dir? && HasChild(t, p))
    ensures r.Ok? ==> WellFormed(r.value) && r.value == t - {p}
    ensures p !in t && p != [] ==> r == Err(NotExist)
  {
    if p == [] then
      assert p in t ==> Rooted(t, p);
      Err(Io("device or resource busy"))
    else if p !in t then Err(NotExist)
    else if t[p].Dir? && HasChild(t, p) then Err(Io("directory not empty"))
    else
      var r := t - {p};
      assert forall q :: q in r ==> Rooted(r, q) by {
        forall q | q in r ensures Rooted(r, q) {
          assert Rooted(t, q);
          assert Parent(q) == p ==> HasChild(t, p);
        }
      }
      Ok(r)
  }

  /** `os.Create(p)` followed by writing `data`: replaces a file's content or
      makes a new file in an existing directory. */
  function WriteFile(t: Tree, p: Path, data: Bytes): (r: Result<Tree>)
    requires WellFormed(t) && IsPath(p)
    ensures r.Ok? <==> p != [] && IsDir(t, Parent(p)) && !IsDir(t, p)
    ensures r.Ok? ==> WellFormed(r.value) && r.value == t[p := File(data)]
  {
    if p == [] || IsDir(t, p) then Err(Io("is a directory"))
    else if !IsDir(t, Parent(p)) then (if Parent(p) in t then Err(Io("not a directory")) else Err(NotExist))
    else
      var r := t[p := File(data)];
      assert forall q :: q in r ==> Rooted(r, q) by {
        forall q | q in r ensures Rooted(r, q) {
          if q != p {
            assert Rooted(t, q);
          }
        }
      }
      Ok(r)
  }

  /** `os.Open(p)`: a directory or a file; an absent path does not exist. */
  function Open(t: Tree, p: Path): (r: Result<Node>)
    ensures r.Ok? <==> IsDir(t, p) || p in t
    ensures r.Ok? && p in t ==> r.value == t[p]
    ensures r.Err? ==> r.error == NotExist
  {
    if p in t then Ok(t[p]) else if p == [] then Ok(Dir) else Err(NotExist)
  }

  /** Writing a file changes the file map at that path only. */
  lemma {:induction false} FilesUpdate(t: Tree, p: Path, data: Bytes)
    ensures Files(t[p := File(data)]) == Files(t)[p := data]
  {
  }

  /** The files strictly below `root`. */
  function FilesBelow(t: Tree, root: Path): set<Path>
  {
    set p | p in t && t[p].File? && |root| < |p| && p[..|root|] == root
  }

  /** `filepath.Dir` of a cleaned path. */
  function DirOf(p: Path): (d: Path)
    ensures IsPrefix(d, p) && (p == [] || |d| == |p| - 1)
    ensures IsPath(p) ==> IsPath(d)
  {
    if p == [] then [] else
      assert forall i :: 0 <= i < |p| - 1 ==> Parent(p)[i] == p[i];
      Parent(p)
  }

  /** `os.Create(p)` after `os.MkdirAll(filepath.Dir(p))` can succeed: `p` is
      not `/`, none of its proper ancestors is a file, and it is not a
      directory. */
  predicate Creatable(fs: Tree, p: Path)
  {
    p != [] && (forall i :: 0 < i < |p| ==> !IsFile(fs, p[..i])) && !IsDir(fs, p)
  }

  /** The directory and create steps succeed exactly when the file is
      creatable. */
  lemma {:induction false} CreateSteps(fs: Tree, p: Path, data: Bytes)
    requires WellFormed(fs) && IsPath(p)
    ensures (MkdirAll(fs, DirOf(p)).Ok? && WriteFile(MkdirAll(fs, DirOf(p)).value, p, data).Ok?) <==> Creatable(fs, p)
  {
    if p != [] {
      var d := Parent(p);
      MkdirAllFails(fs, d);
      assert forall i :: 0 < i <= |d| ==> d[..i] == p[..i];
      var m := MkdirAll(fs, d);
      if m.Ok? {
        assert IsDir(m.value, p) <==> IsDir(fs, p);
      }
    }
  }
}
