/** The scanner: for each user, every include pattern is expanded under the
    user's home, directories are walked, exclusions are applied (an excluded
    directory's subtree is pruned), and each file reached is hashed into an
    inventory item, at most once per user.

    The filesystem and the glob library are the `Host` parameter: pattern
    expansion, `os.Stat`, the visit order of `filepath.WalkDir`, pattern
    matching, reading a file and SHA-256 are its functions. */
module Scanner {
  import opened Wrappers
  import opened Strings
  import opened Errors
  import opened Model
  import opened Paths
  import Patterns

  /** One call of the `WalkDir` callback: the path, whether it is a
      directory, and whether the walk passed an error for it. */
  datatype Visit = Visit(path: string, isDir: bool, failed: bool)

  datatype Host = Host(
    // `doublestar.FilepathGlob`: the matches, or None on an error
    glob: string -> Option<seq<string>>,
    // `os.Stat`: whether the path is a directory, or None on an error
    stat: string -> Option<bool>,
    // the callbacks `filepath.WalkDir` makes below a root, root first, in
    // lexical pre-order, as if no directory were skipped
    walk: string -> seq<Visit>,
    // `doublestar.PathMatch(pattern, name)`
    matches: (string, string) -> bool,
    // opening and reading a file, or None when it cannot be opened
    read: string -> Option<Bytes>,
    // SHA-256 of the contents, hex encoded
    hash: Bytes -> string)

  // ---------------------------------------------------------------------
  // hasGlob, expandPattern

  const GlobChars: set<char> := {'*', '?', '[', '{'}

  /** `hasGlob`. */
  predicate HasGlob(p: string): (r: bool)
    ensures r <==> exists i :: 0 <= i < |p| && (p[i] == '*' || p[i] == '?' || p[i] == '[' || p[i] == '{')
  {
    ContainsAny(p, GlobChars)
  }

  /** The cleaned pattern `expandPattern` works with: an absolute pattern on
      its own, a relative one joined to the home directory. */
  function Joined(home: string, pattern: string): string
  {
    if HasPrefix(pattern, "/") then Render(Abs(pattern)) else Render(JoinPath(Abs(home), pattern))
  }

  /** `expandPattern`. */
  function ExpandPattern(h: Host, home: string, pattern: string): seq<string>
  {
    var pat := Joined(home, pattern);
    if HasGlob(pat) then
      match h.glob(pat)
      case Some(found) => found
      case None => []
    else [pat]
  }

  /** A pattern without glob characters names exactly one candidate, the
      joined path; a glob the library cannot expand names none. */
  lemma {:induction false} ExpandCases(h: Host, home: string, pattern: string)
    ensures !HasGlob(Joined(home, pattern)) ==> ExpandPattern(h, home, pattern) == [Joined(home, pattern)]
    ensures HasGlob(Joined(home, pattern)) && h.glob(Joined(home, pattern)).None? ==> ExpandPattern(h, home, pattern) == []
    ensures HasGlob(Joined(home, pattern)) && h.glob(Joined(home, pattern)).Some? ==>
              ExpandPattern(h, home, pattern) == h.glob(Joined(home, pattern)).value
  {
  }

  predicate NoGlobs(parts: seq<string>)
  {
    forall k :: 0 <= k < |parts| ==> !HasGlob(parts[k])
  }

  lemma {:induction false} NoGlobSlice(s: string, i: nat, j: nat)
    requires i <= j <= |s| && !HasGlob(s)
    ensures !HasGlob(s[i..j])
  {
    forall k | 0 <= k < j - i
      ensures s[i..j][k] !in GlobChars
    {
      assert s[i..j][k] == s[i + k];
    }
  }

  lemma {:induction false} SplitNoGlob(s: string)
    requires !HasGlob(s)
    ensures NoGlobs(Split(s))
    decreases |s|
  {
    if '/' in s {
      var i := FirstIndex(s, '/');
      NoGlobSlice(s, 0, i);
      NoGlobSlice(s, i + 1, |s|);
      SplitNoGlob(s[i + 1..]);
    }
  }

  lemma {:induction false} ResolveNoGlob(base: Path, parts: seq<string>)
    requires IsPath(base) && NoSlash(parts) && NoGlobs(base) && NoGlobs(parts)
    ensures NoGlobs(Resolve(base, parts))
    decreases |parts|
  {
    if parts != [] {
      var next := Step(base, parts[0]);
      assert NoGlobs(next) by {
        forall k | 0 <= k < |next|
          ensures !HasGlob(next[k])
        {
          if k < |base| {
            assert next[k] == base[k];
          } else {
            assert next[k] == parts[0];
          }
        }
      }
      ResolveNoGlob(next, parts[1..]);
    }
  }

  lemma {:induction false} JoinNoGlob(parts: seq<string>)
    requires NoGlobs(parts)
    ensures !HasGlob(JoinSlash(parts))
    decreases |parts|
  {
    if |parts| > 1 {
      JoinNoGlob(parts[1..]);
      var a := parts[0] + "/";
      var b := JoinSlash(parts[1..]);
      assert JoinSlash(parts) == a + b;
      forall k | 0 <= k < |a + b|
        ensures (a + b)[k] !in GlobChars
      {
        if k < |a| {
          if k < |parts[0]| {
            assert (a + b)[k] == parts[0][k];
          }
        } else {
          assert (a + b)[k] == b[k - |a|];
        }
      }
    }
  }

  lemma {:induction false} RenderNoGlob(p: Path)
    requires NoGlobs(p)
    ensures !HasGlob(Render(p))
  {
    if p != [] {
      JoinNoGlob(p);
      var j := JoinSlash(p);
      forall k | 0 < k < |"/" + j|
        ensures ("/" + j)[k] !in GlobChars
      {
        assert ("/" + j)[k] == j[k - 1];
      }
    }
  }

  /** A relative pattern without glob characters, under a home directory
      without them, is never expanded as a glob: it stands for the one
      joined path. */
  lemma {:induction false} PlainPatternOneCandidate(h: Host, home: string, pattern: string)
    requires !HasGlob(home) && !HasGlob(pattern) && !HasPrefix(pattern, "/")
    ensures ExpandPattern(h, home, pattern) == [Render(JoinPath(Abs(home), pattern))]
  {
    SplitNoGlob(home);
    ResolveNoGlob([], Split(home));
    SplitNoGlob(pattern);
    ResolveNoGlob(Abs(home), Split(pattern));
    RenderNoGlob(JoinPath(Abs(home), pattern));
  }

  // ---------------------------------------------------------------------
  // isExcluded, relativePath, fileItem

  /** One exclusion pattern applies: it is not blank and matches the
      absolute path when it is absolute, the home-relative path otherwise. */
  predicate ExcludedBy(ex: string, rel: string, abs: string, matches: (string, string) -> bool)
  {
    Applies(TrimSpace(ex), rel, abs, matches)
  }

  /** The same test on a pattern already trimmed. */
  predicate Applies(e: string, rel: string, abs: string, matches: (string, string) -> bool)
  {
    e != "" && matches(e, if HasPrefix(e, "/") then abs else rel)
  }

  predicate Excluded(rel: string, abs: string, excludes: seq<string>, matches: (string, string) -> bool)
  {
    exists i :: 0 <= i < |excludes| && ExcludedBy(excludes[i], rel, abs, matches)
  }

  /** `isExcluded`: the loop over the exclusions, stopping at the first that
      applies. */
  method IsExcluded(rel: string, abs: string, excludes: seq<string>, matches: (string, string) -> bool) returns (b: bool)
    ensures b == Excluded(rel, abs, excludes, matches)
  {
    for i := 0 to |excludes|
      invariant forall k :: 0 <= k < i ==> !ExcludedBy(excludes[k], rel, abs, matches)
    {
      var ex := TrimSpace(excludes[i]);
      ghost var applies := Applies(ex, rel, abs, matches);
      assert applies == ExcludedBy(excludes[i], rel, abs, matches);
      if ex == "" {
        continue;
      }
      var target := rel;
      if HasPrefix(ex, "/") {
        target := abs;
      }
      if matches(ex, target) {
        return true;
      }
    }
    return false;
  }

  /** Blank exclusions are ignored, and an absolute exclusion looks only at
      the absolute path, a relative one only at the relative path. */
  lemma {:induction false} ExclusionTargets(ex: string, rel: string, abs: string, rel2: string, abs2: string, matches: (string, string) -> bool)
    ensures TrimSpace(ex) == "" ==> !ExcludedBy(ex, rel, abs, matches)
    ensures HasPrefix(TrimSpace(ex), "/") ==> ExcludedBy(ex, rel, abs, matches) == ExcludedBy(ex, rel2, abs, matches)
    ensures !HasPrefix(TrimSpace(ex), "/") ==> ExcludedBy(ex, rel, abs, matches) == ExcludedBy(ex, rel, abs2, matches)
  {
  }

  /** `relativePath`: `filepath.Rel`, or empty when it fails, which happens
      when exactly one of the two paths is absolute. */
  function RelativePath(home: string, path: string): string
  {
    if HasPrefix(home, "/") != HasPrefix(path, "/") then "" else Rel(Abs(home), Abs(path))
  }

  lemma {:induction false} JoinNonEmpty(parts: seq<string>)
    requires |parts| > 0 && parts[0] != ""
    ensures JoinSlash(parts) != ""
  {
    if |parts| > 1 {
      assert JoinSlash(parts) == parts[0] + "/" + JoinSlash(parts[1..]);
    }
  }

  /** The relative path is empty exactly when the two paths are not both
      absolute or both relative. */
  lemma {:induction false} RelativeEmpty(home: string, path: string)
    ensures RelativePath(home, path) == "" <==> HasPrefix(home, "/") != HasPrefix(path, "/")
  {
    if HasPrefix(home, "/") == HasPrefix(path, "/") {
      var a := Abs(home);
      var b := Abs(path);
      var n := CommonPrefix(a, b);
      var parts := Ups(|a| - n) + b[n..];
      if parts != [] {
        if |a| - n > 0 {
          assert parts[0] == "..";
        } else {
          assert parts[0] == b[n];
          assert IsSegment(b[n]);
        }
        JoinNonEmpty(parts);
      }
    }
  }

  /** `fileItem`: the item for a readable file, or None when it cannot be
      opened. */
  function FileItem(h: Host, user: string, abs: string, rel: string): (r: Option<InventoryItem>)
  {
    match h.read(abs)
    case None => None
    case Some(data) => Some(InventoryItem(user, rel, |data|, h.hash(data), false))
  }

  /** A readable file gives an item for its user and relative path, with the
      size and hash of its contents and not marked as a directory; an
      unreadable one gives none. */
  lemma {:induction false} FileItemFields(h: Host, user: string, abs: string, rel: string)
    ensures FileItem(h, user, abs, rel).Some? <==> h.read(abs).Some?
    ensures FileItem(h, user, abs, rel).Some? ==>
              var it := FileItem(h, user, abs, rel).value;
              var data := h.read(abs).value;
              it.user == user && it.path == rel && it.size == |data| && it.hash == h.hash(data) && !it.isDir
  {
  }

  // ---------------------------------------------------------------------
  // the files the scan reaches

  /** A file reached by the scan: its absolute path and its path relative
      to the user's home. */
  datatype Candidate = Candidate(path: string, rel: string)

  /** `path` lies strictly inside directory `dir`. */
  predicate Under(path: string, dir: string)
  {
    HasPrefix(path, if HasSuffix(dir, "/") then dir else dir + "/")
  }

  predicate Below(path: string, pruned: seq<string>)
  {
    exists k :: 0 <= k < |pruned| && Under(path, pruned[k])
  }

  /** The file one visit yields, given the directories skipped so far:
      nothing for a failed visit, one below a skipped directory, one
      without a relative path, a directory or an excluded file. */
  function Yield(h: Host, home: string, exc: seq<string>, v: Visit, pruned: seq<string>): seq<Candidate>
  {
    if v.failed || Below(v.path, pruned) || v.isDir then []
    else
      var rel := RelativePath(home, v.path);
      if rel == "" || Excluded(rel, v.path, exc, h.matches) then [] else [Candidate(v.path, rel)]
  }

  /** The directories skipped after one visit: an excluded directory the
      walk reaches is added. */
  function Prune(h: Host, home: string, exc: seq<string>, v: Visit, pruned: seq<string>): seq<string>
  {
    if !v.failed && !Below(v.path, pruned) && v.isDir && RelativePath(home, v.path) != ""
       && Excluded(RelativePath(home, v.path), v.path, exc, h.matches)
    then pruned + [v.path]
    else pruned
  }

  /** The files a walk yields. */
  function WalkFiles(h: Host, home: string, exc: seq<string>, visits: seq<Visit>, pruned: seq<string>): seq<Candidate>
    decreases |visits|
  {
    if visits == [] then []
    else Yield(h, home, exc, visits[0], pruned) + WalkFiles(h, home, exc, visits[1..], Prune(h, home, exc, visits[0], pruned))
  }

  /** The files one expanded match yields: nothing when it cannot be
      stat'ed, the walk below it when it is a directory, otherwise the
      match itself unless it is excluded. */
  function MatchFiles(h: Host, home: string, exc: seq<string>, m: string): seq<Candidate>
  {
    match h.stat(m)
    case None => []
    case Some(isDir) =>
      if isDir then WalkFiles(h, home, exc, h.walk(m), [])
      else
        var rel := RelativePath(home, m);
        if rel == "" || Excluded(rel, m, exc, h.matches) then [] else [Candidate(m, rel)]
  }

  function MatchesFiles(h: Host, home: string, exc: seq<string>, ms: seq<string>): seq<Candidate>
    decreases |ms|
  {
    if ms == [] then [] else MatchFiles(h, home, exc, ms[0]) + MatchesFiles(h, home, exc, ms[1..])
  }

  function IncludesFiles(h: Host, home: string, exc: seq<string>, incs: seq<string>): seq<Candidate>
    decreases |incs|
  {
    if incs == [] then []
    else MatchesFiles(h, home, exc, ExpandPattern(h, home, incs[0])) + IncludesFiles(h, home, exc, incs[1..])
  }

  /** Every file a user's track list reaches, in scan order, repeats
      included. */
  function UserFiles(h: Host, u: UserSpec): seq<Candidate>
  {
    var split := Patterns.Split(u.track);
    IncludesFiles(h, u.home, split.1, split.0)
  }

  // ---------------------------------------------------------------------
  // deduplication and the inventory

  function PathSet(cs: seq<Candidate>): set<string>
  {
    if cs == [] then {} else {cs[0].path} + PathSet(cs[1..])
  }

  /** The files that pass the `seen` check, in order, starting from the
      paths in `seen`. */
  function Admitted(seen: set<string>, cs: seq<Candidate>): seq<Candidate>
    decreases |cs|
  {
    if cs == [] then []
    else if cs[0].path in seen then Admitted(seen, cs[1..])
    else [cs[0]] + Admitted(seen + {cs[0].path}, cs[1..])
  }

  /** The items of the readable files among `cs`. */
  function Items(h: Host, user: string, cs: seq<Candidate>): seq<InventoryItem>
    decreases |cs|
  {
    if cs == [] then [] else ItemOf(h, user, cs[0]) + Items(h, user, cs[1..])
  }

  /** The item of one file, if it is readable. */
  function ItemOf(h: Host, user: string, c: Candidate): seq<InventoryItem>
  {
    match FileItem(h, user, c.path, c.rel)
    case Some(it) => [it]
    case None => []
  }

  /** One user's items: the seen set starts empty for every user. */
  function UserItems(h: Host, u: UserSpec): seq<InventoryItem>
  {
    Items(h, u.name, Admitted({}, UserFiles(h, u)))
  }

  function Inventory(h: Host, users: seq<UserSpec>): seq<InventoryItem>
    decreases |users|
  {
    if users == [] then [] else UserItems(h, users[0]) + Inventory(h, users[1..])
  }

  lemma {:induction false} PathSetConcat(a: seq<Candidate>, b: seq<Candidate>)
    ensures PathSet(a + b) == PathSet(a) + PathSet(b)
    decreases |a|
  {
    if a != [] {
      assert (a + b)[1..] == a[1..] + b;
      PathSetConcat(a[1..], b);
    } else {
      assert a + b == b;
    }
  }

  lemma {:induction false} ItemsConcat(h: Host, user: string, a: seq<Candidate>, b: seq<Candidate>)
    ensures Items(h, user, a + b) == Items(h, user, a) + Items(h, user, b)
    decreases |a|
  {
    if a != [] {
      assert (a + b)[1..] == a[1..] + b;
      assert (a + b)[0] == a[0];
      ItemsConcat(h, user, a[1..], b);
    } else {
      assert a + b == b;
    }
  }

  lemma {:induction false} AdmittedConcat(seen: set<string>, a: seq<Candidate>, b: seq<Candidate>)
    ensures Admitted(seen, a + b) == Admitted(seen, a) + Admitted(seen + PathSet(a), b)
    decreases |a|
  {
    if a != [] {
      assert (a + b)[1..] == a[1..] + b;
      assert (a + b)[0] == a[0];
      if a[0].path in seen {
        AdmittedConcat(seen, a[1..], b);
        assert seen + PathSet(a) == seen + PathSet(a[1..]);
      } else {
        AdmittedConcat(seen + {a[0].path}, a[1..], b);
        assert seen + {a[0].path} + PathSet(a[1..]) == seen + PathSet(a);
      }
    } else {
      assert a + b == b;
      assert PathSet(a) == {};
      assert seen + {} == seen;
    }
  }

  /** Processing `m` and then `r` from a state is processing `m + r`. */
  lemma {:induction false} Compose(h: Host, user: string, out: seq<InventoryItem>, seen: set<string>, m: seq<Candidate>, r: seq<Candidate>)
    ensures out + Items(h, user, Admitted(seen, m + r))
            == (out + Items(h, user, Admitted(seen, m))) + Items(h, user, Admitted(seen + PathSet(m), r))
    ensures seen + PathSet(m + r) == (seen + PathSet(m)) + PathSet(r)
  {
    AdmittedConcat(seen, m, r);
    ItemsConcat(h, user, Admitted(seen, m), Admitted(seen + PathSet(m), r));
    Associative(out, Items(h, user, Admitted(seen, m)), Items(h, user, Admitted(seen + PathSet(m), r)));
    PathSetConcat(m, r);
  }

  /** One more file whose path was seen: it is passed over. */
  lemma {:induction false} AdmitSeen(h: Host, user: string, out: seq<InventoryItem>, seen: set<string>, c: Candidate, r: seq<Candidate>)
    requires c.path in seen
    ensures out + Items(h, user, Admitted(seen, [c] + r)) == out + Items(h, user, Admitted(seen, r))
    ensures seen + PathSet([c] + r) == seen + PathSet(r)
  {
    assert ([c] + r)[0] == c && ([c] + r)[1..] == r;
  }

  /** One more file whose path was not seen: its item, when it is readable,
      and its path are added. */
  lemma {:induction false} AdmitUnseen(h: Host, user: string, out: seq<InventoryItem>, seen: set<string>, c: Candidate, r: seq<Candidate>)
    requires c.path !in seen
    ensures out + Items(h, user, Admitted(seen, [c] + r))
            == (out + ItemOf(h, user, c)) + Items(h, user, Admitted(seen + {c.path}, r))
    ensures seen + PathSet([c] + r) == (seen + {c.path}) + PathSet(r)
  {
    assert ([c] + r)[0] == c && ([c] + r)[1..] == r;
    var rest := Admitted(seen + {c.path}, r);
    assert Admitted(seen, [c] + r) == [c] + rest;
    assert ([c] + rest)[0] == c && ([c] + rest)[1..] == rest;
    assert Items(h, user, [c] + rest) == ItemOf(h, user, c) + Items(h, user, rest);
    Associative(out, ItemOf(h, user, c), Items(h, user, rest));
  }

  // ---------------------------------------------------------------------
  // properties of the inventory

  predicate DistinctPaths(a: seq<Candidate>)
  {
    forall i, j :: 0 <= i < j < |a| ==> a[i].path != a[j].path
  }

  /** Every file of `a` is one of `cs` and its path is not in `seen`. */
  predicate NewFrom(a: seq<Candidate>, cs: seq<Candidate>, seen: set<string>)
  {
    forall i :: 0 <= i < |a| ==> a[i].path !in seen && a[i] in cs
  }

  /** Every file of `cs` has its path in `seen` or in `a`. */
  predicate Covers(a: seq<Candidate>, cs: seq<Candidate>, seen: set<string>)
  {
    forall c :: c in cs ==> c.path in seen || exists i :: 0 <= i < |a| && a[i].path == c.path
  }

  /** The files that pass the `seen` check are among the files reached,
      and none of their paths was seen before. */
  lemma {:induction false} AdmittedNew(seen: set<string>, cs: seq<Candidate>)
    decreases |cs|
    ensures NewFrom(Admitted(seen, cs), cs, seen)
  {
    if cs != [] {
      var c := cs[0];
      if c.path in seen {
        AdmittedNew(seen, cs[1..]);
        forall i | 0 <= i < |Admitted(seen, cs)|
          ensures Admitted(seen, cs)[i] in cs
        {
          assert Admitted(seen, cs)[i] in cs[1..];
        }
      } else {
        var s := seen + {c.path};
        AdmittedNew(s, cs[1..]);
        var rest := Admitted(s, cs[1..]);
        var a := [c] + rest;
        assert Admitted(seen, cs) == a;
        forall i | 0 <= i < |a|
          ensures a[i].path !in seen && a[i] in cs
        {
          if i > 0 {
            assert a[i] == rest[i - 1];
            assert rest[i - 1] in cs[1..];
          }
        }
      }
    }
  }

  /** The files that pass the `seen` check have distinct paths. */
  lemma {:induction false} AdmittedDistinct(seen: set<string>, cs: seq<Candidate>)
    decreases |cs|
    ensures DistinctPaths(Admitted(seen, cs))
  {
    if cs != [] {
      var c := cs[0];
      if c.path in seen {
        AdmittedDistinct(seen, cs[1..]);
      } else {
        var s := seen + {c.path};
        AdmittedDistinct(s, cs[1..]);
        AdmittedNew(s, cs[1..]);
        var rest := Admitted(s, cs[1..]);
        var a := [c] + rest;
        assert Admitted(seen, cs) == a;
        forall i, j | 0 <= i < j < |a|
          ensures a[i].path != a[j].path
        {
          if i == 0 {
            assert a[0] == c && a[j] == rest[j - 1];
            assert rest[j - 1].path !in s;
          } else {
            assert a[i] == rest[i - 1] && a[j] == rest[j - 1];
          }
        }
      }
    }
  }

  /** Every file reached was seen before or passes the check. */
  lemma {:induction false} AdmittedCovers(seen: set<string>, cs: seq<Candidate>)
    decreases |cs|
    ensures Covers(Admitted(seen, cs), cs, seen)
  {
    if cs != [] {
      var c := cs[0];
      var s := if c.path in seen then seen else seen + {c.path};
      AdmittedCovers(s, cs[1..]);
      var rest := Admitted(s, cs[1..]);
      var a := Admitted(seen, cs);
      assert c.path !in seen ==> a == [c] + rest;
      assert c.path in seen ==> a == rest;
      forall d | d in cs
        ensures d.path in seen || exists i :: 0 <= i < |a| && a[i].path == d.path
      {
        if d.path == c.path {
          if c.path !in seen {
            assert a[0].path == d.path;
          }
        } else {
          var k :| 0 <= k < |cs| && cs[k] == d;
          assert k > 0 && cs[1..][k - 1] == d;
          if d.path !in seen {
            assert d.path !in s;
            var i :| 0 <= i < |rest| && rest[i].path == d.path;
            if c.path !in seen {
              assert a[i + 1].path == d.path;
            } else {
              assert a[i].path == d.path;
            }
          }
        }
      }
    }
  }

  /** Every item comes from one of the files listed, for the given user,
      and is not a directory. */
  lemma {:induction false} ItemsFrom(h: Host, user: string, cs: seq<Candidate>)
    decreases |cs|
    ensures forall it :: it in Items(h, user, cs) ==>
              it.user == user && !it.isDir && exists c :: c in cs && FileItem(h, user, c.path, c.rel) == Some(it)
  {
    if cs != [] {
      ItemsFrom(h, user, cs[1..]);
      assert forall c :: c in cs[1..] ==> c in cs;
      assert Items(h, user, cs) == ItemOf(h, user, cs[0]) + Items(h, user, cs[1..]);
    }
  }

  /** A walk never yields a file below a directory it has skipped. */
  lemma {:induction false} WalkAvoidsPruned(h: Host, home: string, exc: seq<string>, visits: seq<Visit>, pruned: seq<string>)
    decreases |visits|
    ensures forall c :: c in WalkFiles(h, home, exc, visits, pruned) ==> !Below(c.path, pruned) && !Excluded(c.rel, c.path, exc, h.matches)
  {
    if visits != [] {
      var v := visits[0];
      var p := Prune(h, home, exc, v, pruned);
      WalkAvoidsPruned(h, home, exc, visits[1..], p);
      forall c | c in WalkFiles(h, home, exc, visits[1..], p)
        ensures !Below(c.path, pruned)
      {
        forall k | 0 <= k < |pruned|
          ensures !Under(c.path, pruned[k])
        {
          assert p[k] == pruned[k];
        }
      }
    }
  }

  /** Once the walk reaches a directory that is excluded, nothing inside it
      is yielded. */
  lemma {:induction false} SkipsExcludedDirectory(h: Host, home: string, exc: seq<string>, d: Visit, rest: seq<Visit>, pruned: seq<string>)
    requires d.isDir && !d.failed && !Below(d.path, pruned)
    requires RelativePath(home, d.path) != "" && Excluded(RelativePath(home, d.path), d.path, exc, h.matches)
    ensures forall c :: c in WalkFiles(h, home, exc, [d] + rest, pruned) ==> !Under(c.path, d.path)
  {
    var p := pruned + [d.path];
    assert ([d] + rest)[0] == d && ([d] + rest)[1..] == rest;
    assert Yield(h, home, exc, d, pruned) == [] && Prune(h, home, exc, d, pruned) == p;
    assert WalkFiles(h, home, exc, [d] + rest, pruned) == WalkFiles(h, home, exc, rest, p);
    WalkAvoidsPruned(h, home, exc, rest, p);
    assert p[|pruned|] == d.path;
  }

  /** A file the walk reaches, with a relative path and no exclusion
      applying to it, is yielded. */
  lemma {:induction false} WalkKeepsFile(h: Host, home: string, exc: seq<string>, v: Visit, rest: seq<Visit>, pruned: seq<string>)
    requires !v.isDir && !v.failed && !Below(v.path, pruned)
    requires RelativePath(home, v.path) != "" && !Excluded(RelativePath(home, v.path), v.path, exc, h.matches)
    ensures Candidate(v.path, RelativePath(home, v.path)) in WalkFiles(h, home, exc, [v] + rest, pruned)
  {
    assert ([v] + rest)[0] == v && ([v] + rest)[1..] == rest;
    assert Yield(h, home, exc, v, pruned) == [Candidate(v.path, RelativePath(home, v.path))];
  }

  lemma {:induction false} MatchNotExcluded(h: Host, home: string, exc: seq<string>, m: string)
    ensures forall c :: c in MatchFiles(h, home, exc, m) ==> !Excluded(c.rel, c.path, exc, h.matches)
  {
    if h.stat(m).Some? && h.stat(m).value {
      WalkAvoidsPruned(h, home, exc, h.walk(m), []);
    }
  }

  lemma {:induction false} MatchesNotExcluded(h: Host, home: string, exc: seq<string>, ms: seq<string>)
    decreases |ms|
    ensures forall c :: c in MatchesFiles(h, home, exc, ms) ==> !Excluded(c.rel, c.path, exc, h.matches)
  {
    if ms != [] {
      MatchNotExcluded(h, home, exc, ms[0]);
      MatchesNotExcluded(h, home, exc, ms[1..]);
    }
  }

  lemma {:induction false} IncludesNotExcluded(h: Host, home: string, exc: seq<string>, incs: seq<string>)
    decreases |incs|
    ensures forall c :: c in IncludesFiles(h, home, exc, incs) ==> !Excluded(c.rel, c.path, exc, h.matches)
  {
    if incs != [] {
      MatchesNotExcluded(h, home, exc, ExpandPattern(h, home, incs[0]));
      IncludesNotExcluded(h, home, exc, incs[1..]);
    }
  }

  /** For one user, each absolute path is emitted at most once and no file
      matching an exclusion of the user's track list is emitted; every item
      is the user's and comes from a readable file the scan reached. */
  lemma {:induction false} UserInventory(h: Host, u: UserSpec)
    ensures UserItems(h, u) == Items(h, u.name, Admitted({}, UserFiles(h, u)))
    ensures DistinctPaths(Admitted({}, UserFiles(h, u)))
    ensures NewFrom(Admitted({}, UserFiles(h, u)), UserFiles(h, u), {})
    ensures Covers(Admitted({}, UserFiles(h, u)), UserFiles(h, u), {})
    ensures forall c :: c in Admitted({}, UserFiles(h, u)) ==> !Excluded(c.rel, c.path, Patterns.Split(u.track).1, h.matches)
    ensures forall it :: it in UserItems(h, u) ==> it.user == u.name && !it.isDir
  {
    var split := Patterns.Split(u.track);
    AdmittedDistinct({}, UserFiles(h, u));
    AdmittedNew({}, UserFiles(h, u));
    AdmittedCovers({}, UserFiles(h, u));
    IncludesNotExcluded(h, u.home, split.1, split.0);
    ItemsFrom(h, u.name, Admitted({}, UserFiles(h, u)));
  }

  /** Users are scanned independently: the inventory of a list of users is
      each user's items in turn, so a file two users track is listed for
      both. */
  lemma {:induction false} InventoryAppend(h: Host, users: seq<UserSpec>, u: UserSpec)
    decreases |users|
    ensures Inventory(h, users + [u]) == Inventory(h, users) + UserItems(h, u)
  {
    if users == [] {
      assert [] + [u] == [u];
      assert Inventory(h, [u]) == UserItems(h, u) + Inventory(h, []);
    } else {
      assert (users + [u])[1..] == users[1..] + [u];
      InventoryAppend(h, users[1..], u);
    }
  }

  // ---------------------------------------------------------------------
  // InventoryFor, one method per loop

  lemma {:induction false} InventoryStep(h: Host, users: seq<UserSpec>, k: nat, before: seq<InventoryItem>, after: seq<InventoryItem>)
    requires k < |users|
    requires Inventory(h, users) == before + Inventory(h, users[k..])
    requires after == before + UserItems(h, users[k])
    ensures Inventory(h, users) == after + Inventory(h, users[k + 1..])
  {
    assert users[k..][0] == users[k] && users[k..][1..] == users[k + 1..];
    assert Inventory(h, users[k..]) == UserItems(h, users[k]) + Inventory(h, users[k + 1..]);
    Associative(before, UserItems(h, users[k]), Inventory(h, users[k + 1..]));
  }

  /** The `WalkDir` callback for one visit: the skipped directories become
      `Prune`'s, and the file `Yield` names, if any, goes through the `seen`
      check. */
  method VisitEntry(h: Host, home: string, user: string, exc: seq<string>, v: Visit,
                    pruned0: seq<string>, out0: seq<InventoryItem>, seen0: set<string>)
    returns (pruned: seq<string>, out: seq<InventoryItem>, seen: set<string>)
    ensures pruned == Prune(h, home, exc, v, pruned0)
    ensures out == out0 + Items(h, user, Admitted(seen0, Yield(h, home, exc, v, pruned0)))
    ensures seen == seen0 + PathSet(Yield(h, home, exc, v, pruned0))
  {
    pruned, out, seen := pruned0, out0, seen0;
    if v.failed || Below(v.path, pruned) {
      return;
    }
    var rel := RelativePath(home, v.path);
    if rel == "" {
      return;
    }
    var ex := IsExcluded(rel, v.path, exc, h.matches);
    if v.isDir {
      if ex {
        pruned := pruned + [v.path];
      }
      return;
    }
    if ex {
      return;
    }
    var c := Candidate(v.path, rel);
    assert Yield(h, home, exc, v, pruned0) == [c] + [];
    if v.path in seen {
      AdmitSeen(h, user, out, seen, c, []);
      return;
    }
    AdmitUnseen(h, user, out, seen, c, []);
    seen := seen + {v.path};
    var item := FileItem(h, user, v.path, rel);
    assert ItemOf(h, user, c) == if item.Some? then [item.value] else [];
    if item.Some? {
      out := out + [item.value];
    }
  }

  /** `filepath.WalkDir` below one directory match. */
  method ScanWalk(h: Host, home: string, user: string, exc: seq<string>, root: string, out0: seq<InventoryItem>, seen0: set<string>)
    returns (out: seq<InventoryItem>, seen: set<string>)
    ensures out == out0 + Items(h, user, Admitted(seen0, WalkFiles(h, home, exc, h.walk(root), [])))
    ensures seen == seen0 + PathSet(WalkFiles(h, home, exc, h.walk(root), []))
  {
    var visits := h.walk(root);
    var pruned: seq<string> := [];
    out, seen := out0, seen0;
    for i := 0 to |visits|
      invariant out0 + Items(h, user, Admitted(seen0, WalkFiles(h, home, exc, visits, [])))
                == out + Items(h, user, Admitted(seen, WalkFiles(h, home, exc, visits[i..], pruned)))
      invariant seen0 + PathSet(WalkFiles(h, home, exc, visits, [])) == seen + PathSet(WalkFiles(h, home, exc, visits[i..], pruned))
    {
      var v := visits[i];
      assert visits[i..][0] == v && visits[i..][1..] == visits[i + 1..];
      ghost var y := Yield(h, home, exc, v, pruned);
      ghost var rest := WalkFiles(h, home, exc, visits[i + 1..], Prune(h, home, exc, v, pruned));
      assert WalkFiles(h, home, exc, visits[i..], pruned) == y + rest;
      Compose(h, user, out, seen, y, rest);
      pruned, out, seen := VisitEntry(h, home, user, exc, v, pruned, out, seen);
    }
    assert visits[0..] == visits;
  }

  /** The body of the loop over the matches of one pattern. */
  method ScanMatch(h: Host, home: string, user: string, exc: seq<string>, m: string, out0: seq<InventoryItem>, seen0: set<string>)
    returns (out: seq<InventoryItem>, seen: set<string>)
    ensures out == out0 + Items(h, user, Admitted(seen0, MatchFiles(h, home, exc, m)))
    ensures seen == seen0 + PathSet(MatchFiles(h, home, exc, m))
  {
    out, seen := out0, seen0;
    var info := h.stat(m);
    if info.None? {
      return;
    }
    if info.value {
      out, seen := ScanWalk(h, home, user, exc, m, out, seen);
      return;
    }
    var rel := RelativePath(home, m);
    if rel == "" {
      return;
    }
    var ex := IsExcluded(rel, m, exc, h.matches);
    if ex {
      return;
    }
    var c := Candidate(m, rel);
    assert MatchFiles(h, home, exc, m) == [c] + [];
    if m in seen {
      AdmitSeen(h, user, out, seen, c, []);
      return;
    }
    AdmitUnseen(h, user, out, seen, c, []);
    seen := seen + {m};
    var item := FileItem(h, user, m, rel);
    if item.Some? {
      out := out + [item.value];
    }
  }

  /** The loop over the matches of one include pattern. */
  method ScanPattern(h: Host, home: string, user: string, exc: seq<string>, pattern: string, out0: seq<InventoryItem>, seen0: set<string>)
    returns (out: seq<InventoryItem>, seen: set<string>)
    ensures out == out0 + Items(h, user, Admitted(seen0, MatchesFiles(h, home, exc, ExpandPattern(h, home, pattern))))
    ensures seen == seen0 + PathSet(MatchesFiles(h, home, exc, ExpandPattern(h, home, pattern)))
  {
    var ms := ExpandPattern(h, home, pattern);
    out, seen := out0, seen0;
    for j := 0 to |ms|
      invariant out0 + Items(h, user, Admitted(seen0, MatchesFiles(h, home, exc, ms)))
                == out + Items(h, user, Admitted(seen, MatchesFiles(h, home, exc, ms[j..])))
      invariant seen0 + PathSet(MatchesFiles(h, home, exc, ms)) == seen + PathSet(MatchesFiles(h, home, exc, ms[j..]))
    {
      assert ms[j..][0] == ms[j] && ms[j..][1..] == ms[j + 1..];
      Compose(h, user, out, seen, MatchFiles(h, home, exc, ms[j]), MatchesFiles(h, home, exc, ms[j + 1..]));
      out, seen := ScanMatch(h, home, user, exc, ms[j], out, seen);
    }
    assert ms[0..] == ms;
  }

  /** The body of the loop over the users: a fresh `seen` set, then the
      loop over the include patterns. */
  method ScanUser(h: Host, u: UserSpec, out0: seq<InventoryItem>) returns (out: seq<InventoryItem>)
    ensures out == out0 + UserItems(h, u)
  {
    var includes, excludes := Patterns.SplitPatterns(u.track);
    var seen: set<string> := {};
    out := out0;
    for j := 0 to |includes|
      invariant out0 + Items(h, u.name, Admitted({}, IncludesFiles(h, u.home, excludes, includes)))
                == out + Items(h, u.name, Admitted(seen, IncludesFiles(h, u.home, excludes, includes[j..])))
    {
      assert includes[j..][0] == includes[j] && includes[j..][1..] == includes[j + 1..];
      var ms := ExpandPattern(h, u.home, includes[j]);
      Compose(h, u.name, out, seen, MatchesFiles(h, u.home, excludes, ms), IncludesFiles(h, u.home, excludes, includes[j + 1..]));
      out, seen := ScanPattern(h, u.home, u.name, excludes, includes[j], out, seen);
    }
    assert includes[0..] == includes;
  }

  /** `InventoryFor`: every user's items in the order of the users; the
      error it returns is always nil. */
  method InventoryFor(h: Host, users: seq<UserSpec>) returns (out: seq<InventoryItem>, err: Option<Error>)
    ensures out == Inventory(h, users)
    ensures err.None?
  {
    out := [];
    for k := 0 to |users|
      invariant Inventory(h, users) == out + Inventory(h, users[k..])
    {
      ghost var before := out;
      out := ScanUser(h, users[k], out);
      InventoryStep(h, users, k, before, out);
    }
    assert users[0..] == users;
    return out, None;
  }
}
