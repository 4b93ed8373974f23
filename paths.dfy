/** Lexical path handling as Go's `path/filepath` does it on a Unix system:
    splitting at `/`, `Clean`, `Join`, `Dir`, and `Rel`. An absolute cleaned
    path is represented by its list of segments. */
module Paths {
  import opened Wrappers
  import opened Strings

  /** A segment of a cleaned path: non-empty, no separator, not `.` or `..`. */
  predicate IsSegment(x: string)
  {
    x != "" && x != "." && x != ".." && '/' !in x
  }

  /** A cleaned absolute path; `[]` is `/`. */
  predicate IsPath(p: seq<string>)
  {
    forall i :: 0 <= i < |p| ==> IsSegment(p[i])
  }

  type Path = seq<string>

  predicate IsPrefix(a: seq<string>, b: seq<string>)
  {
    |a| <= |b| && b[..|a|] == a
  }

  predicate NoSlash(parts: seq<string>)
  {
    forall i :: 0 <= i < |parts| ==> '/' !in parts[i]
  }

  /** `strings.Split(s, "/")`. */
  function Split(s: string): (parts: seq<string>)
    ensures |parts| >= 1 && NoSlash(parts)
  {
    if '/' !in s then [s]
    else
      var i := FirstIndex(s, '/');
      [s[..i]] + Split(s[i + 1..])
  }

  /** `strings.Join(parts, "/")`. */
  function JoinSlash(parts: seq<string>): string
  {
    JoinWith(parts, "/")
  }

  lemma {:induction false} SplitAt(s: string, i: nat)
    requires i < |s| && s[i] == '/' && '/' !in s[..i]
    ensures Split(s) == [s[..i]] + Split(s[i + 1..])
  {
    FirstIndexAt(s, '/', i);
  }

  lemma {:induction false} SplitConcat(a: string, b: string)
    ensures Split(a + "/" + b) == Split(a) + Split(b)
    decreases |a|
  {
    var s := a + "/" + b;
    assert s[..|a|] == a;
    if '/' !in a {
      SplitAt(s, |a|);
      assert s[|a| + 1..] == b;
    } else {
      var j := FirstIndex(a, '/');
      assert s[..j] == a[..j];
      SplitAt(s, j);
      SplitAt(a, j);
      assert s[j + 1..] == a[j + 1..] + "/" + b;
      SplitConcat(a[j + 1..], b);
      Associative([a[..j]], Split(a[j + 1..]), Split(b));
    }
  }

  /** Splitting undoes joining when the parts have no separator. */
  lemma {:induction false} SplitJoin(parts: seq<string>)
    requires |parts| >= 1 && NoSlash(parts)
    ensures Split(JoinSlash(parts)) == parts
  {
    if |parts| == 1 {
      assert '/' !in parts[0];
    } else {
      assert JoinSlash(parts) == parts[0] + "/" + JoinSlash(parts[1..]);
      SplitConcat(parts[0], JoinSlash(parts[1..]));
      assert Split(parts[0]) == [parts[0]];
      SplitJoin(parts[1..]);
    }
  }

  /** The first part of a split: `.` for a leading `./`, empty for a leading
      `/` or an empty string. */
  lemma {:induction false} SplitHead(s: string)
    ensures HasPrefix(s, "./") ==> Split(s)[0] == "."
    ensures HasPrefix(s, "/") || s == "" ==> Split(s)[0] == ""
  {
    if HasPrefix(s, "./") {
      SplitAt(s, 1);
    } else if HasPrefix(s, "/") {
      SplitAt(s, 0);
    }
  }

  /** Joining is injective on separator-free parts. */
  lemma {:induction false} JoinInjective(a: seq<string>, b: seq<string>)
    requires |a| >= 1 && |b| >= 1 && NoSlash(a) && NoSlash(b)
    ensures JoinSlash(a) == JoinSlash(b) ==> a == b
  {
    SplitJoin(a);
    SplitJoin(b);
  }

  /** Cleaned paths have no separator in their segments. */
  lemma {:induction false} PathNoSlash(p: Path)
    requires IsPath(p)
    ensures NoSlash(p)
  {
  }

  /** Joining undoes splitting. */
  lemma {:induction false} JoinSplit(s: string)
    ensures JoinSlash(Split(s)) == s
  {
    if '/' in s {
      var i := FirstIndex(s, '/');
      JoinSplit(s[i + 1..]);
      assert s == s[..i] + "/" + s[i + 1..];
    }
  }

  /** One step of `filepath.Clean` on an absolute path: empty parts and `.`
      vanish, `..` removes the last segment (and stays at `/`). */
  function Step(base: Path, part: string): (p: Path)
    requires IsPath(base) && '/' !in part
    ensures IsPath(p)
  {
    if part == "" || part == "." then base
    else if part == ".." then (if base == [] then [] else base[..|base| - 1])
    else base + [part]
  }

  /** `filepath.Clean(filepath.Join(base, parts...))` for a cleaned absolute base. */
  function Resolve(base: Path, parts: seq<string>): (p: Path)
    requires IsPath(base) && NoSlash(parts)
    ensures IsPath(p)
    decreases |parts|
  {
    if parts == [] then base else Resolve(Step(base, parts[0]), parts[1..])
  }

  lemma {:induction false} ResolveConcat(base: Path, a: seq<string>, b: seq<string>)
    requires IsPath(base) && NoSlash(a) && NoSlash(b)
    ensures NoSlash(a + b) && Resolve(base, a + b) == Resolve(Resolve(base, a), b)
    decreases |a|
  {
    assert NoSlash(a + b);
    if a != [] {
      assert (a + b)[1..] == a[1..] + b;
      ResolveConcat(Step(base, a[0]), a[1..], b);
    } else {
      assert a + b == b;
    }
  }

  /** Resolving plain segments appends them. */
  lemma {:induction false} ResolveSegments(base: Path, p: Path)
    requires IsPath(base) && IsPath(p)
    ensures NoSlash(p) && Resolve(base, p) == base + p
    decreases |p|
  {
    if p != [] {
      ResolveSegments(base + [p[0]], p[1..]);
      assert base + [p[0]] + p[1..] == base + p;
    }
  }

  /** The cleaned absolute form of a path string (relative strings are taken
      relative to `/`). */
  function Abs(s: string): (p: Path)
    ensures IsPath(p)
  {
    Resolve([], Split(s))
  }

  /** `filepath.Join(base, s)`, cleaned. */
  function JoinPath(base: Path, s: string): (p: Path)
    requires IsPath(base)
    ensures IsPath(p)
  {
    Resolve(base, Split(s))
  }

  /** The text of an absolute path. */
  function Render(p: Path): string
  {
    if p == [] then "/" else "/" + JoinSlash(p)
  }

  /** Rendering a cleaned path and cleaning it again gives it back. */
  lemma {:induction false} RenderAbs(p: Path)
    requires IsPath(p)
    ensures Abs(Render(p)) == p
  {
    if p == [] {
      var r := "/";
      SplitAt(r, 0);
      assert r[1..] == "" && r[..0] == "";
      assert Split("") == [""];
      assert Split(r) == ["", ""];
      assert Resolve([], ["", ""]) == [];
    } else {
      assert NoSlash(p);
      assert Render(p) == "" + "/" + JoinSlash(p);
      SplitConcat("", JoinSlash(p));
      SplitJoin(p);
      assert Split("") == [""];
      assert Split(Render(p)) == [""] + p;
      ResolveSegments([], p);
    }
  }

  /** The parts `filepath.Dir` keeps of a relative path: all but the last. */
  function DirParts(s: string): (parts: seq<string>)
    ensures NoSlash(parts) && Split(s) == parts + [Base(s)]
  {
    var sp := Split(s);
    assert sp == sp[..|sp| - 1] + [sp[|sp| - 1]];
    sp[..|sp| - 1]
  }

  /** The last part of `s` after its final separator. */
  function Base(s: string): string
  {
    var sp := Split(s);
    sp[|sp| - 1]
  }

  /** Joining a relative path whose last part is a plain name puts that name
      directly below the joined directory part; a last part `""` or `.` names
      the directory itself. */
  lemma {:induction false} JoinLast(base: Path, pre: seq<string>, s: string)
    requires IsPath(base) && NoSlash(pre)
    ensures NoSlash(pre + Split(s)) && NoSlash(pre + DirParts(s))
    ensures IsSegment(Base(s)) ==> Resolve(base, pre + Split(s)) == Resolve(base, pre + DirParts(s)) + [Base(s)]
    ensures Base(s) == "" || Base(s) == "." ==> Resolve(base, pre + Split(s)) == Resolve(base, pre + DirParts(s))
  {
    var d := pre + DirParts(s);
    assert NoSlash(d);
    assert pre + Split(s) == d + [Base(s)];
    ResolveConcat(base, d, [Base(s)]);
    var r := Resolve(base, d);
    assert Resolve(r, [Base(s)]) == Step(r, Base(s));
  }

  /** `filepath.Rel(home, p)` for cleaned absolute paths, with forward slashes. */
  function Rel(home: Path, p: Path): string
  {
    var n := CommonPrefix(home, p);
    var parts := Ups(|home| - n) + p[n..];
    if parts == [] then "." else JoinSlash(parts)
  }

  function CommonPrefix(a: seq<string>, b: seq<string>): (n: nat)
    ensures n <= |a| && n <= |b| && a[..n] == b[..n]
    ensures n < |a| && n < |b| ==> a[n] != b[n]
  {
    if a == [] || b == [] || a[0] != b[0] then 0
    else
      var m := CommonPrefix(a[1..], b[1..]);
      assert a[..m + 1] == [a[0]] + a[1..][..m];
      assert b[..m + 1] == [b[0]] + b[1..][..m];
      m + 1
  }

  function Ups(n: nat): (r: seq<string>)
    ensures |r| == n && forall i :: 0 <= i < n ==> r[i] == ".."
  {
    if n == 0 then [] else [".."] + Ups(n - 1)
  }

  /** Below `home`, the relative path is the remaining segments joined. */
  lemma {:induction false} RelBelow(home: Path, p: Path)
    requires |home| < |p| && p[..|home|] == home
    ensures Rel(home, p) == JoinSlash(p[|home|..])
  {
    var n := CommonPrefix(home, p);
    assert forall k :: 0 <= k < |home| ==> p[k] == home[k];
    assert n == |home|;
    assert Ups(|home| - n) + p[n..] == p[|home|..];
  }
}
