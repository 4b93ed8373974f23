/** The relative-path validators. The disk store, the two key-value backends
    and the SQL backend each carry a copy of the same rules; the server's
    legacy store has a variant without the length limit. On a Unix build
    `filepath.ToSlash` changes nothing, so it does not appear. */
module Sanitize {
  import opened Wrappers
  import opened Strings
  import opened Errors
  import opened Paths

  /** `MaxPathLen`, in bytes. */
  const MaxPathLen: nat := 4096

  /** The shared rules: strip one leading `./`, then reject the empty path, a
      path longer than `MaxPathLen` bytes, a leading `/` and any `..`. */
  function CleanRel(rel: string): (r: Result<string>)
    ensures r.Ok? ==> r.value != "" && Utf8Len(r.value) <= MaxPathLen
                      && !HasPrefix(r.value, "/") && !Contains(r.value, "..")
                      && (rel == r.value || rel == "./" + r.value)
  {
    var x := TrimPrefix(rel, "./");
    if x == "" then Err(EmptyPath)
    else if Utf8Len(x) > MaxPathLen then Err(PathTooLong)
    else if HasPrefix(x, "/") then Err(AbsolutePath)
    else if Contains(x, "..") then Err(PathTraversal)
    else Ok(x)
  }

  /** The rejections, in the order the checks run. */
  lemma {:induction false} CleanRelErrors(rel: string)
    ensures var x := TrimPrefix(rel, "./");
            && (CleanRel(rel) == Err(EmptyPath) <==> x == "")
            && (CleanRel(rel) == Err(PathTooLong) <==> x != "" && Utf8Len(x) > MaxPathLen)
            && (CleanRel(rel) == Err(AbsolutePath) <==> x != "" && Utf8Len(x) <= MaxPathLen && HasPrefix(x, "/"))
            && (CleanRel(rel) == Err(PathTraversal) <==>
                  x != "" && Utf8Len(x) <= MaxPathLen && !HasPrefix(x, "/") && Contains(x, ".."))
            && (CleanRel(rel).Ok? <==>
                  x != "" && Utf8Len(x) <= MaxPathLen && !HasPrefix(x, "/") && !Contains(x, ".."))
  {
  }

  /** No accepted path has a `..` part, so joining it never climbs out of the
      directory it is joined to. */
  lemma {:induction false} AcceptedStaysBelow(base: Path, pre: seq<string>, rel: string)
    requires IsPath(base) && NoSlash(pre) && CleanRel(rel).Ok?
    ensures NoSlash(pre + Split(CleanRel(rel).value))
    ensures IsPrefix(Resolve(base, pre), Resolve(base, pre + Split(CleanRel(rel).value)))
  {
    var x := CleanRel(rel).value;
    NoDotDotPart(x);
    ResolveConcat(base, pre, Split(x));
    ResolveNoUp(Resolve(base, pre), Split(x));
  }

  lemma {:induction false} NoDotDotPart(x: string)
    requires !Contains(x, "..")
    ensures forall i :: 0 <= i < |Split(x)| ==> Split(x)[i] != ".."
    decreases |x|
  {
    if '/' in x {
      var i := FirstIndex(x, '/');
      SuffixLacks(x, i + 1, "..");
      NoDotDotPart(x[i + 1..]);
    }
  }

  lemma {:induction false} ResolveNoUp(base: Path, parts: seq<string>)
    requires IsPath(base) && NoSlash(parts) && forall i :: 0 <= i < |parts| ==> parts[i] != ".."
    ensures IsPrefix(base, Resolve(base, parts))
    decreases |parts|
  {
    if parts != [] {
      var b2 := Step(base, parts[0]);
      assert IsPrefix(base, b2);
      ResolveNoUp(b2, parts[1..]);
    }
  }

  /** A short path that needs no stripping is refused for its first failing
      test, without counting its bytes. */
  lemma {:induction false} Refused(x: string)
    requires x != "" && !HasPrefix(x, "./") && 4 * |x| <= MaxPathLen
    ensures HasPrefix(x, "/") ==> CleanRel(x) == Err(AbsolutePath)
    ensures !HasPrefix(x, "/") && Contains(x, "..") ==> CleanRel(x) == Err(PathTraversal)
    ensures !HasPrefix(x, "/") && !Contains(x, "..") ==> CleanRel(x) == Ok(x)
  {
  }

  /** The traversal test is on the text, not on path segments: a file name
      that merely contains two dots is refused as well. */
  lemma DotsInName()
    ensures CleanRel("a..b") == Err(PathTraversal)
  {
    var s := "a..b";
    assert s[1..3] == "..";
    ContainsAt(s, "..", 1);
    Refused(s);
  }

  /** A parent reference is refused as traversal. */
  lemma ParentRefused()
    ensures CleanRel("../evil.txt") == Err(PathTraversal)
  {
    var t := "../evil.txt";
    assert t[0..2] == "..";
    ContainsAt(t, "..", 0);
    Refused(t);
  }

  /** An absolute path is refused. */
  lemma AbsoluteRefused()
    ensures CleanRel("/abs.txt") == Err(AbsolutePath)
  {
    var t := "/abs.txt";
    assert t[..2][1] == 'a' && t[..1] == "/";
    Refused(t);
  }

  /** A leading `./` is stripped. */
  lemma DotSlashStripped()
    ensures CleanRel("./ok.txt") == Ok("ok.txt")
  {
    assert TrimPrefix("./ok.txt", "./") == "ok.txt";
    NoDoubledChar("ok.txt", '.');
    assert [('.' as char), '.'] == "..";
    Refused("ok.txt");
  }

  /** Only one `./` is stripped, so cleaning is not idempotent. */
  lemma NotIdempotent()
    ensures CleanRel("././a") == Ok("./a")
    ensures CleanRel("./a") == Ok("a")
  {
    assert TrimPrefix("././a", "./") == "./a";
    var x := "./a";
    assert !Contains(x, "..") by {
      assert !HasPrefix(x, "..");
      assert x[1..] == "/a" && !HasPrefix(x[1..], "..");
      assert x[1..][1..] == "a" && !HasPrefix("a", "..");
      assert "a"[1..] == "" && !HasPrefix("", "..");
    }
  }

  /** The length limit counts bytes: a path of 4096 ASCII characters passes
      and one of 4097 does not. */
  lemma {:induction false} LengthLimit(x: string)
    requires IsAscii(x) && !HasPrefix(x, "./") && x != ""
    ensures |x| > MaxPathLen ==> CleanRel(x) == Err(PathTooLong)
    ensures |x| <= MaxPathLen ==> CleanRel(x) != Err(PathTooLong)
  {
    Utf8LenAscii(x);
  }

  /** The key-value backends' key `user + "/" + rel`; the user must not be empty. */
  function KvKey(user: string, rel: string): (r: Result<string>)
    ensures r.Ok? <==> user != "" && CleanRel(rel).Ok?
    ensures r.Ok? ==> r.value == user + "/" + CleanRel(rel).value
    ensures user == "" ==> r == Err(EmptyUser)
    ensures user != "" && CleanRel(rel).Err? ==> r == Err(CleanRel(rel).error)
  {
    if user == "" then Err(EmptyUser)
    else match CleanRel(rel)
      case Err(e) => Err(e)
      case Ok(x) => Ok(user + "/" + x)
  }

  /** A key splits back into its user and path at the first `/` when the
      user has no `/`. */
  lemma {:induction false} KvKeySplits(user: string, rel: string)
    requires KvKey(user, rel).Ok? && '/' !in user
    ensures CutFirst(KvKey(user, rel).value, '/') == Some((user, CleanRel(rel).value))
  {
    CutFirstJoin(user, CleanRel(rel).value, '/');
  }

  /** The SQL backend's version: the same checks, returning the pair. */
  function RowKey(user: string, rel: string): (r: Result<(string, string)>)
    ensures r.Ok? <==> KvKey(user, rel).Ok?
    ensures r.Ok? ==> r.value == (user, CleanRel(rel).value) && r.value.0 + "/" + r.value.1 == KvKey(user, rel).value
    ensures r.Err? ==> r.error == KvKey(user, rel).error
  {
    if user == "" then Err(EmptyUser)
    else match CleanRel(rel)
      case Err(e) => Err(e)
      case Ok(x) => Ok((user, x))
  }

  /** The server's legacy `clean`: the same rules without the length limit. */
  function LegacyClean(rel: string): (r: Result<string>)
    ensures r.Ok? ==> r.value != "" && !HasPrefix(r.value, "/") && !Contains(r.value, "..")
                      && (rel == r.value || rel == "./" + r.value)
  {
    var x := TrimPrefix(rel, "./");
    if x == "" then Err(EmptyPath)
    else if HasPrefix(x, "/") then Err(AbsoluteRejected)
    else if Contains(x, "..") then Err(TraversalRejected)
    else Ok(x)
  }

  /** The legacy rules accept exactly what the shared rules accept plus the
      paths that are only too long, and give the same cleaned path. */
  lemma {:induction false} LegacyCleanVersusCleanRel(rel: string)
    ensures var x := TrimPrefix(rel, "./");
            LegacyClean(rel).Ok? <==>
              (CleanRel(rel).Ok? || (CleanRel(rel) == Err(PathTooLong) && !HasPrefix(x, "/") && !Contains(x, "..")))
    ensures CleanRel(rel).Ok? ==> LegacyClean(rel) == CleanRel(rel)
  {
  }
}
