/** The `init` command's normalisation of a home directory: a trailing path
    separator is added unless the string is empty or already has one. */
module InitPath {
  import opened Strings

  const Separator := "/"

  function EnsureTrailingSlash(s: string): (r: string)
    ensures r == "" <==> s == ""
    ensures r != "" ==> HasSuffix(r, Separator)
    ensures r == s || r == s + Separator
    ensures HasSuffix(s, Separator) ==> r == s
  {
    if s == "" then s
    else if HasSuffix(s, Separator) then s
    else s + Separator
  }

  /** Applying it twice is applying it once. */
  lemma {:induction false} Idempotent(s: string)
    ensures EnsureTrailingSlash(EnsureTrailingSlash(s)) == EnsureTrailingSlash(s)
  {
  }

  /** Without a trailing separator exactly one is appended, keeping `s` as
      the prefix. */
  lemma {:induction false} AppendsOne(s: string)
    requires s != "" && !HasSuffix(s, Separator)
    ensures |EnsureTrailingSlash(s)| == |s| + 1 && HasPrefix(EnsureTrailingSlash(s), s)
  {
    assert (s + Separator)[..|s|] == s;
  }
}
