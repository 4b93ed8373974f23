/** Splitting a track list into include and exclusion patterns: each entry
    is trimmed, blank entries are dropped, an entry starting with `!` is an
    exclusion with that one `!` removed, any other is an include. The
    scanner's `splitPatterns` and the lint command's `splitTrack` are this
    same loop. */
module Patterns {
  import opened Strings

  /** The trimmed, non-blank entries, in order. */
  function NonBlank(ps: seq<string>): seq<string>
  {
    if ps == [] then []
    else
      var t := TrimSpace(ps[|ps| - 1]);
      NonBlank(ps[..|ps| - 1]) + (if t == "" then [] else [t])
  }

  /** The includes and exclusions of a track list, in order. */
  function Split(ps: seq<string>): (r: (seq<string>, seq<string>))
  {
    if ps == [] then ([], [])
    else Add(Split(ps[..|ps| - 1]), ps[|ps| - 1])
  }

  /** One entry of the loop added to the lists built so far. */
  function Add(pre: (seq<string>, seq<string>), p: string): (r: (seq<string>, seq<string>))
  {
    var t := TrimSpace(p);
    if t == "" then pre
    else if HasPrefix(t, "!") then (pre.0, pre.1 + [TrimPrefix(t, "!")])
    else (pre.0 + [t], pre.1)
  }

  /** The loop over the entries. */
  method SplitPatterns(ps: seq<string>) returns (includes: seq<string>, excludes: seq<string>)
    ensures (includes, excludes) == Split(ps)
  {
    includes, excludes := [], [];
    for i := 0 to |ps|
      invariant (includes, excludes) == Split(ps[..i])
    {
      assert ps[..i + 1][..i] == ps[..i];
      var p := TrimSpace(ps[i]);
      if p == "" {
        continue;
      }
      if HasPrefix(p, "!") {
        excludes := excludes + [TrimPrefix(p, "!")];
        continue;
      }
      includes := includes + [p];
    }
    assert ps[..|ps|] == ps;
  }

  /** Every non-blank entry lands in exactly one of the two lists: their
      lengths add up to the number of non-blank entries. */
  lemma {:induction false} SplitCounts(ps: seq<string>)
    ensures |Split(ps).0| + |Split(ps).1| == |NonBlank(ps)|
  {
    if ps != [] {
      SplitCounts(ps[..|ps| - 1]);
    }
  }

  /** The includes are the non-blank entries without a leading `!`; the
      exclusions are the others with their `!` removed. */
  lemma {:induction false} SplitMembers(ps: seq<string>)
    ensures forall x :: x in Split(ps).0 <==> x in NonBlank(ps) && !HasPrefix(x, "!")
    ensures forall x :: x in Split(ps).1 <==> exists y :: y in NonBlank(ps) && HasPrefix(y, "!") && x == TrimPrefix(y, "!")
  {
    if ps != [] {
      var pre := ps[..|ps| - 1];
      SplitMembers(pre);
      var t := TrimSpace(ps[|ps| - 1]);
      if t != "" && HasPrefix(t, "!") {
        forall x | x in Split(ps).1
          ensures exists y :: y in NonBlank(ps) && HasPrefix(y, "!") && x == TrimPrefix(y, "!")
        {
          if x != TrimPrefix(t, "!") {
            assert x in Split(pre).1;
          } else {
            assert t in NonBlank(ps);
          }
        }
      }
    }
  }

  /** Order is kept: splitting two lists one after the other gives the
      includes of the first followed by those of the second, and likewise
      for the exclusions. */
  lemma {:induction false} SplitAppend(a: seq<string>, b: seq<string>)
    ensures Split(a + b) == (Split(a).0 + Split(b).0, Split(a).1 + Split(b).1)
    decreases |b|
  {
    if b == [] {
      assert a + b == a;
      assert Split(a).0 + [] == Split(a).0 && Split(a).1 + [] == Split(a).1;
    } else {
      var b', x := b[..|b| - 1], b[|b| - 1];
      assert b == b' + [x];
      SplitAppend(a, b');
      SplitSnocAppend(a, b', x);
    }
  }

  /** The inductive step of SplitAppend: one more entry after `a + b`. */
  lemma {:induction false} SplitSnocAppend(a: seq<string>, b: seq<string>, x: string)
    requires Split(a + b) == (Split(a).0 + Split(b).0, Split(a).1 + Split(b).1)
    ensures Split(a + (b + [x])) == (Split(a).0 + Split(b + [x]).0, Split(a).1 + Split(b + [x]).1)
  {
    assert a + (b + [x]) == (a + b) + [x];
    SplitLast(a + b, x);
    SplitLast(b, x);
    AddAfter(Split(a).0, Split(a).1, Split(b), x);
  }

  /** Splitting a list with one more entry adds that entry to the lists. */
  lemma SplitLast(ps: seq<string>, x: string)
    ensures Split(ps + [x]) == Add(Split(ps), x)
  {
    var px := ps + [x];
    assert px[..|px| - 1] == ps && px[|px| - 1] == x;
  }

  /** Adding an entry after two prefixes extends only the lists' ends. */
  lemma {:induction false} AddAfter(u: seq<string>, w: seq<string>, v: (seq<string>, seq<string>), x: string)
    ensures Add((u + v.0, w + v.1), x) == (u + Add(v, x).0, w + Add(v, x).1)
  {
    var t := TrimSpace(x);
    assert u + v.0 + [t] == u + (v.0 + [t]);
    assert w + v.1 + [TrimPrefix(t, "!")] == w + (v.1 + [TrimPrefix(t, "!")]);
  }

  /** A single entry: blank ones vanish, `!x` is the exclusion `x`, and any
      other entry is an include. */
  lemma {:induction false} SplitOne(p: string)
    ensures var t := TrimSpace(p);
            Split([p]) == if t == "" then ([], [])
                          else if HasPrefix(t, "!") then ([], [TrimPrefix(t, "!")])
                          else ([t], [])
  {
    assert [p][..0] == [] && [p][0] == p;
    var t := TrimSpace(p);
    assert [] + [t] == [t] && [] + [TrimPrefix(t, "!")] == [TrimPrefix(t, "!")];
  }
}
