/** The handful of Go `strings` operations the core uses, on Dafny strings.
    Go strings are byte sequences; lengths that the Go code measures with
    `len` are measured here with `Utf8Len`. */
module Strings {
  import opened Wrappers

  predicate HasPrefix(s: string, p: string)
  {
    |p| <= |s| && s[..|p|] == p
  }

  predicate HasSuffix(s: string, p: string)
  {
    |p| <= |s| && s[|s| - |p|..] == p
  }

  /** `strings.TrimPrefix`: removes `p` once when `s` starts with it. */
  function TrimPrefix(s: string, p: string): (r: string)
    ensures HasPrefix(s, p) ==> s == p + r
    ensures !HasPrefix(s, p) ==> r == s
  {
    if HasPrefix(s, p) then s[|p|..] else s
  }

  /** `strings.Contains`: `t` occurs in `s` as a contiguous substring. */
  predicate Contains(s: string, t: string)
    decreases |s|
  {
    HasPrefix(s, t) || (|s| > 0 && Contains(s[1..], t))
  }

  lemma {:induction false} ContainsAt(s: string, t: string, i: nat)
    requires i + |t| <= |s| && s[i..i + |t|] == t
    ensures Contains(s, t)
  {
    if i > 0 {
      assert s[1..][i - 1..i - 1 + |t|] == s[i..i + |t|];
      ContainsAt(s[1..], t, i - 1);
    }
  }

  lemma {:induction false} ContainsWitness(s: string, t: string) returns (i: nat)
    requires Contains(s, t)
    ensures i + |t| <= |s| && s[i..i + |t|] == t
    decreases |s|
  {
    if HasPrefix(s, t) {
      i := 0;
    } else {
      var j := ContainsWitness(s[1..], t);
      assert s[1..][j..j + |t|] == s[j + 1..j + 1 + |t|];
      i := j + 1;
    }
  }

  /** What a string lacks, each of its suffixes lacks. */
  lemma {:induction false} SuffixLacks(s: string, k: nat, t: string)
    requires k <= |s| && !Contains(s, t)
    ensures !Contains(s[k..], t)
  {
    if Contains(s[k..], t) {
      var j := ContainsWitness(s[k..], t);
      assert s[k + j..k + j + |t|] == s[k..][j..j + |t|];
      ContainsAt(s, t, k + j);
    }
  }

  lemma {:induction false} MissingChar(s: string, t: string, c: char)
    requires c in t && c !in s
    ensures !Contains(s, t)
    decreases |s|
  {
    var k :| 0 <= k < |t| && t[k] == c;
    assert |t| <= |s| ==> s[..|t|][k] != t[k];
    if |s| > 0 {
      assert forall j :: 0 <= j < |s| - 1 ==> s[1..][j] == s[j + 1];
      MissingChar(s[1..], t, c);
    }
  }

  lemma {:induction false} ContainsExtend(a: string, s: string, b: string, t: string)
    requires Contains(s, t)
    ensures Contains(a + s + b, t)
  {
    var i := ContainsWitness(s, t);
    assert (a + s + b)[|a| + i..|a| + i + |t|] == s[i..i + |t|];
    ContainsAt(a + s + b, t, |a| + i);
  }

  /** A string in which `c` never follows `c` does not contain `cc`. */
  lemma {:induction false} NoDoubledChar(s: string, c: char)
    requires forall i :: 0 <= i < |s| - 1 ==> !(s[i] == c && s[i + 1] == c)
    ensures !Contains(s, [c, c])
    decreases |s|
  {
    assert !HasPrefix(s, [c, c]) by {
      assert |s| >= 2 ==> !(s[0] == c && s[1] == c);
    }
    if |s| > 0 {
      var r := s[1..];
      forall i | 0 <= i < |r| - 1 ensures !(r[i] == c && r[i + 1] == c) {
        assert r[i] == s[i + 1] && r[i + 1] == s[i + 2];
      }
      NoDoubledChar(r, c);
    }
  }

  /** Whatever a part of a string contains, the whole contains. */
  lemma {:induction false} ContainsWithin(a: string, s: string, b: string, t: string)
    ensures Contains(s, t) ==> Contains(a + s + b, t)
  {
    if Contains(s, t) { ContainsExtend(a, s, b, t); }
  }

  lemma {:induction false} ContainsSelf(t: string)
    ensures Contains(t, t)
  {
    assert t[0..|t|] == t;
    ContainsAt(t, t, 0);
  }

  /** `strings.ContainsAny(s, chars)`. */
  predicate ContainsAny(s: string, chars: set<char>)
  {
    exists i :: 0 <= i < |s| && s[i] in chars
  }

  /** The index of the first `c` in `s`. */
  function FirstIndex(s: string, c: char): (i: nat)
    requires c in s
    ensures i < |s| && s[i] == c && c !in s[..i]
  {
    if s[0] == c then 0
    else
      var j := FirstIndex(s[1..], c);
      assert s[..j + 1] == [s[0]] + s[1..][..j];
      j + 1
  }

  /** The first `c` is at `i` when `s[i]` is `c` and no earlier character is. */
  lemma {:induction false} FirstIndexAt(s: string, c: char, i: nat)
    requires i < |s| && s[i] == c && c !in s[..i]
    ensures FirstIndex(s, c) == i
  {
    var j := FirstIndex(s, c);
    assert c in s[..j + 1];
  }

  /** The index of the last `c` in `s`. */
  function LastIndex(s: string, c: char): (i: nat)
    requires c in s
    ensures i < |s| && s[i] == c && c !in s[i + 1..]
  {
    if s[|s| - 1] == c then |s| - 1
    else
      assert c in s[..|s| - 1];
      var j := LastIndex(s[..|s| - 1], c);
      assert s[j + 1..] == s[..|s| - 1][j + 1..] + [s[|s| - 1]];
      j
  }

  /** `strings.SplitN(s, string(c), 2)` when it yields two parts: the text before
      the FIRST `c` and everything after it; `None` when `s` has no `c`. */
  function CutFirst(s: string, c: char): (r: Option<(string, string)>)
    ensures r.None? <==> c !in s
    ensures r.Some? ==> s == r.value.0 + [c] + r.value.1 && c !in r.value.0
  {
    if c !in s then None
    else
      var i := FirstIndex(s, c);
      assert s == s[..i] + [c] + s[i + 1..];
      Some((s[..i], s[i + 1..]))
  }

  /** Splitting a joined pair recovers it exactly when the left part has no `c`. */
  lemma {:induction false} CutFirstJoin(a: string, b: string, c: char)
    requires c !in a
    ensures CutFirst(a + [c] + b, c) == Some((a, b))
  {
    var s := a + [c] + b;
    assert s[|a|] == c;
    var i := FirstIndex(s, c);
    assert s[..|a|] == a;
    assert i == |a|;
    assert s[..i] == a && s[i + 1..] == b;
  }

  /** The characters Go's `unicode.IsSpace` accepts. */
  predicate IsSpace(c: char)
  {
    c == ' ' || c == '\t' || c == '\n' || c == '\r' || c == '\U{000B}' || c == '\U{000C}'
    || c == '\U{0085}' || c == '\U{00A0}' || c == '\U{1680}'
    || ('\U{2000}' <= c <= '\U{200A}')
    || c == '\U{2028}' || c == '\U{2029}' || c == '\U{202F}' || c == '\U{205F}' || c == '\U{3000}'
  }

  function TrimLeftSpace(s: string): (r: string)
    ensures |r| <= |s| && r == s[|s| - |r|..]
    ensures r == [] || !IsSpace(r[0])
    ensures forall i :: 0 <= i < |s| - |r| ==> IsSpace(s[i])
  {
    if |s| > 0 && IsSpace(s[0]) then TrimLeftSpace(s[1..]) else s
  }

  function TrimRightSpace(s: string): (r: string)
    ensures |r| <= |s| && r == s[..|r|]
    ensures r == [] || !IsSpace(r[|r| - 1])
    ensures forall i :: |r| <= i < |s| ==> IsSpace(s[i])
  {
    if |s| > 0 && IsSpace(s[|s| - 1]) then TrimRightSpace(s[..|s| - 1]) else s
  }

  /** `strings.TrimSpace`: the result has no surrounding white space and is
      what is left of `s` once the white space at both ends is removed. */
  function TrimSpace(s: string): (r: string)
    ensures r == [] || (!IsSpace(r[0]) && !IsSpace(r[|r| - 1]))
    ensures r == [] <==> forall i :: 0 <= i < |s| ==> IsSpace(s[i])
  {
    var l := TrimLeftSpace(s);
    var r := TrimRightSpace(l);
    assert r == [] ==> l == [];
    r
  }

  /** Trimming is idempotent: a trimmed string is left alone. */
  lemma {:induction false} TrimSpaceIdempotent(s: string)
    ensures TrimSpace(TrimSpace(s)) == TrimSpace(s)
  {
    var t := TrimSpace(s);
    if t != [] {
      assert TrimLeftSpace(t) == t;
      assert TrimRightSpace(t) == t;
    }
  }

  /** The number of bytes of the UTF-8 encoding of a character. */
  function Utf8Width(c: char): nat
  {
    if c as int < 0x80 then 1 else if c as int < 0x800 then 2 else if c as int < 0x10000 then 3 else 4
  }

  /** Go's `len(s)`: the length of the UTF-8 encoding of `s`. */
  function Utf8Len(s: string): (n: nat)
    ensures |s| <= n <= 4 * |s|
  {
    if s == [] then 0 else Utf8Width(s[0]) + Utf8Len(s[1..])
  }

  predicate IsAscii(s: string)
  {
    forall i :: 0 <= i < |s| ==> s[i] as int < 0x80
  }

  /** For ASCII text the byte length is the character count. */
  lemma {:induction false} Utf8LenAscii(s: string)
    requires IsAscii(s)
    ensures Utf8Len(s) == |s|
  {
    if s != [] {
      assert IsAscii(s[1..]) by {
        forall i | 0 <= i < |s| - 1 ensures s[1..][i] as int < 0x80 { assert s[1..][i] == s[i + 1]; }
      }
      Utf8LenAscii(s[1..]);
    }
  }

  predicate IsDigit(c: char)
  {
    '0' <= c <= '9'
  }

  predicate AllDigits(s: string)
  {
    forall i :: 0 <= i < |s| ==> IsDigit(s[i])
  }

  function DigitChar(d: nat): (c: char)
    requires d < 10
    ensures IsDigit(c)
  {
    (48 + d) as char
  }

  function DigitValue(c: char): (d: nat)
    requires IsDigit(c)
    ensures d < 10 && DigitChar(d) == c
  {
    c as int - 48
  }

  /** `strconv.Itoa` for non-negative numbers: decimal without leading zeros. */
  function NatToDec(n: nat): (s: string)
    ensures |s| >= 1 && AllDigits(s)
    ensures |s| > 1 ==> s[0] != '0'
  {
    if n < 10 then [DigitChar(n)] else NatToDec(n / 10) + [DigitChar(n % 10)]
  }

  /** The value of a string of decimal digits. */
  function DecToNat(s: string): nat
    requires AllDigits(s)
  {
    if s == [] then 0 else DecToNat(s[..|s| - 1]) * 10 + DigitValue(s[|s| - 1])
  }

  /** Printing then reading a number gives it back. */
  lemma {:induction false} DecRoundTrip(n: nat)
    ensures DecToNat(NatToDec(n)) == n
  {
    if n >= 10 {
      DecRoundTrip(n / 10);
      var s := NatToDec(n);
      assert s[..|s| - 1] == NatToDec(n / 10);
    }
  }

  /** Distinct numbers print differently. */
  lemma {:induction false} NatToDecInjective(m: nat, n: nat)
    requires NatToDec(m) == NatToDec(n)
    ensures m == n
  {
    DecRoundTrip(m);
    DecRoundTrip(n);
  }

  /** `fmt`'s `%d`. */
  function IntToDec(i: int): string
  {
    if i < 0 then "-" + NatToDec(-i) else NatToDec(i)
  }

  /** `strings.Join(ss, sep)`. */
  function JoinWith(ss: seq<string>, sep: string): string
  {
    if |ss| == 0 then "" else if |ss| == 1 then ss[0] else ss[0] + sep + JoinWith(ss[1..], sep)
  }

  /** Go's string order `a < b`: byte-wise, which for Unicode scalar values is
      code-point order. */
  predicate Less(a: string, b: string)
  {
    b != [] && (a == [] || a[0] < b[0] || (a[0] == b[0] && Less(a[1..], b[1..])))
  }

  lemma {:induction false} LessIrreflexive(a: string)
    ensures !Less(a, a)
  {
    if a != [] { LessIrreflexive(a[1..]); }
  }

  lemma {:induction false} LessTotal(a: string, b: string)
    requires a != b
    ensures Less(a, b) || Less(b, a)
  {
    if a != [] && b != [] && a[0] == b[0] {
      assert a == [a[0]] + a[1..] && b == [b[0]] + b[1..];
      LessTotal(a[1..], b[1..]);
    }
  }

  lemma {:induction false} LessTransitive(a: string, b: string, c: string)
    requires Less(a, b) && Less(b, c)
    ensures Less(a, c)
  {
    if a != [] && a[0] == b[0] && b[0] == c[0] {
      LessTransitive(a[1..], b[1..], c[1..]);
    }
  }
}
