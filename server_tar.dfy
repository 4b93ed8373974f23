/** `writeChangesTar`: the server's archive of stored blobs for a list of
    changes. The store is an `open` function (`None` when `Open` fails) and
    `headerOk(i)` says whether the header write for the `i`-th change
    succeeds. */
module ServerTar {
  import opened Wrappers
  import opened Errors
  import opened Model
  import opened Picking

  type Opener = (string, string) -> Option<Bytes>

  /** The entry name `user/path`. */
  function EntryName(c: Change): string
  {
    c.user + "/" + c.path
  }

  predicate Writes(changes: seq<Change>, wanted: Change -> bool, open: Opener, headerOk: nat -> bool, j: nat)
  {
    j < |changes| && wanted(changes[j]) && open(changes[j].user, changes[j].path).Some? && headerOk(j)
  }

  function Keep(changes: seq<Change>, wanted: Change -> bool, open: Opener, headerOk: nat -> bool): nat -> bool
  {
    (j: nat) => Writes(changes, wanted, open, headerOk, j)
  }

  /** The entries for the first `n` changes. */
  function Tar(changes: seq<Change>, wanted: Change -> bool, open: Opener, headerOk: nat -> bool, n: nat): (es: seq<Entry>)
    requires n <= |changes|
  {
    var p := Picks(n, Keep(changes, wanted, open, headerOk));
    seq(|p|, k requires 0 <= k < |p| => var c := changes[p[k]]; Entry(EntryName(c), false, open(c.user, c.path).value, None))
  }

  lemma {:induction false} TarStep(changes: seq<Change>, wanted: Change -> bool, open: Opener, headerOk: nat -> bool, i: nat)
    requires i < |changes|
    ensures var c := changes[i];
            Tar(changes, wanted, open, headerOk, i + 1) ==
              Tar(changes, wanted, open, headerOk, i)
              + (if Writes(changes, wanted, open, headerOk, i) then [Entry(EntryName(c), false, open(c.user, c.path).value, None)] else [])
  {
  }

  method WriteChangesTar(changes: seq<Change>, wanted: Change -> bool, open: Opener, headerOk: nat -> bool)
    returns (entries: seq<Entry>, err: Option<Error>)
    ensures entries == Tar(changes, wanted, open, headerOk, |changes|) && err == None
  {
    entries := [];
    for i := 0 to |changes|
      invariant entries == Tar(changes, wanted, open, headerOk, i)
    {
      TarStep(changes, wanted, open, headerOk, i);
      var ch := changes[i];
      if !wanted(ch) {
        continue;
      }
      var f := open(ch.user, ch.path);
      if f.None? {
        continue;
      }
      if !headerOk(i) {
        continue;
      }
      entries := entries + [Entry(EntryName(ch), false, f.value, None)];
    }
    return entries, None;
  }

  /** Each entry comes from a change, in the order of the list: the `k`-th
      entry is change `Sources(...)[k]`, which the filter includes and whose
      blob opened; the sources ascend. Conversely every included change
      that opens and whose header is written has its entry. */
  lemma {:induction false} TarShape(changes: seq<Change>, wanted: Change -> bool, open: Opener, headerOk: nat -> bool)
    ensures var es := Tar(changes, wanted, open, headerOk, |changes|);
            var p := Picks(|changes|, Keep(changes, wanted, open, headerOk));
            && |es| == |p|
            && (forall k :: 0 <= k < |p| ==>
                  var c := changes[p[k]];
                  wanted(c) && open(c.user, c.path).Some? && es[k] == Entry(c.user + "/" + c.path, false, open(c.user, c.path).value, None))
            && (forall k, l :: 0 <= k < l < |p| ==> p[k] < p[l])
            && (forall j :: Writes(changes, wanted, open, headerOk, j) ==> j in p)
  {
    var keep := Keep(changes, wanted, open, headerOk);
    forall j | Writes(changes, wanted, open, headerOk, j) ensures j in Picks(|changes|, keep) {
      assert keep(j);
      PicksComplete(|changes|, keep, j);
    }
  }

  /** A change the filter refuses never produces an entry. */
  lemma {:induction false} ExcludedNeverWritten(changes: seq<Change>, wanted: Change -> bool, open: Opener, headerOk: nat -> bool, j: nat)
    requires j < |changes| && !wanted(changes[j])
    ensures j !in Picks(|changes|, Keep(changes, wanted, open, headerOk))
  {
  }
}
