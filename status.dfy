/** `buildStatus`: totals over the stored files, per user and overall,
    with the metadata snapshot. The store appears as its `List` result and
    a `size` function standing for `Open` and `Stat` (`None` when the open
    fails). */
module Status {
  import opened Wrappers
  import opened Strings
  import opened Errors
  import opened OpsMeta

  datatype StatusUser = StatusUser(user: string, files: nat, bytes: nat)

  datatype StatusResponse = StatusResponse(
    filesTotal: nat, bytesTotal: nat, users: seq<StatusUser>,
    lastPublish: string, lastInstall: string, metrics: Metrics)

  const EmptyResponse := StatusResponse(0, 0, [], "", "", map[])

  type Sizer = (string, string) -> Option<nat>

  /** The (user, size) each listed name contributes: only names that split
      into user and path at the first `/` and whose blob opens count. */
  function Counted(names: seq<string>, size: Sizer): seq<(string, nat)>
  {
    if names == [] then [] else AppendCount(Counted(names[..|names| - 1], size), names[|names| - 1], size)
  }

  function FilesOf(c: seq<(string, nat)>, u: string): nat
  {
    if c == [] then 0 else FilesOf(c[..|c| - 1], u) + (if c[|c| - 1].0 == u then 1 else 0)
  }

  function BytesOf(c: seq<(string, nat)>, u: string): nat
  {
    if c == [] then 0 else BytesOf(c[..|c| - 1], u) + (if c[|c| - 1].0 == u then c[|c| - 1].1 else 0)
  }

  function Total(c: seq<(string, nat)>): nat
  {
    if c == [] then 0 else Total(c[..|c| - 1]) + c[|c| - 1].1
  }

  function UsersOf(c: seq<(string, nat)>): set<string>
  {
    set i | 0 <= i < |c| :: c[i].0
  }

  /** Every counted contribution comes from a listed name that splits and
      opens, with the size it opened at. */
  lemma {:induction false} CountedFrom(names: seq<string>, size: Sizer, i: nat)
    requires i < |Counted(names, size)|
    ensures exists j, p :: 0 <= j < |names| && CutFirst(names[j], '/') == Some((Counted(names, size)[i].0, p))
                           && size(Counted(names, size)[i].0, p) == Some(Counted(names, size)[i].1)
  {
    var pre := names[..|names| - 1];
    var c := Counted(pre, size);
    var d := Counted(names, size);
    assert d[..|c|] == c;
    if i < |c| {
      assert d[i] == c[i];
      CountedFrom(pre, size, i);
      var j, p :| 0 <= j < |pre| && CutFirst(pre[j], '/') == Some((c[i].0, p)) && size(c[i].0, p) == Some(c[i].1);
      assert names[j] == pre[j];
      assert CutFirst(names[j], '/') == Some((d[i].0, p)) && size(d[i].0, p) == Some(d[i].1);
    } else {
      var j := |names| - 1;
      var cut := CutFirst(names[j], '/');
      assert cut.Some? && size(cut.value.0, cut.value.1).Some?;
      assert d == c + [(cut.value.0, size(cut.value.0, cut.value.1).value)];
    }
  }

  /** A counted user has at least one counted file. */
  lemma {:induction false} CountedUserHasFiles(c: seq<(string, nat)>, u: string)
    requires u in UsersOf(c)
    ensures FilesOf(c, u) >= 1
  {
    var pre := c[..|c| - 1];
    if c[|c| - 1].0 != u {
      var i :| 0 <= i < |c| && c[i].0 == u;
      assert pre[i] == c[i];
      CountedUserHasFiles(pre, u);
    }
  }

  /** One name's contribution appended. */
  function AppendCount(c: seq<(string, nat)>, name: string, size: Sizer): (d: seq<(string, nat)>)
    ensures |c| <= |d| <= |c| + 1 && d[..|c|] == c
  {
    match CutFirst(name, '/')
    case None => c
    case Some((u, p)) =>
      match size(u, p)
      case None => c
      case Some(b) => c + [(u, b)]
  }

  lemma {:induction false} CountedStep(names: seq<string>, size: Sizer, i: nat)
    requires i < |names|
    ensures Counted(names[..i + 1], size) == AppendCount(Counted(names[..i], size), names[i], size)
  {
    assert names[..i + 1][..i] == names[..i];
  }

  lemma {:induction false} UsersOfAppend(c: seq<(string, nat)>, u: string, b: nat)
    ensures UsersOf(c + [(u, b)]) == UsersOf(c) + {u}
  {
    var d := c + [(u, b)];
    assert d[|c|].0 == u;
    assert forall i :: 0 <= i < |c| ==> d[i] == c[i];
  }

  /** The per-user entries a response lists. */
  predicate UserEntries(users: seq<StatusUser>, c: seq<(string, nat)>)
  {
    && (forall i :: 0 <= i < |users| ==> users[i].user in UsersOf(c))
    && (forall i :: 0 <= i < |users| ==> users[i] == StatusUser(users[i].user, FilesOf(c, users[i].user), BytesOf(c, users[i].user)))
    && (forall i, j :: 0 <= i < j < |users| ==> users[i].user != users[j].user)
  }

  predicate HasUser(users: seq<StatusUser>, u: string)
  {
    exists i :: 0 <= i < |users| && users[i].user == u
  }

  /** Per-user file counts and byte sums, keyed by the users of `c`, and the
      total, all as `c` gives them. */
  predicate Tallied(perUserFiles: map<string, nat>, perUserBytes: map<string, nat>, totalBytes: nat, c: seq<(string, nat)>)
  {
    && perUserFiles.Keys == UsersOf(c) && perUserBytes.Keys == UsersOf(c)
    && (forall u :: u in perUserFiles ==> perUserFiles[u] == FilesOf(c, u))
    && (forall u :: u in perUserBytes ==> perUserBytes[u] == BytesOf(c, u))
    && totalBytes == Total(c)
  }

  /** The first loop: per-user file counts and byte sums, and the total. */
  method Tally(files: seq<string>, size: Sizer) returns (perUserFiles: map<string, nat>, perUserBytes: map<string, nat>, totalBytes: nat)
    ensures var c := Counted(files, size);
            && perUserFiles.Keys == UsersOf(c) && perUserBytes.Keys == UsersOf(c)
            && (forall u :: u in perUserFiles ==> perUserFiles[u] == FilesOf(c, u))
            && (forall u :: u in perUserBytes ==> perUserBytes[u] == BytesOf(c, u))
            && totalBytes == Total(c)
  {
    perUserFiles, perUserBytes, totalBytes := map[], map[], 0;
    for i := 0 to |files|
      invariant Tallied(perUserFiles, perUserBytes, totalBytes, Counted(files[..i], size))
    {
      ghost var c := Counted(files[..i], size);
      CountedStep(files, size, i);
      var parts := CutFirst(files[i], '/');
      if parts.None? {
        continue;
      }
      var (user, p) := parts.value;
      var b := size(user, p);
      if b.None? {
        continue;
      }
      TallyAdd(perUserFiles, perUserBytes, totalBytes, c, user, b.value);
      perUserFiles := perUserFiles[user := (if user in perUserFiles then perUserFiles[user] else 0) + 1];
      perUserBytes := perUserBytes[user := (if user in perUserBytes then perUserBytes[user] else 0) + b.value];
      totalBytes := totalBytes + b.value;
    }
    assert files[..|files|] == files;
  }

  /** One more contribution, added to the counts and the total, keeps them
      those of the longer sequence. */
  lemma {:induction false} TallyAdd(perUserFiles: map<string, nat>, perUserBytes: map<string, nat>, totalBytes: nat,
                 c: seq<(string, nat)>, u: string, b: nat)
    requires Tallied(perUserFiles, perUserBytes, totalBytes, c)
    ensures Tallied(perUserFiles[u := (if u in perUserFiles then perUserFiles[u] else 0) + 1],
                    perUserBytes[u := (if u in perUserBytes then perUserBytes[u] else 0) + b],
                    totalBytes + b, c + [(u, b)])
  {
    AddOne(c, u, b);
  }

  /** The counts after one more contribution. */
  lemma {:induction false} AddOne(c: seq<(string, nat)>, u: string, b: nat)
    ensures var d := c + [(u, b)];
            && UsersOf(d) == UsersOf(c) + {u}
            && FilesOf(d, u) == (if u in UsersOf(c) then FilesOf(c, u) else 0) + 1
            && BytesOf(d, u) == (if u in UsersOf(c) then BytesOf(c, u) else 0) + b
            && (forall v :: v != u ==> FilesOf(d, v) == FilesOf(c, v) && BytesOf(d, v) == BytesOf(c, v))
            && Total(d) == Total(c) + b
  {
    var d := c + [(u, b)];
    UsersOfAppend(c, u, b);
    assert d[..|d| - 1] == c;
    if u !in UsersOf(c) {
      NotCounted(c, u);
    }
  }

  /** Appending the entry of a user not yet listed keeps the entries right. */
  lemma {:induction false} EntryStep(users: seq<StatusUser>, c: seq<(string, nat)>, e: StatusUser)
    requires UserEntries(users, c) && e.user in UsersOf(c) && !HasUser(users, e.user)
    requires e == StatusUser(e.user, FilesOf(c, e.user), BytesOf(c, e.user))
    ensures UserEntries(users + [e], c)
    ensures forall v :: HasUser(users + [e], v) <==> HasUser(users, v) || v == e.user
  {
    var us := users + [e];
    assert us[|users|] == e;
    assert forall i :: 0 <= i < |users| ==> us[i] == users[i];
  }

  /** The second loop: one entry per counted user. */
  method Entries(perUserFiles: map<string, nat>, perUserBytes: map<string, nat>, ghost c: seq<(string, nat)>) returns (users: seq<StatusUser>)
    requires perUserFiles.Keys == UsersOf(c) && perUserBytes.Keys == UsersOf(c)
    requires forall u :: u in perUserFiles ==> perUserFiles[u] == FilesOf(c, u)
    requires forall u :: u in perUserBytes ==> perUserBytes[u] == BytesOf(c, u)
    ensures UserEntries(users, c) && forall u :: u in UsersOf(c) ==> HasUser(users, u)
  {
    users := [];
    var pending := perUserFiles.Keys;
    while pending != {}
      invariant pending <= perUserFiles.Keys
      invariant UserEntries(users, c)
      invariant forall u :: HasUser(users, u) <==> u in perUserFiles.Keys - pending
      decreases |pending|
    {
      var u :| u in pending;
      var entry := StatusUser(u, perUserFiles[u], perUserBytes[u]);
      EntryStep(users, c, entry);
      users := users + [entry];
      pending := pending - {u};
    }
  }

  /** `buildStatus`. */
  method BuildStatus(listed: Result<seq<string>>, size: Sizer, meta: Meta) returns (resp: StatusResponse, err: Option<Error>)
    ensures listed.Err? ==> resp == EmptyResponse && err == Some(listed.error)
    ensures listed.Ok? ==>
              var c := Counted(listed.value, size);
              && err == None
              && resp.filesTotal == |listed.value|
              && resp.bytesTotal == Total(c)
              && UserEntries(resp.users, c)
              && (forall u :: u in UsersOf(c) ==> HasUser(resp.users, u))
              && resp.lastPublish == meta.lastPublish && resp.lastInstall == meta.lastInstall
              && resp.metrics == meta.metrics
  {
    if listed.Err? {
      return EmptyResponse, Some(listed.error);
    }
    var perUserFiles, perUserBytes, totalBytes := Tally(listed.value, size);
    var users := Entries(perUserFiles, perUserBytes, Counted(listed.value, size));
    var lastPub, lastInst, metrics := meta.Snapshot();
    resp := StatusResponse(|listed.value|, totalBytes, users, lastPub, lastInst, metrics);
    err := None;
  }

  /** A user with no counted file has zero counts. */
  lemma {:induction false} NotCounted(c: seq<(string, nat)>, u: string)
    requires u !in UsersOf(c)
    ensures FilesOf(c, u) == 0 && BytesOf(c, u) == 0
  {
    if c != [] {
      var pre := c[..|c| - 1];
      assert c[|c| - 1].0 in UsersOf(c);
      assert forall i :: 0 <= i < |pre| ==> pre[i] == c[i];
      NotCounted(pre, u);
    }
  }

  function SumBytes(users: seq<StatusUser>): nat
  {
    if users == [] then 0 else users[0].bytes + SumBytes(users[1..])
  }

  /** The bytes the entries would report for `c`. */
  function SumFor(users: seq<StatusUser>, c: seq<(string, nat)>): nat
  {
    if users == [] then 0 else BytesOf(c, users[0].user) + SumFor(users[1..], c)
  }

  lemma {:induction false} SumForAppend(users: seq<StatusUser>, c: seq<(string, nat)>, u: string, b: nat)
    requires forall i, j :: 0 <= i < j < |users| ==> users[i].user != users[j].user
    ensures SumFor(users, c + [(u, b)]) == SumFor(users, c) + (if HasUser(users, u) then b else 0)
  {
    var d := c + [(u, b)];
    assert d[..|d| - 1] == c;
    if users != [] {
      var rest := users[1..];
      SumForAppend(rest, c, u, b);
      if users[0].user == u {
        assert !HasUser(rest, u) by {
          forall i | 0 <= i < |rest| ensures rest[i].user != u {
            assert rest[i] == users[i + 1];
          }
        }
        assert HasUser(users, u) by {
          assert users[0].user == u;
        }
      } else {
        assert HasUser(users, u) <==> HasUser(rest, u) by {
          if HasUser(users, u) {
            var i :| 0 <= i < |users| && users[i].user == u;
            assert rest[i - 1] == users[i];
          }
          if HasUser(rest, u) {
            var i :| 0 <= i < |rest| && rest[i].user == u;
            assert users[i + 1] == rest[i];
          }
        }
      }
    }
  }

  lemma {:induction false} SumForTotal(users: seq<StatusUser>, c: seq<(string, nat)>)
    requires forall i, j :: 0 <= i < j < |users| ==> users[i].user != users[j].user
    requires forall u :: u in UsersOf(c) ==> HasUser(users, u)
    ensures SumFor(users, c) == Total(c)
  {
    if c == [] {
      EmptySum(users);
    } else {
      var pre := c[..|c| - 1];
      var last := c[|c| - 1];
      assert pre + [last] == c;
      assert forall i :: 0 <= i < |pre| ==> pre[i] == c[i];
      assert UsersOf(pre) <= UsersOf(c);
      SumForTotal(users, pre);
      assert last.0 in UsersOf(c);
      SumForAppend(users, pre, last.0, last.1);
    }
  }

  lemma {:induction false} EmptySum(users: seq<StatusUser>)
    ensures SumFor(users, []) == 0
  {
    if users != [] {
      EmptySum(users[1..]);
    }
  }

  lemma {:induction false} SumBytesFor(users: seq<StatusUser>, c: seq<(string, nat)>)
    requires forall i :: 0 <= i < |users| ==> users[i].bytes == BytesOf(c, users[i].user)
    ensures SumBytes(users) == SumFor(users, c)
  {
    if users != [] {
      SumBytesFor(users[1..], c);
    }
  }

  /** The per-user bytes of a response add up to its total. */
  lemma {:induction false} BytesAddUp(users: seq<StatusUser>, c: seq<(string, nat)>)
    requires UserEntries(users, c) && forall u :: u in UsersOf(c) ==> HasUser(users, u)
    ensures SumBytes(users) == Total(c)
  {
    SumBytesFor(users, c);
    SumForTotal(users, c);
  }

  /** The file total counts every listed name, so it is at least the number
      counted per user. */
  lemma {:induction false} CountedAtMostListed(names: seq<string>, size: Sizer)
    ensures |Counted(names, size)| <= |names|
  {
    if names != [] {
      CountedAtMostListed(names[..|names| - 1], size);
    }
  }
}
