/** The MariaDB backend: one table `dman_files` with a row per (user, rel),
    unique on the pair's key prefixes. Every statement goes through the
    retry loop; the attempts' network outcomes are a script, and the order
    rows come back in is an input. */
module MariaDb {
  import opened Wrappers
  import opened Errors
  import opened Model
  import opened Sanitize
  import Retry

  type Row = (string, string)
  type Table = map<Row, Bytes>

  /** The table's primary key, `PRIMARY KEY(user(64), rel(255))`, indexes
      only the first 64 characters of the user and the first 255 of the
      path. */
  const UserPrefix: nat := 64
  const RelPrefix: nat := 255

  /** The first `n` characters of `s`, or all of it when it is shorter. */
  function Head(s: string, n: nat): (h: string)
    ensures |h| <= n && h <= s
    ensures |s| <= n ==> h == s
  {
    if |s| <= n then s else s[..n]
  }

  /** The primary-key value of a row. */
  function KeyOf(r: Row): Row
  {
    (Head(r.0, UserPrefix), Head(r.1, RelPrefix))
  }

  /** The uniqueness the primary key enforces: no two rows share a key. */
  ghost predicate Keyed(t: Table)
  {
    forall r1, r2 :: r1 in t && r2 in t && KeyOf(r1) == KeyOf(r2) ==> r1 == r2
  }

  /** `REPLACE INTO` the row `k`: every row whose primary key equals `k`'s
      is deleted, then `k` is inserted with the bytes `b`. */
  function Replace(t: Table, k: Row, b: Bytes): (t2: Table)
  {
    (map r | r in t && KeyOf(r) != KeyOf(k) :: t[r])[k := b]
  }

  /** `sql.ErrNoRows`. */
  const NoRows: Error := Io("sql: no rows in result set")

  /** The attempts of the row lookup: a network failure, or else the row's
      absence, which `Scan` reports as `sql.ErrNoRows` and the loop retries. */
  function Lookup(net: Retry.Script, present: bool): (s: Retry.Script)
    ensures s.expired == net.expired
  {
    Retry.Script((i: nat) => if net.outcome(i).Some? then net.outcome(i) else if present then None else Some(NoRows), net.expired)
  }

  /** `Save`: read everything, then `REPLACE INTO` through the retry loop. */
  function SaveEffect(t: Table, user: string, rel: string, rd: Reader, net: Retry.Script): (r: (Table, Option<Error>))
  {
    match RowKey(user, rel)
    case Err(e) => (t, Some(e))
    case Ok(k) =>
      if rd.failure.Some? then (t, rd.failure)
      else
        var e := Retry.From(net, 0).0;
        (if e == Retry.Succeeded then Replace(t, k, rd.data) else t, Retry.MariaResult(e))
  }

  /** `Open`: the row's bytes, through the retry loop. */
  function OpenEffect(t: Table, user: string, rel: string, net: Retry.Script): (r: Result<Bytes>)
  {
    match RowKey(user, rel)
    case Err(e) => Err(e)
    case Ok(k) =>
      var e := Retry.From(Lookup(net, k in t), 0).0;
      if e == Retry.Succeeded then Ok(t[k]) else Err(Retry.MariaResult(e).value)
  }

  /** `Delete`: `DELETE` through the retry loop; no matching row is no error. */
  function DeleteEffect(t: Table, user: string, rel: string, net: Retry.Script): (r: (Table, Option<Error>))
  {
    match RowKey(user, rel)
    case Err(e) => (t, Some(e))
    case Ok(k) =>
      var e := Retry.From(net, 0).0;
      (if e == Retry.Succeeded then t - {k} else t, Retry.MariaResult(e))
  }

  /** The names `user/rel` of rows. */
  function Names(rows: seq<Row>): (ns: seq<string>)
    ensures |ns| == |rows|
  {
    if rows == [] then [] else Names(rows[..|rows| - 1]) + [rows[|rows| - 1].0 + "/" + rows[|rows| - 1].1]
  }

  /** The `i`-th name is the `i`-th row's. */
  lemma {:induction false} NamesAt(rows: seq<Row>)
    ensures forall i :: 0 <= i < |rows| ==> Names(rows)[i] == rows[i].0 + "/" + rows[i].1
  {
    if rows != [] {
      NamesAt(rows[..|rows| - 1]);
    }
  }

  function Min(a: nat, b: nat): nat
  {
    if a < b then a else b
  }

  /** The rows attempt `i` of the listing appends before it ends: all of
      them when it succeeds, the first `partial(i)` when it fails. */
  function Delivered(order: seq<Row>, net: Retry.Script, partial: nat -> nat, i: nat): seq<Row>
  {
    if net.outcome(i).None? then order else order[..Min(partial(i), |order|)]
  }

  /** `List` from attempt `i` on: what the attempts append to `out`, which
      is never reset, and how the loop ends. */
  function ListFrom(order: seq<Row>, net: Retry.Script, partial: nat -> nat, i: nat): (r: (seq<string>, Retry.Ending))
    requires i < Retry.MaxAttempts
    decreases Retry.MaxAttempts - i
  {
    var got := Names(Delivered(order, net, partial, i));
    match net.outcome(i)
    case None => (got, Retry.Succeeded)
    case Some(err) =>
      if net.expired(i) then (got, Retry.Cancelled)
      else if i + 1 == Retry.MaxAttempts then (got, Retry.Exhausted(err))
      else
        var (rest, e) := ListFrom(order, net, partial, i + 1);
        (got + rest, e)
  }

  /** The listing ends as the retry loop does. */
  lemma {:induction false} ListEnding(order: seq<Row>, net: Retry.Script, partial: nat -> nat, i: nat)
    requires i < Retry.MaxAttempts
    ensures ListFrom(order, net, partial, i).1 == Retry.From(net, i).0
    decreases Retry.MaxAttempts - i
  {
    if net.outcome(i).Some? && !net.expired(i) && i + 1 < Retry.MaxAttempts {
      ListEnding(order, net, partial, i + 1);
    }
  }

  /** An attempt that ends the listing: the rows it delivered are the last. */
  lemma {:induction false} ListEnd(order: seq<Row>, net: Retry.Script, partial: nat -> nat, i: nat)
    requires i < Retry.MaxAttempts
    ensures net.outcome(i).None? ==> ListFrom(order, net, partial, i) == (Names(Delivered(order, net, partial, i)), Retry.Succeeded)
    ensures net.outcome(i).Some? && net.expired(i) ==> ListFrom(order, net, partial, i) == (Names(Delivered(order, net, partial, i)), Retry.Cancelled)
    ensures net.outcome(i).Some? && !net.expired(i) && i + 1 == Retry.MaxAttempts ==>
              ListFrom(order, net, partial, i) == (Names(Delivered(order, net, partial, i)), Retry.Exhausted(net.outcome(i).value))
  {
  }

  /** One failed, unexpired attempt before the last: its rows, then the rest. */
  lemma {:induction false} ListStep(order: seq<Row>, net: Retry.Script, partial: nat -> nat, i: nat)
    requires i + 1 < Retry.MaxAttempts && net.outcome(i).Some? && !net.expired(i)
    ensures var r := ListFrom(order, net, partial, i + 1);
            ListFrom(order, net, partial, i) == (Names(Delivered(order, net, partial, i)) + r.0, r.1)
  {
  }

  /** `rows.Next()` / `Scan` / `append`: one name per row, in order. */
  method AppendNames(out: seq<string>, rows: seq<Row>) returns (o: seq<string>)
    ensures o == out + Names(rows)
  {
    o := out;
    for j := 0 to |rows|
      invariant o == out + Names(rows[..j])
    {
      assert rows[..j + 1][..j] == rows[..j];
      o := o + [rows[j].0 + "/" + rows[j].1];
    }
    assert rows[..|rows|] == rows;
  }

  /** Each row once, as the server returns them. */
  ghost predicate Ordering(order: seq<Row>, t: Table)
  {
    (forall r :: r in order <==> r in t) && forall i, j :: 0 <= i < j < |order| ==> order[i] != order[j]
  }

  class Backend {
    var table: Table

    constructor (t: Table)
      ensures table == t
    {
      table := t;
    }

    method Save(user: string, rel: string, rd: Reader, net: Retry.Script) returns (err: Option<Error>)
      modifies this
      ensures (table, err) == SaveEffect(old(table), user, rel, rd, net)
    {
      var key := RowKey(user, rel);
      if key.Err? {
        return Some(key.error);
      }
      if rd.failure.Some? {
        return rd.failure;
      }
      var e, calls, waits := Retry.Run(net);
      if e == Retry.Succeeded {
        table := Replace(table, key.value, rd.data);
      }
      err := Retry.MariaResult(e);
    }

    method Open(user: string, rel: string, net: Retry.Script) returns (r: Result<Bytes>)
      ensures r == OpenEffect(table, user, rel, net)
    {
      var key := RowKey(user, rel);
      if key.Err? {
        return Err(key.error);
      }
      var e, calls, waits := Retry.Run(Lookup(net, key.value in table));
      if e != Retry.Succeeded {
        return Err(Retry.MariaResult(e).value);
      }
      r := Ok(table[key.value]);
    }

    /** The attempts of the listing query, each appending to the same `out`. */
    method List(order: seq<Row>, net: Retry.Script, partial: nat -> nat) returns (out: seq<string>, err: Option<Error>)
      requires Ordering(order, table)
      ensures (out, err) == (ListFrom(order, net, partial, 0).0, Retry.MariaResult(ListFrom(order, net, partial, 0).1))
    {
      out := [];
      var attempt := 0;
      ghost var whole := ListFrom(order, net, partial, 0);
      assert [] + whole.0 == whole.0;
      while true
        invariant attempt < Retry.MaxAttempts
        invariant whole == (out + ListFrom(order, net, partial, attempt).0, ListFrom(order, net, partial, attempt).1)
        decreases Retry.MaxAttempts - attempt
      {
        ghost var before := out;
        out := AppendNames(out, Delivered(order, net, partial, attempt));
        var last := net.outcome(attempt);
        ListEnd(order, net, partial, attempt);
        if last.None? {
          return out, None;
        }
        if net.expired(attempt) {
          return out, Some(DeadlineExceeded);
        }
        if attempt + 1 == Retry.MaxAttempts {
          return out, last;
        }
        ListStep(order, net, partial, attempt);
        ghost var rest := ListFrom(order, net, partial, attempt + 1).0;
        Associative(before, Names(Delivered(order, net, partial, attempt)), rest);
        attempt := attempt + 1;
      }
    }

    method Delete(user: string, rel: string, net: Retry.Script) returns (err: Option<Error>)
      modifies this
      ensures (table, err) == DeleteEffect(old(table), user, rel, net)
    {
      var key := RowKey(user, rel);
      if key.Err? {
        return Some(key.error);
      }
      var e, calls, waits := Retry.Run(net);
      if e == Retry.Succeeded {
        table := table - {key.value};
      }
      err := Retry.MariaResult(e);
    }
  }

  /** `REPLACE INTO` under the prefix key: afterwards the pair's row holds
      the new bytes, every row whose key differs is as it was, the rows that
      share the pair's key are gone, and no other row appears; the key stays
      unique. */
  lemma {:induction false} SaveUpserts(t: Table, user: string, rel: string, rd: Reader, net: Retry.Script)
    requires RowKey(user, rel).Ok? && rd.failure.None? && Retry.From(net, 0).0 == Retry.Succeeded
    ensures var k := RowKey(user, rel).value;
            var r := SaveEffect(t, user, rel, rd, net);
            && r.1 == None && k in r.0 && r.0[k] == rd.data
            && (forall k2 :: k2 in r.0 <==> k2 == k || (k2 in t && KeyOf(k2) != KeyOf(k)))
            && (forall k2 :: k2 in t && KeyOf(k2) != KeyOf(k) ==> r.0[k2] == t[k2])
            && (Keyed(t) ==> Keyed(r.0))
  {
    var k := RowKey(user, rel).value;
    var r := SaveEffect(t, user, rel, rd, net);
    assert r.0 == Replace(t, k, rd.data);
    if Keyed(t) {
      forall r1, r2 | r1 in r.0 && r2 in r.0 && KeyOf(r1) == KeyOf(r2)
        ensures r1 == r2
      {
        if r1 != k && r2 != k {
          assert r1 in t && r2 in t;
        }
      }
    }
  }

  /** Two paths whose first 255 characters agree share the key: the path
      column's prefix is all the key sees. */
  lemma {:induction false} LongPathsShareKey(user: string, p: string, x: string, y: string)
    requires |p| >= RelPrefix
    ensures KeyOf((user, p + x)) == KeyOf((user, p + y))
  {
    assert (p + x)[..RelPrefix] == p[..RelPrefix] == (p + y)[..RelPrefix];
    assert Head(p + x, RelPrefix) == (p + x)[..RelPrefix] && Head(p + y, RelPrefix) == (p + y)[..RelPrefix];
  }

  /** Saving a second path with the same key prefix replaces the first row:
      on a working connection, opening the first path then fails with
      `sql.ErrNoRows`. */
  lemma {:induction false} SamePrefixReplaced(t: Table, user: string, rel1: string, rel2: string, b1: Bytes, b2: Bytes,
                                              net1: Retry.Script, net2: Retry.Script, net3: Retry.Script)
    requires RowKey(user, rel1).Ok? && RowKey(user, rel2).Ok?
    requires RowKey(user, rel1).value != RowKey(user, rel2).value
    requires KeyOf(RowKey(user, rel1).value) == KeyOf(RowKey(user, rel2).value)
    requires Retry.From(net1, 0).0 == Retry.Succeeded && Retry.From(net2, 0).0 == Retry.Succeeded
    requires forall i: nat :: i < Retry.MaxAttempts ==> net3.outcome(i).None? && !net3.expired(i)
    ensures var t1 := SaveEffect(t, user, rel1, Reader(b1, None), net1).0;
            var t2 := SaveEffect(t1, user, rel2, Reader(b2, None), net2).0;
            OpenEffect(t2, user, rel1, net3) == Err(NoRows)
  {
    var t1 := SaveEffect(t, user, rel1, Reader(b1, None), net1).0;
    SaveUpserts(t1, user, rel2, Reader(b2, None), net2);
    var t2 := SaveEffect(t1, user, rel2, Reader(b2, None), net2).0;
    MissingRow(t2, user, rel1, net3);
  }

  /** A failed save leaves the table as it was. */
  lemma {:induction false} SaveFailureKeeps(t: Table, user: string, rel: string, rd: Reader, net: Retry.Script)
    requires SaveEffect(t, user, rel, rd, net).1.Some?
    ensures SaveEffect(t, user, rel, rd, net).0 == t
  {
  }

  /** `Save` then `Open` gives back the bytes read. */
  lemma {:induction false} SaveOpen(t: Table, user: string, rel: string, b: Bytes, net: Retry.Script, net2: Retry.Script)
    requires RowKey(user, rel).Ok? && Retry.From(net, 0).0 == Retry.Succeeded
    requires Retry.FailedQuietly(net2, 0) && net2.outcome(0).None?
    ensures OpenEffect(SaveEffect(t, user, rel, Reader(b, None), net).0, user, rel, net2) == Ok(b)
  {
    var k := RowKey(user, rel).value;
    Retry.FirstSuccessStops(Lookup(net2, true), 0);
  }

  /** An absent row is an error: on a working connection the lookup is
      tried three times and ends with `sql.ErrNoRows`. */
  lemma {:induction false} MissingRow(t: Table, user: string, rel: string, net: Retry.Script)
    requires RowKey(user, rel).Ok? && RowKey(user, rel).value !in t
    requires forall i: nat :: i < Retry.MaxAttempts ==> net.outcome(i).None? && !net.expired(i)
    ensures Retry.From(Lookup(net, false), 0) == (Retry.Exhausted(NoRows), 3)
    ensures OpenEffect(t, user, rel, net) == Err(NoRows)
  {
    var s := Lookup(net, false);
    assert s.outcome(0) == Some(NoRows) && s.outcome(1) == Some(NoRows) && s.outcome(2) == Some(NoRows);
  }

  /** `Delete` removes exactly the matching row. */
  lemma {:induction false} DeleteOnly(t: Table, user: string, rel: string, net: Retry.Script)
    requires RowKey(user, rel).Ok? && Retry.From(net, 0).0 == Retry.Succeeded
    ensures var k := RowKey(user, rel).value;
            var r := DeleteEffect(t, user, rel, net);
            && r.1 == None && r.0.Keys == t.Keys - {k} && (forall k2 :: k2 in r.0 ==> r.0[k2] == t[k2])
            && (Keyed(t) ==> Keyed(r.0))
  {
  }

  /** On a first attempt that succeeds the listing is each row's name once. */
  lemma {:induction false} ListClean(order: seq<Row>, net: Retry.Script, partial: nat -> nat)
    requires net.outcome(0).None?
    ensures ListFrom(order, net, partial, 0) == (Names(order), Retry.Succeeded)
  {
  }

  /** Each name listed is that of a row, whatever the attempts did. */
  lemma {:induction false} ListedAreRows(order: seq<Row>, t: Table, net: Retry.Script, partial: nat -> nat, i: nat)
    requires Ordering(order, t) && i < Retry.MaxAttempts
    ensures forall n :: n in ListFrom(order, net, partial, i).0 ==> exists r :: r in t && n == r.0 + "/" + r.1
    decreases Retry.MaxAttempts - i
  {
    var d := Delivered(order, net, partial, i);
    assert forall j :: 0 <= j < |d| ==> d[j] in order;
    NamesAt(d);
    if net.outcome(i).Some? && !net.expired(i) && i + 1 < Retry.MaxAttempts {
      ListedAreRows(order, t, net, partial, i + 1);
    }
  }

  /** Because `out` is not reset between attempts, a first attempt that
      fails after delivering some rows and a second that succeeds list those
      rows twice. */
  lemma {:induction false} ListDuplicates(order: seq<Row>, net: Retry.Script, partial: nat -> nat)
    requires |order| > 0 && net.outcome(0).Some? && !net.expired(0) && net.outcome(1).None?
    requires 0 < partial(0) <= |order|
    ensures var out := ListFrom(order, net, partial, 0).0;
            |out| == partial(0) + |order| && out[0] == out[partial(0)]
            && ListFrom(order, net, partial, 0).1 == Retry.Succeeded
  {
    var d := Delivered(order, net, partial, 0);
    NamesAt(d);
    NamesAt(order);
  }
}
