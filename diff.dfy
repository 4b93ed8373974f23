/** The comparator: a diff of the client's inventory against the server's,
    keyed by the string `user + "::" + path`. Go map iteration order is
    arbitrary, so the order of the produced changes is left open; the result
    is characterised as a duplicate-free list holding exactly the expected
    change of every key. */
module Diff {
  import opened Wrappers
  import opened Strings
  import opened Model

  function Key(it: InventoryItem): string
  {
    it.user + "::" + it.path
  }

  function ChangeKey(c: Change): string
  {
    c.user + "::" + c.path
  }

  /** Every entry is stored under its own key. */
  predicate Keyed(m: map<string, InventoryItem>)
  {
    forall k :: k in m ==> Key(m[k]) == k
  }

  /** The map the comparator fills from an inventory: each item is stored
      under its key, a later item overwriting an earlier one. */
  function Index(items: seq<InventoryItem>): (m: map<string, InventoryItem>)
    ensures Keyed(m)
  {
    if items == [] then map[]
    else Index(items[..|items| - 1])[Key(items[|items| - 1]) := items[|items| - 1]]
  }

  /** The keys of the index are the keys of the items. */
  lemma {:induction false} IndexKeys(items: seq<InventoryItem>, k: string)
    ensures k in Index(items) <==> exists i :: 0 <= i < |items| && Key(items[i]) == k
  {
    if items != [] {
      var init := items[..|items| - 1];
      IndexKeys(init, k);
      if k in Index(init) {
        var i :| 0 <= i < |init| && Key(init[i]) == k;
        assert items[i] == init[i];
      }
      if exists i :: 0 <= i < |items| && Key(items[i]) == k {
        var i :| 0 <= i < |items| && Key(items[i]) == k;
        if i < |init| { assert init[i] == items[i]; }
      }
    }
  }

  /** Every indexed item is one of the items. */
  lemma {:induction false} IndexFrom(items: seq<InventoryItem>, k: string)
    requires k in Index(items)
    ensures exists i :: 0 <= i < |items| && items[i] == Index(items)[k]
  {
    var init := items[..|items| - 1];
    if k != Key(items[|items| - 1]) {
      IndexFrom(init, k);
      var i :| 0 <= i < |init| && init[i] == Index(init)[k];
      assert items[i] == init[i];
    }
  }

  /** The index holds, for each key, the LAST item with that key. */
  lemma {:induction false} IndexLastWins(items: seq<InventoryItem>, i: nat)
    requires i < |items|
    requires forall j :: i < j < |items| ==> Key(items[j]) != Key(items[i])
    ensures Key(items[i]) in Index(items) && Index(items)[Key(items[i])] == items[i]
  {
    if i < |items| - 1 {
      var init := items[..|items| - 1];
      assert init[i] == items[i];
      forall j | i < j < |init| ensures Key(init[j]) != Key(init[i]) {
        assert init[j] == items[j];
      }
      IndexLastWins(init, i);
    }
  }

  /** The client-side loop: fills the map from the inventory. */
  method BuildIndex(items: seq<InventoryItem>) returns (m: map<string, InventoryItem>)
    ensures m == Index(items)
  {
    m := map[];
    for i := 0 to |items|
      invariant m == Index(items[..i])
    {
      assert items[..i + 1][..i] == items[..i];
      m := m[Key(items[i]) := items[i]];
    }
    assert items[..|items|] == items;
  }

  /** The change a key calls for: Add when only the client has it, Modify when
      both have it with different hashes, Delete when only the server has it,
      none otherwise. Add and Modify name the client's item, Delete the server's. */
  function Expected(cm: map<string, InventoryItem>, sm: map<string, InventoryItem>, k: string): Option<Change>
  {
    if k in cm && k !in sm then Some(Change(cm[k].user, cm[k].path, Add))
    else if k in cm && sm[k].hash != cm[k].hash then Some(Change(cm[k].user, cm[k].path, Modify))
    else if k !in cm && k in sm then Some(Change(sm[k].user, sm[k].path, Delete))
    else None
  }

  predicate NoDupKeys(changes: seq<Change>)
  {
    forall i, j :: 0 <= i < j < |changes| ==> ChangeKey(changes[i]) != ChangeKey(changes[j])
  }

  /** `changes` lists each key's expected change once and nothing else. */
  ghost predicate IsChangeSet(changes: seq<Change>, cm: map<string, InventoryItem>, sm: map<string, InventoryItem>)
  {
    && (forall i :: 0 <= i < |changes| ==> Expected(cm, sm, ChangeKey(changes[i])) == Some(changes[i]))
    && (forall k :: Expected(cm, sm, k).Some? ==> Expected(cm, sm, k).value in changes)
    && NoDupKeys(changes)
  }

  /** Appending a change with a key not yet listed keeps the keys distinct. */
  lemma {:induction false} AppendFresh(changes: seq<Change>, c: Change)
    requires NoDupKeys(changes)
    requires forall i :: 0 <= i < |changes| ==> ChangeKey(changes[i]) != ChangeKey(c)
    ensures NoDupKeys(changes + [c])
  {
  }

  /** The comparator's first pass: every client key that calls for an Add or
      a Modify, in map order. */
  method ClientPass(cm: map<string, InventoryItem>, sm: map<string, InventoryItem>) returns (changes: seq<Change>)
    requires Keyed(cm)
    ensures forall i :: 0 <= i < |changes| ==>
      ChangeKey(changes[i]) in cm && Expected(cm, sm, ChangeKey(changes[i])) == Some(changes[i])
    ensures forall k :: k in cm && Expected(cm, sm, k).Some? ==> Expected(cm, sm, k).value in changes
    ensures NoDupKeys(changes)
  {
    changes := [];
    var pending := cm.Keys;
    while pending != {}
      invariant pending <= cm.Keys
      invariant forall i :: 0 <= i < |changes| ==>
        ChangeKey(changes[i]) in cm.Keys - pending && Expected(cm, sm, ChangeKey(changes[i])) == Some(changes[i])
      invariant forall k :: k in cm.Keys - pending && Expected(cm, sm, k).Some? ==> Expected(cm, sm, k).value in changes
      invariant NoDupKeys(changes)
      decreases |pending|
    {
      var k :| k in pending;
      var cit := cm[k];
      assert Key(cit) == k;
      if k !in sm || sm[k].hash != cit.hash {
        var c := Change(cit.user, cit.path, if k !in sm then Add else Modify);
        assert Expected(cm, sm, k) == Some(c);
        AppendFresh(changes, c);
        changes := changes + [c];
      }
      pending := pending - {k};
    }
  }

  /** The comparator's second pass: every server key the client lacks becomes
      a Delete, appended in map order. */
  method ServerPass(cm: map<string, InventoryItem>, sm: map<string, InventoryItem>, first: seq<Change>) returns (changes: seq<Change>)
    requires Keyed(sm)
    requires forall i :: 0 <= i < |first| ==>
      ChangeKey(first[i]) in cm && Expected(cm, sm, ChangeKey(first[i])) == Some(first[i])
    requires forall k :: k in cm && Expected(cm, sm, k).Some? ==> Expected(cm, sm, k).value in first
    requires NoDupKeys(first)
    ensures IsChangeSet(changes, cm, sm)
  {
    changes := first;
    var pending := sm.Keys;
    while pending != {}
      invariant pending <= sm.Keys
      invariant forall i :: 0 <= i < |changes| ==>
        ChangeKey(changes[i]) in cm.Keys + (sm.Keys - pending) && Expected(cm, sm, ChangeKey(changes[i])) == Some(changes[i])
      invariant forall k :: k in cm.Keys + (sm.Keys - pending) && Expected(cm, sm, k).Some? ==> Expected(cm, sm, k).value in changes
      invariant NoDupKeys(changes)
      decreases |pending|
    {
      var k :| k in pending;
      if k !in cm {
        var c := Change(sm[k].user, sm[k].path, Delete);
        assert Key(sm[k]) == k;
        AppendFresh(changes, c);
        changes := changes + [c];
      }
      pending := pending - {k};
    }
  }

  /** `Compare`: the client's items are scanned for adds and modifies, then the
      server's for deletes, each map in an arbitrary order. */
  method Compare(client: seq<InventoryItem>, server: seq<InventoryItem>) returns (changes: seq<Change>)
    ensures IsChangeSet(changes, Index(client), Index(server))
  {
    var cm := BuildIndex(client);
    var sm := BuildIndex(server);
    var first := ClientPass(cm, sm);
    changes := ServerPass(cm, sm, first);
  }

  /** Of a change set, exactly one change carries a key that calls for one, and
      none carries a key that does not. */
  lemma {:induction false} ExactlyOnePerKey(changes: seq<Change>, cm: map<string, InventoryItem>, sm: map<string, InventoryItem>, k: string)
    requires IsChangeSet(changes, cm, sm) && Keyed(cm) && Keyed(sm)
    ensures Expected(cm, sm, k).Some? ==>
      exists i :: 0 <= i < |changes| && changes[i] == Expected(cm, sm, k).value
        && forall j :: 0 <= j < |changes| && j != i ==> ChangeKey(changes[j]) != k
    ensures Expected(cm, sm, k).None? ==> forall i :: 0 <= i < |changes| ==> ChangeKey(changes[i]) != k
  {
    if Expected(cm, sm, k).Some? {
      var c := Expected(cm, sm, k).value;
      assert ChangeKey(c) == k;
      var i :| 0 <= i < |changes| && changes[i] == c;
      forall j | 0 <= j < |changes| && j != i ensures ChangeKey(changes[j]) != k {
        if j < i { assert ChangeKey(changes[j]) != ChangeKey(changes[i]); }
        else { assert ChangeKey(changes[i]) != ChangeKey(changes[j]); }
      }
    } else {
      forall i | 0 <= i < |changes| ensures ChangeKey(changes[i]) != k {
        assert Expected(cm, sm, ChangeKey(changes[i])) == Some(changes[i]);
      }
    }
  }

  /** The comparator's promises in the source's terms: a key only the client
      has is an Add, a key both have with different hashes a Modify, a key only
      the server has a Delete; equal hashes give no change; Same never appears;
      a Modify always has differing hashes. */
  lemma {:induction false} CompareKinds(client: seq<InventoryItem>, server: seq<InventoryItem>, changes: seq<Change>, c: Change)
    requires IsChangeSet(changes, Index(client), Index(server)) && c in changes
    ensures var cm, sm, k := Index(client), Index(server), ChangeKey(c);
      && c.kind != Same
      && (c.kind == Add <==> k in cm && k !in sm)
      && (c.kind == Modify <==> k in cm && k in sm && cm[k].hash != sm[k].hash)
      && (c.kind == Delete <==> k !in cm && k in sm)
  {
  }

  /** Pairs whose concatenations coincide are one key: a client file
      `("a", "::b")` and a server file `("a::", "b")` with one hash hide each
      other, so neither the Add nor the Delete is reported. */
  lemma {:induction false} KeyCollision(h: string)
    ensures var c := InventoryItem("a", "::b", 0, h, false);
            var s := InventoryItem("a::", "b", 0, h, false);
            (c.user, c.path) != (s.user, s.path) && Key(c) == Key(s)
            && forall k :: Expected(Index([c]), Index([s]), k) == None
  {
    var c := InventoryItem("a", "::b", 0, h, false);
    var s := InventoryItem("a::", "b", 0, h, false);
    assert Key(c) == "a::::b" == Key(s);
    assert Index([c]) == map[Key(c) := c];
    assert Index([s]) == map[Key(s) := s];
  }

  /** Users without `:` make the key injective. */
  lemma {:induction false} KeyInjective(a: InventoryItem, b: InventoryItem)
    requires ':' !in a.user && ':' !in b.user && Key(a) == Key(b)
    ensures a.user == b.user && a.path == b.path
  {
    var k := Key(a);
    assert k[..|a.user|] == a.user && k[|a.user|] == ':';
    assert (b.user + "::" + b.path)[..|b.user|] == b.user && k[|b.user|] == ':';
    FirstIndexAt(k, ':', |a.user|);
    FirstIndexAt(k, ':', |b.user|);
    assert k[|a.user| + 2..] == a.path;
    assert (b.user + "::" + b.path)[|b.user| + 2..] == b.path;
  }

  /** The property test's view of a hash: that of the last item with the very
      same user and path, or `""` when there is none. */
  function PairHash(items: seq<InventoryItem>, user: string, path: string): string
  {
    if items == [] then ""
    else if items[|items| - 1].user == user && items[|items| - 1].path == path then items[|items| - 1].hash
    else PairHash(items[..|items| - 1], user, path)
  }

  predicate NoColonUsers(items: seq<InventoryItem>)
  {
    forall i :: 0 <= i < |items| ==> ':' !in items[i].user
  }

  lemma {:induction false} PairHashIsIndexed(items: seq<InventoryItem>, it: InventoryItem)
    requires NoColonUsers(items) && ':' !in it.user
    ensures Key(it) in Index(items) ==> Index(items)[Key(it)].hash == PairHash(items, it.user, it.path)
  {
    if items != [] {
      var last := items[|items| - 1];
      var init := items[..|items| - 1];
      assert NoColonUsers(init) by {
        forall i | 0 <= i < |init| ensures ':' !in init[i].user { assert init[i] == items[i]; }
      }
      PairHashIsIndexed(init, it);
      if Key(last) == Key(it) {
        KeyInjective(last, it);
      }
    }
  }

  /** The property test's claim: every Modify has differing client and server
      hashes for its (user, path), provided no user contains `:`. */
  lemma {:induction false} ModifyDiffersPerPair(client: seq<InventoryItem>, server: seq<InventoryItem>, changes: seq<Change>, c: Change)
    requires IsChangeSet(changes, Index(client), Index(server)) && c in changes && c.kind == Modify
    requires NoColonUsers(client) && NoColonUsers(server)
    ensures PairHash(client, c.user, c.path) != PairHash(server, c.user, c.path)
  {
    var k := ChangeKey(c);
    var cm, sm := Index(client), Index(server);
    assert Expected(cm, sm, k) == Some(c);
    assert k in cm && k in sm && cm[k].hash != sm[k].hash;
    var it := cm[k];
    assert Key(it) == k && it.user == c.user && it.path == c.path;
    IndexFrom(client, k);
    var i :| 0 <= i < |client| && client[i] == it;
    assert ':' !in it.user;
    PairHashIsIndexed(client, it);
    PairHashIsIndexed(server, it);
  }

  /** Without that proviso the test's claim fails: the client's `("a", "::b")`
      is reported as modified against the server's `("a::", "b")`, yet both
      per-pair hashes are empty. */
  lemma ModifyWithCollidingUser()
    ensures var client := [InventoryItem("a", "::b", 0, "", false)];
            var server := [InventoryItem("a::", "b", 0, "x", false)];
            var k := Key(client[0]);
            && Expected(Index(client), Index(server), k) == Some(Change("a", "::b", Modify))
            && PairHash(client, "a", "::b") == PairHash(server, "a", "::b")
  {
    var c := InventoryItem("a", "::b", 0, "", false);
    var s := InventoryItem("a::", "b", 0, "x", false);
    assert Key(c) == Key(s);
    assert Index([c]) == map[Key(c) := c];
    assert Index([s]) == map[Key(s) := s];
    assert [s][..0] == [];
  }

  /** The `include_same` change a key calls for: both sides hold it with equal hashes. */
  function SameFor(cm: map<string, InventoryItem>, sm: map<string, InventoryItem>, k: string): Option<Change>
  {
    if k in cm && k in sm && sm[k].hash == cm[k].hash then Some(Change(cm[k].user, cm[k].path, Same)) else None
  }

  /** A key calls for a Same exactly when it calls for no other change and
      both sides hold it. */
  lemma {:induction false} SameExcludesChange(cm: map<string, InventoryItem>, sm: map<string, InventoryItem>, k: string)
    ensures SameFor(cm, sm, k).Some? <==> Expected(cm, sm, k).None? && k in cm && k in sm
  {
  }

  /** The loop of the `include_same` augmentation: one Same for each key both
      sides hold with equal hashes, in map order. */
  method SamePass(cm: map<string, InventoryItem>, sm: map<string, InventoryItem>) returns (extra: seq<Change>)
    requires Keyed(cm)
    ensures forall i :: 0 <= i < |extra| ==> SameFor(cm, sm, ChangeKey(extra[i])) == Some(extra[i])
    ensures forall k :: SameFor(cm, sm, k).Some? ==> SameFor(cm, sm, k).value in extra
    ensures NoDupKeys(extra)
  {
    extra := [];
    var pending := cm.Keys;
    while pending != {}
      invariant pending <= cm.Keys
      invariant forall i :: 0 <= i < |extra| ==>
        ChangeKey(extra[i]) in cm.Keys - pending && SameFor(cm, sm, ChangeKey(extra[i])) == Some(extra[i])
      invariant forall k :: k in cm.Keys - pending && SameFor(cm, sm, k).Some? ==> SameFor(cm, sm, k).value in extra
      invariant NoDupKeys(extra)
      decreases |pending|
    {
      var k :| k in pending;
      var cit := cm[k];
      assert Key(cit) == k;
      if k in sm && sm[k].hash == cit.hash {
        var c := Change(cit.user, cit.path, Same);
        AppendFresh(extra, c);
        extra := extra + [c];
      }
      pending := pending - {k};
    }
  }

  /** The `include_same` augmentation of the compare handler: the Same changes
      follow the computed ones. */
  method AppendSame(changes: seq<Change>, client: seq<InventoryItem>, server: seq<InventoryItem>) returns (out: seq<Change>)
    ensures |changes| <= |out| && out[..|changes|] == changes
    ensures var extra, cm, sm := out[|changes|..], Index(client), Index(server);
      && (forall i :: 0 <= i < |extra| ==> SameFor(cm, sm, ChangeKey(extra[i])) == Some(extra[i]))
      && (forall k :: SameFor(cm, sm, k).Some? ==> SameFor(cm, sm, k).value in extra)
      && NoDupKeys(extra)
  {
    var cm := BuildIndex(client);
    var sm := BuildIndex(server);
    var extra := SamePass(cm, sm);
    out := changes + extra;
    assert out[..|changes|] == changes && out[|changes|..] == extra;
  }
}
