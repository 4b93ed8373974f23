/** The client's prune request: the Delete changes become the delete list,
    an empty list sends nothing, and the reply is read leniently. The
    transport is a function from the list sent to its outcome. */
module ClientPrune {
  import opened Wrappers
  import opened Errors
  import opened Model

  /** What the request came back with: a transport error, or a status and,
      when the body decoded, the server's `deleted` count. */
  datatype Reply = Unsent(error: Error) | Answered(status: int, deleted: Option<int>)

  /** The (user, path) pairs of the Delete changes, in order. */
  function DeleteList(changes: seq<Change>): seq<(string, string)>
  {
    if changes == [] then []
    else
      var c := changes[|changes| - 1];
      DeleteList(changes[..|changes| - 1]) + (if c.kind == Delete then [(c.user, c.path)] else [])
  }

  /** The result `Prune` returns for a reply. */
  function Outcome(reply: Reply): (r: (int, Option<Error>))
    ensures r.1.Some? <==> reply.Unsent? || reply.status >= 300
    ensures r.1.Some? ==> r.0 == 0
    ensures reply.Answered? && reply.status >= 300 ==> r.1 == Some(RequestFailed("prune", reply.status))
    ensures reply.Answered? && reply.status < 300 ==> r.0 == if reply.deleted.Some? then reply.deleted.value else 0
  {
    match reply
    case Unsent(e) => (0, Some(e))
    case Answered(status, deleted) =>
      if status >= 300 then (0, Some(RequestFailed("prune", status)))
      else if deleted.None? then (0, None)
      else (deleted.value, None)
  }

  /** `Prune`: builds the list in a loop, sends it unless it is empty. */
  method Prune(changes: seq<Change>, send: seq<(string, string)> -> Reply)
    returns (deleted: int, err: Option<Error>, sent: Option<seq<(string, string)>>)
    ensures sent.None? <==> DeleteList(changes) == []
    ensures sent.Some? ==> sent.value == DeleteList(changes) && (deleted, err) == Outcome(send(sent.value))
    ensures sent.None? ==> deleted == 0 && err.None?
  {
    var dels: seq<(string, string)> := [];
    for i := 0 to |changes|
      invariant dels == DeleteList(changes[..i])
    {
      assert changes[..i + 1][..i] == changes[..i];
      var ch := changes[i];
      if ch.kind == Delete {
        dels := dels + [(ch.user, ch.path)];
      }
    }
    assert changes[..|changes|] == changes;
    if |dels| == 0 {
      return 0, None, None;
    }
    sent := Some(dels);
    deleted, err := Outcome(send(dels)).0, Outcome(send(dels)).1;
  }

  /** The list holds exactly the Delete changes' pairs, one per change. */
  lemma {:induction false} DeleteListContents(changes: seq<Change>)
    ensures forall d :: d in DeleteList(changes) <==> exists c :: c in changes && c.kind == Delete && d == (c.user, c.path)
    ensures |DeleteList(changes)| <= |changes|
  {
    if changes != [] {
      var pre := changes[..|changes| - 1];
      DeleteListContents(pre);
      assert changes == pre + [changes[|changes| - 1]];
    }
  }

  /** Order is kept: the list of a concatenation is the concatenation of the
      lists. */
  lemma {:induction false} DeleteListAppend(a: seq<Change>, b: seq<Change>)
    ensures DeleteList(a + b) == DeleteList(a) + DeleteList(b)
    decreases |b|
  {
    if b == [] {
      assert a + b == a;
    } else {
      var b0 := b[..|b| - 1];
      var c := b[|b| - 1];
      DeleteListAppend(a, b0);
      assert (a + b)[..|a + b| - 1] == a + b0;
      assert (a + b)[|a + b| - 1] == c;
      var tail := if c.kind == Delete then [(c.user, c.path)] else [];
      assert DeleteList(a + b) == DeleteList(a + b0) + tail;
      assert DeleteList(b) == DeleteList(b0) + tail;
      assert DeleteList(a) + DeleteList(b0) + tail == DeleteList(a) + (DeleteList(b0) + tail);
    }
  }
}
