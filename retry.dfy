/** The bounded retry loop both network backends wrap around each remote
    call: at most three attempts, stopping at the first success; after a
    failure the loop waits a backoff that starts at 50 ms and doubles, and
    gives up early when the caller's context is done first. The remote call
    and the clock are inputs: a script says how each attempt ends and whether
    the context expires during the wait that follows it. */
module Retry {
  import opened Wrappers
  import opened Errors

  const MaxAttempts: nat := 3

  /** The first backoff, in milliseconds. */
  const FirstBackoff: nat := 50

  /** How the loop ends. */
  datatype Ending = Succeeded | Cancelled | Exhausted(last: Error)

  /** `outcome(i)`: the error attempt `i` fails with, `None` for success;
      `expired(i)`: the context is done before the wait after a failed
      attempt `i` is over. */
  datatype Script = Script(outcome: nat -> Option<Error>, expired: nat -> bool)

  /** The wait after the `i`-th failure. */
  function Backoff(i: nat): (ms: nat)
    ensures ms >= FirstBackoff
  {
    if i == 0 then FirstBackoff else 2 * Backoff(i - 1)
  }

  /** The ending and the number of calls made, from attempt `i` on. */
  function From(s: Script, i: nat): (r: (Ending, nat))
    requires i < MaxAttempts
    decreases MaxAttempts - i
  {
    match s.outcome(i)
    case None => (Succeeded, i + 1)
    case Some(err) =>
      if s.expired(i) then (Cancelled, i + 1)
      else if i + 1 == MaxAttempts then (Exhausted(err), MaxAttempts)
      else From(s, i + 1)
  }

  /** Attempts before `k` all failed with the context still live. */
  predicate FailedQuietly(s: Script, k: nat)
  {
    forall j: nat :: j < k ==> s.outcome(j).Some? && !s.expired(j)
  }

  /** The loop's ending, characterised by the attempts it made: every call
      but the last failed without the context expiring, and the last one
      decides the ending. At most three calls are made. */
  lemma {:induction false} FromEnding(s: Script, i: nat)
    requires i < MaxAttempts && FailedQuietly(s, i)
    ensures var (e, calls) := From(s, i);
            && i < calls <= MaxAttempts && FailedQuietly(s, calls - 1)
            && (e == Succeeded <==> s.outcome(calls - 1).None?)
            && (e == Cancelled <==> s.outcome(calls - 1).Some? && s.expired(calls - 1))
            && (e.Exhausted? <==> calls == MaxAttempts && s.outcome(calls - 1).Some? && !s.expired(calls - 1))
            && (e.Exhausted? ==> Some(e.last) == s.outcome(MaxAttempts - 1))
    decreases MaxAttempts - i
  {
    if s.outcome(i).Some? && !s.expired(i) && i + 1 < MaxAttempts {
      FromEnding(s, i + 1);
    }
  }

  /** The first success stops the loop: no later attempt is made. */
  lemma {:induction false} FirstSuccessStops(s: Script, k: nat)
    requires k < MaxAttempts && FailedQuietly(s, k) && s.outcome(k).None?
    ensures From(s, 0) == (Succeeded, k + 1)
  {
    FromAt(s, k);
  }

  lemma {:induction false} FromAt(s: Script, k: nat)
    requires k < MaxAttempts && FailedQuietly(s, k)
    ensures forall i :: 0 <= i <= k ==> From(s, i) == From(s, k)
    decreases k
  {
    if k > 0 {
      FromAt(s, k - 1);
      assert From(s, k - 1) == From(s, k);
    }
  }

  /** `retry`: returns how the loop ended, the number of calls and the
      backoffs it started waiting for. */
  method Run(s: Script) returns (e: Ending, calls: nat, waits: seq<nat>)
    ensures (e, calls) == From(s, 0)
    ensures |waits| == (if e == Succeeded then calls - 1 else calls)
    ensures forall j :: 0 <= j < |waits| ==> waits[j] == Backoff(j)
  {
    var backoff := FirstBackoff;
    var attempt := 0;
    var err: Option<Error> := None;
    waits := [];
    while attempt < MaxAttempts
      invariant attempt <= MaxAttempts && backoff == Backoff(attempt) && |waits| == attempt
      invariant forall j :: 0 <= j < attempt ==> waits[j] == Backoff(j)
      invariant attempt < MaxAttempts ==> From(s, attempt) == From(s, 0)
      invariant attempt == MaxAttempts ==> err.Some? && From(s, 0) == (Exhausted(err.value), MaxAttempts)
    {
      err := s.outcome(attempt);
      if err.None? {
        return Succeeded, attempt + 1, waits;
      }
      waits := waits + [backoff];
      if s.expired(attempt) {
        return Cancelled, attempt + 1, waits;
      }
      backoff := backoff * 2;
      attempt := attempt + 1;
    }
    return Exhausted(err.value), MaxAttempts, waits;
  }

  /** The chunked key-value backend reports an exhausted budget wrapped with
      the operation's name, an expired context as the deadline error. */
  function RedisResult(op: string, e: Ending): (r: Option<Error>)
    ensures r.None? <==> e == Succeeded
    ensures e.Exhausted? ==> r == Some(AfterRetries(op, e.last))
    ensures e == Cancelled ==> r == Some(DeadlineExceeded)
  {
    match e
    case Succeeded => None
    case Cancelled => Some(DeadlineExceeded)
    case Exhausted(last) => Some(AfterRetries(op, last))
  }

  /** The SQL backend returns the last error unwrapped. */
  function MariaResult(e: Ending): (r: Option<Error>)
    ensures r.None? <==> e == Succeeded
    ensures e.Exhausted? ==> r == Some(e.last)
    ensures e == Cancelled ==> r == Some(DeadlineExceeded)
  {
    match e
    case Succeeded => None
    case Cancelled => Some(DeadlineExceeded)
    case Exhausted(last) => Some(last)
  }

  /** A script whose every attempt succeeds: one call, no wait. */
  function Reliable(): (s: Script)
    ensures From(s, 0) == (Succeeded, 1)
  {
    Script(_ => None, _ => false)
  }
}
