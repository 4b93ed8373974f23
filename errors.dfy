/** Failure values shared by every component: the errors the Go code returns,
    with the text `err.Error()` would print where a caller inspects it. */
module Errors {
  import opened Wrappers
  import opened Strings

  datatype Error =
    // rejected by a path sanitiser
    | EmptyUser
    | EmptyPath
    | PathTooLong
    | AbsolutePath
    | PathTraversal
    // the server's legacy store words the same two rejections differently
    | AbsoluteRejected
    | TraversalRejected
    // a blob, file or row that is not there
    | NotExist
    // any other filesystem, network or codec failure, with its message
    | Io(msg: string)
    // the chunked key-value backend's wrapper after its retry budget is spent
    | AfterRetries(op: string, cause: Error)
    // the caller's deadline expired while retrying
    | DeadlineExceeded
    // storage construction
    | EmptyRoot
    | UnknownDriver(driver: string)
    // configuration validation
    | ServerUrlRequired
    | NoUsers
    | UnsupportedDriver(driver: string)
    | RedisSocketAndAddr
    | MariaDbRequired
    | MariaUserRequired
    | MariaSocketAndAddr
    | UserHomeRequired(name: string)
    | InvalidPattern(scope: string, raw: string)
    | NoIncludePattern(scope: string)
    // operational metadata
    | MetaPathUnset
    // a client request answered with an unsuccessful status
    | RequestFailed(op: string, status: int)

  datatype Result<T> = Ok(value: T) | Err(error: Error)

  /** The message the Go error carries. */
  function Text(e: Error): string
  {
    match e
    case EmptyUser => "empty user"
    case EmptyPath => "empty path"
    case PathTooLong => "path too long"
    case AbsolutePath => "absolute path disallowed"
    case PathTraversal => "path traversal disallowed"
    case AbsoluteRejected => "absolute path rejected"
    case TraversalRejected => "path traversal rejected"
    case NotExist => "file does not exist"
    case Io(msg) => msg
    case AfterRetries(op, cause) => "redis " + op + " failed after retries: " + Text(cause)
    case DeadlineExceeded => "context deadline exceeded"
    case EmptyRoot => "empty root"
    case UnknownDriver(d) => "unknown storage driver: " + d
    case ServerUrlRequired => "server_url is required"
    case NoUsers => "at least one user must be configured"
    case UnsupportedDriver(d) => "unsupported storage_driver: " + d
    case RedisSocketAndAddr => "redis.socket and redis.addr are mutually exclusive"
    case MariaDbRequired => "maria_db required"
    case MariaUserRequired => "maria_user required"
    case MariaSocketAndAddr => "db.socket and db.addr are mutually exclusive"
    case UserHomeRequired(name) => "user " + name + " requires home path"
    case InvalidPattern(scope, raw) => "invalid " + scope + " entry \"" + raw + "\": failed glob validation"
    case NoIncludePattern(scope) => scope + " must contain at least one non-exclusion pattern"
    case MetaPathUnset => "meta path unset"
    case RequestFailed(op, status) => op + " failed: " + IntToDec(status)
  }

  /** The publish handler's test `strings.Contains(err.Error(), "too long")`. */
  predicate SaysTooLong(e: Error)
  {
    HasTooLong(Text(e))
  }

  /** "too long" occurs in `s`, stated by the position where it starts. */
  predicate HasTooLong(s: string)
  {
    exists i :: 0 <= i <= |s| && TooLongAt(s, i)
  }

  /** "too long" starts at position `i` of `s`. */
  predicate TooLongAt(s: string, i: int)
  {
    0 <= i && i + 8 <= |s| && s[i..i + 8] == "too long"
  }

  /** The positional form is `strings.Contains` itself. */
  lemma {:induction false} HasTooLongIsContains(s: string)
    ensures HasTooLong(s) <==> Contains(s, "too long")
  {
    if HasTooLong(s) {
      var i :| 0 <= i <= |s| && TooLongAt(s, i);
      assert |"too long"| == 8;
      ContainsAt(s, "too long", i);
    }
    if Contains(s, "too long") {
      var i := ContainsWitness(s, "too long");
      assert TooLongAt(s, i);
    }
  }

  /** The sanitiser's length error is the one rejection the publish handler
      answers with 400. */
  lemma LengthErrorSaysTooLong()
    ensures SaysTooLong(PathTooLong)
  {
    assert TooLongAt(Text(PathTooLong), 5);
  }

  /** An error whose text has no `g` cannot say "too long"; the other path
      rejections are of this kind. */
  lemma {:induction false} NoTooLong(e: Error, t: string)
    requires Text(e) == t && 'g' !in t
    ensures !SaysTooLong(e)
  {
    forall i | 0 <= i <= |t|
      ensures !TooLongAt(t, i)
    {
      assert i + 8 <= |t| ==> t[i..i + 8][7] == t[i + 7];
    }
  }
}
