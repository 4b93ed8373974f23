/** The `config lint` command's report: nothing but the validation error
    when the configuration is invalid, otherwise a header line and, per
    user, a summary line and optional lists of includes and exclusions. */
module Lint {
  import opened Wrappers
  import opened Strings
  import opened Errors
  import opened Model
  import opened Patterns

  /** The lines printed for one user. */
  function UserLines(u: UserSpec): (ls: seq<string>)
    ensures 1 <= |ls| <= 3
  {
    var (includes, excludes) := Split(u.track);
    ["- " + u.name + " (" + u.home + "): " + IntToDec(|includes|) + " include(s), " + IntToDec(|excludes|) + " exclusion(s)"]
      + (if |includes| > 0 then ["  includes: " + JoinWith(includes, ", ")] else [])
      + (if |excludes| > 0 then ["  excludes: " + JoinWith(excludes, ", ")] else [])
  }

  function UsersLines(users: seq<UserSpec>): seq<string>
  {
    if users == [] then [] else UsersLines(users[..|users| - 1]) + UserLines(users[|users| - 1])
  }

  /** The users sorted by name, as the command sorts them before printing;
      names are distinct, being the keys of the configuration's user map. */
  predicate ByName(users: seq<UserSpec>)
  {
    forall i, j :: 0 <= i < j < |users| ==> Less(users[i].name, users[j].name)
  }

  /** The whole report, for the users in name order. */
  function Report(validation: Option<Error>, driver: string, users: seq<UserSpec>): (r: Result<seq<string>>)
    requires ByName(users)
  {
    if validation.Some? then Err(validation.value)
    else Ok(["configuration OK (storage_driver=" + driver + ")"] + UsersLines(users))
  }

  /** An invalid configuration fails before anything is printed, with
      the validation error; a valid one prints its header first. */
  lemma {:induction false} FailsBeforePrinting(validation: Option<Error>, driver: string, users: seq<UserSpec>)
    requires ByName(users)
    ensures validation.Some? <==> Report(validation, driver, users).Err?
    ensures validation.Some? ==> Report(validation, driver, users).error == validation.value
    ensures validation.None? ==> Report(validation, driver, users).value[0] == "configuration OK (storage_driver=" + driver + ")"
  {
  }

  /** Each user contributes one summary line, plus one line for each of its
      two lists that is not empty. */
  lemma {:induction false} LineCount(users: seq<UserSpec>)
    ensures |UsersLines(users)| == SummedLines(users)
  {
    if users != [] {
      LineCount(users[..|users| - 1]);
    }
  }

  function SummedLines(users: seq<UserSpec>): nat
  {
    if users == [] then 0
    else
      var u := users[|users| - 1];
      SummedLines(users[..|users| - 1]) + 1 + (if |Split(u.track).0| > 0 then 1 else 0) + (if |Split(u.track).1| > 0 then 1 else 0)
  }
}
