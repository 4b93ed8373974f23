/** The configuration package: the track lists every user's dotfiles are
    chosen by, their normalisation when a file is loaded, the legacy
    `include` migration, and `Validate`, which checks a configuration and
    fills in its defaults. */
module Config {
  import opened Wrappers
  import opened Strings
  import opened Errors
  import opened Model
  import StorageFactory

  /** A track list that is never empty. */
  type Track = s: seq<string> | |s| > 0 witness ["*"]

  /** The built-in track list used when neither the user nor the global
      configuration names one. Its entries are not part of this model; the
      code relies only on its being non-empty. */
  const DefaultTrack: Track

  const RedisDefaultAddr := "127.0.0.1:6379"
  const MariaDefaultAddr := "127.0.0.1:3306"

  datatype User = User(home: string, track: seq<string>, legacyTrack: seq<string>)

  /** The Redis settings validation looks at (credentials and TLS are left out). */
  datatype Redis = Redis(addr: string, socket: string)

  /** The MariaDB settings validation looks at. */
  datatype Maria = Maria(addr: string, socket: string, db: string, user: string)

  /** A value snapshot of a `Config`'s fields, used to state what its methods do. */
  datatype Settings = Settings(
    serverUrl: string,
    storageDriver: string,
    globalTrack: seq<string>,
    legacyTrack: seq<string>,
    users: map<string, User>,
    redis: Redis,
    maria: Maria)

  // ---------------------------------------------------------------------
  // normalizeTrackList

  /** Every entry of a list trimmed of surrounding white space. */
  function Trimmed(xs: seq<string>): (ts: seq<string>)
    ensures |ts| == |xs|
    ensures forall i :: 0 <= i < |xs| ==> ts[i] == TrimSpace(xs[i])
  {
    seq(|xs|, (i: nat) requires i < |xs| => TrimSpace(xs[i]))
  }

  /** Blank entries dropped and only the first occurrence of each entry
      kept, order preserved. */
  function Kept(ts: seq<string>): seq<string>
  {
    if ts == [] then []
    else
      var pre := Kept(ts[..|ts| - 1]);
      var t := ts[|ts| - 1];
      if t == "" || t in pre then pre else pre + [t]
  }

  /** The entries `normalizeTrackList` keeps: each entry trimmed, blanks
      dropped, and only the first occurrence of each trimmed pattern kept. */
  function Normalized(xs: seq<string>): seq<string>
  {
    Kept(Trimmed(xs))
  }

  predicate Distinct(xs: seq<string>)
  {
    forall i, j :: 0 <= i < j < |xs| ==> xs[i] != xs[j]
  }

  /** A pattern as normalisation leaves it: trimmed and not blank. */
  predicate Clean(p: string)
  {
    p != "" && TrimSpace(p) == p
  }

  /** What is kept is distinct, and is exactly the non-blank entries. */
  lemma {:induction false} KeptMembers(ts: seq<string>)
    ensures Distinct(Kept(ts))
    ensures forall t :: t in Kept(ts) <==> t != "" && t in ts
  {
    if ts != [] {
      var pre := ts[..|ts| - 1];
      KeptMembers(pre);
      assert ts == pre + [ts[|ts| - 1]];
    }
  }

  /** A list of distinct non-blank entries is kept whole. */
  lemma {:induction false} KeptFixed(ts: seq<string>)
    requires Distinct(ts)
    requires forall t :: t in ts ==> t != ""
    ensures Kept(ts) == ts
  {
    if ts != [] {
      var pre := ts[..|ts| - 1];
      assert forall t :: t in pre ==> t in ts;
      KeptFixed(pre);
      assert ts[|ts| - 1] in ts;
      assert ts[|ts| - 1] !in pre;
      assert pre + [ts[|ts| - 1]] == ts;
    }
  }

  /** The normalised list has no duplicates, its entries are trimmed and
      not blank, and it holds exactly the non-blank trimmed entries of the
      input. */
  lemma {:induction false} NormalizedMembers(xs: seq<string>)
    ensures Distinct(Normalized(xs))
    ensures forall p :: p in Normalized(xs) ==> Clean(p)
    ensures forall p :: p in Normalized(xs) <==> p != "" && exists i :: 0 <= i < |xs| && TrimSpace(xs[i]) == p
  {
    var ts := Trimmed(xs);
    KeptMembers(ts);
    forall p | p in Normalized(xs)
      ensures Clean(p)
    {
      var i :| 0 <= i < |ts| && ts[i] == p;
      TrimSpaceIdempotent(xs[i]);
    }
  }

  /** A list that is already normalised is left as it is. */
  lemma {:induction false} NormalizedFixed(xs: seq<string>)
    requires Distinct(xs)
    requires forall p :: p in xs ==> Clean(p)
    ensures Normalized(xs) == xs
  {
    var ts := Trimmed(xs);
    forall i | 0 <= i < |xs|
      ensures ts[i] == xs[i]
    {
      assert Clean(xs[i]);
    }
    assert ts == xs;
    KeptFixed(xs);
  }

  /** Normalising twice is normalising once. */
  lemma {:induction false} NormalizeIdempotent(xs: seq<string>)
    ensures Normalized(Normalized(xs)) == Normalized(xs)
  {
    NormalizedMembers(xs);
    NormalizedFixed(Normalized(xs));
  }

  /** `normalizeTrackList`: the loop with its `seen` set. */
  method NormalizeTrackList(xs: seq<string>) returns (out: seq<string>)
    ensures out == Normalized(xs)
  {
    ghost var ts := Trimmed(xs);
    var seen: set<string> := {};
    out := [];
    for i := 0 to |xs|
      invariant out == Kept(ts[..i])
      invariant forall p :: p in seen <==> p in out
    {
      assert ts[..i + 1][..i] == ts[..i];
      var p := TrimSpace(xs[i]);
      if p != "" && p !in seen {
        seen := seen + {p};
        out := out + [p];
      }
    }
    assert ts[..|xs|] == ts;
  }

  // ---------------------------------------------------------------------
  // effectiveTrack

  /** `effectiveTrack`: the user's own list, else the global one, else the
      built-in default. */
  function EffectiveTrack(userTrack: seq<string>, globalTrack: seq<string>): Track
  {
    if |userTrack| > 0 then userTrack
    else if |globalTrack| > 0 then globalTrack
    else DefaultTrack
  }

  /** The effective list is never empty, a user's own non-empty list always
      wins, and the global list is used only for a user without one. */
  lemma {:induction false} EffectiveTrackChoice(userTrack: seq<string>, globalTrack: seq<string>)
    ensures var r := EffectiveTrack(userTrack, globalTrack);
            && |r| > 0
            && (r == userTrack || r == globalTrack || r == DefaultTrack)
            && (|userTrack| > 0 ==> r == userTrack)
            && (|userTrack| == 0 && |globalTrack| > 0 ==> r == globalTrack)
  {
  }

  // ---------------------------------------------------------------------
  // validateTrackList

  /** An entry passes the pattern check: it is blank, or it is valid once a
      leading `!` is removed. `valid` is the glob library's
      `ValidatePattern`. */
  predicate Checked(raw: string, valid: string -> bool)
  {
    var p := TrimSpace(raw);
    p == "" || valid(TrimPrefix(p, "!"))
  }

  /** An entry that includes files: not blank and not an exclusion. */
  predicate Includes(raw: string)
  {
    var p := TrimSpace(raw);
    p != "" && !HasPrefix(p, "!")
  }

  /** The verdict of `validateTrackList` on `list[i..]`, having seen an
      include pattern before `i` when `hasInclude`. */
  function TrackFrom(list: seq<string>, i: nat, scope: string, valid: string -> bool, hasInclude: bool): Option<Error>
    requires i <= |list|
    decreases |list| - i
  {
    if i == |list| then
      if hasInclude then None else Some(NoIncludePattern(scope))
    else
      var p := TrimSpace(list[i]);
      if p == "" then TrackFrom(list, i + 1, scope, valid, hasInclude)
      else if !valid(TrimPrefix(p, "!")) then Some(InvalidPattern(scope, list[i]))
      else TrackFrom(list, i + 1, scope, valid, hasInclude || !HasPrefix(p, "!"))
  }

  function TrackListError(list: seq<string>, scope: string, valid: string -> bool): Option<Error>
  {
    TrackFrom(list, 0, scope, valid, false)
  }

  /** `Checked` as a function value. */
  function CheckedBy(valid: string -> bool): string -> bool
  {
    (raw: string) => Checked(raw, valid)
  }

  /** Every entry of `list[i..]` satisfies `ok`. */
  predicate AllFrom(list: seq<string>, i: nat, ok: string -> bool)
    requires i <= |list|
    decreases |list| - i
  {
    i == |list| || (ok(list[i]) && AllFrom(list, i + 1, ok))
  }

  /** Some entry of `list[i..]` satisfies `ok`. */
  predicate AnyFrom(list: seq<string>, i: nat, ok: string -> bool)
    requires i <= |list|
    decreases |list| - i
  {
    i < |list| && (ok(list[i]) || AnyFrom(list, i + 1, ok))
  }

  lemma {:induction false} AllFromMeans(list: seq<string>, i: nat, ok: string -> bool)
    requires i <= |list|
    decreases |list| - i
    ensures AllFrom(list, i, ok) <==> forall j :: i <= j < |list| ==> ok(list[j])
  {
    if i < |list| {
      AllFromMeans(list, i + 1, ok);
    }
  }

  lemma {:induction false} AnyFromMeans(list: seq<string>, i: nat, ok: string -> bool)
    requires i <= |list|
    decreases |list| - i
    ensures AnyFrom(list, i, ok) <==> exists j :: i <= j < |list| && ok(list[j])
  {
    if i < |list| {
      AnyFromMeans(list, i + 1, ok);
      if !ok(list[i]) && exists j :: i <= j < |list| && ok(list[j]) {
        var j :| i <= j < |list| && ok(list[j]);
        assert j != i;
      }
    }
  }

  lemma {:induction false} TrackFromVerdict(list: seq<string>, i: nat, scope: string, valid: string -> bool, hasInclude: bool)
    requires i <= |list|
    decreases |list| - i
    ensures TrackFrom(list, i, scope, valid, hasInclude).None? <==>
              AllFrom(list, i, CheckedBy(valid)) && (hasInclude || AnyFrom(list, i, Includes))
    ensures TrackFrom(list, i, scope, valid, hasInclude) == Some(NoIncludePattern(scope)) <==>
              AllFrom(list, i, CheckedBy(valid)) && !hasInclude && !AnyFrom(list, i, Includes)
  {
    if i < |list| {
      var p := TrimSpace(list[i]);
      TrackFromVerdict(list, i + 1, scope, valid, hasInclude || (p != "" && !HasPrefix(p, "!")));
    }
  }

  lemma {:induction false} TrackFromFirstInvalid(list: seq<string>, i: nat, scope: string, valid: string -> bool, hasInclude: bool, j: nat)
    requires i <= j < |list|
    requires !Checked(list[j], valid)
    requires AllFrom(list[..j], i, CheckedBy(valid))
    decreases j - i
    ensures TrackFrom(list, i, scope, valid, hasInclude) == Some(InvalidPattern(scope, list[j]))
  {
    var p := TrimSpace(list[i]);
    if i < j {
      var h := hasInclude || (p != "" && !HasPrefix(p, "!"));
      assert list[..j][i] == list[i];
      assert Checked(list[i], valid);
      TrackFromFirstInvalid(list, i + 1, scope, valid, h, j);
      if p == "" {
        assert TrackFrom(list, i, scope, valid, hasInclude) == TrackFrom(list, i + 1, scope, valid, hasInclude);
      } else {
        assert TrackFrom(list, i, scope, valid, hasInclude) == TrackFrom(list, i + 1, scope, valid, h);
      }
    } else {
      assert p != "" && !valid(TrimPrefix(p, "!"));
    }
  }

  /** A track list is accepted exactly when every entry passes the pattern
      check and at least one entry includes files; a list of exclusions
      only is refused with the scope's message. */
  lemma {:induction false} TrackListAccepts(list: seq<string>, scope: string, valid: string -> bool)
    ensures TrackListError(list, scope, valid).None? <==>
              (forall j :: 0 <= j < |list| ==> Checked(list[j], valid))
              && exists j :: 0 <= j < |list| && Includes(list[j])
    ensures TrackListError(list, scope, valid) == Some(NoIncludePattern(scope)) <==>
              (forall j :: 0 <= j < |list| ==> Checked(list[j], valid))
              && (forall j :: 0 <= j < |list| ==> !Includes(list[j]))
  {
    TrackFromVerdict(list, 0, scope, valid, false);
    AllFromMeans(list, 0, CheckedBy(valid));
    AnyFromMeans(list, 0, Includes);
  }

  /** The first entry that fails the pattern check is the one reported,
      quoted as it was written. */
  lemma {:induction false} FirstInvalidReported(list: seq<string>, scope: string, valid: string -> bool, j: nat)
    requires j < |list| && !Checked(list[j], valid)
    requires forall k :: 0 <= k < j ==> Checked(list[k], valid)
    ensures TrackListError(list, scope, valid) == Some(InvalidPattern(scope, list[j]))
  {
    AllFromMeans(list[..j], 0, CheckedBy(valid));
    TrackFromFirstInvalid(list, 0, scope, valid, false, j);
  }

  /** `validateTrackList`: one pass, returning at the first invalid entry. */
  method ValidateTrackList(list: seq<string>, scope: string, valid: string -> bool) returns (err: Option<Error>)
    ensures err == TrackListError(list, scope, valid)
  {
    var hasInclude := false;
    for i := 0 to |list|
      invariant TrackFrom(list, i, scope, valid, hasInclude) == TrackListError(list, scope, valid)
    {
      var p := TrimSpace(list[i]);
      if p != "" {
        if HasPrefix(p, "!") {
          p := TrimPrefix(p, "!");
        } else {
          hasInclude := true;
        }
        if !valid(p) {
          return Some(InvalidPattern(scope, list[i]));
        }
      }
    }
    if !hasInclude {
      return Some(NoIncludePattern(scope));
    }
    return None;
  }

  // ---------------------------------------------------------------------
  // validateRedis, validateMaria, Validate

  /** `validateRedis` on the Redis settings: the new settings and the error. */
  function CheckedRedis(r: Redis): (Redis, Option<Error>)
  {
    var r1 := if r.socket == "" && r.addr == "" then r.(addr := RedisDefaultAddr) else r;
    if r1.socket != "" && r1.addr != "" then (r1, Some(RedisSocketAndAddr)) else (r1, None)
  }

  /** Redis settings are refused exactly when both a socket and an address
      are given; an empty pair gains the default address, so settings that
      pass always name exactly one endpoint. */
  lemma {:induction false} RedisRules(r: Redis)
    ensures var (r1, e) := CheckedRedis(r);
            && r1.socket == r.socket
            && (e.Some? <==> r.socket != "" && r.addr != "")
            && (e.Some? ==> e.value == RedisSocketAndAddr)
            && (r.socket == "" && r.addr == "" ==> r1.addr == RedisDefaultAddr)
            && (r.socket != "" || r.addr != "" ==> r1 == r)
            && (e.None? ==> (r1.socket == "") != (r1.addr == ""))
  {
  }

  /** `validateMaria` on the MariaDB settings. */
  function CheckedMaria(m: Maria): (Maria, Option<Error>)
  {
    if m.db == "" then (m, Some(MariaDbRequired))
    else if m.user == "" then (m, Some(MariaUserRequired))
    else
      var m1 := if m.socket == "" && m.addr == "" then m.(addr := MariaDefaultAddr) else m;
      if m1.socket != "" && m1.addr != "" then (m1, Some(MariaSocketAndAddr)) else (m1, None)
  }

  /** MariaDB settings need a database and a user, in that order of
      complaint; otherwise they behave like the Redis endpoint pair. */
  lemma {:induction false} MariaRules(m: Maria)
    ensures var (m1, e) := CheckedMaria(m);
            && m1.socket == m.socket && m1.db == m.db && m1.user == m.user
            && (e == Some(MariaDbRequired) <==> m.db == "")
            && (e == Some(MariaUserRequired) <==> m.db != "" && m.user == "")
            && (e == Some(MariaSocketAndAddr) <==> m.db != "" && m.user != "" && m.socket != "" && m.addr != "")
            && (e.None? <==> m.db != "" && m.user != "" && (m.socket == "" || m.addr == ""))
            && (m.db != "" && m.user != "" && m.socket == "" && m.addr == "" ==> m1.addr == MariaDefaultAddr)
            && (m.db == "" || m.user == "" || m.socket != "" || m.addr != "" ==> m1 == m)
            && (e.None? ==> (m1.socket == "") != (m1.addr == ""))
  {
  }

  /** The storage drivers `Validate` accepts once an empty one has become
      `disk`. */
  predicate Supported(driver: string)
  {
    driver == "disk" || driver == "redis" || driver == "redis-mem" || StorageFactory.IsMaria(driver)
  }

  /** The storage driver after `Validate` has filled in the default. */
  function DriverOf(s: Settings): string
  {
    if s.storageDriver == "" then "disk" else s.storageDriver
  }

  /** The endpoint check of the chosen driver: Redis and MariaDB settings
      are checked (and may gain a default address); other drivers have
      none. */
  function EndpointChecked(s: Settings): (Settings, Option<Error>)
  {
    if s.storageDriver == "redis" then (s.(redis := CheckedRedis(s.redis).0), CheckedRedis(s.redis).1)
    else if StorageFactory.IsMaria(s.storageDriver) then (s.(maria := CheckedMaria(s.maria).0), CheckedMaria(s.maria).1)
    else (s, None)
  }

  /** The global track list `Validate` checks: the configured one, or the
      default when it is empty. */
  function GlobalOf(s: Settings): seq<string>
  {
    if |s.globalTrack| == 0 then DefaultTrack else s.globalTrack
  }

  /** Everything `Validate` checks before its pass over the users: the
      settings it leaves behind and the error it stops at, if any. */
  function Prechecks(s: Settings, valid: string -> bool): (Settings, Option<Error>)
  {
    if s.serverUrl == "" then (s, Some(ServerUrlRequired))
    else if |s.users| == 0 then (s, Some(NoUsers))
    else
      var s1 := s.(storageDriver := DriverOf(s));
      if !Supported(s1.storageDriver) then (s1, Some(UnsupportedDriver(s1.storageDriver)))
      else
        var step := EndpointChecked(s1);
        if step.1.Some? then step
        else
          var e := TrackListError(GlobalOf(s), "global track list", valid);
          if e.Some? then (step.0, e) else (step.0.(globalTrack := GlobalOf(s)), None)
  }

  /** What `Validate` reports for one user, given the validated global list. */
  function UserError(name: string, u: User, globalTrack: seq<string>, valid: string -> bool): Option<Error>
  {
    if u.home == "" then Some(UserHomeRequired(name))
    else TrackListError(EffectiveTrack(u.track, globalTrack), "user " + name + " track list", valid)
  }

  /** A user passes exactly when it has a home and its effective track list
      passes. */
  lemma {:induction false} UserAccepted(name: string, u: User, globalTrack: seq<string>, valid: string -> bool)
    ensures var list := EffectiveTrack(u.track, globalTrack);
            UserError(name, u, globalTrack, valid).None? <==>
              u.home != ""
              && (forall j :: 0 <= j < |list| ==> Checked(list[j], valid))
              && exists j :: 0 <= j < |list| && Includes(list[j])
  {
    TrackListAccepts(EffectiveTrack(u.track, globalTrack), "user " + name + " track list", valid);
  }

  /** A checked endpoint passes only when it names exactly one of socket
      and address (and, for MariaDB, a database and a user); the check
      touches nothing but the driver's own settings. */
  lemma {:induction false} EndpointRules(s: Settings)
    ensures var (t, e) := EndpointChecked(s);
            && t.(redis := s.redis, maria := s.maria) == s
            && (s.storageDriver != "redis" ==> t.redis == s.redis)
            && (!StorageFactory.IsMaria(s.storageDriver) ==> t.maria == s.maria)
            && (e.None? && s.storageDriver == "redis" ==> (t.redis.socket == "") != (t.redis.addr == ""))
            && (e.None? && StorageFactory.IsMaria(s.storageDriver) ==>
                  t.maria.db != "" && t.maria.user != "" && (t.maria.socket == "") != (t.maria.addr == ""))
  {
    RedisRules(s.redis);
    MariaRules(s.maria);
  }

  /** Settings that pass the checks before the user pass name a server,
      at least one user and a driver the storage factory builds; a Redis or
      MariaDB driver has exactly one endpoint; the global list is non-empty
      and passes. Nothing but the driver, its endpoint and the global list
      changes. */
  lemma {:induction false} PrechecksEstablish(s: Settings, valid: string -> bool)
    requires Prechecks(s, valid).1.None?
    ensures var t := Prechecks(s, valid).0;
            && t.serverUrl == s.serverUrl && t.users == s.users && t.legacyTrack == s.legacyTrack
            && t.serverUrl != "" && |t.users| > 0
            && t.storageDriver == DriverOf(s)
            && Supported(t.storageDriver) && StorageFactory.Known(t.storageDriver)
            && (t.storageDriver == "redis" ==> (t.redis.socket == "") != (t.redis.addr == ""))
            && (StorageFactory.IsMaria(t.storageDriver) ==>
                  t.maria.db != "" && t.maria.user != "" && (t.maria.socket == "") != (t.maria.addr == ""))
            && t.globalTrack == GlobalOf(s) && |t.globalTrack| > 0
            && TrackListError(t.globalTrack, "global track list", valid).None?
  {
    EndpointRules(s.(storageDriver := DriverOf(s)));
  }

  /** Once a server and users are configured, an empty driver is taken as
      `disk`, and the settings keep it whatever the later checks say; a passing configuration keeps a
      named driver and a non-empty global list, and an empty global list
      becomes the default one. */
  lemma {:induction false} DefaultsFilled(s: Settings, valid: string -> bool)
    ensures s.serverUrl != "" && |s.users| > 0 && s.storageDriver == "" ==>
              Prechecks(s, valid).0.storageDriver == "disk"
    ensures Prechecks(s, valid).1.None? && s.storageDriver != "" ==> Prechecks(s, valid).0.storageDriver == s.storageDriver
    ensures Prechecks(s, valid).1.None? && |s.globalTrack| > 0 ==> Prechecks(s, valid).0.globalTrack == s.globalTrack
    ensures Prechecks(s, valid).1.None? && |s.globalTrack| == 0 ==> Prechecks(s, valid).0.globalTrack == DefaultTrack
  {
    if s.serverUrl != "" && |s.users| > 0 {
      var s1 := s.(storageDriver := DriverOf(s));
      EndpointRules(s1);
      assert s.storageDriver == "" ==> Supported(s1.storageDriver);
      var step := EndpointChecked(s1);
      assert step.0.storageDriver == s1.storageDriver;
      if Supported(s1.storageDriver) && step.1.None? {
        var e := TrackListError(GlobalOf(s), "global track list", valid);
        assert Prechecks(s, valid) == if e.Some? then (step.0, e) else (step.0.(globalTrack := GlobalOf(s)), None);
      }
    }
  }

  /** Validating settings that have passed changes nothing more and passes
      again. */
  lemma {:induction false} PrechecksIdempotent(s: Settings, valid: string -> bool)
    requires Prechecks(s, valid).1.None?
    ensures Prechecks(Prechecks(s, valid).0, valid) == (Prechecks(s, valid).0, None)
  {
    var t := Prechecks(s, valid).0;
    PrechecksEstablish(s, valid);
    assert DriverOf(t) == t.storageDriver && GlobalOf(t) == t.globalTrack;
    RedisRules(t.redis);
    MariaRules(t.maria);
    assert EndpointChecked(t) == (t, None);
  }

  // ---------------------------------------------------------------------
  // migrateLegacyIncludes, normalizeTracks

  /** A user after the legacy `include` list has been merged into `track`. */
  function Migrated(u: User): User
  {
    var track := if |u.legacyTrack| > 0 then u.track + u.legacyTrack else u.track;
    u.(track := track, legacyTrack := [])
  }

  /** Migration appends the legacy entries after the user's own, keeps the
      home, and leaves no legacy list behind. */
  lemma {:induction false} MigratedAppends(u: User)
    ensures Migrated(u) == User(u.home, u.track + u.legacyTrack, [])
  {
    if |u.legacyTrack| == 0 {
      assert u.track + u.legacyTrack == u.track;
    }
  }

  function MigratedUsers(m: map<string, User>): map<string, User>
  {
    map n | n in m :: Migrated(m[n])
  }

  function NormalizedUser(u: User): User
  {
    u.(track := Normalized(u.track))
  }

  function NormalizedUsers(m: map<string, User>): map<string, User>
  {
    map n | n in m :: NormalizedUser(m[n])
  }

  /** After loading, every user's list holds each pattern of its `track`
      and legacy `include` entries once, trimmed, and the legacy list is
      gone; the same users remain. */
  lemma {:induction false} LoadedTracks(m: map<string, User>, name: string)
    requires name in m
    ensures NormalizedUsers(MigratedUsers(m)).Keys == m.Keys
    ensures var u := NormalizedUsers(MigratedUsers(m))[name];
            var raw := m[name].track + m[name].legacyTrack;
            && u.home == m[name].home
            && u.legacyTrack == []
            && Distinct(u.track)
            && (forall p :: p in u.track ==> Clean(p))
            && (forall p :: p in u.track <==> p != "" && exists i :: 0 <= i < |raw| && TrimSpace(raw[i]) == p)
  {
    MigratedAppends(m[name]);
    NormalizedMembers(m[name].track + m[name].legacyTrack);
  }

  // ---------------------------------------------------------------------
  // the configuration object

  class Config {
    var serverUrl: string
    var storageDriver: string
    var globalTrack: seq<string>
    var legacyTrack: seq<string>
    var users: map<string, User>
    var redis: Redis
    var maria: Maria

    function State(): Settings
      reads this
    {
      Settings(serverUrl, storageDriver, globalTrack, legacyTrack, users, redis, maria)
    }

    constructor(s: Settings)
      ensures State() == s
    {
      serverUrl := s.serverUrl;
      storageDriver := s.storageDriver;
      globalTrack := s.globalTrack;
      legacyTrack := s.legacyTrack;
      users := s.users;
      redis := s.redis;
      maria := s.maria;
    }

    /** `UserNames`: every configured user once, in ascending order. */
    method UserNames() returns (names: seq<string>)
      ensures StrictlyAscending(names)
      ensures forall n :: n in names <==> n in users
    {
      var pending := users.Keys;
      names := [];
      while pending != {}
        invariant pending <= users.Keys
        invariant StrictlyAscending(names)
        invariant forall n :: n in names <==> n in users && n !in pending
        decreases |pending|
      {
        var n :| n in pending;
        InsertKeepsOrder(names, n);
        names := Insert(names, n);
        pending := pending - {n};
      }
    }

    /** `UsersList`: one entry per configured user, in no particular order,
        carrying its home and its effective track list. */
    method UsersList() returns (out: seq<UserSpec>)
      ensures |out| == |users|
      ensures forall i :: 0 <= i < |out| ==> out[i].name in users && out[i] == SpecOf(out[i].name)
      ensures forall i, j :: 0 <= i < j < |out| ==> out[i].name != out[j].name
      ensures forall n :: n in users ==> exists i :: 0 <= i < |out| && out[i].name == n
    {
      var pending := users.Keys;
      out := [];
      while pending != {}
        invariant pending <= users.Keys
        invariant |out| + |pending| == |users.Keys|
        invariant forall i :: 0 <= i < |out| ==> out[i].name in users && out[i].name !in pending && out[i] == SpecOf(out[i].name)
        invariant forall i, j :: 0 <= i < j < |out| ==> out[i].name != out[j].name
        invariant forall n :: n in users && n !in pending ==> exists i :: 0 <= i < |out| && out[i].name == n
        decreases |pending|
      {
        var n :| n in pending;
        ghost var before := out;
        out := out + [UserSpec(n, users[n].home, EffectiveTrack(users[n].track, globalTrack))];
        assert out[|before|].name == n;
        assert forall i :: 0 <= i < |before| ==> out[i] == before[i];
        pending := pending - {n};
      }
    }

    function SpecOf(name: string): UserSpec
      requires name in users
      reads this
    {
      UserSpec(name, users[name].home, EffectiveTrack(users[name].track, globalTrack))
    }

    /** `validateRedis`. */
    method ValidateRedis() returns (err: Option<Error>)
      modifies this
      ensures State() == old(State()).(redis := CheckedRedis(old(redis)).0)
      ensures err == CheckedRedis(old(redis)).1
    {
      if redis.socket == "" && redis.addr == "" {
        redis := redis.(addr := RedisDefaultAddr);
      }
      if redis.socket != "" && redis.addr != "" {
        return Some(RedisSocketAndAddr);
      }
      return None;
    }

    /** `validateMaria`. */
    method ValidateMaria() returns (err: Option<Error>)
      modifies this
      ensures State() == old(State()).(maria := CheckedMaria(old(maria)).0)
      ensures err == CheckedMaria(old(maria)).1
    {
      if maria.db == "" {
        return Some(MariaDbRequired);
      }
      if maria.user == "" {
        return Some(MariaUserRequired);
      }
      if maria.socket == "" && maria.addr == "" {
        maria := maria.(addr := MariaDefaultAddr);
      }
      if maria.socket != "" && maria.addr != "" {
        return Some(MariaSocketAndAddr);
      }
      return None;
    }

    /** `Validate`: the checks and defaults of `Prechecks`, then one pass
        over the users in map order, stopping at the first user that fails.
        Which failing user is reported depends on that order, so the
        contract says only that it is one of them. */
    method Validate(valid: string -> bool) returns (err: Option<Error>)
      modifies this
      ensures State() == Prechecks(old(State()), valid).0
      ensures Prechecks(old(State()), valid).1.Some? ==> err == Prechecks(old(State()), valid).1
      ensures Prechecks(old(State()), valid).1.None? ==>
                (err.None? <==> forall n :: n in users ==> UserError(n, users[n], globalTrack, valid).None?)
      ensures Prechecks(old(State()), valid).1.None? && err.Some? ==>
                exists n :: n in users && err == UserError(n, users[n], globalTrack, valid)
    {
      ghost var s0 := State();
      if serverUrl == "" {
        return Some(ServerUrlRequired);
      }
      if |users| == 0 {
        return Some(NoUsers);
      }
      if storageDriver == "" {
        storageDriver := "disk";
      }
      ghost var s1 := State();
      assert s1 == s0.(storageDriver := DriverOf(s0));
      if !Supported(storageDriver) {
        return Some(UnsupportedDriver(storageDriver));
      }
      if storageDriver == "redis" {
        err := ValidateRedis();
        if err.Some? {
          return;
        }
      }
      if StorageFactory.IsMaria(storageDriver) {
        err := ValidateMaria();
        if err.Some? {
          return;
        }
      }
      assert State() == EndpointChecked(s1).0 && EndpointChecked(s1).1.None?;
      var gt := globalTrack;
      if |gt| == 0 {
        gt := DefaultTrack;
      }
      assert gt == GlobalOf(s0);
      err := ValidateTrackList(gt, "global track list", valid);
      if err.Some? {
        return;
      }
      globalTrack := gt;
      assert State() == Prechecks(s0, valid).0 && Prechecks(s0, valid).1.None?;
      err := ValidateUsers(valid);
    }

    /** The pass over the users at the end of `Validate`. */
    method ValidateUsers(valid: string -> bool) returns (err: Option<Error>)
      ensures err.None? <==> forall n :: n in users ==> UserError(n, users[n], globalTrack, valid).None?
      ensures err.Some? ==> exists n :: n in users && err == UserError(n, users[n], globalTrack, valid)
    {
      var pending := users.Keys;
      while pending != {}
        invariant pending <= users.Keys
        invariant forall n :: n in users && n !in pending ==> UserError(n, users[n], globalTrack, valid).None?
        decreases |pending|
      {
        var name :| name in pending;
        var u := users[name];
        if u.home == "" {
          return Some(UserHomeRequired(name));
        }
        var list := EffectiveTrack(u.track, globalTrack);
        err := ValidateTrackList(list, "user " + name + " track list", valid);
        if err.Some? {
          return;
        }
        pending := pending - {name};
      }
      return None;
    }

    /** `migrateLegacyIncludes`: legacy `include` lists are appended to the
        track lists and cleared, globally and for every user. */
    method MigrateLegacyIncludes()
      modifies this
      ensures globalTrack == old(globalTrack) + old(legacyTrack) && legacyTrack == []
      ensures users == MigratedUsers(old(users))
      ensures serverUrl == old(serverUrl) && storageDriver == old(storageDriver)
      ensures redis == old(redis) && maria == old(maria)
    {
      if |legacyTrack| > 0 {
        globalTrack := globalTrack + legacyTrack;
      } else {
        assert globalTrack + legacyTrack == globalTrack;
      }
      legacyTrack := [];
      var m := users;
      var pending := m.Keys;
      while pending != {}
        invariant pending <= m.Keys && m.Keys == users.Keys
        invariant forall n :: n in m ==> m[n] == if n in pending then users[n] else Migrated(users[n])
        decreases |pending|
      {
        var name :| name in pending;
        m := m[name := Migrated(m[name])];
        pending := pending - {name};
      }
      assert m == MigratedUsers(users);
      users := m;
    }

    /** `normalizeTracks`: the global list and every user's list normalised. */
    method NormalizeTracks()
      modifies this
      ensures State() == old(State()).(globalTrack := Normalized(old(globalTrack)),
                                       users := NormalizedUsers(old(users)))
    {
      globalTrack := NormalizeTrackList(globalTrack);
      var m := users;
      var pending := m.Keys;
      while pending != {}
        invariant pending <= m.Keys && m.Keys == users.Keys
        invariant forall n :: n in m ==> m[n] == if n in pending then users[n] else NormalizedUser(users[n])
        invariant State() == old(State()).(globalTrack := Normalized(old(globalTrack)))
        decreases |pending|
      {
        var name :| name in pending;
        var u := m[name];
        var t := NormalizeTrackList(u.track);
        m := m[name := u.(track := t)];
        pending := pending - {name};
      }
      users := m;
    }
  }

  // ---------------------------------------------------------------------
  // sorting the user names

  predicate StrictlyAscending(xs: seq<string>)
  {
    forall i, j :: 0 <= i < j < |xs| ==> Less(xs[i], xs[j])
  }

  /** `k` placed into an ascending list before the first larger entry. */
  function Insert(xs: seq<string>, k: string): seq<string>
  {
    if xs == [] then [k]
    else if Less(k, xs[0]) then [k] + xs
    else [xs[0]] + Insert(xs[1..], k)
  }

  /** Inserting a new name keeps the list ascending and adds exactly that
      name. */
  lemma {:induction false} InsertKeepsOrder(xs: seq<string>, k: string)
    requires StrictlyAscending(xs) && k !in xs
    ensures StrictlyAscending(Insert(xs, k))
    ensures forall y :: y in Insert(xs, k) <==> y in xs || y == k
  {
    if xs == [] {
    } else if Less(k, xs[0]) {
      var r := [k] + xs;
      forall i, j | 0 <= i < j < |r|
        ensures Less(r[i], r[j])
      {
        if i == 0 && j > 1 {
          LessTransitive(k, xs[0], xs[j - 1]);
        }
      }
    } else {
      LessTotal(k, xs[0]);
      var tail := xs[1..];
      assert forall y :: y in tail ==> y in xs;
      InsertKeepsOrder(tail, k);
      var r := [xs[0]] + Insert(tail, k);
      forall i, j | 0 <= i < j < |r|
        ensures Less(r[i], r[j])
      {
        if i == 0 {
          assert r[j] in Insert(tail, k);
          if r[j] != k {
            var m :| 0 <= m < |tail| && tail[m] == r[j];
            assert xs[m + 1] == r[j];
          }
        }
      }
    }
  }
}
