/** `NewBackend`: the storage driver named in the configuration picks one
    backend variant. */
module StorageFactory {
  import opened Errors

  /** The backend a configuration resolves to, with the root directory a
      disk-backed or in-memory variant is given. */
  datatype Selected =
    | DiskStore(root: string)
    | ChunkedRedis
    | MemRedis(root: string)
    | MariaScaffold(root: string)
    | RealMaria

  predicate IsMaria(driver: string)
  {
    driver == "maria" || driver == "mariadb" || driver == "mysql"
  }

  predicate Known(driver: string)
  {
    driver == "" || driver == "disk" || driver == "redis" || driver == "redis-mem" || IsMaria(driver)
  }

  /** The driver switch; `root` is the data directory. */
  function Select(driver: string, mariaDb: string, mariaUser: string, root: string): (r: Result<Selected>)
    ensures r.Err? <==> !Known(driver)
    ensures r.Err? ==> r.error == UnknownDriver(driver) && Text(r.error) == "unknown storage driver: " + driver
    ensures r.Ok? && r.value.DiskStore? <==> driver == "" || driver == "disk"
    ensures r.Ok? && r.value.ChunkedRedis? <==> driver == "redis"
    ensures r.Ok? && r.value.MemRedis? <==> driver == "redis-mem"
    ensures r.Ok? && r.value.MariaScaffold? <==> IsMaria(driver) && (mariaDb == "" || mariaUser == "")
    ensures r.Ok? && r.value.RealMaria? <==> IsMaria(driver) && mariaDb != "" && mariaUser != ""
  {
    if driver == "" || driver == "disk" then Ok(DiskStore(root))
    else if driver == "redis" then Ok(ChunkedRedis)
    else if driver == "redis-mem" then Ok(MemRedis(if root == "" then "redis" else root))
    else if IsMaria(driver) then
      if mariaDb == "" || mariaUser == "" then Ok(MariaScaffold(root + "/maria")) else Ok(RealMaria)
    else Err(UnknownDriver(driver))
  }

  /** The disk `Store` is the only variant whose construction can be refused
      for an empty root: the scaffold's root gains `/maria` and the
      in-memory backend falls back to `redis`. */
  lemma {:induction false} RootsNamed(driver: string, mariaDb: string, mariaUser: string, root: string)
    requires Select(driver, mariaDb, mariaUser, root).Ok?
    ensures var s := Select(driver, mariaDb, mariaUser, root).value;
            && (s.MariaScaffold? ==> s.root == root + "/maria" && s.root != "")
            && (s.MemRedis? ==> s.root != "" && (root != "" ==> s.root == root))
            && (s.DiskStore? ==> s.root == root)
  {
  }

  /** What is selected depends on the driver, the Maria database and user,
      and the root only; and the Maria fields matter only for a Maria
      driver. */
  lemma {:induction false} MariaFieldsOnlyForMaria(driver: string, db1: string, user1: string, db2: string, user2: string, root: string)
    requires !IsMaria(driver)
    ensures Select(driver, db1, user1, root) == Select(driver, db2, user2, root)
  {
  }
}
