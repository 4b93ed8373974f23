# dman in Dafny

dman keeps a set of tracked files (dotfiles and other configuration) of
named users in step between client machines and a central server. A client
scans each user's home directory for the files its track patterns select
and hashes them into an inventory. The comparator sets the client's
inventory against the server's and derives Add, Modify and Delete changes.
Files travel as tar archives: a publish sends Adds and Modifies to the
server, and an install brings Deletes and Modifies from the server back to
the client. The server keeps the blobs in one of several storage backends:
a directory tree on disk, an in-memory map, a chunked Redis key space or a
MariaDB table. It also keeps operational metadata, namely the last publish
and install times and request counters, and reports per-user totals.

This project models that decision and bookkeeping code and proves what it
promises. One Dafny module stands for each part of the program:

- `Diff`: the comparator and the `include_same` augmentation.
- `Sanitize`: the five copies of the path rules.
- `DiskStore` and `DiskRoundTrip`: the disk `Store` with backup and restore.
- `RedisMem`: the in-memory backend.
- `Chunking`, `Retry`, `RedisChunked` and `ChunkedRoundTrip`: the chunked
  Redis backend.
- `MariaDb`: the MariaDB backend.
- `LegacyStore`: the server's legacy store.
- `StorageFactory`: the choice of backend.
- `Handlers`, `ServerTar`, `OpsMeta` and `Status`: the HTTP handlers' logic,
  the install archive, the metadata and the status report.
- `ClientTar` and `ClientPrune`: the client's archive code and prune
  request.
- `Scanner` and `Patterns`: the scanner.
- `Config` and `Lint`: configuration handling and the lint report.
- `Auth`: the bearer-token check.
- `InitPath`: the `init` command's home normalisation.

Shared helpers live in `Wrappers`, `Strings`, `Paths`, `FileTree`, `Errors`,
`Model` and `Picking`.

Modelling choices:

- **Paths are Unix paths.** `filepath.ToSlash` is the identity and the
  separator is `/`. A cleaned absolute path is a sequence of segments
  (`Paths`). `filepath.Join` and `filepath.Clean` resolve `.` and `..`
  segment by segment. Path lengths are counted in UTF-8 bytes, as Go's
  `len` does.
- **The filesystem is a map from paths to file or directory nodes**
  (`FileTree`). `os.MkdirAll`, `os.Create`, `os.Open` and `os.Remove` are
  functions on that map. Writing through a temporary file and renaming it
  over the target is one atomic update. A failed copy is a reader that
  fails after the bytes it delivered: `io.Copy` into a file leaves those
  bytes there, and an archive entry whose body is cut short carries its
  delivered bytes and the read error.
- **Objects whose fields the Go code updates in place are classes.** These
  are the disk store, the Redis and MariaDB backends, the legacy store, the
  metadata and the configuration. Their methods have loops stated against
  specification functions, and lemmas are proved about those functions.
- **Go map iteration order is a free choice.** Where it shows in a result
  (`Validate`, `UsersList`, the `include_same` loop, the status users), the
  contract holds for every order.
- **External behaviour becomes parameters of the model.** This covers
  readers, tar streams, each remote call's outcome together with whether
  the context has expired, the JSON decoder of the Redis manifest, SHA-256,
  glob expansion and matching, and the clock's timestamps. Each property is
  proved for every value of these parameters.
- **Repeated code is modelled once.** `internal/cli/tarutil.go` repeats the
  loops of `internal/transfer/tarutil.go` line for line, so `ClientTar`
  models both and its rows below cite the `transfer` copy. The lint
  command's `splitTrack` is likewise the scanner's `splitPatterns`.
Behaviours worth knowing, each proved:

- The comparator's `user::path` key lets distinct pairs collide
  (`Diff.KeyCollision`).
- A path containing `:chunk:` is stored under a key that the chunked
  backend's listing hides, and that can overwrite another blob's chunk
  (`ChunkedRoundTrip.PathAliasesChunk`).
- The MariaDB listing can report rows twice after a failed attempt
  (`MariaDb.ListDuplicates`).
- The MariaDB table's primary key, `PRIMARY KEY(user(64), rel(255))`,
  indexes only the first 64 characters of the user and the first 255 of
  the path. `REPLACE INTO` therefore replaces the row of another path
  sharing those 255 characters, and opening that path then fails with
  `sql.ErrNoRows` (`MariaDb.SamePrefixReplaced`,
  `MariaDb.LongPathsShareKey`).
- A chunked save deletes the old chunks before writing the new ones
  (internal/storage/redis_real.go:138) and writes the manifest last. A
  save that fails after the deletion therefore leaves the old manifest
  naming missing chunks (`ChunkedRoundTrip.FailedSaveLosesOld`).
- The prune handler counts attempted deletes, not successful ones
  (`Handlers.Prune`).
- `Restore` sanitises each whole entry name, so a backup holding a name
  with `..`, such as `u/a..b`, cannot be restored
  (`DiskRoundTrip.RestoreRefusesDots`). The backup/restore round trip
  (`DiskRoundTrip.RestoreOfBackup`) therefore holds for names without `..`
  and within 4096 bytes.

## Model

| member | source | states |
|---|---|---|
| Diff.Index | internal/diff/diff.go:14-21 | the map the comparator fills holds every item under its own `user::path` key |
| Diff.IndexKeys | internal/diff/diff.go:14-21 | a key is in the map exactly when some item of the inventory has that key |
| Diff.IndexFrom | internal/diff/diff.go:14-21 | every value in the map is one of the inventory's items |
| Diff.IndexLastWins | internal/diff/diff.go:15-17 | when a key repeats within one inventory, the map holds the last item with that key |
| Diff.BuildIndex | internal/diff/diff.go:14-17 | the filling loop builds exactly that map |
| Diff.ClientPass | internal/diff/diff.go:22-30 | the client pass emits, once each, exactly the Add of every key only the client has and the Modify of every key both have with different hashes, carrying the client's user and path |
| Diff.ServerPass | internal/diff/diff.go:31-36 | appending a Delete for every server key the client lacks completes the change set: each key's expected change once, nothing else |
| Diff.Compare | internal/diff/diff.go:13-38 | `Compare` returns a duplicate-free list holding exactly the expected change of every key of the two inventories, in some order |
| Diff.ExactlyOnePerKey | internal/diff/diff.go:24-35 | a key that calls for a change carries exactly one change of the result; any other key carries none |
| Diff.CompareKinds | internal/diff/diff.go:24-35 | a change is never Same; it is an Add exactly when only the client has its key, a Modify exactly when both have it with different hashes, a Delete exactly when only the server has it |
| Diff.KeyCollision | internal/diff/diff.go:40 | the string key lets two different (user, path) pairs collide, and then neither the Add nor the Delete is reported |
| Diff.KeyInjective | internal/diff/diff.go:40 | for users without `:` the key determines the user and the path |
| Diff.PairHashIsIndexed | internal/diff/diff_property_test.go:26-37 | with such users, the hash the property test looks up for a pair is the hash the comparator's map holds for its key |
| Diff.ModifyDiffersPerPair | internal/diff/diff_property_test.go:26-40 | every Modify has differing client and server hashes for its (user, path), as the property test checks, provided no user contains `:` |
| Diff.ModifyWithCollidingUser | internal/diff/diff_property_test.go:26-40 | without that proviso the property fails: a concrete pair of colliding inventories yields a Modify whose per-pair hashes are equal |
| Diff.SameExcludesChange | internal/server/handlers.go:45-48 | a key gets a Same exactly when both sides hold it and it calls for no other change |
| Diff.SamePass | internal/server/handlers.go:45-49 | the augmentation loop emits, once each, exactly one Same for every key both sides hold with equal hashes |
| Diff.AppendSame | internal/server/handlers.go:36-50 | `include_same` keeps the computed changes as a prefix and appends exactly those Same changes |
| Sanitize.CleanRel | internal/storage/store.go:33-49 | an accepted path is non-empty, at most 4096 bytes, not absolute, free of `..`, and is the input with at most one leading `./` removed |
| Sanitize.CleanRelErrors | internal/storage/store.go:35-48 | each rejection happens exactly when its test is the first to fail, in the order empty, too long, absolute, traversal; acceptance exactly when all pass |
| Sanitize.AcceptedStaysBelow | internal/storage/store.go:42-48 | joining an accepted path to a directory never climbs above that directory |
| Sanitize.Refused | internal/storage/store.go:43-48 | for a short path without a leading `./`, the sanitiser refuses it as absolute when it starts with `/`, refuses it as traversal when it contains `..`, and otherwise accepts it unchanged |
| Sanitize.DotsInName | internal/storage/store.go:45-47 | the traversal test is on the text: a name like `a..b` is refused |
| Sanitize.ParentRefused | internal/storage/store_traversal_test.go:13-15 | `../evil.txt` is refused as traversal |
| Sanitize.AbsoluteRefused | internal/storage/store_traversal_test.go:16-18 | `/abs.txt` is refused as absolute |
| Sanitize.DotSlashStripped | internal/storage/store_traversal_test.go:19-21 | `./ok.txt` is accepted as `ok.txt` |
| Sanitize.NotIdempotent | internal/storage/store.go:35 | only one `./` is stripped, so `././a` cleans to `./a` and cleaning that again gives `a` |
| Sanitize.LengthLimit | internal/storage/store.go:39-41 | the limit counts bytes: an ASCII path is too long exactly when it has more than 4096 characters |
| Sanitize.KvKey | internal/storage/redis_real.go:77-95 | the key-value key is `user + "/" + cleaned path`; an empty user is refused first, then the path rules apply with their own errors |
| Sanitize.KvKeySplits | internal/storage/redis.go:29-47 | a key splits back into its user and cleaned path at the first `/` when the user has no `/` |
| Sanitize.RowKey | internal/storage/mariadb_real.go:125-143 | the SQL backend applies the same checks and returns the user and the cleaned path unchanged as a pair |
| Sanitize.LegacyClean | internal/server/store.go:15-28 | the legacy store accepts a non-empty, non-absolute path without `..`, with one leading `./` removed |
| Sanitize.LegacyCleanVersusCleanRel | internal/server/store.go:15-28 | the legacy rules accept exactly what the shared rules accept plus the paths refused only for length, with the same result |
| DiskStore.RootPath | internal/storage/store.go:22-29 | the configured root names a cleaned absolute path, a relative root being taken from the working directory |
| DiskStore.BlobPath | internal/storage/store.go:61 | `filepath.Join(root, user, rel)` is a cleaned absolute path |
| DiskStore.BlobDir | internal/storage/store.go:57 | `filepath.Join(root, user, filepath.Dir(rel))` is a cleaned absolute path |
| DiskStore.BlobPlacement | internal/storage/store.go:57-61 | the target is its directory plus the path's last segment, or, for a path ending in `/` or `/.`, the directory itself |
| DiskStore.SaveEffect | internal/storage/store.go:52-83 | `Save` (sanitise, `MkdirAll`, copy to a temporary file, rename) leaves a well-formed tree |
| DiskStore.SaveFiles | internal/storage/store.go:52-83 | on success exactly the target file holds the new bytes; on any failure, a failed copy included, no file changes; a refused path changes nothing and returns the sanitiser's error; a failed reader always fails the save |
| DiskStore.SaveSucceeds | internal/storage/store.go:52-83 | a save succeeds exactly when the path is accepted, no ancestor of its directory is a file, the reader ends cleanly, and the target is a file name that is not an existing directory |
| DiskStore.PlacedSaveSucceeds | internal/storage/store.go:57-81 | the directory creation and the rename succeed exactly when no ancestor is a file, the copy succeeds and the target is a file name that is not a directory |
| DiskStore.OpenEffect | internal/storage/store.go:86-93 | `Open` returns the sanitiser's error for a refused path, otherwise the node `root/user/rel` names |
| DiskStore.SaveOpen | internal/storage/store.go:52-93 | after a successful save, opening the same user and path gives the saved bytes |
| DiskStore.DeleteEffect | internal/storage/store.go:187-194 | `Delete` leaves a well-formed tree |
| DiskStore.DeleteOnly | internal/storage/store.go:187-194 | a successful delete removes only that entry; a failed one changes nothing; deleting a missing file is an error; deleting an existing file succeeds and removes just that file |
| DiskStore.NameInjective | internal/storage/store.go:105-109 | two different listed files never get the same reported name |
| DiskStore.MetaNeverListed | internal/storage/store.go:106-108 | the root-level `_meta.json` is never among the listed names |
| DiskStore.Names | internal/storage/store.go:105-109 | each visited file is reported by its name relative to the root, in visiting order |
| DiskStore.EnumeratedNames | internal/storage/store.go:96-113 | the names of a walk are exactly the listed names, and no name is reported twice |
| DiskStore.Entries | internal/storage/store.go:123-146 | `Backup` writes, for each listed file in order, one regular-file entry with its reported name and its contents |
| DiskStore.ListedAreFiles | internal/storage/store.go:102-104 | the walk reports only files, all at or below the root |
| DiskStore.NameLeadsBack | internal/storage/store.go:124 | joining a reported name to the root gives back that very file |
| DiskStore.EnumeratedReadable | internal/storage/store.go:123-128 | every name `List` reports can be read back as the file it came from |
| DiskStore.RestoreOne | internal/storage/store.go:164-180 | restoring one regular entry (sanitise the whole name, `MkdirAll` of its directory, create, copy the body) leaves a well-formed tree and reports the body's read error when the archive ends inside it |
| DiskStore.RestoreOneFiles | internal/storage/store.go:164-180 | a refused name changes nothing; a file that can be created holds the bytes the body delivered, even when the body was cut short, and the body's read error is returned; any other failure changes no file |
| DiskStore.RestoreEffect | internal/storage/store.go:151-184 | `Restore` skips directory entries, stops at the first failure, including a body cut short, and succeeds at a clean end of the archive, leaving a well-formed tree |
| DiskStore.Store.constructor | internal/storage/store.go:19 | a store over a root and a filesystem |
| DiskStore.Store.Save | internal/storage/store.go:52-83 | the step-by-step save leaves exactly the state and error `SaveEffect` describes |
| DiskStore.Store.Open | internal/storage/store.go:86-93 | returns exactly `OpenEffect` of the current tree |
| DiskStore.Store.Delete | internal/storage/store.go:187-194 | leaves exactly the state and error `DeleteEffect` describes |
| DiskStore.Store.List | internal/storage/store.go:96-113 | fails with not-exist exactly when the root is missing; otherwise reports every visited file once, by its relative name, in some walk order |
| DiskStore.Store.Backup | internal/storage/store.go:116-148 | fails exactly when `List` fails; otherwise the archive is one entry per listed file, in listing order, with its contents |
| DiskStore.Store.ReadAll | internal/storage/store.go:123-146 | the loop of `Backup` produces exactly the entries of the listed files |
| DiskStore.Store.ReadEntry | internal/storage/store.go:124-145 | one file's entry carries its reported name and the contents of the file that name leads back to |
| DiskStore.Store.RestoreEntry | internal/storage/store.go:164-180 | one regular entry leaves exactly the state and error `RestoreOne` describes |
| DiskStore.Store.Restore | internal/storage/store.go:151-184 | leaves exactly the state and error `RestoreEffect` describes for the archive's entries and its end |
| DiskStore.New | internal/storage/store.go:22-30 | an empty root is refused; otherwise the root and its ancestors are created, failing exactly when that fails, and the store is over that root |
| DiskStore.PlainBlobPath | internal/storage/store.go:57-61 | for a plain user name and path, the blob lies at `root/user/path` and is reported as `user/path` |
| DiskStore.FileIsListed | internal/storage/store.go:98-110 | every file strictly below the root other than the metadata file is listed |
| DiskStore.SavedIsListed | internal/storage/store_traversal_test.go:19-35 | after saving a plain path for a plain user, `List` reports `user/path`, as the test checks for `./ok.txt` and `u/ok.txt` |
| DiskRoundTrip.NameClean | internal/storage/store.go:164-167 | a name `Backup` writes passes `Restore`'s sanitiser unchanged when it has no `..` and is at most 4096 bytes |
| DiskRoundTrip.MkdirStepOk | internal/storage/store.go:168-171 | while restoring into a tree whose part below the root is part of the backed-up tree, creating a listed file's directory cannot fail |
| DiskRoundTrip.RestoreStep | internal/storage/store.go:164-180 | restoring one more backed-up entry succeeds and adds exactly that file below the root |
| DiskRoundTrip.RestoreRun | internal/storage/store.go:151-184 | restoring the entries of a run of listed files succeeds and adds exactly those files with their contents |
| DiskRoundTrip.CoverMap | internal/storage/store.go:96-113 | the files a `List` walk covers are all files below the root except the root-level `_meta.json` |
| DiskRoundTrip.RestoreOfBackup | internal/storage/store_test.go:24-76 | `Restore(Backup())` into a store with nothing below its root succeeds and reproduces every file below the original root except `_meta.json`, with its contents, provided no name holds `..` or exceeds 4096 bytes |
| DiskRoundTrip.RestoreSkipsDirs | internal/storage/store.go:161-163 | a directory entry of the archive is skipped |
| DiskRoundTrip.RestoreRefusesDots | internal/storage/store.go:164-167 | the whole entry name is sanitised, so an entry `u/a..b` stops the restore with a traversal error and nothing changed |
| DiskRoundTrip.RestoreKeepsPartial | internal/storage/store.go:172-179 | an archive cut short inside a body stops the restore with the read error, leaving that file holding the bytes that arrived and never reaching later entries |
| DiskRoundTrip.DottedNameRefused | internal/storage/store.go:45-47 | the name `u/a..b` is refused as traversal |
| LegacyStore.PathOf | internal/server/store.go:30-36 | `path` fails exactly when `clean` fails, with its error, and otherwise names `root/user/clean(rel)` |
| LegacyStore.StaysInUserDir | internal/server/store.go:21-35 | an accepted path lies inside the user's directory `root/<user>` |
| LegacyStore.SaveEffect | internal/server/store.go:38-53 | `Save` sanitises, creates `filepath.Dir` of the joined path, creates (truncating) the file and copies the reader in, leaving a well-formed tree |
| LegacyStore.SaveTruncates | internal/server/store.go:44-52 | when the file can be created (not `/`, no ancestor a file, not a directory) it ends holding exactly what the reader delivered, the old content gone, and the save returns the reader's error; otherwise the save fails with no file changed |
| LegacyStore.SaveSucceeds | internal/server/store.go:38-53 | a save succeeds exactly when the path is accepted, the file can be created and the reader ends cleanly; a refused path is returned with nothing changed |
| LegacyStore.TrailingSlashSaved | internal/server/store.go:44-52 | a name ending in `/` names the file before it: `x/` under a fresh root is saved as the file `u/x` |
| LegacyStore.OpenEffect | internal/server/store.go:55-61 | `Open` returns `path`'s error, otherwise the node at that path |
| LegacyStore.SaveOpen | internal/server/store.go:38-61 | after a successful save, opening the same user and path gives the saved bytes |
| LegacyStore.NoLengthLimit | internal/server/store.go:15-28 | a path refused as too long by the other stores is accepted unchanged here |
| LegacyStore.Store.constructor | internal/server/store.go:13 | `NewStore` creates the root directory when it can and ignores a failure |
| LegacyStore.Store.Save | internal/server/store.go:38-53 | leaves exactly the state and error `SaveEffect` describes |
| LegacyStore.Store.Open | internal/server/store.go:55-61 | returns exactly `OpenEffect` of the current tree |
| LegacyStore.Store.Inventory | internal/server/store.go:63-73 | reports every non-directory path the walk visits, each once, and nothing else; walk errors are skipped |
| LegacyStore.WalkedAreFiles | internal/server/store.go:66-68 | directories never appear in the inventory |
| LegacyStore.Below | internal/server/store.go:30-36 | under a plain user name the file lies strictly below the root |
| LegacyStore.SavedInInventory | internal/server/store.go:38-73 | a file saved under a plain user name appears in the inventory afterwards |
| RedisMem.Put | internal/storage/redis.go:49-62 | `Save` succeeds exactly when the key is accepted and the reader ends cleanly, and then replaces only `data[key]`; a failure leaves the map unchanged and returns the sanitiser's or the reader's error |
| RedisMem.Get | internal/storage/redis.go:64-74 | `Open` serves the stored bytes exactly when the key is accepted and present; a refused key gives the sanitiser's error and a missing one not-exist |
| RedisMem.Drop | internal/storage/redis.go:100-109 | `Delete` succeeds exactly when the key is accepted, removing just that key whether or not it was there; a refusal leaves the map unchanged |
| RedisMem.Backend.constructor | internal/storage/redis.go:22-27 | a new backend has an empty map and the root `redis` when none is given |
| RedisMem.Backend.Save | internal/storage/redis.go:49-62 | leaves exactly the map and error `Put` describes |
| RedisMem.Backend.Open | internal/storage/redis.go:64-88 | returns exactly `Get` of the current map |
| RedisMem.Backend.List | internal/storage/redis.go:90-98 | reports every stored key exactly once and nothing else |
| RedisMem.Backend.Delete | internal/storage/redis.go:100-109 | leaves exactly the map and error `Drop` describes |
| RedisMem.SaveOpen | internal/storage/backend_scaffold_test.go:16-30 | `Save` then `Open` gives back the bytes read, whatever was stored before |
| RedisMem.SaveKeepsOthers | internal/storage/redis.go:58-60 | `Save` leaves every other key's `Open` unchanged |
| RedisMem.DeleteThenOpen | internal/storage/redis.go:100-109 | `Delete` succeeds whether or not the key is there, and `Open` then reports it missing |
| RedisMem.SaveThenDelete | internal/storage/redis.go:49-109 | deleting a newly saved key gives back the earlier map |
| RedisMem.FileTxtClean | internal/storage/backend_scaffold_test.go:16-30 | the scaffold test's path `file.txt` is accepted unchanged |
| RedisMem.ScaffoldKey | internal/storage/backend_scaffold_test.go:31-34 | the scaffold test's save is stored under `user1/file.txt` |
| RedisMem.SaveListDelete | internal/storage/backend_scaffold_test.go:31-41 | after one save into a new backend its keys are exactly that key, and after deleting it the map is empty |
| Chunking.ReadFull | internal/storage/redis_real.go:151-166 | `io.ReadFull` fills the whole buffer without error even at the very end; a short read is `io.EOF` when nothing was read and `io.ErrUnexpectedEOF` otherwise; a reader error ends a short read with that error; the bytes returned are what was read |
| Chunking.SplitShape | internal/storage/redis_real.go:148-174 | a blob is cut into ceil(n/262144) chunks, every one but the last exactly 262144 bytes, none empty, none for empty input, and the chunks put back together are the blob |
| Chunking.PiecesSplit | internal/storage/redis_real.go:148-174 | with a reader that ends cleanly the save loop writes exactly those chunks of what is left |
| Chunking.PiecesFailure | internal/storage/redis_real.go:164-166 | a reader that fails gets its full chunks written but never its short tail, and the save returns the reader's error |
| Chunking.ChunkKey | internal/storage/redis_real.go:126-128 | `chunkKey` extends its base key |
| Chunking.ChunkKeyFacts | internal/storage/redis_real.go:126-128 | chunk keys differ from their base and from each other, and all contain `:chunk:` |
| Chunking.ManifestText | internal/storage/redis_real.go:175 | the manifest is `{"chunks":N,"v":1}` and so begins with `{` |
| Chunking.DecBytesText | internal/storage/redis_real.go:175 | the count is written in decimal |
| Chunking.Latin | internal/storage/redis_real.go:140 | reading bytes as characters keeps each byte's value |
| Chunking.CanonicalDecodes | internal/storage/redis_real.go:141-142 | a decoder that reads back the encoder's output exists |
| Retry.Backoff | internal/storage/redis_real.go:110-121 | no wait is shorter than the first, 50 ms |
| Retry.FromEnding | internal/storage/redis_real.go:108-124 | `retry` makes at most three calls; every call but the last failed with the context still live; it succeeds exactly when the last call succeeded, is cancelled exactly when that call failed and the context expired during the wait, and is exhausted exactly after three quiet failures, keeping the last error |
| Retry.FirstSuccessStops | internal/storage/redis_real.go:112-115 | the first successful attempt ends the loop, with no further call |
| Retry.Run | internal/storage/redis_real.go:108-124 | the loop ends as `From` says and waits, after the `j`-th failure, a backoff of 50 ms doubled `j` times; a success needs no wait after it |
| Retry.RedisResult | internal/storage/redis_real.go:117-123 | the chunked backend returns nil on success, the context's error when it expired, and the last error wrapped with the operation's name when the budget is spent |
| Retry.MariaResult | internal/storage/mariadb_real.go:28-44 | the SQL backend returns nil on success, the context's error when it expired, and the last error unwrapped when the budget is spent |
| Retry.Reliable | internal/storage/redis_real.go:112-115 | a remote that never fails is called once |
| RedisChunked.OldChunks | internal/storage/redis_real.go:139-147 | old chunks are counted only for a stored value that begins with `{`, decodes as a manifest and names a positive count, which is then the count |
| RedisChunked.DropOld | internal/storage/redis_real.go:139-147 | the best-effort delete removes exactly the old manifest's chunk keys |
| RedisChunked.SaveEffect | internal/storage/redis_real.go:131-135 | a refused key fails the save before any remote call, leaving the key space unchanged |
| RedisChunked.Gather | internal/storage/redis_real.go:209-220 | reassembly succeeds exactly when every chunk from 0 to N-1 is present; a missing one fails with `redis.Nil` |
| RedisChunked.OpenEffect | internal/storage/redis_real.go:183-193 | a refused key gives the sanitiser's error and a missing base key `redis.Nil` |
| RedisChunked.DeleteEffect | internal/storage/redis_real.go:255-272 | a refused key leaves the key space unchanged and returns the error; an accepted one never fails |
| RedisChunked.PiecesFull | internal/storage/redis_real.go:167-173 | a full 256 KiB read is one chunk, and the loop goes on after it |
| RedisChunked.PiecesShort | internal/storage/redis_real.go:151-166 | a short read ends the loop: with the reader's error, with nothing, or with the short tail as the last chunk |
| RedisChunked.TailCons | internal/storage/redis_real.go:157-159 | a chunk is written when its retried SET succeeds; otherwise the save ends with the wrapped retry error |
| RedisChunked.TailNil | internal/storage/redis_real.go:164-178 | after the last chunk a read error is returned; otherwise the manifest is written |
| RedisChunked.Backend.DropChunks | internal/storage/redis_real.go:143-145 | the deletion loop removes chunk keys 0 to N-1 and nothing else |
| RedisChunked.Backend.Save | internal/storage/redis_real.go:131-180 | the method leaves the key space and returns the error that `SaveEffect` gives |
| RedisChunked.Backend.Open | internal/storage/redis_real.go:183-227 | the method serves what `OpenEffect` gives: the legacy value, or the chunks concatenated in order |
| RedisChunked.Backend.List | internal/storage/redis_real.go:230-252 | a key is listed exactly when it is stored and does not contain `:chunk:` |
| RedisChunked.Backend.Delete | internal/storage/redis_real.go:255-272 | the method leaves the key space that `DeleteEffect` gives |
| ChunkedRoundTrip.WriteAllSucceeds | internal/storage/redis_real.go:148-174 | when every SET succeeds, the chunk writes put chunk `idx + j` at its key and return no error |
| ChunkedRoundTrip.PutChunksOther | internal/storage/redis_real.go:148-174 | writing chunks leaves every key outside their range as it was |
| ChunkedRoundTrip.PutChunksAt | internal/storage/redis_real.go:156-157 | chunk `j` of the written ones is stored at its chunk key |
| ChunkedRoundTrip.PutChunksKeys | internal/storage/redis_real.go:148-174 | the keys after writing are the old keys plus exactly the chunk range |
| ChunkedRoundTrip.GatherAll | internal/storage/redis_real.go:209-220 | reading chunks 0 to n-1 gives them concatenated in order |
| ChunkedRoundTrip.SaveSucceeds | internal/storage/redis_real.go:131-180 | on a working connection with a reader that ends cleanly, a save drops the old chunks, writes the split of the input at chunks 0 to N-1 and the manifest with N at the base key, and returns nil |
| ChunkedRoundTrip.SaveLayout | internal/storage/redis_real.go:148-178 | the save writes ceil(n/262144) chunks, all full but the last, none empty, with the manifest at the base key, and leaves every key outside the old and new ranges untouched |
| ChunkedRoundTrip.SaveOpen | internal/storage/redis_real.go:131-227 | `Open` after a successful `Save` gives back exactly the bytes read, whatever was stored before, given a JSON decoder that reads back the encoder's output |
| ChunkedRoundTrip.WriteAllKeepsBase | internal/storage/redis_real.go:156-157 | no chunk write touches the base key |
| ChunkedRoundTrip.DropOldKeepsBase | internal/storage/redis_real.go:143-145 | deleting the old chunks leaves the base key as it was |
| ChunkedRoundTrip.FailedSaveKeepsBase | internal/storage/redis_real.go:175-178 | the manifest is written last, so a failed save leaves the base key as it was |
| ChunkedRoundTrip.ReaderFailure | internal/storage/redis_real.go:164-166 | a reader's error is the error the save returns |
| ChunkedRoundTrip.FailedSaveLosesOld | internal/storage/redis_real.go:139-159 | the old chunks are deleted before any new chunk is written, so a save whose first chunk write fails leaves the old manifest pointing at missing chunks, and the blob no longer opens |
| ChunkedRoundTrip.OpenLegacy | internal/storage/redis_real.go:194-207 | a value that is not a manifest opens unchanged; a `{` value that decodes with zero chunks opens as empty |
| ChunkedRoundTrip.DeleteRemoves | internal/storage/redis_real.go:255-272 | `Delete` removes the base key and the old chunks and no other key, after which `Open` fails with `redis.Nil` |
| ChunkedRoundTrip.ListAfterSave | internal/storage/redis_real.go:230-252 | after a successful save, a listing shows what it showed before plus the saved key |
| ChunkedRoundTrip.ChunkLikePathHidden | internal/storage/redis_real.go:240-245 | a path containing `:chunk:` is stored under a key the listing filters out |
| ChunkedRoundTrip.PathAliasesChunk | internal/storage/redis_real.go:126-128 | the key of the path `rel:chunk:i` is the key of chunk `i` of `rel`, so one can overwrite the other |
| MariaDb.Lookup | internal/storage/mariadb_real.go:170-173 | the row lookup is cancelled exactly when the network script is |
| MariaDb.Names | internal/storage/mariadb_real.go:207 | one name per row |
| MariaDb.NamesAt | internal/storage/mariadb_real.go:207 | each name is `user + "/" + rel` of its row, in row order |
| MariaDb.ListEnding | internal/storage/mariadb_real.go:196-211 | the listing ends as the retry loop does |
| MariaDb.ListEnd | internal/storage/mariadb_real.go:196-211 | the attempt that ends the listing contributes the rows it delivered, last |
| MariaDb.ListStep | internal/storage/mariadb_real.go:195-210 | a failed live attempt before the last appends its rows to `out`, and the later attempts append after them |
| MariaDb.AppendNames | internal/storage/mariadb_real.go:202-208 | the scan loop appends one name per row, in order |
| MariaDb.Backend.constructor | internal/storage/mariadb_real.go:107-112 | the backend starts over the table the connection holds |
| MariaDb.Backend.Save | internal/storage/mariadb_real.go:145-160 | the table and the error are those `SaveEffect` gives, a `REPLACE INTO` under the table's prefix key |
| MariaDb.Backend.Open | internal/storage/mariadb_real.go:162-190 | the bytes served are those `OpenEffect` gives |
| MariaDb.Backend.List | internal/storage/mariadb_real.go:192-212 | the names and the error are what the attempts append, with the loop's last error returned unwrapped |
| MariaDb.Backend.Delete | internal/storage/mariadb_real.go:214-225 | the table and the error are those `DeleteEffect` gives |
| MariaDb.SaveUpserts | internal/storage/mariadb_real.go:116-160 | `REPLACE INTO` under `PRIMARY KEY(user(64), rel(255))`: the pair's row holds the new bytes, the rows sharing its key prefixes are gone, every row with another key is unchanged, no other row appears, and the key stays unique |
| MariaDb.LongPathsShareKey | internal/storage/mariadb_real.go:120 | two paths of one user whose first 255 characters agree have the same primary key |
| MariaDb.SamePrefixReplaced | internal/storage/mariadb_real.go:116-176 | saving a second path with the same key prefixes replaces the first path's row, so opening the first path on a working connection ends with `sql.ErrNoRows` |
| MariaDb.SaveFailureKeeps | internal/storage/mariadb_real.go:145-160 | a failed save leaves the table as it was |
| MariaDb.SaveOpen | internal/storage/mariadb_real.go:145-190 | `Open` after a successful `Save` gives back the bytes read |
| MariaDb.MissingRow | internal/storage/mariadb_real.go:170-176 | an absent row is retried three times and ends with `sql.ErrNoRows` |
| MariaDb.DeleteOnly | internal/storage/mariadb_real.go:214-225 | `Delete` removes exactly the matching row |
| MariaDb.ListClean | internal/storage/mariadb_real.go:192-212 | when the first attempt succeeds, each row is listed once, in the server's order |
| MariaDb.ListedAreRows | internal/storage/mariadb_real.go:192-212 | every name listed is that of a row, whatever the attempts did |
| MariaDb.ListDuplicates | internal/storage/mariadb_real.go:195-207 | `out` is not reset between attempts, so a failed attempt that delivered some rows, followed by one that succeeds, lists those rows twice |
| StorageFactory.Select | internal/storage/backend.go:21-38 | `""` and `disk` select the disk store, `redis` the chunked backend, `redis-mem` the in-memory one, and a Maria driver the scaffold when the database or user is empty and the SQL backend otherwise; any other driver is refused with `unknown storage driver: <driver>` |
| StorageFactory.RootsNamed | internal/storage/mariadb.go:13-19 | the scaffold stores under `root + "/maria"`, and the in-memory backend keeps the root it is given |
| StorageFactory.MariaFieldsOnlyForMaria | internal/storage/backend.go:21-38 | the Maria database and user matter only for a Maria driver |
| Handlers.ReplyOf | internal/server/handlers.go:115-146 | the publish replies `{"stored": N}` exactly when every entry was consumed, with N the loop's count; a bad name or stream is 400, a failed save 400 or 500 |
| Handlers.SaveStatus | internal/server/handlers.go:134-139 | a failed save is answered with 400 exactly when its message contains "too long", and with 500 otherwise |
| Handlers.Publish | internal/server/handlers.go:96-149 | the reply and the saves are those of the media-type check, the gzip check and the entry loop; the publish is recorded (timestamp, `publish` counter, metadata file) only when the reply is `stored`, and nothing changes otherwise |
| Handlers.PublishLoop | internal/server/handlers.go:113-143 | the loop over the entries replies and saves as `PublishFrom` says |
| Handlers.StoredCount | internal/server/handlers.go:114-143 | a publish that stores had a stream ending cleanly and successful saves, and its count is the number of saves made |
| Handlers.StoredNamed | internal/server/handlers.go:124-134 | a publish that stores saved every non-directory entry, in order, under the user and path its name splits into at the first `/`, with its contents |
| Handlers.StoredMeansAllSaved | internal/server/handlers.go:114-146 | a `stored` reply means the stream ended cleanly, every regular entry was saved in order under its split name, every save succeeded, and the count is the number of saves |
| Handlers.EarlierSavesSucceeded | internal/server/handlers.go:134-141 | the loop stops at the first failed save: every save before the last made succeeded |
| Handlers.FailedSaveAborts | internal/server/handlers.go:134-141 | when the last save made failed, the reply is that failure's status |
| Handlers.EmptyArchive | internal/server/handlers.go:115-146 | an empty tar archive is a successful publish of nothing |
| Handlers.SaveErrorStatus | internal/server/handlers.go:134-139 | the sanitiser's length error is answered with 400; an error whose text has no `g`, such as the other path rejections, with 500 |
| Handlers.Install | internal/server/handlers.go:154-182 | a failed listing is 500 with nothing recorded; otherwise the changes are the comparison of the request's inventory with the store's, the archive holds the Delete and Modify changes, and the install is recorded: time, `install` counter, the metadata path kept and its file rewritten unless the write fails |
| Handlers.InstallOnlyDeletesAndModifies | internal/server/handlers.go:177-178 | an install archive never carries an Add or a Same |
| Handlers.CompareHandler | internal/server/handlers.go:21-55 | a failed listing is 500; otherwise the comparison's changes, followed with `include_same=1` by one Same for each key on both sides with equal hashes, each once and only then |
| Handlers.SameNeverDuplicatesChange | internal/server/handlers.go:36-50 | a key that gets a Same never also gets a computed change |
| Handlers.PruneTargetsFacts | internal/server/handlers.go:197-200 | the pairs deleted are exactly the requested ones with both a user and a path |
| Handlers.Prune | internal/server/handlers.go:196-203 | every pair with a user and a path is deleted, in order, and counted whatever `Delete` returns |
| Handlers.ItemFor | internal/server/handlers.go:223-243 | a listed name gives at most one inventory item |
| Handlers.BuildStoreInventory | internal/server/handlers.go:211-245 | a failed listing is returned as is; otherwise the inventory is that of the listed names |
| Handlers.InventoryItems | internal/server/handlers.go:223-243 | every item comes from a listed `user/path` that was split at its first `/`, belongs to an allowed user when the filter is not empty, and opened; it is a file with that blob's size and hash |
| Handlers.InventoryComplete | internal/server/handlers.go:216-243 | a listed `user/path` of an allowed user that opens is in the inventory |
| ServerTar.TarStep | internal/server/tarutil.go:17-34 | each change adds one entry `user/path` with its blob exactly when the filter includes it, its blob opens and its header is written, and nothing otherwise |
| ServerTar.WriteChangesTar | internal/server/tarutil.go:14-36 | the loop writes the entries `Tar` gives, in order, and always returns nil |
| ServerTar.TarShape | internal/server/tarutil.go:17-34 | every entry comes from an included change whose blob opened, named `user/path` and holding that blob, in the order of the changes; and every included change that opens and whose header is written has its entry |
| ServerTar.ExcludedNeverWritten | internal/server/tarutil.go:18-20 | a change the filter refuses never produces an entry |
| ClientTar.PublishedEntries | internal/transfer/tarutil.go:18-48 | every publish entry comes from an Add or Modify of a configured user whose header was written, is named `user/path`, and is not a directory |
| ClientTar.PublishComplete | internal/transfer/tarutil.go:18-48 | every Add or Modify of a configured user's regular file whose header is written is in the archive under `user/path`, with that file's contents |
| ClientTar.OnlyAddAndModify | internal/transfer/tarutil.go:19-30 | only an Add or a Modify of a configured user's existing regular file becomes an entry, named `user/path` |
| ClientTar.NameSplitsBack | internal/transfer/tarutil.go:40 | the server's split at the first `/` recovers the user and path from an entry name whenever the user name has no `/` |
| ClientTar.Install | internal/transfer/tarutil.go:67-91 | an entry is skipped exactly when it is a directory, its name does not split, or its user is not configured; otherwise it is written or the install stops, and the tree stays well formed |
| ClientTar.InstallFiles | internal/transfer/tarutil.go:78-91 | an entry with a target is written exactly when its file can be created and its body is complete; a created file holds the body's delivered bytes even when it was cut short, which stops the install with the read error; otherwise the install stops with no file changed |
| ClientTar.ApplyFrom | internal/transfer/tarutil.go:59-93 | the install loop keeps the filesystem well formed however it ends |
| ClientTar.ApplyCounts | internal/transfer/tarutil.go:59-93 | a clean install read the whole stream without error and counts every accepted entry |
| ClientTar.ApplyWrites | internal/transfer/tarutil.go:59-93 | a clean install writes every accepted entry over the files already there, in order, a later entry for a path replacing an earlier one, and changes no other file |
| ClientTar.ApplyStopsShort | internal/transfer/tarutil.go:64-89 | however the install ends, the count returned is at most the number of accepted entries; a failure returns the count reached so far |
| ClientTar.ApplyCutShort | internal/transfer/tarutil.go:82-89 | an entry cut short inside its body ends the install with the read error and the count so far, its file holding the bytes that arrived |
| ClientTar.Local.BuildPublishTar | internal/transfer/tarutil.go:15-53 | the publish archive holds the entries `PublishEntries` gives, the count is their number, and the error is the writer's close error |
| ClientTar.Local.ApplyInstallTar | internal/transfer/tarutil.go:56-94 | the filesystem, count and error are those `ApplyFrom` gives for the stream's entries and their targets |
| OpsMeta.Bump | internal/server/meta.go:77 | incrementing a `uint64` counter: a missing counter becomes 1, a counter below 2^64-1 goes up by one, and the largest wraps to zero; no other counter changes |
| OpsMeta.Meta.Save | internal/server/meta.go:41-72 | an unset path is refused with `meta path unset` and nothing written; otherwise the times and counters replace the file when the write succeeds, and a failed write leaves the old file |
| OpsMeta.Meta.RecordPublish | internal/server/meta.go:74-80 | the publish time is set, `publish_requests` is incremented, and the result is saved, a failed save being ignored |
| OpsMeta.Meta.RecordInstall | internal/server/meta.go:81-87 | the install time is set, `install_requests` is incremented, and the result is saved, a failed save being ignored |
| OpsMeta.Meta.Snapshot | internal/server/meta.go:88-96 | the snapshot is the two times and a copy of the counters |
| OpsMeta.Loaded | internal/server/meta.go:21-39 | a missing file loads as empty times and no counters, a read or decode error is returned, and a loaded document never has `null` counters |
| OpsMeta.LoadMeta | internal/server/meta.go:21-39 | the `Meta` is bound to `root/_meta.json`, holds what `Loaded` gives, or the error, and its `uint64` counters make it ready to record publishes and installs |
| OpsMeta.Meta.constructor | internal/server/meta.go:23 | a `Meta` with the given times, counters and path; `uint64` counters make it valid |
| OpsMeta.MetaPath | internal/server/meta.go:22 | the metadata file is `_meta.json` directly inside the root, with one separator between them |
| OpsMeta.SaveThenLoad | internal/server/meta.go:21-72 | a saved document loads back unchanged |
| OpsMeta.PublishCounted | internal/server/meta.go:74-80 | after a publish, from a counter below the wrap, `publish_requests` is at least one and `install_requests` is unchanged |
| Status.CountedFrom | internal/server/status.go:19-34 | every counted file comes from a listed name that splits into user and path and whose blob opened, with the size it opened at |
| Status.CountedUserHasFiles | internal/server/status.go:31-37 | every user that appears has at least one counted file |
| Status.AppendCount | internal/server/status.go:19-34 | a listed name adds at most one counted file |
| Status.Tally | internal/server/status.go:16-34 | the first loop's per-user file counts and byte sums cover exactly the users counted, and the total is the sum of the sizes |
| Status.TallyAdd | internal/server/status.go:31-33 | the loop body keeps the counts those of the names seen so far |
| Status.AddOne | internal/server/status.go:31-33 | one more file adds one to its user's count and its size to that user's bytes and to the total, and changes no other user |
| Status.Entries | internal/server/status.go:35-38 | the second loop lists each counted user once, with its counts |
| Status.BuildStatus | internal/server/status.go:11-49 | a failed listing returns an empty response and the error; otherwise `filesTotal` is the number of listed names, `bytesTotal` the sum of counted sizes, one entry per counted user, and the metadata snapshot |
| Status.NotCounted | internal/server/status.go:31-37 | a user with no counted file has zero counts |
| Status.BytesAddUp | internal/server/status.go:32-37 | the per-user bytes of a response add up to its total |
| Status.CountedAtMostListed | internal/server/status.go:19-41 | `filesTotal` counts every listed name, so it is at least the number of files counted per user |
| Scanner.HasGlob | internal/scan/scanner.go:102-104 | a pattern has a glob exactly when it contains one of `*`, `?`, `[`, `{` |
| Scanner.ExpandCases | internal/scan/scanner.go:106-123 | a joined pattern without glob characters is its own one candidate; a glob expands to the library's matches, or to nothing when the library fails |
| Scanner.PlainPatternOneCandidate | internal/scan/scanner.go:106-121 | a relative pattern without glob characters under a home without them stands for exactly one path, the pattern joined to the home |
| Scanner.IsExcluded | internal/scan/scanner.go:125-143 | the loop answers true exactly when some exclusion applies |
| Scanner.ExclusionTargets | internal/scan/scanner.go:128-138 | a blank exclusion never applies; an absolute one looks only at the absolute path, a relative one only at the home-relative path |
| Scanner.RelativeEmpty | internal/scan/scanner.go:145-151 | in the model the relative path is empty exactly when one path is absolute and the other is not, the two cases where `filepath.Rel` fails on the absolute paths the scanner produces |
| Scanner.FileItemFields | internal/scan/scanner.go:153-163 | a readable file gives an item for its user and relative path, with the size and hash of its contents, not marked as a directory; an unreadable file gives none |
| Scanner.AdmittedNew | internal/scan/scanner.go:53-56 | the files passing the `seen` check are among the files reached, and none of their paths was seen before |
| Scanner.AdmittedDistinct | internal/scan/scanner.go:53-56 | the files passing the `seen` check have distinct paths |
| Scanner.AdmittedCovers | internal/scan/scanner.go:53-56 | every file reached was seen before or passes the check |
| Scanner.ItemsFrom | internal/scan/scanner.go:57-60 | every item comes from a file reached that could be read, is for the given user, and is not a directory |
| Scanner.WalkAvoidsPruned | internal/scan/scanner.go:36-62 | a walk never yields a file below a directory it skipped, nor an excluded file |
| Scanner.SkipsExcludedDirectory | internal/scan/scanner.go:44-47 | once the walk reaches an excluded directory, nothing inside it is yielded |
| Scanner.WalkKeepsFile | internal/scan/scanner.go:36-62 | a file the walk reaches, with a relative path and no exclusion applying to it, is yielded |
| Scanner.MatchNotExcluded | internal/scan/scanner.go:31-80 | no file a match yields is excluded |
| Scanner.IncludesNotExcluded | internal/scan/scanner.go:28-82 | no file any include pattern yields is excluded |
| Scanner.UserInventory | internal/scan/scanner.go:24-82 | for one user each absolute path is emitted at most once, every file reached is emitted or was already emitted, no excluded file is emitted, and every item is the user's, not a directory |
| Scanner.InventoryAppend | internal/scan/scanner.go:24-26 | users are scanned independently, each with a fresh `seen` set: the inventory is each user's items in turn, so a file two users track is listed for both |
| Scanner.VisitEntry | internal/scan/scanner.go:36-62 | the walk callback skips what `Prune` says and passes the file `Yield` names, if any, through the `seen` check |
| Scanner.ScanWalk | internal/scan/scanner.go:36-62 | a walk below a directory match adds the items of the files it yields that pass the `seen` check |
| Scanner.ScanMatch | internal/scan/scanner.go:31-80 | one match is skipped when it cannot be stat'ed, walked when it is a directory, and otherwise added unless it has no relative path, is excluded or was seen |
| Scanner.ScanPattern | internal/scan/scanner.go:29-81 | the loop over one pattern's matches adds what they yield, in order |
| Scanner.ScanUser | internal/scan/scanner.go:25-82 | the loop over one user's patterns adds that user's items |
| Scanner.InventoryFor | internal/scan/scanner.go:22-85 | the inventory is every user's items in the order of the users, and the error is always nil |
| Patterns.SplitPatterns | internal/scan/scanner.go:87-100 | the loop builds the includes and exclusions that `Split` gives; the lint command's `splitTrack` (internal/cli/cmd_config_lint.go:41-54) is the same loop |
| Patterns.SplitCounts | internal/scan/scanner.go:87-100 | every non-blank entry lands in exactly one of the two lists |
| Patterns.SplitMembers | internal/scan/scanner.go:87-100 | the includes are the trimmed non-blank entries without a leading `!`, and the exclusions are the others with that one `!` removed |
| Patterns.SplitAppend | internal/scan/scanner.go:87-100 | order is kept: splitting two lists one after the other gives the includes of the first followed by those of the second, and likewise for the exclusions; `splitTrack` in internal/cli/cmd_config_lint.go:41-54 is the same loop |
| Patterns.SplitOne | internal/scan/scanner.go:89-97 | a single entry: blank vanishes, `!x` is the exclusion `x`, anything else an include, each trimmed |
| Picking.Picks | internal/server/tarutil.go:17-34 | the items an archive loop writes are the accepted indices, ascending, each below the count |
| Picking.PicksComplete | internal/server/tarutil.go:17-34 | every accepted index is written |
| Config.Trimmed | internal/config/config.go:234 | every entry is trimmed of surrounding white space, in place |
| Config.KeptMembers | internal/config/config.go:235-242 | what the `seen` loop keeps is free of duplicates and is exactly the non-blank entries |
| Config.KeptFixed | internal/config/config.go:235-242 | a list of distinct non-blank entries is kept whole, in order |
| Config.NormalizedMembers | internal/config/config.go:230-245 | the normalised list has no duplicates, its entries are trimmed and not blank, and it holds exactly the non-blank trimmed entries of the input |
| Config.NormalizedFixed | internal/config/config.go:230-245 | an already normalised list is left as it is |
| Config.NormalizeIdempotent | internal/config/config.go:230-245 | normalising twice is normalising once |
| Config.NormalizeTrackList | internal/config/config.go:230-245 | the loop with its `seen` set computes `Normalized` |
| Config.EffectiveTrackChoice | internal/config/config.go:247-255 | the effective list is never empty; a user's own non-empty list always wins; the global list is used only for a user without one; the default only when both are empty |
| Config.AllFromMeans | internal/config/config.go:259-272 | the recursive "every entry" test is the quantified one |
| Config.AnyFromMeans | internal/config/config.go:259-272 | the recursive "some entry" test is the quantified one |
| Config.TrackFromVerdict | internal/config/config.go:257-277 | from any point of the loop, the rest passes exactly when every remaining entry passes the pattern check and an include was seen or remains; it fails for lack of an include exactly when all pass and none includes |
| Config.TrackFromFirstInvalid | internal/config/config.go:269-271 | the first entry that fails the pattern check ends the loop with its error |
| Config.TrackListAccepts | internal/config/config.go:257-277 | a track list is accepted exactly when every entry passes the pattern check and at least one is not blank and not an exclusion; a list of exclusions only is refused with `<scope> must contain at least one non-exclusion pattern` |
| Config.FirstInvalidReported | internal/config/config.go:269-271 | the first entry that fails the pattern check is the one reported, as it was written |
| Config.ValidateTrackList | internal/config/config.go:257-277 | the loop returns the verdict `TrackListError` gives |
| Config.RedisRules | internal/config/config.go:98-106 | Redis settings are refused exactly when both a socket and an address are given; an empty pair gains `127.0.0.1:6379`; settings that pass name exactly one endpoint |
| Config.MariaRules | internal/config/config.go:108-122 | MariaDB settings need a database, then a user, in that order of complaint, and are refused when both a socket and an address are given; an empty pair gains `127.0.0.1:3306`; settings that pass name exactly one endpoint |
| Config.UserAccepted | internal/config/config.go:159-167 | a user passes exactly when it has a home and its effective track list passes |
| Config.EndpointRules | internal/config/config.go:139-148 | only the chosen driver's endpoint is checked and changed; one that passes names exactly one of socket and address, and for MariaDB a database and a user |
| Config.PrechecksEstablish | internal/config/config.go:124-158 | settings that pass the checks before the user pass name a server, at least one user and a driver the storage factory builds, with exactly one endpoint for Redis or MariaDB and a non-empty global list that passes; only the driver, its endpoint and the global list change |
| Config.DefaultsFilled | internal/config/config.go:124-158 | once a server and users are configured an empty driver is validated and kept as `disk` whatever follows; a passing configuration keeps a named driver, keeps a non-empty global list, and replaces an empty one by the default |
| Config.PrechecksIdempotent | internal/config/config.go:124-158 | validating settings that have passed changes nothing more and passes again |
| Config.MigratedAppends | internal/config/config.go:213-218 | a user's legacy `include` entries are appended after its own, its home is kept, and no legacy list remains |
| Config.LoadedTracks | internal/config/config.go:207-228 | after loading, every user's list holds each pattern of its `track` and legacy `include` entries once, trimmed, with no legacy list and the same users |
| Config.Config.constructor | internal/config/config.go:50-60 | a configuration with the given settings |
| Config.Config.UserNames | internal/config/config.go:62-69 | every configured user once, in strictly ascending order |
| Config.Config.UsersList | internal/config/config.go:71-78 | one entry per configured user, each once, with its home and its effective track list, in no particular order |
| Config.Config.ValidateRedis | internal/config/config.go:98-106 | only the Redis settings change, as `CheckedRedis` says, and its error is returned |
| Config.Config.ValidateMaria | internal/config/config.go:108-122 | only the MariaDB settings change, as `CheckedMaria` says, and its error is returned |
| Config.Config.Validate | internal/config/config.go:124-169 | the settings become those of the checks; a failed check is returned; otherwise it succeeds exactly when every user passes, and a failure names one failing user |
| Config.Config.ValidateUsers | internal/config/config.go:159-168 | the pass over the users succeeds exactly when every user passes, and a failure is one failing user's error |
| Config.Config.MigrateLegacyIncludes | internal/config/config.go:207-220 | the legacy lists are appended to the track lists and cleared, globally and for every user; nothing else changes |
| Config.Config.NormalizeTracks | internal/config/config.go:222-228 | the global list and every user's list are normalised; nothing else changes |
| Config.InsertKeepsOrder | internal/config/config.go:67 | inserting a new name keeps the list strictly ascending and adds exactly that name |
| Lint.UserLines | internal/cli/cmd_config_lint.go:27-36 | each user gets a summary line, plus a line for each of its non-empty include and exclusion lists |
| Lint.FailsBeforePrinting | internal/cli/cmd_config_lint.go:19-23 | an invalid configuration fails with the validation error before anything is printed; a valid one prints `configuration OK (storage_driver=<driver>)` first |
| Lint.LineCount | internal/cli/cmd_config_lint.go:27-36 | the report has one summary line per user plus one line for each non-empty list |
| Auth.Serve | internal/auth/middleware.go:8-23 | every request is either answered 401 or passed to `next` unchanged |
| Auth.AcceptsExactly | internal/auth/middleware.go:11-19 | a request passes exactly when a token is configured and the header is `Bearer ` followed by it |
| Auth.ServeDecides | internal/auth/middleware.go:15-20 | an accepted request is answered by `next`; a rejected one gets 401 without consulting `next` |
| Auth.DisabledRejectsAll | internal/auth/middleware.go:11-14 | with no token configured every request is answered 401 `auth disabled` |
| ClientPrune.Outcome | internal/transfer/client.go:183-199 | a transport error or a status of 300 or more is an error with count 0, the status one worded `prune failed: <status>`; otherwise the count is the server's `deleted`, or 0 when the body does not decode |
| ClientPrune.Prune | internal/transfer/client.go:168-200 | the delete list is built from the changes; nothing is sent and 0 is returned for an empty list; otherwise the list is sent and the result is that of the reply |
| ClientPrune.DeleteListContents | internal/transfer/client.go:170-175 | the list holds exactly the pairs of the Delete changes, one per change |
| ClientPrune.DeleteListAppend | internal/transfer/client.go:170-175 | order is kept: the list of a concatenation is the concatenation of the lists |
| InitPath.EnsureTrailingSlash | internal/cli/cmd_init.go:67-75 | the empty string stays empty; a string ending in the separator is returned unchanged; any other gains exactly one separator |
| InitPath.Idempotent | internal/cli/cmd_init.go:67-75 | applying it twice is applying it once |
| InitPath.AppendsOne | internal/cli/cmd_init.go:71-74 | without a trailing separator exactly one is appended, keeping the string as the prefix |
| Errors.HasTooLongIsContains | internal/server/handlers.go:136 | the positional "too long" test is `strings.Contains(err.Error(), "too long")` |
| Errors.LengthErrorSaysTooLong | internal/storage/store.go:39-41 | the sanitiser's `path too long` error says "too long" |
| Errors.NoTooLong | internal/server/handlers.go:136 | an error whose message has no `g`, such as `absolute path disallowed` or `path traversal disallowed`, never says "too long" |

## Left out

- HTTP plumbing is left out: routing, request decoding, JSON replies, the upload and download handlers, and the HTTP transport of the client. The handlers' logic is modelled after their request has been decoded.
- The CLI commands are left out, apart from the lint report and `ensureTrailingSlash`. They are I/O around the modelled code.
- `randomToken` and the interactive prompts of `init` are left out. They are randomness and I/O.
- The real Redis and MariaDB clients, DSN building and TLS are left out. The key space and the table are maps, and each remote call's outcome is a parameter. Of the schema statement, only its primary key is modelled (`MariaDb.KeyOf`); running the statement is not.
- SaveUpserts and MariaDb.Backend.Save: the table's collation (the `CREATE TABLE` names none, so the server's default applies) is not modelled. Keys and the `WHERE user=? AND rel=?` lookups compare characters exactly, where a case-insensitive default collation would also treat `A` and `a` as one key. The `VARCHAR(128)` limit on the user column, which refuses or truncates longer users depending on the server's SQL mode, is not modelled either.
- Network failures of the chunked backend's GET, DEL and SCAN calls are not modelled. Only its SET calls go through the retry loop with scripted outcomes, and GET of a missing key is `redis.Nil`.
- The SCAN cursor is not modelled: `RedisChunked.Backend.List` returns the keys in one order over the whole key space.
- tar and gzip encoding are left out. An archive is a sequence of entries ending cleanly or with an error, and gzip validity is a boolean.
- SHA-256, glob expansion, glob matching, `ValidatePattern`, `os.Stat` and the visit order of `filepath.WalkDir` are parameters. They are library calls.
- Modification times (`MTime`), `Stat` sizes other than the bytes read, fsync and `Chtimes` are not modelled.
- The temporary-file errors of `Open` in the disk, Redis and MariaDB backends (`os.CreateTemp`, `Write`, `Seek`) are not modelled: a successful `Open` serves the bytes.
- Empty directories that `Delete` leaves behind in the disk store are not modelled.
- Clocks and sleeps are left out. Timestamps are strings supplied by the caller, and the retry loop returns the backoffs it would sleep instead of sleeping.
- Mutexes in the in-memory backend and the metadata are left out. They exist for concurrency only, and the model is sequential.
- JSON shapes other than the canonical manifest are not modelled. The decoder is a parameter, and the round trip assumes only that it reads back what the encoder writes.
- `Config.Load`, `Config.Save` and `expand` are not modelled. They are YAML I/O and home-directory and environment lookups.
- `Config.DefaultTrack`: `DefaultTrack` is not defined in any file of the repository at hand (`internal/config/defaults.go` defines only `DefaultInclude`), so the model relies only on its being non-empty.
- `Config.TrackListError`: the invalid-entry message quotes the raw entry without `%q`'s escaping.
- `ClientTar.HomePath`: a user's home is cleaned and taken as absolute; a relative home, which Go would resolve against the working directory, is not modelled.
- ExpandCases: a relative home is not modelled by the scanner either. `Joined` resolves a relative pattern against the home as if the home were below `/` and renders it absolute; Go keeps it relative (internal/scan/scanner.go:107-111), and validation accepts such a home.
- RelativeEmpty: `filepath.Rel` is modelled for the absolute paths the model's scanner produces. Its failure on two relative paths whose base climbs with `..` (`Rel("../a", "b")`) is not modelled, because the model has no relative paths.
- RestoreOne and Install: a copy fails only because the entry's body is cut short. A write error into the created file, such as a full disk, is not modelled, as no file write fails in the model's filesystem.
- MetaPath: a root with `.` or `..` parts or a doubled separator is joined without the cleaning that `filepath.Join` applies.
- `Lint.Report` takes the users already sorted by name (`ByName`). The `sort.Slice` call before the loop is not modelled.
- The thin wrappers are left out: `internal/storage/mariadb.go` (delegating to the disk store), the diff adapter, logging, build information, the VCS stub and `cmd/*/main.go`.
- The scanner test's concrete `docs/` tree is not replayed. It is an instance of `Scanner.WalkKeepsFile`, `Scanner.WalkAvoidsPruned` and `Scanner.UserInventory`.
- The status test's non-empty `last_publish` depends on the clock's timestamp, which is an input. `OpsMeta.PublishCounted` proves only the counter half.
