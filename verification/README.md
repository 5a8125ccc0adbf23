# Wooloo: a verified model

A Dafny model of the parts of the Wooloo registry whose behaviour cannot be read off one function body, and
proofs of what they promise. `dafny verify dfyconfig.toml` checks the whole project.

## What is modelled

**The blob store** (`FileSystem`, `BlobMachine`, `BlobInvariant`, `BlobSafety`, `BlobLinearizability`,
`BlobAccounting`, `BlobTimestamps`). `FilesystemBlobStorage` is a concurrent machine over a small POSIX
filesystem: directory entries name inodes, and inodes outlive their names. Every awaited system call is one
atomic step. A call (put, get, exists, size, delete, and the service's remove and retrieve) is a program
counter with its locals. Any number of calls interleave, any step may fail, the source stream may raise, the
write buffer may let any part of a chunk through, and another user may plant a symlink, directory or fifo at
any blob's path at any time. All of that choice is in a list of actions and `Run` is a total function of that
list, so a lemma about every list of actions is about every run. sha256 is a parameter `h`, any function from
bytes to digests: the digest of a spool is `h` of everything hashed. Where freedom from collisions is needed it
is a hypothesis about the contents spooled in that run that hash to the digest in question, and nothing else.

**The same store as an object** (`Chunking`, `BlobStorage`, `StorageService`): classes with fields and chunk
loops, one call at a time, with any subset of the call's system calls failing. Every operation of the storage,
and the service's retrieve and remove, are also proved to be runs of the machine's own steps (`Solo`,
`SoloIsARun`), so the methods and the machine describe the same code.

**Keys and paths** (`KeyLayout`): `_resolve` and `_shard_path`, and why blobs, scratch files and health probes
never meet, which is what lets the machine keep two separate maps of entries.

**Repository names** (`NameGrammar`): splitting on `/` and matching each component, against the single
whole-name expression of the OCI Distribution Specification v1.1, section "Pulling manifests". Regular
expressions are data, and `Matches` is membership in their language, which is what `fullmatch` decides.

**Repositories** (`RepositoryTable`, `RepositoryStore`, `Paging`): the soft-delete table with its indexes, the
adapter over its session, the create use case in front, and clients that walk the pages.

**The middleware** (`Asgi`, `Connections`, `BodyCeiling`, `RequestLogging`): the body ceiling, and the request
logging around it, as transformers of message traces that take one application step at a time. What the
application sends passes the ceiling's closure and then the logging layer's, which stamps it and keeps the
status. An application is any function from what it has observed to what it does next, so the theorems are
about every application, including one that catches the overrun signal and keeps receiving. `n` is how many of
its own steps the application is given; the theorems hold for all `n`.

## Where the code and its documentation disagree

The model follows the code.

- The storage contract promises that a repeated put reports the original write's timestamp
  (`src/wooloo/domain/storage/contracts.py:33-37`). Two overlapping puts break it: `OverlappingPutsDisagree` is
  such a run. `TimestampsExactly` is the condition: over a period that deletes and plants nothing at a digest,
  its puts report one key, size and creation time if and only if no rename found a file at the path whose stat
  was not the one that put was about to report. For a caller: puts of the same content that do not overlap in
  time all report the original write (`NonOverlappingPutsReportTheOriginal`), and a file that is already there
  is never replaced (`StoredFileStays`).
- The service documents that a retrieve of an unknown key is not logged
  (`src/wooloo/application/services/storage_service.py:63-65`). It logs before it opens, so a blob deleted in
  between is logged and then missed: `LoggedRetrievalCanMiss`. `RetrieveMissesExactly` is the condition: with
  nothing planted since the lookup, a working open misses if and only if more deletes of the digest than fresh
  publications of it have succeeded since then.
- A repeated repository delete is called harmless bookkeeping; it keeps `deleted_at` but refreshes `updated_at`
  through `onupdate`. `RepeatedDelete` says exactly when it changes nothing.
- `delete` of a blob unlinks a planted symlink or fifo although `exists` denies it: `DeleteAgainstExists`.

## Model

| member | source | states |
|---|---|---|
| KeyLayout.ResolveExactly | src/wooloo/infrastructure/storage/filesystem.py:442-460 | the keys that resolve, character by character |
| KeyLayout.ResolveInvertsKeyOf | src/wooloo/infrastructure/storage/filesystem.py:442-460 | a key resolves to a digest exactly when it is the key issued for that digest |
| KeyLayout.ShardPathBijection | src/wooloo/infrastructure/storage/filesystem.py:462-471 | shard paths and digests correspond one to one, onto every path of that shape: the first two characters, the next two, and the other sixty |
| KeyLayout.RegionsApart | src/wooloo/infrastructure/storage/filesystem.py:218-219 | no shard path is on another's directory chain or meets tmp/, a scratch file or a health probe |
| FileSystem.AbsenceIsNoOutage | src/wooloo/infrastructure/storage/filesystem.py:89-106 | every way an open finds no blob is an absence, and a permission or I/O error is none |
| BlobInvariant.SpoolStepOk | src/wooloo/infrastructure/storage/filesystem.py:425-440 | at every stage of a spool, inode plus write buffer is what was hashed, whichever step fails, and nothing else is touched |
| BlobInvariant.RenameKeeps | src/wooloo/infrastructure/storage/filesystem.py:265-268 | the rename publishes only whole content under its own digest |
| BlobInvariant.ApplyKeepsInv | src/wooloo/infrastructure/storage/filesystem.py:221-278 | every step of every call, plant and tick keeps the invariant: whole blobs, exclusive writers, no open writer on a published or streamed inode |
| BlobSafety.PutStoresWhatItWasGiven | src/wooloo/infrastructure/storage/filesystem.py:221-278 | in every run a put that returned stored, under the hash of it, exactly the bytes its source yielded, in order, and reports that key and length |
| BlobSafety.ModifiedWhenWritten | src/wooloo/infrastructure/storage/filesystem.py:425-440 | in every run a file's modification time is the moment its bytes were last written |
| BlobSafety.PutGoesOn | src/wooloo/infrastructure/storage/filesystem.py:256-278 | at any moment of any run a put whose next call works comes nearer its end, fails only for what it finds at its path, and reports the stat it found |
| BlobSafety.ContentAddressed | src/wooloo/infrastructure/storage/filesystem.py:256-271 | in every run a regular file at a digest's path is a completely spooled content with that hash |
| BlobSafety.StreamStability | src/wooloo/infrastructure/storage/filesystem.py:187-202 | once opened, a stream's content is fixed, hashes to its key, and is yielded prefix by prefix whatever deletes, re-puts and plants interleave |
| BlobSafety.StreamGoesOn | src/wooloo/infrastructure/storage/filesystem.py:187-202 | a read that works yields the next bytes, up to a mebibyte, or ends the stream at its end, and nothing other calls do ends it early |
| BlobSafety.FinishedStreamsAreWhole | src/wooloo/infrastructure/storage/filesystem.py:280-312 | a finished stream yielded exactly the content its key names, in non-empty bounded chunks |
| BlobSafety.ScratchConservation | src/wooloo/infrastructure/storage/filesystem.py:417-440 | scratch holds exactly one file per put in flight and per put that failed after spooling or in cleanup |
| BlobLinearizability.LocalSimulates | src/wooloo/infrastructure/storage/filesystem.py:256-278 | forward simulation: each step commits to at most one operation, touches the contents at no other digest, and where its digest is clear of plants and collisions is that operation of the atomic map with the answer the caller gets |
| BlobLinearizability.HistoryIsSequential | src/wooloo/infrastructure/storage/filesystem.py:221-382 | for any set of digests clear of plants and collisions in a run, the commits about them are, in order, a legal sequential run of the atomic map ending at the contents stored there |
| BlobLinearizability.HistoryMatchesCalls | src/wooloo/infrastructure/storage/filesystem.py:221-382 | each call occurs in that history exactly through what it returns or will return, planted entries and collisions included; an exists whose lstat fails for another reason than absence answers false without an event |
| BlobLinearizability.RealTimeOrder | src/wooloo/infrastructure/storage/filesystem.py:221-382 | a call issued after another took effect comes after it in the history |
| BlobLinearizability.Linearizable | src/wooloo/domain/storage/contracts.py:12-123 | linearizability of put, get, exists, size and delete to an atomic map from digest to bytes, for any set of digests clear of plants and collisions, whatever happens at the others |
| BlobAccounting.DeleteAccounting | src/wooloo/infrastructure/storage/filesystem.py:359-382 | callers told their delete succeeded, plus one if something is there, equal the renames and plants that found the path absent |
| BlobAccounting.ConcurrentDeletesSucceedOnce | src/wooloo/domain/storage/contracts.py:115-121 | between publications at most one of any number of concurrent deletes reports success |
| BlobAccounting.RemovalLogAccurate | src/wooloo/application/services/storage_service.py:73-91 | the size remove logs is the length of the bytes its later unlink removed |
| BlobAccounting.RetrievalLogAccurate | src/wooloo/application/services/storage_service.py:53-71 | a retrieve that streams to its end streams as many bytes as it logged |
| BlobAccounting.RetrieveMissesExactly | src/wooloo/application/services/storage_service.py:67-71 | a retrieve whose size lookup answered misses, when its open works and nothing was planted since, if and only if more deletes than fresh publications of the digest succeeded since; otherwise it streams |
| BlobAccounting.ReadsAgree | src/wooloo/infrastructure/storage/filesystem.py:300-357 | for every key and entry kind exists, size and get agree, and size is the length of the stream |
| BlobAccounting.DeleteAgainstExists | src/wooloo/infrastructure/storage/filesystem.py:375-382 | delete differs from exists exactly on a planted symlink, fifo or directory |
| BlobTimestamps.TimestampsExactly | src/wooloo/domain/storage/contracts.py:33-37 | puts of a digest report the same key, size and creation time if and only if no rename found a file there with another stat than its own |
| BlobTimestamps.StoredFileStays | src/wooloo/infrastructure/storage/filesystem.py:258-271 | a file that is there when no put is racing for its path stays that file, whatever puts do |
| BlobTimestamps.RepeatedPutsReportTheOriginal | src/wooloo/infrastructure/storage/filesystem.py:258-271 | puts of the same digest that never race report the same blob: the file there at the end, which is the one there at the start if there was one |
| BlobTimestamps.NonOverlappingPutsReportTheOriginal | src/wooloo/domain/storage/contracts.py:33-37 | puts of the same digest that are never in flight together all report the original write |
| BlobTimestamps.KeepsExistingExactly | src/wooloo/infrastructure/storage/filesystem.py:258-271 | a put's last step keeps the file at its path if and only if its lstat had found one, and changes the stat there, creation time included, if and only if it is a clobbering rename |
| BlobTimestamps.OverlappingPutsDisagree | src/wooloo/infrastructure/storage/filesystem.py:237-239 | a run in which two overlapping puts of the same bytes report different creation times |
| BlobTimestamps.LoggedRetrievalCanMiss | src/wooloo/application/services/storage_service.py:67-71 | a run in which a logged retrieve ends in BlobNotFound |
| Chunking.StreamUpload | src/wooloo/api/routes/storage.py:22-32 | the chunks are the rest of the file, non-empty, bounded, and full but for the last |
| Chunking.FullChunkingUnique | src/wooloo/api/routes/storage.py:28-32 | a byte string has one full chunking, so what a read loop yields depends on the bytes alone |
| BlobStorage.SoloIsARun | src/wooloo/infrastructure/storage/filesystem.py:221-382 | a call running alone is a run of the concurrent machine |
| BlobStorage.FilesystemBlobStorage.Spool | src/wooloo/infrastructure/storage/filesystem.py:403-440 | whichever system calls fail: the scratch file holds exactly the concatenated chunks, or nothing remains unless the removal failed too; and these are the machine's steps, told exactly which calls failed and handed exactly those chunks |
| BlobStorage.FilesystemBlobStorage.Put | src/wooloo/infrastructure/storage/filesystem.py:221-278 | whichever system calls fail: an absent blob becomes present with those bytes at the present time, a present one is kept and its stat reported, a foreign entry is refused, and a put that raises publishes nothing and leaves its scratch file exactly when its docstring says so; and these are the machine's steps, told exactly which calls failed and handed exactly those chunks |
| BlobStorage.FilesystemBlobStorage.Open | src/wooloo/infrastructure/storage/filesystem.py:280-312 | opening succeeds exactly when a blob is at the key's path and the call works, on its inode; a failure that is not absence is raised; and this is the machine's step |
| BlobStorage.FilesystemBlobStorage.StreamHandle | src/wooloo/infrastructure/storage/filesystem.py:187-202 | full chunks of the content: all of it, or a prefix when a read fails or the consumer stops; and these are the machine's steps |
| BlobStorage.FilesystemBlobStorage.Exists | src/wooloo/infrastructure/storage/filesystem.py:314-329 | true exactly when the key names a stored blob and the lstat works, never an error; and this is the machine's step |
| BlobStorage.FilesystemBlobStorage.Size | src/wooloo/infrastructure/storage/filesystem.py:331-357 | the length of the stored content, BlobNotFound when there is none, the error when the lstat fails otherwise; and this is the machine's step |
| BlobStorage.FilesystemBlobStorage.Delete | src/wooloo/infrastructure/storage/filesystem.py:359-382 | removes the entry and nothing else; BlobNotFound exactly when nothing is there; any other failure changes nothing; and this is the machine's step |
| StorageService.Service.Store | src/wooloo/application/services/storage_service.py:31-51 | logs exactly the successful stores, with the blob returned |
| StorageService.Service.Retrieve | src/wooloo/application/services/storage_service.py:53-71 | running alone, opens the named content exactly when both calls work, having logged its true length once the lookup answered; and these are the machine's steps |
| StorageService.Service.Remove | src/wooloo/application/services/storage_service.py:73-91 | running alone, removes exactly the named content and logs its length, or changes and logs nothing; and these are the machine's steps |
| StorageService.UploadThenDownload | src/wooloo/api/routes/storage.py:35-82 | whichever system calls fail: exactly when the upload is answered its key and size depend on the bytes alone, and a download that opens yields those bytes, or a prefix when it is stopped |
| NameGrammar.SplitInvertsJoin | src/wooloo/domain/repositories/name.py:88 | splitting on the separator is the inverse of joining slash-free parts |
| NameGrammar.GrammarEquivalence | src/wooloo/domain/repositories/name.py:88-92 | component-wise matching accepts exactly the language of the whole-name expression |
| NameGrammar.ComponentDecomposes | src/wooloo/domain/repositories/name.py:14-18 | a component is valid exactly when it decomposes into alphanumeric runs and separators, and then in one way |
| NameGrammar.NameReads | src/wooloo/domain/repositories/name.py:14-18 | the whole-name expression accepts exactly what a left-to-right reader of letters, digits, separators and slashes accepts |
| NameGrammar.StripMeaning | src/wooloo/domain/repositories/name.py:81 | stripping removes all and only surrounding whitespace |
| NameGrammar.ConstructionExact | src/wooloo/domain/repositories/name.py:72-93 | a name is accepted exactly when its stripped form reads as a legal name and is at most 255 long |
| NameGrammar.ConstructionStable | src/wooloo/domain/repositories/name.py:62-93 | an accepted name is accepted again unchanged, and a legal name is never rewritten |
| RepositoryTable.ConflictExactly | src/wooloo/infrastructure/repositories/store.py:23-42 | AlreadyExists exactly when the folded name is taken, given a driver that names constraints, or when the flush reports that violation itself; the row a registration adds, field by field; a refusal changes nothing |
| RepositoryTable.NamesStayUnique | src/wooloo/infrastructure/database/models/repository.py:50-55 | in every run no two rows, deleted ones included, share a case-folded name or an id |
| RepositoryTable.RowHistory | src/wooloo/infrastructure/repositories/store.py:153-175 | over every run a row is deleted at the moment of the first delete of its id and no other, updated at that of the last, and otherwise unchanged |
| RepositoryTable.RowsOnlyDescend | src/wooloo/domain/repositories/entity.py:19-33 | in every run ids, names and creation times never change, and a deletion time is final |
| RepositoryTable.RepeatedDelete | src/wooloo/infrastructure/repositories/store.py:153-175 | the first deletion time stands; a repeat is a no-op exactly when the id is unknown or no time has passed |
| RepositoryTable.RegisterExactly | src/wooloo/application/use_cases/create_repository.py:28-57 | a registration is answered exactly when the stripped name is legal, its folding and the id are free and nothing fails; then the table gains exactly that row; rejections are exactly the illegal names |
| RepositoryTable.ServedIsARun | src/wooloo/application/use_cases/create_repository.py:47-49 | behind the use case the table is what the legal creates and the deletes, in order, make of it |
| RepositoryTable.ServedNamesAreLegal | src/wooloo/application/use_cases/create_repository.py:47-49 | behind the use case every stored name is in the grammar and the indexes hold |
| RepositoryTable.ConflictIsEquality | src/wooloo/application/use_cases/create_repository.py:28-57 | behind the use case a conflict is exactly equality with a stored name |
| RepositoryStore.SqlAlchemyRepositoryStore.Create | src/wooloo/infrastructure/repositories/store.py:60-95 | flush then commit or roll back: registered or unchanged, never in between |
| RepositoryStore.SqlAlchemyRepositoryStore.GetById | src/wooloo/infrastructure/repositories/store.py:97-107 | the one active row with that id, or none |
| RepositoryStore.SqlAlchemyRepositoryStore.GetByName | src/wooloo/infrastructure/repositories/store.py:109-119 | the one active row with that folded name; a name is taken exactly when this finds it or a deleted row has it |
| RepositoryStore.SqlAlchemyRepositoryStore.Delete | src/wooloo/infrastructure/repositories/store.py:153-175 | true exactly for ids ever registered; that row keeps its first deletion time and is updated now, and no other row changes |
| RepositoryStore.CreateRepositoryUseCase.Execute | src/wooloo/application/use_cases/create_repository.py:28-57 | registers exactly a legal name that is free, with a free id and no fault; the row is then the one found by its id and by its name; only registrations are recorded |
| Paging.ClampsAreNearest | src/wooloo/application/use_cases/list_repositories.py:21-43 | each clamp is the one nearest supported value |
| Paging.ListingExact | src/wooloo/infrastructure/repositories/store.py:132-140 | the listing is exactly the rows not deleted, each created later than the next, or at the same time with a greater id |
| Paging.PageWindow | src/wooloo/infrastructure/repositories/store.py:121-151 | a row is on a page exactly when its rank falls in the window of the clamped limit and offset; the total is of the table the second statement saw |
| Paging.PagesPartition | src/wooloo/application/use_cases/list_repositories.py:60-87 | for every requested limit the pages concatenate to the listing, in exactly ceil(total / limit) non-empty pages |
| Paging.PagingUnderWrites | src/wooloo/infrastructure/repositories/store.py:134-140 | a page walk receives a repository active when it began, whatever creates commit and whatever deletes, as long as none is of that repository or of an active one ahead of it |
| Paging.DeleteAheadHides | src/wooloo/infrastructure/repositories/store.py:134-140 | in every table, a delete of an active row ahead hides a row that stays active from the walk that has just reached it |
| Paging.DeleteHidesExactly | src/wooloo/infrastructure/repositories/store.py:132-140 | a delete can hide a row that stays active from some walk if and only if it is of an active row ahead of it |
| RepositoryStore.SqlAlchemyRepositoryStore.List | src/wooloo/infrastructure/repositories/store.py:121-151 | the page holds exactly the active rows whose rank, newest first, is in the window, in order |
| Asgi.ReadHeaderFirst | src/wooloo/api/middleware/max_body_size.py:150-168 | the value of the first header with that name, whatever its case, and none when there is none |
| Asgi.LowerExactly | src/wooloo/api/middleware/max_body_size.py:163-166 | only the letters A to Z change, each to its small letter |
| Asgi.BarePlays | src/wooloo/api/middleware/max_body_size.py:66-70 | an application with nothing in front of it is told the client's messages in order, and what it sends and binds arrives in order |
| BodyCeiling.DeclaresExactly | src/wooloo/api/middleware/max_body_size.py:127-147 | a request declares too much exactly when its first content-length header, whatever its case, parses to more than the ceiling |
| BodyCeiling.RejectionIsRefusal | src/wooloo/api/middleware/max_body_size.py:171-213 | the refusal is a 413 in the error shape that names the request's id, closes the connection, and declares its body's length as a decimal numeral |
| BodyCeiling.GuardedPlays | src/wooloo/api/middleware/max_body_size.py:78-116 | the application's k-th receive is answered by the client's k-th message, or by the signal exactly when the body in the first k is beyond the ceiling; what it sends goes out in order |
| BodyCeiling.BodyBound | src/wooloo/api/middleware/max_body_size.py:93-116 | no application is ever handed more body than the ceiling |
| BodyCeiling.WireSafety | src/wooloo/api/middleware/max_body_size.py:72-124 | a declaration beyond the ceiling is answered by exactly the refusal with nothing run or read, an overrun before the start by exactly the refusal, after it by nothing; never two starts |
| BodyCeiling.Transparency | src/wooloo/api/middleware/max_body_size.py:52-124 | within the ceiling every application's run is what it is without the middleware |
| BodyCeiling.DrainVerdict | src/wooloo/api/middleware/max_body_size.py:108-116 | for an application that drains first, the verdict depends on the total and not on the chunking |
| BodyCeiling.BodyReadingAppDrains | tests/unit/test_max_body_size_middleware.py:25-57 | the draining application is one the verdict applies to |
| BodyCeiling.Closures.ReceiveCountingBody | src/wooloo/api/middleware/max_body_size.py:95-116 | the closure counts and signals as the trace transformer does |
| BodyCeiling.MaxBodySizeMiddleware.Call | src/wooloo/api/middleware/max_body_size.py:52-124 | for every scope and whatever send callable it is given, the object with its closures and counters computes the trace transformer |
| RequestLogging.RequestIdIsSafe | src/wooloo/api/middleware/request_logging.py:129-145 | the id is always safe, and the client's exactly when that is safe in full |
| RequestLogging.ServeMirrors | src/wooloo/api/middleware/request_logging.py:81-106 | at every step the application and the ceiling are where they would be without logging, the wire is the stamped copy, and the status variable the last status sent |
| RequestLogging.StackedCorrelation | src/wooloo/api/middleware/request_logging.py:77-126 | at every step the wire is the ceiling's, each start with its own headers followed by the scope's id and nosniff; on every exit one summary, last, with the last status on the wire or 500, and the id's key restored and no other touched |
| RequestLogging.ResetRestores | src/wooloo/api/middleware/request_logging.py:103-126 | resetting undoes the binding of the id and nothing else |
| RequestLogging.RecordsCarryTheId | src/wooloo/api/middleware/request_logging.py:103-125 | every record carries the request's id |
| RequestLogging.RejectionIsCorrelated | src/wooloo/api/middleware/max_body_size.py:194-213 | a refusal is exactly a 413, written out, whose header and body carry the id, with one summary of status 413 |
| RequestLogging.OtherScopesPlay | src/wooloo/api/middleware/request_logging.py:73-75 | an application on another scope is told and sends exactly what it would alone, and nothing is recorded |
| Connections.SendCallable.Send | src/wooloo/api/middleware/request_logging.py:81-101 | the send closure passes each message on as it is sent, a start with its own headers followed by the two fixed ones, and keeps the status of the last start |
| RequestLogging.RequestLoggingMiddleware.Call | src/wooloo/api/middleware/request_logging.py:59-126 | for every scope, the object with its send closure and log computes the stepwise transformer |

## Left out

- Linearizable: says nothing about a digest where something foreign is planted or spooled contents collide. There `put` refuses, or `delete` removes what `exists` denies, and the store is not an atomic map. An `exists` whose lstat fails for another reason than absence answers false without looking (`ExistsBlind`) and has no place in the history.
- Transparency: assumes an application does not raise the private overrun signal of its own accord (`Honest`).
- ConflictIsEquality: is for a fresh id and no unrelated database failure; with a taken id and a driver that names constraints the answer is an error, as `ConflictExactly` says.
- RejectionBody: JSON escaping; the ids the logging middleware admits contain no character JSON escapes.
- UploadThenDownload: is about the two routes run one after the other; calls in between are in the machine theorems.
- `retrieve` and `remove` are compositions of atomic operations and not atomic themselves; the history shows them as two operations each.
- sha256, uuid generation, mkstemp's draw, the database clock, CITEXT folding, `str.strip`'s whitespace and Python's `int()` are parameters.
- A send or receive that raises on a broken connection; the middleware's own state does not depend on it.
- Cancellation of an await whose thread keeps running, fsync and power loss, and thread-pool scheduling.
- Errors of the filesystem are "this step failed"; unix sockets and devices at a blob's path, and symlinked intermediate directories, are not modelled. Missing intermediate directories are absence.
- `check_health`, error messages and their truncation, durations, paths and client addresses in log records.
- Isolation between overlapping database transactions: each create and delete is one atomic transaction.
- HTTP routing, request and response schemas, dependency injection, settings, tracing and migrations: they pass values to and from what is modelled and decide nothing in it.
