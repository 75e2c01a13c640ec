# Verification of fusg

fusg collects statistics on which executable uses which file. A daemon turns audit events into rows of a small
database, and a command line tool aggregates these rows. This project models its four hard parts in Dafny and proves
what they are for:

- **Paths** (`Paths`, `Normaliser`, `Canonicity`). The lexical path normaliser compacts a buffer over itself with a read
  pointer, a write pointer and a pending sequence. It is proved equal to splitting on `/`, folding with a stack, and
  joining. The separate score automaton is proved to accept exactly the normal forms, which are exactly the fixed
  points and exactly the results of the normaliser.
- **Database** (`UsageTables`, `Accesses`, `AccessLaws`, `CallLaws`, `CallCodes`, `Histories`, `IdArithmetic`,
  `Persistence`, `Database`, `Fetching`, `Flushing`, `Handles`, `HandleLaws`, `HandleRefinement`, `HandleLiveness`). Six
  tables are kept together by single table accesses, each of which may fail. `Accesses.Step` is one such access; the
  class `Db` performs them; `Handles` interleaves those of any number of handles, and `Db` is proved to do what one of
  these handles does. The cross-table invariant holds after every access, calls are serialisable, scans are snapshots,
  rows are a pure function of the update history, and calls and queries can run to their end whenever the lock is free.
- **Events and queries** (`Records`, `Store`, `EventLaws`, `SingleFile`, `Totals`, `Search`, `Conservation`,
  `QueryLaws`, `EndToEnd`, `Reporting`, `DumpLaws`, `ConcurrentReports`, `Pipeline`). The loop over the
  records of an event and the aggregation loops of the queries, connected: what a query prints is a count over the PATH
  records of the event stream, also when it runs in another process on the files of the daemon, and it tells the
  updates that have returned when others write meanwhile.
- **Configuration** (`ConfGrammar`, `Conf`, `ConfLaws`). The tokenizer that writes NULs into the line it reads is proved
  equal to a parser on plain text, the parser to a grammar, and printed configurations are read back unchanged.

`RemoveTree` adds recursive removal of a directory, with the exact condition for its success.

## How the source is modelled

- A C string is a `string` without `'\0'`, a buffer an `array<char>`, a pointer into it an index, a NULL pointer `None`
  (in the normaliser loop: the index `NULL`).
- `uint64_t` arithmetic wraps; every sum, counter and id that can wrap is written with `% TWO_64`.
- A flag word is a set of its single bits.
- The storage layer is an arbitrary function from access sites to outcomes, one for each call. No call visits a site
  twice, so this covers every way in which fetches and stores can fail. A failed store leaves its table unchanged.
- The file system is such a function too: it says of the k-th call whether it fails for reasons of its own.
- `gdbm_firstkey` and `gdbm_nextkey` pick any key that is left.
- An audit event is a sequence of records, a record a sequence of fields with raw and interpreted values. The makefiles
  never define `NDEBUG`, so the checks of `type` fields and all asserts are part of the model.
- `realpath` is a parameter of the queries. What is printed is returned as lines, total and count.

## Where the code falls short of its documentation

The model follows the code. The contracts and lemmas named here say exactly when the code does what was meant.

- `db.h:148` promises -1 on failure. `db_update` returns +1 if and only if its key is complete and gdbm refuses the row
  with +1 (`UpdatePlusOneIff`, from the exact code of every call in `CallCode`); an input is `RefusedRow`.
- `db_update` starts a row anew whenever the row cannot be read, so it forgets counts that were there; counts are kept
  if and only if the fetch worked or there was nothing to forget (`CountsKeptIff`); an input is `ReadForgotten`.
- `db_fetch` stores reverse entries. It succeeds if and only if both halves of its key can be completed and the row can
  be looked for (`FetchSucceedsIff`), so with working storage if and only if the handle has `DB_WRITE`
  (`FetchSucceedsIffWritable`); an input is `ReaderMissesRow`.
- The id counter wraps; handing out an id keeps the tables valid if and only if the counter is not at its maximum
  (`AllocationValidIff`); an input is `CounterWraps`.
- The id table is synced last; files left by an interrupted sync are valid if and only if it did not stop between
  writing new ids and writing the counter (`StoppedSyncValidIff`); an input is `SyncDiesEarly`.
- `db_flush` looks at a mark that only `db_update` sets, so ids handed out by `db_fetch` alone are not flushed. The
  files equal the tables afterwards if and only if the mark was set or no counter and no reverse entry is new (`Flush`);
  without failures, if and only if some call since the last sync was an update or no fetch met a new path
  (`RunThenFlush`); an input is `FetchedIdNotFlushed`.
- `db_iterator_fetch` returns 0 for a key that is not there and leaves the buffer alone; it fails if and only if the
  access does (`Iterator.Fetch`). The search loops never meet such a key.
- The search functions return -1 after a complete loop (`SearchSingle`).
- `db.h:165` and `db.h:178` speak of NULL for an unknown id; the functions return -1 (`LookUpPath`).

## Model

| member | source | states |
|---|---|---|
| Normaliser.FAbsolute | sources/fusg-common/include/fusg/utils.h:60-218 | returns NULL exactly if an argument is NULL or some `..` has nothing to drop; otherwise the buffer holds the stack-fold normal form of the joined (and, if too long, cut) text; nothing beyond PATH_MAX is written |
| Normaliser.JoinInto | sources/fusg-common/include/fusg/utils.h:67-89 | the buffer holds cwd, one slash and path, or an absolute path alone, cut at PATH_MAX - 1 characters |
| Normaliser.Compact | sources/fusg-common/include/fusg/utils.h:99-217 | the three-pointer loop, in place, computes split, fold and join of the buffer's text, and writes nothing behind that text |
| Normaliser.Advance | sources/fusg-common/include/fusg/utils.h:105-191 | one character, whatever it is, keeps the loop invariant, or the text has no normal form |
| Normaliser.OnSlash | sources/fusg-common/include/fusg/utils.h:111-137 | a slash keeps the loop invariant (write pointer never past unread text, output is the rendered stack); NULL only if the whole text has no normal form |
| Normaliser.OnDot | sources/fusg-common/include/fusg/utils.h:138-161 | a dot keeps the loop invariant, and the assert in this branch never fires |
| Normaliser.OnName | sources/fusg-common/include/fusg/utils.h:162-190 | any other character keeps the loop invariant, and the assert in this branch never fires |
| Normaliser.Rewind | sources/fusg-common/include/fusg/utils.h:123-130 | moving back to the previous slash drops exactly the last component |
| Normaliser.Release | sources/fusg-common/include/fusg/utils.h:145-148 | the overlapping forward copy appends the pending text unharmed and leaves everything unread as it was |
| Normaliser.Finish | sources/fusg-common/include/fusg/utils.h:192-217 | a trailing `/..` is carried out, the root keeps its slash, the result is terminated |
| Paths.CanonicalIffFixedPoint | sources/fusg-common/include/fusg/utils.h:60-218 | the canonical texts are exactly the fixed points of normalisation |
| Paths.NormaliseInSteps | sources/fusg-common/include/fusg/utils.h:105-217 | normalising what stands before a slash first changes nothing, failure included |
| Canonicity.FIsCanonical | sources/fusg-common/include/fusg/utils.h:277-320 | returns 1 if the text is `/` or slash-joined components other than empty, `.` and `..`, and 0 otherwise |
| Canonicity.CanonicalBySplit | sources/fusg-common/include/fusg/utils.h:267-275 | the canonical form in terms of the components between slashes |
| Canonicity.AbsoluteResult | sources/fusg-common/include/fusg/utils.h:60-218 | whatever fabsolute returns is canonical, NUL-free and fits the buffer |
| Canonicity.CanonicalIsFixed | sources/fusg-common/include/fusg/utils.h:60-218 | a canonical path is its own absolute path under any cwd |
| Canonicity.ImageIsCanonical | sources/fusg-common/include/fusg/utils.h:277-320 | the results of fabsolute are exactly what fiscanonical accepts, up to the buffer size |
| Canonicity.AbsoluteIdempotent | sources/fusg-common/include/fusg/utils.h:60-218 | fabsolute of its own result is that result |
| Canonicity.AbsoluteInSteps | sources/fusg-common/include/fusg/utils.h:67-217 | fabsolute(cwd, p1/p2) equals fabsolute(fabsolute(cwd, p1), p2), failure included |
| Canonicity.TrailingSlashes | sources/fusg-common/include/fusg/utils.h:73-78 | any number of slashes behind cwd makes no difference |
| AccessLaws.StepValid | sources/fusg-common/src/db.c:584-632 | every single table access, failed or not, keeps the cross-table invariant: injective forward tables, ids used once over both sides and below the counter, reverse tables inverse to forward ones, every row's ids resolvable |
| AccessLaws.StepKnows | sources/fusg-common/src/db.c:584-632 | what a call has learned so far (unused id, indexed paths) stays true until its next access |
| AccessLaws.StepGrows | sources/fusg-common/src/db.c:584-632 | compared with any earlier state no path loses or changes its id, and new ids were never handed out before |
| CallLaws.CallKeeps | sources/fusg-common/src/db.c:350-419 | db_update and db_fetch, whatever fails, keep the invariant and known ids, and move the counter by at most two |
| CallLaws.AllocationValidIff | sources/fusg-common/src/db.c:787-801 | handing out one more id keeps the invariant if and only if the counter is not at its maximum |
| CallLaws.FinishPaths | sources/fusg-common/src/db.c:619-632 | a call adds no path but its own two |
| CallLaws.UpdateRows | sources/fusg-common/src/db.c:350-391 | return code 0: exactly the row of the pair is counted up and no other row changes; any other code: no row changes |
| CallLaws.CountsKeptIff | sources/fusg-common/src/db.c:371-382 | a successful update builds on the row that was there if and only if the row fetch worked or the row had no counts |
| CallLaws.FetchRows | sources/fusg-common/src/db.c:393-419 | db_fetch changes no row and, if it returns 0, finds exactly the row of the pair |
| CallLaws.ReadOnlyFails | sources/fusg-common/src/db.c:619-632 | on a handle without DB_WRITE nothing changes and no call can get past its key; when a call succeeds is said by FetchSucceedsIff |
| CallCodes.CallCode | sources/fusg-common/src/db.c:350-419 | the return code of every call, from the tables it starts on and the answers it gets: -1 unless both halves of the key can be completed, then the code of the row store, or of the row fetch |
| CallCodes.UpdatePlusOneIff | sources/fusg-common/src/db.c:350-391 | db_update returns +1 exactly if the key works and gdbm_store refuses the row; its codes are -1, 0 and +1 |
| CallCodes.RefusedRow | sources/fusg-common/src/db.c:384-390 | an input on which db_update returns +1 |
| CallCodes.FetchSucceedsIff | sources/fusg-common/src/db.c:393-419 | db_fetch returns 0 exactly if both halves of the key can be completed, stores included, and the row fetch works |
| CallCodes.FetchSucceedsIffWritable | sources/fusg-common/src/db.c:619-632 | with working storage and a counter, db_fetch returns 0 exactly on a handle with DB_WRITE |
| CallCodes.ReaderMissesRow | sources/fusg-common/src/db.c:393-419 | a reader, a row that is there, no failure, and db_fetch returns -1 |
| CallCodes.ReadForgotten | sources/fusg-common/src/db.c:371-375 | an input on which db_update returns 0 and the row loses its counts |
| CallCodes.LastIdSpoils | sources/fusg-common/src/db.c:786-801 | with the counter at its maximum, a call that completes its key for a new executable leaves invalid tables |
| CallCodes.CounterWraps | sources/fusg-common/src/db.c:786-801 | an input on which this happens without any failure |
| Histories.RunKeeps | sources/fusg-common/src/db.c:350-419 | any run of updates and fetches with any failures keeps the invariant, only grows the indexes, and takes at most two ids a call |
| Histories.RunRepresents | sources/fusg-common/src/db.c:369-386 | if row fetches fail only for absence, the rows after any run are exactly those of the updates that returned 0: a row for each pair that occurs, with its flag counts modulo 2^64 and its latest time, and no other row |
| Histories.RowOfUpdate | sources/fusg-common/src/db.c:377-382 | counting one flag word up agrees with counting in the history |
| Histories.FetchTellsHistory | sources/fusg-common/src/db.c:393-419 | db_fetch of a pair that occurs returns its accumulated history |
| Histories.FetchFinds | sources/fusg-common/src/db.c:393-419 | what db_fetch finds is the row that the tables had for the pair before it |
| IdArithmetic.CounterCovers | sources/fusg-common/src/db.c:779-801 | the counter is at least the number of known paths, and equal exactly if every id below it is in use |
| IdArithmetic.CallDense | sources/fusg-common/src/db.c:584-605 | without failures a call returns 0 and leaves no id unused |
| IdArithmetic.RunDense | sources/fusg-common/src/db.c:779-801 | in runs without failures the ids in use are exactly 0 to counter - 1, split between executables and files, and every update counts |
| IdArithmetic.SentinelIffAbsent | sources/fusg-common/src/db.c:485-515 | the lookups return (uint64_t)-1 exactly if the path is unknown |
| Persistence.StoppedSyncResolves | sources/fusg-common/src/db.c:280-293 | wherever a sync stops, every row on disk resolves through the reverse tables on disk, to the names it has in memory |
| Persistence.StoppedSyncValidIff | sources/fusg-common/src/db.c:280-293 | the files after a stopped sync are valid exactly if it did not stop between new ids and the counter |
| Persistence.RunSound | sources/fusg-common/src/db.c:334-391 | after any run of calls, whatever failed, the files lag behind memory, event rows only while dirty is set, and nothing lags if every unlock syncs |
| Persistence.NothingNewIffWritten | sources/fusg-common/src/db.c:295-305 | with all rows on disk, files and memory differ exactly in new ids and new reverse entries |
| Flushing.RunLeavesIff | sources/fusg-common/src/db.c:393-419 | without failures, a run of fetches changes no table exactly if all its paths were known |
| Flushing.RunThenFlush | sources/fusg-common/src/db.c:295-305 | from one sync to the next flush, without failures: the files are up to date exactly if every unlock syncs, or some call was an update, or no fetch met a new path |
| Flushing.FetchedIdNotFlushed | sources/fusg-common/src/db.c:295-305 | an input on which db_flush leaves the files behind |
| Flushing.SyncDiesEarly | sources/fusg-common/src/db.c:280-293 | an input on which an interrupted sync leaves invalid files |
| Database.Db.Create | sources/fusg-common/src/db.c:220-230 | a new database starts with counter 0, empty tables, and files equal to memory |
| Database.Db.Attach | sources/fusg-common/src/db.c:143-230 | an opened database starts as its files are, locked once and unlocked again |
| Database.Db.Open | sources/fusg-common/src/db.c:93-237 | when db_open returns NULL, from what it finds and what fails, and the handle it returns otherwise: the files as they are, or a new database for a writer |
| Database.Db.Lock | sources/fusg-common/src/db.c:308-320 | recursive: the flock is held, in the mode of the handle, exactly while the depth is positive |
| Database.Db.Unlock | sources/fusg-common/src/db.c:322-347 | only the outermost unlock syncs (with DB_WRITE and DB_SYNC) and gives the lock back; one too many is ignored |
| Database.Db.SyncTables | sources/fusg-common/src/db.c:280-293 | wherever it stops, the files are those of `Synced` for the syncs made; only a complete sync clears dirty |
| Database.Db.Flush | sources/fusg-common/src/db.c:295-305 | afterwards the rows are on disk; all tables are, exactly if dirty was set or no counter and no reverse entry is new |
| Database.Db.FetchStrLong | sources/fusg-common/src/db.c:722-740 | finds the id if the access works and the key is there; a NULL with gdbm_errno not-found means absence, any other a failure |
| Database.Db.IdNext | sources/fusg-common/src/db.c:786-801 | hands out the counter and stores its successor modulo 2^64 |
| Database.Db.StoreStrLong | sources/fusg-common/src/db.c:692-720 | replaces one forward entry, or changes nothing and returns -1 |
| Database.Db.StoreLongStr | sources/fusg-common/src/db.c:742-748 | replaces one reverse entry, or changes nothing and returns -1 |
| Database.Db.GetOrCreateUniqueId | sources/fusg-common/src/db.c:583-605 | performs exactly the accesses from looking a path up to having its id, or ends the call with -1 |
| Database.Db.GetFusgKey | sources/fusg-common/src/db.c:619-632 | performs exactly the accesses that produce the row key, or ends the call with -1 |
| Database.Db.EvntFetch | sources/fusg-common/src/db.c:634-651 | finds the row if the access works and the row is there |
| Database.Db.Update | sources/fusg-common/src/db.c:350-391 | tables and return code are those of the undisturbed call; depth is restored; files follow if every unlock syncs, otherwise a changed row implies dirty; keeps the relation of files and memory |
| Database.Db.Fetch | sources/fusg-common/src/db.c:393-419 | tables and return code are those of the undisturbed call; with code 0 the caller's buffer holds the row the pair had before the call, or is left alone if it had none; with any other code it is left alone |
| Fetching.FetchHistory | sources/fusg-common/src/db.c:393-419 | the buffer gets the accumulated history of the pair, exactly if the code is 0 and the pair occurs in the history |
| Fetching.FetchesRow | sources/fusg-common/src/db.c:413-415 | a writer asks for a row that is there and gets it |
| Database.Db.LookUpId | sources/fusg-common/src/db.c:485-515 | the id of the path, or the sentinel |
| Database.Db.LookUpPath | sources/fusg-common/src/db.c:751-775 | the name of the id; -1 if unknown; the buffer size if the name and its NUL do not fit |
| HandleLaws.DoKeeps | sources/fusg-common/src/db.c:308-419 | every step of any handle keeps the global invariant |
| HandleLaws.RunInvariant | sources/fusg-common/src/db.c:308-419 | the invariant holds in every reachable state, with the returned calls replayed in order as its base |
| HandleLaws.RunSafe | sources/fusg-common/src/db.c:308-347 | in every interleaving: one writer and no other holder, or only readers; and the cross-table invariant at every moment |
| HandleLaws.RunSerial | sources/fusg-common/src/db.c:350-419 | calls are serialisable: tables and results are those of the calls one after the other in the order they return |
| HandleLaws.RunSnapshot | sources/fusg/src/search.c:74-104 | while a loop runs, for one id or for all rows, nothing changes and its tables are those of the returned calls; the id is that of its path; nested lookups never give up the lock and never miss; at its end it has reported each row asked for once |
| HandleLaws.RunIdsStay | sources/fusg/src/search.c:74-95 | an id looked up before a scan is still the id of that path during it and ever after |
| HandleLiveness.RunEnables | sources/fusg-common/src/db.c:308-320 | in every reachable state an idle handle gets the lock, or can start a call or a scan, exactly if every other handle inside a lock is a reader and, for a writer, there is none |
| HandleLiveness.CallCompletes | sources/fusg-common/src/db.c:350-419 | in every reachable state where the lock is free for it, a handle can run any call to its end, with the effect it has alone |
| HandleLiveness.QueryCompletes | sources/fusg/src/search.c:74-104 | likewise a query about any known path, from the lookup of its id to its last line |
| HandleLiveness.ReadersShare | sources/fusg-common/src/db.c:308-320 | a run in which two readers hold the lock together |
| HandleLiveness.WriterUpdates | sources/fusg-common/src/db.c:350-391 | a run in which a writer beside a reader completes an update that counts |
| ConcurrentReports.RunReports | sources/fusg/src/search.c:74-104 | a query interleaved with any other handles reports what the sequential search reports about the tables that the returned calls have led to |
| ConcurrentReports.RunTellsHistory | sources/fusg/src/search.c:74-104 | so its lines and its summary are those of the updates that have returned 0, whatever failed but row fetches |
| ConcurrentReports.RunDumps | sources/fusg/src/search.c:224-242 | the dump interleaved with any other handles is the dump of the updates that have returned 0 |
| HandleRefinement.CallTracks | sources/fusg-common/src/db.c:350-419 | db_update and db_fetch of the class do what Begin, the single accesses and Return of a handle do |
| HandleRefinement.LockTracks | sources/fusg-common/src/db.c:308-320 | db_lock of the class is the Lock action of a handle |
| HandleRefinement.UnlockTracks | sources/fusg-common/src/db.c:322-347 | db_unlock of the class is the Unlock action of a handle |
| HandleRefinement.LearnTracks | sources/fusg-common/src/db.c:485-515 | an id lookup of the class is Lock, Learn and Unlock of a handle |
| HandleRefinement.FirstTracks | sources/fusg-common/src/db.c:422-435 | a new iterator stands where a started scan stands |
| HandleRefinement.FetchTracks | sources/fusg-common/src/db.c:451-466 | the fetched row is the one the scan has read |
| HandleRefinement.LookUpTracks | sources/fusg-common/src/db.c:477-513 | a name lookup is the scan's lock, read and unlock, with the same name |
| HandleRefinement.NextTracks | sources/fusg-common/src/db.c:468-474 | the iterator moves as the scan moves |
| HandleRefinement.ReleaseTracks | sources/fusg-common/src/db.c:437-449 | releasing the iterator ends the scan |
| Totals.StatsTotal.Add | sources/fusg-common/include/fusg/db.h:54-62 | adds the counters with wrap-around and keeps the later time |
| Totals.AddedUpIsTotal | sources/fusg-common/include/fusg/db.h:54-62 | in any order, adding up the rows of a set gives its sums modulo 2^64 and its latest time |
| Search.Iterator.First | sources/fusg-common/src/db.c:422-435 | takes the lock and stands on some key, or at the end if there is no row |
| Search.Iterator.Fetch | sources/fusg-common/src/db.c:451-466 | 0 exactly if the access works; the row if it is there, otherwise the buffer stays as it was, also with code 0 |
| Search.Iterator.Next | sources/fusg-common/src/db.c:468-474 | moves to a key not visited yet; -1 exactly after the last |
| Search.Iterator.Release | sources/fusg-common/src/db.c:437-449 | gives back the one lock the iterator took |
| Search.Collect | sources/fusg/src/search.c:86-104 | the loop reports exactly the rows of one id, each once, with name and total; its asserts never fire |
| Search.SearchSingle | sources/fusg/src/search.c:48-110 | search_files_single and, for the other side, search_execs_single: the report of the path's rows, or nothing and ERR_USAGE or 0 for an unknown path |
| Search.DumpAll | sources/fusg/src/search.c:205-247 | every row once, with both names, and the total of all rows |
| DumpLaws.ReportDump | sources/fusg/src/search.c:224-242 | the dump of tables that represent a history has one line for every pair of the history, under both its names and with its row, and no other line |
| DumpLaws.DumpTime | sources/fusg/src/search.c:241 | with nondecreasing timestamps the time of the dump is that of the last update |
| DumpLaws.DumpHistory | sources/fusg/src/search.c:224-242 | lines and totals of the dump after any run of calls, from the updates that returned 0 |
| DumpLaws.EventsToDump | sources/fusg/src/search.c:205-247 | lines and totals of the dump as functions of the event stream |
| Conservation.SummariesMatchDump | sources/fusg/src/search.c:86-104 | the totals of all executables add up to the dump total, and so do those of all files |
| Conservation.RunCounts | sources/fusg/src/search.c:86-104 | the total of a query is the number of successful updates it is about that carry the flag |
| Conservation.DoubleCounting | sources/fusg/src/search.c:224-242 | executables, files, dump and history agree counter by counter |
| QueryLaws.RunNamesFit | sources/fusg/src/search.c:86-96 | after any run with short paths every name lookup of a search succeeds and fits |
| QueryLaws.SummaryTime | sources/fusg-common/include/fusg/db.h:61 | with nondecreasing timestamps the summary time is that of the latest update of the path |
| Store.FusgEvent.ParseSyscall | sources/fusgd/src/store.c:80-139 | succeeds exactly if there are fields, every status is yes or no, and the last exe field has a value; then holds that executable and the last status |
| Store.FusgEvent.ParseCwd | sources/fusgd/src/store.c:142-175 | the first cwd field, unless a wrong type comes first |
| Store.FusgEvent.ParsePath | sources/fusgd/src/store.c:179-248 | the last name field and the flags of all nametype fields, a read if there are none; fails on a wrong type or a missing name |
| Store.StorePathRecord | sources/fusgd/src/store.c:305-330 | a PATH record leads to exactly the update its event prescribes, or to none |
| Store.StoreRecords | sources/fusgd/src/store.c:286-333 | the record loop makes exactly the calls of the records it processes and stops where it has to |
| Store.StoreEvent | sources/fusgd/src/store.c:251-338 | tables, return code and the count of stored events after one event, under any storage failures; files and mark follow its calls, and a consistent handle stays consistent |
| Store.HandleEvents | sources/fusgd/src/work.c:154-182 | the tables, files and mark after a stream of events; a consistent handle stays consistent |
| EventLaws.UpdateIff | sources/fusgd/src/store.c:305-330 | a PATH record stands for exactly the update its fields describe: the executable of the last exe field of the last SYSCALL record before it, the path that its last name field means in the first cwd field of the last CWD record before it, counted by its nametypes |
| EventLaws.EventCallsDescribed | sources/fusgd/src/store.c:286-333 | every update an event leads to, whatever fails, is described in this way by one of its records |
| EventLaws.FailedSyscallStoresNothing | sources/fusgd/src/store.c:291-297 | an event whose first record does not report success stores nothing |
| SingleFile.StoreOneFile | sources/fusgd/src/store.c:251-338 | for all executables, directories, names, nametypes and statuses: the event of one file access leaves exactly one row, of that executable and the normal form of the name in the directory, counting what its nametype says; or none |
| EndToEnd.EventChanges | sources/fusgd/src/store.c:251-338 | without failures an event leads to exactly the updates of the PATH records it reaches |
| EndToEnd.StreamCounts | sources/fusgd/src/store.c:288-333 | the counts of a pair in the updates of a stream are counts of PATH records |
| EndToEnd.EventsToRows | sources/fusgd/src/store.c:179-338 | without failures the rows after any stream are exactly the record counts of each pair modulo 2^64 |
| EndToEnd.NothingWrites | sources/fusgd/src/store.c:210-245 | no PATH record ever counts as a write |
| Reporting.SearchesNeverAssert | sources/fusg/src/search.c:86-96 | in every state that events can lead to, whatever fails, the asserts of the search loops cannot fire |
| Reporting.ReportLines | sources/fusg/src/search.c:86-104 | a report has one line for every pair of the path in the history, with that pair's row, and no other |
| Reporting.ReportHistory | sources/fusg/src/search.c:86-104 | lines and summary of a query after any run of calls, from the updates that returned 0 |
| Reporting.EventsToReport | sources/fusg/src/search.c:48-110 | lines and summary of a query as functions of the event stream |
| Pipeline.PathKnownIff | sources/fusgd/src/store.c:251-338 | without failures a path has an id exactly if some update of the stream is about it |
| Pipeline.RunDaemon | sources/fusgd/src/work.c:146-147 | after the stream and the last flush the files hold all rows under their names, whatever failed; without failures they are the tables |
| Pipeline.DaemonThenQuery | sources/fusg/src/search.c:48-110 | the whole answer of a query in another process, for known and unknown paths, as a function of the event stream that the daemon stored and flushed |
| Pipeline.DaemonThenDump | sources/fusg/src/search.c:205-247 | the dump by another process, as a function of the event stream that the daemon stored and flushed |
| ConfGrammar.ParseIffGrammar | sources/fusg-common/src/conf.c:172-205 | a line is read as a setting exactly if the grammar derives it: name, `=`, value, optional comment, a space after a bare name |
| ConfGrammar.BlankIffBlankLine | sources/fusg-common/src/conf.c:174-180 | a line is ignored exactly if it is white space and perhaps a comment |
| ConfGrammar.GrammarParses | sources/fusg-common/src/conf.c:59-111 | every line of the grammar is read as it spells, escapes kept as written |
| ConfGrammar.StaysInside | sources/fusg-common/src/conf.c:65-72 | only a line that ends in a backslash can take a quoted token past its end |
| Conf.SkipWhiteIn | sources/fusg-common/src/conf.c:52-57 | stops at the first character that is not white space |
| Conf.TokenString | sources/fusg-common/src/conf.c:59-83 | ends the token at its delimiter with one NUL; without a delimiter neither buffer nor line change |
| Conf.TokenIn | sources/fusg-common/src/conf.c:86-111 | the token as a C string in the buffer; what lies before and behind it is as it was |
| Conf.LineEnd | sources/fusg-common/src/conf.c:113-133 | NULL exactly at the end, a newline or a comment |
| Conf.Consume | sources/fusg-common/src/conf.c:137-145 | one given character, if it is there |
| Conf.FusgConf.Init | sources/fusg-common/src/conf.c:30-35 | the defaults |
| Conf.FusgConf.Property | sources/fusg-common/src/conf.c:148-169 | sets the named property, or changes nothing and returns -1 |
| Conf.ParseLine | sources/fusg-common/src/conf.c:172-205 | the in-place tokenizer does to the settings what the parser says, the name being intact when it is used |
| Conf.FGets | sources/fusg-common/src/conf.c:217-220 | delivers the next piece of the file as a C string |
| Conf.FusgConfRead | sources/fusg-common/src/conf.c:208-231 | the settings and code after reading a file line by line from the defaults |
| ConfLaws.AcceptedIffGrammar | sources/fusg-common/src/conf.c:172-205 | a line is accepted exactly if it is blank, or a setting of the grammar for a known name |
| ConfLaws.LastSettingWins | sources/fusg-common/src/conf.c:208-231 | a file is read without error exactly if every line is accepted; then the last setting of each property wins over the default |
| ConfLaws.RefusedEnds | sources/fusg-common/src/conf.c:220-227 | the first refused line ends the reading, with the settings made before it |
| ConfLaws.ReadsBack | sources/fusg-common/src/conf.c:59-231 | lines that print every property, in any quotes, with any white space and comments, are read back as the configuration |
| ConfLaws.ChunksAreLines | sources/fusg-common/src/conf.c:217-220 | lines under 2048 characters are delivered whole |
| ConfLaws.PrintRoundTrip | sources/fusg-common/src/conf.c:208-231 | printing a configuration and reading it back yields it |
| RemoveTree.NameList.Add | sources/fusg-common/include/fusg/utils.h:374-380 | the doubling array always has room for the next name |
| RemoveTree.Gather | sources/fusg-common/include/fusg/utils.h:362-386 | the names of the stream but the dot names are gathered, exactly if no call fails |
| RemoveTree.KeptEntries | sources/fusg-common/include/fusg/utils.h:364-373 | they are the entries of the directory, each once |
| RemoveTree.RemoveAll | sources/fusg-common/include/fusg/utils.h:389-406 | on 0 everything below every entry is gone, all names fit and no call failed; otherwise a failed call or a too long name explains it; in any case only things below the directory are gone |
| RemoveTree.TextGrows | sources/fusg-common/include/fusg/utils.h:391-394 | the name made of a path and an entry takes the path, a slash and the entry |
| RemoveTree.FRemoveR | sources/fusg-common/include/fusg/utils.h:329-419 | terminates; returns 0 exactly if the path exists, all names below it fit and no call fails for reasons of its own; then exactly the path and what is below it are gone; on any return nothing else has changed |

## Left out

- gdbm itself: hashing, file formats, memory mapping and caches; a file is what its last sync wrote.
- HandleLaws.RunSafe: all handles work on one set of tables; that one process sees another's unsynced changes is not modelled.
- HandleLaws.RunSafe: flock is assumed to succeed; the code raises the depth even when it fails.
- HandleLaws.RunInvariant: runs shorter than the distance of the counter to 2^64; beyond it the counter can wrap.
- Database.Db.Lock: the depth is unbounded, not an `int`.
- Search.Iterator.Release: one release for each iterator; the source passes it by value and would unlock again on a second one.
- Database.Db.Open: how `stat` and `mkdir` come to their outcomes, which are parameters; files left by a failed opening; `db_close`.
- Normaliser.FAbsolute: a relative path with a working directory that is relative, empty or too long for the buffer; errno.
- Canonicity.FIsCanonical: texts longer than INT_MAX.
- Store.StoreEvent: events whose working directories are not absolute, `nametype` fields without a value, and SYSCALL records whose type field says something else (the source asserts or crashes); the syscall number, which nothing reads.
- Store.HandleEvents: libauparse, `select`, signals, the feed loop, statistics messages.
- Search.SearchSingle: realpath and the printing; fetches during a search are assumed to work.
- Conf.ParseLine: a line that makes a quoted token run past the end of its text.
- Conf.FusgConfRead: NUL characters in the file, error messages and line numbers.
- RemoveTree.FRemoveR: the root directory, symbolic links, changes made by others meanwhile, a failing `realloc`, and an `int` overflow of the array capacity.
- `frealpath`, `fwhich`, `mkdir_p`, `ptime`, logging, tracing, `system.c`, option parsing and the install scripts: input and output, or easy members.
- The reserved field of a row, which nothing reads.
