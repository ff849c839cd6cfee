# bxdb in Dafny

bxdb is a versioned store for 4 KB memory pages. A save takes a memory image, a
snapshot id and (in one form) a dirty bitmap; a load of (physical address,
snapshot id) returns the newest version of that page at or below the snapshot.
On disk a database is a log or a sorted index of chunk records plus one blob
file per worker. A record is Zero, Full (a compressed page) or Delta (an XOR
patch over an earlier Full page of the same address).

This project models the write path, the read path, the offline tools and the
shared cache, down to bytes, and proves one refinement about them: the abstract
state is the history of saves, the concrete state is log, index, headers, blob
files and the open handle's shadow, and after every run a load agrees with the
history. `Refinement.RunRefines` and `ReadsAreCorrect` are that theorem over all
runs; `Loads` says what it means where an index has become stale and where a
handle still buffers; `EndToEnd` has the same for the imperative code over the
directory's bytes, from saving to loading.

## How the parts fit

| file | contents |
|---|---|
| `Words`, `Chunk`, `Patch` | little-endian fields, bit tricks, key packing, record codecs, XOR patches |
| `Formats` | the on-disk layouts byte by byte, and which bytes the readers accept |
| `Index` | the reference floor query, stable sort and dedup, the three implementations of the floor |
| `Store`, `Reader` | what records and blobs mean, and the reader class that computes it |
| `Bitmap`, `SavePhase` | the dirty scan with its prefix sums; the parallel phase of a save as a step relation |
| `Database`, `SaveStep`, `Refinement` | the abstract and the concrete machine and the proof that one refines the other |
| `Sessions` | what the calls made so far decide: ids taken, pages added, kinds of records |
| `AppendOnlyDb` | the write handle as a class, refining the concrete machine |
| `Convert`, `Purge`, `RawConvert` | the offline tools |
| `BulkLoad` | loading a range of pages by several workers |
| `Cache`, `SharedCache`, `CachedReader` | the set-associative cache, and many readers sharing it |
| `Sync`, `Invariants` | how index and log relate, and what else every reachable state keeps |
| `Loads` | what loads give in every reachable state: stale indexes, buffered blobs |
| `EndToEnd`, `Counterexamples` | statements that span the whole stack, on bytes; runs on which a documented promise fails |

Concurrency is a step relation. A page job of a save has four atomic steps:
decide on a kind by reading the shadow, append to the blob file under its
mutex, publish to the shadow, write the record slot. Any enabled step of any job
may come next, so the runs include every schedule of the thread pool, and more,
because the source runs the jobs of one group in order. Each theorem about a
save holds for all of these. Readers that share a cache, and the workers of a
bulk load, are treated in the same way.

## Assumptions

- Compression is a parameter: a pair of functions with decompress(compress(p)) =
  p and 0 < length < 2^32 for every page (`Store.CodecOk`).
- All input and output succeeds. Files are byte sequences; blob files are a map
  from worker id to bytes. An empty log file and a missing one are the same case.
- Blob writers buffer: after a save any part of what it appended may have reached
  the files, and all of it has after `flush` or closing. The log is complete after
  a save, because seeking to its header empties its buffer.
- Saved addresses are below 2^45, because packing shifts higher bits out, and a
  bitmap save covers at most 2^44 pages, because group numbers are cast to 32
  bits (`Database.RequestFits`). Loads take any address.
- The statements about files' bytes need blob files shorter than 2^64 bytes
  (`EndToEnd.FilesFit`).
- There is one write handle at a time, and none is open during a conversion or a
  purge. Index and log are not assumed to agree: after a conversion and further
  saves the index is stale. It then still holds exactly the log's records up to
  its header (`Sync.RunSync`).
- The standard library's stable sort, `dedup_by_key`, `partition_point` and
  slice `binary_search` are modelled as functions with the documented meaning;
  sorted keys make the exact search the first match.
- `load_all_pages` writes into one cell per page, already cleared.

A snapshot id counts as used as soon as the id check passes, before the length
checks, so a rejected call blocks a retry with the same id on that handle; the
model keeps this.

## Where code and documentation differ

- doc/architecture.md describes workers that own blob files and a work queue;
  the code picks the file by `pa % blob_count` and guards it with a mutex. The
  model follows the code.
- A load is documented to find the newest version at or below the request. With a
  stale index it finds the newest up to the index header
  (`Counterexamples.StaleIndexHidesSave`; what it gives in `Loads.LoadsFollowLog`,
  exact condition in `Loads.LoadsFreshIff`).
- A save is documented to flush before it returns, and loading on the same handle
  is part of the interface. The code leaves blobs in their writers' buffers, so such
  a load can run out of the file (`Counterexamples.UnflushedLoadFails`; exact
  condition in `Loads.LoadRightIff`, always right after a flush or closing by
  `Loads.NothingBuffered`).
- `to_log` rewrites the log from the index. What was saved after the conversion is
  lost (`Counterexamples.ToLogDropsSave`; exact condition in `Loads.ToLogKeepsIff`).
- `purge` is documented to remove all records and blobs above the threshold. Two
  things can stay. Zero records carry worker id 0, so worker 0's file is neither cut
  nor removed when only Zero records are kept for it
  (`Counterexamples.ZeroRecordsKeepGarbage`; exact condition in
  `Invariants.PurgedBytesStayIff`). And with a stale index whose header is not
  above the threshold nothing is removed, although the log may hold later records
  (`Counterexamples.StaleIndexHidesPurge`; exact condition in
  `Invariants.PurgeReachesLogIff`), against the comment in purge.rs that both
  formats represent the same record set.
- The raw converter takes records from the log but looks bases up in the index if
  there is one. After an index has become stale, a Delta written since has no base
  there, and the conversion stops before that snapshot
  (`Counterexamples.StaleIndexStopsReplay`; exact condition and what is emitted in
  `EndToEnd.ReachableReplay`).
- `open` does not look at the log's body. Behind a partial record at its end,
  which every reader takes for the end of the file, appended records are read from
  the wrong place; `Chunk.AppendsCleanlyIff` gives the exact condition.
- doc/cache.md says that multiplying by the Fibonacci constant, rather than taking
  the page id modulo the number of sets, avoids hot spots for sequential ids. The
  code takes the low bits of the product, so two keys share a set exactly when they
  agree modulo the number of sets (`Cache.SameSetIff`). The low bits of a key are its
  snapshot, so all pages of one snapshot compete for one set of sixteen ways
  (`SharedCache.SetOfSnapshot`, `SharedCache.SixteenPerSnapshot`).
- A conversion to raw that stops at snapshot 0 names 0 in raw-meta although it has
  emitted no file (`RawConvert.EmittedFiles`).

## Model

| member | source | states |
|---|---|---|
| Refinement.ReadsAreCorrect | bxdb-core/src/append_only.rs:333-502 | After every run of opens, flushes, closes, saves of both kinds (any interleaving of page jobs), `to_btree`, `to_log` and purges, over all that was appended, loading (pa, snap) gives exactly the page of the newest save, among those behind the file readers go by (the index if there is one, else the log), with id at most snap that had pa dirty, `None` when there is none, and an error exactly for a missing database or a snapshot id over 19 bits |
| Loads.LoadsFollowLog | bxdb-core/src/btree.rs:171-204 | In every reachable state, in terms of the saves behind the log: a load gives the newest that had the page dirty at or below both the request and, if there is an index, its header |
| Loads.LoadsFreshIff | bxdb-core/src/btree.rs:171-231 | A load goes by the log's floor record if and only if there is no index or the log has no record of the page between the index header and the request |
| Loads.LoadOnDisk | bxdb-core/src/btree.rs:267-345 | On the files as found on disk while a handle is open: a load gives what it gives once all is written out if the ranges of its floor record and of that record's base are, and otherwise fails as out of range |
| Loads.LoadRightIff | bxdb-core/src/append_only.rs:223-232 | Hence a load finds what is promised if and only if all it reads has left the writers' buffers |
| Loads.NothingBuffered | bxdb-core/src/append_only.rs:223-232 | After a flush, and whenever no handle is open, the files hold all that was appended |
| Loads.ToLogKeepsIff | bxdb-core/src/convert.rs:54-108 | In every reachable state `to_log` writes the log's records up to the index header, which are all of them if and only if the log's header is not above the index's |
| Loads.ResolveConsulted | bxdb-core/src/btree.rs:311-345 | Through the records a store goes by, over any blob files, a record of the log resolves as through the log, except that a Delta later than a stale index has no base |
| Loads.ConsultedFloor | bxdb-core/src/btree.rs:217-231 | The floor record a load goes by is the log's, at the lower of the request and the index header |
| Refinement.RunRefines | bxdb-core/src/append_only.rs:143-502 | Every reachable database is related to the abstract history machine run on the same operations |
| Refinement.StepRefines | bxdb-core/src/append_only.rs:143-502 | One operation of any kind, in any related pair of states, keeps the relation |
| Refinement.SaveRefines | bxdb-core/src/append_only.rs:234-502 | A save, whatever its schedule, adds exactly the pages its request asks for to the history (which they are, with which bytes, is in `Database.JobsExact` and `Sessions.LogAfterSave`); a rejected or empty save only moves the last snapshot id |
| Refinement.OpenRefines | bxdb-core/src/append_only.rs:143-217 | Opening or reopening, with any worker count, threshold and shadow setting, keeps the history and takes the last id from the header of an existing log |
| Sessions.IdAcceptedIff | bxdb-core/src/append_only.rs:240-256 | In every run an open handle takes an id if and only if it is below 2^19, above every save of the log it opened (and above 0 if there was a log), and above every id offered to it since, refused and empty calls included; otherwise the error tells which |
| Sessions.LogAfterSave | bxdb-core/src/append_only.rs:234-502 | After a save call, for every page and snapshot: a page the request includes is, from the save's id on, its own 4096 bytes of the memory; all else, and everything after a refused call, is as before |
| Sessions.HandleConfig | bxdb-core/src/append_only.rs:143-160 | In every reachable state an open handle has the worker count, threshold and shadow flag of the call that opened it, a threshold of 0 standing for 256 |
| Sessions.SavedKinds | bxdb-core/src/append_only.rs:715-759 | In every reachable state, after an accepted save on an open handle: the log has grown by one record per page asked for, in order; each is Zero exactly for a page of zeros, else Delta exactly when the handle was opened with the shadow and the page differs from its shadow entry in at most the caller's threshold of 8-byte words, else Full; a stored blob lies in file pa % workers |
| Refinement.FlushRefines | bxdb-core/src/append_only.rs:223-232 | Writing out the buffers changes nothing in the history |
| Refinement.PurgeRefines | bxdb-core/src/purge.rs:24-71 | A purge on disk matches dropping the saves above the threshold from the history, also when the index is older than the log |
| Refinement.ToBtreeGood | bxdb-core/src/convert.rs:13-52 | The index built from a good log represents the same history, strictly sorted, with the right header |
| Refinement.ToLogGood | bxdb-core/src/convert.rs:54-108 | The log built from a good index represents the same history, in log order |
| Refinement.PurgeGood | bxdb-core/src/purge.rs:24-71 | The kept records over the cut blob files represent the history up to the threshold, and nothing is removed exactly when no save is later |
| Refinement.ReadRefines | bxdb-core/src/btree.rs:397-424 | In related states a reader's load equals what the abstract history promises |
| Refinement.HeaderIsLast | bxdb-core/src/append_only.rs:495-500 | The header of a good table is the id of the newest save, 0 when there is none |
| Refinement.SaveHappens | bxdb-core/src/append_only.rs:445-489 | In every good state a save has an outcome: its jobs can be carried to their end |
| Refinement.EveryRunHappens | bxdb-core/src/append_only.rs:143-502 | Every sequence of operations leads to some database, so no statement about all runs is empty |
| EndToEnd.LoadFromDirectory | bxdb-core/src/btree.rs:167-204 | Opening the bytes found on disk in any reachable state and loading one page gives what is promised (the page and true, false with the buffer untouched, or the error with the buffer untouched), or the out-of-range error when it needs bytes an open handle still buffers |
| EndToEnd.SaveToDirectory | bxdb-core/src/append_only.rs:143-502 | Opening the bytes of any reachable directory with the write handle, saving all pages or by bitmap and closing leaves exactly the files of the machine's next state |
| EndToEnd.SaveAndLoad | bxdb-core/src/append_only.rs:234-502 | From bytes to bytes and back, for a save of all pages and for one by bitmap: after success into a directory without an index, loading a page the request includes at that snapshot returns true and puts byte i of the page, `memory[4096 * pa + i]`, into byte i of the buffer |
| EndToEnd.SavedPageReads | bxdb-core/src/append_only.rs:234-502 | In the history, for either kind of save: a page just saved reads back byte for byte at its snapshot |
| EndToEnd.SaveReturns | bxdb-core/src/append_only.rs:240-267 | What a save call returns, in every run: too large an id, an id not above all used ones, a memory that is not 4096 bytes a page, too short a bitmap, 2^32 dirty pages or more, checked in this order, and success otherwise |
| EndToEnd.ReachableFits | bxdb-core/src/chunk.rs:62-99 | Every record a run produces fits its on-disk fields as long as blob files stay below 2^64 bytes, and the index is strictly sorted |
| EndToEnd.ReachableRoundTrip | bxdb-core/src/convert.rs:13-108 | For every log a run can produce, `to_btree` then `to_log` gives back the identical bytes, header included |
| EndToEnd.ToBtreeOnFiles | bxdb-core/src/convert.rs:13-52 | On bytes, `to_btree` of a reachable log writes exactly the index file of the next machine state |
| EndToEnd.ToLogOnFiles | bxdb-core/src/convert.rs:54-108 | On bytes, `to_log` of a reachable index writes exactly the log file of the next machine state |
| EndToEnd.PurgeOnFiles | bxdb-core/src/purge.rs:24-71 | On bytes, a purge of a reachable directory succeeds, writes exactly the files of the purged machine state, and returns the number of records of its source later than the threshold |
| EndToEnd.ReachableReplay | bxdb-core/src/bin/convert_to_raw.rs:137-294 | On every reachable directory whose image is large enough the converter meets no panic; it runs to the end if and only if no Delta of the log is later than the index header and nothing a record needs is still buffered; it otherwise stops at the snapshot of such a record; and at every snapshot up to the end, or below the stop, a backward search of the chain gives the newest saved page, zeros where there is none; a finished run names the newest save in raw-meta, or 0, and has a file for exactly snapshot 0 and each save, holding just the pages saved then; a stopped run names the snapshot before the one it stopped at and has no file from there on |
| EndToEnd.ReplayDirectory | bxdb-core/src/bin/convert_to_raw.rs:137-294 | The same for the streaming loop over the bytes found on disk, the store opened with the index preferred; the value raw-meta names included |
| EndToEnd.LoadAllFromDirectory | bxdb-core/src/append_only.rs:504-570 | A bulk load of the bytes found on disk in any reachable state, by any number of workers, succeeds if and only if nothing it needs is still buffered; it then gives every page as promised and true exactly when all are; otherwise it fails as out of range |
| Invariants.ReachableLogOrder | bxdb-core/src/append_only.rs:246-256 | In every reachable state the log is strictly increasing in (snapshot, PA), its keys are unique, dedup changes nothing, and the header is the maximum snapshot over the records (0 when empty) |
| Invariants.ReachableDeltas | bxdb-core/src/append_only.rs:731-742 | In every reachable state a Delta's base key names a Full record of the log with the same PA, a strictly smaller snapshot and the same worker file, which decompresses: one hop always suffices |
| Invariants.ReachableShadow | bxdb-core/src/append_only.rs:744-759 | In every reachable state each shadow entry names a Full record of its page that this session wrote, holding exactly the shadowed bytes, and with the shadow on no Full of the session is newer |
| Invariants.ShadowKnowsIff | bxdb-core/src/append_only.rs:754-756 | In every reachable state with the shadow on, a page has a shadow entry if and only if the session wrote a Full record for it |
| Invariants.RunTiles | bxdb-core/src/append_only.rs:445-489 | Along every run that never drops records, all blob files stay exactly tiled by the log's records |
| Invariants.CleanRunLayout | bxdb-core/src/append_only.rs:761-771 | On such databases blobs lie in snapshot order without overlap and each worker file is exactly its records' blobs |
| Invariants.PurgeAfterCleanRun | bxdb-core/src/purge.rs:24-71 | After a purge of a database that never dropped records, with no index, a current or a stale one, a remaining file is exactly the blobs of the records left in the log if and only if nothing is removed, or a record up to the threshold has its blob in it, or it was empty before |
| Invariants.PurgedBytesStayIff | bxdb-core/src/purge.rs:115-142 | In every reachable state, for a purge that removes something: a byte of a removed record stays in a blob file if and only if the file is worker 0's, no record up to the threshold has its blob there, and some record up to the threshold is Zero |
| Invariants.PurgedLog | bxdb-core/src/purge.rs:38-71 | In every reachable state a purge that removes anything leaves in the log exactly its records up to the threshold, whichever file it read |
| Invariants.PurgeReachesLogIff | bxdb-core/src/purge.rs:38-52 | In every reachable state no record above the threshold is left in the log if and only if there is no index, or its header is above the threshold, or the log's is not |
| Invariants.PurgeThenRead | bxdb-core/src/purge.rs:24-71 | In every reachable state a load after the purge equals the load before it at min(snap, threshold), whichever file readers go by |
| Invariants.PurgeTwice | bxdb-core/src/purge.rs:24-71 | Purging any directory a second time at the same threshold changes nothing |
| Sync.RunSync | bxdb-core/src/convert.rs:13-52 | In every reachable state the index holds exactly the log's records up to its header, Deltas above it have their bases above it, and so has all an open session wrote |
| Sync.IndexLookup | bxdb-core/src/btree.rs:233-246 | In every reachable state the index finds a key as the log does up to its header, and nothing beyond |
| Sync.KeptAlike | bxdb-core/src/purge.rs:38-48 | Below the index header, purging by the index keeps what purging by the log would |
| Counterexamples.StaleIndexStopsReplay | bxdb-core/src/bin/convert_to_raw.rs:218-227 | For every compressor there is a run after which the raw converter stops short: a page saved twice after an index was made |
| Counterexamples.StaleIndexHidesPurge | bxdb-core/src/purge.rs:38-52 | There is a run after which a purge changes nothing while the log holds a later record |
| Counterexamples.StaleIndexHidesSave | bxdb-core/src/btree.rs:171-182 | There is a run after which a load finds nothing although a save behind the log had the page dirty |
| Counterexamples.ToLogDropsSave | bxdb-core/src/convert.rs:54-108 | There is a run after which `to_log` empties a log that held a save |
| Counterexamples.UnflushedLoadFails | bxdb-core/src/append_only.rs:182-196 | There is a run, one save on an open handle, after which loading the saved page from the files fails as out of range |
| Counterexamples.ZeroRecordsKeepGarbage | bxdb-core/src/purge.rs:124-126 | There is a run after which a purge keeps only a Zero record, and a purged blob stays in worker 0's file |
| SavePhase.StepInv | bxdb-core/src/append_only.rs:445-489 | Each atomic step of any page job keeps the phase invariant: slots, placed blobs, shadow entries, and the tiling of the new extent of every file |
| SavePhase.RunInv | bxdb-core/src/append_only.rs:445-489 | So does every interleaving of steps |
| SavePhase.TilesStep | bxdb-core/src/append_only.rs:761-771 | After any step each byte added to a blob file belongs to exactly one job's record |
| SavePhase.ActionsOnce | bxdb-core/src/append_only.rs:445-489 | In any schedule a job performs each of its four actions at most once, and exactly those between its start and end stage |
| SavePhase.WritesOnce | bxdb-core/src/append_only.rs:477-489 | A complete schedule writes every record slot exactly once |
| SavePhase.RunFillsSlots | bxdb-core/src/append_only.rs:445-493 | Every complete schedule leaves in slot i the record of the i-th dirty page, with its bytes at the recorded range, and the shadow entry the job decided on |
| SavePhase.PlanIsRight | bxdb-core/src/append_only.rs:725-752 | The kind chosen for a page, over the bytes of the page and its shadow entry; a Delta's data rebuilds the page from the entry, a Full's data is the compressed page |
| SavePhase.RecordsAreRight | bxdb-core/src/append_only.rs:445-489 | Under every schedule each finished record has that kind, a Delta names its shadow entry's key, and a stored blob lies in file pa % workers |
| SavePhase.GreaterKeyStays | bxdb-core/src/append_only.rs:87-96 | Of two shadow entries the one with the greater key stays, in whichever order they come; other pages keep theirs |
| SavePhase.SchedulesAgree | bxdb-core/src/append_only.rs:445-489 | Two complete schedules of the same save give records that differ only in offsets, the same blob contents behind them, and the same shadow |
| SavePhase.Progress | bxdb-core/src/append_only.rs:445-486 | No interleaving gets stuck: an unfinished job always has an enabled step |
| SavePhase.CanFinish | bxdb-core/src/append_only.rs:445-486 | From any reachable point of a save the jobs can be carried to a complete schedule |
| SavePhase.RunsAppend | bxdb-core/src/append_only.rs:445-486 | A run followed by one enabled step is a run |
| SaveStep.NewRecords | bxdb-core/src/append_only.rs:488-493 | The records of a finished save carry the dirty PAs in ascending order under the save's id |
| SaveStep.SaveKeepsOrder | bxdb-core/src/append_only.rs:491-500 | Appending them keeps the log in (snapshot, PA) order and makes the id the maximum snapshot |
| SaveStep.NewStored | bxdb-core/src/append_only.rs:715-759 | Each new record, whichever kind was chosen, resolves in the new log and files to the page that was given |
| SaveStep.StoredDelta | bxdb-core/src/append_only.rs:731-742 | A Delta against the shadowed base resolves, through the log's lookup, to the page that was given |
| SaveStep.SaveRepresents | bxdb-core/src/append_only.rs:333-502 | After the save the log represents the old history plus this save |
| SaveStep.SaveKeepsLayout | bxdb-core/src/append_only.rs:761-771 | New blobs lie above all old ones of their file and overlap nothing |
| SaveStep.SaveKeepsTiling | bxdb-core/src/append_only.rs:761-771 | A file tiled by the log's records stays tiled |
| SaveStep.EntryAfter | bxdb-core/src/append_only.rs:754-756 | The shadow of a dirty page changes exactly when its record is Full and the shadow is on |
| SaveStep.SaveKeepsSession | bxdb-core/src/append_only.rs:234-502 | After any finished save, with any part of the blobs written out, the handle's state is good again |
| SaveStep.SaveKeepsShadow | bxdb-core/src/append_only.rs:87-96 | Shadow entries stay backed by Full records of the same page and worker file |
| SaveStep.SaveKeepsNewest | bxdb-core/src/append_only.rs:87-96 | With the shadow on, it keeps the newest Full of the session for every page |
| SaveStep.SaveKeepsFresh | bxdb-core/src/append_only.rs:754-756 | The shadow only ever holds what its session wrote |
| SaveStep.NewDeltaBase | bxdb-core/src/append_only.rs:731-739 | The base of a new Delta is a record the same session wrote before this save |
| AppendOnlyDb.OpenHandle | bxdb-core/src/append_only.rs:143-217 | For any worker count and any log bytes: the worker count error, the header error, or a valid handle whose last id is the header's; and, where the log parses, exactly the abstract open state, with default threshold and created blob files |
| AppendOnlyDb.LogReadsBack | bxdb-core/src/append_only.rs:491-500 | As long as the log did not end in a partial record when opened, its file reads back as the handle's records after any saves |
| AppendOnlyDb.Handle.AppendBlob | bxdb-core/src/append_only.rs:761-771 | Appends at the logical end of the file and returns that offset; the buffered writer may have written out any part by then, and takes nothing back; no other file changes |
| AppendOnlyDb.Handle.FlushAll | bxdb-core/src/append_only.rs:223-232 | Afterwards everything appended is written out, and nothing else has changed |
| AppendOnlyDb.LogFileExact | bxdb-core/src/append_only.rs:491-500 | A handle on a log file as the writers leave it keeps it so, byte for byte, after any saves |
| AppendOnlyDb.Handle.InsertShadow | bxdb-core/src/append_only.rs:87-96 | Installs the entry unless one with an equal or greater key is there |
| AppendOnlyDb.Handle.Choose | bxdb-core/src/append_only.rs:725-752 | The in-place choice: Zero exactly for a page of zeros, otherwise Delta exactly when the shadow is on, has the page and at most `threshold` of the 512 words differ, otherwise Full |
| AppendOnlyDb.Handle.Advance | bxdb-core/src/append_only.rs:715-759 | One stage of one job on the shared buffers is exactly one step of the interleaving model |
| AppendOnlyDb.Handle.RunJobs | bxdb-core/src/append_only.rs:445-486 | The pool, picking any unfinished job each time, ends in a complete run of the step relation |
| AppendOnlyDb.Handle.WriteRecords | bxdb-core/src/append_only.rs:491-493 | The log file grows by the encoded records of the slots, in order |
| AppendOnlyDb.Handle.AppendRecords | bxdb-core/src/append_only.rs:491-500 | The log file gets the slots' records in order and the new maximum in its header; it stays the opened header padding and body followed by the session's records |
| AppendOnlyDb.Handle.SaveAllPages | bxdb-core/src/append_only.rs:234-331 | Returns the error or success the checks call for, and moves the handle to a state the specification allows after a save of the pages 0 to total - 1, each with its own bytes (`Database.JobsExact`); the log file grows accordingly |
| AppendOnlyDb.Handle.SavePagesWithBitmap | bxdb-core/src/append_only.rs:333-502 | The same for the bitmap form: checks in source order, counts, prefix sums, group visit, jobs for exactly the set bits with their own bytes (`Database.JobsExact`), records and header |
| Database.JobsAscend | bxdb-core/src/append_only.rs:364-420 | The page jobs of an accepted request come in strictly ascending PA order within the address bound |
| Database.JobsExact | bxdb-core/src/append_only.rs:283-297 | For every accepted request of either kind the page jobs are, each once and ascending, the pages 0 to total - 1 or exactly those whose bit is set, and each carries 4096 bytes with `page[i] == memory[4096 * pa + i]` |
| Database.JobsRefused | bxdb-core/src/append_only.rs:353-372 | A request is refused exactly when the memory is not 4096 bytes a page, or the bitmap has less than one bit a page, or the number of dirty pages reaches 2^32, checked in this order |
| Bitmap.DirtyPagesExact | bxdb-core/src/append_only.rs:387-482 | The visited pages are exactly the set bits below the page count, ascending; stray bits of the last word are ignored |
| Bitmap.CountGroup | bxdb-core/src/append_only.rs:394-402 | A group's popcount is the number of dirty pages it holds, the difference of its neighbours' offsets |
| Bitmap.CountGroups | bxdb-core/src/append_only.rs:386-405 | After pass 1a every slot holds its group's count |
| Bitmap.PrefixSums | bxdb-core/src/append_only.rs:407-420 | The in-place exclusive sum succeeds exactly when the dirty count fits 32 bits, and then every slot holds the number of dirty pages before its group and the active list is exactly the non-empty groups, ascending |
| Bitmap.GroupSlice | bxdb-core/src/append_only.rs:449-482 | Group g owns the slice of the dirty list between its offset and the next |
| Bitmap.VisitWord | bxdb-core/src/append_only.rs:459-480 | The clear-lowest-bit loop lists the set bits in order |
| Bitmap.VisitGroup | bxdb-core/src/append_only.rs:450-484 | A group's loop visits its slice of the dirty list and writes the consecutive slots from its offset to the next group's |
| Bitmap.InactiveGap | bxdb-core/src/append_only.rs:411-413 | Skipping inactive groups loses nothing: the next active group's offset is where the previous one ended |
| Bitmap.VisitAll | bxdb-core/src/append_only.rs:445-486 | Visiting the active groups gives the whole dirty list |
| Words.ClearLowestBit | bxdb-core/src/append_only.rs:460-479 | `w & (w - 1)` removes exactly the bit `trailing_zeros` reports |
| Words.BitsAreTheSetBits | bxdb-core/src/append_only.rs:459-480 | Bits are listed once, ascending, and are exactly those set |
| Words.MaskBits | bxdb-core/src/append_only.rs:705-713 | Masking with `(1 << v) - 1` keeps exactly the bits below v |
| Words.BitIsDigit | bxdb-core/src/append_only.rs:459-480 | A bitmap word's bit i is its i-th binary digit |
| Words.AndBits | bxdb-core/src/append_only.rs:705-713 | Conjunction, bit by bit |
| Chunk.KeyPacking | bxdb-core/src/chunk.rs:21-33 | Packing and unpacking are inverse both ways below 2^45, and key order is (PA, snapshot) order |
| Chunk.FixedRoundTrip | bxdb-core/src/chunk.rs:144-162 | Decoding the 32-byte form of any fitting record gives the record |
| Chunk.ReadBack | bxdb-core/src/chunk.rs:101-136 | Reading the log form of a record gives it back and leaves the rest |
| Chunk.ReadCut | bxdb-core/src/chunk.rs:116-136 | A cut in the 22 common bytes reads as end of file, a cut in a Delta's base key as an error |
| Chunk.ParsePrefix | bxdb-core/src/chunk.rs:101-136 | Parsing any byte prefix of a serialised record list returns exactly the complete records before the cut, except that a cut inside a Delta's base key is an error |
| Chunk.CompleteBounds | bxdb-core/src/chunk.rs:93-99 | The complete records fill the prefix up to less than one further record |
| Chunk.ParseWhole | bxdb-core/src/chunk.rs:101-136 | Parsing the serialised form of any list of well-formed records returns the list |
| Chunk.ParseShape | bxdb-core/src/chunk.rs:116-136 | Any bytes that parse are the log form of well-formed records, then less than one more record |
| Chunk.AppendsCleanlyIff | bxdb-core/src/chunk.rs:116-136 | Records appended behind a body, whatever they are, read back after its own if and only if it does not end in a partial record |
| Chunk.ReadRecords | bxdb-core/src/convert.rs:25-27 | The read loop computes the parse of the body |
| Chunk.WriteTo | bxdb-core/src/chunk.rs:101-114 | Writes the log form, with the base key only for a Delta |
| Chunk.EncodeFixed | bxdb-core/src/chunk.rs:144-152 | Fills the 32-byte buffer with the fixed form, padding cleared |
| Words.FieldRoundTrip | bxdb-core/src/chunk.rs:101-162 | Little-endian fields of 8, 4 and 2 bytes survive the round trip |
| Words.LEDigit | bxdb-core/src/chunk.rs:101-162 | Byte i of a little-endian field is its i-th digit to the base 256 |
| Formats.KeyLayout | bxdb-core/src/chunk.rs:21-33 | A key is PA * 2^19 + snapshot below 2^45, and higher bits of the PA are dropped |
| Formats.LogLayout | bxdb-core/src/chunk.rs:101-114 | Every byte of a log record: key, tag (0 Full, 1 Delta, 2 Zero), worker, offset, length, and for a Delta the base key |
| Formats.FixedLayout | bxdb-core/src/chunk.rs:144-152 | Every byte of an index record: key, base key, offset, length, tag, worker, two zeros |
| Formats.HeaderLayout | bxdb-core/src/format.rs:13-19 | Every byte of a header: BXDBLOG or BXDBIDX and a zero, version 1, the snapshot id, three zeros |
| Formats.IndexFileLayout | bxdb-core/src/convert.rs:41-47 | Record k of an index lies at byte 16 + 32 k |
| Formats.LogFileLayout | bxdb-core/src/convert.rs:96-103 | Records of a log lie one behind the other from byte 16, 30 bytes for a Delta and 22 for others |
| Formats.ReadOutcome | bxdb-core/src/chunk.rs:116-136 | For any bytes: end of file below 22, the tag error above 2, the cut error for a Delta below 30, and a record otherwise |
| Formats.DecodeOutcome | bxdb-core/src/chunk.rs:154-164 | For any 32 bytes: the tag error exactly above 2, otherwise the record written that way up to the padding |
| Formats.HeaderOutcome | bxdb-core/src/format.rs:23-39 | For any bytes: the length, magic or version error in this order, otherwise the id in bytes 9 to 12 |
| Patch.PatchRoundTrip | bxdb-core/src/chunk.rs:167-226 | For every pair of pages, applying the encoded patch over the base gives the page; the encoding is ten bytes per differing word |
| Patch.PatchListsDifferences | bxdb-core/src/chunk.rs:215-226 | The patch lists exactly the differing words, with strictly increasing in-range indices |
| Patch.ComputeXorPatch | bxdb-core/src/chunk.rs:215-226 | The word loop computes that list |
| Patch.EncodeDeltaPatch | bxdb-core/src/chunk.rs:167-174 | The encoding loop computes the ten-byte entries |
| Patch.ApplyDeltaXor | bxdb-core/src/chunk.rs:198-213 | In place, including the words already changed when an index is rejected |
| Words.Xor64Laws | bxdb-core/src/chunk.rs:198-226 | Exclusive or stays in range, cancels itself and is zero exactly on equal words |
| Words.XorBits | bxdb-core/src/chunk.rs:198-226 | Exclusive or, bit by bit |
| Patch.PatchCount | bxdb-core/src/chunk.rs:215-226 | A patch has exactly one entry for each of the 512 words in which the pages differ |
| Patch.PatchValues | bxdb-core/src/chunk.rs:215-226 | Each entry carries the exclusive or of the two words |
| Patch.PatchLayout | bxdb-core/src/chunk.rs:167-174 | Entry k occupies bytes 10 k to 10 k + 9: the word index in two bytes, the difference in eight |
| Patch.AppliedWords | bxdb-core/src/chunk.rs:198-213 | Any blob over any page is accepted exactly when all word indices are below 512, and then each word is changed by exactly the entries that name it |
| Patch.AppliedUpTo | bxdb-core/src/chunk.rs:198-213 | At a bad index the entries before it stay applied and none after it is |
| Patch.PatchAcceptedIff | bxdb-core/src/chunk.rs:176-196 | A patch is accepted if and only if it consists of whole entries with indices in range; otherwise the error tells which |
| Index.FloorsAgree | bxdb-core/src/btree.rs:562-637 | For any record list, unsorted or with repeated keys, the linear scan, the floor over the sorted first-wins index and the reference floor select the same record for every PA and snapshot |
| Index.FloorIsGreatest | bxdb-core/src/btree.rs:626-637 | The reference floor is the first record stored under the greatest snapshot at most the requested one, `None` exactly when the PA has none |
| Index.FloorUnique | bxdb-core/src/btree.rs:626-637 | Only one record meets that description |
| Index.FirstIsFirst | bxdb-core/src/btree.rs:562-577 | Of several records under one key the lookup takes the one that comes first |
| Index.IndexKeepsFirst | bxdb-core/src/btree.rs:562-577 | Sorting and deduplicating any list gives strictly increasing keys and keeps the first record of every key |
| Index.SelectIsFloor | bxdb-core/src/btree.rs:579-606 | The entry before the partition point, if of the same PA, is the floor, also for PAs above 45 bits whose key wraps |
| Index.ScanIsFloor | bxdb-core/src/append_only.rs:645-660 | The linear scan over any log keeps the floor record |
| Index.FloorMmap | bxdb-core/src/btree.rs:579-606 | Binary search over the bytes of any index file returns the floor record |
| Index.ExactMmap | bxdb-core/src/btree.rs:608-624 | Binary search over the bytes returns the record stored under the key, if any |
| Convert.FloorAfterConversion | bxdb-core/src/btree.rs:579-606 | For any log bytes, the binary search over what `to_btree` writes selects the record the linear scan of the log selects, or the conversion's error is returned |
| Convert.BtreeIsIndex | bxdb-core/src/convert.rs:13-52 | For any log that parses, out of order, with repeated keys or cut at the end, the converted bytes are an index of the first record of every key |
| Index.HeaderRoundTrip | bxdb-core/src/format.rs:13-39 | Reading a written header gives its snapshot id and leaves the body |
| Index.StrictUnique | bxdb-core/src/convert.rs:28-29 | A strictly ranked record list is determined by its elements |
| Store.LoadIsNewest | bxdb-core/src/btree.rs:397-424 | Over any records and blobs that represent a history, a load returns the newest version and never fails below the id limit |
| Store.ResolvesIff | bxdb-core/src/btree.rs:311-345 | For any records and files: a Zero stands for zeros, a Full for what its bytes decompress to, a Delta for the page of the first record under its base key, which must be a Full, with each word changed by the entries naming it; a missing and a non-Full base are errors of their own |
| Store.BlobOutcome | bxdb-core/src/btree.rs:267-307 | The bytes of a record are those its file has at its offset, and missing or short files are told apart |
| Store.FloorIsNewest | bxdb-core/src/btree.rs:397-424 | Searching snapshots downwards and saves backwards agree |
| Store.ResolveFrame | bxdb-core/src/btree.rs:311-345 | Resolution depends only on the record's own blob and its base's record and blob |
| Store.RepresentsSame | bxdb-core/src/btree.rs:562-577 | Any list with the same lookups represents the same history |
| Store.RepresentsGrow | bxdb-core/src/append_only.rs:761-771 | Appending to blob files keeps every represented page |
| Reader.BuildLazyIndex | bxdb-core/src/btree.rs:562-577 | The header or record error, or the sorted, first-wins list of the log's records, a partial record at the end ignored |
| Reader.OpenStore | bxdb-core/src/btree.rs:167-204 | For any directory bytes: the error of the preferred file's header or size, or a store that answers from exactly the records that file holds, header version and padding bytes ignored as in the code, and over a log with a bad record a store whose lookups all return that error |
| Reader.PageStore.EnsureLazyIndex | bxdb-core/src/btree.rs:248-258 | Built once, the same on every later call, or the log's error every time |
| Reader.PageStore.Floor | bxdb-core/src/btree.rs:217-231 | The floor record in either mode, or the log's error |
| Reader.PageStore.ExactLookup | bxdb-core/src/btree.rs:233-246 | The first record under the key in either mode, or the log's error |
| Reader.PageStore.DecompressInto | bxdb-core/src/btree.rs:267-307 | The specification's error or none, and the buffer: the page, or untouched when no blob was read |
| Reader.PageStore.PatchInPlace | bxdb-core/src/btree.rs:336-342 | The patched page or the error, with the buffer exact also then: untouched, or patched up to a bad index |
| Reader.PageStore.ResolveUncached | bxdb-core/src/btree.rs:311-345 | The resolved page or the error for all three kinds, with the buffer exact also after an error unless the decompressor failed |
| Reader.PageStore.LoadPage | bxdb-core/src/btree.rs:397-424 | The loaded page and true, false with the buffer untouched, or the error with the buffer as resolution left it; over a log with a bad record its error, the buffer untouched |
| Store.LoadLeaves | bxdb-core/src/btree.rs:397-424 | What the buffer specification says of a successful load: the page, or untouched when there is none |
| BulkLoad.SplitPages | bxdb-core/src/append_only.rs:582-599 | For every page count and worker count from 1, the ranges are consecutive, non-empty, cover every page and number at most the workers |
| BulkLoad.OneWorker | bxdb-core/src/append_only.rs:585-616 | Hence every page belongs to exactly one worker |
| BulkLoad.ScanTable | bxdb-core/src/append_only.rs:636-660 | For any log bytes: the first error, or in slot i the floor record of page pa_offset + i |
| BulkLoad.LoadOne | bxdb-core/src/append_only.rs:604-613 | One page, from the table or by floor query, is what `load_page` gives; a page without a version leaves its cell alone |
| BulkLoad.TakePage | bxdb-core/src/append_only.rs:681-690 | A worker's next page is as its load gives it or fails as its load fails, and no other page changes |
| BulkLoad.RunWorkers | bxdb-core/src/append_only.rs:600-616 | Under any interleaving every worker fills its part or stops at its first failing page, and the shared flag is down exactly when a missing page was met |
| BulkLoad.FillPages | bxdb-core/src/append_only.rs:573-702 | Joined in order: each page ends as its own load gives it and true means no page lacks a version; on failure the error is that of the lowest failing page, all pages below it are done, and every other page that loads is done or untouched |
| BulkLoad.LoadAllPages | bxdb-core/src/append_only.rs:504-570 | The same in both modes, with the snapshot check and a log's own error before anything is written |
| Convert.LogFileRoundTrip | bxdb-core/src/convert.rs:13-108 | Any log in (snapshot, PA) order comes back from `to_btree` and `to_log` byte for byte |
| Convert.IndexFileRoundTrip | bxdb-core/src/convert.rs:13-108 | Any strictly sorted well-formed index comes back from `to_log` and `to_btree` byte for byte |
| Convert.LogRoundTrip | bxdb-core/src/convert.rs:77-102 | On records, regrouping the index of an ordered log restores the log |
| Convert.IndexRoundTrip | bxdb-core/src/convert.rs:77-102 | On records, indexing the regrouped log restores the index |
| Convert.RegroupFacts | bxdb-core/src/convert.rs:77-102 | Regrouping keeps exactly the records and every lookup, in log order |
| Convert.GroupsNeedNoSort | bxdb-core/src/purge.rs:144-178 | On key-sorted input the missing per-group sort of purge's log writer makes no difference |
| Convert.ToBtree | bxdb-core/src/convert.rs:13-52 | The loops compute the specified index file or the first error |
| Convert.ToLog | bxdb-core/src/convert.rs:54-108 | The loops compute the specified log file or the first error |
| Convert.GroupBySnap | bxdb-core/src/convert.rs:79-82 | The map holds each snapshot's records in reading order and no empty group |
| Convert.SortedSnaps | bxdb-core/src/convert.rs:83-84 | The keys ascending, each once |
| Convert.EmitGroups | bxdb-core/src/convert.rs:98-102 | Writing the groups in that order gives the regrouped log |
| Convert.WriteIndex | bxdb-core/src/convert.rs:41-47 | Header and fixed records in order |
| Convert.WriteLog | bxdb-core/src/convert.rs:96-103 | Header and log records in order |
| Convert.ReadFixed | bxdb-core/src/convert.rs:65-73 | Decodes whole records, ignores a trailing fragment, stops at the first bad one |
| Purge.PurgePreservesLoads | bxdb-core/src/purge.rs:24-71 | For every pa and snap, a load after the purge equals the load before it at min(snap, threshold) |
| Purge.PurgeRepresents | bxdb-core/src/purge.rs:24-71 | The kept records over the cut files represent the history up to the threshold: every kept Delta keeps its base |
| Purge.KeptBlobSurvives | bxdb-core/src/purge.rs:120-142 | The blob of a kept record survives truncation and file removal |
| Purge.UpToNewest | bxdb-core/src/purge.rs:24-71 | Dropping later saves is asking for nothing later |
| Purge.PurgedBytesGone | bxdb-core/src/purge.rs:115-142 | In snapshot-ordered files a file with a kept blob is cut at or below the start of every purged blob |
| Purge.PurgedFileTiled | bxdb-core/src/purge.rs:115-142 | Such a file is then exactly its kept blobs |
| Purge.PurgedFileCleanIff | bxdb-core/src/purge.rs:205-226 | A surviving file is exactly its kept blobs if and only if it has a kept non-Zero record or was empty; otherwise it is worker 0's file, left as it was |
| Purge.MaxEnds | bxdb-core/src/purge.rs:121-133 | The map holds, for exactly the files with kept blobs, the highest kept end |
| Purge.TruncateBlobs | bxdb-core/src/purge.rs:120-142 | Cuts every such file at its end, in any order, or fails when one is missing |
| Purge.CleanupUnused | bxdb-core/src/purge.rs:205-226 | Removes exactly the files whose worker id no kept record carries |
| Purge.PurgeDir | bxdb-core/src/purge.rs:24-71 | The whole operation on bytes: index preferred, nothing written when nothing is removed, both files rewritten, the count returned |
| Purge.PurgeCount | bxdb-core/src/purge.rs:24-71 | For any files, the count a purge returns is the number of source records later than the threshold, and at 0 no file changes |
| Cache.SlotBijection | bxdb-core/src/cache.rs:153-180 | Slot numbers and (metadata page, set, way) triples correspond one to one |
| Cache.FindWay | bxdb-core/src/cache.rs:279-281 | The lowest way holding the key, `None` exactly when no way does |
| Cache.FindWaySimd | bxdb-core/src/cache.rs:286-326 | The two-lane mask loop with `trailing_zeros` gives the same way as the scalar form |
| Cache.RefreshStamps | bxdb-core/src/cache.rs:359-365 | The portable loop, which lowers the accessed stamp too before refreshing it, computes the stamp update whose meaning StampsFollowTouches and EvictionIsLru state |
| Cache.RunFaithful | bxdb-core/src/cache.rs:195-250 | After any gets and puts tags are unique in the set and each tagged way holds its key's last put |
| Cache.HitIsLastPut | bxdb-core/src/cache.rs:195-217 | In one set a hit returns the page of the last put of that key; when there is a hit is in `SharedCache.HitsIff` |
| Cache.StampsFollowTouches | bxdb-core/src/cache.rs:328-365 | After any operations a way's stamp is a function of how many updates ago it was touched |
| Cache.EvictionIsLru | bxdb-core/src/cache.rs:230-247 | The evicted way of a full set is never the most recently used, and is the exact least recently used one or has been untouched for at least 255 updates |
| Cache.SameSetIff | bxdb-core/src/cache.rs:253-258 | Two keys share a set if and only if they agree modulo 8192 |
| Cache.LocateIsOnto | bxdb-core/src/cache.rs:253-258 | Every set of every metadata page is the set of some storable key |
| Cache.PutKeepsOthers | bxdb-core/src/cache.rs:219-250 | A put writes one way and keeps all others; it drops another key's tag only if its own key is absent and no way is empty |
| SharedCache.SetsAreIndependent | bxdb-core/src/cache.rs:195-258 | Under any operations each set evolves by those of its own keys alone |
| SharedCache.KeysSitOnce | bxdb-core/src/cache.rs:195-258 | A non-empty key sits in at most one way of the whole cache, in the set `locate` gives, with its last put page |
| SharedCache.CacheHit | bxdb-core/src/cache.rs:195-217 | Over the whole cache a hit returns the last put page; when there is a hit is in `SharedCache.HitsIff` |
| SharedCache.SetOfSnapshot | bxdb-core/src/cache.rs:253-258 | The set of a page's key depends on the snapshot alone: all pages of a snapshot share one set, and two snapshots share it exactly when they agree modulo 8192 |
| SharedCache.SixteenPerSnapshot | bxdb-core/src/cache.rs:253-258 | Hence no cache holds more than sixteen pages of one snapshot |
| SharedCache.PutThenGet | bxdb-core/src/cache.rs:195-250 | Whatever came before, a get right after a put of its key returns the page put |
| SharedCache.HitsIff | bxdb-core/src/cache.rs:195-250 | In every run a get hits if and only if its key was put and no later put of another key into its set was given its way |
| SharedCache.CacheEvictsLru | bxdb-core/src/cache.rs:219-250 | Over the whole cache the eviction rule holds for the key's set |
| SharedCache.SlotsApart | bxdb-core/src/cache.rs:209-244 | Data slots of different sets never meet |
| SharedCache.FindVictim | bxdb-core/src/cache.rs:232-242 | The loop finds the victim of the specification |
| SharedCache.Region.constructor | bxdb-core/src/cache.rs:453-468 | The region holds fresh sets: all empty, with zero stamps |
| SharedCache.Region.GetPage | bxdb-core/src/cache.rs:195-217 | True if and only if some way of the located set carries the key, with that way's page in the buffer, which is untouched otherwise; stamps as specified for the set, all other sets unchanged |
| SharedCache.Region.PutPage | bxdb-core/src/cache.rs:219-250 | The located set becomes the specified one; all other sets unchanged |
| SharedCache.Region.WriteWay | bxdb-core/src/cache.rs:243-247 | Page, tag and stamp of one way; all other sets unchanged |
| CachedReader.CacheIsInvisible | bxdb-core/src/btree.rs:426-535 | For any number of readers and any interleaving of their moves over an unchanging store, a finished load equals the uncached one |
| CachedReader.MoveGood | bxdb-core/src/btree.rs:426-535 | Every single move keeps every occupied slot a Full record's decompressed page, and every reader on course |
| CachedReader.RunGood | bxdb-core/src/btree.rs:426-535 | So does every run of moves |
| CachedReader.Recall | bxdb-core/src/btree.rs:433-444 | The region's get is the cache's get on the sets it holds; a miss leaves the buffer alone |
| CachedReader.Remember | bxdb-core/src/btree.rs:455-458 | The region's put is the cache's put on the sets it holds |
| CachedReader.Refill | bxdb-core/src/btree.rs:504-530 | What follows a miss, on the region, are the moves of fetching and inserting, after which the key is held; an error inserts nothing |
| CachedReader.LoadFullCached | bxdb-core/src/btree.rs:490-535 | The base page or the uncached error, the buffer as the uncached path leaves it, by moves of this reader alone that keep the cache good; afterwards the cache holds the key, and a key it held before is not fetched again |
| CachedReader.ResolveCached | bxdb-core/src/btree.rs:426-488 | The same page, error and buffer as without a cache, although the patch is applied in the buffer just cached; what the code does to the region is a run of this reader's moves ending in that result; after success the cache holds the Full page, and with the page held before, the moves are begin, look up and finish alone |
| CachedReader.LoadPageCached | bxdb-core/src/btree.rs:397-424 | `load_page` with a cache: the page, false or error, and the buffer, as without one, whatever good pages the cache holds |
| RawConvert.ReplayOk | bxdb-core/src/bin/convert_to_raw.rs:160-280 | On any log-ordered resolvable log no ordering check fires and buffer, dirty set and chain are right after every record |
| RawConvert.BufferIsFloor | bxdb-core/src/bin/convert_to_raw.rs:194-279 | After the last record of a snapshot the buffer equals the floor load of every page there, missing pages zero |
| RawConvert.ConversionIsFaithful | bxdb-core/src/bin/convert_to_raw.rs:101-285 | A backward search over the emitted chain finds the floor page for every pa and snapshot, although snapshot 0 omits zero pages |
| RawConvert.ChainHoldsHistory | bxdb-core/src/bin/convert_to_raw.rs:101-285 | Hence it finds the newest saved page of the represented history |
| RawConvert.PartialReplay | bxdb-core/src/bin/convert_to_raw.rs:160-290 | Where the program may miss some records or blobs: no panic, a run to the end exactly when every record resolves, and below the snapshot it stopped at a chain right for every page |
| RawConvert.ReplaysIff | bxdb-core/src/bin/convert_to_raw.rs:160-279 | Any list of records is replayed to the end if and only if neighbours never step back in (snapshot, PA), every address lies in the image and every record resolves |
| RawConvert.EmittedFiles | bxdb-core/src/bin/convert_to_raw.rs:281-294 | For any records: a run to the end has a file for snapshot 0 and each snapshot met, and raw-meta names the last one; a stopped run has no file from the snapshot it stopped at on, and raw-meta names the one before, or 0 |
| RawConvert.ConvertToRaw | bxdb-core/src/bin/convert_to_raw.rs:144-294 | For any store and any log bytes the streaming loop computes the specified emission, early stop included; a bad record is an error exactly when nothing before it ended the run; what that is, is in `RawConvert.ReplaysIff` and `RawConvert.EmittedFiles` |
| Chunk.ParseSplit | bxdb-core/src/chunk.rs:116-136 | A log parses to the records before its end exactly when no bad record comes first |

## Left out

- zstd, thread-local compressors, mmap, madvise, fsync, rename and directory listing: foreign code or input and output; compression enters as a parameter.
- Input and output errors in the middle of a save, and atomicity of a purge across a crash: the code has no recovery protocol.
- Process death inside a cache critical section and robust-mutex recovery; only completed critical sections are modelled, and a cache is not reused after its store changes.
- Cache identity and path hashing in btree.rs and cache.rs: operating-system detail.
- check.rs, c_api.rs, timing.rs, bxdb-inspect, bxdb-util and the C test programs: reporting, wrappers, counters, user interface, benchmarks.
- The byte layout of the raw converter's files, and its command line; a chain file is a map from page to contents, and `raw-meta` is the snapshot it names.
- The buffer alignment and output length checks of `load_all_pages`, and its address and offset overflow checks.
- Allocation and capacity hints, when exactly a buffered writer writes out, and the split of the shadow into shards, which only affects locking.
- ConvertToRaw: a panic of the program is an `Err`, and a missing blob file, where the program panics, ends the conversion early like any other record that does not resolve.
- OpenStore: says what a store answers for an index in key order, as the format demands; over an unsorted index the program finds whatever its search meets.
- DecompressInto: says nothing about the buffer once the decompressor itself has failed, since it may have written anything; the same holds for ResolveUncached, LoadPage, LoadFullCached and ResolveCached, which call it.
- ResolveCached: is stated for records that a floor query can return.
- LoadOne: takes one page cell of its own, which the caller copies into the output.
- SaveAllPages: the split into groups of pages is not modelled, since any order of the jobs is allowed.
- SavePagesWithBitmap: runs the count, sum and visit passes first and then the jobs, where the source starts a job as its page is visited.
- RunTiles: is about runs without purges whose `to_log` starts from an index as new as the log; otherwise dropped records leave their bytes behind.
- PurgeAfterCleanRun: is about the same runs; PurgedBytesStayIff is about all runs.
