# Dcrontab, verified

dcrontab runs one crontab on a cluster. Every node keeps the jobs in a RocksDB database that is
driven by a Raft log, survives crashes, can be rebuilt from a snapshot, and is scanned once a minute
by the leader, who decides which jobs are due. This project models that machinery and proves what it
is for:

* **Refinement of the log over whole runs.** `Replica` is a state machine over the node's calls
  (Open, Update, RecoverFromSnapshot) and their single disk operations, with a crash possible between
  any two of them. Along every run the database is exactly the fold of a log prefix, the next Open
  serves it and returns its index, no entry once held is lost, the panics of the source for states
  that "cannot happen" do not happen, and replicas at the same index hold the same map and hash.
  `CommanderObject.Commander` is the object itself; its methods are proved to perform exactly the
  machine's disk operations.
* **Where crash safety ends.** `Hazards` gives the exact crash points that break it, with both
  directions proved.
* **Snapshots.** The stream round trip, its injectivity, the rejection of every strict prefix, the
  point-in-time property under concurrent updates, and, in `Transfer`, the way of a snapshot from a
  replica that goes on applying the log to another that installs it.
* **The write-batch iterator**, against the matching encoder: round trip, every truncation, and on
  every byte string exactly when it panics.
* **Cron fields, the minute timer, the bootstrap of the job table, prefix scans, the closing of
  database handles under concurrent lookups, the copy-on-write list and the merge fold.**

Times, random names, the leader's identity, file-system crashes and the Raft log are parameters.
`dafny verify dfyconfig.toml` checks the project.

## Reading the disk model

A `Disk` has the two pointer files and one entry per database directory. Each file name remembers
the inodes it had since the directory was last synced, each file whether it is synced, each
directory entry whether it has reached the disk. A process crash (`Kill`) keeps what is visible. A
power loss may bring back any earlier target of a name, fill an unsynced file with anything, and
drop or resurrect any unsettled directory entry. RocksDB batch writes are atomic and synchronous.

A run's states carry a `Mode`. `Steady`: everything is on disk. `Renamed`: a process was killed
between the rename of `current` and the directory sync, so a power loss may bring the old database
back. `Exposed`: a power loss can be fatal, see below. Process kills and power losses are allowed
everywhere; on an exposed node a power loss must be one after which `current` still names the same
database and its directory is there. Between calls the file system may write the directory back on
its own, which makes the node `Steady`.

Assumed, as hypotheses in the statements: MD5 is some function to 16 bytes; JSON is a codec that
returns UTF-8 text unchanged, decodes to UTF-8 text only and leaves a struct alone if the bytes are
not JSON (`KeyValue.CodecContract`, shown satisfiable); log indices increase; snapshots are of the
same log and not older than the local state; new directory names are fresh; a batch has at least one
entry; lengths fit 64 bits, and JSON texts fit what make can allocate (`maxAlloc`, the same on both
ends of a transfer); the node's data directory itself, made by MkdirAll and never synced in its
parent (commander.go:218), is on disk. A command that is not JSON kills the process before anything
is written. An I/O error stops the node, which is a process crash at that step.

## Three things the code does not do

* Open swaps `current` in before it creates the directory (commander.go:309 and 313) and never syncs
  that directory's entry. A kill between the two makes every later Open fail until a power loss, and
  a power loss helps only if the rename had not been synced (`Hazards.FirstRunKillPointIsExact`,
  `Hazards.StuckForever`, `Hazards.OnlyPowerLossFrees`). From the rename until the entry has reached
  the disk a power loss can break the node too (`Hazards.FirstRunPowerLossPointIsExact`,
  `Hazards.FirstRunPowerLossIsExact`). Runs therefore start after a first Open that completed, in
  mode `Exposed`, or `Steady` if its directory entry has reached the disk.
* If the process alone is killed between the rename of `current` and the directory sync after it,
  the next Open deletes the old database while the old pointer may still come back in a power loss
  (`Hazards.KillPointIsExact`). A power loss before that Open does no harm, and the next installation
  or write-back syncs the directory; in between the node is `Exposed`. Once the Open has returned, at
  every moment until that sync some outcome of a power loss is fatal
  (`Hazards.ReopenedAfterWindowKill`). An outcome is harmless exactly when `current` still names the
  same database and its directory is there (`Hazards.OutcomeIsExact`).
* A SCAN takes no lock, and SaveSnapshot takes the read lock without testing the closed flag, so both
  can read a closed handle: exactly when it was closed since it was loaded, for SaveSnapshot before
  it got the lock (`Handles.ScanOnClosed`, `Handles.SaveOnClosed`, `Handles.ClosedHandlesAreRead`).

## Model

| member | source | states |
|---|---|---|
| Replica.RunRefinesLog | dcrontab/commander.go:284-559 | For every run of Open, Update and snapshot installation, each returning or cut by a process kill or a power loss after any number of its disk steps, with directory write-backs in between, every state refines the log: the current database is the fold of a log prefix at least as long as at the start, a running node knows its index, and no unreachable-state panic (corrupt pointer, missing directory, index not moving forward) occurs; on an exposed node, outcomes of a power loss after which the next Open does not start the same database are excluded |
| Replica.WriteBackKeeps | dcrontab/commander.go:148-155 | From any state that refines the log, once the directory has been written back the node refines it with nothing at risk |
| Replica.StepKeepsRefinement | dcrontab/commander.go:284-559 | Every single event, a completed call or a crash inside it, keeps that refinement |
| Replica.OpenAfterAnyRun | dcrontab/commander.go:284-324 | Whenever a run has left the node down, the next Open succeeds, the store it serves is the fold of the log up to the index it returns, at least what was held at the start, and only its directory is left |
| Replica.OpenServes | dcrontab/commander.go:221-245 | No step of Open disturbs the database `current` names; the others are all removed; store and index are those of the log prefix |
| Replica.UpdateServes | dcrontab/commander.go:379-408 | A batch of the next entries is one disk write that takes the store and the index to the longer prefix; undecodable commands write nothing; the index always moves forward |
| Replica.InstallServes | dcrontab/commander.go:501-559 | A complete snapshot of a longer prefix is read back and installed by the eleven disk steps of the source, ending with exactly that prefix and its index, all of it settled, the new directory in place of the old, never "not moving forward" |
| Replica.TruncatedInstall | dcrontab/commander.go:516-530 | Every strict prefix of a snapshot stream gives an error with process state, pointer files and live database untouched, and one empty extra directory |
| Replica.TruncatedInstallLeavesNoTrace | dcrontab/commander.go:221-245 | After such an error the next Open serves the same state and has removed the extra directory |
| Replica.BackwardInstall | dcrontab/commander.go:537-553 | A complete snapshot whose index is behind the live one, or unreadable, panics only after the new database has become the current one; the old one stays beside it |
| Replica.InstallReplaces | dcrontab/commander.go:512-558 | An installation leaves the new directory in place of the old one and no other directory touched |
| Replica.CorruptPointerPanics | dcrontab/commander.go:187-215 | If `current` is not a path behind the first half of its digest, Open and RecoverFromSnapshot panic |
| Replica.MissingPointerIsAnError | dcrontab/commander.go:187-192 | Without `current`, reading it and RecoverFromSnapshot return an error |
| Replica.OpenAnswers | dcrontab/commander.go:290-323 | With a complete pointer, Open panics if the directory is missing or the stored index unreadable, returns an error if the database is damaged, and else the stored index |
| Replica.RecoverAnswers | dcrontab/commander.go:506-553 | By the stream, RecoverFromSnapshot returns an error on a short read, panics on a frame too long, bad JSON, or an index unreadable or behind, and else returns that index |
| Replica.FirstOpenRefines | dcrontab/commander.go:304-323 | A first Open on an empty data directory comes up with index 0 and the empty store, and refines the log, exposed to power losses until the directory entry is settled and steady from then on |
| Replica.IndexNeverGoesBack | dcrontab/commander.go:403-406 | Along any run, whatever crashes lie between, the index reported by the running node never decreases |
| Replica.ReplicasConverge | dcrontab/commander.go:576-587 | After any two runs on the same log, two replicas reporting the same index hold the same map and compute the same GetHash |
| Replica.HashIsDigest | dcrontab/commander.go:576-587 | Written out as a little-endian word, the hash is the first eight bytes of the digest of the stream |
| Transfer.SavedStreamIsLogPrefix | dcrontab/commander.go:426-496 | The stream a running replica saves is that of the log prefix it held at PrepareSnapshot, however many entries its Update calls apply meanwhile |
| Transfer.SenderKeepsServing | dcrontab/commander.go:379-408 | While it saves, the sender goes on serving longer and longer prefixes, its write history only growing |
| Transfer.TransferServes | dcrontab/commander.go:482-559 | A replica that is not ahead and installs that stream comes up with the sender's store and index as of PrepareSnapshot, steady, and refines the log from there on |
| Switch.InstallIsSafeAtEveryStep | dcrontab/commander.go:537-558 | After each of the eleven disk steps `current` holds a complete name whose checksum verifies, naming an existing directory with the full old or the full new contents, now and, from a settled disk or after the first directory sync, after any power loss |
| Switch.SaveMakesPointerReady | dcrontab/commander.go:157-185 | From any disk, the five steps of saving leave a complete and durable pointer file for the name |
| Switch.ReplacePublishes | dcrontab/commander.go:148-155 | Rename and directory sync publish a ready pointer, with no earlier target left |
| Switch.FirstRunAnchors | dcrontab/commander.go:305-313 | A completed first run leaves `current` at the new empty database, safe against process crashes, and against power losses exactly once the directory entry is settled |
| Hazards.KillPointIsExact | dcrontab/commander.go:540-558 | Kill an installation after k disk steps and reopen: the node comes up with the old contents before the rename and the new ones after; then lose power: every outcome opens with those contents if and only if k is not the step between rename and directory sync, where some outcome names a deleted directory |
| Hazards.OutcomeIsExact | dcrontab/commander.go:284-303 | Of a database whose directory entry or pointer may not survive: after a power loss the next Open starts it, with all it held, if and only if `current` still names it and its directory is there |
| Hazards.ExposedIsFatal | dcrontab/commander.go:221-324 | From a fragile state on, at every state of a run that stays exposed some power loss leaves a pointer whose directory is missing |
| Hazards.ReopenedAfterWindowKill | dcrontab/commander.go:284-559 | In any run, after a kill between rename and directory sync and a completed Open, that holds at every state until the directory is synced or written back |
| Hazards.FirstRunKillPointIsExact | dcrontab/commander.go:299-313 | Kill the first Open after k disk steps: the next Open comes up, with an empty store, if and only if k is before the rename or after the creation of the directory, and is stuck otherwise |
| Hazards.FirstRunPowerLossPointIsExact | dcrontab/commander.go:304-313 | Lose power after k disk steps of the first Open: every outcome opens, with an empty store, if and only if k is before the rename; from there on some outcome is stuck |
| Hazards.StuckForever | dcrontab/commander.go:284-303 | A pointer that is corrupt or whose directory is missing stays so until a power loss: however often Open is called again, and killed after any number of its steps or not, none comes up |
| Hazards.OnlyPowerLossFrees | dcrontab/commander.go:299-313 | After a first Open killed between rename and directory creation, and any further Open calls, some power loss lets the node come up as new if and only if the rename had not been synced |
| Hazards.FirstRunPowerLossIsExact | dcrontab/commander.go:305-313 | After a first Open, every power loss can be survived, with the empty store, if and only if the database directory's entry had reached the disk |
| Disk.PowerLossKeepsSafe | dcrontab/commander.go:148-215 | From a safe disk every power loss leads to a disk whose `current` means exactly one of the safe databases |
| Disk.PointerRoundTrip | dcrontab/commander.go:157-215 | A pointer file passes the length and checksum tests and names a database if and only if it is the complete file written for that database |
| Disk.ReadPointerIsExact | dcrontab/commander.go:198-214 | A pointer file is accepted, as a path, if and only if it is the first eight bytes of the path's digest followed by the path, which is not empty |
| Disk.ForeignChecksumRejected | dcrontab/commander.go:205-213 | A path behind the checksum of another path is rejected unless the two checksums agree |
| Disk.CleanupRemoves | dcrontab/commander.go:221-245 | Cleanup deletes exactly the listed directories other than the named one, which stays as it was, and touches no file |
| KeyValue.UpdateExtendsFold | dcrontab/commander.go:389-402 | Applying the next slice of the log as one batch with its index extends the fold of the log, even if entries write the applied-index key themselves |
| KeyValue.StoreKnowsItsIndex | dcrontab/commander.go:269-280 | The index parsed from the store of a log prefix is the index of its last entry, 0 if there is none |
| KeyValue.StoredIndexTexts | dcrontab/commander.go:269-280 | No text or an empty one is index 0; any other is n if and only if it is the decimal of n, leading zeros allowed, and n is below 2^64 |
| KeyValue.StoreIsText | dcrontab/commander.go:389-399 | Every key and value of the store of a log prefix is valid UTF-8 |
| KeyValue.KeysOnlyGrow | dcrontab/commander.go:389-400 | No stored key ever disappears |
| KeyValue.CodecContractIsSatisfiable | dcrontab/commander.go:464 | The assumption made of the JSON codec can be met, for every allocation limit |
| ByteStrings.ValidIsUtf8 | dcrontab/commander.go:391 | What counts as text is the encoding of some Unicode characters, as RFC 3629 writes them |
| ByteStrings.Utf8IsValid | dcrontab/commander.go:391 | and every such encoding counts |
| Snapshot.StreamRoundTrip | dcrontab/commander.go:442-477 | Reading the stream written for a store of text rebuilds exactly that store |
| Snapshot.StreamInjective | dcrontab/commander.go:442-477 | Different stores have different streams |
| Snapshot.StrictPrefixIsShort | dcrontab/commander.go:516-536 | Every strict prefix of a stream ends in a short read |
| Snapshot.StreamLayout | dcrontab/commander.go:442-477 | A stream is the number of entries, then in rising bytewise key order, each behind its length, the JSON of a command with that key, its value and no action |
| Snapshot.StreamReads | dcrontab/commander.go:516-536 | Any stream that begins with a count and good frames is read entry by entry, and the rest decides |
| Snapshot.FrameEnds | dcrontab/commander.go:522-536 | The next frame ends the reading with a short read, a length that cannot be allocated, a short text, or a text that does not decode, in that order |
| ByteStrings.Uint64IsLittleEndian | dcrontab/commander.go:453-468 | Counts and lengths are eight bytes, the first one lowest |
| Snapshot.SavedStreamIsPointInTime | dcrontab/commander.go:426-496 | For every interleaving of updates with the two passes of saveToWriter, the finished stream, count header included, is that of the store when the snapshot was taken |
| CommanderObject.Commander.constructor | dcrontab/commander.go:261-267 | A new object has no open database and has performed no disk step |
| CommanderObject.Commander.Open | dcrontab/commander.go:284-324 | Performs exactly the machine's Open steps and returns the applied index of the state it reaches; a pointer without a file or a database that does not open is an error; a data directory that cannot be made, a corrupt pointer, a missing directory or an unreadable index is a panic |
| CommanderObject.Commander.Update | dcrontab/commander.go:379-408 | Performs exactly the machine's Update step, returns the command lengths, and succeeds if and only if it is open, every command decodes and the last index is beyond the applied one; bad JSON panics with nothing written |
| CommanderObject.Commander.RecoverFromSnapshot | dcrontab/commander.go:501-559 | Performs exactly the machine's recovery steps for any bytes, on an opened node or not, with error, panic and success told apart and the object unchanged unless it succeeds |
| CommanderObject.Commander.ReadSnapshot | dcrontab/commander.go:516-536 | The frame-reading loop ends as the stream grammar says, for any bytes and any allocation limit: complete, a short read, bad JSON, or the panic on a frame that cannot be allocated |
| CommanderObject.Commander.SaveToWriter | dcrontab/commander.go:442-477 | The two passes write the stream of the store |
| CommanderObject.Commander.GetHash | dcrontab/commander.go:576-587 | Returns the word whose little-endian bytes are the first eight of the digest of the store's stream |
| CommanderObject.Commander.Lookup | dcrontab/commander.go:327-371 | A query that is not JSON reads the key that it is; otherwise it is parsed over the defaults of such a GET, and an encoded command is carried out: SCAN returns exactly the entries whose key has the prefix, anything else the value or the empty string, a panic if the node was closed before |
| CommanderObject.QueryMeanings | dcrontab/commander.go:327-335 | A query that is not JSON, or that unmarshals to nothing, means a GET of itself; an encoded command means that command |
| CommanderObject.Commander.Close | dcrontab/commander.go:562-573 | Takes the database out; a second call panics |
| CommanderObject.Commander.CleanupNodeDataDir | dcrontab/commander.go:221-245 | The directory loop performs exactly the cleanup operations for every path that differs from the one in `current`; without a pointer it returns an error, with a corrupt one it panics, and removes the scratch file only |
| CommanderObject.Commander.GetCurrentDBDirName | dcrontab/commander.go:187-215 | Reads `current` as the checksummed pointer format says; a missing file is an error, a corrupt one a panic |
| CommanderObject.Commander.SaveCurrentDBDirName | dcrontab/commander.go:157-185 | Whatever was under the scratch name before, it ends as a complete, durable pointer to the database, with every directory entry on disk |
| CommanderObject.Commander.ReplaceCurrentDBFile | dcrontab/commander.go:148-155 | A ready pointer becomes the only thing `current` can mean, now and after a power loss |
| CommanderObject.FeedLog | dcrontab/commander.go:379-408 | However the rest of the log is split into batches, no Update fails and the node ends with the fold of the whole log |
| Ordering.Scan | dcrontab/commander.go:338-358 | Seek to the prefix and stop at the first key without it: the result is the filter of the store by that prefix |
| Ordering.PrefixBlock | dcrontab/gorocksdb/options.go:101-103 | In bytewise lexicographic order the keys with a prefix form one block starting at the prefix |
| Ordering.LeqIsBytewise | dcrontab/gorocksdb/options.go:101-103 | One key is at or before another if and only if they are equal or at the first difference it ends or has the smaller byte |
| Ordering.SortedInByteOrder | dcrontab/commander.go:449-457 | The iteration visits the keys in that rising order |
| Ordering.SeekIsFirst | dcrontab/gorocksdb/iterator.go:97-101 | Seek finds the first key at or after its argument |
| Ordering.AscendingUnique | dcrontab/commander.go:449-457 | Two iterations over the same keys visit them in the same order |
| Handles.EveryRunIsSafe | dcrontab/commander.go:68-105 | For every interleaving of GET lookups, SCANs, snapshot savers, Close and RecoverFromSnapshot, each handle is closed at most once and no GET reads a closed handle |
| Handles.NothingLeaks | dcrontab/commander.go:88-105 | Whenever all goroutines are idle, no lock is held, the shared database is open and every other one ever opened has been closed once |
| Handles.ScanOnClosed | dcrontab/commander.go:328-357 | A SCAN, or PrepareSnapshot, has a closed handle in its hands if and only if some goroutine closed it since it was loaded |
| Handles.SaveOnClosed | dcrontab/commander.go:482-496 | From taking the read lock to its end SaveSnapshot reads a closed handle if and only if the handle was closed between PrepareSnapshot and the lock |
| Handles.ClosedHandlesAreRead | dcrontab/commander.go:328-496 | A run in which both happen |
| Handles.NextKeepsInv | dcrontab/commander.go:554-573 | Every step keeps: one closer per handle, locks agree with where goroutines are, the shared pointer is open |
| Varint.DecodeInvertsEncode | dcrontab/gorocksdb/write_batch.go:244-262 | Decoding inverts encoding for every uint64, whatever follows |
| Varint.DecodeFails | dcrontab/gorocksdb/write_batch.go:247-261 | Decoding fails if and only if continuation bytes fill the buffer, up to ten, or are the first ten of more; a short buffer and a malformed varint respectively |
| Varint.OrInGroup | dcrontab/gorocksdb/write_batch.go:247-255 | The shift-and-or round of the loop adds the next 7-bit group, modulo 2^64 in the tenth |
| Varint.HugeNeedsTenBytes | dcrontab/gorocksdb/write_batch.go:247-255 | Only a ten-byte varint denotes 2^63 or more |
| WriteBatch.BatchRoundTrip | dcrontab/gorocksdb/write_batch.go:147-209 | Iterating over any encoded list of supported records yields exactly those records and ends without error |
| WriteBatch.DeletionLayout | dcrontab/gorocksdb/write_batch.go:160-163 | Tags 0x0 and 0x7: a key |
| WriteBatch.FamilyDeletionLayout | dcrontab/gorocksdb/write_batch.go:164-170 | Tags 0x4 and 0x8: a column family id, converted to an int, and a key |
| WriteBatch.PutLayout | dcrontab/gorocksdb/write_batch.go:171-179 | Tags 0x1, 0x2, 0xF and 0x11: a key and a value |
| WriteBatch.FamilyPutLayout | dcrontab/gorocksdb/write_batch.go:180-191 | Tags 0x5, 0x6, 0xE and 0x10: a column family id, a key and a value |
| WriteBatch.ValueLayout | dcrontab/gorocksdb/write_batch.go:192-202 | Tags 0x3, 0xA, 0xB and 0xC: a value |
| WriteBatch.OtherLayout | dcrontab/gorocksdb/write_batch.go:194-205 | Tags 0x9, 0xD and 0x12: nothing; every higher tag is unsupported |
| WriteBatch.BatchPrefix | dcrontab/gorocksdb/write_batch.go:147-262 | On every prefix of an encoded list, iteration yields the whole records in it, then stops cleanly exactly at a record boundary and with ErrShortBuffer anywhere else |
| WriteBatch.WholeRecordsFit | dcrontab/gorocksdb/write_batch.go:147-262 | The number of whole records in a prefix is the largest that fits |
| WriteBatch.ParseRecordSuffix | dcrontab/gorocksdb/write_batch.go:147-209 | On any bytes, what a record parse leaves is a strict suffix |
| WriteBatch.AtMostOneRecordPerByte | dcrontab/gorocksdb/write_batch.go:147-209 | n bytes give at most n records |
| WriteBatch.ParseSliceSuffix | dcrontab/gorocksdb/write_batch.go:221-232 | A slice decode that does not panic leaves a suffix |
| WriteBatch.PanicIsExact | dcrontab/gorocksdb/write_batch.go:147-232 | On any bytes, iteration panics if and only if it reaches a record whose key or value length is 2^63 or more |
| WriteBatch.RecordPanic | dcrontab/gorocksdb/write_batch.go:147-232 | On any bytes, parsing one record panics if and only if the length of its key, or of its value once the key is read, is 2^63 or more |
| WriteBatch.PanicNeedsLongRun | dcrontab/gorocksdb/write_batch.go:221-262 | Hence data without nine bytes of 128 or more in a row never panics |
| WriteBatch.HugeLengthPanics | dcrontab/gorocksdb/write_batch.go:221-232 | A key length of 2^63 or more does panic |
| WriteBatchIteration.WriteBatchIterator.constructor | dcrontab/gorocksdb/write_batch.go:84-90 | Skips the 12-byte header, or everything in a shorter batch |
| WriteBatchIteration.WriteBatchIterator.DecodeVarint | dcrontab/gorocksdb/write_batch.go:244-262 | The loop decodes as varints are defined and leaves the data alone on errors |
| WriteBatchIteration.WriteBatchIterator.DecodeSlice | dcrontab/gorocksdb/write_batch.go:221-232 | Returns the length-prefixed bytes, a short-buffer error, or the slice panic |
| WriteBatchIteration.WriteBatchIterator.Next | dcrontab/gorocksdb/write_batch.go:147-209 | Parses one record as the grammar says; false at the end, on an error and ever after, with nothing changed |
| WriteBatchIteration.WriteBatchIterator.Drain | dcrontab/gorocksdb/write_batch.go:147-219 | The usual loop over Next yields the records and the error of the whole iteration |
| Cron.CheckCron | dcrontab/main.go:127-305 | A job is due if and only if all five fields match the time |
| Cron.MatchField | dcrontab/main.go:135-165 | The item loop decides whether the field is empty or some item matches |
| Cron.StepReaches | dcrontab/main.go:253-258 | The stepping loop terminates for every 64-bit step, also where the month counter wraps around, and finds the value if and only if the step is 0 or divides the distance from the field's first value |
| Cron.SplitIsExact | dcrontab/main.go:140 | The items of a field are the one list of texts without commas that, joined by commas, gives the field |
| Cron.EveryNth | dcrontab/main.go:89-90 | The field `*` `/n` matches every n-th value |
| Cron.StarMatches | dcrontab/main.go:137-144 | `*` and the empty field match every value |
| Cron.ListIsExact | dcrontab/main.go:136-162 | A list of items matches a value if and only if some item is `*`, a signed 64-bit number equal to it, or contains a first step n, 0 or dividing its distance from the field's first value |
| Cron.AtoiIsExact | dcrontab/main.go:145 | An item is read as v if and only if it is an optional sign and the decimal of v, leading zeros allowed, in the 64-bit range |
| Cron.StepIsExact | dcrontab/main.go:131-152 | The step of an item is the number, below 2^63, behind the leftmost star and slash that a digit follows, wherever in the item |
| Cron.ExactValue | dcrontab/main.go:145-150 | A plain number matches that value only |
| Cron.ListMeansOr | dcrontab/main.go:140-161 | A comma between non-empty fields means "or" |
| Timer.NoLongSleep | dcrontab/main.go:530-534 | In every run, at every tick nextTime is a whole minute no later than the tick being handled, and no sleep is longer than a minute |
| Timer.OneTickPerMinute | dcrontab/main.go:627-634 | Once a sleep has re-armed the ticker, while wake-up delay plus round time stays under a minute, the i-th tick is handled wholly within the i-th minute after it, none skipped or doubled, whoever leads |
| Timer.PassAims | dcrontab/main.go:627-638 | A follower's pass changes nothing; a leader done before the minute after nextTime sleeps to it and starts a ticker there; a later one keeps its ticker and aims from the minute it is in |
| Timer.FirstPassRearms | dcrontab/main.go:530-634 | The first pass sleeps if and only if the node leads and is done before the second whole minute after the one the worker started in, and is then re-armed at it |
| Timer.EveryMinuteFromStart | dcrontab/main.go:530-638 | From such a first pass on, while delays stay under a minute, tick i of the worker lies wholly within minute i + 2 after the one it started in |
| Timer.SleepRearms | dcrontab/main.go:628-631 | A sleep ends with a new ticker started at or after the whole minute aimed at |
| Timer.LeaderTimer.constructor | dcrontab/main.go:530-533 | The worker starts aiming at the next whole minute |
| Timer.LeaderTimer.HandleTick | dcrontab/main.go:536-638 | One pass of the loop changes nextTime and the ticker as the timer machine does |
| Bootstrap.Propose | dcrontab/main.go:556-578 | The proposing loop encodes a PUT of the root key and one per configured command, in order |
| Bootstrap.CommandKeyText | dcrontab/main.go:571 | The key of command idx is `__dcron::` followed by idx in decimal, without leading zeros |
| Bootstrap.ProposedBootstrapConverges | dcrontab/main.go:556-578 | Once a log prefix has all proposals of a bootstrap of text commands, and only such proposals write those keys, every replica holds the configuration |
| Bootstrap.ConfigMapContents | dcrontab/main.go:556-578 | A bootstrap stands for the root key plus one distinct key per command, with its text, and nothing else |
| Bootstrap.OverlappingBootstrapsConverge | dcrontab/main.go:552-579 | Any overlap of bootstraps of one configuration, one of them complete, leaves every configured key with its configured value, from any store and whatever other keys are put, under the root or not |
| Bootstrap.BootstrapTakesAll | dcrontab/main.go:552-579 | From an empty store that is so if and only if all puts of a bootstrap have been applied |
| Bootstrap.ReplicatedBootstrapConverges | dcrontab/main.go:552-579 | The store of every replica after a log prefix with such puts holds the configuration, whatever else the log writes |
| Bootstrap.ScanSeesConfiguration | dcrontab/main.go:539-553 | If nothing else is put under the root key, a scan of it sees exactly the map of the configuration |
| Bootstrap.NoSecondFirstRun | dcrontab/main.go:552-553 | Once any bootstrap put is in the log, no later scan of the root key is empty |
| CowList.COWList.Append | dcrontab/gorocksdb/cow.go:26-36 | Allocates, copies, fills and publishes a new slice: the list grows by the item at the returned index, and the slice published before keeps its contents |
| CowList.COWList.Get | dcrontab/gorocksdb/cow.go:39-42 | Returns the item whose Append returned the index, a panic if there is none |
| CowList.PublishedSlicesAreFixed | dcrontab/gorocksdb/cow.go:26-42 | For every interleaving of the single steps of appenders and readers, a slice once published is never written again and is a prefix of every slice published later |
| CowList.ReadersHoldPublished | dcrontab/gorocksdb/cow.go:39-42 | What a reader has loaded is always a published slice, never one being filled |
| CowList.IndexesAreDistinct | dcrontab/gorocksdb/cow.go:26-36 | No two Append calls return the same index |
| CowList.ListWhenQuiet | dcrontab/gorocksdb/cow.go:26-36 | When no Append is under way the mutex is free and the published slice holds the items of all calls, each at its index |
| CowList.IndexStaysInRange | dcrontab/gorocksdb/cow.go:26-42 | A Get that loads after an Append has returned finds its index in range |
| CowList.GetReturnsTheItem | dcrontab/gorocksdb/cow.go:26-42 | Whenever any reader indexes its loaded slice at an index that some Append returns, it gets the item of that Append |
| MergeFold.PartialMergeMulti | dcrontab/gorocksdb/merge_operator.go:109-126 | For an operator meeting its contract and two or more operands, success means the one result acts on every base value as the operands do in order; a failure is the operator's refusal |
| MergeFold.ResultStandsForPrefix | dcrontab/gorocksdb/merge_operator.go:31-44 | Such a result can replace its operands in front of any further ones |
| MergeFold.SingleOperandCanBeLost | dcrontab/gorocksdb/merge_operator.go:109-126 | With a single operand the empty result need not act like the operand |

## Left out

- Raft, elections and sessions: not part of the repository; only a totally ordered log is assumed, and nothing is claimed about a job running on one node only.
- The internals of JSON, MD5 and the regular expression engine: a codec contract, an arbitrary hash and a direct definition of the leftmost match stand for them.
- Replica.RunRefinesLog: excludes power losses on an exposed node after which the next Open does not start the same database; during the Open after a kill between rename and directory sync the node counts as exposed from the second disk step on, whether or not the old database has been touched by then. The file system writes back the whole directory or nothing, and not in the middle of a call.
- Hazards.FirstRunPowerLossIsExact: the entry of the node's data directory in its parent, which the source never syncs either, is taken as durable.
- Handles.EveryRunIsSafe: nothing is claimed about the panic for a lookup racing with Close.
- CommanderObject.Commander.Open: a pointer to a path outside the data directory counts as one to a missing directory.
- CommanderObject.Commander.RecoverFromSnapshot: a pointer to a path outside the data directory counts as corrupt; running out of memory below the allocation limit is not modelled.
- Snapshot.SavedStreamIsPointInTime: the handle is not closed meanwhile; the panics of PrepareSnapshot and SaveSnapshot on a closed node are not modelled.
- I/O errors in the middle of a disk step: an error stops the node, so it is a process crash at that step.
- Bootstrap.Propose: the commands are given as their JSON text, whose encoding cannot fail; proposals that time out are simply absent from the log.
- Running the jobs (shell, NATS), the console, parseCommand, configuration, TLS and node selection.
- The rest of gorocksdb: wrappers over the C library.
- CowList.COWList.Append: the mutex and the atomic value are in the interleaving model beside it, not in the class.
