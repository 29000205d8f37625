# A verified model of the bitcask-rs storage engine and its Redis layer

The engine keeps every key and value in append-only data files and only positions in memory. This project models the files
byte by byte, the engine as a class over a data directory, and every operation as an atomic step of a state machine, and it
proves that the fast things (the index, the hint file, merged files, what a restart rebuilds) always describe the same map as
the simple thing: the history of writes. A second part models the Redis collections on top.

## How the project is laid out

1. Bytes. `Wire`, `Varint` (Protocol Buffers Encoding guide, section "Base 128 Varints"), `LogRecord` (record, position and key
   codecs, the reader, the scan of a file), `DataFile` (the same as loops over buffers, and the handle that appends).
2. The log. `Replay` is the loop that rebuilds the index, on records; `Meaning` is what a log means without any loop;
   `Accounting` counts bytes; `Layout` says where records lie.
3. The state machine. `Store` has every operation, each step of a merge, power failure and restart. `Invariant`, `Merging` and
   `Reopening` are what the steps keep, `Recovery`, `Durability` and `Ledger` the theorems over whole runs, `Tombstone` and
   `WrongFile` two places where the code does not do what it means, `Compaction` what a whole merge leaves. `Concurrent` has the
   interleavings of many threads, `Serial` and `Exclusive` those that come to the same as one operation after the other.
4. The objects. `Directory` connects a log with the bytes of its files, `Misplaced` says what an append elsewhere does; `Indexer`
   is the index and its iterator; `Loading`, `Db`, `Batch`, `Startup`, `MergeRun` and `Snapshot` are the methods of the engine,
   each proved against the state machine.
5. Redis. `Meta` and `Keyspace` (whose key is whose), `RedisList`, `RedisTable` (hash and set), `RedisZSet`, `RedisRun` (runs of
   all of them together), and `Redis` with the commands as methods.

## Kills and power failures

A process that ends leaves every byte it wrote; the next engine reads them, syncs none of them and counts its own from 0. A
power failure leaves the synced records and any number of those after them. `KillEvent`, `PowerEvent` and `ReopenEvent` (a
`close`, which syncs, and an open) are separate events of a run. `synced` is what is really on disk and no opening moves it, so
a failure long after a kill can still take what the killed process had not synced. `floor` is the least cut of the log from
which on the merges installed so far are safe: only an install can raise it above `synced`.

## Where the code and its intention part

The state machine follows the code; two of its options say which of two readings is meant, and the theorems hold for both.

- `delete` logs the bare key (bitcask-rs/src/db.rs:277) although replay strips a sequence number off every key
  (bitcask-rs/src/db.rs:461). `RawKey` is the code, `SeqKey` the form every other record has. As written, the deletion of a
  live key is undone by the next restart (`RawDeleteExact`), so `RecoveryTheorem` allows deletes of live keys for `SeqKey` only.
- With several data files `open` pops the large ids off a sorted list and writes on to the file with the smallest
  (bitcask-rs/src/db.rs:129-141), while the comment at bitcask-rs/src/db.rs:610 and the write offset, taken from the last file
  (bitcask-rs/src/db.rs:500-502), mean the newest. `OldestFile` is the code, `NewestFile` the comment. Restarts still give the
  right map; whether the next write does is a matter of lengths (`ActiveExact`, `MisplacedExact`, `PutAfterRestart`), and so is
  what the restart after it makes of it (`PutLeaves`, `NextRestart`). `RecoveryTheorem` allows writes only through a handle on
  the newest file, which `NewestKept` characterises.
- Files mapped at startup hide a last record shorter than eleven bytes (`MmapScan`, `SeenAll`); restarts are allowed where
  no file but the newest ends in one, or files are not mapped.
- A merge never syncs the active file before it writes its marker, so a power failure after the marker can lose a key that
  was there before the merge (`LostKey`), also one that comes after the merge was installed (`LostKeyLater`). `InstallExact`,
  `InstallThenFailure` and `NoFailureLoses` give the exact conditions, and `RecoveryTheorem` asks for them (`FailureAllowed`).
- `bytes_per_sync` bounds what one engine leaves unsynced, not what a power failure can take: every restart that is not a clean
  close adds as much again (`SyncBoundHolds`, `UnsyncedTwice`).
- An append and the index update that follows it are two steps under two locks. `RecoveryTheorem` is about operations as single
  steps, which is what they are with nobody in between (`SerialIsSequential`); `GetNeverFails` holds for any interleaving.
  Index and log can fall out of step (`PutsCross`), but only for keys on which operations overlap (`QuietIsReplay`).
- A member of a sorted set can spell out the internal key of a score (`MemberScoreCollision`, `PhantomMember`), and a name the
  internal key of another name (`PhantomName`).

## Model

| member | source | states |
|---|---|---|
| `Varint.DecodeEncode` | bitcask-rs/src/batch.rs:143-161 | a varint followed by any bytes decodes to the number written and consumes exactly its own bytes, for every u64 |
| `Varint.PrefixCode` | bitcask-rs/src/batch.rs:143-161 | two varints with arbitrary tails share their bytes only if the numbers and the tails are equal |
| `Varint.EncodedLength` | bitcask-rs/src/data/log_record.rs:131-138 | the length the size computation uses is the number of bytes written |
| `Varint.EncodedGroups` | bitcask-rs/src/data/log_record.rs:108-116 | byte i of a varint is the i-th seven-bit group of the number, the least significant first, with the top bit on all but the last |
| `Varint.DecodeFitsU64` | bitcask-rs/src/batch.rs:153-161 | nothing a decoder accepts is outside u64 |
| `Wire.BigEndianDigits` | bitcask-rs/src/data/log_record.rs:122-127 | a fixed-width number is written in digits to the base 256, the most significant first |
| `LogRecord.EncodedSize` | bitcask-rs/src/data/log_record.rs:131-138 | `encoded_length` is the length of the encoding |
| `LogRecord.ReadBack` | bitcask-rs/src/data/data_file.rs:109-164 | a record written anywhere reads back as itself with its own size whatever bytes precede and follow it; the memory map refuses exactly when fewer than eleven bytes follow |
| `LogRecord.ReadStamped` | bitcask-rs/src/data/data_file.rs:147-156 | and if any other checksum stands behind those bytes they are refused as corrupt |
| `LogRecord.ReadVouches` | bitcask-rs/src/data/data_file.rs:109-164 | on arbitrary bytes at any offset, every record that is read has the type, key and value that are there and the checksum behind them is the one it would be written with |
| `LogRecord.AlteredRefused` | bitcask-rs/src/data/data_file.rs:147-156 | bytes changed under the checksum of what was written are never read as another record, if the checksum tells the two apart |
| `LogRecord.HeaderBound` | bitcask-rs/src/data/log_record.rs:52-54 | the header buffer holds a type and two lengths of 32 bits: no header is longer, one is as long, and exactly two lengths from 2^28 on make one so |
| `LogRecord.KnownRecords` | bitcask-rs/src/data/log_record.rs:181-226 | the three encodings written out in the tests |
| `LogRecord.ReadInFile` | bitcask-rs/src/data/data_file.rs:109-164 | reading at the summed size of the records before it gives exactly that record of a file |
| `LogRecord.ScanFile` | bitcask-rs/src/db.rs:437-498 | scanning the concatenated encodings gives exactly the records, at running-sum offsets, and then stops at the end of the file |
| `LogRecord.ScanExact` | bitcask-rs/src/db.rs:437-498 | a scan of arbitrary bytes succeeds with the records that read one after the other up to a place that reads as the end of the file, and fails with the error of the first place that reads as neither |
| `LogRecord.MmapScan` | bitcask-rs/src/fio/mmap.rs:52-63 | the mapped scan is the standard scan minus a last record shorter than eleven bytes; they agree if and only if the file is empty or its last record is long enough |
| `LogRecord.PosRoundTrip` | bitcask-rs/src/data/log_record.rs:57-75 | positions decode to themselves over the full u32/u64/u32 ranges |
| `LogRecord.PosCodecInjective` | bitcask-rs/src/data/log_record.rs:150-156 | different positions have different bytes |
| `LogRecord.KeyRoundTrip` | bitcask-rs/src/batch.rs:143-161 | a key written with a sequence number parses to that key and number |
| `LogRecord.KeyCodecInjective` | bitcask-rs/src/batch.rs:143-150 | the key with its number determines both |
| `DataFile.EncodeVarint` | bitcask-rs/src/data/log_record.rs:108-116 | the seven-bits-at-a-time loop writes the base 128 varint |
| `DataFile.EncodeRecord` | bitcask-rs/src/data/log_record.rs:99-129 | building the buffer step by step gives the encoding, with the checksum of everything before it |
| `DataFile.ReadStandard` | bitcask-rs/src/fio/file_io.rs:38-46 | fills the buffer from the file as far as the file goes and leaves the rest alone |
| `DataFile.ReadMapped` | bitcask-rs/src/fio/mmap.rs:52-63 | fills the whole buffer or reports the end of the file and touches nothing |
| `DataFile.ReadLogRecord` | bitcask-rs/src/data/data_file.rs:109-164 | the two buffered reads, the length decoding, the type and checksum tests, on arbitrary bytes and in every error case |
| `DataFile.Handle.Write` | bitcask-rs/src/data/data_file.rs:166-176 | bytes go to the end of the file, the write offset moves by their number; an empty buffer is refused and changes nothing |
| `Replay.MaxSeqIsMax` | bitcask-rs/src/db.rs:492-494 | the sequence number a replay reports is the largest in the log, finished or not |
| `Replay.RunCompose` | bitcask-rs/src/db.rs:432-498 | replaying a log is replaying its end on top of its start, if no batch crosses the cut |
| `Replay.BatchBuffered` | bitcask-rs/src/db.rs:480-489 | records of a batch change nothing but the buffer of that batch |
| `Replay.BatchApplied` | bitcask-rs/src/db.rs:469-479 | the finishing record applies the whole batch at once and empties its buffer |
| `Replay.ReplayKnown` | bitcask-rs/src/db.rs:465-490 | every slot a replay ends with, and every buffered update, comes from a record of the log that says so |
| `Meaning.ReplayMeaning` | bitcask-rs/src/db.rs:465-490 | one-pass replay refines the declarative meaning: for every log and key the replayed slot is that of the last update in effect, a batch update taking effect at its finishing record and never without one |
| `Meaning.IndexMeaning` | bitcask-rs/src/db.rs:508-524 | a key is in the rebuilt index with a slot if and only if the update that decides it is the put of that slot |
| `Meaning.BatchOrderIrrelevant` | bitcask-rs/src/batch.rs:92-134 | the order in which a batch hands out its distinct keys does not change what it does |
| `Layout.PlaceMonotone` | bitcask-rs/src/db.rs:353-372 | greedy rotation is monotone: a writer that is not ahead and writes no larger records does not get ahead, oversized records included |
| `Layout.LaidDistinct` | bitcask-rs/src/db.rs:370-398 | no two records of the log share a file and offset |
| `Invariant.PutOk` | bitcask-rs/src/db.rs:198-220 | a put keeps the log well laid and the index equal to the replay of the log, and adds exactly that key and value to it |
| `Invariant.DeleteOk` | bitcask-rs/src/db.rs:265-290 | so does a delete, if its tombstone carries the sequence number or nothing is written; the key is recorded as deleted |
| `Invariant.CommitOk` | bitcask-rs/src/batch.rs:74-139 | a commit keeps the index equal to the replay; the replayed image changes by all the items at once and no buffer changes |
| `Invariant.TornOk` | bitcask-rs/src/batch.rs:92-109 | a commit that stops before its finishing record leaves the replayed image as it was |
| `Merging.SeenAll` | bitcask-rs/src/db.rs:608-615 | an opening scan that maps files sees every record if and only if no file but the newest ends in a record shorter than eleven bytes |
| `Merging.ScanIsRun` | bitcask-rs/src/db.rs:164-174 | hint file plus the files from the marker on give the state a replay of all files gives |
| `Merging.PackingBound` | bitcask-rs/src/merge.rs:61-115 | the merge writer is never ahead of its reader and every merged file id is below the marker |
| `Merging.MergeBeginInv` | bitcask-rs/src/merge.rs:138-180 | starting a merge keeps the whole invariant |
| `Merging.MergeStepInv` | bitcask-rs/src/merge.rs:76-103 | each copy step keeps it, whatever ran in between: what is copied was live when the merge began with the same value, no key twice, and what was passed over was overwritten since |
| `Merging.MergeFinishInv` | bitcask-rs/src/merge.rs:112-127 | writing the marker keeps it |
| `Reopening.OpenOk` | bitcask-rs/src/db.rs:76-195 | opening gives the index of the whole log, the counter of its replay, a sequence number above every one in it and the end of the newest file as write offset; what was not synced before is not synced after |
| `Reopening.OpenInstalled` | bitcask-rs/src/merge.rs:213-298 | opening after the marker, whatever a kill or a power failure left, yields the rewritten records followed by the newer ones that are there, with the invariant, and no more of the newer ones synced than before |
| `Reopening.InstallExact` | bitcask-rs/src/merge.rs:273-289 | installing a finished merge gives exactly the map of the records that are there if and only if every key the merge passed over is still overwritten or deleted by one of the newer records that are there |
| `Reopening.NoFailureLoses` | bitcask-rs/src/merge.rs:105-127 | no power failure under a finished merge loses a key if and only if the records synced so far cover the keys the merge passed over, which can be looked up before any failure |
| `Reopening.InstallThenFailure` | bitcask-rs/src/db.rs:76-195 | a kill under a finished merge loses nothing; a power failure after the merge was installed keeps the map of the records it leaves under the same condition as one before |
| `Reopening.MergeInvisible` | bitcask-rs/src/merge.rs:74-127 | opening with every record in place gives exactly the live map, before the marker (merge discarded) and after it (merge installed) |
| `Recovery.RecoveryTheorem` | bitcask-rs/src/db.rs:402-524 | over every run of operations, merge steps, kills, power failures and reopens the index holds exactly the map of the operations whose last record survived; and of all prefixes the next power failure may leave, down to what is really synced, exactly those from the floor on replay to the map of the operations whose last record they keep |
| `Recovery.FailureAllowed` | bitcask-rs/src/db.rs:402-524 | in every reachable state, after any power failure that leaves the synced records, the opened engine shows that map if and only if the failure is one the theorem allows |
| `Recovery.InstalledHistory` | bitcask-rs/src/merge.rs:213-298 | an install moves every cut of the log along and the floor to the least cut that covers what the merge passed over |
| `Recovery.NeverResurrected` | bitcask-rs/src/db.rs:171-174 | over every run the next sequence number is above every one in the log and every one still buffered, and no record the next event adds, restarts and installs included, finishes a batch that was buffered before it |
| `Recovery.NewestKept` | bitcask-rs/src/db.rs:129-141 | the active handle stays on the newest file; over a restart it does if and only if that was intended or there is only one file |
| `Durability.SyncBoundHolds` | bitcask-rs/src/db.rs:374-391 | in every reachable state the unsynced bytes are at most the counter plus what the engine found unsynced when it was opened; nothing with `sync_writes`; with `bytes_per_sync` and k restarts at most k + 1 times one less than it |
| `Durability.UnsyncedTwice` | bitcask-rs/src/db.rs:76-195 | for one restart that bound is attained: opening syncs nothing and counts from 0 again |
| `Durability.DurableForever` | bitcask-rs/src/db.rs:355-391 | an operation whose last record no power failure can take is in the surviving history after every later run |
| `Durability.RestartLeaves` | bitcask-rs/src/db.rs:76-195 | what a kill, a power failure and a close leave of the log and of what is synced, a finished merge to install or not |
| `Durability.CloseIsClean` | bitcask-rs/src/db.rs:317-341 | a close and an opening lose nothing and leave every record on disk if and only if the handle is on the newest file or there was nothing to sync |
| `Durability.ClosedForGood` | bitcask-rs/src/db.rs:317-341 | after any run and a close on the newest file, any number of kills, power failures and openings with nothing written between show the map there was |
| `Durability.SyncLeaves` | bitcask-rs/src/db.rs:293-295 | a sync on the newest file leaves nothing for a power failure to take, and changes nothing else |
| `Durability.TornLeaves` | bitcask-rs/src/batch.rs:92-109 | a commit that stops early leaves its records in the log under a number not used again, and index, replayed image and history as they were |
| `Durability.CommitIsDurable` | bitcask-rs/src/batch.rs:103-114 | a synced commit is never lost, whole, however many files it spans |
| `Durability.SyncedMergeSafe` | bitcask-rs/src/merge.rs:149-156 | with `sync_writes` a finished merge always meets the condition of `InstallExact` |
| `Durability.LostKey` | bitcask-rs/src/merge.rs:87-128 | without it a key is lost: overwritten during a merge, not copied, the overwrite not synced when the marker is written |
| `Durability.LostKeyLater` | bitcask-rs/src/merge.rs:87-128 | also after a kill and an opening that installed the merge and showed the new value: the next power failure leaves neither value |
| `Accounting.Balance` | bitcask-rs/src/db.rs:509-524 | bytes of a log are those of the live records, of the reclaim counter of its replay, of finishing records and of buffered batches |
| `Accounting.ReclaimBounded` | bitcask-rs/src/merge.rs:35-46 | the counter of a replay plus the live bytes never exceed the bytes of the log |
| `Ledger.LedgerTheorem` | bitcask-rs/src/db.rs:214-217 | over every run file bytes are indexed bytes plus the counter plus an exactly known rest, so the subtraction in `merge` cannot underflow |
| `Ledger.ReopenCounter` | bitcask-rs/src/batch.rs:117-133 | a restart raises the counter by exactly the tombstones of batches committed since the last one |
| `Ledger.MergeWritesLess` | bitcask-rs/src/merge.rs:87-97 | what a merge has written takes at most the bytes of the records live when it began |
| `Ledger.MergeFitsEstimate` | bitcask-rs/src/merge.rs:35-46 | whatever runs between its steps, that is at most the bytes of the data files less the live reclaim counter, both as they were when it began |
| `Ledger.MergeFitsDisk` | bitcask-rs/src/merge.rs:41-46 | so a merge that is not refused for want of space writes fewer bytes than there are |
| `Compaction.MergeCompacts` | bitcask-rs/src/merge.rs:23-128 | from any state of a run, a whole merge with nothing written meanwhile and a restart of any kind leave the same map, exactly one record for each key, no reclaimable byte and no other byte |
| `Compaction.EmptyExact` | bitcask-rs/src/merge.rs:131-136 | the guard of `merge` holds if and only if no record is there and no file above the last marker |
| `Tombstone.RawTombstoneView` | bitcask-rs/src/db.rs:277 | the tombstone as written is, to a replay, about some other key; a first byte in 1..=127 becomes its sequence number |
| `Tombstone.RawDeleteExact` | bitcask-rs/src/db.rs:265-290 | with the tombstone as written a restart after a delete shows the live map if and only if the key was not live |
| `Tombstone.StrayDeletion` | bitcask-rs/src/db.rs:277 | and a later batch can make it delete a different key that nobody deleted |
| `Concurrent.InterleaveGood` | bitcask-rs/src/db.rs:198-290 | from any engine whose index vouches for its log, under every interleaving of append, rotation and index steps, each index entry and each position a thread holds was put for its key by a record of the log, and the files hold the log |
| `Concurrent.GetNeverFails` | bitcask-rs/src/db.rs:223-262 | so a get that found an entry never meets a missing file, a bad record or a tombstone, and returns a value there was or that was put for that key |
| `Concurrent.PutsCross` | bitcask-rs/src/db.rs:211-217 | two puts of one key can cross between append and index update; whatever the engine held, index and log then disagree |
| `Serial.SerialIsSequential` | bitcask-rs/src/db.rs:198-290 | calls of any threads one after the other leave what the operations do as single steps of the state machine: the steps of a put, a delete, a commit and a rotation with nobody in between are the operation |
| `Serial.CommitAlone` | bitcask-rs/src/batch.rs:74-139 | the steps of a commit, with and without a sync, are the commit, and give the lock back |
| `Serial.DeleteTakesEffect` | bitcask-rs/src/db.rs:283-288 | whatever others did since, the last step of a delete takes the key, and only it, out of the index, and the next get of it finds nothing |
| `Serial.PutTakesEffect` | bitcask-rs/src/db.rs:211-217 | and that of a put enters its record, which the next get finds |
| `Serial.GetAlone` | bitcask-rs/src/db.rs:223-234 | a get takes the slot the index has, keeps it while others go on, and changes nothing |
| `Exclusive.KeysKept` | bitcask-rs/src/db.rs:198-290 | in every interleaving in which no two operations on one key overlap, the index has at every moment, for every key nobody is busy with, what a replay of the log gives |
| `Exclusive.QuietIsReplay` | bitcask-rs/src/db.rs:198-290 | so once it is over the index is that of the log, and an opening would find what the engine shows |
| `Directory.FileLength` | bitcask-rs/src/data/data_file.rs:166-176 | the write offset of a well-laid log is the length of the newest file |
| `Directory.ReadsBack` | bitcask-rs/src/db.rs:237-262 | every record of the log reads back from the files at its position |
| `Directory.AppendHolds` | bitcask-rs/src/db.rs:343-399 | an append through a handle on the newest file adds one record to the log the files hold, at the position returned |
| `Directory.FetchSound` | bitcask-rs/src/db.rs:237-262 | a position the log vouches for leads to its value |
| `Misplaced.AppendReads` | bitcask-rs/src/data/data_file.rs:166-176 | a put placed at the end of the file it lands in reads back, with its own size |
| `Misplaced.StayersExact` | bitcask-rs/src/db.rs:343-399 | the puts that stay in the file of the handle all read back if and only if the write offset is the length of that file |
| `Misplaced.RotatorsExact` | bitcask-rs/src/db.rs:353-372 | the puts that start the next file all read back if and only if that file is empty or not there yet |
| `Db.Engine.AppendLogRecord` | bitcask-rs/src/db.rs:343-399 | the new bytes, handle, position, sync and counter, in every state; on the newest file, the append of the state machine |
| `Db.Engine.Put` | bitcask-rs/src/db.rs:198-220 | the put of the state machine, the empty key refused; and what it does to files and index in any state |
| `Db.Engine.Get` | bitcask-rs/src/db.rs:223-234 | the value of the map, KeyNotFound for a missing key, KeyIsEmpty for an empty one |
| `Db.Engine.GetByPosition` | bitcask-rs/src/db.rs:237-262 | reads the active or an older file, DataFileNotFound and tombstone cases included |
| `Db.Engine.Delete` | bitcask-rs/src/db.rs:265-290 | the delete of the state machine, nothing written for a missing key |
| `Db.Engine.Sync` | bitcask-rs/src/db.rs:293-295 | makes the active file, and only it, durable; the sync of the state machine wherever the handle is |
| `Db.Engine.Close` | bitcask-rs/src/db.rs:317-341 | the sync of a close: on the newest file every byte of every data file is durable |
| `Db.Engine.AppendBatch` | bitcask-rs/src/batch.rs:90-101 | the bytes of the records of a batch and for each key the position noted, in every state; on the newest file, the records in the log and where each is |
| `Db.Engine.UpdateBatch` | bitcask-rs/src/batch.rs:116-134 | the index and the counter after a committed batch, in every state |
| `Batch.StagingMeans` | bitcask-rs/src/batch.rs:42-71 | staging puts and deletes, the drop-instead-of-tombstone shortcut included, and overlaying the result is running them directly |
| `Batch.CommitInstalls` | bitcask-rs/src/batch.rs:116-134 | whatever the order of iteration, a commit leaves the overlay of the batch on the map |
| `Batch.WriteBatch.Delete` | bitcask-rs/src/batch.rs:55-71 | drops a staged write of a key the engine does not have, stages a tombstone otherwise |
| `Batch.WriteBatch.Commit` | bitcask-rs/src/batch.rs:74-139 | files and index after a commit of the staged writes in some order, in every state, the batch emptied, or kept if it is too large; on the newest file, the commit of the state machine |
| `Indexer.BelowExact` | bitcask-rs/src/index/btree.rs:48-64 | the comparison is lexicographic: a proper prefix, or a smaller byte where the two first differ |
| `Indexer.SnapshotExact` | bitcask-rs/src/index/btree.rs:48-64 | an iterator walks over exactly the entries of the index, strictly ordered by byte in its direction |
| `Indexer.TreeIterator.Seek` | bitcask-rs/src/index/btree.rs:81-92 | the binary search stops at the first entry that is not before the key |
| `Indexer.TreeIterator.Next` | bitcask-rs/src/index/btree.rs:94-108 | returns what is left one by one, then None for ever |
| `Indexer.SeekExact` | bitcask-rs/src/index/skiplist.rs:86-113 | after a seek the entries to come are exactly those with the prefix at or past the key, once each and in order |
| `Snapshot.Iterator.Next` | bitcask-rs/src/iterator.rs:51-59 | the next pair of the map at creation, however much was written since |
| `Snapshot.Fold` | bitcask-rs/src/iterator.rs:26-37 | gives the function the pairs in order up to the first it answers false to |
| `Snapshot.FoldIsTheMap` | bitcask-rs/src/iterator.rs:26-37 | unstopped, that is the whole map, each key once, in byte order |
| `Snapshot.SnapshotSurvives` | bitcask-rs/src/iterator.rs:13-18 | after any run without a restart the positions of a snapshot still lead to its values |
| `Snapshot.OperateSound` | bitcask-rs/src/db.rs:198-290 | no operation but a restart makes the index vouch for a record that is not there, whatever its tombstones look like |
| `Snapshot.SoundAlways` | bitcask-rs/src/iterator.rs:13-37 | in every state of every allowed run the index vouches only for records that are there, so an iterator or a fold may start at any time |
| `Loading.UpdateIndex` | bitcask-rs/src/db.rs:509-524 | one replayed update of the index and the bytes it frees |
| `Loading.LoadFile` | bitcask-rs/src/db.rs:437-498 | the inner loop on arbitrary bytes: fails exactly when the scan or a key does, otherwise replays what the scan found |
| `Loading.LoadDataFiles` | bitcask-rs/src/db.rs:402-506 | the loop over the files, those below the marker skipped |
| `Loading.LoadIsScan` | bitcask-rs/src/db.rs:402-506 | on the files of a log this is the replay of the records a scan sees, mapped files included, ending at the write offset of the newest file |
| `Loading.LoadHints` | bitcask-rs/src/merge.rs:183-209 | the index a hint file describes, on arbitrary bytes |
| `Loading.HintsLoad` | bitcask-rs/src/data/data_file.rs:179-185 | hints written by a merge load as the keys and positions it noted |
| `Loading.HintPlacesExact` | bitcask-rs/src/merge.rs:183-209 | a hint file is refused if and only if a position in it does not decode |
| `Loading.LastHintCounts` | bitcask-rs/src/merge.rs:183-209 | otherwise every key in it gets the position of its last hint, and no other key any |
| `Startup.LoadMergeFiles` | bitcask-rs/src/merge.rs:213-298 | an unfinished merge is discarded, a finished one replaces the files below its marker; directory, what of it is durable, and state machine agree afterwards |
| `Startup.InstallDisk` | bitcask-rs/src/merge.rs:273-289 | the files after an install hold the rewritten records and the newer ones |
| `Startup.Open` | bitcask-rs/src/db.rs:76-195 | fails exactly when the state machine does; otherwise the engine stands for the opened store: index, counters, handle, write offset; no byte becomes durable by it, and no index entry leads nowhere |
| `Startup.OpenSound` | bitcask-rs/src/db.rs:164-174 | even where the opening scan misses a record, every entry of the index was put there by a record of the log |
| `Startup.FailureLeaves` | bitcask-rs/src/db.rs:355-391 | a power failure on bytes: cutting the newest file behind any unsynced record takes nothing durable and leaves a directory of the store with those records left |
| `Startup.ActiveExact` | bitcask-rs/src/db.rs:129-141 | the file chosen for writing is the newest one if and only if that was intended or there is no other |
| `WrongFile.RestartDuringMerge` | bitcask-rs/src/db.rs:129-141 | opening while a merge had only begun keeps the map and leaves the handle on the oldest file at offset 0 |
| `WrongFile.PutAfterRestart` | bitcask-rs/src/db.rs:129-141 | after it the puts that fit read back if and only if the oldest file is empty; otherwise each is answered with the first record of that file |
| `WrongFile.MisplacedExact` | bitcask-rs/src/db.rs:129-141 | of any engine whose files hold its log, wherever its handle is: when the puts that stay, and those that start the next file, all read back, in terms of where the records of the files end |
| `WrongFile.FirstRecordInstead` | bitcask-rs/src/db.rs:129-141 | with an empty newest file, a put through a handle on a file that holds records is answered with the first of them |
| `WrongFile.PutLeaves` | bitcask-rs/src/data/data_file.rs:166-176 | what a put through any handle leaves on disk: the log with the put behind the records of the file it landed in |
| `WrongFile.NextRestart` | bitcask-rs/src/db.rs:402-506 | the next opening drops a put in a file below the marker of the last installed merge, and replays any other as made when its file was written to last: it counts unless a record of a later file rewrites the key |
| `MergeRun.RotateMergeFiles` | bitcask-rs/src/merge.rs:138-180 | all files there were, in order, and an active file with the next id, in every state; on the newest file, the start of the merge |
| `MergeRun.CopyIfLive` | bitcask-rs/src/merge.rs:87-101 | copies the record and notes its hint exactly when the state machine does |
| `MergeRun.MergeFile` | bitcask-rs/src/merge.rs:74-103 | the copy steps for one file, stopping exactly at a key that does not parse |
| `MergeRun.CloseMerge` | bitcask-rs/src/merge.rs:105-127 | merged files and hints are synced before the marker is written, and neither after an error |
| `MergeRun.Merge` | bitcask-rs/src/merge.rs:23-128 | the tests for an empty engine, the ratio and the free space, in their order and without effect when they refuse; otherwise all copy steps and the marker, and the merge directory holds what the state machine says it wrote |
| `Meta.RoundTrip` | redis/src/meta.rs:45-92 | metadata decodes to itself over the full u128/u32/u64 ranges, head and tail for lists only |
| `Meta.ListKeyInjective` | redis/src/meta.rs:119-129 | a list slot determines its list, version and index |
| `Meta.SetKeyInjective` | redis/src/meta.rs:106-117 | a set key determines its member |
| `Meta.ScoreKeyInjective` | redis/src/meta.rs:142-153 | a score key determines score and member |
| `Meta.MemberScoreCollision` | redis/src/meta.rs:131-153 | a member key and a score key are the same bytes if and only if the member spells out the score, the other member and its length |
| `RedisList.ListRefinesDeque` | redis/src/types.rs:296-372 | over every run on any number of lists each command answers what a deque answers; popped slots are never seen again |
| `RedisList.OthersHold` | redis/src/types.rs:312-339 | a command on one list does not disturb another |
| `RedisList.PushExact` | redis/src/types.rs:312-339 | whatever the counters are, a push fails exactly where they would leave their 64 and 32 bits, and otherwise fills the slot next to the window |
| `RedisList.PopExact` | redis/src/types.rs:341-372 | a pop takes the slot at its end of the window, or says that there is none |
| `Keyspace.NoZerosApart` | redis/src/meta.rs:94-153 | internal keys of different names never meet if the names have no zero byte and times stay below 2^120 |
| `Keyspace.PrefixFreeApart` | redis/src/meta.rs:94-153 | nor if no name begins another |
| `Keyspace.FrameOthers` | redis/src/types.rs:83-444 | a command on one name leaves every key of every other name alone |
| `RedisRun.RunRefines` | redis/src/types.rs:35-444 | over every run of string, hash, set, list and sorted set commands, type queries and deletions, on any number of names whose keys never meet, each command answers what the value of its name answers, and is refused on a value of another kind; nothing of a deleted or replaced structure shows |
| `RedisRun.SetThenGet` | redis/src/types.rs:35-80 | a text set with a time to live is answered until that time has passed and not from then on, without one always; no other name notices |
| `Keyspace.FoundUntilExpiry` | redis/src/types.rs:164-213 | metadata is found until it expires, by a command of its kind; from then on the name is as good as new |
| `RedisRun.TypeIsFirstByte` | redis/src/generic.rs:9-12 | the type of a name is told by the first byte of what it holds, 0 to 4, whatever follows |
| `RedisRun.SizeIsCount` | redis/src/types.rs:102-106 | after every such run the size stored for every structure is the number of its fields, members or elements |
| `RedisRun.FieldsMatch` | redis/src/types.rs:83-293 | and every hash and set has exactly its fields or members under the keys of its version |
| `RedisRun.PhantomName` | redis/src/meta.rs:94-104 | names that meet are where it fails: after one field was set an unused name has a type if and only if it is the key of that field |
| `RedisTable.StepHolds` | redis/src/types.rs:83-293 | one command of a hash or set answers what a map answers and changes only keys of its own name and version |
| `RedisZSet.StepHolds` | redis/src/types.rs:375-444 | with names that can be told apart, one command of a sorted set answers what a map from members to scores answers and changes only keys of its own name and version |
| `RedisRun.ScoresMatchMembers` | redis/src/types.rs:404-423 | after every such run every member of every sorted set has its member key and exactly one score key, under its score, and no other score key is there |
| `RedisZSet.PhantomMember` | redis/src/types.rs:428-443 | after one add another member seems to be there if and only if its name is the score, the member and its length |
| `Redis.RedisDataStructure.FindMetadata` | redis/src/types.rs:164-213 | stored, wrong type, expired or new, with the list mark for lists |
| `Redis.RedisDataStructure.PushInner` | redis/src/types.rs:312-339 | one batch with the slot next to the window and the wider window |
| `Redis.RedisDataStructure.PopInner` | redis/src/types.rs:341-372 | the element at the end of the window, and the narrower window |
| `Redis.RedisDataStructure.HSet` | redis/src/types.rs:83-112 | a new field and the larger size go in one batch, a known field alone |
| `Redis.RedisDataStructure.HGet` | redis/src/types.rs:114-130 | a missing field of a hash with others is an error, of an empty one nothing |
| `Redis.RedisDataStructure.HDel` | redis/src/types.rs:132-162 | the field and its share of the size go in one batch |
| `Redis.RedisDataStructure.SAdd` | redis/src/types.rs:216-242 | adds a member once |
| `Redis.RedisDataStructure.SIsMember` | redis/src/types.rs:244-266 | false for an empty set without looking |
| `Redis.RedisDataStructure.SRem` | redis/src/types.rs:268-293 | the member and its share of the size go in one batch |
| `Redis.RedisDataStructure.ZAdd` | redis/src/types.rs:375-426 | one batch that moves the member from its old score to the new one |
| `Redis.RedisDataStructure.ZScore` | redis/src/types.rs:428-444 | the score, nothing for an empty set, an error for a missing member |
| `Redis.RedisDataStructure.SetText` | redis/src/types.rs:35-57 | replaces whatever kind of value the name had, with the time at which it expires; nothing for an empty text |
| `Redis.RedisDataStructure.GetText` | redis/src/types.rs:59-80 | the text, nothing once it has expired, an error for a missing name or another kind |
| `Redis.RedisDataStructure.KeyType` | redis/src/generic.rs:9-12 | the type of the value, of a structure that has become empty too |
| `Redis.RedisDataStructure.Del` | redis/src/generic.rs:5-7 | only the metadata goes |

## Left out

- I/O errors, short writes, and failures inside one record or in the middle of installing a merge: a power failure cuts the log between records, an install is one step, and files that were created, moved or removed stay so.
- The B+ tree index and the sequence number file: that mode neither loads hints nor replays data; `load_seq_no`, `backup` and what `close` writes to that file go with it.
- The order of lock acquisition, deadlock, and memory ordering: a step is what happens under one lock.
- The index structures themselves (B-tree, skip list), protobuf and the checksum: the index is a map, varints are written out, the checksum is any fixed function of the bytes.
- The lock file, directory listing, file names, the decimal text in the marker: foreign calls; the size of the directory and the free disk space are parameters of `MergeRun.Merge`, and its ratio is a real number.
- Integer widths of file ids, offsets and counters in the state machine: unbounded there; lengths are bounded by u32 where records are written, and sequence numbers by u64.
- A key or value length in a corrupt header large enough to overflow the sum of the lengths: lengths are added without bound.
- Invariant.DeleteOk: the tombstone of a live key as the code writes it is not covered; what becomes of it is `RawDeleteExact` and `StrayDeletion`.
- MergeRun.Merge: the handle is on the newest file and nothing else writes while the method runs; merges with writes in between are the copy steps of the state machine (`MergeStepInv`, `MergeInvisible`).
- Batch.WriteBatch.Commit: an append that fails part of the way is not a case of the method; it is the torn commit of the state machine (`TornOk`).
- DataFile.ReadStandard: a read returns fewer bytes than asked for only at the end of the file.
- Recovery.RecoveryTheorem: options stay the same for a whole run, and positions of values are those of the log, not of the bytes, which `ReadsBack` adds.
- RedisRun.RunRefines: runs shorter than 2^32 commands, where no counter can overflow (an overflow is an error reply in the model), with a clock that ticks between commands; times are parameters, and a time to live that ends after the clock does is not considered.
- RedisZSet.StepHolds: scores are their texts, equal scores having equal texts, so signed zeros and NaN are not considered.
- RedisList.ListRefinesDeque: the same bounds, for names that are only asked not to be slots of one another.
- UTF-8 checks of stored text, argument parsing, the HTTP and Redis servers, benches and examples.
