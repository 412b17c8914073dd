# Verified models of the storage engine and the wire codec

The application keeps its data in Firestore, whose client stores documents in LevelDB and speaks
Protocol Buffers through nanopb; both are vendored under `Seda/Pods`. This project models the two cores in
Dafny and proves what they are for. `dafny verify dfyconfig.toml` checks all of it.

**The multi-version store.** The database is a set of entries (user key, sequence number, value or
deletion). The value of a key at a snapshot is that of its entry with the largest sequence number at or
below the snapshot, and a deletion means absent: `MultiVersion.Read`.

- `compaction.dfy`, `snapshot_list.dfy`: compaction drops entries and changes no read at any live or later
  snapshot.
- `db_iter.dfy`: the two-directional iterator over raw entries looks like a plain cursor over the sorted map
  of visible keys, in every sequence of calls.
- `skip_list.dfy`, `mem_table.dfy`: the skip list is a sorted set at every single store of an insertion, and
  searches interleaved with any number of insertions, started at any point of them, find the right node.
- `point_lookup.dfy`: the search through memtables and levels finds what the specification reads.

**The write path and recovery.**

- `log_format.dfy`, `log_writer.dfy`, `log_reader.dfy`, `log_round_trip.dfy`: records over 32 KiB blocks;
  reading any prefix of a log returns exactly the records that are whole in it; whatever is behind a log, its
  records are read first; and what a failed append does to the records behind it.
- `log_integrity.dfy`: what is read from any file is there as the writer writes it, checksums included.
- `write_batch.dfy`, `recovery.dfy`: replaying a log that was cut anywhere inserts exactly the groups that
  are whole in it.
- `batch_reads.dfy`: what a batch means to a reader.
- `group_commit.dfy`, `group_commit_safety.dfy`: the queue of writers as a state machine whose threads
  interleave in every way; order, atomicity, durability and completion of group commits in every run, down
  to the bytes of the log and their recovery after a crash.
- `durability.dfy`, `durability_steps.dfy`, `durability_safety.dfy`, `retention.dfy`: memtable switches,
  compactions that drop entries, appends and MANIFEST writes that may fail with unknown outcome, file
  deletion, snapshots and scheduling as a second state machine; at every moment, reading the store gives what
  was acknowledged, so does what a recovery would find of it unless an append has failed, and no wakeup is
  lost.
- `durability_return.dfy`: what a failed append puts at risk, and when durability returns.
- `durability_files.dfy`, `durability_room.dfy`: after a compaction no obsolete file is left, and level 0 never
  grows beyond its limit.
- `durability_levels.dfy`: in every reachable state the levels are in the order that the early-stopping lookup
  of `point_lookup.dfy` needs, so that it finds what was acknowledged.
- `version_edit.dfy`, `coding.dfy`, `db_format.dfy`: the encodings below all this; `formats.dfy` states them
  in numbers.

**nanopb.**

- `pb_varint.dfy`: variable-length integers, including exactly what the 32-bit decoder takes.
- `pb_field_iter.dfy`: the iterator over field descriptors and struct members.
- `pb_message.dfy`, `pb_encode.dfy`: messages, their encoding as a function, and the encoder over sizing and
  writing streams that meets it.
- `pb_decoding.dfy`, `pb_istream.dfy`, `pb_decode.dfy`: decoding of any bytes as a function, and the decoder
  over streams and substreams, with its bitmap of required fields, that meets it.
- `pb_round_trip.dfy`, `pb_terminators.dfy`, `pb_merge.dfy`, `pb_codec.dfy`: decoding inverts encoding for
  every schema and every well-formed message, up to zeros of proto3 fields, and exactly when; strings without
  terminators, merging, unknown fields, required fields.
- `pb_submessages.dfy`, `pb_arrays.dfy`, `pb_wire.dfy`: submessages that occur more than once, packed and other
  arrays, and the wire format and its checks in numbers.

## How the source is modelled

- Loops and objects of the source are methods and classes here, each proved against a function on values;
  the theorems are about those functions. Concurrency is a state machine: one step runs from one point at
  which the mutex is free to the next, or is one atomic store or load of the skip list.
- User keys are reals, their place under the user comparator. Byte strings are countable, so every total
  order on them embeds in the reals; for the default comparator the embedding is `DbFormat.Rank`, and it is
  proved to be one.
- An internal iterator is a position in a fixed sorted list of parsable entries, a table file is such a list,
  and a file is a string of bytes. Reads of the log file never fail in `log_reader.dfy`. In `log_writer.dfy` the
  file takes some number of bytes, or any, and then no more; in the two state machines appending, syncing,
  building tables, creating files and writing the MANIFEST may all fail at any time.
- A failed append may leave a part of its record. The writer advances its block offset all the same, no
  background error is recorded, and later writes are appended and acknowledged behind it. Records in front of
  a failed append are not affected by it (`LogRoundTrip.ReadWithTail`, `Recovery.RecoveryWithTail`); records
  behind it may be lost, also if they were synced (`LogRoundTrip.TornHeaderHidesNext`,
  `Recovery.LostBehindTorn`). In `group_commit.dfy` a failed append is the fate `Torn`, and a crash theorem
  asks only that the records up to the write in question are whole. In `durability.dfy` it makes its log one
  of the torn ones: recovery may find any part of its entries and of those behind it, so acknowledged writes
  can be lost, and `DurabilitySafety.AcknowledgedIsDurable` and `DurabilityReturn.DurabilityReturns` say which
  and until when. Under paranoid checks, recovery may instead end with an error at what a failed append left.
  A failed sync leaves a record that is whole and may or may not be on disk.
- Where a compaction cuts its output files, how high a skip list node is, when a memtable is full and which
  tables a compaction takes are left open, so the theorems hold for every choice. The one premise about a
  compaction or a trivial move is that what lies outside its inputs, down to the next level, is newer than
  what they hold for the same key, and about the level of a new table that nothing down to that level has a
  key of it. `SetupOtherInputs` brings that about for the inputs from the first level by AddBoundaryInputs; it
  does not call it for those from the next level, so that a key whose entries are split between two files of
  that level does not meet the premise, and `CompactionWork.SplitKeyComesBack` shows what follows.
- The checksum is any function that folds a step over the bytes, as CRC32C does; the theorems hold for every
  step function, hence for the table-driven one. Corruption reports are counted, their texts are not
  modelled.
- The reader returns the type byte of a physical record in the same range as its own codes for end of file
  and bad record, 5 and 6, so that a record of type 5 or 6 is taken for those. The model does the same.
- `VersionEdit::Clear` leaves the compaction pointers alone, so that decoding into an edit that has some
  appends to them (`VersionEdits.WriteThenRead` says exactly how). DBIter's early return in `Next` for an
  iterator that has become invalid when it turned round is never taken, which the proof of `Next` shows.
- After a background error it is not known which MANIFEST records are on disk. `durability.dfy` keeps every
  version that a recovery might find, and all its theorems are about all of them.
- nanopb is modelled for builds with a 32-bit `pb_size_t` and without 64-bit restrictions: statically
  allocated fields of all types and rules, nested to any finite depth. A message is the value of the struct:
  what no flag, count or union tag vouches for does not count, and a string is its buffer up to the
  terminator. `uint_fast8_t` has eight bits. Keys that are not in the schema and wire types that do not fit
  are handled as in the source: the wire type of a known field only matters for packed arrays.

## Model

| member | source | states |
|---|---|---|
| `DbFormat.InternalKeyRoundTrip` | Seda/Pods/leveldb-library/db/dbformat.h:165-175 | Parsing an internal key that was packed from a user key, a sequence number up to the maximum and a type gives back all three. |
| `DbFormat.RankEmbedsByteOrder` | Seda/Pods/leveldb-library/util/comparator.cc:20-30 | The real number given to a user key orders keys exactly as the bytewise comparator does, and tells different keys apart. |
| `DbFormat.InternalCompareIsBefore` | Seda/Pods/leveldb-library/db/dbformat.cc:51-67 | Comparing two encoded internal keys is comparing user keys ascending and then tags descending; equal means the same key. |
| `MultiVersion.LatestExists` | Seda/Pods/leveldb-library/db/memtable.cc:100-134 | A finite store with an entry visible at a snapshot has a latest one. |
| `MultiVersion.SameLatestSameRead` | Seda/Pods/leveldb-library/db/memtable.cc:100-134 | Two stores whose latest visible entry for a key is the same give the same value. |
| `Snapshots.SnapshotList.New` | Seda/Pods/leveldb-library/db/snapshot.h:57-72 | The new snapshot becomes the newest of the circular list, which stays well linked and ordered by sequence number. |
| `Snapshots.SnapshotList.Delete` | Seda/Pods/leveldb-library/db/snapshot.h:79-86 | Exactly that snapshot leaves the list; links and order of the others stay. |
| `Snapshots.SnapshotList.SmallestSnapshot` | Seda/Pods/leveldb-library/db/db_impl.cc:889-894 | The snapshot number used by a compaction is at or below every live one, and below every one to come. |
| `CompactionWork.Compaction.IsBaseLevelForKey` | Seda/Pods/leveldb-library/db/version_set.cc:1533-1552 | Asked with ascending keys, the advancing per-level positions answer exactly whether no file two or more levels down covers the key. |
| `CompactionWork.DropEntry` | Seda/Pods/leveldb-library/db/db_impl.cc:940-963 | An entry is dropped exactly when the entry just before it for the same user key is at or below the smallest snapshot, or it is an obsolete deletion marker at the base level; in a sorted input, exactly when any newer entry of its key is at or below the smallest snapshot or it is such a marker, wherever it stands. |
| `CompactionWork.DoCompactionWork` | Seda/Pods/leveldb-library/db/db_impl.cc:878-1008 | The output files, wherever they are cut, hold in order exactly those entries of the input that have no newer entry of their key at or below the smallest snapshot and are no deletion marker at or below it for a base-level key, each file with its true bounds. |
| `CompactionWork.KeptExactly` | Seda/Pods/leveldb-library/db/db_impl.cc:946-960 | What is kept is needed: an entry of a sorted input is kept exactly when no newer entry of its key in the input is at or below the smallest snapshot and it is no obsolete deletion marker. |
| `CompactionWork.DeeperIsUntouched` | Seda/Pods/leveldb-library/db/version_set.cc:1533-1552 | No entry of a file two or more levels down is of a key that is called base-level. |
| `CompactionWork.KeptIsSorted` | Seda/Pods/leveldb-library/db/db_impl.cc:976-996 | What a compaction writes is in internal key order again. |
| `CompactionWork.CompactionPreservesReads` | Seda/Pods/leveldb-library/db/db_impl.cc:946-960 | For sorted inputs, every user key and every snapshot at or above the smallest one: the read is the same before and after, with newer entries above and deeper ones below the inputs. |
| `CompactionWork.DroppedLatest` | Seda/Pods/leveldb-library/db/db_impl.cc:946-960 | A latest visible entry is dropped only if it is a deletion, and then nothing older for its key survives. |
| `CompactionWork.SplitKeyComesBack` | Seda/Pods/leveldb-library/db/version_set.cc:1403-1413 | Where the choice of inputs leaves out an older entry of a key in the next level, a dropped deletion brings it back: a read that gave nothing gives the old value. |
| `CompactionWork.CompactUnderSnapshots` | Seda/Pods/leveldb-library/db/db_impl.cc:889-1008 | With the smallest snapshot taken from the snapshot list, a whole compaction changes no read at any live or later snapshot. |
| `DbIterator.DBIter.Next` | Seda/Pods/leveldb-library/db/db_iter.cc:141-166 | From a valid position, after either direction, the iterator stands for the next visible key. |
| `DbIterator.DBIter.FindNextUserEntry` | Seda/Pods/leveldb-library/db/db_iter.cc:168-198 | Stops at the first visible entry behind the skipped key, or at the end. |
| `DbIterator.DBIter.Prev` | Seda/Pods/leveldb-library/db/db_iter.cc:200-225 | From a valid position, after either direction, the iterator stands for the previous visible key. |
| `DbIterator.DBIter.FindPrevUserEntry` | Seda/Pods/leveldb-library/db/db_iter.cc:227-267 | Scans backwards to the last visible key before the position and keeps its latest value, with only invisible entries in between. |
| `DbIterator.DBIter.Seek` | Seda/Pods/leveldb-library/db/db_iter.cc:269-281 | Stands for the first visible key at or after the target. |
| `DbIterator.DBIter.SeekToFirst` | Seda/Pods/leveldb-library/db/db_iter.cc:283-292 | Stands for the first visible key. |
| `DbIterator.DBIter.SeekToLast` | Seda/Pods/leveldb-library/db/db_iter.cc:294-299 | Stands for the last visible key. |
| `DbIterator.CleanIsSnapshotMap` | Seda/Pods/leveldb-library/db/db_iter.cc:34-38 | The cells the cursor runs over are the sorted map of the keys visible at the snapshot, with the values that the specification reads. |
| `DbIterator.Run` | Seda/Pods/leveldb-library/db/db_iter.cc:141-299 | Any sequence of Seek, SeekToFirst, SeekToLast, Next and Prev shows the client exactly what a plain cursor over that map shows. |
| `SkipLists.LinkStoreOk` | Seda/Pods/leveldb-library/db/skiplist.h:357-362 | After each single link store of an insertion, every level is sorted and every level is a sublist of the one below. |
| `SkipLists.PrivateStoreOk` | Seda/Pods/leveldb-library/db/skiplist.h:357-361 | The store into the new node, which nobody can reach at that level yet, disturbs nothing. |
| `SkipLists.Search.Step` | Seda/Pods/leveldb-library/db/skiplist.h:261-282 | One load of a search keeps it on track, even in a list that has changed or raised its height since the load before; the last load finds the right node of the list as it is then. |
| `SkipLists.FindGreaterOrEqual` | Seda/Pods/leveldb-library/db/skiplist.h:261-282 | The first node at or after the key, and on every level the last node before it. |
| `SkipLists.FindLessThan` | Seda/Pods/leveldb-library/db/skiplist.h:284-302 | The last node before the key, or the head. |
| `SkipLists.FindLast` | Seda/Pods/leveldb-library/db/skiplist.h:304-322 | The last node, or the head of an empty list. |
| `SkipLists.Insert` | Seda/Pods/leveldb-library/db/skiplist.h:337-368 | The list holds one more node, in its place, on exactly as many levels as its height. |
| `SkipLists.Contains` | Seda/Pods/leveldb-library/db/skiplist.h:370-378 | True exactly when some node compares equal to the key. |
| `SkipLists.Iterator.Prev` | Seda/Pods/leveldb-library/db/skiplist.h:212-221 | The node before the current one, or invalid at the first. |
| `SkipLists.RunInterleaved` | Seda/Pods/leveldb-library/db/skiplist.h:260-368 | In every schedule of one writer doing any number of insertions and of readers searching, with each search starting at any point, also in the middle of an insertion and after the height was raised early: a FindGreaterOrEqual, FindLessThan or FindLast that ends found the right node of the list as it was at its last load, and that list holds everything that was there when the search began. |
| `SkipLists.Run.SearchesMissNothing` | Seda/Pods/leveldb-library/db/skiplist.h:347-359 | What was linked when a search read the height, the current one or an older one, is in the list that the search answers for. |
| `SkipLists.LastSearch.Step` | Seda/Pods/leveldb-library/db/skiplist.h:304-322 | One load of FindLast keeps it on track in a list that changes; the last load finds the last node of the list as it is then. |
| `MemTables.MemTable.Add` | Seda/Pods/leveldb-library/db/memtable.cc:75-98 | The memtable holds one more entry and stays sorted. |
| `MemTables.MemTable.Get` | Seda/Pods/leveldb-library/db/memtable.cc:100-134 | Reports the value or deletion of the entry for the key with the greatest sequence number at or below the snapshot, and false exactly when there is none. |
| `MemTables.SeekFindsLatest` | Seda/Pods/leveldb-library/db/dbformat.cc:121-138 | Because tags descend and the seek type is the largest, the first entry at or after the lookup key is the latest visible one of that key, if any is. |
| `PointLookup.FindFile` | Seda/Pods/leveldb-library/db/version_set.cc:88-107 | Binary search finds the first file that reaches the key. |
| `PointLookup.SearchLevel` | Seda/Pods/leveldb-library/db/version_set.cc:365-383 | In a level above 0, searching the one file found answers for the whole level, also where neighbouring files share a user key. |
| `PointLookup.SearchLevelZero` | Seda/Pods/leveldb-library/db/version_set.cc:349-364 | In level 0, searching the overlapping files from the newest answers for the whole level. |
| `PointLookup.GetFromVersion` | Seda/Pods/leveldb-library/db/version_set.cc:326-421 | Searching level by level and stopping at the first answer answers for the version. |
| `PointLookup.Get` | Seda/Pods/leveldb-library/db/db_impl.cc:1100-1145 | A lookup in memtable, immutable memtable and version gives the value the specification reads at the snapshot, provided that entries of one key only get older from place to place. |
| `DurabilityLevels.StepKeepsLevels` | Seda/Pods/leveldb-library/db/version_set.cc:491-517 | Every step, of writing, memtable compaction into any level it may choose, table compaction, trivial moves and failures, keeps every key's newer entries above its older ones, level by level and by number within level 0. |
| `DurabilityLevels.Get` | Seda/Pods/leveldb-library/db/db_impl.cc:1100-1145 | In every run, at every moment, and for every key at every live snapshot and from LastSequence on, the lookup that stops at the first memtable, file or level with an answer gives what reading everything acknowledged gives. |
| `Coding.Fixed64RoundTrip` | Seda/Pods/leveldb-library/util/coding.cc:20-33 | Decoding a fixed 64-bit word inverts encoding it. |
| `Coding.UnrolledVarintIsLoop` | Seda/Pods/leveldb-library/util/coding.cc:47-73 | The unrolled 32-bit varint encoder writes what the 64-bit loop writes. |
| `Coding.Varint32RoundTrip` | Seda/Pods/leveldb-library/util/coding.cc:112-140 | Decoding inverts encoding for every 32-bit value, whatever follows. |
| `Coding.Varint64RoundTrip` | Seda/Pods/leveldb-library/util/coding.cc:142-169 | Decoding inverts encoding for every 64-bit value, whatever follows. |
| `Coding.LengthPrefixedRoundTrip` | Seda/Pods/leveldb-library/util/coding.cc:181-190 | Length-prefixed slices come back, whatever follows. |
| `Coding.MaskRoundTrip` | Seda/Pods/leveldb-library/util/crc32c.h:29-38 | Unmasking inverts masking. |
| `LogFormat.ExtendOfValue` | Seda/Pods/leveldb-library/util/crc32c.h:14-20 | Extending the checksum of a by b is the checksum of a followed by b. |
| `LogWriter.Writer.EmitPhysicalRecord` | Seda/Pods/leveldb-library/db/log_writer.cc:82-108 | Appends the header with the masked checksum of type and payload, and the payload if the header was taken, as far as the file takes them, and says whether it took all; the block offset advances by the whole record either way. |
| `LogWriter.Writer.AddRecord` | Seda/Pods/leveldb-library/db/log_writer.cc:34-80 | Appends exactly the fragments of the record for the place where the writer believes the file ends, up to the first append that fails, which ends the loop; it is true exactly when the file took all of them. Also on a writer that was reopened. |
| `LogWriter.WriteLog` | Seda/Pods/leveldb-library/db/log_writer.cc:27-80 | Writing records until an append fails leaves exactly the beginning of their log that the file took, however often the log is closed and reopened in between, and it succeeds exactly when that is all of it. |
| `LogReader.Reader.ReadPhysicalRecord` | Seda/Pods/leveldb-library/db/log_reader.cc:189-271 | On any file: the next physical record, end of file, or a bad record, as specified, and with the same reports. |
| `LogReader.Reader.ReadRecord` | Seda/Pods/leveldb-library/db/log_reader.cc:56-174 | On any file: the loop over physical records returns, reports and leaves what its specification says. |
| `LogRoundTrip.ReadFragments` | Seda/Pods/leveldb-library/db/log_reader.cc:56-174 | A record all of whose fragments are there comes back whole and with no report. |
| `LogRoundTrip.ReadFragmentsCut` | Seda/Pods/leveldb-library/db/log_reader.cc:189-271 | A record cut off at any byte is dropped at the end of the file, silently. |
| `LogRoundTrip.PrefixReads` | Seda/Pods/leveldb-library/db/log_reader.cc:56-271 | Reading any prefix of what the writer wrote returns exactly the records that are whole in it, in order, with no corruption reported. |
| `LogRoundTrip.WriteCutRead` | Seda/Pods/leveldb-library/db/log_reader.cc:56-271 | Write records with any reopening until an append fails, cut the file anywhere, read: exactly the records that were written and end within the cut come back. |
| `LogRoundTrip.ReadWithTail` | Seda/Pods/leveldb-library/db/log_reader.cc:56-271 | A file that begins with the log of some records and has anything behind it, such as what failed appends and later ones left: all those records are read first, in order, without a report; what else is read comes after them. |
| `LogRoundTrip.TornHeaderHidesNext` | Seda/Pods/leveldb-library/db/log_writer.cc:97-107 | Behind any log, let an append fail right behind the second header of a record that fills the block and the next one: of all records appended after it within that much, however well they were written and synced, the reader finds none, only the records in front, and reports nothing. |
| `LogRoundTrip.WriteFailWriteRead` | Seda/Pods/leveldb-library/db/log_writer.cc:34-108 | The writer gets there: it appends any records, fails at one of that length, appends more and says that it did, and the reader then returns exactly the first ones. |
| `LogIntegrity.RecordsAreWritten` | Seda/Pods/leveldb-library/db/log_reader.cc:56-271 | On any file, however damaged: every record that is read is there as the writer writes records, a full fragment, or a first, middle ones and a last behind each other, each with the checksum of its type and payload; and the records lie in the order in which they are read. |
| `LogIntegrity.MismatchIsReported` | Seda/Pods/leveldb-library/db/log_reader.cc:244-257 | A physical record whose checksum does not match is reported and not returned, and nothing more of its block is used. |
| `WriteBatches.WriteBatch.Put` | Seda/Pods/leveldb-library/db/write_batch.cc:98-103 | The batch holds one more operation, and its count says so. |
| `WriteBatches.WriteBatch.Delete` | Seda/Pods/leveldb-library/db/write_batch.cc:105-109 | The batch holds one more deletion, and its count says so. |
| `WriteBatches.WriteBatch.Append` | Seda/Pods/leveldb-library/db/write_batch.cc:144-148 | The batch holds the operations of the other one behind its own; the other is unchanged. |
| `WriteBatches.Iterate` | Seda/Pods/leveldb-library/db/write_batch.cc:42-80 | On any bytes: the handler gets the well-formed operations up to the first malformed one, and the status is OK exactly when all were well-formed and match the count. |
| `WriteBatches.IterateReplays` | Seda/Pods/leveldb-library/db/write_batch.cc:42-80 | A batch built by Put, Delete and Append replays exactly its operations in order, with a matching count. |
| `WriteBatches.InsertInto` | Seda/Pods/leveldb-library/db/write_batch.cc:116-137 | Operation number i is inserted under the sequence number of the batch plus i. |
| `BatchReads.BatchUpdates` | Seda/Pods/leveldb-library/db/write_batch.cc:116-137 | A batch inserted behind a store means to every reader of its end what its puts and deletions, in order, mean to a map: the last operation on a key decides, and other keys keep what they had. |
| `Recovery.RecoverLogFile` | Seda/Pods/leveldb-library/db/db_impl.cc:371-440 | On any file, with or without paranoid checks: the entries inserted, the maximum sequence number and the status are as specified, wherever memtables are flushed in between. |
| `Recovery.ReplayGroups` | Seda/Pods/leveldb-library/db/db_impl.cc:418-439 | If exactly the records of some groups can be read, replay inserts exactly the entries of those groups. |
| `Recovery.LenientReplay` | Seda/Pods/leveldb-library/db/db_impl.cc:371-440 | On any file, without paranoid checks: recovery succeeds, and inserts exactly what parses of the records that can be read. |
| `Recovery.ParanoidReplay` | Seda/Pods/leveldb-library/db/db_impl.cc:371-440 | On any file, under paranoid checks: recovery succeeds exactly when reading reports nothing and every record is a well-formed batch with the count it says. |
| `Recovery.CrashRecovery` | Seda/Pods/leveldb-library/db/db_impl.cc:418-439 | For any run of group commits and any truncation of the log: recovery inserts exactly the groups that are whole in it, each under its own sequence numbers, reports nothing, and ends with the last recovered sequence number. |
| `Recovery.CommitCrashRecover` | Seda/Pods/leveldb-library/db/db_impl.cc:371-440 | The same through the writer, up to an append that fails, the cut and the reader: a group survives exactly when its record was written and ends within the cut. |
| `Recovery.RecoveryWithTail` | Seda/Pods/leveldb-library/db/db_impl.cc:371-440 | A log file that begins with the records of some groups, whatever is behind them: recovery inserts exactly the entries of those groups first, and without paranoid checks it does not fail. |
| `Recovery.LostBehindTorn` | Seda/Pods/leveldb-library/db/db_impl.cc:371-440 | Groups logged behind such a failed append are not recovered: recovery inserts the entries of the groups in front of it and nothing else, and reports nothing even under paranoid checks. |
| `VersionEdits.VersionEdit.EncodeTo` | Seda/Pods/leveldb-library/db/version_edit.cc:41-85 | Appends every part of the edit that is set, behind its tag, in the order of the source. |
| `VersionEdits.VersionEdit.DecodeFrom` | Seda/Pods/leveldb-library/db/version_edit.cc:109-205 | On any bytes: the fields before the first error are applied to a cleared edit, and the status is OK exactly when there is none. |
| `VersionEdits.FieldsRoundTrip` | Seda/Pods/leveldb-library/db/version_edit.cc:109-205 | The tagged fields of an edit are parsed back, all of them and nothing else. |
| `VersionEdits.WriteThenRead` | Seda/Pods/leveldb-library/db/version_edit.cc:25-205 | Decoding restores everything that was encoded; the compaction pointers are appended to those the object already had, because Clear keeps them. |
| `VersionEdits.InsertIsSet` | Seda/Pods/leveldb-library/db/version_edit.h:73-76 | The deleted files behave as a set and are iterated in order. |
| `GroupCommit.BuildBatchGroup` | Seda/Pods/leveldb-library/db/db_impl.cc:1258-1304 | The group is the leader and the longest run of writers behind it: it ends at the end of the queue, or in front of the first writer that asks for a sync the leader does not do, or with whose batch the bytes of all batches so far exceed the limit; none before was such a writer. Its batch is theirs merged, and no caller's batch is changed. |
| `GroupCommit.LongestRun` | Seda/Pods/leveldb-library/db/db_impl.cc:1265-1288 | The size of the group, spelled out: which writer ends it, with the limit of 128 KiB more than a small first batch and of 1 MiB for others. |
| `GroupCommit.AllThatFitAreTaken` | Seda/Pods/leveldb-library/db/db_impl.cc:1276-1302 | Writers that ask for no more than the leader does, and whose batches fit in the limit together, are all taken. |
| `GroupCommit.PopWriters` | Seda/Pods/leveldb-library/db/db_impl.cc:1239-1253 | Every writer of the group is marked done with the status of the group and signalled, and so is the new head; the leader returns. |
| `GroupCommit.StepKeeps` | Seda/Pods/leveldb-library/db/db_impl.cc:1185-1256 | Every step of every thread keeps the invariant of the writer queue, the log, the memtable and the snapshots. |
| `GroupCommitSafety.OneLeader` | Seda/Pods/leveldb-library/db/db_impl.cc:1192-1198 | In every run only the front of the queue leads, so nobody else touches the log, the memtable or the last sequence number. |
| `GroupCommitSafety.NoLostWakeup` | Seda/Pods/leveldb-library/db/db_impl.cc:1239-1253 | In every run, a call that has been completed or is at the front is not asleep. |
| `GroupCommitSafety.LoggedInOrder` | Seda/Pods/leveldb-library/db/db_impl.cc:1202-1237 | In every run, groups are logged in order of arrival, without overlap, under consecutive sequence ranges that end at the last sequence number. |
| `GroupCommitSafety.WrittenExactlyOnce` | Seda/Pods/leveldb-library/db/db_impl.cc:1258-1304 | In every run, a batch whose write succeeded is in exactly one logged group, its operations next to each other among those of the group, and if it asked for a sync, that group was synced. |
| `GroupCommitSafety.GroupStatus` | Seda/Pods/leveldb-library/db/db_impl.cc:1239-1248 | In every run, every writer of a group is given the outcome of that group. |
| `GroupCommitSafety.CompletedOnce` | Seda/Pods/leveldb-library/db/db_impl.cc:1239-1248 | In every run, the outcome of a call never changes once it is settled. |
| `GroupCommitSafety.ReadersSeeWholeGroups` | Seda/Pods/leveldb-library/db/db_impl.cc:1209-1237 | In every run, a reader at a last sequence number it picked up sees each group wholly or not at all, also while one is being inserted without the mutex. |
| `GroupCommitSafety.ReadsSeeWholeGroups` | Seda/Pods/leveldb-library/db/db_impl.cc:1100-1110 | In every run, a read at a snapshot gives the value as of a prefix of the groups. |
| `GroupCommitSafety.SnapshotsAreRepeatable` | Seda/Pods/leveldb-library/db/db_impl.cc:1166-1169 | In every run, what is visible at a snapshot never changes after it was taken. |
| `GroupCommitSafety.NothingAfterFailedSync` | Seda/Pods/leveldb-library/db/db_impl.cc:1215-1232 | In every run, nothing is logged any more after a failed sync. |
| `GroupCommitSafety.CrashRecovers` | Seda/Pods/leveldb-library/db/db_impl.cc:1205-1233 | Crash in any reachable state. Let the first t records of the log be whole, and anything be behind them, such as what failed appends left, with any part of the file on disk: recovery first inserts exactly the entries of the first n groups, where those are the ones of the t whose records end within what is left, and without paranoid checks it does not fail. If nothing is behind the t records, or the cut takes it away, that is exactly what it gives, with the last sequence number of these groups. The entries are those memory held after the n groups and, if the last of them is the one whose sync failed, its entries too. |
| `GroupCommitSafety.SyncedWriteSurvives` | Seda/Pods/leveldb-library/db/db_impl.cc:1215-1232 | An acknowledged sync write with no failed append before it is recovered, with its whole group and with everything that was inserted before it, after every crash that spares what had been synced up to it, whatever happened afterwards: failed appends, failed syncs, any bytes behind; without paranoid checks that recovery does not fail. |
| `GroupCommitSafety.TornRecordLosesLater` | Seda/Pods/leveldb-library/db/db_impl.cc:1213-1232 | No more can be promised: for a failed append in a run whose record is long enough, with what is logged later short enough, there is a way to fail after which none of the groups behind it, acknowledged and synced or not, come back, and recovery reports nothing. |
| `GroupCommitSafety.NoGuardHidesAStep` | Seda/Pods/leveldb-library/db/db_impl.cc:1185-1253 | In every run, wherever a thread is in Write, the step that the code takes from there is enabled: what the steps require besides the place of the thread always holds. |
| `DurabilitySteps.StepKeeps` | Seda/Pods/leveldb-library/db/db_impl.cc:535-767 | Every step of writing, switching, memtable compaction, table compaction, MANIFEST writing, deletion, scheduling and taking snapshots keeps the invariant. |
| `Retention.DroppedIsGone` | Seda/Pods/leveldb-library/db/db_impl.cc:946-960 | What the compaction loop drops is hidden at every snapshot from its smallest one on, or is a deletion marker below which its key has nothing left. |
| `Retention.ReadAgrees` | Seda/Pods/leveldb-library/db/db_impl.cc:946-960 | A store that misses only such entries reads, at all those snapshots, like the store that has them. |
| `DurabilitySteps.CompactionEditVersion` | Seda/Pods/leveldb-library/db/db_impl.cc:860-876 | Putting the outputs of a compaction in place of its inputs keeps complete every version that a recovery might find, with what the loop dropped gone. |
| `DurabilitySteps.ClosedIsOk` | Seda/Pods/leveldb-library/db/version_set.cc:1533-1552 | If what lies outside the inputs, down to the next level, is newer than they are for the same key, and no table further down has a key that is called base-level, then nothing older than the inputs lies outside them for such a key. |
| `DurabilitySteps.MemEditVersion` | Seda/Pods/leveldb-library/db/db_impl.cc:541-556 | Adding the table of the immutable memtable and moving the log number behind its log keeps every such version complete, and brings back nothing older than what is gone. |
| `DurabilitySteps.InstalledManifest` | Seda/Pods/leveldb-library/db/version_set.cc:801-880 | After LogAndApply, and after MANIFEST writes of unknown outcome before it, every version that recovery might find is one that was complete before. |
| `DurabilitySteps.DeleteKeeps` | Seda/Pods/leveldb-library/db/db_impl.cc:223-278 | Deletion spares every log and table that the version, a reader or the running job needs. |
| `DurabilityFiles.ObsoleteFilesGo` | Seda/Pods/leveldb-library/db/db_impl.cc:223-278 | In every run, right after a memtable or table compaction has ended without a background error: the logs on disk are exactly the current one and that of the immutable memtable if there is one, and of the tables exactly those that the current version, a version a reader holds, the running compaction or a table being written needs. |
| `DurabilitySafety.AcknowledgedIsDurable` | Seda/Pods/leveldb-library/db/db_impl.cc:535-566 | In every run, at every moment and for every version a recovery might then find, whatever it finds of records behind failed appends: the tables of the version are on disk, and reading them together with what is found in the logs gives, for every key and at every live snapshot and from LastSequence on, what reading all acknowledged entries but the lost ones (and the unacknowledged ones that were found) gives, whatever compactions have dropped. A lost entry is always in a log that recovery replays and in which an append has failed; without such a log nothing is lost. |
| `DurabilitySafety.LostExactly` | Seda/Pods/leveldb-library/db/log_writer.cc:97-107 | An acknowledged entry can be lost exactly when its record is behind a failed append and no table of the recovered version has it yet. |
| `DurabilityReturn.DurabilityReturns` | Seda/Pods/leveldb-library/db/db_impl.cc:535-566 | Whatever appends have failed: once the immutable memtable has been compacted while no append to the current log has failed, no crash loses anything acknowledged, then and later, until an append fails again. |
| `DurabilityReturn.AcknowledgedAtRisk` | Seda/Pods/leveldb-library/db/db_impl.cc:1213-1237 | A write whose record went behind a failed append and which is acknowledged can be lost by a crash, whichever version recovery then finds. |
| `DurabilityReturn.FirstWriteIsLost` | Seda/Pods/leveldb-library/db/db_impl.cc:1213-1237 | Such a run: in a new database one write fails and the next one is acknowledged and can be read, and after a crash it need not be there. |
| `DurabilitySafety.StepTorn` | Seda/Pods/leveldb-library/db/db_impl.cc:1205-1233 | Every step keeps: what reading a log may miss of the acknowledged entries is in a log with a failed append. |
| `DurabilitySafety.AcknowledgedIsReadable` | Seda/Pods/leveldb-library/db/db_impl.cc:1112-1132 | In every run, reading the memtable, the immutable memtable and the tables of the current version gives what reading all acknowledged entries gives, for every key and at every live snapshot and from LastSequence on. |
| `DurabilitySafety.SnapshotsAreStable` | Seda/Pods/leveldb-library/db/db_impl.cc:1166-1174 | A held snapshot reads the same in every later state of the run, through writes, switches, memtable and table compactions, failures and deletion. |
| `DurabilitySafety.TwoLogsBackMemory` | Seda/Pods/leveldb-library/db/db_impl.cc:1342-1365 | In every run at most two logs back what is only in memory; both exist, neither is older than the log number, and deletion leaves them. |
| `DurabilitySafety.ReadersKeepTheirTables` | Seda/Pods/leveldb-library/db/db_impl.cc:223-262 | In every run the tables of a version that a reader holds stay on disk. |
| `DurabilitySafety.NoLostWakeup` | Seda/Pods/leveldb-library/db/db_impl.cc:640-694 | Whenever the mutex is free: with an immutable memtable, no error and no shutdown the one job is scheduled or running; has_imm_ agrees with imm_; a sleeping writer has a job. |
| `DurabilitySafety.JobsEndWithASignal` | Seda/Pods/leveldb-library/db/db_impl.cc:669-686 | A job never ends and leaves the writer asleep. |
| `PbVarints.EncodeVarint` | Seda/Pods/nanopb/pb_encode.c:599-619 | Writes the base-128 groups of the value, ten at most for 64 bits. |
| `PbVarints.Decode32OfVarint` | Seda/Pods/nanopb/pb_decode.c:187-247 | What the 32-bit decoder makes of the encoding of any 64-bit value, exactly. |
| `PbVarints.Varint32RoundTrip` | Seda/Pods/nanopb/pb_decode.c:187-247 | The 32-bit decoder inverts the encoder below 2^32. |
| `PbVarints.MiddleIsRejected` | Seda/Pods/nanopb/pb_decode.c:222-246 | The 32-bit decoder rejects every value from 2^32 up to 2^63. |
| `PbVarints.NegativesComeBack` | Seda/Pods/nanopb/pb_decode.c:222-233 | The 32-bit decoder takes sign-extended negative 32-bit integers and returns their low 32 bits. |
| `PbVarints.ZigZagIsBijection` | Seda/Pods/nanopb/pb_encode.c:621-630 | Zigzag encoding and decoding are inverse bijections on 64 bits. |
| `PbWire.KeysOnTheWire` | Seda/Pods/nanopb/pb_encode.c:666-698 | The key of each type of field: eight times its tag plus 0 for bools and varints, 1 for fixed64, 2 for strings, bytes and submessages, and 5 for fixed32. |
| `PbWire.ValuesOnTheWire` | Seda/Pods/nanopb/pb_encode.c:760-902 | The bytes of each type of value, negative numbers as 64-bit two's complement or zigzag; bytes that do not fit are an error. |
| `PbWire.IntegersAreChecked` | Seda/Pods/nanopb/pb_decode.c:1329-1430 | Which integer every 64-bit varint is in a field of each type and size, and that it is refused exactly when it does not fit. |
| `PbWire.LengthsAreChecked` | Seda/Pods/nanopb/pb_decode.c:1450-1548 | Which bytes and strings are taken and which are too long for their buffers; a string ends at its first zero byte. |
| `PbFieldIter.FieldIter.Next` | Seda/Pods/nanopb/pb_common.c:21-75 | At every position the data address is the struct plus the true offset of the member and the required fields before it are counted; at the end it wraps and says so. |
| `PbFieldIter.FieldIter.Find` | Seda/Pods/nanopb/pb_common.c:77-95 | Goes once round at most and succeeds exactly when a field that is no extension has the tag, or the tag is 0 and the message type is empty; then it is at the first such field, otherwise where it was. |
| `PbMessages.DefaultsShaped` | Seda/Pods/nanopb/pb_decode.c:836-919 | The default message has the shape of the struct. |
| `PbEncode.CheckZero` | Seda/Pods/nanopb/pb_encode.c:275-329 | The proto3 check says zero exactly when the value is, fields of submessages included. |
| `PbWire.ZerosAreLeftOut` | Seda/Pods/nanopb/pb_encode.c:236-329 | A proto3 field that is no submessage is left out exactly when its number is zero or its bytes or string empty. |
| `PbWire.ZeroIsEmpty` | Seda/Pods/nanopb/pb_encode.c:301-316 | A submessage passes the proto3 check exactly when it would be encoded as no bytes at all. |
| `PbEncode.EncodeSubmessage` | Seda/Pods/nanopb/pb_encode.c:708-756 | Size pass, length prefix and write pass agree, so that the size never changes between them. |
| `PbEncode.EncodeSlotArray` | Seda/Pods/nanopb/pb_encode.c:144-233 | Packed and unpacked arrays are written as specified, with the right length prefix also where it is computed without a sizing pass. |
| `PbArrays.NumbersArePacked` | Seda/Pods/nanopb/pb_encode.c:160-204 | A non-empty array of bools, varints of any of the three kinds, fixed32 or fixed64 is encoded as one key of wire type 2, the length of all elements, and the elements. |
| `PbArrays.OthersAreTagged` | Seda/Pods/nanopb/pb_encode.c:205-230 | Every element of an array of any other type has its own key of wire type 2. |
| `PbEncode.Encode` | Seda/Pods/nanopb/pb_encode.c:519-541 | On a sizing and on a writing stream: success, bytes and size are those of the specified encoding, and a writing stream fails exactly when the room is too small. |
| `PbEncode.SizeThenWrite` | Seda/Pods/nanopb/pb_encode.c:558-568 | If the sizing pass yields N, writing succeeds exactly with room for N bytes and writes exactly N. |
| `PbIStream.IStream.DecodeVarint32` | Seda/Pods/nanopb/pb_decode.c:187-247 | The loop, with its shift counter of eight bits, computes the specified 32-bit decoding of any input and moves just behind it. |
| `PbIStream.IStream.DecodeVarint` | Seda/Pods/nanopb/pb_decode.c:255-275 | The loop computes the specified 64-bit decoding of any input and moves just behind it. |
| `PbIStream.IStream.SkipField` | Seda/Pods/nanopb/pb_decode.c:321-331 | Skips exactly the data that the wire type says. |
| `PbIStream.IStream.MakeSubstream` | Seda/Pods/nanopb/pb_decode.c:372-385 | The substream holds exactly the string, and the parent the bytes behind it. |
| `PbIStream.IStream.CloseSubstream` | Seda/Pods/nanopb/pb_decode.c:387-400 | The parent goes on behind the string, whatever was left unread. |
| `PbIStream.IStream.DecodeScalar` | Seda/Pods/nanopb/pb_decode.c:1318-1548 | The decoders of all types but submessages, on any input. |
| `PbDecode.AllRequiredSeen` | Seda/Pods/nanopb/pb_decode.c:1030-1070 | The check of the two bitmap words succeeds exactly when every one of the first 64 required fields has been seen. |
| `PbDecode.RowOfOnes` | Seda/Pods/nanopb/pb_decode.c:1050-1066 | A word equals a row of r ones exactly when its first r bits and no others are set. |
| `PbDecode.DecodeStaticField` | Seda/Pods/nanopb/pb_decode.c:406-480 | One field of any rule and type is decoded into the struct as specified, packed arrays and submessages in their substreams. |
| `PbSubmessages.SubTurn` | Seda/Pods/nanopb/pb_decode.c:1503-1525 | One occurrence of a required, optional or proto3 submessage, in any struct, is decoded into what the struct holds there. |
| `PbSubmessages.SubmessagesMerge` | Seda/Pods/nanopb/pb_decode.c:410-420 | Two occurrences of such a submessage decode like one with the concatenated bytes, in any struct and between any other fields, when the first ends without a zero key and the inner schema has no required or fixed-count field. |
| `PbSubmessages.UnionMemberFromDefaults` | Seda/Pods/nanopb/pb_decode.c:462-475 | A submessage in a union is decoded from the defaults, whatever the union held, itself included. |
| `PbSubmessages.ElementFromDefaults` | Seda/Pods/nanopb/pb_decode.c:1515-1520 | An element of an array of submessages is decoded from the defaults, whatever lies in its place, and the others stay. |
| `PbArrays.PackedOrNot` | Seda/Pods/nanopb/pb_decode.c:421-460 | A packed array of numbers and the same elements with a key in front of each decode alike, into any struct and between any other fields: to the same struct, or both not at all. |
| `PbArrays.PackedHolds` | Seda/Pods/nanopb/pb_decode.c:421-448 | To the array in which the elements come behind those already received; too many are an error. |
| `PbArrays.FixedCountExactly` | Seda/Pods/nanopb/pb_decode.c:987-1027 | An array of fixed count is accepted exactly when as many elements come as it holds. |
| `PbArrays.LeavingEarlyFails` | Seda/Pods/nanopb/pb_decode.c:987-1010 | A second array of fixed count is refused while the one before it is incomplete. |
| `PbDecode.DecodeNoInit` | Seda/Pods/nanopb/pb_decode.c:925-1073 | On any input and any struct: success and the resulting message are as specified. |
| `PbDecode.Decode` | Seda/Pods/nanopb/pb_decode.c:1075-1087 | The same from defaults. |
| `PbRoundTrip.AllDefaultIsDefaults` | Seda/Pods/nanopb/pb_encode.c:301-316 | A submessage that passes the proto3 check is the default message exactly when all its proto3 fields, at any depth, have zero as their default. |
| `PbRoundTrip.ScalarRoundTrip` | Seda/Pods/nanopb/pb_decode.c:1318-1548 | Every value in the range of its C type comes back, for every type and data size. |
| `PbRoundTrip.MessageRoundTrip` | Seda/Pods/nanopb/pb_encode.c:519-541 | For every schema and every well-formed message, encoding succeeds and decoding the bytes gives back the same message, except that a proto3 field that is zero comes back as its default. |
| `PbRoundTrip.DecodeOfEncode` | Seda/Pods/nanopb/pb_decode.c:1075-1087 | The same for pb_decode, which gives back the same message exactly when every proto3 field in it that is zero, at any depth that is encoded, has zero as its default. |
| `PbRoundTrip.BackIsSame` | Seda/Pods/nanopb/pb_encode.c:351-355 | What comes back is the same exactly when no zero is lost. |
| `PbCodec.EncodeThenDecode` | Seda/Pods/nanopb/pb_decode.c:925-1087 | The same through the streams: the message comes back exactly when the buffer has room for it, and is the same exactly when no zero is lost. |
| `PbCodec.StringsNeedTerminators` | Seda/Pods/nanopb/pb_decode.c:1468-1501 | For every schema and every message that encodes: pb_decode of the encoded message succeeds exactly when every string that was encoded, in fields of any rule and at any depth, has room for its terminator. |
| `PbTerminators.StringNeedsTerminator` | Seda/Pods/nanopb/pb_decode.c:1468-1501 | A single string comes back exactly when there is a terminator inside its buffer; otherwise it is encoded and then refused. |
| `PbCodec.SingularNeedsZeroDefault` | Seda/Pods/nanopb/pb_encode.c:351-355 | For every schema, field type and message: if a proto3 field is zero and its default is not, the message that comes back has the default there and is not the same. |
| `PbCodec.NonZeroComesBack` | Seda/Pods/nanopb/pb_encode.c:351-355 | Any other value of a proto3 field that is no submessage comes back as it was, whatever the default of the field. |
| `PbCodec.ZeroBecomesSeven` | Seda/Pods/nanopb/pb_encode.c:351-355 | An instance: with the default 7, the message 0 becomes no bytes, which decode to 7. |
| `PbMerge.LoopAppend` | Seda/Pods/nanopb/pb_decode.c:943-1021 | Decoding a ++ b is decoding a and going on with b, when a ends without a zero key. |
| `PbMerge.MergeLaw` | Seda/Pods/nanopb/pb_decode.c:943-1021 | Without required and fixed-count fields, decoding a ++ b into a struct equals decoding a and then b into it. |
| `PbMerge.UnknownFieldsIgnored` | Seda/Pods/nanopb/pb_decode.c:278-331 | Inserting a well-formed field with an unknown tag between top-level fields leaves the decoded message unchanged. |
| `PbMerge.RequiredExactly` | Seda/Pods/nanopb/pb_decode.c:1012-1070 | When every field decodes, success is exactly that each of the first 64 required fields occurred, in any order and number. |
| `PbWire.AllRequiredMustOccur` | Seda/Pods/nanopb/pb_decode.c:1012-1070 | With up to 64 required fields, success is exactly that all of them occur. |
| `PbWire.BadWireTypesFail` | Seda/Pods/nanopb/pb_decode.c:321-332 | An unknown field of wire type 3, 4, 6 or 7 spoils the message. |
| `PbWire.ZeroKeyEnds` | Seda/Pods/nanopb/pb_decode.c:943-957 | A zero key ends the message, whatever follows it. |
| `Snapshots.SnapshotList.Oldest` | Seda/Pods/leveldb-library/db/snapshot.h:47-50 | The oldest live snapshot of a list that is not empty. |
| `Snapshots.SnapshotList.Newest` | Seda/Pods/leveldb-library/db/snapshot.h:51-54 | The newest live snapshot of a list that is not empty. |
| `CompactionWork.KeptElements` | Seda/Pods/leveldb-library/db/db_impl.cc:972-992 | An entry is written exactly when it is in the input and not dropped. |
| `SkipLists.Insertion.RaiseHeight` | Seda/Pods/leveldb-library/db/skiplist.h:347-359 | Raising the height early leaves the list and every running search right. |
| `SkipLists.Insertion.Stage` | Seda/Pods/leveldb-library/db/skiplist.h:361-365 | Setting the new node's own link at a level keeps the insertion on track. |
| `SkipLists.Insertion.Link` | Seda/Pods/leveldb-library/db/skiplist.h:366-366 | Setting the predecessor's link adds the node at the level; no level loses a node. |
| `SkipLists.Iterator.Seek` | Seda/Pods/leveldb-library/db/skiplist.h:223-226 | The first node at or after the target. |
| `SkipLists.Iterator.SeekToLast` | Seda/Pods/leveldb-library/db/skiplist.h:233-239 | The last node, or invalid when there is none. |
| `SkipLists.Iterator.Next` | Seda/Pods/leveldb-library/db/skiplist.h:206-210 | The node after the current one, or invalid at the last. |
| `LogFormat.PhysicalParts` | Seda/Pods/leveldb-library/db/log_writer.cc:82-98 | The length, type and checksum are read back from where they are written in a physical record. |
| `Formats.RecordInOneBlock` | Seda/Pods/leveldb-library/db/log_format.h:14-30 | The bytes of a record that fits a block: the masked checksum and the length, least significant byte first, the type 1, and the record. |
| `Formats.RecordOverBlocks` | Seda/Pods/leveldb-library/db/log_format.h:14-30 | A longer record has a fragment of type 2 that fills its first block, and in the next block one of type 3, or of type 4 if it ends there. |
| `Formats.EndOfBlock` | Seda/Pods/leveldb-library/db/log_writer.cc:43-60 | Less than seven bytes at the end of a block are filled with zeros; exactly seven hold the header of an empty first fragment. |
| `Formats.Fixed64IsLittleEndian` | Seda/Pods/leveldb-library/util/coding.cc:20-33 | A fixed 64-bit word is its eight bytes, least significant first. |
| `Formats.BatchHead` | Seda/Pods/leveldb-library/db/write_batch.cc:5-14 | A batch begins with its sequence number in eight bytes and its count in four. |
| `Formats.BatchOperation` | Seda/Pods/leveldb-library/db/write_batch.cc:5-14 | Behind that, a put is the byte 1 and a deletion the byte 0, each with its key, and the put with its value, behind their lengths. |
| `Formats.UnknownTagsFail` | Seda/Pods/leveldb-library/db/write_batch.cc:71-72 | An operation that begins with any other byte is malformed, and so is a field of an edit with a number that is not in use. |
| `Formats.InternalKeyBytes` | Seda/Pods/leveldb-library/db/dbformat.cc:14-23 | Behind the user key comes a byte that is 1 for a value and 0 for a deletion, and then the sequence number in seven bytes. |
| `Formats.EditTags` | Seda/Pods/leveldb-library/db/version_edit.cc:14-24 | The tag number in front of each kind of field of an edit. |
| `Formats.LevelsAreChecked` | Seda/Pods/leveldb-library/db/version_edit.cc:99-107 | A level is taken exactly when it is below seven. |
| `LogWriter.Writer.SwitchBlock` | Seda/Pods/leveldb-library/db/log_writer.cc:44-54 | A block without room for a header is filled with zeros, whether the file takes them or not, and the writer is then at a place where a header fits. |
| `LogWriter.Writer.AddFragment` | Seda/Pods/leveldb-library/db/log_writer.cc:43-77 | Writes the next fragment, of the type and length that fit the place, or what the file takes of it. |
| `LogReader.Reader.FillBuffer` | Seda/Pods/leveldb-library/db/log_reader.cc:190-214 | The next block is read when less than a header is left and the last read was full. |
| `LogRoundTrip.WholeMeans` | Seda/Pods/leveldb-library/db/log_reader.cc:56-174 | A record counts as whole in a prefix exactly when its last byte is in it. |
| `WriteBatches.WriteBatch.SetSequence` | Seda/Pods/leveldb-library/db/write_batch.cc:94-96 | Only the sequence number of the batch changes. |
| `WriteBatches.OpsRoundTrip` | Seda/Pods/leveldb-library/db/write_batch.cc:42-80 | The tagged operations of a batch body are parsed back, all of them and nothing else. |
| `Recovery.InsertRecord` | Seda/Pods/leveldb-library/db/db_impl.cc:418-439 | One record: refused when too small, otherwise inserted, and the maximum sequence number advanced. |
| `VersionEdits.VersionEdit.Clear` | Seda/Pods/leveldb-library/db/version_edit.cc:25-38 | Everything but the compaction pointers is reset. |
| `VersionEdits.FieldsRestore` | Seda/Pods/leveldb-library/db/version_edit.cc:109-205 | Applying the fields of an edit in the order written restores the edit. |
| `GroupCommit.CompleteSettles` | Seda/Pods/leveldb-library/db/db_impl.cc:1239-1253 | Completing a group settles exactly its writers, leaves the outcomes of all others, and wakes the new head. |
| `GroupCommit.GroupIsOk` | Seda/Pods/leveldb-library/db/db_impl.cc:1276-1302 | A group is a run of consecutive arrivals whose leader syncs if any of them asks for it. |
| `DurabilitySteps.TryRoomKeeps` | Seda/Pods/leveldb-library/db/db_impl.cc:1310-1369 | One turn of making room, whatever it does, keeps the invariant. |
| `DurabilityRoom.LevelZeroIsBounded` | Seda/Pods/leveldb-library/db/db_impl.cc:1336-1366 | In every run that starts with no more, level 0 has at most twelve tables, and at most eleven while there is an immutable memtable. |
| `DurabilitySteps.BuildTableKeeps` | Seda/Pods/leveldb-library/db/db_impl.cc:491-560 | Building the table of the immutable memtable, successfully or not, keeps the invariant. |
| `PbIStream.IStream.Read` | Seda/Pods/nanopb/pb_decode.c:102-137 | The bytes asked for, or an error that moves nothing when there are too few. |
| `PbIStream.IStream.SkipVarint` | Seda/Pods/nanopb/pb_decode.c:278-287 | Moves behind the first byte without a continuation bit. |
| `PbIStream.IStream.SkipString` | Seda/Pods/nanopb/pb_decode.c:289-296 | Moves behind a length and that many bytes. |
| `PbDecode.DecodeTag` | Seda/Pods/nanopb/pb_decode.c:298-319 | Field number and wire type of a key; a zero key ends the message. |
| `PbDecode.DecodePackedField` | Seda/Pods/nanopb/pb_decode.c:421-448 | All elements of a packed array, or an error when one is malformed or there are too many. |
| `PbDecode.DecodeOne` | Seda/Pods/nanopb/pb_decode.c:1503-1525 | A scalar, or a submessage decoded into its target. |
| `PbDecode.DecodeFound` | Seda/Pods/nanopb/pb_decode.c:987-1020 | The fixed-count array in progress, the bitmap and the data of a field that has been found. |
| `PbDecode.DecodeTurn` | Seda/Pods/nanopb/pb_decode.c:943-1021 | One turn of the loop goes on, stops or fails as specified. |
| `PbDecode.SetBitSees` | Seda/Pods/nanopb/pb_decode.c:1012-1017 | Setting the bit of a required field records exactly that field. |
| `PbEncode.OStream.Write` | Seda/Pods/nanopb/pb_encode.c:103-121 | All bytes are written when there is room, or none; a sizing stream only counts. |
| `PbEncode.EncodeOne` | Seda/Pods/nanopb/pb_encode.c:760-902 | The encoders of all types, as specified. |
| `PbEncode.PackedSize` | Seda/Pods/nanopb/pb_encode.c:166-188 | The size of a packed array, computed or from a sizing pass, is that of its elements written. |
| `PbEncode.EncodeOneField` | Seda/Pods/nanopb/pb_encode.c:332-417 | One field of any rule is written, or left out, as specified. |
| `PbRoundTrip.Skipped` | Seda/Pods/nanopb/pb_encode.c:332-417 | A field that is not encoded decodes to what it stands for: absent, empty, unset, or the default of a proto3 field. |
| `PbRoundTrip.PackedRoundTrip` | Seda/Pods/nanopb/pb_decode.c:432-441 | A packed array decodes to its elements, over whatever the array held. |
| `PbMerge.ValueIsSkippable` | Seda/Pods/nanopb/pb_decode.c:321-331 | Every encoded value can be skipped by the wire type it was written with. |
| `PbMerge.ForeignMessageIgnored` | Seda/Pods/nanopb/pb_decode.c:943-985 | A reader whose schema has none of the writer's fields takes nothing from the writer's message and is not disturbed by it. |

## Left out

- Everything in Swift and `server/functions/index.js`: user interface and calls into services whose order of
  delivery the code does not control.
- Cryptography, HTTP, keyboard and analytics pods: wrappers, declarations or generated tables.
- `Env`, timing of fsync, the caches, the on-disk format of tables, Bloom filters.
- Compaction picking, boundary inputs and trivial-move conditions of `version_set.cc`: what they provide is a
  premise of the steps that begin a compaction or a move, and so is that files of a level above 0 are in order
  as ranges of keys.
- DBIter's read sampling, whose termination depends on a random number generator; statistics; the paths for
  corrupt keys.
- The log reader's `last_record_offset`; the database passes 0 for `initial_offset`.
- The choice between logs at `DBImpl::Recover` and the reuse of the last log after recovery.
- The write delay of one millisecond near the level-0 limit: it only releases the mutex.
- `GroupCommit.BuildBatchGroup` and the group state machine count operations without the 32-bit wrap of a
  batch's count; a group would need 2^31 operations to reach it.
- Memory order below the level of atomic loads and stores, except that a search may read an older height.
- CompactionWork.DoCompactionWork: shutdown, interruption by a memtable compaction and failing table writes
  are part of `durability.dfy`; entries with unparsable keys are not modelled.
- PointLookup.GetFromVersion: table reads do not fail and table entries all parse; the source ends the search
  with an error status if not.
- LogWriter.Writer.EmitPhysicalRecord: a file that has not taken all of an append takes nothing more during the
  same AddRecord; a Flush that fails after all bytes were taken is a failed append in the state machines only.
- LogReader.Reader.FillBuffer: does not model a failing read, which the source reports and takes for the end
  of the file.
- LogReader.Reader.ReadPhysicalRecord: does not model a failing read, nor an `initial_offset` other than 0.
- LogReader.Reader.ReadRecord: does not model the resynchronisation behind a nonzero `initial_offset`.
- Recovery.RecoverLogFile: does not model a failing table write, which ends the recovery, nor the reuse of
  the last log.
- DurabilityLevels.Get: starts from a database whose levels are in that order, as a new one is; that recovery
  leaves them so is not proved.
- PbDecode.DecodeNoInit: does not model what a failing call leaves in the struct, and takes elements of a
  fixed-count array that were never received as zero, where the source leaves the bytes that were there.
- PbDecode.Decode: does not model what a failing call leaves in the struct.
- PbRoundTrip.MessageRoundTrip: asks that everything with a length prefix is shorter than 2^32 bytes, which
  the decoder cannot exceed.
- nanopb's extensions, callbacks, dynamically allocated fields, delimited and null-terminated entry points,
  and builds without 64-bit integers.
