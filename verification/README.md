# TPBench corelib: a verified model of rafdb and its neighbours

TPBench keeps benchmark results in a small hand-written database, rafdb: record files (`.tpbr`), row
logs (`.tpbe`), and a set of functions that patch both in place, byte by byte, while other processes
do the same. This project models that database in Dafny, with the algorithms that feed it, and proves
what the code keeps.

The files build on each other:

- `Common`, `Bytes`: numbers as little-endian bytes, what stands where in a file, overwriting a range,
  lists of edits. `DiskFile` is an open file: a byte string and a cursor, with seek, read and write.
- `Signature`, `Layout`, `RecordIO`: magic numbers, the four record schemas (task, batch, kernel,
  runtime environment), the image of a record, and the sequential writer and reader. A file *is* a record
  when it equals that record's image; every in-place edit below is proved to lead from one image to another.
- `Structs`: tasks, batches, kernels and environments field by field, as their records and as the packed rows of
  the logs. What the edits below do is stated over these fields too, without offsets. `ReadExact` says which
  files a reader accepts, and what it makes of them.
- `CapsuleAppend`, `BatchAppend`, `DeriveLink`, `AttrPatch`, `Counters`, `TaskMerge`: the in-place edits.
  Each is an imperative method over open files whose contract covers every file, malformed ones too,
  and a refinement lemma that says what the edit means on the record or the list of rows.
- `AppendExact`, `PatchExact`: which files those edits and scans accept, in bytes and literal offsets.
- `EntryLog`, `PeekMagics`: append-only logs, and the scan for the SPLIT and END signatures.
- `LogInterleaving`: any number of processes that append under `flock` and patch counters under `fcntl`
  locks, as a step relation. The two lock families do not exclude each other; safety holds anyway.
  `LogProgress`: no run ends in a deadlock.
- `CapsuleProtocol`: the leader and the other ranks of a parallel job, the shared-memory flag, and the
  appends to the capsule file write by write. `CapsuleProgress`: when the ranks can still finish.
- `BatchClose`: begin, scan, counters, log row, over five files; `BatchFields`: the same in terms of the fields.
- `Sha1`: the streaming hash against RFC 3174 (sections 4, 5 and 6.1), stated independently; `Sha1Vector`: the
  first vector of its section 7.3, computed round by round.
- `MergeChain`, `EnvSnapshot`: inheritance of environment declarations, and the colon-packed snapshot with
  its encoder and the export code that unpacks it.
- `ProviderTable`, `LoadGroup`: the probing hash set and the load-group audit that depends on it.
- `KeyValue`, `KernelMeta`, `KernelUpdate`, `TagNorm`, `DateTime`: the text and date formats, and the update of
  one metadata key from record file to record file.

Files, buffers, tables and contexts the C code changes step by step are classes, arrays and loops here;
what they compute is stated by functions on values, and the laws are lemmas about those functions.
Machine widths are explicit: sizes and counters wrap at 2^32 or 2^64 where the code's do.

## Where the code is not what it looks like

The model follows the code. Where a promise fails, there is a condition that says exactly when it holds,
or a witness.

- A batch insertion writes the new count 2336 bytes into the header, inside `note`; the count stands at
  2592. `dimsizes[0]` stays stale (`BatchAppend.CountMisplaced`, `BatchAppend.CountOfConsistentHeader`).
- Appending to a capsule whose header has no dimension overwrites SPLIT (`CapsuleAppend.AppendReadsBack`).
- `metasize` is computed as if every header took 3096 bytes, for a kernel eight bytes short, and no reader uses
  it (`Layout.MetaSizes`); `block_size` is stored as 3096 whatever the caller set (`RecordIO.RoundTrip`).
- A batch insertion adds its two block sizes in 64 bits, so it accepts also records whose sizes exceed the
  payload by 2^64 (`AppendExact.BatchImages`).
- Updating a key of a kernel's metadata copies the later blocks from offsets computed with the new size
  (`KernelMeta.ConservedExactly`).
- A shared-memory object left by an earlier run, with its flag set, lets ranks go on with a wrong
  capsule ID (`CapsuleProtocol.SoundExactly`). One left without the flag lets a rank wait for ever
  (`CapsuleProgress.FinishAlwaysExactly`).
- A rank that looks for the object after the leader has removed its name waits for ever, too
  (`CapsuleProgress.ProgressExactly`).
- A full provider table refuses also names it holds (`ProviderTable.Table.Add`), which makes the audit
  answer -1 (`LoadGroup.Audit.AuditNeeded`).
- An inheritance chain longer than 64 is cut, not refused, and a cycle is caught only when an ancestor
  comes back within 64 steps; a self-parent at the 64th place is not (`MergeChain.ChainExactly`,
  `MergeChain.SelfParentAtEnd`).
- Keys longer than 255 characters are cut when stored and compared uncut, so they can appear twice
  (`MergeChain.DistinctExactly`, `MergeChain.OverlongTwice`), and a cut key can answer for a key that nobody
  declared (`MergeChain.NearestWins`).
- Capturing an environment fails in two ways: a colon in a key clears the snapshot, a forbidden
  difference leaves the pairs captured before (`EnvSnapshot.Snapshot.Capture`).
- The exporter accepts value blobs with empty parts and then misreads some: a leading empty part loses its
  colon, a last one makes the read fail (`EnvSnapshot.ReadExactly`, `EnvSnapshot.LeadingBlank`,
  `EnvSnapshot.TrailingBlank`). The encoder never writes an empty part.
- A key that contains an equals sign can answer for another key's line, or lose its own to it
  (`KeyValue.KeptExactly`, `KeyValue.EqualsSignLeaks`).
- System tags past the 255th combined character are dropped without an error
  (`TagNorm.SystemKeptExactly`, `TagNorm.SystemTagsCut`).
- Counter and derive patches write the record file first; when the log half fails the record keeps the
  change (`Counters.PatchBoth`, `TaskMerge.SetDeriveTo`, `DeriveLink.AppendDerive`).

## Model

| member | source | states |
|---|---|---|
| `Signature.MagicInjective` | src/corelib/rafdb/rafdb-l1-magic.c:30-55 | The eight bytes built for a file type, domain and position tell all three apart: two signatures are equal only when all three are equal |
| `Signature.DetectExact` | src/corelib/rafdb/rafdb-l1-magic.c:60-110 | Detection from the first eight bytes answers a type and domain exactly when the file begins with their START signature |
| `Signature.MagicBytes` | src/corelib/rafdb/rafdb-l1-magic.c:30-55 | The signature byte by byte: E1 "TPB", the type in the high and the domain in the low digit of the fifth byte, the letter of the position, "1" E0 |
| `Bytes.LittleEndian` | src/corelib/rafdb/rafdb-l1-record-io.c:13-50 | A 32- or 64-bit number is the sum of its bytes, the first the least significant |
| `Layout.TaskOffsets` | src/corelib/rafdb/rafdb-l2-task.c:172-290 | Field by field, the attributes of a task file stand where the constants of the patching code say, and the first header at 308 |
| `Layout.TBatchOffsets` | src/corelib/rafdb/rafdb-l2-tbatch.c:20-24 | The same for a batch file: duration at 100, nkernel at 240, ntask at 244, first header at 388 |
| `Layout.RtEnvOffsets` | src/corelib/rafdb/rafdb-l3-runtime-environment-counter.c:17-20 | The same for a runtime environment: derive_to at 552, ntask at 556, ntbatch at 560, first header at 1856 |
| `Layout.KernelOffsets` | src/corelib/rafdb/rafdb-l3-kernel-patch.c:226-266 | The same for a kernel: the active flag at 2468, first header at 2660 |
| `Structs.CountsStand` | src/corelib/rafdb/rafdb-l2-kernel.c:125-150 | In every record file the header count stands at 172, 256, 2464 or 828, by domain, in four bytes |
| `Structs.TaskAttrOf` | src/include/tpb-public.h:1158-1178 | Every record of the task schema is that of some task, field by field |
| `Structs.RtEnvAttrOf` | src/include/tpb-public.h:1600-1625 | Every record of the environment schema is that of some environment |
| `Structs.RtEnvRowOf` | src/corelib/rafdb/tpb-raf-runtime-environment.h:12-26 | Every row of 1828 bytes is the packed entry of some environment |
| `Layout.MetaSizes` | src/corelib/rafdb/rafdb-l2-kernel.c:88-97 | metasize is the length of the fixed part and 3096 for each header, in 32 bits except for environments; for a kernel it is eight bytes short |
| `Layout.FixedSize` | src/corelib/rafdb/rafdb-l1-record-io.c:52-102 | The stored block size is the length of a header with seven dimensions |
| `Layout.ImageParts` | src/corelib/rafdb/rafdb-l1-record-io.c:52-102 | A file is the image of a record exactly when preamble, headers and the framed payload each stand at their offset; every byte is accounted for |
| `Disk.DiskFile.Seek` | src/corelib/rafdb/rafdb-l3-task-taglink.c:28-120 | Moving the cursor: refused for a negative offset only, past the end is allowed, no byte changes |
| `Disk.DiskFile.Read` | src/corelib/rafdb/rafdb-l1-record-io.c:25-35 | A read delivers the bytes under the cursor, or is refused when fewer than asked are left; no byte changes |
| `Disk.DiskFile.Write` | src/corelib/rafdb/rafdb-l1-record-io.c:13-23 | A write replaces or extends from the cursor on, filling a gap past the end with zeros, and moves the cursor behind it |
| `RecordIO.WriteHeader` | src/corelib/rafdb/rafdb-l1-record-io.c:52-102 | One header appended: block size always 3096, then exactly ndim sizes and ndim names |
| `RecordIO.WriteHeaders` | src/corelib/rafdb/rafdb-l1-record-io.c:52-102 | The header loop appends the serial form of all headers in order |
| `RecordIO.WriteRecord` | src/corelib/rafdb/rafdb-l2-task.c:171-290 | Writing a record to an empty file, in any of the four domains, leaves exactly its image |
| `RecordIO.ReadHeader` | src/corelib/rafdb/rafdb-l1-record-io.c:105-170 | Reads one header of variable length and leaves the cursor behind it, or refuses a short file and a dimension count above 7 |
| `RecordIO.ReadHeaders` | src/corelib/rafdb/rafdb-l1-record-io.c:105-170 | Reads n headers one behind the other; the cursor ends where their lengths add up to |
| `RecordIO.ReadBody` | src/corelib/rafdb/rafdb-l2-task.c:419-459 | Accepts the payload only when it stands between SPLIT and END signatures at the size the file states |
| `RecordIO.ReadRecord` | src/corelib/rafdb/rafdb-l2-task.c:312-470 | The sequential reader computes the parse of the whole file, on malformed files too |
| `RecordIO.HeaderParse` | src/corelib/rafdb/rafdb-l1-record-io.c:105-170 | A header read where it was written is the header with block size 3096 and nothing past its dimensions |
| `RecordIO.RoundTrip` | src/corelib/rafdb/rafdb-l2-task.c:171-470 | For every domain and every record with at most 7 dimensions a header, reading what was written gives the same attributes and payload, and the headers in stored form |
| `ReadExact.RecordExactly` | src/corelib/rafdb/rafdb-l2-task.c:312-470 | A reader returns a record if and only if, field by field, that record stands in the file: START, payload size, attributes, count, headers with nothing past their dimensions, SPLIT, payload, END; everything else in the file may be anything |
| `CapsuleAppend.Check` | src/corelib/rafdb/rafdb-l3-task-taglink.c:76-153 | The checks before the append accept exactly the files the acceptance predicate names, and read their payload size and dimension count |
| `CapsuleAppend.Append` | src/corelib/rafdb/rafdb-l3-task-taglink.c:28-203 | On every file, valid or not: refused files keep every byte, accepted ones get exactly the five writes |
| `CapsuleAppend.CapsuleAccepted` | src/corelib/rafdb/rafdb-l3-task-taglink.c:76-153 | Every capsule record's file passes the checks, and what the code reads from its hard-coded offsets is the record's own size and dimension count |
| `CapsuleAppend.AppendRefines` | src/corelib/rafdb/rafdb-l3-task-taglink.c:76-196 | The patched file equals, byte for byte, the image written from scratch of the record with one more ID, its sizes and dimsizes[0] included |
| `CapsuleAppend.AppendsRefine` | src/corelib/rafdb/rafdb-l3-task-taglink.c:76-196 | Any number of appends equals the image of the record whose payload grew by all IDs in call order, attributes unchanged |
| `CapsuleAppend.NoDimensionBreaks` | src/corelib/rafdb/rafdb-l3-task-taglink.c:182-190 | For a header without dimensions the count lands on the SPLIT signature: the file is accepted for patching and no longer reads as a record |
| `CapsuleAppend.AppendReadsBack` | src/corelib/rafdb/rafdb-l3-task-taglink.c:28-203 | The patched file reads back as the old attributes and the payload plus the ID if and only if the header has a dimension |
| `AppendExact.CapsuleBytes` | src/corelib/rafdb/rafdb-l3-task-taglink.c:76-153 | In bytes: the append accepts a file exactly when it starts as a task record, counts one header with the name "TaskID", has a payload size divisible by 20, and END where that size and the dimension count say |
| `AppendExact.CapsuleImages` | src/corelib/rafdb/rafdb-l3-task-taglink.c:76-153 | Among the files of task records it accepts those with one header of that name and whole IDs, and no other |
| `BatchAppend.CheckNames` | src/corelib/rafdb/rafdb-l3-tbatch-taglink.c:80-168 | The names and sizes the function looks for at its fixed offsets are read or the file is refused |
| `BatchAppend.CheckTail` | src/corelib/rafdb/rafdb-l3-tbatch-taglink.c:170-213 | The consistency checks on sizes and signatures, and the tail that will be shifted |
| `BatchAppend.Append` | src/corelib/rafdb/rafdb-l3-tbatch-taglink.c:28-265 | On every file: refused files keep every byte, accepted ones get the ID inserted, the tail shifted and the three numbers rewritten |
| `BatchAppend.Inserted` | src/corelib/rafdb/rafdb-l3-tbatch-taglink.c:195-253 | The record an insertion leads to: TaskID block with the ID at its end, KernelID block the same, sizes again summing to the payload |
| `BatchAppend.InsertRefines` | src/corelib/rafdb/rafdb-l3-tbatch-taglink.c:80-258 | The patched file equals the image of that record byte for byte, so SPLIT, END, every attribute and every other header byte are where they belong; the only stray change is 8 bytes of the first header's note |
| `BatchAppend.InsertReadsBack` | src/corelib/rafdb/rafdb-l3-tbatch-taglink.c:80-258 | Read back, the TaskID block is the old one plus the ID and the KernelID block is byte-identical |
| `BatchAppend.InsertsRefine` | src/corelib/rafdb/rafdb-l3-tbatch-taglink.c:80-258 | Any number of insertions appends the IDs in call order and leaves KernelID block and attributes alone |
| `BatchAppend.CountMisplaced` | src/corelib/rafdb/rafdb-l3-tbatch-taglink.c:244-249 | The file is what list append should leave (count in dimsizes[0], note untouched) if and only if the new count already stood both in dimsizes[0] and at the note position that is hit |
| `BatchAppend.CountOfConsistentHeader` | src/corelib/rafdb/rafdb-l3-tbatch-taglink.c:244-249 | A header whose count matches its size never meets that condition, so a consistent file always ends up with a stale count |
| `AppendExact.BatchBytes` | src/corelib/rafdb/rafdb-l3-tbatch-taglink.c:80-213 | In bytes: the insertion accepts a file exactly when it starts as a batch record, counts two headers with their names, and its sizes add up in 64 bits and lead to END and into the file |
| `AppendExact.BatchImages` | src/corelib/rafdb/rafdb-l3-tbatch-taglink.c:170-213 | Among the files of batch records it accepts those with the two names, whole IDs in the first block, and sizes whose sum is the payload's; or exceeds it by 2^64, exactly when the second is one of the last eight numbers or the first, as a negative offset, stays in the file |
| `PeekMagics.FindSplit` | src/corelib/rafdb/rafdb-l2-record-peek-magics.c:73-98 | The byte-by-byte scan returns the first SPLIT signature in its range |
| `PeekMagics.PeekRecord` | src/corelib/rafdb/rafdb-l2-record-peek-magics.c:100-204 | The magic scan on any file: START, first SPLIT, END where the stated payload size puts it, or a refusal |
| `PeekMagics.FirstSplitIs` | src/corelib/rafdb/rafdb-l2-record-peek-magics.c:73-98 | With a SPLIT at a position, the scan finds one, and it finds this one if and only if none stands earlier |
| `PeekMagics.PeekExact` | src/corelib/rafdb/rafdb-l2-record-peek-magics.c:100-204 | On every written record the scan finds the SPLIT and END that the reader uses if and only if no earlier metadata bytes form a SPLIT signature |
| `PatchExact.PeekExactly` | src/corelib/rafdb/rafdb-l2-record-peek-magics.c:100-204 | On every file: the scan answers two positions if and only if START stands, the first is that of the first SPLIT from byte 24 on, in front of the payload's room when the size leaves any, and END stands at the second, as far behind as the size says |
| `EntryLog.Append` | src/corelib/rafdb/rafdb-l1-entry.c:17-112 | Append under the lock on any file: START and END laid down on an empty file, row and END over the old END otherwise, nothing touched when the checks fail |
| `EntryLog.AppendRefines` | src/corelib/rafdb/rafdb-l1-entry.c:17-112 | The resulting file is the log of the old rows followed by the new one; an empty file becomes the log of one row |
| `EntryLog.List` | src/corelib/rafdb/rafdb-l1-entry.c:114-201 | The buffered row reader computes the listing of the file |
| `EntryLog.ListExact` | src/corelib/rafdb/rafdb-l1-entry.c:114-201 | A listing returns a non-empty list of rows if and only if the file is exactly START, those rows, END |
| `EntryLog.ListEmpty` | src/corelib/rafdb/rafdb-l1-entry.c:114-201 | A log without rows lists as empty |
| `EntryLog.ListAfterAppend` | src/corelib/rafdb/rafdb-l1-entry.c:17-201 | What an append adds, a later listing shows, after everything that was there before |
| `EntryLog.PatchRow` | src/corelib/rafdb/rafdb-l3-runtime-environment-counter.c:26-121 | A write inside row i changes that row only: no row is lost or moved, and the file is again a log |
| `PatchExact.AppendAccepts` | src/corelib/rafdb/rafdb-l1-entry.c:17-112 | An append accepts the empty file and those of 16 bytes or more with END behind them; START is not looked at |
| `PatchExact.ListAccepts` | src/corelib/rafdb/rafdb-l1-entry.c:114-201 | A listing accepts exactly the files with START, a whole number of rows, and END unless there are none |
| `AttrPatch.PatchAttr` | src/corelib/rafdb/rafdb-l3-runtime-environment-counter.c:123-209 | Overwriting one attribute field at its offset is setting that attribute of the record, in every domain |
| `AttrPatch.AttrStands` | src/corelib/rafdb/rafdb-l3-runtime-environment-counter.c:123-209 | The bytes at an attribute's offset are that attribute |
| `Counters.PatchLog` | src/corelib/rafdb/rafdb-l3-runtime-environment-counter.c:26-121 | Scan, read, add and write on any log file; a missing ID or a bad file leaves every byte |
| `Counters.FindFirst` | src/corelib/rafdb/rafdb-l3-runtime-environment-counter.c:74-99 | The row patched is the first with the ID; none is patched exactly when none has it |
| `Counters.BumpedFields` | src/corelib/rafdb/rafdb-l3-runtime-environment-counter.c:79-97 | Both counters, at 532 and 536 of the row, grow modulo 2^32 and no other byte of the row changes |
| `Counters.LogPatchRefines` | src/corelib/rafdb/rafdb-l3-runtime-environment-counter.c:26-121 | Patching the log file is updating that one row of the list |
| `PatchExact.LogAccepts` | src/corelib/rafdb/rafdb-l3-runtime-environment-counter.c:26-121 | The counter and the derive_to patch of the log succeed exactly when START stands and some whole row of 1828 bytes has the ID; END is not looked at |
| `Counters.RowFields` | src/corelib/rafdb/tpb-raf-runtime-environment.h:12-38 | In the packed row of an entry, field behind field, the patch reads that entry's ID, task counter and batch counter, and no other field |
| `Counters.LogPatchFields` | src/corelib/rafdb/rafdb-l3-runtime-environment-counter.c:26-121 | For every list of entries: patching its log gives the log of the list in which the first entry with the ID has ntask and ntbatch increased modulo 2^32, or fails when there is none |
| `Counters.PatchRecord` | src/corelib/rafdb/rafdb-l3-runtime-environment-counter.c:123-209 | The record half: START check, read, add, write; refused files keep every byte |
| `Counters.RecordPatchRefines` | src/corelib/rafdb/rafdb-l3-runtime-environment-counter.c:123-209 | Patching the record file is adding to two attributes of the record |
| `Counters.RecordPatchFields` | src/corelib/rafdb/rafdb-l3-runtime-environment-counter.c:123-209 | For every environment and any headers and payload: patching its record file gives that of the environment with the two counters increased |
| `PatchExact.RecordAccepts` | src/corelib/rafdb/rafdb-l2-tbatch.c:220-304 | Which files the record patches accept: an environment's START and 564 bytes, a batch's START, a task's START and its ID |
| `Counters.PatchBoth` | src/corelib/rafdb/rafdb-l3-runtime-environment-counter.c:123-216 | Both files together: nothing happens for two zeros; when the log half fails the record half has already been written |
| `LogInterleaving.InvStep` | src/corelib/rafdb/rafdb-l3-runtime-environment-counter.c:26-216 | Every step of any process, appender under flock or patcher under fcntl locks, keeps the invariant |
| `LogInterleaving.InvRun` | src/corelib/rafdb/rafdb-l1-entry.c:17-112 | So does every run |
| `LogInterleaving.InterleavedSafety` | src/corelib/rafdb/rafdb-l1-entry.c:17-112 | Under any interleaving of any number of processes the log stays START, whole rows, END; rows keep their place and all bytes but the counters; every counter of log and records is its first value plus all increments modulo 2^32 |
| `LogInterleaving.InterleavedFields` | src/corelib/rafdb/tpb-raf-runtime-environment.h:12-38 | The same over the fields: under any interleaving a row is that of the entry first written with its two counters increased by all that was added, a record file that of the first record with both counters increased, and every other field, header and payload byte is as it was |
| `LogInterleaving.CountersAgree` | src/corelib/rafdb/rafdb-l3-runtime-environment-counter.c:123-216 | When no patch of an ID is between the two files and none failed half-way, record and log row have received the same, and agree if they agreed when new |
| `LogInterleaving.NothingLost` | src/corelib/rafdb/rafdb-l1-entry.c:17-112 | Once all processes are idle, the record counters have received every increment asked for during the run, and the log holds its first rows and every row asked for, as often as asked |
| `LogProgress.Settles` | src/corelib/rafdb/rafdb-l3-runtime-environment-counter.c:26-216 | However a run stands, the processes can finish what they have begun without being asked for more: there is no deadlock between the two kinds of locks; and then every increment and every row asked for has arrived |
| `CapsuleProtocol.CapsuleRecordFits` | src/corelib/rafdb/rafdb-l2-task.c:292-310 | The capsule record built from a task record is one the append function accepts: one TaskID header with a dimension, its first ID as payload; its fields are in the two rows below |
| `CapsuleProtocol.CapsuleFields` | src/corelib/tpb-autorecord.c:835-870 | The capsule's record in terms of the leader's task: its own ID, all-ones lineage, the task's batch, kernel, times, handle, process and thread, zeros for the rest, one header for one ID |
| `CapsuleProtocol.CapsuleOnDisk` | src/corelib/tpb-autorecord.c:835-870 | On the files: bytes 84 to 140 and 152 to 164 of the capsule's file are those of the leader's; its own ID stands at 24, derive_to is zero, inherit_from all FF, and duration, exit code and argument counts are zero |
| `CapsuleProtocol.LeaderKeeps` | src/corelib/tpb-autorecord.c:807-918 | Each step of the leader (create record, create object, 20 byte stores, flag) keeps the protocol invariant |
| `CapsuleProtocol.RankKeeps` | src/corelib/tpb-autorecord.c:920-983 | Each step of any rank (open, wait for the flag, 20 byte loads, lock, five file writes, unlock) keeps it |
| `CapsuleProtocol.InvRun` | src/corelib/tpb-autorecord.c:807-1002 | It holds after every run of any number of ranks |
| `CapsuleProtocol.StaleBreaks` | src/corelib/tpb-autorecord.c:884-948 | A flagged object left by an earlier run lets a rank complete its sync before the leader has done anything |
| `CapsuleProtocol.SoundExactly` | src/corelib/tpb-autorecord.c:807-966 | Every completed sync of every run returns the leader's capsule ID with a record already on disk that an append accepts, if and only if no flagged object was left behind |
| `CapsuleProtocol.CapsuleComplete` | src/corelib/tpb-autorecord.c:807-983 | When all ranks are done the record reads back with the leader's TaskID followed by every other rank's ID exactly once, in lock order |
| `CapsuleProtocol.CapsuleCompleteFields` | src/corelib/tpb-autorecord.c:807-983 | The finished file is, byte for byte, that of a record with these fields, one header sized for all IDs, and the leader's ID and every other rank's as payload, in lock order |
| `CapsuleProgress.ProgressExactly` | src/corelib/tpb-autorecord.c:938-960 | After any run that found no flagged object, the ranks can all finish if and only if none has come too late for the name and none has opened an object that nobody will flag; at the start they can |
| `CapsuleProgress.FinishExactly` | src/corelib/tpb-autorecord.c:807-1002 | From any state that the protocol keeps, there is a run in which all ranks finish if and only if none waits for nothing |
| `CapsuleProgress.FinishAlwaysExactly` | src/corelib/tpb-autorecord.c:884-960 | As long as the leader has not removed the name the ranks can always finish, if and only if no object of that name was left behind by an earlier run |
| `Sha1.RotlRotates` | src/corelib/rafdb/rafdb-l1-sha1.c:17-21 | The shift-and-or helper is the circular left shift for the amounts in use |
| `Sha1.Schedule` | src/corelib/rafdb/rafdb-l1-sha1.c:23-45 | The two schedule loops compute the 80 words of RFC 3174 section 6.1, steps (a) and (b) |
| `Sha1.PackWrites` | src/corelib/rafdb/rafdb-l1-sha1.c:32-38 | Four bytes packed into a word come out again in the same order when the word is written |
| `Sha1.Turn` | src/corelib/rafdb/rafdb-l1-sha1.c:46-67 | One turn of the round loop is one step (d), with the function and constant its index selects |
| `Sha1.ChSelects` | src/corelib/rafdb/rafdb-l1-sha1.c:46-67 | The first round function takes its second argument where the first has ones, and its third elsewhere |
| `Sha1.MajVotes` | src/corelib/rafdb/rafdb-l1-sha1.c:46-67 | The third round function agrees with its first argument where that agrees with one of the others, and with the other two elsewhere |
| `Sha1.ParityCancels` | src/corelib/rafdb/rafdb-l1-sha1.c:46-67 | The second and fourth round functions: equal arguments cancel and their order does not matter |
| `Sha1.Xor4Cancels` | src/corelib/rafdb/rafdb-l1-sha1.c:23-45 | Two equal words of the four that the schedule combines cancel, and the other two are combined as by the second round function with zero |
| `Sha1.Context.constructor` | src/corelib/rafdb/rafdb-l1-sha1.c:77-90 | A fresh context has been fed nothing |
| `Sha1.Context.ProcessBlock` | src/corelib/rafdb/rafdb-l1-sha1.c:23-75 | Processing a block turns the state into its compression with that block |
| `Sha1.Context.Update` | src/corelib/rafdb/rafdb-l1-sha1.c:92-128 | However the buffer stands, feeding bytes extends the message by exactly those bytes |
| `Sha1.Context.Final` | src/corelib/rafdb/rafdb-l1-sha1.c:130-162 | The digest is that of RFC 3174 (padding of section 4, blocks of section 6.1) of all bytes fed, in one block or two at the end |
| `Sha1.AbsorbAppend` | src/corelib/rafdb/rafdb-l1-sha1.c:92-128 | Absorbing whole blocks in two parts is absorbing them at once |
| `Sha1.PaddedInjective` | src/corelib/rafdb/rafdb-l1-sha1.c:130-162 | Different messages stay different when padded |
| `Sha1.PaddedIs` | src/corelib/rafdb/rafdb-l1-sha1.c:130-162 | The padded message: its bytes, a byte 0x80, as few zeros as make whole blocks, the bit count in eight bytes, the most significant first |
| `Sha1.HashPieces` | src/corelib/rafdb/rafdb-l1-sha1.c:77-193 | For every split of a message below 2^61 bytes into updates the digest is the one-shot digest of the whole |
| `Sha1Vector.AbcDigest` | src/corelib/rafdb/rafdb-l1-sha1.c:23-162 | The digest of "abc" is A9993E36 4706816A BA3E2571 7850C26C 9CD0D89D, as in section 7.3 of RFC 3174 |
| `ProviderTable.Hash` | src/utils/tpb-elf-export.c:492-502 | The rolling hash stays in unsigned 32 bits |
| `ProviderTable.HashOfPrintf` | src/utils/tpb-elf-export.c:492-502 | One value of the hash, with its wrap at 2^32, and the slot where probing for it starts |
| `ProviderTable.ProbeDist` | src/utils/tpb-elf-export.c:504-553 | With the masked unsigned sum the code uses, probe i visits the slot at distance i, so probes visit every slot once, for any hash value |
| `ProviderTable.FullCount` | src/utils/tpb-elf-export.c:504-530 | A table whose slots are all taken by different names holds as many names as it has slots |
| `ProviderTable.SoundInsert` | src/utils/tpb-elf-export.c:504-530 | Filling the first empty slot of a name's probe sequence keeps the rule that no slot between a name's hash and its place is empty, and adds just that name |
| `ProviderTable.Table.EmptySlot` | src/utils/tpb-elf-export.c:504-553 | In every reachable state some slot is empty |
| `ProviderTable.Table.Seek` | src/utils/tpb-elf-export.c:504-553 | The probe loop ends, at the name or at an empty slot, having met neither before |
| `ProviderTable.Table.Add` | src/utils/tpb-elf-export.c:504-530 | The set grows by the name; a full table refuses every name, also one it holds, and the empty name is accepted and not stored |
| `ProviderTable.Table.Has` | src/utils/tpb-elf-export.c:532-553 | Membership: true exactly for the names added so far |
| `LoadGroup.Audit.GroupAdd` | src/utils/tpb-elf-export.c:662-693 | A member already present (by canonical path) is not added twice; a full group or an unreadable image fails; otherwise it is appended |
| `LoadGroup.Audit.WalkNeeded` | src/utils/tpb-elf-export.c:695-727 | One member's dependencies are walked in order while the group grows under the loop |
| `LoadGroup.GroupIsClosure` | src/utils/tpb-elf-export.c:805-839 | The worklist terminates; a group it builds has no duplicates, starts at the root, is closed under the locatable dependencies of its audited members, and every other member is such a dependency of a member |
| `LoadGroup.SkipExactly` | src/utils/tpb-elf-export.c:640-660 | A name is passed over if and only if one of the fourteen listed fragments stands somewhere in it |
| `LoadGroup.LabelIs` | src/utils/tpb-elf-export.c:662-693 | The label is the name a library was needed by, or for the root the part of its path behind the last slash, cut to 255 characters |
| `LoadGroup.GroupRefused` | src/utils/tpb-elf-export.c:805-839 | A group that is not built has a reason: the root cannot be read, or a group of the root and what its members need cannot take the next dependency, full or unreadable |
| `LoadGroup.Audit.CollectProviders` | src/utils/tpb-elf-export.c:555-602 | One member's default-visible global and weak definitions enter the table; it fails only by overflow |
| `LoadGroup.Audit.Collect` | src/utils/tpb-elf-export.c:840-846 | Over the group the table holds exactly the offered names, and fails exactly when a named one comes to a full table |
| `LoadGroup.VerdictIs` | src/utils/tpb-elf-export.c:743-803 | No miss is counted against that table if and only if every named non-weak undefined symbol of every audited member is provided somewhere in the group |
| `LoadGroup.Audit.AuditMapped` | src/utils/tpb-elf-export.c:743-803 | The number of failures is the number of such symbols the table lacks |
| `LoadGroup.Audit.AuditNeeded` | src/utils/tpb-elf-export.c:805-856 | The verdict: -1 exactly when the group cannot be built or the table overflows, else 0 exactly when everything is resolved, else 1 |
| `MergeChain.Merger.AddApp` | src/corelib/tpb-rtenv.c:452-475 | Update of the row with the name, or a new row with the cut name, or failure at the limit with nothing changed |
| `MergeChain.Merger.AddVar` | src/corelib/tpb-rtenv.c:477-501 | The same for variables |
| `MergeChain.LookupIsLast` | src/corelib/tpb-rtenv.c:477-501 | What any key reads back as: nothing when it is overlong, its last binding when it was bound, else the first overlong key that was cut to it |
| `MergeChain.DistinctExactly` | src/corelib/tpb-rtenv.c:477-501 | The stored keys are pairwise distinct if and only if no overlong key was cut to characters already stored |
| `MergeChain.OverlongTwice` | src/corelib/tpb-rtenv.c:477-501 | An overlong key bound twice takes two rows with the same characters |
| `MergeChain.FullExactly` | src/corelib/tpb-rtenv.c:477-501 | Without overlong keys the table fails exactly when there are more different keys than rows |
| `MergeChain.Merger.Declaration` | src/corelib/tpb-rtenv.c:538-567 | The inner header loop finds the declaration that belongs to a key header |
| `MergeChain.DeclaredIs` | src/corelib/tpb-rtenv.c:505-578 | What is declared under an index: the last text, the last action on set and the last action on get among the headers of that index, where there are any |
| `MergeChain.Merger.Delta` | src/corelib/tpb-rtenv.c:505-578 | One record's bindings are laid over what was merged before, in header order, or the merge fails |
| `MergeChain.ChainExactly` | src/corelib/tpb-rtenv.c:593-619 | Collecting the chain fails if and only if, within 64 steps, an ancestor comes back; otherwise the chain is the line of ancestors, pairwise distinct, and stops only at a root or at 64 |
| `MergeChain.SelfParentCaught` | src/corelib/tpb-rtenv.c:593-619 | A record that is its own parent before the 64th place is rejected |
| `MergeChain.SelfParentAtEnd` | src/corelib/tpb-rtenv.c:593-619 | A line of 64 different records whose last is its own parent is collected, not rejected |
| `MergeChain.Collect` | src/corelib/tpb-rtenv.c:593-619 | The collection loop fills the array with that chain |
| `MergeChain.ParentIs` | src/corelib/tpb-rtenv.c:593-619 | The parent of a record is what the first entry with its ID says, and -1 when there is none |
| `MergeChain.Merger.MergeChain` | src/corelib/tpb-rtenv.c:580-627 | The whole call: chain, then records merged from the furthest ancestor down to the target |
| `MergeChain.NearestWins` | src/corelib/tpb-rtenv.c:580-643 | After a successful merge a key carries the binding of the nearest record of the chain, the target itself first, if and only if, being declared, it is not overlong, or, not being declared, no overlong key was cut to it |
| `MergeChain.MergedDistinct` | src/corelib/tpb-rtenv.c:580-627 | The merged keys are pairwise distinct if and only if no overlong key was cut to another's characters |
| `MergeChain.NearestAppWins` | src/corelib/tpb-rtenv.c:580-643 | The same for applications: a name reads as the version and note, each cut to 63 characters, of the nearest record of the chain that lists it, under the same if-and-only-if |
| `MergeChain.MergedAppsDistinct` | src/corelib/tpb-rtenv.c:580-627 | The merged application names are pairwise distinct if and only if no overlong name was cut to another's characters |
| `MergeChain.MergedExactly` | src/corelib/tpb-rtenv.c:580-627 | Merging along a chain succeeds if and only if every record can be read and both tables have room: 32 rows for the applications listed, cut to 63 characters, and 512 for the keys bound, cut to 255, in the order furthest ancestor first |
| `EnvSnapshot.CountSegments` | src/corelib/tpb-rtenv.c:689-713 | The first scanner returns the number of non-empty segments |
| `EnvSnapshot.Reserve` | src/corelib/tpb-rtenv.c:715-749 | Doubling ends, leaves room for what is needed and keeps what the buffer held |
| `EnvSnapshot.AppendPart` | src/corelib/tpb-rtenv.c:715-749 | A part is appended behind a colon, or first; the growth is always enough |
| `EnvSnapshot.Snapshot.AddSegments` | src/corelib/tpb-rtenv.c:803-821 | The second scanner appends exactly the segments the first one counts, in order |
| `EnvSnapshot.Snapshot.AppendKey` | src/corelib/tpb-rtenv.c:751-822 | The three buffers again encode the pairs kept so far plus this one; a key with a colon is refused and changes nothing |
| `EnvSnapshot.Snapshot.Clear` | src/corelib/tpb-rtenv.c:824-833 | Back to nothing kept |
| `EnvSnapshot.Snapshot.Capture` | src/corelib/tpb-rtenv.c:858-916 | Over any environment: kept are the variables not marked to be ignored, in order, keys and values cut to their buffers; a colon in a key clears everything, a variable that differs from a binding marked to fail leaves the pairs before it |
| `EnvSnapshot.JudgeIs` | src/corelib/tpb-rtenv.c:858-916 | One variable, by its declaration: kept without one or with an action other than 0 and 2, skipped with 0, and with 2 kept only when the value is the declared one; keys cut to 255 and values to 65535 characters |
| `EnvSnapshot.JudgeNone` | src/corelib/tpb-rtenv.c:858-916 | A string of the environment without a name in front of an equals sign is skipped |
| `EnvSnapshot.CaptureIs` | src/corelib/tpb-rtenv.c:858-916 | Over a whole environment of variables: the pairs kept, in order, and which variable makes the capture fail |
| `EnvSnapshot.SplitJoin` | src/tpbcli/task/tpbcli-task-export.c:347-410 | Splitting what was joined gives the colon-free parts back |
| `EnvSnapshot.EncodedValid` | src/tpbcli/task/tpbcli-task-export.c:475-537 | Every snapshot the encoder can produce passes the exporter's validation |
| `EnvSnapshot.DecodeEncode` | src/corelib/tpb-rtenv.c:690-824 | Unpacking a snapshot gives every key, and each value's non-empty segments in order |
| `EnvSnapshot.WholeValue` | src/corelib/tpb-rtenv.c:803-821 | A value comes back unchanged if and only if it is empty or has no empty segment |
| `EnvSnapshot.CountEntries` | src/tpbcli/task/tpbcli-task-export.c:347-368 | The exporter's entry count is the number of parts, zero for the empty blob |
| `EnvSnapshot.Validate` | src/tpbcli/task/tpbcli-task-export.c:475-537 | Accepts exactly when keys, counts and segments agree in number |
| `EnvSnapshot.ValidatesExactly` | src/tpbcli/task/tpbcli-task-export.c:475-537 | The condition in terms of the blobs: as many parts between colons as counts, and values with as many parts as the counts sum to |
| `EnvSnapshot.KeyToBuf` | src/tpbcli/task/tpbcli-task-export.c:376-410 | Delivers the key at an index, or fails when there is none or the buffer is too small |
| `EnvSnapshot.ValueToBuf` | src/tpbcli/task/tpbcli-task-export.c:412-473 | On every validated snapshot, empty parts included: the parts of the entry at an index, a colon in front of each as soon as something has been copied, or a failure when the parts reach an empty last one or the text does not fit |
| `EnvSnapshot.ReadExactly` | src/tpbcli/task/tpbcli-task-export.c:412-473 | On every validated snapshot that is the entry's value if and only if the entry has no parts, or its parts do not end in an empty last part of the blob and start with an empty one only when it is the only one |
| `EnvSnapshot.LeadingBlank` | src/tpbcli/task/tpbcli-task-export.c:412-473 | For any non-empty part a, the validated value ":a" reads as "a" |
| `EnvSnapshot.TrailingBlank` | src/tpbcli/task/tpbcli-task-export.c:412-473 | For any non-empty part a, the validated value "a:" cannot be read |
| `EnvSnapshot.ExportRow` | src/tpbcli/task/tpbcli-task-export.c:966-979 | From live capture buffers to exported cells: the captured key and value segments, if both fit 4096 bytes |
| `KeyValue.Get` | src/corelib/rafdb/rafdb-l3-kernel-kvmeta.c:50-98 | The line scan returns the rest of the first line that starts with the key and an equals sign, cut to the buffer |
| `KeyValue.Set` | src/corelib/rafdb/rafdb-l3-kernel-kvmeta.c:192-259 | The copying loop leaves the new text in a buffer of exactly the allocated capacity; no write reaches its end |
| `KeyValue.TailFits` | src/corelib/rafdb/rafdb-l3-kernel-kvmeta.c:192-259 | The text still to be written never exceeds what the allocation reserved: the overflow branch is dead |
| `KeyValue.SetTextLines` | src/corelib/rafdb/rafdb-l3-kernel-kvmeta.c:192-259 | On lines: the first line of the key is replaced, further ones dropped, or one added at the end |
| `KeyValue.LinesUnlines` | src/corelib/rafdb/rafdb-l3-kernel-kvmeta.c:192-259 | Lines written out are read back as they were |
| `KeyValue.GetFirst` | src/corelib/rafdb/rafdb-l3-kernel-kvmeta.c:50-98 | On a text: a get reads what follows "key=" on the first line that starts so, cut to the buffer, for keys of at most 253 characters |
| `KeyValue.GetMissing` | src/corelib/rafdb/rafdb-l3-kernel-kvmeta.c:50-98 | Without such a line it fails |
| `KeyValue.SetFirst` | src/corelib/rafdb/rafdb-l3-kernel-kvmeta.c:192-259 | On a text: a set puts the new line where the first line of the key stood, drops the other lines of the key and keeps all else in order |
| `KeyValue.SetNew` | src/corelib/rafdb/rafdb-l3-kernel-kvmeta.c:192-259 | When the key has no line yet, the new one goes to the end |
| `KeyValue.GetAfterSet` | src/corelib/rafdb/rafdb-l3-kernel-kvmeta.c:50-259 | Get after set returns the value as far as the buffer holds it, for every key of at most 253 characters; a longer key does not read back |
| `KeyValue.KeptExactly` | src/corelib/rafdb/rafdb-l3-kernel-kvmeta.c:50-259 | Setting a key leaves what another key reads unchanged, for every text, if and only if the other key is too long to be read at all, or neither search text starts the other key's lines: not the other one the new line, and not this one a line of the other |
| `KeyValue.OthersKept` | src/corelib/rafdb/rafdb-l3-kernel-kvmeta.c:50-259 | In particular every other key reads as before when neither contains an equals sign, whatever their lengths |
| `KeyValue.EqualsSignLeaks` | src/corelib/rafdb/rafdb-l3-kernel-kvmeta.c:50-259 | With an equals sign in the other key it can fail both ways, for all keys: setting k to x=w makes the key k=x answer w, and setting k to any other value drops the line of the key k=x |
| `KeyValue.SetAbsorbs` | src/corelib/rafdb/rafdb-l3-kernel-kvmeta.c:192-259 | Setting a key twice is setting it once to the second value |
| `KernelMeta.Rebuild` | src/corelib/rafdb/rafdb-l3-kernel-patch.c:388-408 | The moving-pointer loop lays out the new block and, for every other, the bytes found at its offset by the new sizes |
| `KernelMeta.UpdateMetaKey` | src/corelib/rafdb/rafdb-l3-kernel-patch.c:305-418 | The rebuilding between read and write, with the errors for a key without section, a missing header and a payload too short |
| `KernelMeta.SplitKeyIs` | src/corelib/rafdb/rafdb-l3-kernel-patch.c:305-350 | A full key is cut at its first dot: a section of 1 to 63 characters, and a key, which may have dots and is cut to 255 |
| `KernelMeta.SplitKeyRefuses` | src/corelib/rafdb/rafdb-l3-kernel-patch.c:305-350 | A full key is refused if and only if it is not such a section, a dot and a key |
| `KernelMeta.UpdateFails` | src/corelib/rafdb/rafdb-l3-kernel-patch.c:305-418 | The errors of an update, each with its exact condition: a key that is not split, a section no header has, a payload that is empty or ends before the block of that header |
| `KernelMeta.EarlierKept` | src/corelib/rafdb/rafdb-l3-kernel-patch.c:388-408 | Blocks before the changed one keep their bytes |
| `KernelMeta.ConservedExactly` | src/corelib/rafdb/rafdb-l3-kernel-patch.c:375-405 | All other blocks keep their bytes for every payload if and only if the length did not change or every later block is empty |
| `KernelMeta.UpdateReadsBack` | src/corelib/rafdb/rafdb-l3-kernel-patch.c:305-418 | After an update the payload has the stated length, the header's size is its text's, and getting the key gives the value |
| `KernelMeta.UpdateKeepsOthers` | src/corelib/rafdb/rafdb-l3-kernel-patch.c:305-418 | An update keeps the bytes of every block before the changed one, where readers look for them, and of the later ones when the length has not changed |
| `KernelUpdate.ParsedWf` | src/corelib/rafdb/rafdb-l2-kernel.c:178-324 | Whatever a reader accepts, from any file, is a well-formed record that can be written again (payloads below 2^63 bytes) |
| `KernelUpdate.UpdateKey` | src/corelib/rafdb/rafdb-l3-kernel-patch.c:305-418 | The whole call on two files, the one read and the one that the record's own ID names, which can be the same: a file that cannot be read or an update that fails leaves every byte of both, otherwise the named file is the image of the rewritten record |
| `KernelUpdate.UpdateRefines` | src/corelib/rafdb/rafdb-l3-kernel-patch.c:305-418 | From file to file, for every record whose sizes add up: the call succeeds exactly when there is a payload and the key names a header; then the file reads back with the same attributes and other headers, the changed header the same but for its size and first extent, sizes that add up, the key bound to the value, earlier blocks as they were, and all blocks when the length is unchanged |
| `TagNorm.Collect` | src/corelib/tpb-tag-norm.c:46-110 | The token loop yields the distinct trimmed upper-cased words, or fails exactly on a colon or on too many words |
| `TagNorm.NormalizeTags` | src/corelib/tpb-tag-norm.c:46-129 | The call on a buffer: the normal form with terminator if it fits and the input is fine, else failure |
| `TagNorm.NormalTokens` | src/corelib/tpb-tag-norm.c:46-129 | The tokens of the normal form are strictly sorted, trimmed, upper-case, and exactly the words of the input |
| `TagNorm.WordsSplit` | src/corelib/tpb-tag-norm.c:46-110 | The words of two lists with a comma between them are those of the one and then those of the other |
| `TagNorm.WordsPiece` | src/corelib/tpb-tag-norm.c:46-110 | A list without a comma is one word, without the blanks and tabs around it and in capitals, or none when it is blank |
| `TagNorm.UpperIs` | src/corelib/tpb-tag-norm.c:46-110 | Capitals: the 26 lower-case letters change, all other characters stay |
| `TagNorm.NormalizeFails` | src/corelib/tpb-tag-norm.c:46-129 | Normalising fails if and only if a word has a colon, there are more than 64 different words, or the result does not fit |
| `TagNorm.SortedUnique` | src/corelib/tpb-tag-norm.c:20-30 | A strictly sorted list is determined by its elements |
| `TagNorm.LessAt` | src/corelib/tpb-tag-norm.c:20-30 | The order is that of the first character in which two words differ, and a word that ends there comes first |
| `TagNorm.SameWords` | src/corelib/tpb-tag-norm.c:46-129 | Inputs with the same set of upper-cased words have the same normal form and fail alike |
| `TagNorm.Idempotent` | src/corelib/tpb-tag-norm.c:46-129 | Normalising a normal form gives it back |
| `TagNorm.NormalLen` | src/corelib/tpb-tag-norm.c:46-129 | The normal form is never longer than the part of the input that was read |
| `TagNorm.FinalizeRoleTags` | src/corelib/tpb-tag-norm.c:173-197 | User and system tags normalised together into a buffer, system tags alone when there are no user tags |
| `TagNorm.FinalizeIs` | src/corelib/tpb-tag-norm.c:173-197 | Finalising normalises the two texts with a comma between them, and fails without system text and on user text of more than 191 characters or with a colon |
| `TagNorm.RoleTags` | src/corelib/tpb-tag-norm.c:173-197 | When user and system text together fit the scratch buffer, a finalised tag fits its own buffer, is in normal form and holds every system word, every user word and no other |
| `TagNorm.SystemKeptExactly` | src/corelib/tpb-tag-norm.c:173-197 | For user text of n characters and system text of m, every accepted input keeps every system word if and only if n + 1 + m (or m, when there is no user text) is at most 255 |
| `TagNorm.SystemTagsCut` | src/corelib/tpb-tag-norm.c:173-197 | For any accepted input the tag holds exactly the words of the user and of that part of the system text which reaches into the scratch buffer; the rest is lost without an error, a word cut in the middle too |
| `TagNorm.SystemTagLost` | src/corelib/tpb-tag-norm.c:173-197 | Any lengths that go beyond the buffer lose a word: a user word and a system word of those lengths are accepted and the system word is not in the tag |
| `TagNorm.FormatDisplay` | src/corelib/tpb-tag-norm.c:199-246 | The display form with blanks behind commas, if it fits |
| `TagNorm.DisplayIs` | src/corelib/tpb-tag-norm.c:199-246 | What is displayed of one tag more: a comma, a blank and the tag behind what was displayed before |
| `TagNorm.DisplayNormalizes` | src/corelib/tpb-tag-norm.c:199-246 | What is displayed of a normal form normalises back to it if and only if it fits the 255 characters that normalising reads |
| `DateTime.ToBits` | src/corelib/strftime.c:197-229 | Packs or fails, the failure exactly for years outside 1970 to 2225 |
| `DateTime.OrIsSum` | src/corelib/strftime.c:215-226 | On 64-bit words the or of the masked and shifted fields is their sum: no two fields overlap |
| `DateTime.UnpackPack` | src/corelib/strftime.c:197-257 | Unpacking a packed stamp gives its fields, and the timezone in clamped 15-minute increments |
| `DateTime.PackedFields` | src/corelib/strftime.c:197-229 | Where each field stands in the word, and the timezone as a signed byte of 15-minute steps, cut toward zero and clamped |
| `DateTime.PackMasks` | src/corelib/strftime.c:197-229 | A field too wide for its bits keeps its low bits and disturbs no other |
| `DateTime.TzExactly` | src/corelib/strftime.c:197-257 | The timezone comes back if and only if it is a multiple of 15 minutes from -1920 to 1905 |
| `DateTime.OrderKept` | src/corelib/strftime.c:197-229 | Under one timezone numeric order is calendar order, as the batch filter assumes |
| `DateTime.ScanIso` | src/corelib/strftime.c:328-357 | The six scan conversions read back the fields of a printed stamp |
| `DateTime.IsoReads` | src/corelib/strftime.c:264-300 | The printed form, character by character |
| `DateTime.ScanSign` | src/corelib/strftime.c:328-357 | What a conversion does with a sign: it counts for the width, and a minus negates modulo 2^32 |
| `DateTime.ScanBlank` | src/corelib/strftime.c:328-357 | A conversion skips blanks, tabs and the other white space in front of it |
| `DateTime.ScanFails` | src/corelib/strftime.c:328-357 | It fails on the empty text, on any other character, and on a sign without a digit |
| `DateTime.ParsePrint` | src/corelib/strftime.c:264-357 | Parsing the printed form of any 64-bit word gives its low 34 bits |
| `DateTime.ParseExactly` | src/corelib/strftime.c:328-357 | Parsing succeeds exactly when the scan does and the year is from 1970 to 2225, and then packs the fields without a timezone |
| `DateTime.BtimeToDatetime` | src/corelib/strftime.c:136-192 | The chain of subtractions takes as many whole years of 365 days, months of 730 hours and days as fit, up to 255, 11 and 30, then hours, minutes and seconds; the stamp is valid and counts the seconds if and only if the input is below the end of day 31 of month 12 of year 2225 |
| `DateTime.GreedyUnique` | src/corelib/strftime.c:136-192 | No other stamp is put together in that way: the seconds determine it |
| `DeriveLink.PatchLogDerive` | src/corelib/rafdb/rafdb-l3-runtime-environment-derive.c:31-105 | Scan and patch of derive_to on any log file; failure leaves every byte |
| `DeriveLink.LogDeriveRefines` | src/corelib/rafdb/rafdb-l3-runtime-environment-derive.c:31-105 | It sets derive_to in the first row with the ID and nothing else |
| `DeriveLink.LogDeriveFields` | src/corelib/rafdb/rafdb-l3-runtime-environment-derive.c:31-105 | For every list of entries: the log becomes that of the list in which the first entry with the ID has derive_to set, or the patch fails |
| `DeriveLink.PointRefines` | src/corelib/rafdb/rafdb-l3-runtime-environment-derive.c:107-131 | The write into the record file sets that attribute and nothing else |
| `DeriveLink.PointedFields` | src/corelib/rafdb/rafdb-l3-runtime-environment-derive.c:107-131 | That attribute is derive_to of the environment, for any headers and payload |
| `DeriveLink.FindLink` | src/corelib/rafdb/rafdb-l3-runtime-environment-derive.c:133-144 | The first DeriveTo header, or none |
| `DeriveLink.LinkByName` | src/corelib/rafdb/rafdb-l3-runtime-environment-derive.c:133-144 | A header is the link header exactly when its name, as a C string, is "DeriveTo" |
| `DeriveLink.DataOffset` | src/corelib/rafdb/rafdb-l3-runtime-environment-derive.c:146-157 | The sum of the sizes before a header |
| `DeriveLink.HasChild` | src/corelib/rafdb/rafdb-l3-runtime-environment-derive.c:189-200 | The scan of the linked IDs: found exactly when among them |
| `DeriveLink.AppendDerive` | src/corelib/rafdb/rafdb-l3-runtime-environment-derive.c:162-300 | Both files after the call, on success and on every failure |
| `DeriveLink.DeriveRefines` | src/corelib/rafdb/rafdb-l3-runtime-environment-derive.c:162-300 | On the file of every linkable record the record file becomes the image of the linked record |
| `DeriveLink.LinkedOnce` | src/corelib/rafdb/rafdb-l3-runtime-environment-derive.c:162-294 | The child is in the list once added at its end, a repeated call changes nothing, header sizes still sum to the payload, derive_to is the child |
| `DeriveLink.LinkedFields` | src/corelib/rafdb/rafdb-l3-runtime-environment-derive.c:162-294 | The linked record over its fields: derive_to set, the ID behind the first DeriveTo block with its header grown by one element, or a new header and block behind all others |
| `DeriveLink.OthersKept` | src/corelib/rafdb/rafdb-l3-runtime-environment-derive.c:188-265 | Every other header and its payload bytes are preserved, moved or not |
| `BatchClose.BeginBatch` | src/corelib/tpb-autorecord.c:228-309 | The file written at the start of a batch is the image of its skeleton record |
| `BatchFields.SkeletonFields` | src/corelib/tpb-autorecord.c:228-309 | The skeleton in terms of its fields: the batch's ID, times, host, user, process and kind, zeros for the rest, two empty headers TaskID and KernelID |
| `BatchClose.SkeletonIsBatch` | src/corelib/tpb-autorecord.c:228-309 | That skeleton is a record the insertion accepts, with both blocks empty |
| `BatchClose.SeenBefore` | src/corelib/tpb-autorecord.c:177-198 | The inner loop tells whether an earlier matching row has the same kernel |
| `BatchClose.ScanBatch` | src/corelib/tpb-autorecord.c:138-204 | ntask is the number of matching rows, nkernel the size of the set of their kernels, and their IDs went into the record in log order; it fails exactly when an insertion is refused; which fields these are is in the two rows below |
| `BatchClose.TaskRowFields` | src/include/tpb-public.h:1180-1193 | In the packed row of a task, built from its fields in the order of the entry, the scan reads that task's ID, batch, kernel, datetime and derive_to |
| `BatchClose.ScanFields` | src/corelib/tpb-autorecord.c:138-204 | For every list of tasks: the inserted IDs are those of the tasks of the batch, not started before it and not merged, in order, and the kernels counted are the different kernels of these |
| `BatchClose.KernelsAt` | src/corelib/tpb-autorecord.c:138-204 | A kernel is counted exactly when a matching row has it |
| `BatchClose.FilledRefines` | src/corelib/tpb-autorecord.c:138-204 | On a batch record no insertion is refused and the file becomes the image with all IDs inserted |
| `BatchClose.PatchCounters` | src/corelib/rafdb/rafdb-l2-tbatch.c:220-304 | Three fields rewritten at fixed offsets, on files that begin as a batch record |
| `BatchClose.CountsRefine` | src/corelib/rafdb/rafdb-l2-tbatch.c:220-304 | That is setting duration, nkernel and ntask of the record |
| `BatchClose.EndBatch` | src/corelib/tpb-autorecord.c:323-384 | All five files after every outcome: refused before the first write, stopped at the insertion that was refused, at the counters or at the log row, or closed; and exactly when it closes, with or without a log of tasks |
| `BatchClose.CloseRefines` | src/corelib/tpb-autorecord.c:323-384 | For every log of tasks, an empty one too, the batch file becomes the image of the closed record |
| `BatchClose.ClosedBlocks` | src/corelib/tpb-autorecord.c:323-384 | Its TaskID block is the old one plus the matching entry-point IDs in log order; the KernelID block is untouched |
| `BatchClose.ClosedCounts` | src/corelib/tpb-autorecord.c:323-384 | Record and log row carry the same duration, the same ntask (number of matching rows) and the same nkernel (size of their kernel set) |
| `BatchClose.ClosedReads` | src/corelib/rafdb/rafdb-l2-tbatch.c:306-458 | The closed file reads back as the closed record |
| `BatchClose.BatchAccounts` | src/corelib/tpb-autorecord.c:228-384 | From begin to end, the whole payload is the matching IDs in log order |
| `BatchFields.ClosedFields` | src/corelib/tpb-autorecord.c:228-384 | The closed record over the fields of the tasks in the log: duration, number of different kernels and number of tasks, the IDs of the entry points in log order as payload, sizes that go with them and the misplaced count |
| `BatchFields.BatchRowFields` | src/include/tpb-public.h:1118-1131 | The log row of a batch is the packed entry of its fields |
| `BatchFields.EndsFields` | src/corelib/tpb-autorecord.c:323-384 | Closing a batch over its five files, each given by fields before and after: the record closed, the task log as it was, ntbatch of the environment one higher in record and log, the batch's row behind its log |
| `TaskMerge.MergeRecord` | src/corelib/tpb-autorecord.c:694-736 | Setting derive_to in a task file whose own ID is checked first; refused files keep every byte |
| `TaskMerge.MergeRefines` | src/corelib/tpb-autorecord.c:694-736 | It succeeds exactly on that task's own record and sets that attribute only |
| `TaskMerge.MergeFields` | src/corelib/tpb-autorecord.c:694-736 | For every task, headers and payload: its record file becomes that of the task with derive_to set; another task's is refused |
| `TaskMerge.MergeLog` | src/corelib/tpb-autorecord.c:738-803 | Listing, search and locked write on any log |
| `TaskMerge.LogMergeRefines` | src/corelib/tpb-autorecord.c:738-803 | For every log it sets derive_to in the first row with the ID, or fails when no row has it |
| `TaskMerge.LogMergeFields` | src/corelib/tpb-autorecord.c:738-803 | For every list of tasks: the log becomes that of the list in which the first task with the ID has derive_to set |
| `TaskMerge.SetDeriveTo` | src/corelib/tpb-autorecord.c:675-805 | Both files; when the log half fails the record half has already been written |
| `TaskMerge.MergedLeavesBatch` | src/corelib/tpb-autorecord.c:138-204 | A task merged into another is no longer among the entry points of its batch; every other task is |

## Left out

- KeyValue.Get: keys without newline only; the value of a matching key with a newline would begin behind the end of its line, and the length computed from the two wraps.
- KeyValue.Set: keys without newline, the ones that can be read back, and texts without a zero byte, as in C strings.
- DeriveLink.AppendDerive: the parent's file is assumed to hold the parent's own ID, so that it is read and written under one path; it also requires header sizes that sum to the payload and a link block whose size matches its count; with other files the code reads outside the block it copies.
- EnvSnapshot.ExportRow: one row of the two environment columns; the CSV writer and the other columns are not modelled.
- TagNorm.NormalizeTags: tokens are values, not pointers into the scratch buffer, and sorting is by insertion where the code calls qsort; equal tokens are gone by then, so the result is the same.
- Sha1.Context.Final: messages below 2^61 bytes, where the bit count fits its field.
- KernelMeta.Rebuild: a read past the old payload yields arbitrary bytes; in C it is undefined.
- KernelMeta.UpdateMetaKey: a text without terminator ends where the payload ends; the C code would read on.
- KernelUpdate.UpdateKey: requires sizes and texts that stay below 2^63 bytes together.
- DateTime.ToBits: fields are numbers and the or of shifted fields is a sum, which `DateTime.OrIsSum` proves equal on 64-bit words.
- RecordIO.ReadHeader: dimension counts above 7 are refused; the code would write past its arrays.
- LogInterleaving.InterleavedSafety: processes do not crash between writes, each flushed write is one step, every record file is readable at the start, and none is created during a run.
- CapsuleProtocol.CapsuleComplete: creating and truncating the shared-memory object is one step, memory is sequentially consistent, and the capsule's own log row is not written. `CapsuleProgress` says what a run can still come to, not that a scheduler gets there.
- Errors of the operating system other than short reads, failed allocation, paths, missing files, directories and hex IDs.
- File sizes from 2^63 and row counts from 2^31, where the code's offsets overflow.
- Paths and names cut at 4096 characters.
- Allocation of runtime-environment IDs and unique names: the lock is released before listing, so freshness holds for sequential use only.
- The kernel active and utc patches and deactivation by name: the pattern of `AttrPatch` once more.
- Building a registered kernel's attributes and packing a finished run's headers and payload: copying into an array through an advancing pointer.
- `tpb_raf_header_data_ptr`: the sum that `DeriveLink.DataOffset` covers.
- ELF parsing, path search and toolchain classification: the audit works on abstract images.
- Console, logging, configuration, drivers, timers, plotting and the benchmark kernels.
- Collision resistance of SHA-1 and uniqueness of generated IDs.
