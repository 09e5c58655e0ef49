/** Opening and closing a batch: a skeleton record when it starts; when it ends, the log of tasks is
    scanned for those of the batch, their IDs go into its record, and record and log get the same counts. */
module BatchClose {
  import opened Bytes
  import opened Common
  import opened Signature
  import opened Layout
  import opened Disk
  import opened RecordIO
  import opened EntryLog
  import opened AttrPatch
  import opened Structs
  import B = BatchAppend
  import Counters

  /** Sizes of a task row and of a batch row. */
  const TASK_ROW: nat := 232
  const BATCH_ROW: nat := 264

  type Row = s: seq<byte> | |s| == TASK_ROW witness Zeros(TASK_ROW)

  // ---------------------------------------------------------------- the tasks of a batch

  function TaskId(row: Row): Id { row[0..20] }
  function BatchOf(row: Row): Id { row[40..60] }
  function KernelOf(row: Row): Id { row[60..80] }
  function UtcOf(row: Row): u64 { GetU64(row[80..88]) }
  function DeriveOf(row: Row): Id { row[104..124] }

  /** A task of the batch that is an entry point: not before its start, and not merged into another. */
  predicate Matches(row: Row, batch: Id, utc: u64) {
    UtcOf(row) >= utc && BatchOf(row) == batch && DeriveOf(row) == Zeros(20)
  }

  /** The matching rows' task IDs, in log order. */
  function TaskIds(rows: seq<Row>, batch: Id, utc: u64): (ids: seq<Id>)
    ensures |ids| <= |rows|
  {
    if rows == [] then []
    else
      TaskIds(rows[..|rows| - 1], batch, utc)
      + (if Matches(rows[|rows| - 1], batch, utc) then [TaskId(rows[|rows| - 1])] else [])
  }

  /** The set of their kernel IDs. */
  function Kernels(rows: seq<Row>, batch: Id, utc: u64): (ks: set<Id>)
    ensures |ks| <= |rows|
  {
    if rows == [] then {}
    else
      Kernels(rows[..|rows| - 1], batch, utc)
      + (if Matches(rows[|rows| - 1], batch, utc) then {KernelOf(rows[|rows| - 1])} else {})
  }

  lemma {:induction false} KernelsAt(rows: seq<Row>, batch: Id, utc: u64, k: Id)
    ensures k in Kernels(rows, batch, utc)
            <==> exists j :: 0 <= j < |rows| && Matches(rows[j], batch, utc) && KernelOf(rows[j]) == k
    decreases |rows|
  {
    hide Matches;
    hide KernelOf;
    if rows != [] {
      var init := rows[..|rows| - 1];
      KernelsAt(init, batch, utc, k);
      assert forall j :: 0 <= j < |init| ==> init[j] == rows[j];
    }
  }

  // ---------------------------------------------------------------- scanning

  /** Whether the record file takes the IDs one by one. */
  function AllAccepted(f: seq<byte>, ids: seq<Id>): bool
    decreases |ids|
  {
    ids == [] || (AllAccepted(f, ids[..|ids| - 1]) && B.Accepts(Filled(f, ids[..|ids| - 1])))
  }

  /** The record file after the IDs have been inserted one by one. */
  function Filled(f: seq<byte>, ids: seq<Id>): seq<byte>
    decreases |ids|
  {
    if ids == [] then f
    else
      var g := Filled(f, ids[..|ids| - 1]);
      if B.Accepts(g) then B.Patched(g, ids[|ids| - 1]) else g
  }

  lemma Next(rows: seq<Row>, batch: Id, utc: u64, i: nat)
    requires i < |rows|
    ensures TaskIds(rows[..i + 1], batch, utc)
            == TaskIds(rows[..i], batch, utc) + (if Matches(rows[i], batch, utc) then [TaskId(rows[i])] else [])
    ensures Kernels(rows[..i + 1], batch, utc)
            == Kernels(rows[..i], batch, utc) + (if Matches(rows[i], batch, utc) then {KernelOf(rows[i])} else {})
  {
    hide Matches;
    hide TaskId;
    hide KernelOf;
    assert rows[..i + 1][..i] == rows[..i];
  }

  lemma FilledNext(f: seq<byte>, ids: seq<Id>, id: Id)
    ensures AllAccepted(f, ids + [id]) == (AllAccepted(f, ids) && B.Accepts(Filled(f, ids)))
    ensures Filled(f, ids + [id]) == var g := Filled(f, ids); if B.Accepts(g) then B.Patched(g, id) else g
  {
    assert (ids + [id])[..|ids|] == ids;
  }

  /** The inner loop: is the kernel of row i that of an earlier matching row? */
  method SeenBefore(rows: seq<Row>, batch: Id, utc: u64, i: nat) returns (seen: bool)
    requires i < |rows|
    ensures seen <==> KernelOf(rows[i]) in Kernels(rows[..i], batch, utc)
  {
    KernelsAt(rows[..i], batch, utc, KernelOf(rows[i]));
    hide KernelOf;
    hide Matches;
    hide Kernels;
    var j := 0;
    while j < i
      invariant j <= i
      invariant forall k :: 0 <= k < j && Matches(rows[k], batch, utc) ==> KernelOf(rows[k]) != KernelOf(rows[i])
    {
      if Matches(rows[j], batch, utc) && KernelOf(rows[j]) == KernelOf(rows[i]) {
        assert rows[..i][j] == rows[j];
        return true;
      }
      j := j + 1;
    }
    return false;
  }

  /** How far the scan has come: the rows seen, the file and the counts. */
  ghost predicate Scanned(f: seq<byte>, data: seq<byte>, seen: seq<Row>, batch: Id, utc: u64,
                          ntask: nat, nkernel: nat)
  {
    && ntask == |TaskIds(seen, batch, utc)| && nkernel == |Kernels(seen, batch, utc)|
    && data == Filled(f, TaskIds(seen, batch, utc)) && AllAccepted(f, TaskIds(seen, batch, utc))
  }

  /** An insertion has been refused, and the file is what it was then: later ones would be refused too. */
  ghost predicate Stopped(f: seq<byte>, data: seq<byte>, ids: seq<Id>) {
    !AllAccepted(f, ids) && data == Filled(f, ids) && !B.Accepts(data)
  }

  /** One turn of the scan. */
  method ScanRow(rows: seq<Row>, i: nat, rec: DiskFile, batch: Id, utc: u64, ntask: nat, nkernel: nat,
                 ghost f: seq<byte>)
    returns (ok: bool, ntask': nat, nkernel': nat)
    requires i < |rows| && Scanned(f, rec.data, rows[..i], batch, utc, ntask, nkernel)
    modifies rec
    ensures ok ==> Scanned(f, rec.data, rows[..i + 1], batch, utc, ntask', nkernel')
    ensures !ok ==> Stopped(f, rec.data, TaskIds(rows[..i + 1], batch, utc))
  {
    hide Matches;
    hide TaskId;
    hide KernelOf;
    hide B.Accepts;
    hide B.Patched;
    hide Filled;
    hide AllAccepted;
    hide TaskIds;
    hide Kernels;
    ghost var ids, ks := TaskIds(rows[..i], batch, utc), Kernels(rows[..i], batch, utc);
    ntask', nkernel' := ntask, nkernel;
    Next(rows, batch, utc, i);
    if !Matches(rows[i], batch, utc) {
      NothingMore(ids, ks);
      return true, ntask', nkernel';
    }
    FilledNext(f, ids, TaskId(rows[i]));
    OneMore(ks, KernelOf(rows[i]));
    rec.pos := 0;
    ok := B.Append(rec, TaskId(rows[i]));
    if ok {
      ntask' := ntask + 1;
      var seen := SeenBefore(rows, batch, utc, i);
      if !seen {
        nkernel' := nkernel + 1;
      }
    }
  }

  /** _sf_scan_batch on the listed rows: the IDs of the matching tasks are inserted in log order, and
      counted, and so are their kernels, each once. It stops at the first insertion that is refused. */
  method ScanBatch(rows: seq<Row>, rec: DiskFile, batch: Id, utc: u64) returns (ok: bool, ntask: nat, nkernel: nat)
    modifies rec
    ensures ok <==> AllAccepted(old(rec.data), TaskIds(rows, batch, utc))
    ensures ok ==> ntask == |TaskIds(rows, batch, utc)| && nkernel == |Kernels(rows, batch, utc)|
    ensures rec.data == Filled(old(rec.data), TaskIds(rows, batch, utc))
  {
    ntask, nkernel := 0, 0;
    ghost var f := rec.data;
    ScanStart(f, rows, batch, utc);
    var i := 0;
    ok := true;
    while ok && i < |rows|
      invariant i <= |rows|
      invariant ok ==> Scanned(f, rec.data, rows[..i], batch, utc, ntask, nkernel)
      invariant !ok ==> Stopped(f, rec.data, TaskIds(rows[..i], batch, utc))
    {
      hide *;
      ok, ntask, nkernel := ScanRow(rows, i, rec, batch, utc, ntask, nkernel, f);
      i := i + 1;
    }
    if ok {
      assert rows[..i] == rows;
    } else {
      Refused(f, rec.data, rows, batch, utc, i);
    }
  }

  lemma ScanStart(f: seq<byte>, rows: seq<Row>, batch: Id, utc: u64)
    ensures TaskIds(rows[..0], batch, utc) == [] && Kernels(rows[..0], batch, utc) == {}
    ensures Filled(f, []) == f && AllAccepted(f, [])
  {
  }

  lemma OneMore(ks: set<Id>, k: Id)
    ensures |ks + {k}| == |ks| + (if k in ks then 0 else 1)
  {
    if k in ks {
      assert ks + {k} == ks;
    }
  }

  lemma NothingMore(ids: seq<Id>, ks: set<Id>)
    ensures ids + [] == ids && ks + {} == ks
  {
  }

  lemma {:induction false} Refused(f: seq<byte>, data: seq<byte>, rows: seq<Row>, batch: Id, utc: u64, i: nat)
    requires i <= |rows| && Stopped(f, data, TaskIds(rows[..i], batch, utc))
    ensures Stopped(f, data, TaskIds(rows, batch, utc))
    decreases |rows| - i
  {
    hide *;
    if i == |rows| {
      assert rows[..i] == rows;
    } else {
      RefusedNext(f, data, rows, batch, utc, i);
      Refused(f, data, rows, batch, utc, i + 1);
    }
  }

  lemma RefusedNext(f: seq<byte>, data: seq<byte>, rows: seq<Row>, batch: Id, utc: u64, i: nat)
    requires i < |rows| && Stopped(f, data, TaskIds(rows[..i], batch, utc))
    ensures Stopped(f, data, TaskIds(rows[..i + 1], batch, utc))
  {
    hide *;
    Next(rows, batch, utc, i);
    var ids := TaskIds(rows[..i], batch, utc);
    NothingMore(ids, {});
    StaysStopped(f, data, ids, TaskId(rows[i]));
  }

  lemma StaysStopped(f: seq<byte>, data: seq<byte>, ids: seq<Id>, id: Id)
    requires Stopped(f, data, ids)
    ensures Stopped(f, data, ids + [id])
  {
    hide AllAccepted;
    hide Filled;
    hide B.Accepts;
    hide B.Patched;
    FilledNext(f, ids, id);
  }

  /** On the file of a batch record every insertion is accepted, and the file ends up as that of the
      record with all the IDs. */
  lemma {:induction false} FilledRefines(r: Record, ids: seq<Id>)
    requires B.IsBatch(r) && |r.payload| + 20 * |ids| + 20 < TWO63
    ensures AllAccepted(Image(SchemaOf(TBatch), r), ids)
    ensures Filled(Image(SchemaOf(TBatch), r), ids) == Image(SchemaOf(TBatch), B.InsertedAll(r, ids))
    ensures |B.InsertedAll(r, ids).payload| == |r.payload| + 20 * |ids|
    decreases |ids|
  {
    hide Image;
    hide SchemaOf;
    hide B.IsBatch;
    hide B.Accepts;
    hide B.Patched;
    if ids != [] {
      var init, id := ids[..|ids| - 1], ids[|ids| - 1];
      FilledRefines(r, init);
      var r' := B.InsertedAll(r, init);
      B.InsertRefines(r', id);
      InsertedSnoc(r, init, id);
      assert init + [id] == ids;
    }
  }

  lemma {:induction false} InsertedSnoc(r: Record, ids: seq<Id>, id: Id)
    requires B.IsBatch(r) && |r.payload| + 20 * |ids| + 40 < TWO63
    ensures B.IsBatch(B.InsertedAll(r, ids)) && |B.InsertedAll(r, ids).payload| == |r.payload| + 20 * |ids|
    ensures B.InsertedAll(r, ids + [id]) == B.Inserted(B.InsertedAll(r, ids), id)
    ensures |B.InsertedAll(r, ids + [id]).payload| == |r.payload| + 20 * |ids| + 20
    decreases |ids|
  {
    hide SchemaOf;
    InsertedLen(r, if ids == [] then id else ids[0]);
    if ids == [] {
      assert [] + [id] == [id] && [id][1..] == [];
    } else {
      assert (ids + [id])[1..] == ids[1..] + [id];
      InsertedSnoc(B.Inserted(r, ids[0]), ids[1..], id);
    }
  }

  lemma InsertedLen(r: Record, id: Id)
    requires B.IsBatch(r)
    ensures |B.Inserted(r, id).payload| == |r.payload| + 20
  {
    hide SchemaOf;
    hide U64;
  }

  // ---------------------------------------------------------------- the counters of the record

  const OFF_DURATION: nat := 100
  const OFF_NKERNEL: nat := 240

  /** tpb_raf_record_patch_tbatch_counters on the file. */
  function Counted(f: seq<byte>, duration: u64, nkernel: u32, ntask: u32): Option<seq<byte>> {
    if !At(f, 0, Magic(Rec, TBatch, Start)) then None
    else Some(Overwrite(Overwrite(Overwrite(f, OFF_DURATION, U64(duration)), OFF_NKERNEL, U32(nkernel)),
                        OFF_NKERNEL + 4, U32(ntask)))
  }

  method PatchCounters(rec: DiskFile, duration: u64, nkernel: u32, ntask: u32) returns (ok: bool)
    requires rec.pos == 0
    modifies rec
    ensures ok == Counted(old(rec.data), duration, nkernel, ntask).Some?
    ensures rec.data == if ok then Counted(old(rec.data), duration, nkernel, ntask).value else old(rec.data)
  {
    hide Magic;
    hide U64;
    hide U32;
    hide Overwrite;
    ok := rec.Expect(Magic(Rec, TBatch, Start), 8);
    if !ok { return; }
    ok := rec.Seek(OFF_DURATION);
    rec.Write(U64(duration));
    ok := rec.Seek(OFF_NKERNEL);
    rec.Write(U32(nkernel));
    rec.Write(U32(ntask));
  }

  /** The record with duration (field 5), nkernel (9) and ntask (10) set. */
  function WithCounts(r: Record, duration: u64, nkernel: u32, ntask: u32): (r': Record)
    requires B.IsBatch(r)
    ensures B.IsBatch(r') && r'.headers == r.headers && r'.payload == r.payload
    ensures |r'.attrs| == 14 && r'.attrs[5] == U64(duration) && r'.attrs[9] == U32(nkernel)
            && r'.attrs[10] == U32(ntask)
    ensures forall i :: 0 <= i < 14 && i != 5 && i != 9 && i != 10 ==> i < |r.attrs| && r'.attrs[i] == r.attrs[i]
  {
    BatchWidths(r);
    var attrs := r.attrs[5 := U64(duration)][9 := U32(nkernel)][10 := U32(ntask)];
    assert Lengths(attrs) == Lengths(r.attrs);
    r.(attrs := attrs)
  }

  lemma BatchWidths(r: Record)
    requires B.IsBatch(r)
    ensures |r.attrs| == 14 && |r.attrs[5]| == 8 && |r.attrs[9]| == 4 && |r.attrs[10]| == 4
    ensures SchemaOf(TBatch).nheaderField == 13 && Lengths(r.attrs) == SchemaOf(TBatch).widths
  {
    assert |r.attrs| == |Lengths(r.attrs)| == 14;
    assert |r.attrs[5]| == Lengths(r.attrs)[5] && |r.attrs[9]| == Lengths(r.attrs)[9]
           && |r.attrs[10]| == Lengths(r.attrs)[10];
  }

  lemma CounterOffsets()
    ensures var s := SchemaOf(TBatch);
            && |s.widths| == 14 && s.widths[5] == 8 && s.widths[9] == 4 && s.widths[10] == 4 && s.nheaderField == 13
            && s.FieldOff(5) == OFF_DURATION && s.FieldOff(9) == OFF_NKERNEL && s.FieldOff(10) == OFF_NKERNEL + 4
  {
    hide Sum;
    hide Schema.FieldOff;
    TBatchOffsets();
    assert TBATCH_OFFSETS[5] == 100 && TBATCH_OFFSETS[9] == 240 && TBATCH_OFFSETS[10] == 244;
  }

  /** Patching the counters of the file is setting the three attributes of the record. */
  lemma CountsRefine(r: Record, duration: u64, nkernel: u32, ntask: u32)
    requires B.IsBatch(r)
    ensures Counted(Image(SchemaOf(TBatch), r), duration, nkernel, ntask)
            == Some(Image(SchemaOf(TBatch), WithCounts(r, duration, nkernel, ntask)))
  {
    hide Image;
    hide Overwrite;
    hide Magic;
    hide At;
    hide U32;
    hide U64;
    var s := SchemaOf(TBatch);
    BatchWidths(r);
    CounterOffsets();
    AttrStands(Image(s, r), s, r, 5);
    PatchAttr(s, r, 5, U64(duration));
    var r1 := r.(attrs := r.attrs[5 := U64(duration)]);
    PatchAttr(s, r1, 9, U32(nkernel));
    var r2 := r1.(attrs := r1.attrs[9 := U32(nkernel)]);
    PatchAttr(s, r2, 10, U32(ntask));
  }

  // ---------------------------------------------------------------- opening a batch

  /** What a batch knows of itself while it runs. */
  datatype Batch = Batch(id: Id, utc: u64, btime: u64, host: seq<byte>, user: seq<byte>, pid: u32, kind: u32,
                         rtenv: u32)
  {
    predicate Valid() { |host| == 64 && |user| == 64 }
  }

  /** The two link headers. */
  const TASK_LINK: Header := LinkHeader(TASK_ID_NAME)
  const KERNEL_LINK: Header := LinkHeader(B.KERNEL_NAME)

  function LinkHeader(name: seq<byte>): (h: Header)
    requires |name| <= 256
    ensures h.Wf() && h.dataSize == 0 && h.ndim == 1 && name <= h.name
  {
    Header(3096, 1, 0, 0x102, 0, 0, Padded(name, 256), Padded(LINK_TAG, 256),
           Zeros(2048), Zeros64(7), seq(7, _ => Zeros(64)))
  }

  function Zeros64(n: nat): (s: seq<u64>)
    ensures |s| == n
  {
    seq(n, _ => 0)
  }

  /** The record that tpb_record_begin_batch writes: two empty link blocks, all counts zero. */
  function Skeleton(b: Batch): (r: Record)
    requires b.Valid()
  {
    Record([b.id, Zeros(20), Zeros(20), U64(b.utc), U64(b.btime), Zeros(8), b.host, b.user, U32(b.pid),
            Zeros(4), Zeros(4), Zeros(4), U32(b.kind), U32(2)],
           [TASK_LINK, KERNEL_LINK], [])
  }

  lemma SkeletonIsBatch(b: Batch)
    requires b.Valid()
    ensures B.IsBatch(Skeleton(b)) && B.TaskBlock(Skeleton(b)) == [] && B.KernelBlock(Skeleton(b)) == []
  {
    hide LinkHeader;
    hide U64;
    hide U32;
    var r := Skeleton(b);
    assert Lengths(r.attrs) == SchemaOf(TBatch).widths;
    assert TASK_LINK.name[..7] == TASK_ID_NAME && KERNEL_LINK.name[..9] == B.KERNEL_NAME;
  }

  /** Writing the skeleton. */
  method BeginBatch(rec: DiskFile, b: Batch)
    requires b.Valid() && rec.data == [] && rec.pos == 0
    modifies rec
    ensures B.IsBatch(Skeleton(b)) && rec.data == Image(SchemaOf(TBatch), Skeleton(b))
  {
    SkeletonIsBatch(b);
    WriteRecord(rec, SchemaOf(TBatch), Skeleton(b));
  }

  // ---------------------------------------------------------------- closing it

  /** The row appended to the batch log. */
  function BatchRow(b: Batch, duration: u64, nkernel: u32, ntask: u32): (row: seq<byte>)
    requires b.Valid()
    ensures |row| == BATCH_ROW
    ensures row[0..20] == b.id && row[48..56] == U64(duration) && row[120..124] == U32(nkernel)
            && row[124..128] == U32(ntask)
  {
    hide U64;
    hide U32;
    b.id + Zeros(20) + U64(b.utc) + U64(duration) + b.host + U32(nkernel) + U32(ntask) + Zeros(4)
    + U32(b.kind) + Zeros(128)
  }

  function Duration(b: Batch, end: u64): u64 {
    if end > b.btime then end - b.btime else 0
  }

  /** The rows a listing of the log of tasks shows. */
  function TaskRows(f: seq<byte>): Option<seq<Row>> {
    match Listed(f, Task, TASK_ROW)
    case None => None
    case Some(rows) => if RowsOf(rows, TASK_ROW) then Some(rows) else None
  }

  /** The same for a log that may not exist yet: then there are no rows. */
  function LogRows(log: DiskFile?): Option<seq<Row>>
    reads log
  {
    if log == null then Some([]) else TaskRows(log.data)
  }

  method ListTasks(log: DiskFile?) returns (res: Option<seq<Row>>)
    requires log != null ==> log.pos == 0
    modifies log
    ensures res == LogRows(log)
    ensures log != null ==> log.data == old(log.data) && (res == None <==> Listed(log.data, Task, TASK_ROW) == None)
  {
    hide Magic;
    hide At;
    if log == null { return Some([]); }
    var rows := List(log, Task, TASK_ROW);
    ListedWide(log.data);
    match rows
    case None => res := None;
    case Some(rs) => res := Some(rs);
  }

  lemma ListedWide(f: seq<byte>)
    ensures var l := Listed(f, Task, TASK_ROW); l.Some? ==> RowsOf(l.value, TASK_ROW)
  {
    hide Magic;
    hide At;
  }

  /** A log of tasks lists the rows it was written with, none or more. */
  lemma RowsListed(rows: seq<Row>)
    ensures TaskRows(LogImage(Task, rows)) == Some(rows)
  {
    hide LogImage;
    hide Listed;
    if rows == [] {
      ListEmpty(Task, TASK_ROW);
    } else {
      ListExact(LogImage(Task, rows), Task, TASK_ROW, rows);
    }
  }

  /** tpb_record_end_batch succeeds exactly when all of this does. */
  ghost predicate Closes(tasks: Option<seq<Row>>, rec: seq<byte>, rtRec: seq<byte>, rtLog: seq<byte>, log: seq<byte>,
                         b: Batch, end: u64)
    requires b.Valid()
  {
    && tasks.Some?
    && var rows := tasks.value;
    && var ids, n, k := TaskIds(rows, b.id, b.utc), Tasks(rows, b), KernelCount(rows, b);
    && AllAccepted(rec, ids) && Counted(Filled(rec, ids), Duration(b, end), k, n).Some?
    && Counters.RecordPatched(rtRec, 0, 1).Some? && Counters.LogPatched(rtLog, b.rtenv, 0, 1).Some?
    && Appended(log, TBatch, BatchRow(b, Duration(b, end), k, n)).Some?
  }

  /** The counts, as unsigned 32-bit numbers. */
  function Tasks(rows: seq<Row>, b: Batch): u32 {
    |TaskIds(rows, b.id, b.utc)| % TWO32
  }

  function KernelCount(rows: seq<Row>, b: Batch): u32 {
    |Kernels(rows, b.id, b.utc)| % TWO32
  }

  /** tpb_record_end_batch, with or without a log of tasks: scan, counters of the batch record,
      counters of the environment, log row. */
  method EndBatch(tasks: DiskFile?, rec: DiskFile, rtRec: DiskFile, rtLog: DiskFile, log: DiskFile, b: Batch, end: u64)
    returns (ok: bool)
    requires b.Valid() && (tasks != null ==> tasks.pos == 0) && rec.pos == 0 && rtRec.pos == 0 && rtLog.pos == 0
             && log.pos == 0
    requires rec != rtRec && rec != rtLog && rec != log && rtRec != rtLog && rtRec != log && rtLog != log
    requires tasks != rec && tasks != rtRec && tasks != rtLog && tasks != log
    modifies tasks, rec, rtRec, rtLog, log
    ensures tasks != null ==> tasks.data == old(tasks.data)
    ensures ok <==> Closes(LogRows(tasks), old(rec.data), old(rtRec.data), old(rtLog.data), old(log.data), b, end)
    ensures LogRows(tasks) == None ==>
              && rec.data == old(rec.data) && rtRec.data == old(rtRec.data)
              && rtLog.data == old(rtLog.data) && log.data == old(log.data)
    ensures LogRows(tasks).Some? ==>
              var rows := LogRows(tasks).value;
              var ids, n, k := TaskIds(rows, b.id, b.utc), Tasks(rows, b), KernelCount(rows, b);
              var c := Counted(Filled(old(rec.data), ids), Duration(b, end), k, n);
              var r := Counters.RecordPatched(old(rtRec.data), 0, 1);
              var l := Counters.LogPatched(old(rtLog.data), b.rtenv, 0, 1);
              var counted := AllAccepted(old(rec.data), ids) && c.Some?;
              && rec.data == (if counted then c.value else Filled(old(rec.data), ids))
              && rtRec.data == (if counted && r.Some? then r.value else old(rtRec.data))
              && rtLog.data == (if counted && r.Some? && l.Some? then l.value else old(rtLog.data))
              && log.data == (if ok then Appended(old(log.data), TBatch, BatchRow(b, Duration(b, end), k, n)).value
                              else old(log.data))
  {
    hide LogRows;
    hide TaskIds;
    hide Kernels;
    hide AllAccepted;
    hide Filled;
    hide Counted;
    hide BatchRow;
    hide Counters.RecordPatched;
    hide Counters.LogPatched;
    hide Appended;
    hide Magic;
    var duration := Duration(b, end);
    var res := ListTasks(tasks);
    if res == None { return false; }
    var rows := res.value;
    var n, k;
    ok, n, k := ScanBatch(rows, rec, b.id, b.utc);
    if !ok { return; }
    rec.pos := 0;
    ok := PatchCounters(rec, duration, k % TWO32, n % TWO32);
    if !ok { return; }
    ok := Counters.PatchBoth(rtRec, rtLog, b.rtenv, 0, 1);
    if !ok { return; }
    ok := EntryLog.Append(log, TBatch, BatchRow(b, duration, k % TWO32, n % TWO32));
  }

  /** The batch record once it has been closed over the rows of the log of tasks. */
  function Closed(r: Record, rows: seq<Row>, b: Batch, end: u64): (r': Record)
    requires B.IsBatch(r) && |r.payload| + 20 * |rows| + 20 < TWO63
    ensures B.IsBatch(r')
  {
    WithCounts(B.InsertedAll(r, TaskIds(rows, b.id, b.utc)), Duration(b, end), KernelCount(rows, b), Tasks(rows, b))
  }

  /** Closing refines the record: on the files of a task log and of a batch record the scan takes every
      matching task, and the batch file ends up as that of the closed record. */
  lemma CloseRefines(r: Record, rows: seq<Row>, b: Batch, end: u64)
    requires B.IsBatch(r) && b.Valid() && |r.payload| + 20 * |rows| + 20 < TWO63
    ensures TaskRows(LogImage(Task, rows)) == Some(rows)
    ensures var f, ids := Image(SchemaOf(TBatch), r), TaskIds(rows, b.id, b.utc);
            && AllAccepted(f, ids)
            && Counted(Filled(f, ids), Duration(b, end), KernelCount(rows, b), Tasks(rows, b))
               == Some(Image(SchemaOf(TBatch), Closed(r, rows, b, end)))
  {
    hide Image;
    hide LogImage;
    hide Listed;
    hide TaskIds;
    hide Kernels;
    hide AllAccepted;
    hide Filled;
    hide Counted;
    hide B.InsertedAll;
    hide WithCounts;
    hide Duration;
    hide B.IsBatch;
    hide SchemaOf;
    RowsListed(rows);
    hide TaskRows;
    FilledRefines(r, TaskIds(rows, b.id, b.utc));
    CountsRefine(B.InsertedAll(r, TaskIds(rows, b.id, b.utc)), Duration(b, end), KernelCount(rows, b), Tasks(rows, b));
  }

  /** The closed record's TaskID block has grown by the matching tasks' IDs in log order, and its
      KernelID block is what it was. */
  lemma ClosedBlocks(r: Record, rows: seq<Row>, b: Batch, end: u64)
    requires B.IsBatch(r) && |r.payload| + 20 * |rows| + 20 < TWO63
    ensures var c := Closed(r, rows, b, end);
            && B.TaskBlock(c) == B.TaskBlock(r) + Flat(TaskIds(rows, b.id, b.utc))
            && B.KernelBlock(c) == B.KernelBlock(r)
  {
    var ids := TaskIds(rows, b.id, b.utc);
    var k, n := KernelCount(rows, b), Tasks(rows, b);
    hide TaskIds;
    hide KernelCount;
    hide Tasks;
    B.InsertsRefine(r, ids);
    SameBlocks(B.InsertedAll(r, ids), Duration(b, end), k, n);
    hide B.InsertedAll;
    hide WithCounts;
    hide B.TaskBlock;
    hide B.KernelBlock;
    hide B.IsBatch;
  }

  lemma SameBlocks(r: Record, duration: u64, nkernel: u32, ntask: u32)
    requires B.IsBatch(r)
    ensures var c := WithCounts(r, duration, nkernel, ntask);
            B.TaskBlock(c) == B.TaskBlock(r) && B.KernelBlock(c) == B.KernelBlock(r)
  {
    hide SchemaOf;
    hide WithCounts;
  }

  /** Its counts are the number of the batch's tasks and of their different kernels, in the record and
      in the log row alike, and so is the duration. */
  lemma ClosedCounts(r: Record, rows: seq<Row>, b: Batch, end: u64)
    requires B.IsBatch(r) && b.Valid() && |r.payload| + 20 * |rows| + 20 < TWO63 && |rows| < TWO32
    ensures var c := Closed(r, rows, b, end);
            var row := BatchRow(b, Duration(b, end), KernelCount(rows, b), Tasks(rows, b));
            && |c.attrs| == 14
            && c.attrs[10] == row[124..128] == U32(|TaskIds(rows, b.id, b.utc)|)
            && c.attrs[9] == row[120..124] == U32(|Kernels(rows, b.id, b.utc)|)
            && c.attrs[5] == row[48..56] == U64(Duration(b, end))
  {
    hide TaskIds;
    hide Kernels;
    hide SchemaOf;
    hide B.InsertedAll;
    hide B.IsBatch;
    hide WithCounts;
    hide BatchRow;
    hide U32;
    hide U64;
  }

  /** The closed record's file reads back as the closed record. */
  lemma ClosedReads(r: Record, rows: seq<Row>, b: Batch, end: u64)
    requires B.IsBatch(r) && |r.payload| + 20 * |rows| + 20 < TWO63
    ensures var c := Closed(r, rows, b, end);
            ParseRecord(Image(SchemaOf(TBatch), c), SchemaOf(TBatch))
            == Some(Record(c.attrs, StoredAll(c.headers), c.payload))
  {
    RoundTrip(SchemaOf(TBatch), Closed(r, rows, b, end));
  }

  /** Between opening and closing: the record that the skeleton becomes holds exactly the IDs of the
      batch's entry-point tasks, in log order. */
  lemma BatchAccounts(rows: seq<Row>, b: Batch, end: u64)
    requires b.Valid() && |rows| < 0x8000_0000
    ensures B.IsBatch(Skeleton(b)) && Skeleton(b).payload == []
    ensures Closed(Skeleton(b), rows, b, end).payload == Flat(TaskIds(rows, b.id, b.utc))
  {
    assert 20 * |rows| + 20 < TWO63;
    hide *;
    SkeletonIsBatch(b);
    SkeletonEmpty(b);
    FromEmpty(Skeleton(b), rows, b, end);
  }

  lemma FromEmpty(r: Record, rows: seq<Row>, b: Batch, end: u64)
    requires B.IsBatch(r) && r.payload == [] && 20 * |rows| + 20 < TWO63
    ensures Closed(r, rows, b, end).payload == Flat(TaskIds(rows, b.id, b.utc))
  {
    hide Closed;
    hide TaskIds;
    hide B.TaskBlock;
    hide B.KernelBlock;
    hide B.IsBatch;
    hide SchemaOf;
    hide Flat;
    ClosedBlocks(r, rows, b, end);
    TwoBlocks(r);
    TwoBlocks(Closed(r, rows, b, end));
  }

  lemma TwoBlocks(r: Record)
    requires B.IsBatch(r)
    ensures r.payload == B.TaskBlock(r) + B.KernelBlock(r)
  {
    hide SchemaOf;
  }

  lemma SkeletonEmpty(b: Batch)
    requires b.Valid()
    ensures Skeleton(b).payload == []
  {
  }

  // ---------------------------------------------------------------- in terms of the fields

  /** What the scan looks at are these fields of the entry. */
  lemma TaskRowFields(e: TaskEntry)
    requires e.Wf()
    ensures |e.Row()| == TASK_ROW
    ensures TaskId(e.Row()) == e.id && BatchOf(e.Row()) == e.tbatch && KernelOf(e.Row()) == e.kernel
    ensures UtcOf(e.Row()) == e.utc && DeriveOf(e.Row()) == e.deriveTo
  {
    TaskRowWidths(e);
    PartAt(e.Parts(), TASK_ENTRY, TASK_STARTS, 0);
    PartAt(e.Parts(), TASK_ENTRY, TASK_STARTS, 2);
    PartAt(e.Parts(), TASK_ENTRY, TASK_STARTS, 3);
    PartAt(e.Parts(), TASK_ENTRY, TASK_STARTS, 4);
    PartAt(e.Parts(), TASK_ENTRY, TASK_STARTS, 8);
    hide U32;
    hide U64;
    hide Flat;
  }

  /** The rows of a list of tasks. */
  function TaskLog(es: seq<TaskEntry>): (rows: seq<Row>)
    requires forall i :: 0 <= i < |es| ==> es[i].Wf()
    ensures |rows| == |es| && forall i :: 0 <= i < |es| ==> rows[i] == es[i].Row()
  {
    TasksWide(es);
    seq(|es|, i requires 0 <= i < |es| => es[i].Row())
  }

  lemma TasksWide(es: seq<TaskEntry>)
    requires forall i :: 0 <= i < |es| ==> es[i].Wf()
    ensures forall i :: 0 <= i < |es| ==> |es[i].Row()| == TASK_ROW
  {
    forall i | 0 <= i < |es|
      ensures |es[i].Row()| == TASK_ROW
    {
      TaskRowWidths(es[i]);
    }
  }

  /** A task of the batch, not before its start and not merged into another. */
  predicate EntryPoint(e: TaskEntry, batch: Id, utc: u64) {
    e.tbatch == batch && e.utc >= utc && e.deriveTo == Zeros(20)
  }

  function EntryPoints(es: seq<TaskEntry>, batch: Id, utc: u64): (r: seq<TaskEntry>)
    ensures |r| <= |es|
    ensures forall e :: e in r <==> e in es && EntryPoint(e, batch, utc)
  {
    if es == [] then []
    else
      EntryPoints(es[..|es| - 1], batch, utc)
      + (if EntryPoint(es[|es| - 1], batch, utc) then [es[|es| - 1]] else [])
  }

  function IdsOf(es: seq<TaskEntry>): (ids: seq<Id>)
    ensures |ids| == |es| && forall i :: 0 <= i < |es| ==> ids[i] == es[i].id
  {
    seq(|es|, i requires 0 <= i < |es| => es[i].id)
  }

  function KernelsOf(es: seq<TaskEntry>): set<Id> {
    set e | e in es :: e.kernel
  }

  /** The scan of the log of a list of tasks finds its entry points. */
  lemma {:induction false} ScanFields(es: seq<TaskEntry>, batch: Id, utc: u64)
    requires forall i :: 0 <= i < |es| ==> es[i].Wf()
    ensures TaskIds(TaskLog(es), batch, utc) == IdsOf(EntryPoints(es, batch, utc))
    ensures Kernels(TaskLog(es), batch, utc) == KernelsOf(EntryPoints(es, batch, utc))
    decreases |es|
  {
    hide Matches;
    hide TaskId;
    hide KernelOf;
    hide TaskEntry.Row;
    hide EntryPoint;
    if es != [] {
      var init, e := es[..|es| - 1], es[|es| - 1];
      ScanFields(init, batch, utc);
      assert TaskLog(es)[..|es| - 1] == TaskLog(init);
      OneField(e, batch, utc);
      IdsSnoc(EntryPoints(init, batch, utc), e);
    }
  }

  lemma OneField(e: TaskEntry, batch: Id, utc: u64)
    requires e.Wf()
    ensures |e.Row()| == TASK_ROW && TaskId(e.Row()) == e.id && KernelOf(e.Row()) == e.kernel
    ensures Matches(e.Row(), batch, utc) <==> EntryPoint(e, batch, utc)
  {
    TaskRowFields(e);
    hide TaskEntry.Row;
    hide TaskEntry.Wf;
    hide BatchOf;
    hide UtcOf;
    hide DeriveOf;
  }

  lemma IdsSnoc(es: seq<TaskEntry>, e: TaskEntry)
    ensures IdsOf(es + [e]) == IdsOf(es) + [e.id] && IdsOf(es + []) == IdsOf(es) + []
    ensures KernelsOf(es + [e]) == KernelsOf(es) + {e.kernel} && KernelsOf(es + []) == KernelsOf(es) + {}
  {
    assert es + [] == es;
    assert forall x :: x in es + [e] <==> x in es || x == e;
  }
}
