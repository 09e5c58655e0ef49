/** Merging a task into another: derive_to is set in its record and in its log row, and from then on
    it is no entry point of its batch. */
module TaskMerge {
  import opened Bytes
  import opened Common
  import opened Signature
  import opened Layout
  import opened Disk
  import opened RecordIO
  import opened EntryLog
  import opened AttrPatch
  import opened BatchClose
  import opened Structs

  /** Offsets of a task's ID and of derive_to in the record file, and of derive_to in a row. */
  const REC_ID: nat := 24
  const REC_DERIVE: nat := 44
  const ROW_DERIVE: nat := 104

  // ---------------------------------------------------------------- the record

  /** The record file after the first half of tpb_k_task_set_derive_to. */
  function RecordMerged(f: seq<byte>, task: Id, target: Id): Option<seq<byte>> {
    if !At(f, 0, Magic(Rec, Task, Start)) || !At(f, REC_ID, task) then None
    else Some(Overwrite(f, REC_DERIVE, target))
  }

  method MergeRecord(rec: DiskFile, task: Id, target: Id) returns (ok: bool)
    requires rec.pos == 0
    modifies rec
    ensures ok == RecordMerged(old(rec.data), task, target).Some?
    ensures rec.data == if ok then RecordMerged(old(rec.data), task, target).value else old(rec.data)
  {
    hide Magic;
    hide Overwrite;
    ok := rec.Expect(Magic(Rec, Task, Start), 8);
    if !ok { return; }
    ok := rec.Seek(REC_ID);
    ok := rec.Expect(task, 20);
    if !ok { return; }
    ok := rec.Seek(REC_DERIVE);
    rec.Write(target);
  }

  /** The record with derive_to, attribute field 1, set. */
  function Merged(r: Record, target: Id): (r': Record)
    requires r.Wf(SchemaOf(Task))
    ensures r'.Wf(SchemaOf(Task)) && r'.headers == r.headers && r'.payload == r.payload
  {
    assert |r.attrs| == |Lengths(r.attrs)| == 16 && |r.attrs[1]| == Lengths(r.attrs)[1] == 20;
    var attrs := r.attrs[1 := target];
    assert Lengths(attrs) == Lengths(r.attrs);
    r.(attrs := attrs)
  }

  lemma TaskFields()
    ensures var s := SchemaOf(Task);
            && |s.widths| == 16 && s.widths[0] == 20 && s.widths[1] == 20 && s.nheaderField == 14
            && s.FieldOff(0) == REC_ID && s.FieldOff(1) == REC_DERIVE
  {
    hide Sum;
    hide Schema.FieldOff;
    TaskOffsets();
    assert TASK_OFFSETS[0] == 24 && TASK_OFFSETS[1] == 44;
  }

  /** On a task record's file the call refines setting the attribute, and succeeds exactly for the
      record's own ID. */
  lemma MergeRefines(r: Record, task: Id, target: Id)
    requires r.Wf(SchemaOf(Task))
    ensures RecordMerged(Image(SchemaOf(Task), r), task, target)
            == if |r.attrs| > 0 && r.attrs[0] == task then Some(Image(SchemaOf(Task), Merged(r, target))) else None
  {
    var s, f := SchemaOf(Task), Image(SchemaOf(Task), r);
    TaskFields();
    assert |r.attrs| == |Lengths(r.attrs)| == 16 && |r.attrs[0]| == Lengths(r.attrs)[0] == 20;
    AttrStands(f, s, r, 0);
    PatchAttr(s, r, 1, target);
    hide Image;
    hide Overwrite;
    hide Magic;
    hide SchemaOf;
    AtSlice(f, REC_ID, task);
    hide At;
  }

  // ---------------------------------------------------------------- the log

  /** The first row with a task's ID, or the number of rows. */
  function FindTask(rows: seq<Row>, task: Id): (i: nat)
    ensures i <= |rows| && (i < |rows| ==> TaskId(rows[i]) == task)
    ensures forall k :: 0 <= k < i ==> TaskId(rows[k]) != task
  {
    if rows == [] then 0 else if TaskId(rows[0]) == task then 0 else 1 + FindTask(rows[1..], task)
  }

  /** A row with derive_to set. */
  function RowMerged(row: Row, target: Id): (r: Row)
    ensures DeriveOf(r) == target && TaskId(r) == TaskId(row) && BatchOf(r) == BatchOf(row)
    ensures KernelOf(r) == KernelOf(row) && UtcOf(r) == UtcOf(row)
  {
    var r := Overwrite(row, ROW_DERIVE, target);
    assert r[0..20] == row[0..20] && r[40..60] == row[40..60] && r[60..80] == row[60..80] && r[80..88] == row[80..88];
    r
  }

  /** The log file after the second half, which lists the log, finds the row and writes into it. */
  function LogMerged(f: seq<byte>, task: Id, target: Id): Option<seq<byte>> {
    match TaskRows(f)
    case None => None
    case Some(rows) =>
      var i := FindTask(rows, task);
      if i == |rows| then None else Some(Overwrite(f, 8 + i * TASK_ROW + ROW_DERIVE, target))
  }

  method MergeLog(log: DiskFile, task: Id, target: Id) returns (ok: bool)
    requires log.pos == 0
    modifies log
    ensures ok == LogMerged(old(log.data), task, target).Some?
    ensures log.data == if ok then LogMerged(old(log.data), task, target).value else old(log.data)
  {
    hide TaskRows;
    hide Overwrite;
    hide TaskId;
    var res := ListTasks(log);
    if res == None { return false; }
    var rows := res.value;
    var j := 0;
    while j < |rows|
      invariant j <= |rows| && FindTask(rows, task) == j + FindTask(rows[j..], task)
      modifies {}
    {
      if TaskId(rows[j]) == task { break; }
      j := j + 1;
    }
    if j == |rows| { return false; }
    ok := log.Seek(8 + j * TASK_ROW + ROW_DERIVE);
    log.Write(target);
  }

  /** Writing into the log file is setting derive_to in the first row with that ID. */
  lemma LogMergeRefines(rows: seq<Row>, task: Id, target: Id)
    ensures var i := FindTask(rows, task);
            LogMerged(LogImage(Task, rows), task, target)
            == if i == |rows| then None else Some(LogImage(Task, rows[i := RowMerged(rows[i], target)]))
  {
    hide *;
    RowsListed(rows);
    LogMergedIs(LogImage(Task, rows), rows, task, target);
    var i := FindTask(rows, task);
    if i < |rows| {
      RowWrite(rows, i, target);
    }
  }

  lemma LogMergedIs(f: seq<byte>, rows: seq<Row>, task: Id, target: Id)
    requires TaskRows(f) == Some(rows)
    ensures var i := FindTask(rows, task);
            LogMerged(f, task, target)
            == if i == |rows| then None else Some(Overwrite(f, 8 + i * TASK_ROW + ROW_DERIVE, target))
  {
    hide TaskRows;
    hide FindTask;
    hide Overwrite;
  }

  lemma RowWrite(rows: seq<Row>, i: nat, target: Id)
    requires i < |rows|
    ensures Overwrite(LogImage(Task, rows), 8 + i * TASK_ROW + ROW_DERIVE, target)
            == LogImage(Task, rows[i := RowMerged(rows[i], target)])
  {
    hide LogImage;
    hide Overwrite;
    PatchRow(Task, rows, TASK_ROW, i, ROW_DERIVE, target);
  }

  /** tpb_k_task_set_derive_to: the record first, then the log row; when the row is missing the call
      fails after the record has been changed. */
  method SetDeriveTo(rec: DiskFile, log: DiskFile, task: Id, target: Id) returns (ok: bool)
    requires rec != log && rec.pos == 0 && log.pos == 0
    modifies rec, log
    ensures var r, l := RecordMerged(old(rec.data), task, target), LogMerged(old(log.data), task, target);
            && ok == (r.Some? && l.Some?)
            && rec.data == (if r.Some? then r.value else old(rec.data))
            && log.data == (if ok then l.value else old(log.data))
  {
    hide RecordMerged;
    hide LogMerged;
    ok := MergeRecord(rec, task, target);
    if ok {
      ok := MergeLog(log, task, target);
    }
  }

  // ---------------------------------------------------------------- in terms of the fields

  lemma MergedRow(e: TaskEntry, target: Id)
    requires e.Wf()
    ensures |e.Row()| == TASK_ROW && RowMerged(e.Row(), target) == e.(deriveTo := target).Row()
  {
    TaskRowWidths(e);
    PartSet(e.Parts(), TASK_ENTRY, TASK_STARTS, 8, target);
    hide U32;
    hide U64;
    hide Flat;
    hide Overwrite;
    assert e.Parts()[8 := target] == e.(deriveTo := target).Parts();
  }

  /** In the log of a list of tasks derive_to is set in the first one with the ID; the call fails when there
      is none. */
  lemma LogMergeFields(es: seq<TaskEntry>, i: nat, task: Id, target: Id)
    requires (forall k :: 0 <= k < |es| ==> es[k].Wf()) && i <= |es|
    requires (forall k :: 0 <= k < i ==> es[k].id != task) && (i < |es| ==> es[i].id == task)
    ensures LogMerged(LogImage(Task, TaskLog(es)), task, target)
            == if i == |es| then None else Some(LogImage(Task, TaskLog(es[i := es[i].(deriveTo := target)])))
  {
    forall k | 0 <= k < |es|
      ensures |es[k].Row()| == TASK_ROW && TaskId(es[k].Row()) == es[k].id
    {
      TaskRowFields(es[k]);
    }
    LogMergeRefines(TaskLog(es), task, target);
    if i < |es| {
      MergedRow(es[i], target);
      TaskLogSet(es, i, es[i].(deriveTo := target));
    }
    hide TaskEntry.Row;
    hide LogMerged;
    hide LogImage;
    hide TaskId;
    hide RowMerged;
    assert FindTask(TaskLog(es), task) == i;
  }

  lemma TaskLogSet(es: seq<TaskEntry>, i: nat, e: TaskEntry)
    requires (forall k :: 0 <= k < |es| ==> es[k].Wf()) && i < |es| && e.Wf()
    ensures |e.Row()| == TASK_ROW
    ensures var t := es[i := e];
            (forall k :: 0 <= k < |t| ==> t[k].Wf()) && TaskLog(t) == TaskLog(es)[i := e.Row()]
  {
    TaskRowWidths(e);
    hide TaskEntry.Row;
    hide TaskEntry.Wf;
  }

  /** On the file of a task record the call sets its derive_to when it has that ID, and fails otherwise. */
  lemma MergedRecord(a: TaskAttr, hs: seq<Header>, payload: seq<byte>, target: Id)
    requires Holdable(hs, payload)
    ensures |TaskRecord(a, hs, payload).attrs| == 16 && TaskRecord(a, hs, payload).attrs[0] == a.id
    ensures Merged(TaskRecord(a, hs, payload), target) == TaskRecord(a.(deriveTo := target), hs, payload)
  {
    hide SchemaOf;
    hide U32;
    hide U64;
    assert Merged(TaskRecord(a, hs, payload), target).attrs == a.(deriveTo := target).Attrs(|hs|);
  }

  lemma MergeFields(a: TaskAttr, hs: seq<Header>, payload: seq<byte>, task: Id, target: Id)
    requires Holdable(hs, payload)
    ensures RecordMerged(Image(SchemaOf(Task), TaskRecord(a, hs, payload)), task, target)
            == if a.id == task then Some(Image(SchemaOf(Task), TaskRecord(a.(deriveTo := target), hs, payload)))
               else None
  {
    hide *;
    MergeRefines(TaskRecord(a, hs, payload), task, target);
    MergedRecord(a, hs, payload, target);
  }

  // ---------------------------------------------------------------- and the batch

  /** The IDs of the matching tasks without row i. */
  function Without(rows: seq<Row>, i: nat, batch: Id, utc: u64): seq<Id>
    requires i < |rows|
  {
    TaskIds(rows[..i], batch, utc) + TaskIds(rows[i + 1..], batch, utc)
  }

  lemma {:induction false} TaskIdsAppend(xs: seq<Row>, ys: seq<Row>, batch: Id, utc: u64)
    ensures TaskIds(xs + ys, batch, utc) == TaskIds(xs, batch, utc) + TaskIds(ys, batch, utc)
    decreases |ys|
  {
    hide Matches;
    hide TaskId;
    if ys == [] {
      assert xs + ys == xs;
    } else {
      assert (xs + ys)[..|xs + ys| - 1] == xs + ys[..|ys| - 1];
      TaskIdsAppend(xs, ys[..|ys| - 1], batch, utc);
    }
  }

  /** Once a task has been merged into another, closing a batch leaves out that one task and counts
      every other as before. */
  lemma MergedLeavesBatch(rows: seq<Row>, i: nat, target: Id, batch: Id, utc: u64)
    requires i < |rows| && target != Zeros(20)
    ensures TaskIds(rows[i := RowMerged(rows[i], target)], batch, utc) == Without(rows, i, batch, utc)
  {
    var r := RowMerged(rows[i], target);
    var rows' := rows[i := r];
    assert rows' == rows[..i] + [r] + rows[i + 1..];
    OneTask(r, batch, utc);
    assert !Matches(r, batch, utc);
    hide TaskIds;
    hide RowMerged;
    hide Matches;
    TaskIdsAppend(rows[..i] + [r], rows[i + 1..], batch, utc);
    TaskIdsAppend(rows[..i], [r], batch, utc);
  }

  lemma OneTask(r: Row, batch: Id, utc: u64)
    ensures TaskIds([r], batch, utc) == if Matches(r, batch, utc) then [TaskId(r)] else []
  {
    hide Matches;
    hide TaskId;
    assert [r][..0] == [] && TaskIds([], batch, utc) == [];
  }
}
