/** A batch from its beginning to its end, in terms of the fields of its record, of the log rows and of
    the runtime environment: what the five files hold when it has been closed. */
module BatchFields {
  import opened Bytes
  import opened Common
  import opened Signature
  import opened Layout
  import opened RecordIO
  import opened EntryLog
  import opened Structs
  import opened BatchClose
  import B = BatchAppend
  import C = Counters

  // ---------------------------------------------------------------- the record

  /** The attributes of a batch that has just begun. */
  function Begun(b: Batch): (a: TBatchAttr)
    requires b.Valid()
    ensures a.Wf()
  {
    TBatchAttr(b.id, Zeros(20), Zeros(20), b.utc, b.btime, 0, b.host, b.user, b.pid, 0, 0, 0, b.kind)
  }

  lemma SkeletonHeaders()
    ensures TASK_LINK == FreshHeader("TaskID", 0x102, 0, 0) && KERNEL_LINK == FreshHeader("KernelID", 0x102, 0, 0)
  {
    assert Codes("TaskID") == [0x54, 0x61, 0x73, 0x6B, 0x49, 0x44];
    assert Codes("KernelID") == [0x4B, 0x65, 0x72, 0x6E, 0x65, 0x6C, 0x49, 0x44];
    assert Codes("TPBLINK") == [0x54, 0x50, 0x42, 0x4C, 0x49, 0x4E, 0x4B];
    assert Padded(TASK_ID_NAME, 256) == Field("TaskID", 256) && Padded(B.KERNEL_NAME, 256) == Field("KernelID", 256);
    assert Padded(LINK_TAG, 256) == Field("TPBLINK", 256);
    assert Zeros64(7) == [0, 0, 0, 0, 0, 0, 0];
    assert seq(7, _ => Zeros(64))
           == [Zeros(64), Zeros(64), Zeros(64), Zeros(64), Zeros(64), Zeros(64), Zeros(64)];
  }

  /** The record written at the start: the batch's own data, no counts, two empty link blocks. */
  lemma SkeletonFields(b: Batch)
    requires b.Valid()
    ensures Skeleton(b)
            == TBatchRecord(Begun(b), [FreshHeader("TaskID", 0x102, 0, 0), FreshHeader("KernelID", 0x102, 0, 0)], [])
  {
    ZeroNumbers();
    SkeletonHeaders();
    hide TASK_LINK;
    hide KERNEL_LINK;
    hide FreshHeader;
    hide SchemaOf;
    hide U32;
    hide U64;
  }

  lemma CountFields(a: TBatchAttr, hs: seq<Header>, payload: seq<byte>, d: u64, k: u32, n: u32)
    requires a.Wf() && Holdable(hs, payload) && B.IsBatch(TBatchRecord(a, hs, payload))
    ensures WithCounts(TBatchRecord(a, hs, payload), d, k, n)
            == TBatchRecord(a.(duration := d, nkernel := k, ntask := n), hs, payload)
  {
    hide SchemaOf;
    hide U32;
    hide U64;
    assert a.Attrs(|hs|)[5 := U64(d)][9 := U32(k)][10 := U32(n)]
           == a.(duration := d, nkernel := k, ntask := n).Attrs(|hs|);
  }

  /** The first header once n IDs have been inserted: its size, and the count in its note. */
  function Filling(n: nat): (h: Header)
    requires 20 * n < TWO63
    ensures h.Wf()
  {
    var h := FreshHeader("TaskID", 0x102, 0, 20 * n);
    if n == 0 then h else h.(note := Zeros(1792) + U64(n) + Zeros(248))
  }

  /** The headers of a batch record into which n IDs have been inserted. */
  predicate Holding(r: Record, n: nat) {
    20 * n < TWO63 && r.headers == [Filling(n), FreshHeader("KernelID", 0x102, 0, 0)]
  }

  lemma Limit()
    ensures TWO63 == 0x8000_0000_0000_0000
  {
  }

  lemma NoneInserted(r: Record, ids: seq<Id>, n: nat)
    requires B.IsBatch(r) && ids == [] && |r.payload| + 20 < TWO63
    ensures B.InsertedAll(r, ids) == r && r.payload + Flat(ids) == r.payload && n + |ids| == n
  {
    hide SchemaOf;
    hide B.IsBatch;
  }

  lemma {:induction false} InsertedFields(r: Record, n: nat, ids: seq<Id>)
    requires B.IsBatch(r) && Holding(r, n) && |r.payload| == 20 * n
    requires 20 * n + 20 * |ids| + 20 < 0x8000_0000_0000_0000
    ensures TWO63 == 0x8000_0000_0000_0000
    ensures var r' := B.InsertedAll(r, ids);
            && r'.attrs == r.attrs && Holding(r', n + |ids|) && r'.payload == r.payload + Flat(ids)
    decreases ids
  {
    hide *;
    Limit();
    if ids == [] {
      NoneInserted(r, ids, n);
    } else {
      var s := B.Inserted(r, ids[0]);
      InsertedOne(r, n, ids[0]);
      B.InsertedNext(r, ids);
      FlatHead(ids);
      InsertedFields(s, n + 1, ids[1..]);
      assert r.payload + ids[0] + Flat(ids[1..]) == r.payload + (ids[0] + Flat(ids[1..]));
    }
  }

  lemma InsertedOne(r: Record, n: nat, id: Id)
    requires B.IsBatch(r) && Holding(r, n) && |r.payload| == 20 * n && 20 * n + 40 < TWO63
    ensures var r' := B.Inserted(r, id);
            && B.IsBatch(r') && r'.attrs == r.attrs && Holding(r', n + 1) && r'.payload == r.payload + id
  {
    hide SchemaOf;
    hide U64;
    assert r.headers[0].dataSize == 20 * n && r.headers[1].dataSize == 0;
    var note := r.headers[0].note;
    assert note[..1792] == Zeros(1792) && note[1800..] == Zeros(248);
  }

  // ---------------------------------------------------------------- closing it

  /** The attributes of a closed batch: how long it took, and the counts of its entry points and of their
      different kernels. */
  function Ended(b: Batch, end: u64, chosen: seq<TaskEntry>): (a: TBatchAttr)
    requires b.Valid()
    ensures a.Wf()
  {
    Begun(b).(duration := if end > b.btime then end - b.btime else 0,
              nkernel := |KernelsOf(chosen)| % 0x1_0000_0000, ntask := |chosen| % 0x1_0000_0000)
  }

  /** The closed record: these attributes, the IDs of the entry points in log order, and the headers that
      go with them. */
  function ClosedRecord(b: Batch, end: u64, chosen: seq<TaskEntry>): Record
    requires b.Valid() && |chosen| < 0x8000_0000
  {
    ClosedHoldable(chosen);
    TBatchRecord(Ended(b, end, chosen), [Filling(|chosen|), FreshHeader("KernelID", 0x102, 0, 0)], Flat(IdsOf(chosen)))
  }

  lemma ClosedHoldable(chosen: seq<TaskEntry>)
    requires |chosen| < 0x8000_0000
    ensures 20 * |chosen| < TWO63
    ensures Holdable([Filling(|chosen|), FreshHeader("KernelID", 0x102, 0, 0)], Flat(IdsOf(chosen)))
  {
    FlatLenUniform(IdsOf(chosen), 20);
    hide Flat;
    hide Filling;
    hide FreshHeader;
  }

  /** From begin to end: whatever the log of tasks holds, the skeleton becomes that record. */
  lemma ClosedFields(b: Batch, es: seq<TaskEntry>, end: u64)
    requires b.Valid() && |es| < 0x8000_0000 && forall i :: 0 <= i < |es| ==> es[i].Wf()
    ensures B.IsBatch(Skeleton(b)) && |Skeleton(b).payload| + 20 * |TaskLog(es)| + 20 < TWO63
    ensures Closed(Skeleton(b), TaskLog(es), b, end) == ClosedRecord(b, end, EntryPoints(es, b.id, b.utc))
  {
    SkeletonEmpty(b);
    ClosedIs(Skeleton(b), TaskLog(es), b, end);
    hide *;
    var chosen := EntryPoints(es, b.id, b.utc);
    SkeletonIsBatch(b);
    ScanFields(es, b.id, b.utc);
    AllInserted(b, chosen);
    CountsAre(b, es, end);
    EndedIs(b, end, chosen);
  }

  lemma ClosedIs(r: Record, rows: seq<Row>, b: Batch, end: u64)
    requires r.payload == [] && |rows| < 0x8000_0000
    ensures |r.payload| + 20 * |rows| + 20 < TWO63
    ensures B.IsBatch(r) ==>
      && B.IsBatch(B.InsertedAll(r, TaskIds(rows, b.id, b.utc)))
      && Closed(r, rows, b, end)
         == WithCounts(B.InsertedAll(r, TaskIds(rows, b.id, b.utc)), Duration(b, end), KernelCount(rows, b),
                       Tasks(rows, b))
  {
    hide SchemaOf;
    hide B.IsBatch;
    hide WithCounts;
    hide B.InsertedAll;
    hide TaskIds;
    hide KernelCount;
    hide Tasks;
  }

  /** The skeleton with the IDs inserted. */
  lemma InsertedIs(b: Batch, r: Record, n: nat, payload: seq<byte>)
    requires b.Valid() && Holding(r, n) && r.payload == payload
    requires var empty := [FreshHeader("TaskID", 0x102, 0, 0), FreshHeader("KernelID", 0x102, 0, 0)];
             r.attrs == TBatchRecord(Begun(b), empty, []).attrs
    requires Holdable([Filling(n), FreshHeader("KernelID", 0x102, 0, 0)], payload)
    ensures r == TBatchRecord(Begun(b), [Filling(n), FreshHeader("KernelID", 0x102, 0, 0)], payload)
  {
    hide SchemaOf;
    hide Filling;
    hide FreshHeader;
    hide Begun;
    hide TBatchAttr.Attrs;
    hide Holdable;
  }

  lemma AllInserted(b: Batch, chosen: seq<TaskEntry>)
    requires b.Valid() && |chosen| < 0x8000_0000 && B.IsBatch(Skeleton(b)) && Skeleton(b).payload == []
    ensures Holdable([Filling(|chosen|), FreshHeader("KernelID", 0x102, 0, 0)], Flat(IdsOf(chosen)))
    ensures |Skeleton(b).payload| + 20 * |IdsOf(chosen)| + 20 < TWO63
    ensures B.InsertedAll(Skeleton(b), IdsOf(chosen))
            == TBatchRecord(Begun(b), [Filling(|chosen|), FreshHeader("KernelID", 0x102, 0, 0)], Flat(IdsOf(chosen)))
  {
    hide *;
    ClosedHoldable(chosen);
    SkeletonFields(b);
    SkeletonHolds(b);
    InsertedFields(Skeleton(b), 0, IdsOf(chosen));
    InsertedIs(b, B.InsertedAll(Skeleton(b), IdsOf(chosen)), |chosen|, Flat(IdsOf(chosen)));
  }

  lemma SkeletonHolds(b: Batch)
    requires b.Valid()
    ensures Holding(Skeleton(b), 0)
  {
    SkeletonFields(b);
    hide Skeleton;
    hide FreshHeader;
    hide SchemaOf;
    hide Begun;
  }

  lemma CountsAre(b: Batch, es: seq<TaskEntry>, end: u64)
    requires forall i :: 0 <= i < |es| ==> es[i].Wf()
    ensures var chosen := EntryPoints(es, b.id, b.utc);
            && Duration(b, end) == (if end > b.btime then end - b.btime else 0)
            && KernelCount(TaskLog(es), b) == |KernelsOf(chosen)| % 0x1_0000_0000
            && Tasks(TaskLog(es), b) == |chosen| % 0x1_0000_0000
  {
    ScanFields(es, b.id, b.utc);
    hide TaskIds;
    hide Kernels;
    hide EntryPoints;
    hide KernelsOf;
    hide TaskLog;
  }

  lemma EndedIs(b: Batch, end: u64, chosen: seq<TaskEntry>)
    requires b.Valid() && |chosen| < 0x8000_0000
    requires Holdable([Filling(|chosen|), FreshHeader("KernelID", 0x102, 0, 0)], Flat(IdsOf(chosen)))
    requires B.IsBatch(TBatchRecord(Begun(b), [Filling(|chosen|), FreshHeader("KernelID", 0x102, 0, 0)],
                                    Flat(IdsOf(chosen))))
    ensures var d := if end > b.btime then end - b.btime else 0;
            var hs := [Filling(|chosen|), FreshHeader("KernelID", 0x102, 0, 0)];
            WithCounts(TBatchRecord(Begun(b), hs, Flat(IdsOf(chosen))), d, |KernelsOf(chosen)| % 0x1_0000_0000,
                       |chosen| % 0x1_0000_0000)
            == ClosedRecord(b, end, chosen)
  {
    CountFields(Begun(b), [Filling(|chosen|), FreshHeader("KernelID", 0x102, 0, 0)], Flat(IdsOf(chosen)),
                if end > b.btime then end - b.btime else 0, |KernelsOf(chosen)| % 0x1_0000_0000,
                |chosen| % 0x1_0000_0000);
    hide Filling;
    hide FreshHeader;
    hide Flat;
    hide IdsOf;
    hide KernelsOf;
    hide Begun;
    hide WithCounts;
    hide TBatchRecord;
    hide B.IsBatch;
    hide Holdable;
  }

  /** The row of the closed batch. */
  function EndedRow(b: Batch, end: u64, chosen: seq<TaskEntry>): (row: seq<byte>)
    requires b.Valid()
  {
    var a := Ended(b, end, chosen);
    TBatchEntry(b.id, Zeros(20), b.utc, a.duration, b.host, a.nkernel, a.ntask, 0, b.kind, Zeros(128)).Row()
  }

  lemma BatchRowFields(b: Batch, duration: u64, nkernel: u32, ntask: u32)
    requires b.Valid()
    ensures BatchRow(b, duration, nkernel, ntask)
            == TBatchEntry(b.id, Zeros(20), b.utc, duration, b.host, nkernel, ntask, 0, b.kind, Zeros(128)).Row()
  {
    ZeroNumbers();
    hide U32;
    hide U64;
    var x := b.id + Zeros(20) + U64(b.utc) + U64(duration) + b.host;
    var p, q := [b.id, Zeros(20), U64(b.utc), U64(duration), b.host],
                [U32(nkernel), U32(ntask), Zeros(4), U32(b.kind), Zeros(128)];
    FlatFive(b.id, Zeros(20), U64(b.utc), U64(duration), b.host);
    FlatFive(U32(nkernel), U32(ntask), Zeros(4), U32(b.kind), Zeros(128));
    FlatConcat(p, q);
    hide Flat;
    hide Zeros;
    assert x + U32(nkernel) + U32(ntask) + Zeros(4) + U32(b.kind) + Zeros(128)
           == x + (U32(nkernel) + U32(ntask) + Zeros(4) + U32(b.kind) + Zeros(128));
    assert p + q == [b.id, Zeros(20), U64(b.utc), U64(duration), b.host, U32(nkernel), U32(ntask), Zeros(4),
                     U32(b.kind), Zeros(128)];
  }

  lemma FlatFive(a: seq<byte>, b: seq<byte>, c: seq<byte>, d: seq<byte>, e: seq<byte>)
    ensures Flat([a, b, c, d, e]) == a + b + c + d + e
  {
    FlatAppend([], a);
    FlatAppend([a], b);
    FlatAppend([a, b], c);
    FlatAppend([a, b, c], d);
    FlatAppend([a, b, c, d], e);
    assert [] + [a] == [a] && [a] + [b] == [a, b] && [a, b] + [c] == [a, b, c];
    assert [a, b, c] + [d] == [a, b, c, d] && [a, b, c, d] + [e] == [a, b, c, d, e];
  }

  /** The contents of the five files. */
  datatype Files = Files(tasks: seq<byte>, rec: seq<byte>, rtRec: seq<byte>, rtLog: seq<byte>, log: seq<byte>)

  /** A close that succeeds leads from x to y, as the contract of `EndBatch` says. */
  ghost predicate Closing(x: Files, y: Files, b: Batch, end: u64)
    requires b.Valid()
  {
    && TaskRows(x.tasks).Some?
    && var rows := TaskRows(x.tasks).value;
    && var d, k, n := Duration(b, end), KernelCount(rows, b), Tasks(rows, b);
    && Closes(Some(rows), x.rec, x.rtRec, x.rtLog, x.log, b, end)
    && y.tasks == x.tasks
    && Some(y.rec) == Counted(Filled(x.rec, TaskIds(rows, b.id, b.utc)), d, k, n)
    && Some(y.rtRec) == C.RecordPatched(x.rtRec, 0, 1) && Some(y.rtLog) == C.LogPatched(x.rtLog, b.rtenv, 0, 1)
    && Some(y.log) == Appended(x.log, TBatch, BatchRow(b, d, k, n))
  }

  /** A runtime environment: its record, and the entries of its log. */
  datatype Env = Env(attr: RtEnvAttr, headers: seq<Header>, payload: seq<byte>, entries: seq<RtEnvAttr>) {
    predicate Wf() {
      attr.Wf() && Holdable(headers, payload) && forall k :: 0 <= k < |entries| ==> entries[k].Wf()
    }
  }

  /** The files between begin and end: the skeleton, whatever tasks and batches have been logged, and the
      runtime environment. */
  function Open(b: Batch, es: seq<TaskEntry>, env: Env, rows: seq<seq<byte>>): Files
    requires b.Valid() && env.Wf() && forall k :: 0 <= k < |es| ==> es[k].Wf()
  {
    SkeletonIsBatch(b);
    Files(LogImage(Task, TaskLog(es)), Image(SchemaOf(TBatch), Skeleton(b)),
          Image(SchemaOf(RtEnv), RtEnvRecord(env.attr, env.headers, env.payload)),
          LogImage(RtEnv, RtEnvRows(env.entries)), LogImage(TBatch, rows))
  }

  /** The files after the end: the closed record, a row for it behind the others, and one more batch counted
      for the runtime environment, in its record and in entry i. */
  function Shut(b: Batch, end: u64, es: seq<TaskEntry>, env: Env, i: nat, rows: seq<seq<byte>>): Files
    requires b.Valid() && env.Wf() && |es| < 0x8000_0000 && forall k :: 0 <= k < |es| ==> es[k].Wf()
    requires i < |env.entries|
  {
    var chosen := EntryPoints(es, b.id, b.utc);
    RowsSet(env.entries, i, C.Increased(env.entries[i], 0, 1));
    Files(LogImage(Task, TaskLog(es)), Image(SchemaOf(TBatch), ClosedRecord(b, end, chosen)),
          Image(SchemaOf(RtEnv), RtEnvRecord(C.Increased(env.attr, 0, 1), env.headers, env.payload)),
          LogImage(RtEnv, RtEnvRows(env.entries[i := C.Increased(env.entries[i], 0, 1)])),
          LogImage(TBatch, rows + [EndedRow(b, end, chosen)]))
  }

  /** Closing a batch leads from the one to the other, entry i being the first of the batch's environment. */
  lemma EndsFields(b: Batch, end: u64, es: seq<TaskEntry>, env: Env, i: nat, rows: seq<seq<byte>>)
    requires b.Valid() && env.Wf() && |es| < 0x8000_0000 && forall k :: 0 <= k < |es| ==> es[k].Wf()
    requires i < |env.entries| && env.entries[i].id == b.rtenv
    requires forall k :: 0 <= k < i ==> env.entries[k].id != b.rtenv
    ensures Closing(Open(b, es, env, rows), Shut(b, end, es, env, i, rows), b, end)
  {
    var x, y := Open(b, es, env, rows), Shut(b, end, es, env, i, rows);
    OpenIs(b, es, env, rows);
    ShutIs(b, end, es, env, i, rows);
    ShutEnv(b, end, es, env, i, rows);
    hide *;
    SkeletonIsBatch(b);
    ClosedFields(b, es, end);
    CloseRefines(Skeleton(b), TaskLog(es), b, end);
    C.RecordPatchFields(env.attr, env.headers, env.payload, 0, 1);
    C.LogPatchFields(env.entries, i, b.rtenv, 0, 1);
    RowEnded(b, es, end);
    AppendRefines(TBatch, rows, EndedRow(b, end, EntryPoints(es, b.id, b.utc)));
    ClosingIf(x, y, TaskLog(es), b, end);
  }

  lemma OpenIs(b: Batch, es: seq<TaskEntry>, env: Env, rows: seq<seq<byte>>)
    requires b.Valid() && env.Wf() && forall k :: 0 <= k < |es| ==> es[k].Wf()
    ensures env.attr.Wf() && Holdable(env.headers, env.payload)
    ensures forall k :: 0 <= k < |env.entries| ==> env.entries[k].Wf()
    ensures var x := Open(b, es, env, rows);
            && x.tasks == LogImage(Task, TaskLog(es)) && Skeleton(b).Wf(SchemaOf(TBatch))
            && x.rec == Image(SchemaOf(TBatch), Skeleton(b))
            && x.rtRec == Image(SchemaOf(RtEnv), RtEnvRecord(env.attr, env.headers, env.payload))
            && x.rtLog == LogImage(RtEnv, RtEnvRows(env.entries)) && x.log == LogImage(TBatch, rows)
  {
    SkeletonIsBatch(b);
    hide SchemaOf;
    hide Image;
    hide LogImage;
    hide Skeleton;
    hide TaskLog;
    hide RtEnvRecord;
    hide RtEnvRows;
  }

  lemma ShutIs(b: Batch, end: u64, es: seq<TaskEntry>, env: Env, i: nat, rows: seq<seq<byte>>)
    requires b.Valid() && env.Wf() && |es| < 0x8000_0000 && forall k :: 0 <= k < |es| ==> es[k].Wf()
    requires i < |env.entries|
    ensures var y, chosen := Shut(b, end, es, env, i, rows), EntryPoints(es, b.id, b.utc);
            && |chosen| < 0x8000_0000 && ClosedRecord(b, end, chosen).Wf(SchemaOf(TBatch))
            && y.tasks == LogImage(Task, TaskLog(es)) && y.rec == Image(SchemaOf(TBatch), ClosedRecord(b, end, chosen))
            && y.log == LogImage(TBatch, rows + [EndedRow(b, end, chosen)])
  {
    assert ClosedRecord(b, end, EntryPoints(es, b.id, b.utc)).Wf(SchemaOf(TBatch));
    hide C.Increased;
    hide RtEnvAttr.Wf;
    hide SchemaOf;
    hide Image;
    hide LogImage;
    hide ClosedRecord;
    hide EndedRow;
    hide EntryPoints;
    hide TaskLog;
    hide RtEnvRecord;
    hide RtEnvRows;
    hide Holdable;
  }

  /** and the two files of the environment. */
  lemma ShutEnv(b: Batch, end: u64, es: seq<TaskEntry>, env: Env, i: nat, rows: seq<seq<byte>>)
    requires b.Valid() && env.Wf() && |es| < 0x8000_0000 && forall k :: 0 <= k < |es| ==> es[k].Wf()
    requires i < |env.entries|
    ensures Holdable(env.headers, env.payload) && C.Increased(env.attr, 0, 1).Wf()
    ensures var es' := env.entries[i := C.Increased(env.entries[i], 0, 1)];
            && (forall k :: 0 <= k < |es'| ==> es'[k].Wf())
            && var y := Shut(b, end, es, env, i, rows);
               && y.rtRec == Image(SchemaOf(RtEnv), RtEnvRecord(C.Increased(env.attr, 0, 1), env.headers, env.payload))
               && y.rtLog == LogImage(RtEnv, RtEnvRows(es'))
  {
    hide C.Increased;
    hide RtEnvAttr.Wf;
    hide SchemaOf;
    hide Image;
    hide LogImage;
    hide ClosedRecord;
    hide EndedRow;
    hide EntryPoints;
    hide TaskLog;
    hide RtEnvRecord;
    hide RtEnvRows;
    hide Holdable;
  }

  lemma RowEnded(b: Batch, es: seq<TaskEntry>, end: u64)
    requires b.Valid() && forall i :: 0 <= i < |es| ==> es[i].Wf()
    ensures BatchRow(b, Duration(b, end), KernelCount(TaskLog(es), b), Tasks(TaskLog(es), b))
            == EndedRow(b, end, EntryPoints(es, b.id, b.utc))
  {
    CountsAre(b, es, end);
    BatchRowFields(b, Duration(b, end), KernelCount(TaskLog(es), b), Tasks(TaskLog(es), b));
    hide BatchRow;
    hide Duration;
    hide KernelCount;
    hide Tasks;
    hide KernelsOf;
    hide TBatchEntry.Row;
    hide EntryPoints;
    hide TaskLog;
  }

  lemma ClosingIf(x: Files, y: Files, rows: seq<Row>, b: Batch, end: u64)
    requires b.Valid() && TaskRows(x.tasks) == Some(rows) && y.tasks == x.tasks
    requires var ids, d, k, n := TaskIds(rows, b.id, b.utc), Duration(b, end), KernelCount(rows, b), Tasks(rows, b);
             && AllAccepted(x.rec, ids) && Counted(Filled(x.rec, ids), d, k, n) == Some(y.rec)
             && C.RecordPatched(x.rtRec, 0, 1) == Some(y.rtRec) && C.LogPatched(x.rtLog, b.rtenv, 0, 1) == Some(y.rtLog)
             && Appended(x.log, TBatch, BatchRow(b, d, k, n)) == Some(y.log)
    ensures Closing(x, y, b, end)
  {
    hide TaskRows;
    hide TaskIds;
    hide Kernels;
    hide Duration;
    hide Counted;
    hide Filled;
    hide AllAccepted;
    hide C.RecordPatched;
    hide C.LogPatched;
    hide Appended;
    hide BatchRow;
    hide Batch.Valid;
    hide KernelCount;
    hide Tasks;
  }
}
