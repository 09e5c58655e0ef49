/** Any number of processes that append to and patch the runtime-environment files. Appends hold
    flock on the log, patches hold fcntl locks on one record file and then on the log; the two
    kinds of lock do not exclude each other. Every read or flushed write is one step. */
module LogInterleaving {
  import opened Bytes
  import opened Common
  import opened Signature
  import opened Layout
  import opened RecordIO
  import opened EntryLog
  import opened Counters
  import opened Structs

  type Row = r: seq<byte> | |r| == ROW witness Zeros(ROW)

  /** Where a process is. The sums nt and nb of a patch are computed when the counters are read. */
  datatype Proc =
    | Idle
    | AppWait(row: Row)
    | AppLocked(row: Row)
    | AppSized(row: Row, fsize: nat)
    | AppChecked(row: Row, fsize: nat)
    | AppClosing
    | PatWait(id: u32, a: u32, b: u32)
    | PatRecLocked(id: u32, a: u32, b: u32)
    | PatRecRead(id: u32, a: u32, b: u32, nt: u32, nb: u32)
    | PatRecHalf(id: u32, a: u32, b: u32, nb: u32)
    | PatRecDone(id: u32, a: u32, b: u32)
    | PatBetween(id: u32, a: u32, b: u32)
    | PatScan(id: u32, a: u32, b: u32, pos: nat)
    | PatFound(id: u32, a: u32, b: u32, pos: nat, nt: u32, nb: u32)
    | PatHalf(id: u32, a: u32, b: u32, pos: nat, nb: u32)
    | PatLogDone
  {
    predicate HoldsFlock() {
      AppLocked? || AppSized? || AppChecked? || AppClosing?
    }

    predicate HoldsLogLock() {
      PatScan? || PatFound? || PatHalf? || PatLogDone?
    }

    predicate HoldsRecLock(i: u32) {
      (PatRecLocked? || PatRecRead? || PatRecHalf? || PatRecDone?) && id == i
    }

    /** What this process has added to the record counter but not to the log counter. */
    function OwedTasks(i: u32): nat {
      if (PatRecHalf? || PatRecDone? || PatBetween? || PatScan? || PatFound?) && id == i then a else 0
    }

    function OwedBatches(i: u32): nat {
      if (PatRecDone? || PatBetween? || PatScan? || PatFound? || PatHalf?) && id == i then b else 0
    }
  }

  /** The shared files, and the history the safety statement speaks about: the rows as they were
      first written, the record files as they were at the start, and the totals added to each
      counter. */
  datatype Files = Files(
    log: seq<byte>, recs: map<u32, seq<byte>>,
    written: seq<Row>, addT: seq<nat>, addB: seq<nat>,
    recBase: map<u32, seq<byte>>, recT: map<u32, nat>, recB: map<u32, nat>)

  /** The processes at work on the files, and what failed patches left owed. */
  datatype State = State(files: Files, procs: seq<Proc>, failT: map<u32, nat>, failB: map<u32, nat>)

  datatype Op = StartAppend(row: Row) | StartPatch(id: u32, a: u32, b: u32) | Go

  function Get(m: map<u32, nat>, id: u32): nat {
    if id in m then m[id] else 0
  }

  function Inc(m: map<u32, nat>, id: u32, n: nat): map<u32, nat> {
    m[id := Get(m, id) + n]
  }

  // ---------------------------------------------------------------- the steps

  predicate FlockFree(ps: seq<Proc>) {
    forall i :: 0 <= i < |ps| ==> !ps[i].HoldsFlock()
  }

  predicate LogLockFree(ps: seq<Proc>) {
    forall i :: 0 <= i < |ps| ==> !ps[i].HoldsLogLock()
  }

  predicate RecLockFree(ps: seq<Proc>, id: u32) {
    forall i :: 0 <= i < |ps| ==> !ps[i].HoldsRecLock(id)
  }

  /** A process that wants a lock waits until no process holds it. */
  predicate Enabled(s: State, p: nat, op: Op) {
    && p < |s.procs|
    && match s.procs[p]
       case Idle => op.StartAppend? || (op.StartPatch? && op.id in s.files.recs && (op.a != 0 || op.b != 0))
       case AppWait(_) => op.Go? && FlockFree(s.procs)
       case PatWait(id, _, _) => op.Go? && RecLockFree(s.procs, id)
       case PatBetween(_, _, _) => op.Go? && LogLockFree(s.procs)
       case _ => op.Go?
  }

  predicate EndStands(f: Files, n: nat) {
    n == 0 || (n >= 16 && At(f.log, n - 8, Magic(Entry, RtEnv, End)))
  }

  /** A patch checks START and then reads both counters. */
  predicate RecReads(rec: seq<byte>) {
    At(rec, 0, Magic(Rec, RtEnv, Start)) && |rec| >= REC_NTASK + 8
  }

  function RowAtPos(f: Files, pos: nat): Row
    requires pos + ROW <= |f.log|
  {
    f.log[pos..pos + ROW]
  }

  /** Where a process goes next, given what it reads. A stage that holds a lock takes it on entry
      and gives it back on exit. */
  function NextProc(f: Files, q: Proc, op: Op): Proc {
    match q
    case Idle =>
      if op.StartAppend? then AppWait(op.row) else if op.StartPatch? then PatWait(op.id, op.a, op.b) else Idle
    case AppWait(row) => AppLocked(row)
    case AppLocked(row) => AppSized(row, |f.log|)
    case AppSized(row, n) => if EndStands(f, n) then AppChecked(row, n) else AppClosing
    case AppChecked(row, n) => AppClosing
    case AppClosing => Idle
    case PatWait(id, a, b) => PatRecLocked(id, a, b)
    case PatRecLocked(id, a, b) =>
      if id in f.recs && RecReads(f.recs[id]) then
        PatRecRead(id, a, b, AddU32(RowCounter(f.recs[id], REC_NTASK), a),
                   AddU32(RowCounter(f.recs[id], REC_NTASK + 4), b))
      else Idle
    case PatRecRead(id, a, b, nt, nb) => PatRecHalf(id, a, b, nb)
    case PatRecHalf(id, a, b, nb) => PatRecDone(id, a, b)
    case PatRecDone(id, a, b) => PatBetween(id, a, b)
    case PatBetween(id, a, b) => if Fails(f, q) then Idle else PatScan(id, a, b, 8)
    case PatScan(id, a, b, pos) =>
      if pos + ROW > |f.log| then Idle
      else
        var row := RowAtPos(f, pos);
        if RowId(row) == id then
          PatFound(id, a, b, pos, AddU32(RowCounter(row, ROW_NTASK), a), AddU32(RowCounter(row, ROW_NTBATCH), b))
        else PatScan(id, a, b, pos + ROW)
    case PatFound(id, a, b, pos, nt, nb) => PatHalf(id, a, b, pos, nb)
    case PatHalf(id, a, b, pos, nb) => PatLogDone
    case PatLogDone => Idle
  }

  /** The log is unreadable or has no row for the ID: the patch ends with the record changed. */
  predicate Fails(f: Files, q: Proc) {
    || (q.PatBetween? && !At(f.log, 0, Magic(Entry, RtEnv, Start)))
    || (q.PatScan? && q.pos + ROW > |f.log|)
  }

  /** What the step of a process writes. */
  function NextFiles(f: Files, q: Proc): Files {
    match q
    case AppChecked(row, n) =>
      var log := if n == 0 then Overwrite(f.log, 0, LogImage(RtEnv, [row]))
                 else if n >= 8 then Overwrite(f.log, n - 8, row + Magic(Entry, RtEnv, End))
                 else f.log;
      f.(log := log, written := f.written + [row], addT := f.addT + [0], addB := f.addB + [0])
    case PatRecRead(id, a, _, nt, _) =>
      if id !in f.recs then f
      else f.(recs := f.recs[id := Overwrite(f.recs[id], REC_NTASK, U32(nt))], recT := Inc(f.recT, id, a))
    case PatRecHalf(id, _, b, nb) =>
      if id !in f.recs then f
      else f.(recs := f.recs[id := Overwrite(f.recs[id], REC_NTASK + 4, U32(nb))], recB := Inc(f.recB, id, b))
    case PatFound(id, a, _, pos, nt, _) =>
      f.(log := Overwrite(f.log, pos + ROW_NTASK, U32(nt)), addT := IncAt(f.addT, pos, a))
    case PatHalf(id, _, b, pos, nb) =>
      f.(log := Overwrite(f.log, pos + ROW_NTBATCH, U32(nb)), addB := IncAt(f.addB, pos, b))
    case _ => f
  }

  /** The next state when process p moves. */
  function Step(s: State, p: nat, op: Op): State
    requires Enabled(s, p, op)
  {
    var q := s.procs[p];
    var t := State(NextFiles(s.files, q), s.procs[p := NextProc(s.files, q, op)], s.failT, s.failB);
    if Fails(s.files, q) then t.(failT := Inc(s.failT, q.id, q.a), failB := Inc(s.failB, q.id, q.b)) else t
  }

  /** History: the row at file position `pos` has been given n more. */
  function IncAt(adds: seq<nat>, pos: nat, n: nat): (r: seq<nat>)
    ensures |r| == |adds|
  {
    var i := (pos - 8) / ROW;
    if 0 <= i < |adds| then adds[i := adds[i] + n] else adds
  }

  // ---------------------------------------------------------------- the invariant

  /** A row with its counters set. */
  function WithCounters(row: Row, nt: u32, nb: u32): (r: Row)
  {
    Overwrite(Overwrite(row, ROW_NTASK, U32(nt)), ROW_NTBATCH, U32(nb))
  }

  function Total(base: u32, added: nat): u32 {
    (base + added) % TWO32
  }

  predicate Shaped(f: Files) {
    |f.written| == |f.addT| == |f.addB|
  }

  /** Row i as it must stand: as written, its counters grown by everything added to them. */
  function RowNow(f: Files, i: nat): Row
    requires Shaped(f) && i < |f.written|
  {
    var w := f.written[i];
    WithCounters(w, Total(RowCounter(w, ROW_NTASK), f.addT[i]), Total(RowCounter(w, ROW_NTBATCH), f.addB[i]))
  }

  function RowsNow(f: Files): (rows: seq<seq<byte>>)
    requires Shaped(f)
    ensures |rows| == |f.written| && RowsOf(rows, ROW)
    ensures forall i :: 0 <= i < |rows| ==> rows[i] == RowNow(f, i)
  {
    seq(|f.written|, i requires 0 <= i < |f.written| => RowNow(f, i))
  }

  predicate LogOk(f: Files) {
    && Shaped(f)
    && (f.log == LogImage(RtEnv, RowsNow(f)) || (f.log == [] && f.written == []))
  }

  function RecNow(base: seq<byte>, nt: u32, nb: u32): seq<byte> {
    Overwrite(Overwrite(base, REC_NTASK, U32(nt)), REC_NTASK + 4, U32(nb))
  }

  predicate RecOk(f: Files, id: u32)
    requires id in f.recs && id in f.recBase
  {
    var base := f.recBase[id];
    && RecReads(base)
    && f.recs[id] == RecNow(base, Total(RowCounter(base, REC_NTASK), Get(f.recT, id)),
                            Total(RowCounter(base, REC_NTASK + 4), Get(f.recB, id)))
  }

  predicate RecsOk(f: Files) {
    f.recs.Keys == f.recBase.Keys && forall id :: id in f.recs ==> RecOk(f, id)
  }

  /** No two processes hold the same lock. */
  predicate Exclusive(ps: seq<Proc>) {
    forall i, j :: 0 <= i < |ps| && 0 <= j < |ps| && i != j ==> Compatible(ps[i], ps[j])
  }

  predicate Compatible(q: Proc, r: Proc) {
    && !(q.HoldsFlock() && r.HoldsFlock()) && !(q.HoldsLogLock() && r.HoldsLogLock())
    && forall id: u32 :: !(q.HoldsRecLock(id) && r.HoldsRecLock(id))
  }

  /** File position of row k. */
  function RowPos(k: nat): nat {
    8 + k * ROW
  }

  /** A scan for `id` has passed the rows in front of `pos` without finding it. */
  predicate Passed(f: Files, id: u32, pos: nat) {
    exists k: nat :: k <= |f.written| && pos == RowPos(k) && forall j :: 0 <= j < k ==> RowId(f.written[j]) != id
  }

  /** `pos` is the position of the first row with the ID. */
  predicate Hit(f: Files, id: u32, pos: nat) {
    match Find(f.written, id)
    case None => false
    case Some(k) => k < |f.written| && pos == RowPos(k)
  }

  function HitRow(f: Files, id: u32, pos: nat): Row
    requires Shaped(f) && Hit(f, id, pos)
  {
    RowNow(f, Find(f.written, id).value)
  }

  /** What a process remembers agrees with the files it remembers it from. */
  predicate ProcOk(f: Files, q: Proc) {
    Shaped(f) &&
    match q
    case AppSized(_, n) => n == |f.log|
    case AppChecked(_, n) => n == |f.log|
    case PatWait(id, _, _) => id in f.recs
    case PatRecLocked(id, _, _) => id in f.recs
    case PatRecRead(id, a, b, nt, nb) =>
      && id in f.recs && |f.recs[id]| >= REC_NTASK + 8
      && nt == AddU32(RowCounter(f.recs[id], REC_NTASK), a)
      && nb == AddU32(RowCounter(f.recs[id], REC_NTASK + 4), b)
    case PatRecHalf(id, a, b, nb) =>
      && id in f.recs && |f.recs[id]| >= REC_NTASK + 8
      && nb == AddU32(RowCounter(f.recs[id], REC_NTASK + 4), b)
    case PatScan(id, _, _, pos) => Passed(f, id, pos)
    case PatFound(id, a, b, pos, nt, nb) =>
      && Hit(f, id, pos)
      && nt == AddU32(RowCounter(HitRow(f, id, pos), ROW_NTASK), a)
      && nb == AddU32(RowCounter(HitRow(f, id, pos), ROW_NTBATCH), b)
    case PatHalf(id, a, b, pos, nb) =>
      Hit(f, id, pos) && nb == AddU32(RowCounter(HitRow(f, id, pos), ROW_NTBATCH), b)
    case _ => true
  }

  function OwedT(ps: seq<Proc>, id: u32): nat {
    if ps == [] then 0 else ps[0].OwedTasks(id) + OwedT(ps[1..], id)
  }

  function OwedB(ps: seq<Proc>, id: u32): nat {
    if ps == [] then 0 else ps[0].OwedBatches(id) + OwedB(ps[1..], id)
  }

  /** Total added to a counter of the log row that patches of `id` reach. */
  function Reached(adds: seq<nat>, written: seq<Row>, id: u32): nat {
    match Find(written, id)
    case None => 0
    case Some(k) => if k < |adds| then adds[k] else 0
  }

  /** Everything added to a record counter has reached the log, is on its way, or was lost to a
      patch that did not find its row. */
  predicate Balanced(s: State, id: u32) {
    && Get(s.files.recT, id) == Reached(s.files.addT, s.files.written, id) + OwedT(s.procs, id) + Get(s.failT, id)
    && Get(s.files.recB, id) == Reached(s.files.addB, s.files.written, id) + OwedB(s.procs, id) + Get(s.failB, id)
  }

  predicate Inv(s: State) {
    && LogOk(s.files) && RecsOk(s.files) && Exclusive(s.procs)
    && (forall p :: 0 <= p < |s.procs| ==> ProcOk(s.files, s.procs[p]))
    && (forall id :: Balanced(s, id))
  }

  // ---------------------------------------------------------------- locks

  /** A move takes a lock only when no other process holds it. */
  lemma TakesFree(s: State, p: nat, op: Op, r: nat)
    requires Enabled(s, p, op) && r < |s.procs| && r != p && Compatible(s.procs[p], s.procs[r])
    requires ProcOk(s.files, s.procs[p])
    ensures Compatible(NextProc(s.files, s.procs[p], op), s.procs[r])
  {
    hide At;
    hide RowId;
    hide RowCounter;
    hide Passed;
    hide Hit;
    hide RowNow;
    hide EndStands;
    hide Fails;
  }

  lemma ExclusiveStep(s: State, p: nat, op: Op)
    requires Enabled(s, p, op) && Exclusive(s.procs) && ProcOk(s.files, s.procs[p])
    ensures Exclusive(Step(s, p, op).procs)
  {
    hide Compatible;
    hide NextProc;
    hide NextFiles;
    hide Fails;
    var q := NextProc(s.files, s.procs[p], op);
    var ps' := s.procs[p := q];
    forall i, j | 0 <= i < |ps'| && 0 <= j < |ps'| && i != j
      ensures Compatible(ps'[i], ps'[j])
    {
      if i == p {
        TakesFree(s, p, op, j);
      } else if j == p {
        TakesFree(s, p, op, i);
        CompatibleSwap(q, s.procs[i]);
      }
    }
  }

  lemma CompatibleSwap(q: Proc, r: Proc)
    requires Compatible(q, r)
    ensures Compatible(r, q)
  {
  }

  // ---------------------------------------------------------------- rows and counters

  lemma WithCountersFields(w: Row, x: u32, y: u32)
    ensures var r := WithCounters(w, x, y);
            RowCounter(r, ROW_NTASK) == x && RowCounter(r, ROW_NTBATCH) == y && RowId(r) == RowId(w)
  {
    hide U32;
    var r := WithCounters(w, x, y);
    assert r[ROW_NTASK..ROW_NTASK + 4] == U32(x);
    assert r[ROW_NTBATCH..ROW_NTBATCH + 4] == U32(y);
    assert r[0..4] == w[0..4];
  }

  lemma WithOwnCounters(w: Row)
    ensures WithCounters(w, RowCounter(w, ROW_NTASK), RowCounter(w, ROW_NTBATCH)) == w
  {
    hide U32;
    OverwriteSame(w, ROW_NTASK, 4);
    OverwriteSame(w, ROW_NTBATCH, 4);
  }

  lemma OverwriteSame(f: seq<byte>, o: nat, n: nat)
    requires o + n <= |f|
    ensures Overwrite(f, o, f[o..o + n]) == f
  {
  }

  lemma OverwriteTwice(f: seq<byte>, o: nat, s: seq<byte>, t: seq<byte>)
    requires |s| == |t| && o + |s| <= |f|
    ensures Overwrite(Overwrite(f, o, s), o, t) == Overwrite(f, o, t)
  {
  }

  lemma OverwriteSwap(f: seq<byte>, o: nat, s: seq<byte>, p: nat, t: seq<byte>)
    requires o + |s| <= p && p + |t| <= |f|
    ensures Overwrite(Overwrite(f, o, s), p, t) == Overwrite(Overwrite(f, p, t), o, s)
  {
    var g, h := f[..p], f[p..];
    assert f == g + h && p == |g| + 0;
    hide Overwrite;
    OverwriteLeft(g, h, o, s);
    OverwriteRight(Overwrite(g, o, s), h, 0, t);
    OverwriteRight(g, h, 0, t);
    OverwriteLeft(g, Overwrite(h, 0, t), o, s);
  }

  lemma OverwriteAfter(f: seq<byte>, o: nat, s: seq<byte>, p: nat, n: nat)
    requires o + |s| <= p && p + n <= |f|
    ensures |Overwrite(f, o, s)| == |f| && Overwrite(f, o, s)[p..p + n] == f[p..p + n]
  {
  }

  lemma SetTasks(w: Row, x: u32, y: u32, z: u32)
    ensures Overwrite(WithCounters(w, x, y), ROW_NTASK, U32(z)) == WithCounters(w, z, y)
  {
    hide U32;
    hide Overwrite;
    var w1 := Overwrite(w, ROW_NTASK, U32(x));
    OverwriteSwap(w1, ROW_NTASK, U32(z), ROW_NTBATCH, U32(y));
    OverwriteTwice(w, ROW_NTASK, U32(x), U32(z));
  }

  lemma SetBatches(w: Row, x: u32, y: u32, z: u32)
    ensures Overwrite(WithCounters(w, x, y), ROW_NTBATCH, U32(z)) == WithCounters(w, x, z)
  {
    hide U32;
    OverwriteTwice(Overwrite(w, ROW_NTASK, U32(x)), ROW_NTBATCH, U32(y), U32(z));
  }

  lemma TotalAdd(base: u32, t: nat, a: u32)
    ensures AddU32(Total(base, t), a) == Total(base, t + a)
  {
  }

  lemma RowNowFields(f: Files, i: nat)
    requires Shaped(f) && i < |f.written|
    ensures RowCounter(RowNow(f, i), ROW_NTASK) == Total(RowCounter(f.written[i], ROW_NTASK), f.addT[i])
    ensures RowCounter(RowNow(f, i), ROW_NTBATCH) == Total(RowCounter(f.written[i], ROW_NTBATCH), f.addB[i])
    ensures RowId(RowNow(f, i)) == RowId(f.written[i])
  {
    hide WithCounters;
    var w := f.written[i];
    WithCountersFields(w, Total(RowCounter(w, ROW_NTASK), f.addT[i]), Total(RowCounter(w, ROW_NTBATCH), f.addB[i]));
  }

  lemma {:induction false} FindAppend(rows: seq<seq<byte>>, row: Row, id: u32)
    requires RowsOf(rows, ROW)
    ensures Find(rows + [row], id) == if Find(rows, id).Some? then Find(rows, id)
                                      else if RowId(row) == id then Some(|rows|) else None
  {
    if rows == [] {
      assert rows + [row] == [row];
    } else {
      assert (rows + [row])[1..] == rows[1..] + [row];
      FindAppend(rows[1..], row, id);
    }
  }

  lemma {:induction false} FindIs(rows: seq<seq<byte>>, id: u32, k: nat)
    requires RowsOf(rows, ROW) && k < |rows| && RowId(rows[k]) == id
    requires forall j :: 0 <= j < k ==> RowId(rows[j]) != id
    ensures Find(rows, id) == Some(k)
  {
    if k > 0 {
      FindIs(rows[1..], id, k - 1);
    }
  }

  lemma RowPosIndex(k: nat)
    ensures (RowPos(k) - 8) / ROW == k
  {
  }

  // ---------------------------------------------------------------- the log

  lemma LogLen(f: Files)
    requires LogOk(f)
    ensures |f.log| == if f.log == [] then 0 else 16 + ROW * |f.written|
  {
    if f.log != [] {
      RowsLen(RowsNow(f), ROW);
    }
  }

  /** The row at a row position in the log is the row as it must stand. */
  lemma LogRow(f: Files, k: nat)
    requires LogOk(f) && RowPos(k) + ROW <= |f.log|
    ensures k < |f.written| && RowAtPos(f, RowPos(k)) == RowNow(f, k)
  {
    hide RowNow;
    LogLen(f);
    RowStands(f.log, RowsNow(f), k);
  }

  lemma AppendKeepsLog(f: Files, row: Row, n: nat)
    requires LogOk(f) && n == |f.log| && EndStands(f, n)
    ensures LogOk(NextFiles(f, AppChecked(row, n)))
  {
    var f' := NextFiles(f, AppChecked(row, n));
    RowsNowAppend(f, f', row);
    hide RowsNow;
    hide LogImage;
    hide EndStands;
    hide At;
    if n == 0 {
      FirstAppend(f.log, RowsNow(f), row);
    } else {
      LaterAppend(f.log, RowsNow(f), row);
    }
  }

  lemma FirstAppend(log: seq<byte>, rows: seq<seq<byte>>, row: Row)
    requires log == [] && (log == LogImage(RtEnv, rows) || rows == [])
    ensures Overwrite(log, 0, LogImage(RtEnv, [row])) == LogImage(RtEnv, rows + [row])
  {
    hide Flat;
    OverwriteWhole(log, LogImage(RtEnv, [row]));
    assert rows == [] && rows + [row] == [row];
  }

  lemma LaterAppend(log: seq<byte>, rows: seq<seq<byte>>, row: Row)
    requires log == LogImage(RtEnv, rows)
    ensures |log| >= 16
    ensures Overwrite(log, |log| - 8, row + Magic(Entry, RtEnv, End)) == LogImage(RtEnv, rows + [row])
  {
    var e := Magic(Entry, RtEnv, End);
    EntryLog.AppendRefines(RtEnv, rows, row);
    LogParts(log, RtEnv, rows);
    hide LogImage;
    hide Magic;
    hide At;
    GrowOverEndOnce(log, row + e);
    assert log[..|log| - 8] + (row + e) == log[..|log| - 8] + row + e;
  }

  lemma GrowOverEndOnce(f: seq<byte>, s: seq<byte>)
    requires |f| >= 8 && |s| >= 8
    ensures Overwrite(f, |f| - 8, s) == f[..|f| - 8] + s
  {
  }

  lemma RowsNowAppend(f: Files, f': Files, row: Row)
    requires Shaped(f) && f'.written == f.written + [row] && f'.addT == f.addT + [0] && f'.addB == f.addB + [0]
    ensures RowsNow(f') == RowsNow(f) + [row]
  {
    hide WithCounters;
    WithOwnCounters(row);
    assert RowNow(f', |f.written|) == row;
    forall i | 0 <= i < |f.written|
      ensures RowNow(f', i) == RowNow(f, i)
    {
    }
  }

  lemma TasksKeepLog(f: Files, q: Proc)
    requires LogOk(f) && q.PatFound? && ProcOk(f, q)
    ensures LogOk(NextFiles(f, q)) && NextFiles(f, q).written == f.written
    ensures var k := Find(f.written, q.id).value;
            NextFiles(f, q).addT == f.addT[k := f.addT[k] + q.a] && NextFiles(f, q).addB == f.addB
  {
    hide U32;
    hide LogImage;
    var k := Find(f.written, q.id).value;
    var w, f' := f.written[k], NextFiles(f, q);
    RowPosIndex(k);
    RowNowFields(f, k);
    TotalAdd(RowCounter(w, ROW_NTASK), f.addT[k], q.a);
    var x, y := Total(RowCounter(w, ROW_NTASK), f.addT[k]), Total(RowCounter(w, ROW_NTBATCH), f.addB[k]);
    SetTasks(w, x, y, q.nt);
    hide WithCounters;
    hide Overwrite;
    PatchRow(RtEnv, RowsNow(f), ROW, k, ROW_NTASK, U32(q.nt));
    assert RowNow(f', k) == Overwrite(RowNow(f, k), ROW_NTASK, U32(q.nt));
    assert RowsNow(f') == RowsNow(f)[k := RowNow(f', k)];
  }

  lemma BatchesKeepLog(f: Files, q: Proc)
    requires LogOk(f) && q.PatHalf? && ProcOk(f, q)
    ensures LogOk(NextFiles(f, q)) && NextFiles(f, q).written == f.written
    ensures var k := Find(f.written, q.id).value;
            NextFiles(f, q).addB == f.addB[k := f.addB[k] + q.b] && NextFiles(f, q).addT == f.addT
  {
    hide U32;
    hide LogImage;
    var k := Find(f.written, q.id).value;
    var w, f' := f.written[k], NextFiles(f, q);
    RowPosIndex(k);
    RowNowFields(f, k);
    TotalAdd(RowCounter(w, ROW_NTBATCH), f.addB[k], q.b);
    var x, y := Total(RowCounter(w, ROW_NTASK), f.addT[k]), Total(RowCounter(w, ROW_NTBATCH), f.addB[k]);
    SetBatches(w, x, y, q.nb);
    hide WithCounters;
    hide Overwrite;
    PatchRow(RtEnv, RowsNow(f), ROW, k, ROW_NTBATCH, U32(q.nb));
    assert RowNow(f', k) == Overwrite(RowNow(f, k), ROW_NTBATCH, U32(q.nb));
    assert RowsNow(f') == RowsNow(f)[k := RowNow(f', k)];
  }

  lemma EndAlwaysStands(f: Files)
    requires LogOk(f)
    ensures EndStands(f, |f.log|)
  {
    hide Magic;
    hide Flat;
    if f.log != [] {
      LogParts(f.log, RtEnv, RowsNow(f));
    }
  }

  lemma LogStep(f: Files, q: Proc)
    requires LogOk(f) && ProcOk(f, q)
    ensures LogOk(NextFiles(f, q))
  {
    match q
    case AppChecked(row, n) =>
      EndAlwaysStands(f);
      AppendKeepsLog(f, row, n);
    case PatFound(_, _, _, _, _, _) => TasksKeepLog(f, q);
    case PatHalf(_, _, _, _, _) => BatchesKeepLog(f, q);
    case _ => OtherKeepsLog(f, q);
  }

  /** Steps that do not write to the log leave everything the log invariant speaks about alone. */
  lemma OtherKeepsLog(f: Files, q: Proc)
    requires !q.AppChecked? && !q.PatFound? && !q.PatHalf?
    ensures var f' := NextFiles(f, q);
            f'.log == f.log && f'.written == f.written && f'.addT == f.addT && f'.addB == f.addB
    ensures LogOk(f) ==> LogOk(NextFiles(f, q))
  {
    hide LogImage;
    hide Overwrite;
    hide RowNow;
    if Shaped(f) {
      assert RowsNow(NextFiles(f, q)) == RowsNow(f) by {
        assert forall i :: 0 <= i < |f.written| ==> RowNow(NextFiles(f, q), i) == RowNow(f, i) by {
          forall i | 0 <= i < |f.written|
            ensures RowNow(NextFiles(f, q), i) == RowNow(f, i)
          {
            SameRow(f, NextFiles(f, q), i);
          }
        }
      }
    }
  }

  lemma SameRow(f: Files, f': Files, i: nat)
    requires Shaped(f) && i < |f.written| && f'.written == f.written && f'.addT == f.addT && f'.addB == f.addB
    ensures RowNow(f', i) == RowNow(f, i)
  {
  }

  // ---------------------------------------------------------------- the record files

  lemma RecCounters(base: seq<byte>, x: u32, y: u32)
    requires |base| >= REC_NTASK + 8
    ensures var r := RecNow(base, x, y);
            |r| == |base| && RowCounter(r, REC_NTASK) == x && RowCounter(r, REC_NTASK + 4) == y
  {
    hide U32;
    var r := RecNow(base, x, y);
    assert r[REC_NTASK..REC_NTASK + 4] == U32(x);
    assert r[REC_NTASK + 4..REC_NTASK + 8] == U32(y);
  }

  lemma RecSet(base: seq<byte>, x: u32, y: u32, z: u32)
    requires |base| >= REC_NTASK + 8
    ensures Overwrite(RecNow(base, x, y), REC_NTASK, U32(z)) == RecNow(base, z, y)
    ensures Overwrite(RecNow(base, x, y), REC_NTASK + 4, U32(z)) == RecNow(base, x, z)
  {
    hide U32;
    hide Overwrite;
    var b1 := Overwrite(base, REC_NTASK, U32(x));
    OverwriteSwap(b1, REC_NTASK, U32(z), REC_NTASK + 4, U32(y));
    OverwriteTwice(base, REC_NTASK, U32(x), U32(z));
    OverwriteTwice(b1, REC_NTASK + 4, U32(y), U32(z));
  }

  lemma RecsStep(f: Files, q: Proc)
    requires RecsOk(f) && ProcOk(f, q)
    ensures RecsOk(NextFiles(f, q)) && NextFiles(f, q).recBase == f.recBase
  {
    hide RecsOk;
    hide ProcOk;
    match q
    case PatRecRead(id, a, _, nt, _) => RecTasksStep(f, q);
    case PatRecHalf(id, _, b, nb) => RecBatchesStep(f, q);
    case _ => RecsUntouched(f, q);
  }

  lemma RecsUntouched(f: Files, q: Proc)
    requires RecsOk(f) && !q.PatRecRead? && !q.PatRecHalf?
    ensures RecsOk(NextFiles(f, q)) && NextFiles(f, q).recBase == f.recBase
  {
    hide RecNow;
    hide RecReads;
    hide Total;
    hide RowCounter;
    var f' := NextFiles(f, q);
    RecsSame(f, q);
    hide NextFiles;
    forall i | i in f'.recs
      ensures RecOk(f', i)
    {
      assert RecOk(f, i);
    }
  }

  lemma RecsSame(f: Files, q: Proc)
    requires !q.PatRecRead? && !q.PatRecHalf?
    ensures var f' := NextFiles(f, q);
            f'.recs == f.recs && f'.recBase == f.recBase && f'.recT == f.recT && f'.recB == f.recB
  {
    hide U32;
    hide LogImage;
    hide Magic;
    hide Overwrite;
    hide IncAt;
  }

  lemma RecTasksStep(f: Files, q: Proc)
    requires RecsOk(f) && ProcOk(f, q) && q.PatRecRead?
    ensures RecsOk(NextFiles(f, q)) && NextFiles(f, q).recBase == f.recBase
  {
    hide ProcOk;
    hide RecOk;
    hide Overwrite;
    hide U32;
    var f' := NextFiles(f, q);
    forall i | i in f'.recs
      ensures RecOk(f', i)
    {
      assert RecOk(f, i);
      if i == q.id {
        RecTasksOk(f, q);
      } else {
        RecOtherOk(f, q, i);
      }
    }
  }

  lemma RecTasksOk(f: Files, q: Proc)
    requires ProcOk(f, q) && q.PatRecRead? && q.id in f.recs && q.id in f.recBase && RecOk(f, q.id)
    ensures q.id in NextFiles(f, q).recs && RecOk(NextFiles(f, q), q.id)
  {
    hide U32;
    hide Overwrite;
    hide RowCounter;
    var base := f.recBase[q.id];
    var x := Total(RowCounter(base, REC_NTASK), Get(f.recT, q.id));
    var y := Total(RowCounter(base, REC_NTASK + 4), Get(f.recB, q.id));
    RecCounters(base, x, y);
    TotalAdd(RowCounter(base, REC_NTASK), Get(f.recT, q.id), q.a);
    RecSet(base, x, y, q.nt);
    hide RecNow;
    hide Total;
    hide AddU32;
  }

  lemma RecBatchesStep(f: Files, q: Proc)
    requires RecsOk(f) && ProcOk(f, q) && q.PatRecHalf?
    ensures RecsOk(NextFiles(f, q)) && NextFiles(f, q).recBase == f.recBase
  {
    hide ProcOk;
    hide RecOk;
    hide Overwrite;
    hide U32;
    var f' := NextFiles(f, q);
    forall i | i in f'.recs
      ensures RecOk(f', i)
    {
      assert RecOk(f, i);
      if i == q.id {
        RecBatchesOk(f, q);
      } else {
        RecOtherOk(f, q, i);
      }
    }
  }

  lemma RecBatchesOk(f: Files, q: Proc)
    requires ProcOk(f, q) && q.PatRecHalf? && q.id in f.recs && q.id in f.recBase && RecOk(f, q.id)
    ensures q.id in NextFiles(f, q).recs && RecOk(NextFiles(f, q), q.id)
  {
    hide U32;
    hide Overwrite;
    hide RowCounter;
    var base := f.recBase[q.id];
    var x := Total(RowCounter(base, REC_NTASK), Get(f.recT, q.id));
    var y := Total(RowCounter(base, REC_NTASK + 4), Get(f.recB, q.id));
    RecCounters(base, x, y);
    TotalAdd(RowCounter(base, REC_NTASK + 4), Get(f.recB, q.id), q.b);
    RecSet(base, x, y, q.nb);
    hide RecNow;
    hide Total;
    hide AddU32;
  }

  lemma RecOtherOk(f: Files, q: Proc, i: u32)
    requires i in f.recs && i in f.recBase && RecOk(f, i)
    requires (q.PatRecRead? || q.PatRecHalf?) && q.id != i
    ensures RecOk(NextFiles(f, q), i)
  {
    hide U32;
    hide Overwrite;
    hide RecNow;
    hide RowCounter;
    hide Total;
  }

  // ---------------------------------------------------------------- what processes remember

  /** The process that moves knows in its new stage what that stage assumes. */
  lemma MoverStep(f: Files, q: Proc, op: Op)
    requires LogOk(f) && RecsOk(f) && ProcOk(f, q)
    requires q.Idle? && op.StartPatch? ==> op.id in f.recs
    ensures ProcOk(NextFiles(f, q), NextProc(f, q, op))
  {
    hide LogOk;
    hide RecsOk;
    hide NextFiles;
    match q
    case PatRecRead(_, _, _, _, _) => RecReadMoves(f, q, op);
    case PatBetween(id, _, _) => ScanStarts(f, q, op);
    case PatScan(_, _, _, _) => ScanMoves(f, q, op);
    case PatFound(_, _, _, _, _, _) => FoundMoves(f, q, op);
    case AppChecked(row, n) => EasyMoves(f, q, op);
    case PatRecHalf(_, _, _, _) => EasyMoves(f, q, op);
    case PatHalf(_, _, _, _, _) => EasyMoves(f, q, op);
    case _ => PlainMoves(f, q, op);
  }

  lemma EasyMoves(f: Files, q: Proc, op: Op)
    requires Shaped(f) && (q.AppChecked? || q.PatRecHalf? || q.PatHalf?)
    ensures ProcOk(NextFiles(f, q), NextProc(f, q, op))
  {
    hide U32;
    hide Overwrite;
  }

  lemma PlainMoves(f: Files, q: Proc, op: Op)
    requires Shaped(f) && ProcOk(f, q)
    requires !q.AppChecked? && !q.PatRecRead? && !q.PatRecHalf? && !q.PatBetween? && !q.PatScan?
             && !q.PatFound? && !q.PatHalf?
    requires q.Idle? && op.StartPatch? ==> op.id in f.recs
    ensures ProcOk(NextFiles(f, q), NextProc(f, q, op))
  {
    hide U32;
    hide At;
    hide Overwrite;
    hide RowNow;
  }

  lemma RecReadMoves(f: Files, q: Proc, op: Op)
    requires q.PatRecRead? && ProcOk(f, q) && Shaped(f)
    ensures ProcOk(NextFiles(f, q), NextProc(f, q, op))
  {
    hide U32;
    var r := f.recs[q.id];
    var r' := Overwrite(r, REC_NTASK, U32(q.nt));
    OverwriteAfter(r, REC_NTASK, U32(q.nt), REC_NTASK + 4, 4);
    hide Overwrite;
  }

  lemma ScanStarts(f: Files, q: Proc, op: Op)
    requires q.PatBetween? && Shaped(f)
    ensures ProcOk(NextFiles(f, q), NextProc(f, q, op))
  {
    hide At;
    hide Magic;
    assert Passed(f, q.id, 8) by {
      assert 8 == RowPos(0);
    }
  }

  lemma ScanMoves(f: Files, q: Proc, op: Op)
    requires q.PatScan? && ProcOk(f, q) && LogOk(f)
    ensures ProcOk(NextFiles(f, q), NextProc(f, q, op))
  {
    hide LogImage;
    hide RowNow;
    hide RowId;
    if q.pos + ROW <= |f.log| {
      var k: nat :| k <= |f.written| && q.pos == RowPos(k) && forall j :: 0 <= j < k ==> RowId(f.written[j]) != q.id;
      LogRow(f, k);
      RowNowFields(f, k);
      if RowId(RowAtPos(f, q.pos)) == q.id {
        FindIs(f.written, q.id, k);
        assert Hit(f, q.id, q.pos);
      } else {
        assert RowPos(k + 1) == q.pos + ROW;
        assert Passed(f, q.id, q.pos + ROW);
      }
    }
  }

  lemma FoundMoves(f: Files, q: Proc, op: Op)
    requires q.PatFound? && ProcOk(f, q) && LogOk(f)
    ensures ProcOk(NextFiles(f, q), NextProc(f, q, op))
  {
    hide U32;
    hide LogImage;
    hide Overwrite;
    TasksKeepLog(f, q);
    var k, f' := Find(f.written, q.id).value, NextFiles(f, q);
    RowNowFields(f, k);
    RowNowFields(f', k);
    hide RowNow;
    hide RowId;
  }

  /** A process that is not moving still knows what it knew. */
  lemma OtherStep(f: Files, q: Proc, r: Proc)
    requires LogOk(f) && ProcOk(f, q) && ProcOk(f, r) && Compatible(q, r)
    ensures ProcOk(NextFiles(f, q), r)
  {
    hide LogOk;
    hide ProcOk;
    hide Compatible;
    hide NextFiles;
    ShapedOfLog(f);
    match q
    case AppChecked(row, n) => AppendLeaves(f, q, r);
    case PatRecRead(id, _, _, _, _) => RecWriteLeaves(f, q, r);
    case PatRecHalf(id, _, _, _) => RecWriteLeaves(f, q, r);
    case PatFound(_, _, _, _, _, _) => LogWriteLeaves(f, q, r);
    case PatHalf(_, _, _, _, _) => LogWriteLeaves(f, q, r);
    case _ => ReadsLeave(f, q);
  }

  lemma ShapedOfLog(f: Files)
    requires LogOk(f)
    ensures Shaped(f)
  {
  }

  lemma ReadsLeave(f: Files, q: Proc)
    requires !q.AppChecked? && !q.PatRecRead? && !q.PatRecHalf? && !q.PatFound? && !q.PatHalf?
    ensures NextFiles(f, q) == f
  {
  }

  lemma RecWriteLeaves(f: Files, q: Proc, r: Proc)
    requires Shaped(f) && ProcOk(f, r) && Compatible(q, r) && (q.PatRecRead? || q.PatRecHalf?)
    ensures ProcOk(NextFiles(f, q), r)
  {
    hide U32;
    hide Overwrite;
    hide RowId;
    hide RowCounter;
    var f' := NextFiles(f, q);
    assert q.HoldsRecLock(q.id);
    if r.PatRecRead? || r.PatRecHalf? {
      assert r.HoldsRecLock(r.id);
    } else if r.PatFound? || r.PatHalf? {
      SameRow(f, f', Find(f.written, r.id).value);
    }
    hide RowNow;
  }

  lemma LogWriteLeaves(f: Files, q: Proc, r: Proc)
    requires LogOk(f) && ProcOk(f, q) && ProcOk(f, r) && Compatible(q, r) && (q.PatFound? || q.PatHalf?)
    ensures ProcOk(NextFiles(f, q), r)
  {
    hide U32;
    hide LogImage;
    hide RowId;
    hide RowCounter;
    hide RowNow;
    LogLen(f);
    PosInside(f, q);
    hide RowPos;
  }

  lemma PosInside(f: Files, q: Proc)
    requires LogOk(f) && ProcOk(f, q) && (q.PatFound? || q.PatHalf?)
    ensures q.pos + ROW <= |f.log|
  {
    hide LogImage;
    LogLen(f);
    EmptyLogNoRows(f);
    RowPosFits(Find(f.written, q.id).value, |f.written|);
  }

  lemma EmptyLogNoRows(f: Files)
    requires LogOk(f)
    ensures f.log == [] ==> f.written == []
  {
  }

  lemma RowPosFits(k: nat, n: nat)
    requires k < n
    ensures RowPos(k) + ROW <= 8 + ROW * n
  {
  }

  lemma AppendLeaves(f: Files, q: Proc, r: Proc)
    requires LogOk(f) && ProcOk(f, r) && Compatible(q, r) && q.AppChecked?
    ensures ProcOk(NextFiles(f, q), r)
  {
    hide LogImage;
    hide Overwrite;
    hide RowId;
    hide RowCounter;
    var f' := NextFiles(f, q);
    match r
    case PatScan(id, _, _, pos) =>
      var k: nat :| k <= |f.written| && pos == RowPos(k) && forall j :: 0 <= j < k ==> RowId(f.written[j]) != id;
      assert forall j :: 0 <= j < k ==> f'.written[j] == f.written[j];
      assert Passed(f', id, pos);
    case PatFound(id, _, _, _, _, _) =>
      FindAppend(f.written, q.row, id);
      assert RowNow(f', Find(f.written, id).value) == RowNow(f, Find(f.written, id).value);
    case PatHalf(id, _, _, _, _) =>
      FindAppend(f.written, q.row, id);
      assert RowNow(f', Find(f.written, id).value) == RowNow(f, Find(f.written, id).value);
    case _ =>
  }

  // ---------------------------------------------------------------- the balance of every counter

  lemma {:induction false} OwedSet(ps: seq<Proc>, p: nat, q: Proc, id: u32)
    requires p < |ps|
    ensures OwedT(ps[p := q], id) + ps[p].OwedTasks(id) == OwedT(ps, id) + q.OwedTasks(id)
    ensures OwedB(ps[p := q], id) + ps[p].OwedBatches(id) == OwedB(ps, id) + q.OwedBatches(id)
    decreases ps
  {
    hide Proc.OwedTasks;
    hide Proc.OwedBatches;
    if p == 0 {
      assert ps[0 := q][1..] == ps[1..];
    } else {
      OwedSet(ps[1..], p - 1, q, id);
      assert ps[p := q][1..] == ps[1..][p - 1 := q];
    }
  }

  /** What a step adds to the counters of `id`: tasks and batches, in the record and in the log. */
  function RecTasks(q: Proc, id: u32): nat {
    if q.PatRecRead? && q.id == id then q.a else 0
  }

  function RecBatches(q: Proc, id: u32): nat {
    if q.PatRecHalf? && q.id == id then q.b else 0
  }

  function LogTasks(q: Proc, id: u32): nat {
    if q.PatFound? && q.id == id then q.a else 0
  }

  function LogBatches(q: Proc, id: u32): nat {
    if q.PatHalf? && q.id == id then q.b else 0
  }

  /** What a failing step leaves behind. */
  function LeftTasks(f: Files, q: Proc, id: u32): nat {
    if Fails(f, q) && q.id == id then q.a else 0
  }

  function LeftBatches(f: Files, q: Proc, id: u32): nat {
    if Fails(f, q) && q.id == id then q.b else 0
  }

  /** What a process owes changes by what it adds to a record, adds to the log, or leaves behind. */
  lemma OwedMoves(f: Files, q: Proc, op: Op, id: u32)
    requires ProcOk(f, q)
    ensures var q' := NextProc(f, q, op);
            && q'.OwedTasks(id) + LogTasks(q, id) + LeftTasks(f, q, id)
               == q.OwedTasks(id) + RecTasks(q, id)
            && q'.OwedBatches(id) + LogBatches(q, id) + LeftBatches(f, q, id)
               == q.OwedBatches(id) + RecBatches(q, id)
  {
    hide At;
    hide U32;
    hide RowId;
    hide RowCounter;
    hide EndStands;
    hide Passed;
    hide Hit;
    hide RowNow;
  }

  /** Record totals grow when a record counter is written. */
  lemma RecTotalsMove(f: Files, q: Proc, id: u32)
    requires ProcOk(f, q)
    ensures Get(NextFiles(f, q).recT, id) == Get(f.recT, id) + RecTasks(q, id)
    ensures Get(NextFiles(f, q).recB, id) == Get(f.recB, id) + RecBatches(q, id)
  {
    hide U32;
    hide Overwrite;
    hide LogImage;
    hide RowCounter;
    hide RowNow;
    hide Hit;
    hide IncAt;
  }

  lemma ReachedAppend(adds: seq<nat>, written: seq<Row>, row: Row, id: u32)
    requires |adds| == |written|
    ensures Reached(adds + [0], written + [row], id) == Reached(adds, written, id)
  {
    FindAppend(written, row, id);
    FindFirst(written, id);
  }

  lemma ReachedSet(adds: seq<nat>, written: seq<Row>, k: nat, id: u32, n: nat, i: u32)
    requires |adds| == |written| && Find(written, id) == Some(k) && k < |written|
    ensures Reached(adds[k := adds[k] + n], written, i) == Reached(adds, written, i) + (if id == i then n else 0)
  {
    FindFirst(written, id);
    FindFirst(written, i);
  }

  /** Log totals grow when a log counter is written. */
  lemma LogTotalsMove(f: Files, q: Proc, id: u32)
    requires LogOk(f) && ProcOk(f, q)
    ensures var f' := NextFiles(f, q);
            && Reached(f'.addT, f'.written, id) == Reached(f.addT, f.written, id) + LogTasks(q, id)
            && Reached(f'.addB, f'.written, id) == Reached(f.addB, f.written, id) + LogBatches(q, id)
  {
    hide LogOk;
    hide Reached;
    hide Overwrite;
    hide U32;
    hide LogImage;
    hide RowNow;
    hide RowId;
    hide RowCounter;
    ShapedOfLog(f);
    match q
    case AppChecked(row, n) =>
      ReachedAppend(f.addT, f.written, row, id);
      ReachedAppend(f.addB, f.written, row, id);
    case PatFound(_, _, _, _, _, _) =>
      TasksKeepLog(f, q);
      ReachedSet(f.addT, f.written, Find(f.written, q.id).value, q.id, q.a, id);
    case PatHalf(_, _, _, _, _) =>
      BatchesKeepLog(f, q);
      ReachedSet(f.addB, f.written, Find(f.written, q.id).value, q.id, q.b, id);
    case _ =>
      OtherKeepsLog(f, q);
  }

  lemma StepParts(s: State, p: nat, op: Op)
    requires Enabled(s, p, op)
    ensures Step(s, p, op).files == NextFiles(s.files, s.procs[p])
    ensures Step(s, p, op).procs == s.procs[p := NextProc(s.files, s.procs[p], op)]
  {
    hide NextFiles;
    hide NextProc;
    hide Fails;
  }

  lemma FailTotalsMove(s: State, p: nat, op: Op, id: u32)
    requires Enabled(s, p, op)
    ensures Get(Step(s, p, op).failT, id) == Get(s.failT, id) + LeftTasks(s.files, s.procs[p], id)
    ensures Get(Step(s, p, op).failB, id) == Get(s.failB, id) + LeftBatches(s.files, s.procs[p], id)
  {
    hide NextFiles;
    hide NextProc;
    hide At;
  }

  lemma BalanceStep(s: State, p: nat, op: Op, id: u32)
    requires Enabled(s, p, op) && LogOk(s.files) && ProcOk(s.files, s.procs[p]) && Balanced(s, id)
    ensures Balanced(Step(s, p, op), id)
  {
    hide Step;
    hide NextFiles;
    hide NextProc;
    hide Reached;
    hide LogOk;
    hide ProcOk;
    hide OwedT;
    hide OwedB;
    hide Get;
    hide RecTasks;
    hide RecBatches;
    hide LogTasks;
    hide LogBatches;
    hide LeftTasks;
    hide LeftBatches;
    hide Proc.OwedTasks;
    hide Proc.OwedBatches;
    var f, q := s.files, s.procs[p];
    StepParts(s, p, op);
    OwedSet(s.procs, p, NextProc(f, q, op), id);
    OwedMoves(f, q, op, id);
    RecTotalsMove(f, q, id);
    LogTotalsMove(f, q, id);
    FailTotalsMove(s, p, op, id);
  }

  // ---------------------------------------------------------------- every run

  lemma InvStep(s: State, p: nat, op: Op)
    requires Inv(s) && Enabled(s, p, op)
    ensures Inv(Step(s, p, op)) && Step(s, p, op).files.recBase == s.files.recBase
  {
    var f, q, s' := s.files, s.procs[p], Step(s, p, op);
    StepParts(s, p, op);
    StartsKnown(s, p, op);
    ExclusiveStep(s, p, op);
    hide Step;
    hide NextFiles;
    hide NextProc;
    hide LogOk;
    hide RecsOk;
    hide ProcOk;
    hide Enabled;
    hide Balanced;
    LogStep(f, q);
    RecsStep(f, q);
    MoverStep(f, q, op);
    forall r | 0 <= r < |s'.procs|
      ensures ProcOk(s'.files, s'.procs[r])
    {
      if r != p {
        assert ProcOk(f, s.procs[r]) && Compatible(q, s.procs[r]);
        OtherStep(f, q, s.procs[r]);
      }
    }
    forall id
      ensures Balanced(s', id)
    {
      assert Balanced(s, id);
      BalanceStep(s, p, op, id);
    }
  }

  lemma StartsKnown(s: State, p: nat, op: Op)
    requires Enabled(s, p, op)
    ensures s.procs[p].Idle? && op.StartPatch? ==> op.id in s.files.recs
  {
  }

  datatype Action = Action(p: nat, op: Op)

  /** A run: actions that are enabled one after the other. */
  predicate CanRun(s: State, run: seq<Action>)
    decreases run
  {
    run == [] || (Enabled(s, run[0].p, run[0].op) && CanRun(Step(s, run[0].p, run[0].op), run[1..]))
  }

  function Run(s: State, run: seq<Action>): State
    requires CanRun(s, run)
    decreases run
  {
    if run == [] then s else Run(Step(s, run[0].p, run[0].op), run[1..])
  }

  lemma {:induction false} InvRun(s: State, run: seq<Action>)
    requires Inv(s) && CanRun(s, run)
    ensures Inv(Run(s, run)) && Run(s, run).files.recBase == s.files.recBase
    decreases run
  {
    hide Inv;
    hide Enabled;
    hide Step;
    if run != [] {
      InvStep(s, run[0].p, run[0].op);
      InvRun(Step(s, run[0].p, run[0].op), run[1..]);
    }
  }

  // ---------------------------------------------------------------- what it comes to

  /** All processes idle, the log absent or holding `written`, nothing added yet. */
  predicate Initial(s: State) {
    var f := s.files;
    && (f.log == LogImage(RtEnv, f.written) || (f.log == [] && f.written == []))
    && Shaped(f) && (forall i :: 0 <= i < |f.addT| ==> f.addT[i] == 0 && f.addB[i] == 0)
    && f.recs == f.recBase && (forall id :: id in f.recs ==> RecReads(f.recs[id]))
    && f.recT == map[] && f.recB == map[] && s.failT == map[] && s.failB == map[]
    && forall p :: 0 <= p < |s.procs| ==> s.procs[p].Idle?
  }

  lemma {:induction false} IdleOweNothing(ps: seq<Proc>, id: u32)
    requires forall p :: 0 <= p < |ps| ==> ps[p].OwedTasks(id) == 0 && ps[p].OwedBatches(id) == 0
    ensures OwedT(ps, id) == 0 && OwedB(ps, id) == 0
    decreases ps
  {
    hide Proc.OwedTasks;
    hide Proc.OwedBatches;
    if ps != [] {
      IdleOweNothing(ps[1..], id);
    }
  }

  lemma InitialRows(f: Files)
    requires Shaped(f) && forall i :: 0 <= i < |f.addT| ==> f.addT[i] == 0 && f.addB[i] == 0
    ensures RowsNow(f) == f.written
  {
    hide WithCounters;
    hide RowCounter;
    hide RowsNow;
    forall i | 0 <= i < |f.written|
      ensures RowNow(f, i) == f.written[i]
    {
      WithOwnCounters(f.written[i]);
    }
    hide RowNow;
  }

  lemma InitialRec(f: Files, id: u32)
    requires id in f.recs && f.recs == f.recBase && RecReads(f.recs[id])
    requires f.recT == map[] && f.recB == map[]
    ensures RecOk(f, id)
  {
    hide U32;
    OverwriteSame(f.recs[id], REC_NTASK, 4);
    OverwriteSame(f.recs[id], REC_NTASK + 4, 4);
    hide Overwrite;
  }

  lemma InvInitial(s: State)
    requires Initial(s)
    ensures Inv(s)
  {
    hide RowNow;
    hide LogImage;
    hide RecOk;
    InitialRows(s.files);
    forall id | id in s.files.recs
      ensures RecOk(s.files, id)
    {
      InitialRec(s.files, id);
    }
    forall id
      ensures Balanced(s, id)
    {
      FindFirst(s.files.written, id);
      IdleOweNothing(s.procs, id);
    }
  }

  /** Rows, once written, keep their place in the history. */
  lemma {:induction false} WrittenGrows(s: State, run: seq<Action>)
    requires CanRun(s, run)
    ensures s.files.written <= Run(s, run).files.written
    decreases run
  {
    if run != [] {
      WrittenGrows(Step(s, run[0].p, run[0].op), run[1..]);
    }
  }

  /** Everything of a row but its counters. */
  predicate SameButCounters(r: Row, w: Row) {
    r[..ROW_NTASK] == w[..ROW_NTASK] && r[ROW_NTBATCH + 4..] == w[ROW_NTBATCH + 4..]
  }

  lemma RowNowSame(f: Files, i: nat)
    requires Shaped(f) && i < |f.written|
    ensures SameButCounters(RowNow(f, i), f.written[i])
  {
    hide U32;
    var w, r := f.written[i], RowNow(f, i);
    assert r[..ROW_NTASK] == w[..ROW_NTASK];
    assert r[ROW_NTBATCH + 4..] == w[ROW_NTBATCH + 4..];
  }

  /** After any run of any number of processes the log is START, whole rows and END; the rows of
      the start are still in their places, later ones follow in the order of their writes; a row
      differs from what was written only in its counters; and every counter, in the log and in the
      record files, is its first value plus everything added to it, modulo 2^32. */
  lemma InterleavedSafety(s: State, run: seq<Action>)
    requires Initial(s) && CanRun(s, run)
    ensures var f := Run(s, run).files;
            && Shaped(f) && s.files.written <= f.written
            && (f.log == LogImage(RtEnv, RowsNow(f)) || (f.log == [] && f.written == []))
            && (forall i :: 0 <= i < |f.written| ==>
                  && SameButCounters(RowNow(f, i), f.written[i])
                  && RowCounter(RowNow(f, i), ROW_NTASK) == Total(RowCounter(f.written[i], ROW_NTASK), f.addT[i])
                  && RowCounter(RowNow(f, i), ROW_NTBATCH) == Total(RowCounter(f.written[i], ROW_NTBATCH), f.addB[i]))
            && f.recs.Keys == s.files.recs.Keys
            && forall id :: id in f.recs ==>
                  && |f.recs[id]| == |s.files.recs[id]| >= REC_NTASK + 8
                  && RowCounter(f.recs[id], REC_NTASK)
                     == Total(RowCounter(s.files.recs[id], REC_NTASK), Get(f.recT, id))
                  && RowCounter(f.recs[id], REC_NTASK + 4)
                     == Total(RowCounter(s.files.recs[id], REC_NTASK + 4), Get(f.recB, id))
  {
    InvInitial(s);
    InvRun(s, run);
    WrittenGrows(s, run);
    hide Run;
    hide CanRun;
    hide RowNow;
    hide LogImage;
    hide ProcOk;
    hide Total;
    hide RowCounter;
    hide SameButCounters;
    var f := Run(s, run).files;
    forall i | 0 <= i < |f.written|
      ensures && SameButCounters(RowNow(f, i), f.written[i])
              && RowCounter(RowNow(f, i), ROW_NTASK) == Total(RowCounter(f.written[i], ROW_NTASK), f.addT[i])
              && RowCounter(RowNow(f, i), ROW_NTBATCH) == Total(RowCounter(f.written[i], ROW_NTBATCH), f.addB[i])
    {
      RowNowFields(f, i);
      RowNowSame(f, i);
    }
    forall id | id in f.recs
      ensures && |f.recs[id]| == |s.files.recs[id]| >= REC_NTASK + 8
              && RowCounter(f.recs[id], REC_NTASK) == Total(RowCounter(s.files.recs[id], REC_NTASK), Get(f.recT, id))
              && RowCounter(f.recs[id], REC_NTASK + 4)
                 == Total(RowCounter(s.files.recs[id], REC_NTASK + 4), Get(f.recB, id))
    {
      assert RecOk(f, id);
      RecNowOf(f, id);
    }
  }

  /** The same in terms of the fields: a row is that of the entry first written with its two counters
      increased by everything added to them, and a record file that of the record at the start with both
      counters increased; no other field, header or payload byte has changed. */
  lemma InterleavedFields(s: State, run: seq<Action>)
    requires Initial(s) && CanRun(s, run)
    ensures var f := Run(s, run).files;
            && Shaped(f) && f.recs.Keys == s.files.recs.Keys
            && (forall i, e: RtEnvAttr :: 0 <= i < |f.written| && e.Wf() && f.written[i] == e.Row() ==>
                  RowNow(f, i) == Increased(e, f.addT[i], f.addB[i]).Row())
            && forall id, e: RtEnvAttr, hs, payload ::
                 id in f.recs && e.Wf() && Holdable(hs, payload)
                 && s.files.recs[id] == Image(SchemaOf(RtEnv), RtEnvRecord(e, hs, payload)) ==>
                   f.recs[id] == Image(SchemaOf(RtEnv),
                                       RtEnvRecord(Increased(e, Get(f.recT, id), Get(f.recB, id)), hs, payload))
  {
    InvInitial(s);
    InvRun(s, run);
    var f := Run(s, run).files;
    InvParts(Run(s, run));
    InitialBases(s);
    BaseStays(s, run);
    hide *;
    forall i, e: RtEnvAttr | 0 <= i < |f.written| && e.Wf() && f.written[i] == e.Row()
      ensures RowNow(f, i) == Increased(e, f.addT[i], f.addB[i]).Row()
    {
      RowOfFields(f, i, e);
    }
    forall id, e: RtEnvAttr, hs, payload |
      id in f.recs && e.Wf() && Holdable(hs, payload)
      && s.files.recs[id] == Image(SchemaOf(RtEnv), RtEnvRecord(e, hs, payload))
      ensures f.recs[id] == Image(SchemaOf(RtEnv),
                                  RtEnvRecord(Increased(e, Get(f.recT, id), Get(f.recB, id)), hs, payload))
    {
      RecordOfFields(f, id, e, hs, payload);
    }
  }

  lemma InvParts(s: State)
    requires Inv(s)
    ensures Shaped(s.files) && s.files.recs.Keys == s.files.recBase.Keys
    ensures forall id :: id in s.files.recs ==> id in s.files.recBase && RecOk(s.files, id)
  {
    hide RecOk;
    hide RowsNow;
    hide ProcOk;
    hide Balanced;
  }

  lemma InitialBases(s: State)
    requires Initial(s)
    ensures s.files.recBase == s.files.recs
  {
    hide LogImage;
  }

  /** The history keeps the record files of the start. */
  lemma {:induction false} BaseStays(s: State, run: seq<Action>)
    requires CanRun(s, run)
    ensures Run(s, run).files.recBase == s.files.recBase
    decreases run
  {
    if run != [] {
      BaseStays(Step(s, run[0].p, run[0].op), run[1..]);
    }
  }

  lemma RowOfFields(f: Files, i: nat, e: RtEnvAttr)
    requires Shaped(f) && i < |f.written| && e.Wf() && f.written[i] == e.Row()
    ensures RowNow(f, i) == Increased(e, f.addT[i], f.addB[i]).Row()
  {
    RowFields(e);
    CountersWritten(e, Total(e.ntask, f.addT[i]), Total(e.ntbatch, f.addB[i]));
    hide Overwrite;
    hide U32;
    hide RowCounter;
    hide RtEnvAttr.Row;
    hide RtEnvAttr.Wf;
  }

  lemma RecordOfFields(f: Files, id: u32, e: RtEnvAttr, hs: seq<Header>, payload: seq<byte>)
    requires id in f.recs && id in f.recBase && RecOk(f, id) && e.Wf() && Holdable(hs, payload)
    requires f.recBase[id] == Image(SchemaOf(RtEnv), RtEnvRecord(e, hs, payload))
    ensures Increased(e, Get(f.recT, id), Get(f.recB, id)).Wf()
    ensures f.recs[id] == Image(SchemaOf(RtEnv),
                                RtEnvRecord(Increased(e, Get(f.recT, id), Get(f.recB, id)), hs, payload))
  {
    RecOkIs(f, id);
    RecordCountersNow(e, hs, payload);
    hide *;
    var x, y := Total(e.ntask, Get(f.recT, id)), Total(e.ntbatch, Get(f.recB, id));
    RecNowRecord(e, hs, payload, x, y);
    IncreasedIs(e, Get(f.recT, id), Get(f.recB, id));
  }

  lemma RecOkIs(f: Files, id: u32)
    requires id in f.recs && id in f.recBase && RecOk(f, id)
    ensures var base := f.recBase[id];
            && |base| >= 564
            && f.recs[id] == RecNow(base, Total(RowCounter(base, 556), Get(f.recT, id)),
                                    Total(RowCounter(base, 560), Get(f.recB, id)))
  {
    hide RecNow;
    hide Get;
    hide Total;
    hide RowCounter;
    hide At;
    hide Magic;
  }

  lemma RecordCountersNow(e: RtEnvAttr, hs: seq<Header>, payload: seq<byte>)
    requires e.Wf() && Holdable(hs, payload)
    ensures var f := Image(SchemaOf(RtEnv), RtEnvRecord(e, hs, payload));
            |f| >= 564 && RowCounter(f, 556) == e.ntask && RowCounter(f, 560) == e.ntbatch
  {
    RecordCounters(e, hs, payload);
    hide RowCounter;
    hide Image;
    hide SchemaOf;
    hide RtEnvRecord;
    hide Holdable;
    hide RtEnvAttr.Wf;
  }

  lemma RecNowRecord(e: RtEnvAttr, hs: seq<Header>, payload: seq<byte>, x: u32, y: u32)
    requires e.Wf() && Holdable(hs, payload)
    ensures e.(ntask := x, ntbatch := y).Wf()
    ensures RecNow(Image(SchemaOf(RtEnv), RtEnvRecord(e, hs, payload)), x, y)
            == Image(SchemaOf(RtEnv), RtEnvRecord(e.(ntask := x, ntbatch := y), hs, payload))
  {
    RecordWritten(e, hs, payload, x, y);
    hide Overwrite;
    hide U32;
    hide Image;
    hide SchemaOf;
    hide RtEnvRecord;
    hide Holdable;
    hide RtEnvAttr.Wf;
  }

  lemma IncreasedIs(e: RtEnvAttr, a: nat, b: nat)
    ensures Increased(e, a, b) == e.(ntask := Total(e.ntask, a), ntbatch := Total(e.ntbatch, b))
  {
  }

  lemma RecNowOf(f: Files, id: u32)
    requires id in f.recs && id in f.recBase && RecOk(f, id)
    ensures |f.recs[id]| == |f.recBase[id]|
    ensures RowCounter(f.recs[id], REC_NTASK) == Total(RowCounter(f.recBase[id], REC_NTASK), Get(f.recT, id))
    ensures RowCounter(f.recs[id], REC_NTASK + 4) == Total(RowCounter(f.recBase[id], REC_NTASK + 4), Get(f.recB, id))
  {
    hide RecNow;
    var base := f.recBase[id];
    RecCounters(base, Total(RowCounter(base, REC_NTASK), Get(f.recT, id)),
                Total(RowCounter(base, REC_NTASK + 4), Get(f.recB, id)));
  }

  /** No process is between the record and the log of `id`, and no patch of it was lost. */
  predicate Settled(s: State, id: u32) {
    && (forall p :: 0 <= p < |s.procs| ==> s.procs[p].OwedTasks(id) == 0 && s.procs[p].OwedBatches(id) == 0)
    && Get(s.failT, id) == 0 && Get(s.failB, id) == 0
  }

  /** Whenever nothing is in between, the counters of the record and of the log row have been given
      the same: they agree now if they agreed when both were new. */
  lemma CountersAgree(s: State, run: seq<Action>, id: u32, k: nat)
    requires Initial(s) && CanRun(s, run)
    requires id in s.files.recs && Settled(Run(s, run), id)
    requires Find(Run(s, run).files.written, id) == Some(k)
    ensures var f := Run(s, run).files;
            && Shaped(f) && k < |f.written| && id in f.recs && |f.recs[id]| >= REC_NTASK + 8
            && |s.files.recs[id]| >= REC_NTASK + 8
            && f.addT[k] == Get(f.recT, id) && f.addB[k] == Get(f.recB, id)
            && (RowCounter(s.files.recs[id], REC_NTASK) == RowCounter(f.written[k], ROW_NTASK) ==>
                  RowCounter(f.recs[id], REC_NTASK) == RowCounter(RowNow(f, k), ROW_NTASK))
            && (RowCounter(s.files.recs[id], REC_NTASK + 4) == RowCounter(f.written[k], ROW_NTBATCH) ==>
                  RowCounter(f.recs[id], REC_NTASK + 4) == RowCounter(RowNow(f, k), ROW_NTBATCH))
  {
    hide Run;
    hide CanRun;
    hide RowNow;
    hide LogOk;
    hide RecOk;
    hide ProcOk;
    hide Total;
    hide RowCounter;
    hide Exclusive;
    hide Initial;
    var t := Run(s, run);
    InvInitial(s);
    InvRun(s, run);
    ShapedOfLog(t.files);
    FindFirst(t.files.written, id);
    IdleOweNothing(t.procs, id);
    assert Balanced(t, id);
    InitialBase(s, id);
    assert RecOk(t.files, id);
    RecNowOf(t.files, id);
    RowNowFields(t.files, k);
  }

  lemma InitialBase(s: State, id: u32)
    requires Initial(s) && id in s.files.recs
    ensures id in s.files.recBase && s.files.recBase[id] == s.files.recs[id] && |s.files.recs[id]| >= REC_NTASK + 8
  {
    hide LogImage;
  }

  // ---------------------------------------------------------------- nothing asked for is lost

  /** What a process has been asked to add and has not yet added to the record. */
  function TasksAhead(q: Proc, id: u32): nat {
    if (q.PatWait? || q.PatRecLocked? || q.PatRecRead?) && q.id == id then q.a else 0
  }

  function BatchesAhead(q: Proc, id: u32): nat {
    if (q.PatWait? || q.PatRecLocked? || q.PatRecRead? || q.PatRecHalf?) && q.id == id then q.b else 0
  }

  function RowsAhead(q: Proc, r: Row): nat {
    if (q.AppWait? || q.AppLocked? || q.AppSized? || q.AppChecked?) && q.row == r then 1 else 0
  }

  /** Amounts for the two counters of one ID, and a number of copies of one row. */
  datatype Ahead = Ahead(tasks: nat, batches: nat, rows: nat)

  function Plus(x: Ahead, y: Ahead): Ahead {
    Ahead(x.tasks + y.tasks, x.batches + y.batches, x.rows + y.rows)
  }

  function AheadOf(q: Proc, id: u32, r: Row): Ahead {
    Ahead(TasksAhead(q, id), BatchesAhead(q, id), RowsAhead(q, r))
  }

  function AllAhead(ps: seq<Proc>, id: u32, r: Row): Ahead {
    if ps == [] then Ahead(0, 0, 0) else Plus(AheadOf(ps[0], id, r), AllAhead(ps[1..], id, r))
  }

  /** What an action asks for. */
  function Asked(op: Op, id: u32, r: Row): Ahead {
    match op
    case StartAppend(row) => Ahead(0, 0, (if row == r then 1 else 0))
    case StartPatch(i, a, b) => if i == id then Ahead(a, b, 0) else Ahead(0, 0, 0)
    case Go => Ahead(0, 0, 0)
  }

  function AllAsked(run: seq<Action>, id: u32, r: Row): Ahead {
    if run == [] then Ahead(0, 0, 0) else Plus(Asked(run[0].op, id, r), AllAsked(run[1..], id, r))
  }

  /** What the files have received. */
  function Received(f: Files, id: u32, r: Row): Ahead {
    Ahead(Get(f.recT, id), Get(f.recB, id), multiset(f.written)[r])
  }

  lemma {:induction false} AheadSet(ps: seq<Proc>, p: nat, q: Proc, id: u32, r: Row)
    requires p < |ps|
    ensures Plus(AllAhead(ps[p := q], id, r), AheadOf(ps[p], id, r)) == Plus(AllAhead(ps, id, r), AheadOf(q, id, r))
    decreases ps
  {
    hide AheadOf;
    if p == 0 {
      assert ps[0 := q][1..] == ps[1..];
    } else {
      AheadSet(ps[1..], p - 1, q, id, r);
      assert ps[p := q][1..] == ps[1..][p - 1 := q];
    }
  }

  lemma CountsPass(f: Files, q: Proc, op: Op, id: u32)
    requires RecsOk(f) && ProcOk(f, q) && (!q.Idle? ==> op.Go?)
    ensures var q' := NextProc(f, q, op);
            && TasksAhead(q', id) + RecTasks(q, id)
               == TasksAhead(q, id) + (if q.Idle? && op.StartPatch? && op.id == id then op.a else 0)
            && BatchesAhead(q', id) + RecBatches(q, id)
               == BatchesAhead(q, id) + (if q.Idle? && op.StartPatch? && op.id == id then op.b else 0)
  {
    hide Overwrite;
    hide At;
    hide U32;
    hide RowId;
    hide RowCounter;
    hide RowNow;
    hide Passed;
    hide Hit;
    hide RecOk;
    if q.PatRecLocked? {
      RecLong(f, q.id);
    }
    hide RecsOk;
  }

  lemma RowsPass(f: Files, q: Proc, op: Op, r: Row)
    requires LogOk(f) && ProcOk(f, q) && (!q.Idle? ==> op.Go?)
    ensures multiset(NextFiles(f, q).written)[r] + RowsAhead(NextProc(f, q, op), r)
            == multiset(f.written)[r] + RowsAhead(q, r) + (if q.Idle? && op.StartAppend? && op.row == r then 1 else 0)
  {
    if q.AppChecked? {
      hide *;
      RowArrives(f, q, op, r);
    } else {
      WrittenStays(f, q);
      if q.AppSized? {
        EndAlwaysStands(f);
        hide LogOk;
        hide NextFiles;
        hide EndStands;
      } else {
        hide *;
        RowsKept(f, q, op, r);
      }
    }
  }

  /** The row of an append passes from the process into the history. */
  lemma RowArrives(f: Files, q: Proc, op: Op, r: Row)
    requires q.AppChecked?
    ensures multiset(NextFiles(f, q).written)[r] + RowsAhead(NextProc(f, q, op), r)
            == multiset(f.written)[r] + RowsAhead(q, r)
  {
    hide Overwrite;
    hide U32;
    assert multiset(f.written + [q.row]) == multiset(f.written) + multiset{q.row};
  }

  /** Every other stage takes its row along, and only an idle process takes a new one. */
  lemma RowsKept(f: Files, q: Proc, op: Op, r: Row)
    requires !q.AppChecked? && !q.AppSized? && (!q.Idle? ==> op.Go?)
    ensures RowsAhead(NextProc(f, q, op), r)
            == RowsAhead(q, r) + (if q.Idle? && op.StartAppend? && op.row == r then 1 else 0)
  {
    hide U32;
    hide AddU32;
    hide RowId;
    hide RowCounter;
    hide Passed;
    hide Hit;
  }

  /** A move passes on what was ahead: into the files, or to the next stage. */
  lemma MovePasses(f: Files, q: Proc, op: Op, id: u32, r: Row)
    requires LogOk(f) && RecsOk(f) && ProcOk(f, q) && (!q.Idle? ==> op.Go?) && (q.Idle? ==> !op.Go?)
    ensures Plus(Received(NextFiles(f, q), id, r), AheadOf(NextProc(f, q, op), id, r))
            == Plus(Plus(Received(f, id, r), AheadOf(q, id, r)), Asked(op, id, r))
  {
    hide NextFiles;
    hide NextProc;
    hide LogOk;
    hide RecsOk;
    hide ProcOk;
    hide Get;
    hide TasksAhead;
    hide BatchesAhead;
    hide RowsAhead;
    hide RecTasks;
    hide RecBatches;
    RecTotalsMove(f, q, id);
    CountsPass(f, q, op, id);
    RowsPass(f, q, op, r);
  }

  lemma WrittenStays(f: Files, q: Proc)
    requires !q.AppChecked?
    ensures NextFiles(f, q).written == f.written
  {
  }

  lemma RecLong(f: Files, id: u32)
    requires RecsOk(f) && id in f.recs
    ensures RecReads(f.recs[id])
  {
    assert RecOk(f, id);
    RecNowOf(f, id);
    var base := f.recBase[id];
    hide RecsOk;
    hide Magic;
    hide U32;
    RecNowStart(base, Total(RowCounter(base, REC_NTASK), Get(f.recT, id)),
        Total(RowCounter(base, REC_NTASK + 4), Get(f.recB, id)));
  }

  lemma RecNowStart(base: seq<byte>, x: u32, y: u32)
    requires At(base, 0, Magic(Rec, RtEnv, Start))
    ensures At(RecNow(base, x, y), 0, Magic(Rec, RtEnv, Start))
  {
    hide Magic;
    hide Overwrite;
    var m := Magic(Rec, RtEnv, Start);
    OverwriteFrame(base, REC_NTASK, U32(x), 0, m);
    OverwriteFrame(Overwrite(base, REC_NTASK, U32(x)), REC_NTASK + 4, U32(y), 0, m);
  }

  lemma AskedStep(s: State, p: nat, op: Op, id: u32, r: Row)
    requires Inv(s) && Enabled(s, p, op)
    ensures Plus(Received(Step(s, p, op).files, id, r), AllAhead(Step(s, p, op).procs, id, r))
            == Plus(Plus(Received(s.files, id, r), AllAhead(s.procs, id, r)), Asked(op, id, r))
  {
    hide Step;
    hide NextFiles;
    hide NextProc;
    hide LogOk;
    hide RecsOk;
    hide Asked;
    hide AheadOf;
    hide Received;
    hide Balanced;
    var f, q := s.files, s.procs[p];
    StepParts(s, p, op);
    assert ProcOk(f, q);
    hide ProcOk;
    MovePasses(f, q, op, id, r);
    AheadSet(s.procs, p, NextProc(f, q, op), id, r);
  }

  lemma {:induction false} AskedRun(s: State, run: seq<Action>, id: u32, r: Row)
    requires Inv(s) && CanRun(s, run)
    ensures Plus(Received(Run(s, run).files, id, r), AllAhead(Run(s, run).procs, id, r))
            == Plus(Plus(Received(s.files, id, r), AllAhead(s.procs, id, r)), AllAsked(run, id, r))
    decreases run
  {
    hide Inv;
    hide Enabled;
    hide Step;
    hide Received;
    hide AllAhead;
    hide Asked;
    if run != [] {
      InvStep(s, run[0].p, run[0].op);
      AskedStep(s, run[0].p, run[0].op, id, r);
      AskedRun(Step(s, run[0].p, run[0].op), run[1..], id, r);
    }
  }

  lemma {:induction false} NothingAhead(ps: seq<Proc>, id: u32, r: Row)
    requires forall p :: 0 <= p < |ps| ==> AheadOf(ps[p], id, r) == Ahead(0, 0, 0)
    ensures AllAhead(ps, id, r) == Ahead(0, 0, 0)
    decreases ps
  {
    hide AheadOf;
    if ps != [] {
      NothingAhead(ps[1..], id, r);
    }
  }

  /** When every process is idle again, the record counters have received every increment asked
      for, and the log holds its first rows and every row asked for, each once. */
  lemma NothingLost(s: State, run: seq<Action>, id: u32, r: Row)
    requires Initial(s) && CanRun(s, run) && forall p :: 0 <= p < |Run(s, run).procs| ==> Run(s, run).procs[p].Idle?
    ensures var f := Run(s, run).files;
            && Get(f.recT, id) == AllAsked(run, id, r).tasks && Get(f.recB, id) == AllAsked(run, id, r).batches
            && multiset(f.written)[r] == multiset(s.files.written)[r] + AllAsked(run, id, r).rows
  {
    hide *;
    InvInitial(s);
    AskedRun(s, run, id, r);
    InitialReceived(s, id, r);
    IdleAhead(Run(s, run).procs, id, r);
    ReceivedIs(Run(s, run).files, id, r);
    Arrived(Received(Run(s, run).files, id, r), multiset(s.files.written)[r], AllAsked(run, id, r));
  }

  /** With nothing ahead on either side, what has been received is what was there and what was asked for. */
  lemma Arrived(x: Ahead, w: nat, y: Ahead)
    requires Plus(x, Ahead(0, 0, 0)) == Plus(Plus(Ahead(0, 0, w), Ahead(0, 0, 0)), y)
    ensures x == Ahead(y.tasks, y.batches, w + y.rows)
  {
  }

  lemma IdleAhead(ps: seq<Proc>, id: u32, r: Row)
    requires forall p :: 0 <= p < |ps| ==> ps[p].Idle?
    ensures AllAhead(ps, id, r) == Ahead(0, 0, 0)
  {
    hide AllAhead;
    NothingAhead(ps, id, r);
  }

  lemma ReceivedIs(f: Files, id: u32, r: Row)
    ensures Received(f, id, r) == Ahead(Get(f.recT, id), Get(f.recB, id), multiset(f.written)[r])
  {
  }

  lemma InitialReceived(s: State, id: u32, r: Row)
    requires Initial(s)
    ensures Received(s.files, id, r) == Ahead(0, 0, multiset(s.files.written)[r])
    ensures AllAhead(s.procs, id, r) == Ahead(0, 0, 0)
  {
    InitialHistory(s);
    GetNone(id);
    hide *;
    ReceivedIs(s.files, id, r);
    IdleAhead(s.procs, id, r);
  }

  lemma InitialHistory(s: State)
    requires Initial(s)
    ensures s.files.recT == map[] && s.files.recB == map[] && forall p :: 0 <= p < |s.procs| ==> s.procs[p].Idle?
  {
    hide LogImage;
    hide RecReads;
    hide Shaped;
  }

  lemma GetNone(id: u32)
    ensures Get(map[], id) == 0
  {
  }
}
