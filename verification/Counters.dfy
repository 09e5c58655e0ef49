/** Read-add-write of the ntask and ntbatch counters of a runtime environment, in its .tpbr record
    and in its row of the .tpbe log. */
module Counters {
  import opened Bytes
  import opened Common
  import opened Signature
  import opened Layout
  import opened Disk
  import opened RecordIO
  import opened EntryLog
  import opened AttrPatch
  import opened Structs

  /** Size of a runtime-environment row, and the offsets of its counters. */
  const ROW: nat := 1828
  const ROW_NTASK: nat := 532
  const ROW_NTBATCH: nat := 536
  /** The same counters behind the 24 leading bytes of a record file. */
  const REC_NTASK: nat := 556

  function AddU32(a: u32, b: u32): u32 {
    (a + b) % TWO32
  }

  function RowId(row: seq<byte>): u32
    requires |row| >= 4
  {
    GetU32(row[0..4])
  }

  function RowCounter(row: seq<byte>, o: nat): u32
    requires o + 4 <= |row|
  {
    GetU32(row[o..o + 4])
  }

  // ---------------------------------------------------------------- the .tpbe row

  /** Offset of the first whole row, from `pos` on, that carries the ID. */
  function ScanRow(f: seq<byte>, pos: nat, id: u32): Option<nat>
    decreases |f| - pos
  {
    if pos + ROW > |f| then None
    else if RowId(f[pos..pos + ROW]) == id then Some(pos)
    else ScanRow(f, pos + ROW, id)
  }

  function RowEdits(f: seq<byte>, p: nat, a: u32, b: u32): seq<Edit>
    requires p + ROW <= |f|
  {
    var row := f[p..p + ROW];
    [Edit(p + ROW_NTASK, U32(AddU32(RowCounter(row, ROW_NTASK), a))),
     Edit(p + ROW_NTBATCH, U32(AddU32(RowCounter(row, ROW_NTBATCH), b)))]
  }

  function LogPatched(f: seq<byte>, id: u32, a: u32, b: u32): Option<seq<byte>> {
    if !At(f, 0, Magic(Entry, RtEnv, Start)) then None
    else
      match ScanRow(f, 8, id)
      case None => None
      case Some(p) => if p + ROW <= |f| then Some(Apply(f, RowEdits(f, p, a, b))) else None
  }

  /** _sf_patch_tpbe_counters on the opened, locked log. */
  method PatchLog(file: DiskFile, id: u32, a: u32, b: u32) returns (ok: bool)
    requires file.pos == 0
    modifies file
    ensures ok == LogPatched(old(file.data), id, a, b).Some?
    ensures file.data == if ok then LogPatched(old(file.data), id, a, b).value else old(file.data)
  {
    hide Magic;
    hide At;
    hide U32;
    ghost var f := file.data;
    ok := file.Expect(Magic(Entry, RtEnv, Start), 8);
    if !ok { return; }
    var pos: nat := 8;
    while true
      invariant file.data == f && At(f, 0, Magic(Entry, RtEnv, Start))
      invariant ScanRow(f, 8, id) == ScanRow(f, pos, id)
      decreases |f| - pos
    {
      var disk;
      ok := file.Seek(pos);
      ok, disk := file.Read(ROW);
      if !ok {
        return false;
      }
      if RowId(disk) == id {
        var ntask := AddU32(RowCounter(disk, ROW_NTASK), a);
        var ntbatch := AddU32(RowCounter(disk, ROW_NTBATCH), b);
        file.WriteAt(pos + ROW_NTASK, U32(ntask), f, []);
        file.WriteAt(pos + ROW_NTBATCH, U32(ntbatch), f, [Edit(pos + ROW_NTASK, U32(ntask))]);
        assert [Edit(pos + ROW_NTASK, U32(ntask))] + [Edit(pos + ROW_NTBATCH, U32(ntbatch))]
               == RowEdits(f, pos, a, b);
        return true;
      }
      pos := pos + ROW;
    }
  }

  /** The row after the counters have been added to. */
  function Bumped(row: seq<byte>, a: u32, b: u32): (r: seq<byte>)
    requires |row| == ROW
    ensures |r| == ROW
  {
    Overwrite(Overwrite(row, ROW_NTASK, U32(AddU32(RowCounter(row, ROW_NTASK), a))),
              ROW_NTBATCH, U32(AddU32(RowCounter(row, ROW_NTBATCH), b)))
  }

  /** Index of the first row with the ID. */
  function Find(rows: seq<seq<byte>>, id: u32): Option<nat>
    requires RowsOf(rows, ROW)
  {
    if rows == [] then None
    else if RowId(rows[0]) == id then Some(0)
    else
      match Find(rows[1..], id)
      case None => None
      case Some(i) => Some(i + 1)
  }

  lemma {:induction false} FindFirst(rows: seq<seq<byte>>, id: u32)
    requires RowsOf(rows, ROW)
    ensures match Find(rows, id)
            case None => forall j :: 0 <= j < |rows| ==> RowId(rows[j]) != id
            case Some(i) => i < |rows| && RowId(rows[i]) == id && forall j :: 0 <= j < i ==> RowId(rows[j]) != id
  {
    if rows != [] && RowId(rows[0]) != id {
      FindFirst(rows[1..], id);
    }
  }

  /** Only the two counters change, and both by addition modulo 2^32. */
  lemma BumpedFields(row: seq<byte>, a: u32, b: u32)
    requires |row| == ROW
    ensures var r := Bumped(row, a, b);
            && RowCounter(r, ROW_NTASK) == AddU32(RowCounter(row, ROW_NTASK), a)
            && RowCounter(r, ROW_NTBATCH) == AddU32(RowCounter(row, ROW_NTBATCH), b)
            && RowId(r) == RowId(row)
            && r[..532] == row[..532] && r[540..] == row[540..]
            && GetU32(r[532..536]) == (GetU32(row[532..536]) + a) % 0x1_0000_0000
            && GetU32(r[536..540]) == (GetU32(row[536..540]) + b) % 0x1_0000_0000
  {
    hide U32;
    var x, y := U32(AddU32(RowCounter(row, ROW_NTASK), a)), U32(AddU32(RowCounter(row, ROW_NTBATCH), b));
    var r := Bumped(row, a, b);
    assert r[ROW_NTASK..ROW_NTASK + 4] == x;
    assert r[ROW_NTBATCH..ROW_NTBATCH + 4] == y;
    assert r[0..4] == row[0..4];
  }

  lemma {:induction false} ScanFinds(f: seq<byte>, pos: nat, rows: seq<seq<byte>>, id: u32)
    requires RowsOf(rows, ROW) && At(f, pos, Flat(rows)) && |f| == pos + |Flat(rows)| + 8
    ensures ScanRow(f, pos, id) == match Find(rows, id)
                                   case None => None
                                   case Some(i) => Some(pos + i * ROW)
    decreases rows
  {
    RowsLen(rows, ROW);
    if rows != [] {
      AtAppend(f, pos, rows[0], Flat(rows[1..]));
      AtSlice(f, pos, rows[0]);
      hide At;
      ScanFinds(f, pos + ROW, rows[1..], id);
    }
  }

  /** Patching the log refines updating one row of the list: the first with the ID. */
  lemma LogPatchRefines(rows: seq<seq<byte>>, id: u32, a: u32, b: u32)
    requires RowsOf(rows, ROW)
    ensures LogPatched(LogImage(RtEnv, rows), id, a, b) ==
            match Find(rows, id)
            case None => None
            case Some(i) => if i < |rows| then Some(LogImage(RtEnv, rows[i := Bumped(rows[i], a, b)])) else None
  {
    hide Magic;
    hide At;
    hide Flat;
    hide Overwrite;
    hide U32;
    var f := LogImage(RtEnv, rows);
    LogParts(f, RtEnv, rows);
    ScanFinds(f, 8, rows, id);
    FindFirst(rows, id);
    match Find(rows, id)
    case None =>
    case Some(i) =>
      RowStands(f, rows, i);
      var p := 8 + i * ROW;
      var es := RowEdits(f, p, a, b);
      PatchRow(RtEnv, rows, ROW, i, ROW_NTASK, es[0].bytes);
      var rows1 := rows[i := Overwrite(rows[i], ROW_NTASK, es[0].bytes)];
      PatchRow(RtEnv, rows1, ROW, i, ROW_NTBATCH, es[1].bytes);
      ApplyTwo(f, es);
      assert rows1[i := Bumped(rows[i], a, b)] == rows[i := Bumped(rows[i], a, b)];
  }

  lemma ApplyTwo(f: seq<byte>, es: seq<Edit>)
    requires |es| == 2
    ensures Apply(f, es) == Overwrite(Overwrite(f, es[0].off, es[0].bytes), es[1].off, es[1].bytes)
  {
    ApplySnoc(f, [es[0]], es[1]);
    ApplySnoc(f, [], es[0]);
    assert [] + [es[0]] == [es[0]] && [es[0]] + [es[1]] == es;
  }

  lemma {:induction false} RowAt(f: seq<byte>, pos: nat, rows: seq<seq<byte>>, i: nat)
    requires RowsOf(rows, ROW) && At(f, pos, Flat(rows)) && i < |rows|
    ensures At(f, pos + i * ROW, rows[i])
    decreases rows
  {
    AtAppend(f, pos, rows[0], Flat(rows[1..]));
    if i > 0 {
      RowAt(f, pos + ROW, rows[1..], i - 1);
    }
  }

  lemma RowStands(f: seq<byte>, rows: seq<seq<byte>>, i: nat)
    requires RowsOf(rows, ROW) && i < |rows| && f == LogImage(RtEnv, rows)
    ensures 8 + i * ROW + ROW <= |f| && f[8 + i * ROW..8 + i * ROW + ROW] == rows[i]
  {
    LogParts(f, RtEnv, rows);
    RowAt(f, 8, rows, i);
    AtSlice(f, 8 + i * ROW, rows[i]);
  }

  // ---------------------------------------------------------------- in terms of the fields

  /** The ID and the two counters of a row are those fields of its entry. */
  lemma RowFields(e: RtEnvAttr)
    requires e.Wf()
    ensures |e.Row()| == ROW && RowId(e.Row()) == e.id
    ensures RowCounter(e.Row(), ROW_NTASK) == e.ntask && RowCounter(e.Row(), ROW_NTBATCH) == e.ntbatch
  {
    RtEnvRowWidths(e);
    PartAt(e.Parts(), RTENV_ROW, RTENV_STARTS, 0);
    PartAt(e.Parts(), RTENV_ROW, RTENV_STARTS, 6);
    PartAt(e.Parts(), RTENV_ROW, RTENV_STARTS, 7);
    hide U32;
    hide U64;
    hide Flat;
  }

  /** A row with its counters written is the row of the entry with those counters. */
  lemma CountersWritten(e: RtEnvAttr, x: u32, y: u32)
    requires e.Wf()
    ensures Overwrite(Overwrite(e.Row(), ROW_NTASK, U32(x)), ROW_NTBATCH, U32(y))
            == e.(ntask := x, ntbatch := y).Row()
  {
    RtEnvRowWidths(e);
    var parts := e.Parts();
    hide U32;
    hide U64;
    hide Flat;
    hide Overwrite;
    PartSet(parts, RTENV_ROW, RTENV_STARTS, 6, U32(x));
    PartSet(parts[6 := U32(x)], RTENV_ROW, RTENV_STARTS, 7, U32(y));
    assert parts[6 := U32(x)][7 := U32(y)] == e.(ntask := x, ntbatch := y).Parts();
  }

  /** The entry with both counters increased, in 32 bits. */
  function Increased(e: RtEnvAttr, a: nat, b: nat): (r: RtEnvAttr)
    ensures e.Wf() ==> r.Wf()
  {
    e.(ntask := (e.ntask + a) % 0x1_0000_0000, ntbatch := (e.ntbatch + b) % 0x1_0000_0000)
  }

  /** Patching the log of a list of entries increases the counters of the first one with the ID; it fails
      when there is none. */
  lemma LogPatchFields(es: seq<RtEnvAttr>, i: nat, id: u32, a: u32, b: u32)
    requires (forall k :: 0 <= k < |es| ==> es[k].Wf()) && i <= |es|
    requires (forall k :: 0 <= k < i ==> es[k].id != id) && (i < |es| ==> es[i].id == id)
    ensures LogPatched(LogImage(RtEnv, RtEnvRows(es)), id, a, b)
            == if i == |es| then None
               else Some(LogImage(RtEnv, RtEnvRows(es[i := Increased(es[i], a, b)])))
  {
    hide *;
    RowsOfEntries(es);
    var rows := RtEnvRows(es);
    forall k | 0 <= k < |es|
      ensures RowId(rows[k]) == es[k].id
    {
      RowFields(es[k]);
    }
    FindFirst(rows, id);
    LogPatchRefines(rows, id, a, b);
    if i < |es| {
      IncreasedWf(es[i], a, b);
      BumpedRow(es[i], a, b);
      RowsSet(es, i, Increased(es[i], a, b));
    }
  }

  lemma RowsOfEntries(es: seq<RtEnvAttr>)
    requires forall k :: 0 <= k < |es| ==> es[k].Wf()
    ensures RowsOf(RtEnvRows(es), ROW) && forall k :: 0 <= k < |es| ==> |RtEnvRows(es)[k]| == ROW == 1828
  {
    RowsWide(es);
    hide RtEnvAttr.Row;
    hide RtEnvAttr.Wf;
  }

  lemma IncreasedWf(e: RtEnvAttr, a: u32, b: u32)
    requires e.Wf()
    ensures Increased(e, a, b).Wf()
  {
  }

  lemma BumpedRow(e: RtEnvAttr, a: u32, b: u32)
    requires e.Wf()
    ensures |e.Row()| == ROW && Bumped(e.Row(), a, b) == Increased(e, a, b).Row()
  {
    RowFields(e);
    CountersWritten(e, AddU32(e.ntask, a), AddU32(e.ntbatch, b));
    hide Overwrite;
    hide U32;
    hide RowCounter;
    hide RtEnvAttr.Row;
  }

  // ---------------------------------------------------------------- the .tpbr record

  function RecordEdits(f: seq<byte>, a: u32, b: u32): seq<Edit>
    requires |f| >= REC_NTASK + 8
  {
    [Edit(REC_NTASK, U32(AddU32(RowCounter(f, REC_NTASK), a))),
     Edit(REC_NTASK + 4, U32(AddU32(RowCounter(f, REC_NTASK + 4), b)))]
  }

  function RecordPatched(f: seq<byte>, a: u32, b: u32): Option<seq<byte>> {
    if At(f, 0, Magic(Rec, RtEnv, Start)) && |f| >= REC_NTASK + 8
    then Some(Apply(f, RecordEdits(f, a, b))) else None
  }

  /** The first half of tpb_raf_record_patch_rtenv_counters. */
  method PatchRecord(file: DiskFile, a: u32, b: u32) returns (ok: bool)
    requires file.pos == 0
    modifies file
    ensures ok == RecordPatched(old(file.data), a, b).Some?
    ensures file.data == if ok then RecordPatched(old(file.data), a, b).value else old(file.data)
  {
    hide Magic;
    hide At;
    hide U32;
    ghost var f := file.data;
    ok := file.Expect(Magic(Rec, RtEnv, Start), 8);
    if !ok { return; }
    var ntask, ntbatch;
    ok := file.Seek(REC_NTASK);
    ok, ntask := file.ReadU32();
    if !ok { return; }
    ok, ntbatch := file.ReadU32();
    if !ok { return; }
    ntask, ntbatch := AddU32(ntask, a), AddU32(ntbatch, b);
    file.WriteAt(REC_NTASK, U32(ntask), f, []);
    file.WriteAt(REC_NTASK + 4, U32(ntbatch), f, [Edit(REC_NTASK, U32(ntask))]);
    assert [Edit(REC_NTASK, U32(ntask))] + [Edit(REC_NTASK + 4, U32(ntbatch))] == RecordEdits(f, a, b);
  }

  /** The record after the counters, attribute fields 6 and 7, have been added to. */
  function BumpedRecord(r: Record, a: u32, b: u32): (r': Record)
    requires r.Wf(SchemaOf(RtEnv))
    ensures r'.Wf(SchemaOf(RtEnv))
  {
    assert |r.attrs[6]| == Lengths(r.attrs)[6] == 4 && |r.attrs[7]| == Lengths(r.attrs)[7] == 4;
    var x, y := AddU32(GetU32(r.attrs[6]), a), AddU32(GetU32(r.attrs[7]), b);
    var attrs := r.attrs[6 := U32(x)][7 := U32(y)];
    assert Lengths(attrs) == Lengths(r.attrs);
    r.(attrs := attrs)
  }

  /** Patching the record file refines adding to two attributes of the record. */
  lemma RecordPatchRefines(r: Record, a: u32, b: u32)
    requires r.Wf(SchemaOf(RtEnv))
    ensures RecordPatched(Image(SchemaOf(RtEnv), r), a, b) == Some(Image(SchemaOf(RtEnv), BumpedRecord(r, a, b)))
  {
    hide Image;
    hide Overwrite;
    hide Magic;
    hide At;
    var s := SchemaOf(RtEnv);
    RtEnvNumbers();
    hide SchemaOf;
    assert |r.attrs[6]| == Lengths(r.attrs)[6] == 4 && |r.attrs[7]| == Lengths(r.attrs)[7] == 4;
    var f := Image(s, r);
    AttrStands(f, s, r, 6);
    AttrStands(f, s, r, 7);
    var x, y := U32(AddU32(GetU32(r.attrs[6]), a)), U32(AddU32(GetU32(r.attrs[7]), b));
    PatchAttr(s, r, 6, x);
    PatchAttr(s, r.(attrs := r.attrs[6 := x]), 7, y);
    ApplyTwo(f, RecordEdits(f, a, b));
  }

  /** Patching the file of a record increases the counters among its attributes and changes nothing else. */
  lemma RecordPatchFields(e: RtEnvAttr, hs: seq<Header>, payload: seq<byte>, a: u32, b: u32)
    requires e.Wf() && Holdable(hs, payload)
    ensures RecordPatched(Image(SchemaOf(RtEnv), RtEnvRecord(e, hs, payload)), a, b)
            == Some(Image(SchemaOf(RtEnv), RtEnvRecord(Increased(e, a, b), hs, payload)))
  {
    IncreasedWf(e, a, b);
    hide *;
    RecordPatchRefines(RtEnvRecord(e, hs, payload), a, b);
    BumpedRecordIs(e, hs, payload, a, b);
  }

  lemma BumpedRecordIs(e: RtEnvAttr, hs: seq<Header>, payload: seq<byte>, a: u32, b: u32)
    requires e.Wf() && Holdable(hs, payload)
    ensures BumpedRecord(RtEnvRecord(e, hs, payload), a, b) == RtEnvRecord(Increased(e, a, b), hs, payload)
  {
    hide SchemaOf;
    hide U32;
    hide U64;
    assert e.Attrs(|hs|)[6 := U32(Increased(e, a, b).ntask)][7 := U32(Increased(e, a, b).ntbatch)]
           == Increased(e, a, b).Attrs(|hs|);
  }

  /** The two counters, read from the file of a record. */
  lemma RecordCounters(e: RtEnvAttr, hs: seq<Header>, payload: seq<byte>)
    requires e.Wf() && Holdable(hs, payload)
    ensures var f := Image(SchemaOf(RtEnv), RtEnvRecord(e, hs, payload));
            && |f| >= REC_NTASK + 8 && RowCounter(f, REC_NTASK) == e.ntask
            && RowCounter(f, REC_NTASK + 4) == e.ntbatch
  {
    var s, r := SchemaOf(RtEnv), RtEnvRecord(e, hs, payload);
    RtEnvNumbers();
    hide SchemaOf;
    hide Image;
    hide U32;
    hide U64;
    AttrStands(Image(s, r), s, r, 6);
    AttrStands(Image(s, r), s, r, 7);
  }

  /** Both counters written at their offsets into the file of a record. */
  lemma RecordWritten(e: RtEnvAttr, hs: seq<Header>, payload: seq<byte>, x: u32, y: u32)
    requires e.Wf() && Holdable(hs, payload)
    ensures e.(ntask := x, ntbatch := y).Wf()
    ensures Overwrite(Overwrite(Image(SchemaOf(RtEnv), RtEnvRecord(e, hs, payload)), REC_NTASK, U32(x)),
                      REC_NTASK + 4, U32(y))
            == Image(SchemaOf(RtEnv), RtEnvRecord(e.(ntask := x, ntbatch := y), hs, payload))
  {
    RtEnvNumbers();
    RecordSet(e, hs, payload, x, y);
    hide *;
    var s, r := SchemaOf(RtEnv), RtEnvRecord(e, hs, payload);
    PatchAttr(s, r, 6, U32(x));
    PatchAttr(s, r.(attrs := r.attrs[6 := U32(x)]), 7, U32(y));
  }

  lemma RecordSet(e: RtEnvAttr, hs: seq<Header>, payload: seq<byte>, x: u32, y: u32)
    requires e.Wf() && Holdable(hs, payload)
    ensures e.(ntask := x, ntbatch := y).Wf()
    ensures var r := RtEnvRecord(e, hs, payload);
            && |r.attrs| == 13
            && r.(attrs := r.attrs[6 := U32(x)][7 := U32(y)]) == RtEnvRecord(e.(ntask := x, ntbatch := y), hs, payload)
  {
    hide SchemaOf;
    hide U32;
    hide U64;
    hide Holdable;
  }

  lemma RtEnvNumbers()
    ensures var s := SchemaOf(RtEnv);
            && s.Valid() && s.dom == RtEnv && |s.widths| == 13 && s.widths[6] == 4 && s.widths[7] == 4
            && s.nheaderField == 11 && s.FieldOff(6) == REC_NTASK && s.FieldOff(7) == REC_NTASK + 4
  {
    hide Sum;
    hide Schema.FieldOff;
    RtEnvOffsets();
    assert RTENV_OFFSETS[6] == 556 && RTENV_OFFSETS[7] == 560;
  }

  // ---------------------------------------------------------------- both files

  /** tpb_raf_record_patch_rtenv_counters: the record first, then the log row. When the row is
      missing the call fails after the record has already been changed. */
  method PatchBoth(rec: DiskFile, log: DiskFile, id: u32, a: u32, b: u32) returns (ok: bool)
    requires rec != log && rec.pos == 0 && log.pos == 0
    modifies rec, log
    ensures a == 0 && b == 0 ==> ok && rec.data == old(rec.data) && log.data == old(log.data)
    ensures a != 0 || b != 0 ==>
            var r, l := RecordPatched(old(rec.data), a, b), LogPatched(old(log.data), id, a, b);
            && ok == (r.Some? && l.Some?)
            && rec.data == (if r.Some? then r.value else old(rec.data))
            && log.data == (if ok then l.value else old(log.data))
  {
    if a == 0 && b == 0 {
      return true;
    }
    hide RecordPatched;
    hide LogPatched;
    ok := PatchRecord(rec, a, b);
    if ok {
      ok := PatchLog(log, id, a, b);
    }
  }
}
