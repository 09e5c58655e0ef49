/** The attribute structures of the records and the entry structures of the log rows, field by field,
    and the bytes they are stored as: each field in its width, one behind the other. */
module Structs {
  import opened Bytes
  import opened Common
  import opened Signature
  import opened Layout
  import opened RecordIO
  import opened EntryLog
  import opened AttrPatch

  // ---------------------------------------------------------------- bytes as characters

  function Chars(s: seq<byte>): (t: string)
    ensures |t| == |s| && forall k :: 0 <= k < |s| ==> t[k] == s[k] as char
  {
    seq(|s|, k requires 0 <= k < |s| => s[k] as char)
  }

  /** Every character fits a byte. */
  predicate Narrow(t: string) {
    forall k :: 0 <= k < |t| ==> t[k] as int < 256
  }

  function Codes(t: string): (s: seq<byte>)
    requires Narrow(t)
    ensures |s| == |t| && forall k :: 0 <= k < |t| ==> s[k] == t[k] as int
  {
    seq(|t|, k requires 0 <= k < |t| => t[k] as int)
  }

  lemma CharsCodes(t: string)
    requires Narrow(t)
    ensures Chars(Codes(t)) == t
  {
  }

  /** The C string in a field. */
  function CText(field: seq<byte>): string {
    var t := Chars(field);
    t[..CharAt(t, '\0')]
  }

  /** A C string in its field, as snprintf leaves it in one that was zero. */
  function Field(t: string, n: nat): (s: seq<byte>)
    requires Narrow(t) && |t| < n
    ensures |s| == n
  {
    Codes(t) + Zeros(n - |t|)
  }

  /** A field holds a string exactly when it begins with its characters and the terminator. */
  lemma CTextIs(field: seq<byte>, t: string)
    requires Narrow(t) && '\0' !in t && |t| < |field|
    ensures CText(field) == t <==> field[..|t| + 1] == Codes(t) + [0]
  {
    var c := Chars(field);
    if field[..|t| + 1] == Codes(t) + [0] {
      assert forall k :: 0 <= k < |t| + 1 ==> c[k] == field[..|t| + 1][k] as char;
      assert forall k :: 0 <= k < |t| ==> c[k] == t[k] && t[k] in t;
      CharAtIs(c, '\0', |t|);
      assert c[..|t|] == t;
    }
    if CText(field) == t {
      assert CharAt(c, '\0') == |t|;
      assert forall k :: 0 <= k < |t| ==> field[k] as char == c[..|t|][k] == t[k];
      assert c[|t|] == '\0';
    }
  }

  /** A header as the code fills it in: one dimension, everything not named zero. */
  function FreshHeader(name: string, bits: u32, count: u64, size: u64): (h: Header)
    requires Narrow(name) && |name| < 256
    ensures h.Wf()
  {
    Header(3096, 1, size, bits, 0, 0, Field(name, 256), Field("TPBLINK", 256), Zeros(2048),
           [count, 0, 0, 0, 0, 0, 0],
           [Zeros(64), Zeros(64), Zeros(64), Zeros(64), Zeros(64), Zeros(64), Zeros(64)])
  }

  // ---------------------------------------------------------------- parts one behind the other

  /** Where each part begins, when parts of these widths stand one behind the other. */
  predicate Starts(ws: seq<nat>, offs: seq<nat>) {
    && |offs| == |ws| > 0 && offs[0] == 0
    && forall i :: 0 < i < |ws| ==> offs[i] == offs[i - 1] + ws[i - 1]
  }

  lemma {:induction false} StartIs(ws: seq<nat>, offs: seq<nat>, i: nat)
    requires Starts(ws, offs) && i < |ws|
    ensures Sum(ws[..i]) == offs[i]
    decreases i
  {
    if i > 0 {
      StartIs(ws, offs, i - 1);
      SumNext(ws, i - 1);
    }
  }

  /** Part i of a row, at its offset. */
  lemma PartAt(parts: seq<seq<byte>>, ws: seq<nat>, offs: seq<nat>, i: nat)
    requires Lengths(parts) == ws && Starts(ws, offs) && i < |ws|
    ensures offs[i] + ws[i] <= |Flat(parts)| && Flat(parts)[offs[i]..offs[i] + ws[i]] == parts[i]
  {
    var f := Flat(parts);
    assert |parts[i]| == Lengths(parts)[i];
    AtWhole(f, f);
    hide *;
    FlatAt(f, 0, parts);
    EachAtPositions(f, 0, parts, ws);
    PositionAt(f, parts, ws, i);
    StartIs(ws, offs, i);
    AtSlice(f, offs[i], parts[i]);
  }

  lemma PositionAt(f: seq<byte>, parts: seq<seq<byte>>, ws: seq<nat>, i: nat)
    requires |parts| == |ws| && PartsAt(f, 0, parts, ws) && i < |ws|
    ensures At(f, Sum(ws[..i]), parts[i])
  {
    hide At;
  }

  /** A write over part i is an update of part i. */
  lemma PartSet(parts: seq<seq<byte>>, ws: seq<nat>, offs: seq<nat>, i: nat, v: seq<byte>)
    requires Lengths(parts) == ws && Starts(ws, offs) && i < |ws| && |v| == ws[i]
    ensures Overwrite(Flat(parts), offs[i], v) == Flat(parts[i := v])
    ensures Lengths(parts[i := v]) == ws
  {
    StartIs(ws, offs, i);
    FlatSet(parts, ws, i, v);
    hide Flat;
    hide Overwrite;
    assert Lengths(parts[i := v]) == Lengths(parts);
  }

  lemma {:induction false} FlatConcat(xs: seq<seq<byte>>, ys: seq<seq<byte>>)
    ensures Flat(xs + ys) == Flat(xs) + Flat(ys)
    decreases xs
  {
    if xs == [] {
      assert xs + ys == ys;
    } else {
      assert (xs + ys)[1..] == xs[1..] + ys;
      FlatConcat(xs[1..], ys);
    }
  }

  /** A run of attributes stands in a record file from the offset of the first to that of the one behind. */
  lemma SpanAt(s: Schema, offs: seq<nat>, base: nat, r: Record, i: nat, k: nat)
    requires r.Wf(s) && HasOffsets(s, offs, base) && i <= k < |offs|
    ensures offs[i] <= offs[k] <= |Image(s, r)| && k <= |r.attrs|
    ensures Image(s, r)[offs[i]..offs[k]] == Flat(r.attrs[i..k])
  {
    AttrsWide(s, r);
    OffsetAt(s, offs, base, i);
    OffsetAt(s, offs, base, k);
    hide *;
    FlatCut(r.attrs, s.widths, i, k);
    ImageAround(s, r);
    Inside(Before(s, r), Flat(r.attrs[..i]), Flat(r.attrs[i..k]), Flat(r.attrs[k..]), Behind(s, r));
  }

  lemma AttrsWide(s: Schema, r: Record)
    requires r.Wf(s)
    ensures Lengths(r.attrs) == s.widths
  {
  }

  lemma OffsetAt(s: Schema, offs: seq<nat>, base: nat, i: nat)
    requires HasOffsets(s, offs, base) && i < |offs|
    ensures |offs| == |s.widths| && offs[i] == 24 + Sum(s.widths[..i])
  {
    hide Sum;
    assert s.FieldOff(i) == offs[i];
  }

  /** The parts before a run, the run, and the parts behind it. */
  lemma FlatCut(parts: seq<seq<byte>>, ws: seq<nat>, i: nat, k: nat)
    requires Lengths(parts) == ws && i <= k <= |ws|
    ensures Flat(parts) == Flat(parts[..i]) + Flat(parts[i..k]) + Flat(parts[k..])
    ensures |Flat(parts[..i])| == Sum(ws[..i]) && |Flat(parts[..i])| + |Flat(parts[i..k])| == Sum(ws[..k])
  {
    assert Lengths(parts[..i]) == ws[..i] && Lengths(parts[..k]) == ws[..k];
    assert parts[..i] + parts[i..k] == parts[..k] && parts[..k] + parts[k..] == parts;
    hide *;
    FlatConcat(parts[..i], parts[i..k]);
    FlatConcat(parts[..k], parts[k..]);
    FlatLen(parts[..i]);
    FlatLen(parts[..k]);
  }

  lemma Inside(a: seq<byte>, b: seq<byte>, m: seq<byte>, c: seq<byte>, d: seq<byte>)
    ensures (a + (b + m + c) + d)[|a| + |b|..|a| + |b| + |m|] == m
  {
    var f := a + (b + m + c) + d;
    assert forall k :: 0 <= k < |m| ==> f[|a| + |b| + k] == m[k];
  }

  lemma ZeroNumbers()
    ensures U32(0) == Zeros(4) && U64(0) == Zeros(8)
  {
    ZeroLe(4);
    ZeroLe(8);
  }

  lemma {:induction false} ZeroLe(n: nat)
    ensures Le(n, 0) == Zeros(n)
  {
    if n > 0 {
      ZeroLe(n - 1);
      assert [0] + Zeros(n - 1) == Zeros(n);
    }
  }

  // ---------------------------------------------------------------- the attributes of a record

  /** Headers and a payload that a record of any domain can hold. */
  predicate Holdable(hs: seq<Header>, payload: seq<byte>) {
    |hs| < TWO32 && |payload| < TWO63 && forall i :: 0 <= i < |hs| ==> hs[i].Wf()
  }

  /** task_attr_t, but for its headers. */
  datatype TaskAttr = TaskAttr(id: Id, deriveTo: Id, inheritFrom: Id, tbatch: Id, kernel: Id, utc: u64, btime: u64,
                               duration: u64, exitCode: u32, handle: u32, pid: u32, tid: u32,
                               ninput: u32, noutput: u32, reserve: u32)
  {
    function Attrs(nheader: u32): (parts: seq<seq<byte>>) {
      [id, deriveTo, inheritFrom, tbatch, kernel, U64(utc), U64(btime), U64(duration), U32(exitCode), U32(handle),
       U32(pid), U32(tid), U32(ninput), U32(noutput), U32(nheader), U32(reserve)]
    }
  }

  lemma TaskWidths(a: TaskAttr, n: u32)
    ensures var s := SchemaOf(Task); Lengths(a.Attrs(n)) == s.widths && a.Attrs(n)[s.nheaderField] == U32(n)
  {
    hide U32;
    hide U64;
  }

  /** The task record with these attributes. */
  function TaskRecord(a: TaskAttr, hs: seq<Header>, payload: seq<byte>): (r: Record)
    requires Holdable(hs, payload)
    ensures r.Wf(SchemaOf(Task))
  {
    TaskWidths(a, |hs|);
    Record(a.Attrs(|hs|), hs, payload)
  }

  lemma LengthsAt(parts: seq<seq<byte>>)
    ensures |parts| == |Lengths(parts)| && forall i :: 0 <= i < |parts| ==> |parts[i]| == Lengths(parts)[i]
  {
  }

  /** Every task record is of this form. */
  lemma TaskAttrOf(r: Record) returns (a: TaskAttr)
    requires r.Wf(SchemaOf(Task))
    ensures Holdable(r.headers, r.payload) && r == TaskRecord(a, r.headers, r.payload)
  {
    var p := r.attrs;
    TaskLengths(r);
    hide SchemaOf;
    hide U32;
    hide U64;
    a := TaskAttr(p[0], p[1], p[2], p[3], p[4], GetU64(p[5]), GetU64(p[6]), GetU64(p[7]), GetU32(p[8]), GetU32(p[9]),
                  GetU32(p[10]), GetU32(p[11]), GetU32(p[12]), GetU32(p[13]), GetU32(p[15]));
    assert a.Attrs(|r.headers|) == p;
  }

  lemma TaskLengths(r: Record)
    requires r.Wf(SchemaOf(Task))
    ensures var p := r.attrs;
            && |p| == 16 && |p[0]| == 20 && |p[1]| == 20 && |p[2]| == 20 && |p[3]| == 20 && |p[4]| == 20
            && |p[5]| == 8 && |p[6]| == 8 && |p[7]| == 8 && |p[8]| == 4 && |p[9]| == 4 && |p[10]| == 4
            && |p[11]| == 4 && |p[12]| == 4 && |p[13]| == 4 && p[14] == U32(|r.headers|) && |p[15]| == 4
  {
    hide Sum;
    hide U32;
    hide Schema.HeaderBase;
    hide Header.Wf;
    assert Lengths(r.attrs) == [20, 20, 20, 20, 20, 8, 8, 8, 4, 4, 4, 4, 4, 4, 4, 4];
    assert r.attrs[14] == U32(|r.headers|);
    hide *;
    LengthsAt(r.attrs);
  }

  /** The bytes from o to e of a task file are the attributes from i to k. */
  lemma TaskSpan(r: Record, i: nat, o: nat, k: nat, e: nat)
    requires r.Wf(SchemaOf(Task)) && i <= k < 16 == |TASK_OFFSETS| && o == TASK_OFFSETS[i] && e == TASK_OFFSETS[k]
    ensures o <= e <= |Image(SchemaOf(Task), r)| && k <= |r.attrs|
    ensures Image(SchemaOf(Task), r)[o..e] == Flat(r.attrs[i..k])
  {
    hide *;
    TaskOffsets();
    SpanAt(SchemaOf(Task), TASK_OFFSETS, 308, r, i, k);
  }

  lemma TaskSpots()
    ensures |TASK_OFFSETS| == 16
    ensures TASK_OFFSETS[0] == 24 && TASK_OFFSETS[1] == 44 && TASK_OFFSETS[2] == 64 && TASK_OFFSETS[3] == 84
    ensures TASK_OFFSETS[7] == 140 && TASK_OFFSETS[9] == 152 && TASK_OFFSETS[12] == 164
    ensures TASK_OFFSETS[14] == 172 && TASK_OFFSETS[15] == 176
  {
  }

  /** tbatch_attr_t, but for its headers. */
  datatype TBatchAttr = TBatchAttr(id: Id, deriveTo: Id, inheritFrom: Id, utc: u64, btime: u64, duration: u64,
                                   host: seq<byte>, user: seq<byte>, frontPid: u32, nkernel: u32, ntask: u32,
                                   nscore: u32, kind: u32)
  {
    predicate Wf() { |host| == 64 && |user| == 64 }

    function Attrs(nheader: u32): (parts: seq<seq<byte>>) {
      [id, deriveTo, inheritFrom, U64(utc), U64(btime), U64(duration), host, user, U32(frontPid), U32(nkernel),
       U32(ntask), U32(nscore), U32(kind), U32(nheader)]
    }
  }

  lemma TBatchWidths(a: TBatchAttr, n: u32)
    requires a.Wf()
    ensures var s := SchemaOf(TBatch); Lengths(a.Attrs(n)) == s.widths && a.Attrs(n)[s.nheaderField] == U32(n)
  {
    hide U32;
    hide U64;
  }

  function TBatchRecord(a: TBatchAttr, hs: seq<Header>, payload: seq<byte>): (r: Record)
    requires a.Wf() && Holdable(hs, payload)
    ensures r.Wf(SchemaOf(TBatch))
  {
    TBatchWidths(a, |hs|);
    Record(a.Attrs(|hs|), hs, payload)
  }

  /** kernel_attr_t, but for its headers. */
  datatype KernelAttr = KernelAttr(id: Id, deriveTo: Id, inheritFrom: Id, name: seq<byte>, version: seq<byte>,
                                   description: seq<byte>, narg: u32, nmetric: u32, kctrl: u32, active: u32, utc: u64)
  {
    predicate Wf() { |name| == 256 && |version| == 64 && |description| == 2048 }

    function Attrs(nheader: u32): (parts: seq<seq<byte>>) {
      [id, deriveTo, inheritFrom, name, version, description, U32(narg), U32(nmetric), U32(kctrl), U32(nheader),
       U32(active), U64(utc)]
    }
  }

  lemma KernelWidths(a: KernelAttr, n: u32)
    requires a.Wf()
    ensures var s := SchemaOf(Kernel); Lengths(a.Attrs(n)) == s.widths && a.Attrs(n)[s.nheaderField] == U32(n)
  {
    hide U32;
    hide U64;
  }

  function KernelRecord(a: KernelAttr, hs: seq<Header>, payload: seq<byte>): (r: Record)
    requires a.Wf() && Holdable(hs, payload)
    ensures r.Wf(SchemaOf(Kernel))
  {
    KernelWidths(a, |hs|);
    Record(a.Attrs(|hs|), hs, payload)
  }

  /** tpb_raf_rtenv_attr_t, but for its headers. IDs are kept as their unsigned patterns. */
  datatype RtEnvAttr = RtEnvAttr(id: u32, name: seq<byte>, host: seq<byte>, utc: u64, inheritFrom: u32, deriveTo: u32,
                                 ntask: u32, ntbatch: u32, note: seq<byte>, napp: u32, nenv: u32, reserve: seq<byte>)
  {
    predicate Wf() { |name| == 256 && |host| == 256 && |note| == 256 && |reserve| == 1024 }

    function Attrs(nheader: u32): (parts: seq<seq<byte>>) {
      [U32(id), name, host, U64(utc), U32(inheritFrom), U32(deriveTo), U32(ntask), U32(ntbatch), note, U32(napp),
       U32(nenv), U32(nheader), reserve]
    }

    /** The row of the log that has these fields. */
    function Parts(): (parts: seq<seq<byte>>) {
      [U32(id), name, host, U64(utc), U32(inheritFrom), U32(deriveTo), U32(ntask), U32(ntbatch), note, U32(napp),
       U32(nenv), reserve]
    }

    function Row(): seq<byte> { Flat(Parts()) }
  }

  lemma RtEnvWidths(a: RtEnvAttr, n: u32)
    requires a.Wf()
    ensures var s := SchemaOf(RtEnv); Lengths(a.Attrs(n)) == s.widths && a.Attrs(n)[s.nheaderField] == U32(n)
  {
    hide U32;
    hide U64;
  }

  function RtEnvRecord(a: RtEnvAttr, hs: seq<Header>, payload: seq<byte>): (r: Record)
    requires a.Wf() && Holdable(hs, payload)
    ensures r.Wf(SchemaOf(RtEnv))
  {
    RtEnvWidths(a, |hs|);
    Record(a.Attrs(|hs|), hs, payload)
  }

  /** Every record of a runtime environment is of this form, */
  lemma RtEnvAttrOf(r: Record) returns (a: RtEnvAttr)
    requires r.Wf(SchemaOf(RtEnv))
    ensures a.Wf() && Holdable(r.headers, r.payload) && r == RtEnvRecord(a, r.headers, r.payload)
  {
    var p := r.attrs;
    RtEnvLengths(r);
    hide SchemaOf;
    hide U32;
    hide U64;
    a := RtEnvAttr(GetU32(p[0]), p[1], p[2], GetU64(p[3]), GetU32(p[4]), GetU32(p[5]), GetU32(p[6]), GetU32(p[7]),
                   p[8], GetU32(p[9]), GetU32(p[10]), p[12]);
    assert a.Attrs(|r.headers|) == p;
  }

  lemma RtEnvLengths(r: Record)
    requires r.Wf(SchemaOf(RtEnv))
    ensures var p := r.attrs;
            && |p| == 13 && |p[0]| == 4 && |p[1]| == 256 && |p[2]| == 256 && |p[3]| == 8 && |p[4]| == 4
            && |p[5]| == 4 && |p[6]| == 4 && |p[7]| == 4 && |p[8]| == 256 && |p[9]| == 4 && |p[10]| == 4
            && p[11] == U32(|r.headers|) && |p[12]| == 1024
  {
    assert Lengths(r.attrs) == [4, 256, 256, 8, 4, 4, 4, 4, 256, 4, 4, 4, 1024];
    assert r.attrs[11] == U32(|r.headers|);
    hide *;
    LengthsAt(r.attrs);
  }

  /** Where the count of headers stands in the files of the four domains. */
  lemma CountsStand(hs: seq<Header>, payload: seq<byte>, t: TaskAttr, b: TBatchAttr, k: KernelAttr, e: RtEnvAttr)
    requires Holdable(hs, payload) && b.Wf() && k.Wf() && e.Wf()
    ensures At(Image(SchemaOf(Task), TaskRecord(t, hs, payload)), 172, U32(|hs|))
    ensures At(Image(SchemaOf(TBatch), TBatchRecord(b, hs, payload)), 256, U32(|hs|))
    ensures At(Image(SchemaOf(Kernel), KernelRecord(k, hs, payload)), 2464, U32(|hs|))
    ensures At(Image(SchemaOf(RtEnv), RtEnvRecord(e, hs, payload)), 828, U32(|hs|))
  {
    assert |hs| < 0x1_0000_0000;
    CountOffsets();
    hide *;
    CountStands(SchemaOf(Task), TaskRecord(t, hs, payload));
    CountStands(SchemaOf(TBatch), TBatchRecord(b, hs, payload));
    CountStands(SchemaOf(Kernel), KernelRecord(k, hs, payload));
    CountStands(SchemaOf(RtEnv), RtEnvRecord(e, hs, payload));
  }

  lemma CountStands(s: Schema, r: Record)
    requires r.Wf(s)
    ensures |r.headers| < 0x1_0000_0000
    ensures s.nheaderField <= |s.widths| && At(Image(s, r), s.FieldOff(s.nheaderField), U32(|r.headers|))
  {
    hide Image;
    hide Preamble;
    ImageParts(Image(s, r), s, r);
    NHeaderAt(Image(s, r), s, r);
  }

  lemma CountOffsets()
    ensures forall d :: SchemaOf(d).nheaderField <= |SchemaOf(d).widths|
    ensures SchemaOf(Task).FieldOff(SchemaOf(Task).nheaderField) == 172
    ensures SchemaOf(TBatch).FieldOff(SchemaOf(TBatch).nheaderField) == 256
    ensures SchemaOf(Kernel).FieldOff(SchemaOf(Kernel).nheaderField) == 2464
    ensures SchemaOf(RtEnv).FieldOff(SchemaOf(RtEnv).nheaderField) == 828
  {
    hide Schema.FieldOff;
    hide Sum;
    TaskCountAt();
    TBatchCountAt();
    KernelCountAt();
    RtEnvCountAt();
  }

  lemma TaskCountAt()
    ensures SchemaOf(Task).nheaderField <= |SchemaOf(Task).widths|
    ensures SchemaOf(Task).FieldOff(SchemaOf(Task).nheaderField) == 172
  {
    TaskOffsets();
    hide Schema.FieldOff;
    assert TASK_OFFSETS[14] == 172;
  }

  lemma TBatchCountAt()
    ensures SchemaOf(TBatch).nheaderField <= |SchemaOf(TBatch).widths|
    ensures SchemaOf(TBatch).FieldOff(SchemaOf(TBatch).nheaderField) == 256
  {
    TBatchOffsets();
    hide Schema.FieldOff;
    assert TBATCH_OFFSETS[13] == 256;
  }

  lemma KernelCountAt()
    ensures SchemaOf(Kernel).nheaderField <= |SchemaOf(Kernel).widths|
    ensures SchemaOf(Kernel).FieldOff(SchemaOf(Kernel).nheaderField) == 2464
  {
    KernelOffsets();
    hide Schema.FieldOff;
    assert KERNEL_OFFSETS[9] == 2464;
  }

  lemma RtEnvCountAt()
    ensures SchemaOf(RtEnv).nheaderField <= |SchemaOf(RtEnv).widths|
    ensures SchemaOf(RtEnv).FieldOff(SchemaOf(RtEnv).nheaderField) == 828
  {
    RtEnvOffsets();
    hide Schema.FieldOff;
    assert RTENV_OFFSETS[11] == 828;
  }

  // ---------------------------------------------------------------- the rows of the logs

  const RTENV_ROW: seq<nat> := [4, 256, 256, 8, 4, 4, 4, 4, 256, 4, 4, 1024]
  const RTENV_STARTS: seq<nat> := [0, 4, 260, 516, 524, 528, 532, 536, 540, 796, 800, 804]

  lemma RtEnvRowWidths(a: RtEnvAttr)
    requires a.Wf()
    ensures Lengths(a.Parts()) == RTENV_ROW && Starts(RTENV_ROW, RTENV_STARTS) && |a.Row()| == 1828
  {
    assert Lengths(a.Parts()) == RTENV_ROW by {
      hide U32;
      hide U64;
    }
    assert a.Row() == Flat(a.Parts());
    hide *;
    RtEnvRowSum();
    FlatLen(a.Parts());
  }

  /** and every row of the width, of that one. */
  lemma RtEnvRowOf(row: seq<byte>) returns (a: RtEnvAttr)
    requires |row| == 1828
    ensures a.Wf() && a.Row() == row
  {
    hide *;
    RtEnvRowSum();
    var p := Pieces(row, 0, RTENV_ROW);
    RowPieces(row, RTENV_ROW);
    RtEnvPieces(p);
    a := RtEnvAttr(GetU32(p[0]), p[1], p[2], GetU64(p[3]), GetU32(p[4]), GetU32(p[5]), GetU32(p[6]), GetU32(p[7]),
                   p[8], GetU32(p[9]), GetU32(p[10]), p[11]);
    RtEnvParts(a, p);
  }

  lemma RtEnvParts(a: RtEnvAttr, p: seq<seq<byte>>)
    requires |p| == 12 && |p[0]| == 4 && |p[1]| == 256 && |p[2]| == 256 && |p[3]| == 8 && |p[4]| == 4
             && |p[5]| == 4 && |p[6]| == 4 && |p[7]| == 4 && |p[8]| == 256 && |p[9]| == 4 && |p[10]| == 4
             && |p[11]| == 1024
    requires a == RtEnvAttr(GetU32(p[0]), p[1], p[2], GetU64(p[3]), GetU32(p[4]), GetU32(p[5]), GetU32(p[6]),
                            GetU32(p[7]), p[8], GetU32(p[9]), GetU32(p[10]), p[11])
    ensures a.Wf() && a.Row() == Flat(p)
  {
    hide U32;
    hide U64;
    hide GetU32;
    hide GetU64;
    hide Flat;
    assert a.Parts() == p;
  }

  lemma RtEnvPieces(p: seq<seq<byte>>)
    requires Lengths(p) == RTENV_ROW
    ensures |p| == 12 && |p[0]| == 4 && |p[1]| == 256 && |p[2]| == 256 && |p[3]| == 8 && |p[4]| == 4
            && |p[5]| == 4 && |p[6]| == 4 && |p[7]| == 4 && |p[8]| == 256 && |p[9]| == 4 && |p[10]| == 4
            && |p[11]| == 1024
  {
    assert Lengths(p) == [4, 256, 256, 8, 4, 4, 4, 4, 256, 4, 4, 1024];
    hide *;
    LengthsAt(p);
  }

  /** A row cut into pieces and put together again. */
  lemma RowPieces(row: seq<byte>, ws: seq<nat>)
    requires Sum(ws) == |row|
    ensures Lengths(Pieces(row, 0, ws)) == ws && Flat(Pieces(row, 0, ws)) == row
  {
    FlatPieces(row, 0, ws);
    AtWhole(row, Flat(Pieces(row, 0, ws)));
  }

  /** The rows of a list of entries. */
  function RtEnvRows(es: seq<RtEnvAttr>): (rows: seq<seq<byte>>)
    requires forall i :: 0 <= i < |es| ==> es[i].Wf()
    ensures |rows| == |es| && RowsOf(rows, 1828) && forall i :: 0 <= i < |es| ==> rows[i] == es[i].Row()
  {
    RowsWide(es);
    seq(|es|, i requires 0 <= i < |es| => es[i].Row())
  }

  lemma RowsSet(es: seq<RtEnvAttr>, i: nat, e: RtEnvAttr)
    requires (forall k :: 0 <= k < |es| ==> es[k].Wf()) && i < |es| && e.Wf()
    ensures var t := es[i := e];
            (forall k :: 0 <= k < |t| ==> t[k].Wf()) && RtEnvRows(t) == RtEnvRows(es)[i := e.Row()]
  {
    hide RtEnvAttr.Row;
    hide RtEnvAttr.Wf;
  }

  lemma RowsWide(es: seq<RtEnvAttr>)
    requires forall i :: 0 <= i < |es| ==> es[i].Wf()
    ensures forall i :: 0 <= i < |es| ==> |es[i].Row()| == 1828
  {
    forall i | 0 <= i < |es|
      ensures |es[i].Row()| == 1828
    {
      RtEnvRowWidths(es[i]);
    }
  }

  lemma RtEnvRowSum()
    ensures Starts(RTENV_ROW, RTENV_STARTS) && Sum(RTENV_ROW) == 1828
  {
    hide Sum;
    assert Starts(RTENV_ROW, RTENV_STARTS);
    assert RTENV_ROW[..12] == RTENV_ROW && RTENV_STARTS[11] == 804 && RTENV_ROW[11] == 1024;
    StartIs(RTENV_ROW, RTENV_STARTS, 11);
    SumNext(RTENV_ROW, 11);
  }

  /** task_entry_t: a row of the log of tasks. */
  datatype TaskEntry = TaskEntry(id: Id, inheritFrom: Id, tbatch: Id, kernel: Id, utc: u64, duration: u64,
                                 exitCode: u32, handle: u32, deriveTo: Id, reserve: seq<byte>)
  {
    predicate Wf() { |reserve| == 108 }

    function Parts(): (parts: seq<seq<byte>>) {
      [id, inheritFrom, tbatch, kernel, U64(utc), U64(duration), U32(exitCode), U32(handle), deriveTo, reserve]
    }

    function Row(): seq<byte> { Flat(Parts()) }
  }

  const TASK_ENTRY: seq<nat> := [20, 20, 20, 20, 8, 8, 4, 4, 20, 108]
  const TASK_STARTS: seq<nat> := [0, 20, 40, 60, 80, 88, 96, 100, 104, 124]

  lemma TaskRowWidths(e: TaskEntry)
    requires e.Wf()
    ensures Lengths(e.Parts()) == TASK_ENTRY && Starts(TASK_ENTRY, TASK_STARTS) && |e.Row()| == 232
  {
    assert Lengths(e.Parts()) == TASK_ENTRY by {
      hide U32;
      hide U64;
    }
    assert e.Row() == Flat(e.Parts());
    hide *;
    TaskRowSum();
    FlatLen(e.Parts());
  }

  lemma TaskRowSum()
    ensures Starts(TASK_ENTRY, TASK_STARTS) && Sum(TASK_ENTRY) == 232
  {
    hide Sum;
    assert Starts(TASK_ENTRY, TASK_STARTS);
    assert TASK_ENTRY[..10] == TASK_ENTRY && TASK_STARTS[9] == 124 && TASK_ENTRY[9] == 108;
    StartIs(TASK_ENTRY, TASK_STARTS, 9);
    SumNext(TASK_ENTRY, 9);
  }

  /** tbatch_entry_t: a row of the log of batches. */
  datatype TBatchEntry = TBatchEntry(id: Id, inheritFrom: Id, utc: u64, duration: u64, host: seq<byte>, nkernel: u32,
                                     ntask: u32, nscore: u32, kind: u32, reserve: seq<byte>)
  {
    predicate Wf() { |host| == 64 && |reserve| == 128 }

    function Row(): seq<byte> {
      Flat([id, inheritFrom, U64(utc), U64(duration), host, U32(nkernel), U32(ntask), U32(nscore), U32(kind), reserve])
    }
  }
}
