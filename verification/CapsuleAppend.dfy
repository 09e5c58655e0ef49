/** Appending a TaskRecordID to a task capsule, in place. */
module CapsuleAppend {
  import opened Bytes
  import opened Common
  import opened Signature
  import opened Layout
  import opened Disk
  import opened RecordIO

  const DATASIZE_OFF: nat := 16
  const NHEADER_OFF: nat := 172
  const HDR0_BASE: nat := 308
  const HDR0_DATASIZE_OFF: nat := 316
  const HDR0_NAME_OFF: nat := 340
  const HDR0_DIM0_OFF: nat := 2900

  // ---------------------------------------------------------------- what one call does to a file

  function EndOff(size: u64, ndim: u32): int {
    HDR0_BASE + 2592 + 8 * ndim + 64 * ndim + 8 + ToLong(size)
  }

  /** The checks of the function, all of which precede its first write. */
  predicate Accepts(f: seq<byte>) {
    && |f| >= 596 && At(f, 0, Magic(Rec, Task, Start))
    && At(f, NHEADER_OFF, U32(1)) && At(f, HDR0_NAME_OFF, TASK_ID_NAME)
    && SizeOf(f) % 20 == 0
    && var e := EndOff(SizeOf(f), NdimOf(f));
       0 <= e && At(f, e, Magic(Rec, Task, End))
  }

  function SizeOf(f: seq<byte>): u64
    requires |f| >= 596
  {
    GetU64(f[DATASIZE_OFF..DATASIZE_OFF + 8])
  }

  function NdimOf(f: seq<byte>): u32
    requires |f| >= 596
  {
    GetU32(f[HDR0_BASE + 4..HDR0_BASE + 8])
  }

  /** The writes of the function, in order: the ID over the old END at e, a new END, three sizes. */
  function Edits(e: nat, size: u64, id: seq<byte>): seq<Edit> {
    [Edit(e, id), Edit(e + 20, Magic(Rec, Task, End)), Edit(DATASIZE_OFF, U64(size)),
     Edit(HDR0_DATASIZE_OFF, U64(size)), Edit(HDR0_DIM0_OFF, U64(size / 20))]
  }

  function Patched(f: seq<byte>, id: seq<byte>): seq<byte>
    requires Accepts(f)
  {
    Apply(f, Edits(EndOff(SizeOf(f), NdimOf(f)), PlusId(SizeOf(f)), id))
  }

  method Check(file: DiskFile) returns (ok: bool, size: u64, ndim: u32)
    requires file.pos == 0
    modifies file`pos
    ensures ok == Accepts(file.data)
    ensures ok ==> size == SizeOf(file.data) && ndim == NdimOf(file.data)
  {
    hide Magic;
    hide U32;
    hide U64;
    ghost var f := file.data;
    hide At;
    size, ndim := 0, 0;
    ok := file.Expect(Magic(Rec, Task, Start), 8);
    if !ok { return; }
    var metasize, nheader;
    ok, metasize := file.ReadU64();
    if !ok { return; }
    ok, size := file.ReadU64();
    if !ok { return; }
    ok, nheader := file.U32At(NHEADER_OFF);
    AtSlice(f, NHEADER_OFF, U32(1));
    if !ok || nheader != 1 { return false, 0, 0; }
    ok := file.Seek(HDR0_NAME_OFF);
    ok := file.Expect(TASK_ID_NAME, 256);
    if !ok || size % 20 != 0 { return false, 0, 0; }
    ok, ndim := file.U32At(HDR0_BASE + 4);
    if !ok { return; }
    var e := EndOff(size, ndim);
    ok := file.Seek(e);
    if !ok { return; }
    ok := file.Expect(Magic(Rec, Task, End), 8);
  }

  /** tpb_raf_record_append_task_capsule on the opened, locked file. */
  method Append(file: DiskFile, id: seq<byte>) returns (ok: bool)
    requires file.pos == 0 && |id| == 20
    modifies file
    ensures ok == Accepts(old(file.data))
    ensures file.data == if ok then Patched(old(file.data), id) else old(file.data)
  {
    var size, ndim;
    ok, size, ndim := Check(file);
    if ok {
      PatchedBy(file.data, id);
      hide *;
      WriteEdits(file, EndOff(size, ndim), PlusId(size), id);
    }
  }

  lemma PatchedBy(f: seq<byte>, id: seq<byte>)
    requires Accepts(f)
    ensures |f| >= 596 && EndOff(SizeOf(f), NdimOf(f)) >= 0
    ensures Patched(f, id) == Apply(f, Edits(EndOff(SizeOf(f), NdimOf(f)), PlusId(SizeOf(f)), id))
  {
    hide Edits;
    hide Apply;
    hide At;
    hide EndOff;
  }

  /** The writes at the end of the function. */
  method WriteEdits(file: DiskFile, e: nat, size: u64, id: seq<byte>)
    modifies file
    ensures file.data == Apply(old(file.data), Edits(e, size, id))
  {
    hide Magic;
    hide U64;
    hide Overwrite;
    ghost var f, es := file.data, [];
    file.WriteAt(e, id, f, es);
    es := es + [Edit(e, id)];
    file.WriteAt(e + 20, Magic(Rec, Task, End), f, es);
    es := es + [Edit(e + 20, Magic(Rec, Task, End))];
    file.WriteAt(DATASIZE_OFF, U64(size), f, es);
    es := es + [Edit(DATASIZE_OFF, U64(size))];
    file.WriteAt(HDR0_DATASIZE_OFF, U64(size), f, es);
    es := es + [Edit(HDR0_DATASIZE_OFF, U64(size))];
    file.WriteAt(HDR0_DIM0_OFF, U64(size / 20), f, es);
    es := es + [Edit(HDR0_DIM0_OFF, U64(size / 20))];
    assert es == Edits(e, size, id);
  }

  // ---------------------------------------------------------------- what it means for the record

  /** A capsule record: one header, named TaskID, over whole 20-byte IDs. */
  predicate IsCapsule(r: Record) {
    && r.Wf(SchemaOf(Task)) && |r.headers| == 1 && r.headers[0].name[..7] == TASK_ID_NAME
    && |r.payload| % 20 == 0 && |r.payload| + 20 < TWO63
  }

  /** The record with one more ID in its payload and the sizes that go with it. */
  function Grown(r: Record, id: seq<byte>): (r': Record)
    requires IsCapsule(r) && |id| == 20 && r.headers[0].ndim >= 1
    ensures r'.Wf(SchemaOf(Task))
    ensures |r'.payload| + 20 < TWO63 ==> IsCapsule(r')
  {
    var n := |r.payload| + 20;
    var h := r.headers[0];
    Record(r.attrs, [h.(dataSize := n, dimSizes := h.dimSizes[0 := n / 20])], r.payload + id)
  }

  /** The bytes between the patched fields. */
  predicate Untouched(o: nat, n: nat, e: nat) {
    || o + n <= 16 || (24 <= o && o + n <= 316) || (324 <= o && o + n <= 2900)
    || (2908 <= o && o + n <= e)
  }

  lemma EditsClear(e: nat, size: u64, id: seq<byte>, o: nat, n: nat)
    requires |id| == 20 && e >= 2908 && Untouched(o, n, e)
    ensures Clear(o, n, Edits(e, size, id))
  {
  }

  lemma EditsLand(f: seq<byte>, e: nat, size: u64, id: seq<byte>)
    requires |id| == 20 && e >= 2908 && |f| == e + 8
    ensures var f' := Apply(f, Edits(e, size, id));
            && |f'| == e + 28
            && At(f', e, id) && At(f', e + 20, Magic(Rec, Task, End))
            && At(f', 16, U64(size)) && At(f', 316, U64(size)) && At(f', 2900, U64(size / 20))
  {
    var es := Edits(e, size, id);
    hide U64;
    hide Magic;
    hide Apply;
    hide At;
    ApplyLen(f, es);
    MaxEndIs(|f|, es, 1);
    AllLand(f, es);
    var f' := Apply(f, es);
    assert At(f', es[0].off, es[0].bytes) && At(f', es[1].off, es[1].bytes);
    assert At(f', es[2].off, es[2].bytes) && At(f', es[3].off, es[3].bytes);
    assert At(f', es[4].off, es[4].bytes);
  }

  function E(r: Record): nat
    requires |r.headers| == 1
  {
    308 + 2592 + 72 * r.headers[0].ndim + 8 + |r.payload|
  }

  /** Where the parts of a capsule file stand. */
  lemma CapsuleFacts(f: seq<byte>, r: Record)
    requires r.Wf(SchemaOf(Task)) && |r.headers| == 1 && f == Image(SchemaOf(Task), r)
    ensures At(f, 0, Preamble(SchemaOf(Task), r)) && HeaderAt(f, 308, r.headers[0])
    ensures BodyAt(f, E(r) - 8 - |r.payload|, Task, r.payload) && |f| == E(r) + 8
    ensures |Flat(r.attrs)| + ReserveOf() == 284
  {
    hide SchemaOf;
    hide Image;
    hide Preamble;
    hide HeaderBytes;
    hide HeaderAt;
    hide Sum;
    var s := SchemaOf(Task);
    TaskNumbers();
    ImageParts(f, s, r);
    AttrsLen(s, r);
    var h := r.headers[0];
    assert r.headers == [h];
    HeadersOne(h);
    HeaderFieldsAt(f, 308, h);
  }

  lemma TaskNumbers()
    ensures var s := SchemaOf(Task);
            && s.Valid() && s.dom == Task && s.HeaderBase() == 308
            && s.nheaderField == 14 && s.FieldOff(14) == 172
  {
    TaskOffsets();
    assert TASK_OFFSETS[14] == 172;
  }

  function ReserveOf(): nat {
    SchemaOf(Task).reserveLen
  }

  lemma HeadersOne(h: Header)
    requires h.Wf()
    ensures HeadersBytes([h]) == HeaderBytes(h) && HeadersLen([h]) == HeaderLen(h)
  {
  }

  lemma AtPrefix(f: seq<byte>, o: nat, t: seq<byte>, n: nat)
    requires At(f, o, t) && n <= |t|
    ensures At(f, o, t[..n])
  {
  }

  /** Every capsule file passes the checks, and the sizes the function reads are the record's. */
  lemma CapsuleAccepted(f: seq<byte>, r: Record)
    requires IsCapsule(r) && f == Image(SchemaOf(Task), r)
    ensures Accepts(f) && SizeOf(f) == |r.payload| && NdimOf(f) == r.headers[0].ndim
    ensures EndOff(SizeOf(f), NdimOf(f)) == E(r)
  {
    CapsuleNumbers(f, r);
    CapsuleFacts(f, r);
    hide SchemaOf;
    hide Preamble;
    hide Image;
    hide Magic;
    hide HeaderAt;
    hide SizeOf;
    hide NdimOf;
    hide Flat;
    hide At;
    hide U32;
    hide U64;
  }

  /** The names and numbers that the checks read. */
  lemma CapsuleNumbers(f: seq<byte>, r: Record)
    requires IsCapsule(r) && f == Image(SchemaOf(Task), r)
    ensures |f| >= 596 && SizeOf(f) == |r.payload| && NdimOf(f) == r.headers[0].ndim
    ensures At(f, 0, Magic(Rec, Task, Start)) && At(f, NHEADER_OFF, U32(1)) && At(f, HDR0_NAME_OFF, TASK_ID_NAME)
  {
    hide SchemaOf;
    hide Preamble;
    hide Image;
    hide Magic;
    hide BodyAt;
    hide U32;
    hide U64;
    hide Flat;
    var s, h := SchemaOf(Task), r.headers[0];
    TaskNumbers();
    CapsuleFacts(f, r);
    NHeaderAt(f, s, r);
    AtPrefix(f, 340, h.name, 7);
    AtSlice(f, 16, U64(|r.payload|));
    AtSlice(f, 312, U32(h.ndim));
    hide At;
  }

  /** What lies between the patched fields of `f` lies there in the patched file. */
  lemma Kept(f: seq<byte>, e: nat, size: u64, id: seq<byte>, o: nat, t: seq<byte>)
    requires |id| == 20 && e >= 2908 && At(f, o, t) && Untouched(o, |t|, e)
    ensures At(Apply(f, Edits(e, size, id)), o, t)
  {
    EditsClear(e, size, id, o, |t|);
    ApplyFrame(f, Edits(e, size, id), o, t);
  }

  lemma PreambleGrows(f: seq<byte>, r: Record, id: seq<byte>)
    requires IsCapsule(r) && |id| == 20 && r.headers[0].ndim >= 1 && f == Image(SchemaOf(Task), r)
    ensures var f' := Apply(f, Edits(E(r), |r.payload| + 20, id));
            At(f', 0, Preamble(SchemaOf(Task), Grown(r, id)))
  {
    hide SchemaOf;
    hide Image;
    hide U64;
    hide Magic;
    hide Flat;
    hide Sum;
    hide Edits;
    hide Apply;
    hide At;
    var s, n, e := SchemaOf(Task), |r.payload| + 20, E(r);
    var f' := Apply(f, Edits(e, n, id));
    TaskNumbers();
    CapsuleFacts(f, r);
    AttrsLen(s, r);
    var meta, attrs, z := U64(s.MetaSize(1)), Flat(r.attrs), Zeros(s.reserveLen);
    FiveAt(f, 0, Magic(Rec, Task, Start), meta, U64(|r.payload|), attrs, z);
    Kept(f, e, n, id, 0, Magic(Rec, Task, Start));
    Kept(f, e, n, id, 8, meta);
    Kept(f, e, n, id, 24, attrs);
    Kept(f, e, n, id, 24 + |attrs|, z);
    EditsLand(f, e, n, id);
    FiveAt(f', 0, Magic(Rec, Task, Start), meta, U64(n), attrs, z);
  }

  lemma HeaderGrows(f: seq<byte>, e: nat, h: Header, n: u64, id: seq<byte>)
    requires |id| == 20 && h.Wf() && h.ndim >= 1 && HeaderAt(f, 308, h) && |f| == e + 8
    requires e >= 308 + 2592 + 72 * h.ndim
    ensures var f' := Apply(f, Edits(e, n, id));
            HeaderAt(f', 308, h.(dataSize := n, dimSizes := h.dimSizes[0 := n / 20]))
  {
    hide U32;
    hide U64;
    hide Edits;
    hide Apply;
    hide At;
    hide Flat;
    var f' := Apply(f, Edits(e, n, id));
    var dims, names := h.dimSizes[..h.ndim], Flat(h.dimNames[..h.ndim]);
    FlatLenUniform(h.dimNames[..h.ndim], 64);
    Kept(f, e, n, id, 308, U32(FIXED_HEADER_SIZE));
    Kept(f, e, n, id, 312, U32(h.ndim));
    Kept(f, e, n, id, 324, U32(h.typeBits));
    Kept(f, e, n, id, 328, U32(h.reserve));
    Kept(f, e, n, id, 332, U64(h.uattr));
    Kept(f, e, n, id, 340, h.name);
    Kept(f, e, n, id, 596, h.tag);
    Kept(f, e, n, id, 852, h.note);
    Kept(f, e, n, id, 2900 + 8 * h.ndim, names);
    assert dims[0 := n / 20] == h.dimSizes[0 := n / 20][..h.ndim];
    AtAppend(f, 2900, U64(dims[0]), Dims(dims[1..]));
    Kept(f, e, n, id, 2908, Dims(dims[1..]));
    EditsLand(f, e, n, id);
    AtAppend(f', 2900, U64(n / 20), Dims(dims[1..]));
    assert dims[0 := n / 20][1..] == dims[1..];
  }

  lemma BodyGrows(f: seq<byte>, e: nat, payload: seq<byte>, n: u64, id: seq<byte>)
    requires |id| == 20 && e >= 2916 + |payload| && BodyAt(f, e - 8 - |payload|, Task, payload)
    requires |f| == e + 8
    ensures var f' := Apply(f, Edits(e, n, id));
            BodyAt(f', e - 8 - |payload|, Task, payload + id)
  {
    hide Magic;
    hide Edits;
    hide Apply;
    hide At;
    var f' := Apply(f, Edits(e, n, id));
    Kept(f, e, n, id, e - 8 - |payload|, Magic(Rec, Task, Split));
    Kept(f, e, n, id, e - |payload|, payload);
    EditsLand(f, e, n, id);
    AtAppend(f', e - |payload|, payload, id);
  }

  lemma Assemble(f: seq<byte>, s: Schema, r: Record)
    requires r.Wf(s) && |r.headers| == 1 && At(f, 0, Preamble(s, r))
    requires HeaderAt(f, s.HeaderBase(), r.headers[0])
    requires BodyAt(f, s.HeaderBase() + HeaderLen(r.headers[0]), s.dom, r.payload)
    ensures f == Image(s, r)
  {
    hide Preamble;
    hide HeaderAt;
    hide BodyAt;
    hide Image;
    hide HeaderBytes;
    HeaderFieldsAt(f, s.HeaderBase(), r.headers[0]);
    HeadersOne(r.headers[0]);
    assert r.headers == [r.headers[0]];
    ImageParts(f, s, r);
  }

  lemma PatchedIs(f: seq<byte>, r: Record, id: seq<byte>)
    requires IsCapsule(r) && |id| == 20 && f == Image(SchemaOf(Task), r)
    ensures Accepts(f) && Patched(f, id) == Apply(f, Edits(E(r), |r.payload| + 20, id))
  {
    CapsuleRoom(r);
    hide *;
    CapsuleAccepted(f, r);
    PatchedBy(f, id);
    PlusIdIs(|r.payload|);
  }

  lemma CapsuleRoom(r: Record)
    requires IsCapsule(r)
    ensures |r.payload| + 20 < 0x1_0000_0000_0000_0000 && |r.headers| == 1
  {
    hide SchemaOf;
  }

  /** Appending in place refines appending to the list: the patched file of a capsule is, byte for
      byte, the file written from scratch for the record with one more ID. */
  lemma AppendRefines(r: Record, id: seq<byte>)
    requires IsCapsule(r) && |id| == 20 && r.headers[0].ndim >= 1
    ensures Accepts(Image(SchemaOf(Task), r))
    ensures Patched(Image(SchemaOf(Task), r), id) == Image(SchemaOf(Task), Grown(r, id))
  {
    hide *;
    GrownShape(r, id);
    var s, e := SchemaOf(Task), E(r);
    var f := Image(s, r);
    PatchedIs(f, r, id);
    CapsuleFacts(f, r);
    PreambleGrows(f, r, id);
    HeaderGrows(f, e, r.headers[0], |r.payload| + 20, id);
    BodyGrows(f, e, r.payload, |r.payload| + 20, id);
    TaskNumbers();
    Assemble(Apply(f, Edits(e, |r.payload| + 20, id)), s, Grown(r, id));
  }

  lemma GrownShape(r: Record, id: seq<byte>)
    requires IsCapsule(r) && |id| == 20 && r.headers[0].ndim >= 1
    ensures var r', h, n := Grown(r, id), r.headers[0], |r.payload| + 20;
            && r.Wf(SchemaOf(Task)) && |r.headers| == 1 && h.Wf() && |h.dimSizes| == 7
            && n < TWO64 == 0x1_0000_0000_0000_0000
            && |r'.headers| == 1 && r'.headers[0] == h.(dataSize := n, dimSizes := h.dimSizes[0 := n / 20])
            && r'.payload == r.payload + id
            && HeaderLen(r'.headers[0]) == HeaderLen(h) == 2592 + 72 * h.ndim
            && E(r) == 308 + HeaderLen(h) + 8 + |r.payload|
  {
    hide SchemaOf;
  }

  /** Any number of appends: the payload grows by the IDs in the order of the calls. */
  function GrownAll(r: Record, ids: seq<seq<byte>>): (r': Record)
    requires IsCapsule(r) && r.headers[0].ndim >= 1
    requires (forall i :: 0 <= i < |ids| ==> |ids[i]| == 20) && |r.payload| + 20 * |ids| + 20 < TWO63
    ensures IsCapsule(r') && r'.headers[0].ndim == r.headers[0].ndim
    decreases ids
  {
    if ids == [] then r else GrownAll(Grown(r, ids[0]), ids[1..])
  }

  function PatchedAll(f: seq<byte>, ids: seq<seq<byte>>): seq<byte>
    decreases ids
  {
    if ids == [] || !Accepts(f) then f else PatchedAll(Patched(f, ids[0]), ids[1..])
  }

  lemma {:induction false} AppendsRefine(r: Record, ids: seq<seq<byte>>)
    requires IsCapsule(r) && r.headers[0].ndim >= 1
    requires (forall i :: 0 <= i < |ids| ==> |ids[i]| == 20) && |r.payload| + 20 * |ids| + 20 < TWO63
    ensures PatchedAll(Image(SchemaOf(Task), r), ids) == Image(SchemaOf(Task), GrownAll(r, ids))
    ensures GrownAll(r, ids).payload == r.payload + Flat(ids)
    ensures GrownAll(r, ids).attrs == r.attrs
    decreases ids
  {
    hide SchemaOf;
    hide Image;
    hide Accepts;
    hide Patched;
    if ids == [] {
      assert r.payload + [] == r.payload;
    } else {
      var id, more, f := ids[0], ids[1..], Image(SchemaOf(Task), r);
      AppendRefines(r, id);
      GrownNext(r, ids);
      PatchedNext(f, ids);
      FlatHead(ids);
      hide *;
      AppendsRefine(Grown(r, id), more);
      assert r.payload + id + Flat(more) == r.payload + (id + Flat(more));
    }
  }

  lemma GrownNext(r: Record, ids: seq<seq<byte>>)
    requires IsCapsule(r) && r.headers[0].ndim >= 1 && ids != []
    requires (forall i :: 0 <= i < |ids| ==> |ids[i]| == 20) && |r.payload| + 20 * |ids| + 20 < TWO63
    ensures var s := Grown(r, ids[0]);
            && IsCapsule(s) && s.headers[0].ndim >= 1 && s.payload == r.payload + ids[0] && s.attrs == r.attrs
            && GrownAll(r, ids) == GrownAll(s, ids[1..])
  {
    hide SchemaOf;
  }

  lemma PatchedNext(f: seq<byte>, ids: seq<seq<byte>>)
    requires ids != [] && Accepts(f)
    ensures PatchedAll(f, ids) == PatchedAll(Patched(f, ids[0]), ids[1..])
  {
    hide Accepts;
    hide Patched;
  }

  // ---------------------------------------------------------------- the header needs a dimension

  lemma SplitIsLarge(n: u64)
    requires U64(n) == Magic(Rec, Task, Split)
    ensures n >= TWO63
  {
    var m := Magic(Rec, Task, Split);
    var t := [m[4], m[5], m[6], m[7]];
    assert m[1..][1..][1..][1..] == t;
    assert t[1..][1..][1..] == [0xE0];
    assert [0xE0][1..] == [];
    assert UnLe([0xE0]) == 0xE0;
    assert UnLe(t[1..][1..]) == m[6] as int + 0x100 * 0xE0;
    assert UnLe(t[1..]) == m[5] + 0x100 * UnLe(t[1..][1..]);
    assert UnLe(t) == m[4] + 0x100 * UnLe(t[1..]);
    assert UnLe(m[1..][1..][1..]) == m[3] + 0x100 * UnLe(t);
    assert UnLe(m[1..][1..]) == m[2] + 0x100 * UnLe(m[1..][1..][1..]);
    assert UnLe(m[1..]) == m[1] + 0x100 * UnLe(m[1..][1..]);
    assert UnLe(m) == m[0] + 0x100 * UnLe(m[1..]);
  }

  lemma NoSplitUnderCount(f: seq<byte>, o: nat, n: u64)
    requires At(f, o, U64(n)) && n < TWO63
    ensures !At(f, o, Magic(Rec, Task, Split))
  {
    if At(f, o, Magic(Rec, Task, Split)) {
      AtUnique(f, o, U64(n), Magic(Rec, Task, Split));
      SplitIsLarge(n);
    }
  }

  lemma OneHeaderParsed(f: seq<byte>, p: nat)
    ensures match ParseHeaders(f, p, 1)
            case None => true
            case Some(hs) => HeadersLen(hs) == 2592 + 72 * GetU32(f[p + 4..p + 8])
  {
    hide Pieces;
    hide ParseDims;
    HeadersNext(f, p, 1);
    match ParseHeader(f, p)
    case None =>
    case Some(h) =>
      HeadersNext(f, p + HeaderLen(h), 0);
      HeadersLenSnoc([], h);
      assert [] + [h] == [h] && [h] + [] == [h];
  }

  lemma SplitClobbered(f: seq<byte>, s: Schema, n: u64)
    requires s.Valid() && s.dom == Task && s.HeaderBase() == 308 <= |f|
    requires Pieces(f, 24, s.widths)[s.nheaderField] == U32(1)
    requires At(f, 312, U32(0)) && At(f, 2900, U64(n)) && n < TWO63
    ensures ParseRecord(f, s) == None
  {
    hide Pieces;
    hide Sum;
    hide U32;
    hide U64;
    hide At;
    hide ParseRecord;
    FieldOfOne(Pieces(f, 24, s.widths)[s.nheaderField]);
    hide *;
    BareHeader(f);
    NoBodyAtCount(f, n, GetU64(f[16..24]));
    ParseStops(f, s);
  }

  /** A header without dimensions takes 2592 bytes. */
  lemma BareHeader(f: seq<byte>)
    requires At(f, 312, U32(0))
    ensures |f| >= 316
    ensures match ParseHeaders(f, 308, 1) case None => true case Some(hs) => HeadersLen(hs) == 2592
  {
    AtSlice(f, 312, U32(0));
    assert GetU32(f[312..316]) == 0;
    hide *;
    OneHeaderParsed(f, 308);
  }

  lemma FieldOfOne(a: seq<byte>)
    requires a == U32(1)
    ensures |a| == 4 && GetU32(a) == 1
  {
  }

  /** Without a body behind its one header a file does not parse. */
  lemma ParseStops(f: seq<byte>, s: Schema)
    requires s.Valid() && s.dom == Task && s.HeaderBase() == 308 <= |f|
    requires GetU32(Pieces(f, 24, s.widths)[s.nheaderField]) == 1
    requires match ParseHeaders(f, 308, 1) case None => true case Some(hs) => HeadersLen(hs) == 2592
    requires ParseBody(f, 2900, Task, GetU64(f[16..24])) == None
    ensures ParseRecord(f, s) == None
  {
    hide U32;
    hide U64;
    hide Magic;
    hide Pieces;
    hide ParseHeaders;
    hide ParseBody;
    hide At;
    hide Sum;
    hide HeadersLen;
  }

  lemma NoBodyAtCount(f: seq<byte>, n: u64, size: nat)
    requires At(f, 2900, U64(n)) && n < TWO63
    ensures ParseBody(f, 2900, Task, size) == None
  {
    NoSplitUnderCount(f, 2900, n);
  }

  /** For a header without dimensions the element count lands on the SPLIT signature: the call
      still reports success, and the file can no longer be read. */
  lemma NoDimensionBreaks(r: Record, id: seq<byte>)
    requires IsCapsule(r) && |id| == 20 && r.headers[0].ndim == 0
    ensures Accepts(Image(SchemaOf(Task), r))
    ensures ParseRecord(Patched(Image(SchemaOf(Task), r), id), SchemaOf(Task)) == None
  {
    hide SchemaOf;
    hide Accepts;
    hide Preamble;
    hide HeaderBytes;
    hide ParseRecord;
    hide Image;
    hide At;
    hide Edits;
    hide Apply;
    hide U32;
    hide U64;
    hide Magic;
    hide Flat;
    hide Sum;
    hide Pieces;
    var s, e, n := SchemaOf(Task), E(r), |r.payload| + 20;
    var f := Image(s, r);
    var f' := Apply(f, Edits(e, n, id));
    TaskNumbers();
    CapsuleAccepted(f, r);
    CapsuleFacts(f, r);
    PreambleStart(f, s, r);
    AttrsLen(s, r);
    EditsLand(f, e, n, id);
    Kept(f, e, n, id, 24, Flat(r.attrs));
    PiecesParse(f', 24, r.attrs, s.widths);
    Kept(f, e, n, id, 312, U32(0));
    SplitClobbered(f', s, n / 20);
  }

  /** The patched file reads back as the grown record exactly when its header has a dimension. */
  lemma AppendReadsBack(r: Record, id: seq<byte>)
    requires IsCapsule(r) && |id| == 20
    ensures Accepts(Image(SchemaOf(Task), r))
    ensures r.headers[0].ndim >= 1 <==>
            var p := ParseRecord(Patched(Image(SchemaOf(Task), r), id), SchemaOf(Task));
            p.Some? && p.value.attrs == r.attrs && p.value.payload == r.payload + id
  {
    hide SchemaOf;
    hide Accepts;
    hide Image;
    hide ParseRecord;
    hide Patched;
    if r.headers[0].ndim == 0 {
      NoDimensionBreaks(r, id);
    } else {
      AppendRefines(r, id);
      RoundTrip(SchemaOf(Task), Grown(r, id));
    }
  }
}
