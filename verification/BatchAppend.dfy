/** Inserting a TaskRecordID into a batch record, in place, in front of the KernelID block. */
module BatchAppend {
  import opened Bytes
  import opened Common
  import opened Signature
  import opened Layout
  import opened Disk
  import opened RecordIO

  const DATASIZE_OFF: nat := 16
  const NHEADER_OFF: nat := 256
  const HDR0_BASE: nat := 388
  const HDR_DATA_SIZE_OFF: nat := 8
  const HDR_NAME_OFF: nat := 32
  /** Meant to be the offset of dimsizes[0]; it points into the note of the header. */
  const HDR_DIM0_OFF: nat := 2336

  const KERNEL_NAME: seq<byte> := [0x4B, 0x65, 0x72, 0x6E, 0x65, 0x6C, 0x49, 0x44, 0x00]

  // ---------------------------------------------------------------- what one call does to a file

  function Hdr1Of(ndim0: u32): nat {
    HDR0_BASE + 2592 + 72 * ndim0
  }

  /** What the function reads before it writes. */
  datatype Sizes = Sizes(total: u64, ndim0: u32, size0: u64, ndim1: u32, size1: u64) {
    function SplitOff(): nat { Hdr1Of(ndim0) + 2592 + 72 * ndim1 }
    function EndOff(): int { SplitOff() + 8 + ToLong(total) }
    function InsertOff(): int { SplitOff() + 8 + ToLong(size0) }
    function TailLen(): nat { (size1 + 8) % TWO64 }

    /** Whole IDs in the first block, and block sizes that add up in 64 bits. */
    predicate Adds() { size0 % 20 == 0 && (size0 + size1) % TWO64 == total }
  }

  function Field64(f: seq<byte>, o: nat): u64
    requires o + 8 <= |f|
  {
    GetU64(f[o..o + 8])
  }

  function Field32(f: seq<byte>, o: nat): u32
    requires o + 4 <= |f|
  {
    GetU32(f[o..o + 4])
  }

  /** The checks up to and including the second name, with what has been read by then. */
  function ReadSizes(f: seq<byte>): Option<Sizes> {
    if |f| < HDR0_BASE + 288 || !At(f, 0, Magic(Rec, TBatch, Start)) || !At(f, NHEADER_OFF, U32(2))
       || !At(f, HDR0_BASE + HDR_NAME_OFF, TASK_ID_NAME) then None
    else
      var nd0 := Field32(f, HDR0_BASE + 4);
      var h1 := Hdr1Of(nd0);
      if |f| < h1 + 288 || !At(f, h1 + HDR_NAME_OFF, KERNEL_NAME) then None
      else
        Some(Sizes(Field64(f, DATASIZE_OFF), nd0, Field64(f, HDR0_BASE + HDR_DATA_SIZE_OFF),
                   Field32(f, h1 + 4), Field64(f, h1 + HDR_DATA_SIZE_OFF)))
  }

  /** The remaining checks, all of which precede the first write. */
  predicate Consistent(f: seq<byte>, z: Sizes) {
    && z.Adds() && 0 <= z.EndOff() && At(f, z.EndOff(), Magic(Rec, TBatch, End))
    && 0 <= z.InsertOff() && z.InsertOff() + z.TailLen() <= |f|
  }

  predicate Accepts(f: seq<byte>) {
    ReadSizes(f).Some? && Consistent(f, ReadSizes(f).value)
  }

  /** The writes, in order: the ID, the saved tail after it, and three numbers. */
  function Edits(ins: nat, tail: seq<byte>, total: u64, size0: u64, id: seq<byte>): seq<Edit> {
    [Edit(ins, id), Edit(ins + 20, tail), Edit(DATASIZE_OFF, U64(total)),
     Edit(HDR0_BASE + HDR_DATA_SIZE_OFF, U64(size0)),
     Edit(HDR0_BASE + HDR_DIM0_OFF, U64(size0 / 20))]
  }

  function Patched(f: seq<byte>, id: seq<byte>): seq<byte>
    requires Accepts(f)
  {
    var z := ReadSizes(f).value;
    Apply(f, Edits(z.InsertOff(), f[z.InsertOff()..z.InsertOff() + z.TailLen()],
                   PlusId(z.total), PlusId(z.size0), id))
  }

  method CheckNames(file: DiskFile) returns (res: Option<Sizes>)
    requires file.pos == 0
    modifies file`pos
    ensures res == ReadSizes(file.data)
  {
    hide Magic;
    hide U32;
    hide U64;
    hide At;
    ghost var f := file.data;
    var ok := file.Expect(Magic(Rec, TBatch, Start), 8);
    if !ok { return None; }
    var metasize, total, nheader;
    ok, metasize := file.ReadU64();
    if !ok { return None; }
    ok, total := file.ReadU64();
    if !ok { return None; }
    ok, nheader := file.U32At(NHEADER_OFF);
    AtSlice(f, NHEADER_OFF, U32(2));
    if !ok || nheader != 2 { return None; }
    ok := file.Seek(HDR0_BASE + HDR_NAME_OFF);
    ok := file.Expect(TASK_ID_NAME, 256);
    if !ok { return None; }
    var nd0, nd1, size0, size1;
    ok, nd0 := file.U32At(HDR0_BASE + 4);
    if !ok { return None; }
    var h1 := Hdr1Of(nd0);
    ok := file.Seek(h1 + HDR_NAME_OFF);
    ok := file.Expect(KERNEL_NAME, 256);
    if !ok { return None; }
    ok, nd1 := file.U32At(h1 + 4);
    if !ok { return None; }
    ok, size0 := file.U64At(HDR0_BASE + HDR_DATA_SIZE_OFF);
    if !ok { return None; }
    ok, size1 := file.U64At(h1 + HDR_DATA_SIZE_OFF);
    if !ok { return None; }
    return Some(Sizes(total, nd0, size0, nd1, size1));
  }

  method CheckTail(file: DiskFile, z: Sizes) returns (ok: bool, tail: seq<byte>)
    modifies file`pos
    ensures ok == Consistent(file.data, z)
    ensures ok ==> tail == file.data[z.InsertOff()..z.InsertOff() + z.TailLen()]
  {
    hide Magic;
    hide At;
    hide Sizes.EndOff;
    hide Sizes.InsertOff;
    hide Sizes.TailLen;
    tail := [];
    if z.size0 % 20 != 0 { return false, []; }
    if (z.size0 + z.size1) % TWO64 != z.total { return false, []; }
    ok := file.Seek(z.EndOff());
    if !ok { return; }
    AtSlice(file.data, z.EndOff(), Magic(Rec, TBatch, End));
    ok := file.Expect(Magic(Rec, TBatch, End), 8);
    if !ok { return; }
    ok := file.Seek(z.InsertOff());
    if !ok { return; }
    ok, tail := file.Read(z.TailLen());
  }

  /** tpb_raf_record_append_tbatch on the opened, locked file. */
  method Append(file: DiskFile, id: seq<byte>) returns (ok: bool)
    requires file.pos == 0 && |id| == 20
    modifies file
    ensures ok == Accepts(old(file.data))
    ensures file.data == if ok then Patched(old(file.data), id) else old(file.data)
  {
    hide U64;
    hide Overwrite;
    hide Consistent;
    hide ReadSizes;
    ghost var f, es := file.data, [];
    var res := CheckNames(file);
    if res.None? { return false; }
    var z := res.value;
    var tail;
    ok, tail := CheckTail(file, z);
    if ok {
      assert z.InsertOff() >= 0 by { InsertOffNatural(f, z); }
      var ins: nat := z.InsertOff();
      var total, size0 := PlusId(z.total), PlusId(z.size0);
      file.WriteAt(ins, id, f, []);
      es := es + [Edit(ins, id)];
      file.WriteAt(ins + 20, tail, f, es);
      es := es + [Edit(ins + 20, tail)];
      file.WriteAt(DATASIZE_OFF, U64(total), f, es);
      es := es + [Edit(DATASIZE_OFF, U64(total))];
      file.WriteAt(HDR0_BASE + HDR_DATA_SIZE_OFF, U64(size0), f, es);
      es := es + [Edit(HDR0_BASE + HDR_DATA_SIZE_OFF, U64(size0))];
      file.WriteAt(HDR0_BASE + HDR_DIM0_OFF, U64(size0 / 20), f, es);
      es := es + [Edit(HDR0_BASE + HDR_DIM0_OFF, U64(size0 / 20))];
      assert es == Edits(ins, tail, total, size0, id);
    }
  }

  lemma InsertOffNatural(f: seq<byte>, z: Sizes)
    requires Consistent(f, z)
    ensures z.InsertOff() >= 0
  {
  }

  // ---------------------------------------------------------------- what it means for the record

  /** A batch record: header TaskID over whole 20-byte IDs, header KernelID over the rest. */
  predicate IsBatch(r: Record) {
    && r.Wf(SchemaOf(TBatch)) && |r.headers| == 2
    && r.headers[0].name[..7] == TASK_ID_NAME && r.headers[1].name[..9] == KERNEL_NAME
    && r.headers[0].dataSize % 20 == 0
    && r.headers[0].dataSize + r.headers[1].dataSize == |r.payload|
    && |r.payload| + 20 < TWO63
  }

  /** The TaskID block and the KernelID block of the payload. */
  function TaskBlock(r: Record): seq<byte>
    requires IsBatch(r)
  {
    r.payload[..r.headers[0].dataSize]
  }

  function KernelBlock(r: Record): seq<byte>
    requires IsBatch(r)
  {
    r.payload[r.headers[0].dataSize..]
  }

  /** Offset of the misplaced element count inside the note of header 0. */
  const NOTE_HIT: nat := 1792

  /** The first header with one more ID to its size, and the count written into its note. */
  function InsertedHeader(h: Header): (k: Header)
    requires h.Wf() && h.dataSize + 20 < TWO64
    ensures k.Wf()
  {
    var n := h.dataSize + 20;
    h.(dataSize := n, note := h.note[..NOTE_HIT] + U64(n / 20) + h.note[NOTE_HIT + 8..])
  }

  /** The record after the call: one more ID at the end of the TaskID block, the size of header 0
      grown with it, and eight bytes of its note replaced by the new element count. */
  function Inserted(r: Record, id: seq<byte>): (r': Record)
    requires IsBatch(r) && |id| == 20
    ensures r'.Wf(SchemaOf(TBatch))
    ensures |r'.payload| + 20 < TWO63 ==> IsBatch(r')
    ensures |r'.payload| + 20 < TWO63 ==> TaskBlock(r') == TaskBlock(r) + id
    ensures |r'.payload| + 20 < TWO63 ==> KernelBlock(r') == KernelBlock(r)
  {
    InsertedIsBatch(r, id);
    Record(r.attrs, [InsertedHeader(r.headers[0]), r.headers[1]], TaskBlock(r) + id + KernelBlock(r))
  }

  lemma InsertedIsBatch(r: Record, id: seq<byte>)
    requires IsBatch(r) && |id| == 20
    ensures var r' := Record(r.attrs, [InsertedHeader(r.headers[0]), r.headers[1]], TaskBlock(r) + id + KernelBlock(r));
            && r'.Wf(SchemaOf(TBatch))
            && (|r'.payload| + 20 < TWO63 ==>
                  IsBatch(r') && TaskBlock(r') == TaskBlock(r) + id && KernelBlock(r') == KernelBlock(r))
  {
    hide SchemaOf;
    hide U64;
  }

  /** The bytes between the patched fields. */
  predicate Untouched(o: nat, n: nat, ins: nat) {
    || o + n <= 16 || (24 <= o && o + n <= 396) || (404 <= o && o + n <= 2724)
    || (2732 <= o && o + n <= ins)
  }

  lemma EditsLand(f: seq<byte>, ins: nat, tail: seq<byte>, total: u64, size0: u64, id: seq<byte>)
    requires |id| == 20 && ins >= 2732 && tail != [] && |f| == ins + |tail|
    ensures var f' := Apply(f, Edits(ins, tail, total, size0, id));
            && |f'| == |f| + 20
            && At(f', ins, id) && At(f', ins + 20, tail)
            && At(f', 16, U64(total)) && At(f', 396, U64(size0)) && At(f', 2724, U64(size0 / 20))
  {
    var es := Edits(ins, tail, total, size0, id);
    hide U64;
    hide Apply;
    hide At;
    ApplyLen(f, es);
    MaxEndIs(|f|, es, 1);
    AllLand(f, es);
    var f' := Apply(f, es);
    assert At(f', es[0].off, es[0].bytes) && At(f', es[1].off, es[1].bytes);
    assert At(f', es[2].off, es[2].bytes) && At(f', es[3].off, es[3].bytes);
    assert At(f', es[4].off, es[4].bytes);
  }

  /** What lies between the patched fields of `f` lies there in the patched file. */
  lemma Kept(f: seq<byte>, ins: nat, tail: seq<byte>, total: u64, size0: u64, id: seq<byte>,
             o: nat, t: seq<byte>)
    requires |id| == 20 && ins >= 2732 && At(f, o, t) && Untouched(o, |t|, ins)
    ensures At(Apply(f, Edits(ins, tail, total, size0, id)), o, t)
  {
    var es := Edits(ins, tail, total, size0, id);
    hide U64;
    hide At;
    assert Clear(o, |t|, es);
    ApplyFrame(f, es, o, t);
  }

  function SplitOf(r: Record): nat
    requires |r.headers| == 2
  {
    388 + HeaderLen(r.headers[0]) + HeaderLen(r.headers[1])
  }

  lemma TBatchNumbers()
    ensures var s := SchemaOf(TBatch);
            && s.Valid() && s.dom == TBatch && s.HeaderBase() == 388
            && s.nheaderField == 13 && s.FieldOff(13) == 256
  {
    TBatchOffsets();
    assert TBATCH_OFFSETS[13] == 256;
  }

  lemma HeadersTwo(h: Header, k: Header)
    requires h.Wf() && k.Wf()
    ensures HeadersBytes([h, k]) == HeaderBytes(h) + HeaderBytes(k)
    ensures HeadersLen([h, k]) == HeaderLen(h) + HeaderLen(k)
  {
    hide HeaderBytes;
    assert [h, k][1..] == [k] && [k][1..] == [];
    assert HeadersBytes([k]) == HeaderBytes(k) + HeadersBytes([]);
    assert HeadersLen([k]) == HeaderLen(k) + HeadersLen([]);
  }

  /** Where the parts of a batch file stand. */
  lemma BatchFacts(f: seq<byte>, r: Record)
    requires r.Wf(SchemaOf(TBatch)) && |r.headers| == 2 && f == Image(SchemaOf(TBatch), r)
    ensures At(f, 0, Preamble(SchemaOf(TBatch), r)) && HeaderAt(f, 388, r.headers[0])
    ensures At(f, 388 + HeaderLen(r.headers[0]), HeaderBytes(r.headers[1]))
    ensures BodyAt(f, SplitOf(r), TBatch, r.payload)
  {
    hide SchemaOf;
    hide Image;
    hide Preamble;
    hide HeaderBytes;
    hide HeaderAt;
    hide Sum;
    var s := SchemaOf(TBatch);
    TBatchNumbers();
    ImageParts(f, s, r);
    var h, k := r.headers[0], r.headers[1];
    assert r.headers == [h, k];
    HeadersTwo(h, k);
    HeaderBytesLen(h);
    AtAppend(f, 388, HeaderBytes(h), HeaderBytes(k));
    HeaderFieldsAt(f, 388, h);
  }

  function SizesOf(r: Record): Sizes
    requires IsBatch(r)
  {
    Sizes(|r.payload|, r.headers[0].ndim, r.headers[0].dataSize, r.headers[1].ndim, r.headers[1].dataSize)
  }

  function Ins(r: Record): nat
    requires IsBatch(r)
  {
    SplitOf(r) + 8 + r.headers[0].dataSize
  }

  function Tail(r: Record): seq<byte>
    requires IsBatch(r)
  {
    KernelBlock(r) + Magic(Rec, TBatch, End)
  }

  /** Name, dimension count and size of a header, where the function looks for them. */
  lemma HeaderRead(f: seq<byte>, base: nat, h: Header, n: nat)
    requires h.Wf() && HeaderAt(f, base, h) && n <= 256
    ensures base + 288 <= |f| && At(f, base + 32, h.name[..n])
    ensures Field32(f, base + 4) == h.ndim && Field64(f, base + 8) == h.dataSize
  {
    hide U32;
    hide U64;
    AtSlice(f, base + 4, U32(h.ndim));
    AtSlice(f, base + 8, U64(h.dataSize));
  }

  lemma SizesRead(f: seq<byte>, r: Record)
    requires IsBatch(r) && f == Image(SchemaOf(TBatch), r)
    ensures ReadSizes(f) == Some(SizesOf(r))
  {
    hide *;
    TwoNamed(r);
    var s, h, k := SchemaOf(TBatch), r.headers[0], r.headers[1];
    TBatchNumbers();
    BatchFacts(f, r);
    NHeaderAt(f, s, r);
    TotalRead(f, |r.payload|);
    HeaderRead(f, 388, h, 7);
    SecondHeader(h);
    HeaderFieldsAt(f, 388 + HeaderLen(h), k);
    HeaderRead(f, 388 + HeaderLen(h), k, 9);
    ReadSizesIs(f, |r.payload|, h, k);
    SizesAre(r);
  }

  lemma SizesAre(r: Record)
    requires IsBatch(r)
    ensures SizesOf(r)
            == Sizes(|r.payload|, r.headers[0].ndim, r.headers[0].dataSize, r.headers[1].ndim, r.headers[1].dataSize)
  {
    hide IsBatch;
  }

  lemma TotalRead(f: seq<byte>, n: u64)
    requires At(f, 16, U64(n))
    ensures 24 <= |f| && Field64(f, 16) == n
  {
    hide U64;
    AtSlice(f, 16, U64(n));
  }

  /** Behind the first header, as the function computes it. */
  lemma SecondHeader(h: Header)
    requires h.Wf()
    ensures Hdr1Of(h.ndim) == 388 + HeaderLen(h) >= 388 + 288
  {
  }

  /** What the checks read, one read after the other. */
  lemma ReadSizesIs(f: seq<byte>, total: u64, h: Header, k: Header)
    requires |f| >= 388 + 288 && At(f, 0, Magic(Rec, TBatch, Start)) && At(f, 256, U32(2))
    requires Field64(f, 16) == total
    requires At(f, 388 + 32, TASK_ID_NAME) && Field32(f, 388 + 4) == h.ndim && Field64(f, 388 + 8) == h.dataSize
    requires |f| >= Hdr1Of(h.ndim) + 288 && At(f, Hdr1Of(h.ndim) + 32, KERNEL_NAME)
    requires Field32(f, Hdr1Of(h.ndim) + 4) == k.ndim && Field64(f, Hdr1Of(h.ndim) + 8) == k.dataSize
    ensures ReadSizes(f) == Some(Sizes(total, h.ndim, h.dataSize, k.ndim, k.dataSize))
  {
    hide Hdr1Of;
    hide At;
    hide U32;
    hide Magic;
    hide Field32;
    hide Field64;
  }

  lemma TwoNamed(r: Record)
    requires IsBatch(r)
    ensures r.Wf(SchemaOf(TBatch)) && |r.headers| == 2 && r.headers[0].Wf() && r.headers[1].Wf()
    ensures r.headers[0].name[..7] == TASK_ID_NAME && r.headers[1].name[..9] == KERNEL_NAME
    ensures |r.payload| < 0x1_0000_0000_0000_0000
  {
    hide SchemaOf;
  }

  lemma SizesPlain(r: Record)
    requires IsBatch(r)
    ensures var z := SizesOf(r);
            && z.Adds() && z.EndOff() == SplitOf(r) + 8 + |r.payload| && z.InsertOff() == Ins(r)
            && z.TailLen() == |Tail(r)|
  {
    hide SchemaOf;
    hide Magic;
  }

  lemma TailStands(f: seq<byte>, r: Record)
    requires IsBatch(r) && BodyAt(f, SplitOf(r), TBatch, r.payload)
    ensures At(f, SplitOf(r), Magic(Rec, TBatch, Split)) && At(f, SplitOf(r) + 8, TaskBlock(r))
    ensures At(f, SplitOf(r) + 8 + |r.payload|, Magic(Rec, TBatch, End))
    ensures |f| == Ins(r) + |Tail(r)| && f[Ins(r)..Ins(r) + |Tail(r)|] == Tail(r)
  {
    hide *;
    BlocksSplit(r);
    BodyParts(f, SplitOf(r), TBatch, r.payload);
    AtAppend(f, SplitOf(r) + 8, TaskBlock(r), KernelBlock(r));
    TailIs(r);
    AtAppend(f, Ins(r), KernelBlock(r), Magic(Rec, TBatch, End));
    AtSlice(f, Ins(r), Tail(r));
  }

  lemma TailIs(r: Record)
    requires IsBatch(r)
    ensures |r.headers| == 2 && Ins(r) == SplitOf(r) + 8 + r.headers[0].dataSize
    ensures Tail(r) == KernelBlock(r) + Magic(Rec, TBatch, End) && |Tail(r)| == |KernelBlock(r)| + 8
  {
    hide SchemaOf;
    hide KernelBlock;
    hide Magic;
    hide SplitOf;
  }

  lemma BodyParts(f: seq<byte>, o: nat, d: Domain, payload: seq<byte>)
    requires BodyAt(f, o, d, payload)
    ensures At(f, o, Magic(Rec, d, Split)) && At(f, o + 8, payload) && At(f, o + 8 + |payload|, Magic(Rec, d, End))
    ensures |f| == o + 16 + |payload|
  {
    hide At;
    hide Magic;
  }

  lemma BlocksSplit(r: Record)
    requires IsBatch(r)
    ensures |r.headers| == 2 && |TaskBlock(r)| == r.headers[0].dataSize
    ensures r.payload == TaskBlock(r) + KernelBlock(r)
  {
    hide SchemaOf;
  }

  lemma TailRead(f: seq<byte>, r: Record)
    requires IsBatch(r) && f == Image(SchemaOf(TBatch), r)
    ensures Consistent(f, SizesOf(r)) && SizesOf(r).InsertOff() == Ins(r)
    ensures |f| == Ins(r) + |Tail(r)| && f[Ins(r)..Ins(r) + |Tail(r)|] == Tail(r)
    ensures SizesOf(r).TailLen() == |Tail(r)|
    ensures At(f, SplitOf(r), Magic(Rec, TBatch, Split)) && At(f, SplitOf(r) + 8, TaskBlock(r))
  {
    hide *;
    TwoNamed(r);
    BatchFacts(f, r);
    SizesPlain(r);
    TailStands(f, r);
    ConsistentIf(f, SizesOf(r), SplitOf(r) + 8 + |r.payload|, Ins(r));
  }

  lemma ConsistentIf(f: seq<byte>, z: Sizes, e: nat, i: nat)
    requires z.Adds() && z.EndOff() == e && z.InsertOff() == i
    requires At(f, e, Magic(Rec, TBatch, End)) && i + z.TailLen() <= |f|
    ensures Consistent(f, z)
  {
    hide Sizes.EndOff;
    hide Sizes.InsertOff;
    hide Sizes.TailLen;
    hide Sizes.Adds;
    hide At;
    hide Magic;
  }

  lemma PreambleInserts(f: seq<byte>, r: Record, id: seq<byte>)
    requires IsBatch(r) && |id| == 20 && f == Image(SchemaOf(TBatch), r)
    ensures var n := r.headers[0].dataSize + 20;
            var f' := Apply(f, Edits(Ins(r), Tail(r), |r.payload| + 20, n, id));
            At(f', 0, Preamble(SchemaOf(TBatch), Inserted(r, id)))
  {
    hide *;
    var s := SchemaOf(TBatch);
    InsertedShape(r, id);
    TBatchNumbers();
    BatchFacts(f, r);
    TailRead(f, r);
    InsBehind(r);
    BlocksSplit(r);
    AttrsLen(s, r);
    PreambleIs(s, r);
    PreambleIs(s, Inserted(r, id));
    PreambleKept(f, Ins(r), Tail(r), |r.payload| + 20, r.headers[0].dataSize + 20, id,
                 U64(s.MetaSize(2)), |r.payload|, Flat(r.attrs), Zeros(s.reserveLen));
  }

  lemma PreambleIs(s: Schema, r: Record)
    requires r.Wf(s)
    ensures |r.payload| < TWO64
    ensures Preamble(s, r)
            == Magic(Rec, s.dom, Start) + U64(s.MetaSize(|r.headers|)) + U64(|r.payload|)
               + Flat(r.attrs) + Zeros(s.reserveLen)
  {
    hide Magic;
    hide U64;
    hide Flat;
  }

  /** Of the preamble only the size of the payload changes. */
  lemma PreambleKept(f: seq<byte>, ins: nat, tail: seq<byte>, total: u64, n: u64, id: seq<byte>,
                     meta: seq<byte>, was: u64, attrs: seq<byte>, z: seq<byte>)
    requires |id| == 20 && ins >= 2732 && tail != [] && |f| == ins + |tail|
    requires |meta| == 8 && 24 + |attrs| + |z| <= 396
    requires At(f, 0, Magic(Rec, TBatch, Start) + meta + U64(was) + attrs + z)
    ensures At(Apply(f, Edits(ins, tail, total, n, id)), 0,
               Magic(Rec, TBatch, Start) + meta + U64(total) + attrs + z)
  {
    hide *;
    var start := Magic(Rec, TBatch, Start);
    var f' := Apply(f, Edits(ins, tail, total, n, id));
    FiveAt(f, 0, start, meta, U64(was), attrs, z);
    KeptFront(f, ins, tail, total, n, id, 0, start);
    KeptFront(f, ins, tail, total, n, id, 8, meta);
    KeptFront(f, ins, tail, total, n, id, 24, attrs);
    KeptFront(f, ins, tail, total, n, id, 24 + |attrs|, z);
    EditsLand(f, ins, tail, total, n, id);
    FiveAt(f', 0, start, meta, U64(total), attrs, z);
  }

  lemma KeptFront(f: seq<byte>, ins: nat, tail: seq<byte>, total: u64, n: u64, id: seq<byte>, o: nat, t: seq<byte>)
    requires |id| == 20 && ins >= 2732 && At(f, o, t) && (o + |t| <= 16 || (24 <= o && o + |t| <= 396))
    ensures At(Apply(f, Edits(ins, tail, total, n, id)), o, t)
  {
    hide Apply;
    hide At;
    hide Edits;
    Kept(f, ins, tail, total, n, id, o, t);
  }

  lemma NoteInserts(f: seq<byte>, ins: nat, tail: seq<byte>, total: u64, n: u64, id: seq<byte>,
                    note: seq<byte>)
    requires |id| == 20 && ins >= 2980 && tail != [] && |f| == ins + |tail|
    requires |note| == 2048 && At(f, 932, note)
    ensures At(Apply(f, Edits(ins, tail, total, n, id)), 932,
               note[..NOTE_HIT] + U64(n / 20) + note[NOTE_HIT + 8..])
  {
    hide U64;
    hide Edits;
    hide Apply;
    hide At;
    var f' := Apply(f, Edits(ins, tail, total, n, id));
    var a, b, c := note[..1792], note[1792..1800], note[1800..];
    assert note == a + b + c;
    AtAppend(f, 932, a, b);
    AtAppend(f, 932, a + b, c);
    Kept(f, ins, tail, total, n, id, 932, a);
    Kept(f, ins, tail, total, n, id, 2732, c);
    EditsLand(f, ins, tail, total, n, id);
    AtAppend(f', 932, a, U64(n / 20));
    AtAppend(f', 932, a + U64(n / 20), c);
  }

  lemma HeaderInserts(f: seq<byte>, ins: nat, tail: seq<byte>, total: u64, h: Header, n: u64, id: seq<byte>)
    requires |id| == 20 && h.Wf() && HeaderAt(f, 388, h) && tail != [] && |f| == ins + |tail|
    requires ins >= 388 + HeaderLen(h)
    ensures var note := h.note[..NOTE_HIT] + U64(n / 20) + h.note[NOTE_HIT + 8..];
            HeaderAt(Apply(f, Edits(ins, tail, total, n, id)), 388, h.(dataSize := n, note := note))
  {
    hide U32;
    hide U64;
    hide Edits;
    hide Apply;
    hide At;
    hide Flat;
    hide Dims;
    var dims, names := Dims(h.dimSizes[..h.ndim]), Flat(h.dimNames[..h.ndim]);
    FlatLenUniform(h.dimNames[..h.ndim], 64);
    Kept(f, ins, tail, total, n, id, 388, U32(FIXED_HEADER_SIZE));
    Kept(f, ins, tail, total, n, id, 392, U32(h.ndim));
    Kept(f, ins, tail, total, n, id, 404, U32(h.typeBits));
    Kept(f, ins, tail, total, n, id, 408, U32(h.reserve));
    Kept(f, ins, tail, total, n, id, 412, U64(h.uattr));
    Kept(f, ins, tail, total, n, id, 420, h.name);
    Kept(f, ins, tail, total, n, id, 676, h.tag);
    NoteInserts(f, ins, tail, total, n, id, h.note);
    Kept(f, ins, tail, total, n, id, 2980, dims);
    Kept(f, ins, tail, total, n, id, 2980 + 8 * h.ndim, names);
    EditsLand(f, ins, tail, total, n, id);
  }

  lemma BodyInserts(f: seq<byte>, r: Record, id: seq<byte>)
    requires IsBatch(r) && |id| == 20 && f == Image(SchemaOf(TBatch), r)
    ensures var n := r.headers[0].dataSize + 20;
            var f' := Apply(f, Edits(Ins(r), Tail(r), |r.payload| + 20, n, id));
            BodyAt(f', SplitOf(r), TBatch, TaskBlock(r) + id + KernelBlock(r))
  {
    hide SchemaOf;
    hide Image;
    hide Magic;
    hide Edits;
    hide Apply;
    hide At;
    var ins, tail, total, n := Ins(r), Tail(r), |r.payload| + 20, r.headers[0].dataSize + 20;
    var f' := Apply(f, Edits(ins, tail, total, n, id));
    TailRead(f, r);
    var o := SplitOf(r);
    Kept(f, ins, tail, total, n, id, o, Magic(Rec, TBatch, Split));
    Kept(f, ins, tail, total, n, id, o + 8, TaskBlock(r));
    EditsLand(f, ins, tail, total, n, id);
    AtAppend(f', ins + 20, KernelBlock(r), Magic(Rec, TBatch, End));
    AtAppend(f', o + 8, TaskBlock(r), id);
    AtAppend(f', o + 8, TaskBlock(r) + id, KernelBlock(r));
  }

  lemma AssembleTwo(f: seq<byte>, s: Schema, r: Record)
    requires r.Wf(s) && |r.headers| == 2 && At(f, 0, Preamble(s, r))
    requires HeaderAt(f, s.HeaderBase(), r.headers[0])
    requires At(f, s.HeaderBase() + HeaderLen(r.headers[0]), HeaderBytes(r.headers[1]))
    requires BodyAt(f, s.HeaderBase() + HeaderLen(r.headers[0]) + HeaderLen(r.headers[1]), s.dom, r.payload)
    ensures f == Image(s, r)
  {
    hide Preamble;
    hide HeaderAt;
    hide BodyAt;
    hide Image;
    hide HeaderBytes;
    var h, k := r.headers[0], r.headers[1];
    HeaderFieldsAt(f, s.HeaderBase(), h);
    HeaderBytesLen(h);
    HeadersTwo(h, k);
    AtAppend(f, s.HeaderBase(), HeaderBytes(h), HeaderBytes(k));
    assert r.headers == [h, k];
    ImageParts(f, s, r);
  }

  lemma PatchedIs(f: seq<byte>, r: Record, id: seq<byte>)
    requires IsBatch(r) && |id| == 20 && f == Image(SchemaOf(TBatch), r)
    ensures Accepts(f)
    ensures Patched(f, id) == Apply(f, Edits(Ins(r), Tail(r), |r.payload| + 20, r.headers[0].dataSize + 20, id))
  {
    hide SchemaOf;
    hide Image;
    hide Edits;
    hide Apply;
    hide ReadSizes;
    hide Consistent;
    SizesRead(f, r);
    TailRead(f, r);
  }

  /** Inserting in place refines appending to the TaskID list: the patched file of a batch record
      is, byte for byte, the file of the record with one more ID at the end of its TaskID block;
      the KernelID block, the other header and every other field are what they were, except for
      eight bytes in the note of header 0. */
  lemma InsertRefines(r: Record, id: seq<byte>)
    requires IsBatch(r) && |id| == 20
    ensures Accepts(Image(SchemaOf(TBatch), r))
    ensures Patched(Image(SchemaOf(TBatch), r), id) == Image(SchemaOf(TBatch), Inserted(r, id))
  {
    hide *;
    InsertedShape(r, id);
    var f := Image(SchemaOf(TBatch), r);
    var es := Edits(Ins(r), Tail(r), |r.payload| + 20, r.headers[0].dataSize + 20, id);
    PatchedIs(f, r, id);
    PreambleInserts(f, r, id);
    HeadersInsert(f, r, id);
    InsertedBody(f, r, id);
    TBatchNumbers();
    AssembleTwo(Apply(f, es), SchemaOf(TBatch), Inserted(r, id));
  }

  lemma InsertedShape(r: Record, id: seq<byte>)
    requires IsBatch(r) && |id| == 20
    ensures var r' := Inserted(r, id);
            && r.Wf(SchemaOf(TBatch)) && |r.headers| == 2 && r'.attrs == r.attrs && |r'.headers| == 2
            && r.headers[0].Wf() && r.headers[1].Wf() && r.headers[0].dataSize + 20 < TWO64 == 0x1_0000_0000_0000_0000
            && |r.payload| + 20 < TWO64
            && r'.headers[0] == InsertedHeader(r.headers[0]) && r'.headers[1] == r.headers[1]
            && HeaderLen(r'.headers[0]) == HeaderLen(r.headers[0])
            && r'.payload == TaskBlock(r) + id + KernelBlock(r)
            && SplitOf(r) == 388 + HeaderLen(r.headers[0]) + HeaderLen(r.headers[1])
  {
    hide SchemaOf;
    hide U64;
    HeadersTwo(r.headers[0], r.headers[1]);
    assert r.headers == [r.headers[0], r.headers[1]];
    TBatchNumbers();
  }

  /** The insertion is behind both headers. */
  lemma InsBehind(r: Record)
    requires IsBatch(r)
    ensures Tail(r) != [] && Ins(r) >= 388 + HeaderLen(r.headers[0]) + HeaderLen(r.headers[1]) >= 388 + 2592
  {
    hide SchemaOf;
    HeadersTwo(r.headers[0], r.headers[1]);
    assert r.headers == [r.headers[0], r.headers[1]];
    TBatchNumbers();
  }

  /** Both headers after the edits. */
  lemma HeadersInsert(f: seq<byte>, r: Record, id: seq<byte>)
    requires IsBatch(r) && |id| == 20 && f == Image(SchemaOf(TBatch), r)
    ensures var h, k := r.headers[0], r.headers[1];
            var f' := Apply(f, Edits(Ins(r), Tail(r), |r.payload| + 20, h.dataSize + 20, id));
            && HeaderAt(f', 388, InsertedHeader(h)) && At(f', 388 + HeaderLen(h), HeaderBytes(k))
  {
    hide *;
    InsertedShape(r, id);
    BatchFacts(f, r);
    TailRead(f, r);
    InsBehind(r);
    HeadersKept(f, Ins(r), Tail(r), |r.payload| + 20, r.headers[0], r.headers[1], id);
  }

  lemma HeadersKept(f: seq<byte>, ins: nat, tail: seq<byte>, total: u64, h: Header, k: Header, id: seq<byte>)
    requires |id| == 20 && h.Wf() && k.Wf() && h.dataSize + 20 < TWO64 && tail != [] && |f| == ins + |tail|
    requires HeaderAt(f, 388, h) && At(f, 388 + HeaderLen(h), HeaderBytes(k))
    requires ins >= 388 + HeaderLen(h) + HeaderLen(k)
    ensures var f' := Apply(f, Edits(ins, tail, total, h.dataSize + 20, id));
            && HeaderAt(f', 388, InsertedHeader(h)) && At(f', 388 + HeaderLen(h), HeaderBytes(k))
  {
    hide HeaderAt;
    hide HeaderBytes;
    hide Edits;
    hide Apply;
    hide At;
    hide U64;
    HeaderInserts(f, ins, tail, total, h, h.dataSize + 20, id);
    HeaderBytesLen(k);
    Kept(f, ins, tail, total, h.dataSize + 20, id, 388 + HeaderLen(h), HeaderBytes(k));
  }

  /** The body after the edits, where the inserted record's headers end. */
  lemma InsertedBody(f: seq<byte>, r: Record, id: seq<byte>)
    requires IsBatch(r) && |id| == 20 && f == Image(SchemaOf(TBatch), r)
    ensures var h, k := r.headers[0], r.headers[1];
            var f' := Apply(f, Edits(Ins(r), Tail(r), |r.payload| + 20, h.dataSize + 20, id));
            BodyAt(f', 388 + HeaderLen(h) + HeaderLen(k), TBatch, TaskBlock(r) + id + KernelBlock(r))
  {
    hide *;
    InsertedShape(r, id);
    BodyInserts(f, r, id);
  }

  /** Reading the patched file back: the TaskID block with one more ID, the same KernelID block. */
  lemma InsertReadsBack(r: Record, id: seq<byte>)
    requires IsBatch(r) && |id| == 20
    ensures Accepts(Image(SchemaOf(TBatch), r))
    ensures var p := ParseRecord(Patched(Image(SchemaOf(TBatch), r), id), SchemaOf(TBatch));
            p == Some(Record(r.attrs, StoredAll(Inserted(r, id).headers),
                             TaskBlock(r) + id + KernelBlock(r)))
  {
    hide SchemaOf;
    hide Accepts;
    hide Image;
    hide ParseRecord;
    hide Patched;
    hide StoredAll;
    InsertRefines(r, id);
    RoundTrip(SchemaOf(TBatch), Inserted(r, id));
  }

  /** Any number of insertions. */
  function InsertedAll(r: Record, ids: seq<seq<byte>>): (r': Record)
    requires IsBatch(r)
    requires (forall i :: 0 <= i < |ids| ==> |ids[i]| == 20) && |r.payload| + 20 * |ids| + 20 < TWO63
    ensures IsBatch(r')
    decreases ids
  {
    if ids == [] then r else InsertedAll(Inserted(r, ids[0]), ids[1..])
  }

  function PatchedAll(f: seq<byte>, ids: seq<seq<byte>>): seq<byte>
    decreases ids
  {
    if ids == [] || !Accepts(f) then f else PatchedAll(Patched(f, ids[0]), ids[1..])
  }

  lemma {:induction false} InsertsRefine(r: Record, ids: seq<seq<byte>>)
    requires IsBatch(r)
    requires (forall i :: 0 <= i < |ids| ==> |ids[i]| == 20) && |r.payload| + 20 * |ids| + 20 < TWO63
    ensures PatchedAll(Image(SchemaOf(TBatch), r), ids) == Image(SchemaOf(TBatch), InsertedAll(r, ids))
    ensures TaskBlock(InsertedAll(r, ids)) == TaskBlock(r) + Flat(ids)
    ensures KernelBlock(InsertedAll(r, ids)) == KernelBlock(r)
    ensures InsertedAll(r, ids).attrs == r.attrs
    decreases ids
  {
    hide SchemaOf;
    hide Image;
    hide Accepts;
    hide Patched;
    if ids == [] {
      assert TaskBlock(r) + [] == TaskBlock(r);
    } else {
      var id, more, f := ids[0], ids[1..], Image(SchemaOf(TBatch), r);
      InsertRefines(r, id);
      InsertedNext(r, ids);
      PatchedNext(f, ids);
      FlatHead(ids);
      hide *;
      InsertsRefine(Inserted(r, id), more);
      assert TaskBlock(r) + id + Flat(more) == TaskBlock(r) + (id + Flat(more));
    }
  }

  lemma InsertedNext(r: Record, ids: seq<seq<byte>>)
    requires IsBatch(r) && ids != []
    requires (forall i :: 0 <= i < |ids| ==> |ids[i]| == 20) && |r.payload| + 20 * |ids| + 20 < TWO63
    ensures var s := Inserted(r, ids[0]);
            && IsBatch(s) && |s.payload| == |r.payload| + 20 && s.attrs == r.attrs
            && TaskBlock(s) == TaskBlock(r) + ids[0] && KernelBlock(s) == KernelBlock(r)
            && InsertedAll(r, ids) == InsertedAll(s, ids[1..])
  {
    hide SchemaOf;
    hide U64;
  }

  lemma PatchedNext(f: seq<byte>, ids: seq<seq<byte>>)
    requires ids != [] && Accepts(f)
    ensures PatchedAll(f, ids) == PatchedAll(Patched(f, ids[0]), ids[1..])
  {
    hide Accepts;
    hide Patched;
  }

  // ---------------------------------------------------------------- the misplaced element count

  /** What appending to the list ought to leave: dimsizes[0] counts the IDs, the note is untouched. */
  function Ideal(r: Record, id: seq<byte>): (r': Record)
    requires IsBatch(r) && |id| == 20
    ensures r'.Wf(SchemaOf(TBatch))
  {
    var h := r.headers[0];
    var n := h.dataSize + 20;
    Record(r.attrs, [h.(dataSize := n, dimSizes := h.dimSizes[0 := n / 20]), r.headers[1]],
           TaskBlock(r) + id + KernelBlock(r))
  }

  /** Condition under which the write to the wrong place goes unnoticed. */
  predicate CountAlreadyThere(h: Header) {
    && |h.dimSizes| == 7 && |h.note| == 2048
    && h.dataSize + 20 < TWO64 && h.dimSizes[0] == (h.dataSize + 20) / 20
    && h.note[NOTE_HIT..NOTE_HIT + 8] == U64((h.dataSize + 20) / 20)
  }

  /** A header whose count matches its size never does. */
  lemma CountOfConsistentHeader(h: Header)
    requires |h.dimSizes| == 7 && h.dimSizes[0] == h.dataSize / 20
    ensures !CountAlreadyThere(h)
  {
  }

  /** The patched file is the ideal one exactly when header 0 already holds the new count in both
      places. */
  lemma CountMisplaced(r: Record, id: seq<byte>)
    requires IsBatch(r) && |id| == 20 && r.headers[0].ndim >= 1
    ensures var f := Image(SchemaOf(TBatch), r);
            && Accepts(f)
            && (Patched(f, id) == Image(SchemaOf(TBatch), Ideal(r, id)) <==> CountAlreadyThere(r.headers[0]))
  {
    hide SchemaOf;
    hide Accepts;
    hide Image;
    hide Patched;
    hide ParseRecord;
    hide U64;
    var s, a, b := SchemaOf(TBatch), Inserted(r, id), Ideal(r, id);
    InsertRefines(r, id);
    if CountAlreadyThere(r.headers[0]) {
      CountThere(r.headers[0]);
    } else if Image(s, a) == Image(s, b) {
      RoundTrip(s, a);
      RoundTrip(s, b);
      StoredSame(a.headers, b.headers);
      CountNotThere(r.headers[0]);
      assert false;
    }
  }

  lemma CountThere(h: Header)
    requires h.Wf() && CountAlreadyThere(h)
    ensures var n: u64 := (h.dataSize + 20) / 20;
            && h.note[..NOTE_HIT] + U64(n) + h.note[NOTE_HIT + 8..] == h.note
            && h.dimSizes[0 := n] == h.dimSizes
  {
    hide U64;
    assert h.note == h.note[..NOTE_HIT] + h.note[NOTE_HIT..NOTE_HIT + 8] + h.note[NOTE_HIT + 8..];
  }

  lemma StoredSame(hs: seq<Header>, ks: seq<Header>)
    requires |hs| == |ks| == 2 && hs[0].Wf() && hs[1].Wf() && ks[0].Wf() && ks[1].Wf()
    requires StoredAll(hs) == StoredAll(ks)
    ensures Stored(hs[0]) == Stored(ks[0])
  {
    hide Stored;
    assert StoredAll(hs)[0] == Stored(hs[0]) && StoredAll(ks)[0] == Stored(ks[0]);
  }

  lemma CountNotThere(h: Header)
    requires h.Wf() && h.ndim >= 1 && h.dataSize + 20 < TWO64 && !CountAlreadyThere(h)
    ensures var n: u64 := (h.dataSize + 20) / 20;
            Stored(h.(dataSize := h.dataSize + 20,
                      note := h.note[..NOTE_HIT] + U64(n) + h.note[NOTE_HIT + 8..]))
            != Stored(h.(dataSize := h.dataSize + 20, dimSizes := h.dimSizes[0 := n]))
  {
    hide U64;
    var n: u64 := (h.dataSize + 20) / 20;
    var note := h.note[..NOTE_HIT] + U64(n) + h.note[NOTE_HIT + 8..];
    assert note[NOTE_HIT..NOTE_HIT + 8] == U64(n);
    assert PadDims(h.dimSizes[..h.ndim])[0] == h.dimSizes[0];
    assert PadDims(h.dimSizes[0 := n][..h.ndim])[0] == n;
  }
}
