/** Which files the two in-place insertions accept: byte by byte for any file, and among the files of records. */
module AppendExact {
  import opened Bytes
  import opened Common
  import opened Signature
  import opened Layout
  import opened RecordIO
  import ReadExact
  import C = CapsuleAppend
  import B = BatchAppend

  /** An unsigned 64-bit size as a signed offset. */
  function Signed(n: nat): int {
    if n < 0x8000_0000_0000_0000 then n else n - 0x1_0000_0000_0000_0000
  }

  lemma Count(f: seq<byte>, o: nat, n: u32)
    requires n < 256
    ensures At(f, o, U32(n)) <==> o + 4 <= |f| && f[o..o + 4] == [n, 0, 0, 0]
  {
    AtSlice(f, o, U32(n));
    assert Le(1, 0) == [0] && Le(2, 0) == [0, 0] && Le(3, 0) == [0, 0, 0];
    assert Le(4, n) == [n] + Le(3, 0) && U32(n) == [n, 0, 0, 0];
  }

  // ---------------------------------------------------------------- the capsule

  /** A capsule append accepts a file exactly when it starts as a task record, counts one header, names it "TaskID",
      holds a multiple of 20 bytes of payload, and ends where that size and the dimensions of the header say. */
  lemma CapsuleBytes(f: seq<byte>)
    ensures C.Accepts(f) <==>
            && |f| >= 596 && f[0..8] == [0xE1, 0x54, 0x50, 0x42, 0xD2, 0x53, 0x31, 0xE0]
            && f[172..176] == [1, 0, 0, 0] && f[340..347] == [0x54, 0x61, 0x73, 0x6B, 0x49, 0x44, 0]
            && UnLe(f[16..24]) % 20 == 0
            && var e := 2908 + 72 * UnLe(f[312..316]) + Signed(UnLe(f[16..24]));
               0 <= e && e + 8 <= |f| && f[e..e + 8] == [0xE1, 0x54, 0x50, 0x42, 0xD2, 0x45, 0x31, 0xE0]
  {
    assert Magic(Rec, Task, Start) == [0xE1, 0x54, 0x50, 0x42, 0xD2, 0x53, 0x31, 0xE0];
    assert Magic(Rec, Task, End) == [0xE1, 0x54, 0x50, 0x42, 0xD2, 0x45, 0x31, 0xE0];
    hide Magic;
    hide At;
    hide U32;
    hide UnLe;
    AtSlice(f, 0, Magic(Rec, Task, Start));
    Count(f, 172, 1);
    AtSlice(f, 340, TASK_ID_NAME);
    if |f| >= 596 {
      var e := C.EndOff(C.SizeOf(f), C.NdimOf(f));
      if e >= 0 {
        AtSlice(f, e, Magic(Rec, Task, End));
      }
    }
  }

  /** Among the files of task records it accepts those of capsules and no other. */
  lemma CapsuleImages(r: Record)
    requires r.Wf(SchemaOf(Task)) && |r.payload| + 20 < 0x8000_0000_0000_0000
    ensures C.Accepts(Image(SchemaOf(Task), r)) <==>
            && |r.headers| == 1 && r.headers[0].name[..7] == [0x54, 0x61, 0x73, 0x6B, 0x49, 0x44, 0]
            && |r.payload| % 20 == 0
  {
    var f := Image(SchemaOf(Task), r);
    CapsuleIs(r);
    hide *;
    if C.Accepts(f) {
      CapsuleOnly(f, r);
    }
    if C.IsCapsule(r) {
      C.CapsuleAccepted(f, r);
    }
  }

  lemma CapsuleIs(r: Record)
    requires r.Wf(SchemaOf(Task)) && |r.payload| + 20 < 0x8000_0000_0000_0000
    ensures C.IsCapsule(r) <==>
            && |r.headers| == 1 && r.headers[0].name[..7] == [0x54, 0x61, 0x73, 0x6B, 0x49, 0x44, 0]
            && |r.payload| % 20 == 0
  {
    hide SchemaOf;
  }

  lemma CapsuleOnly(f: seq<byte>, r: Record)
    requires r.Wf(SchemaOf(Task)) && |r.payload| + 20 < 0x8000_0000_0000_0000
    requires f == Image(SchemaOf(Task), r) && C.Accepts(f)
    ensures C.IsCapsule(r)
  {
    hide *;
    CapsuleChecks(f);
    var s := SchemaOf(Task);
    C.TaskNumbers();
    ReadExact.WfParts(s, r);
    ImageStart(f, s, r);
    NHeaderAt(f, s, r);
    OneCount(f, 172, |r.headers|, 1);
    C.CapsuleFacts(f, r);
    NamedSo(f, 308, r.headers[0], TASK_ID_NAME);
    SizeRead(f, |r.payload|);
    CapsuleBuilt(r);
  }

  lemma CapsuleBuilt(r: Record)
    requires r.Wf(SchemaOf(Task)) && |r.payload| + 20 < 0x8000_0000_0000_0000
    requires |r.headers| == 1 && r.headers[0].Wf() && r.headers[0].name[..7] == TASK_ID_NAME && |r.payload| % 20 == 0
    ensures C.IsCapsule(r)
  {
    hide SchemaOf;
  }

  lemma CapsuleChecks(f: seq<byte>)
    requires C.Accepts(f)
    ensures |f| >= 596 && At(f, 172, U32(1)) && At(f, 340, TASK_ID_NAME) && GetU64(f[16..24]) % 20 == 0
    ensures |TASK_ID_NAME| == 7
  {
    hide At;
    hide U32;
    hide GetU64;
  }

  lemma ImageStart(f: seq<byte>, s: Schema, r: Record)
    requires r.Wf(s) && f == Image(s, r)
    ensures At(f, 0, Preamble(s, r))
  {
    hide Preamble;
    hide Record.Wf;
    ImageParts(f, s, r);
  }

  lemma OneCount(f: seq<byte>, o: nat, m: nat, n: u32)
    requires m < 0x1_0000_0000 && At(f, o, U32(m)) && At(f, o, U32(n))
    ensures m == n
  {
    AtUnique(f, o, U32(m), U32(n));
    assert GetU32(U32(m)) == m && GetU32(U32(n)) == n;
  }

  lemma NamedSo(f: seq<byte>, base: nat, h: Header, name: seq<byte>)
    requires h.Wf() && HeaderAt(f, base, h) && At(f, base + 32, name) && |name| <= 256
    ensures |h.name| == 256 && h.name[..|name|] == name
  {
    AtPrefixOf(f, base + 32, h.name, |name|);
    AtUnique(f, base + 32, h.name[..|name|], name);
  }

  lemma AtPrefixOf(f: seq<byte>, o: nat, t: seq<byte>, n: nat)
    requires At(f, o, t) && n <= |t|
    ensures At(f, o, t[..n])
  {
  }

  lemma SizeRead(f: seq<byte>, n: u64)
    requires At(f, 16, U64(n))
    ensures |f| >= 24 && GetU64(f[16..24]) == n
  {
    AtSlice(f, 16, U64(n));
  }

  // ---------------------------------------------------------------- the batch

  /** A batch record with two headers, named "TaskID" and "KernelID". */
  predicate StartsAsBatch(f: seq<byte>) {
    && |f| >= 676 && f[0..8] == [0xE1, 0x54, 0x50, 0x42, 0xD0, 0x53, 0x31, 0xE0]
    && f[256..260] == [2, 0, 0, 0] && f[420..427] == [0x54, 0x61, 0x73, 0x6B, 0x49, 0x44, 0]
    && var h := 2980 + 72 * UnLe(f[392..396]);
       h + 288 <= |f| && f[h + 32..h + 41] == [0x4B, 0x65, 0x72, 0x6E, 0x65, 0x6C, 0x49, 0x44, 0]
  }

  /** Block sizes m, in whole IDs, and n that add up to the payload's p in 64 bits, a record that ends where they say,
      and the rest behind the first block in the file; the payload begins at d. */
  predicate SizesHold(f: seq<byte>, d: nat, p: nat, m: nat, n: nat) {
    && m % 20 == 0 && (m + n) % 0x1_0000_0000_0000_0000 == p
    && 0 <= d + Signed(m) && d + Signed(m) + (n + 8) % 0x1_0000_0000_0000_0000 <= |f|
    && var e := d + Signed(p);
       0 <= e && e + 8 <= |f| && f[e..e + 8] == [0xE1, 0x54, 0x50, 0x42, 0xD0, 0x45, 0x31, 0xE0]
  }

  /** A batch insertion accepts the files of batches with sizes that hold, and no other. */
  lemma BatchBytes(f: seq<byte>)
    ensures B.Accepts(f) <==>
            && StartsAsBatch(f)
            && var h := 2980 + 72 * UnLe(f[392..396]);
               SizesHold(f, h + 2600 + 72 * UnLe(f[h + 4..h + 8]), UnLe(f[16..24]), UnLe(f[396..404]),
                         UnLe(f[h + 8..h + 16]))
  {
    BatchNames(f);
    hide UnLe;
    hide SizesHold;
    hide B.ReadSizes;
    hide B.Consistent;
    if StartsAsBatch(f) {
      BatchTail(f, B.ReadSizes(f).value);
    }
    hide *;
    AcceptsIs(f);
  }

  lemma BatchNames(f: seq<byte>)
    ensures B.ReadSizes(f) ==
            if StartsAsBatch(f) then
              var h := 2980 + 72 * UnLe(f[392..396]);
              Some(B.Sizes(GetU64(f[16..24]), GetU32(f[392..396]), GetU64(f[396..404]), GetU32(f[h + 4..h + 8]),
                           GetU64(f[h + 8..h + 16])))
            else None
  {
    AtSlice(f, 0, Magic(Rec, TBatch, Start));
    Count(f, 256, 2);
    AtSlice(f, 420, TASK_ID_NAME);
    if |f| >= 676 {
      AtSlice(f, 3012 + 72 * GetU32(f[392..396]), B.KERNEL_NAME);
    }
    hide At;
    hide U32;
    hide UnLe;
  }

  lemma BatchTail(f: seq<byte>, z: B.Sizes)
    ensures B.Consistent(f, z) <==>
            SizesHold(f, 5580 + 72 * z.ndim0 + 72 * z.ndim1, z.total, z.size0, z.size1)
  {
    if 0 <= z.EndOff() {
      AtSlice(f, z.EndOff(), Magic(Rec, TBatch, End));
    }
    hide At;
  }

  /** Block sizes m, in whole IDs, and n that add up to the payload's p; or only modulo 2^64, if n is one of the last
      eight 64-bit numbers or m, read as negative, leads from the payload at d to a place in the file. */
  predicate AddUp(d: nat, p: nat, m: nat, n: nat) {
    && m % 20 == 0
    && (m + n == p
        || (m + n == p + 0x1_0000_0000_0000_0000
            && (n + 8 >= 0x1_0000_0000_0000_0000 || 0 <= d + m - 0x1_0000_0000_0000_0000)))
  }

  /** Among the files of batch records it accepts those with two headers of these names and sizes that add up. */
  lemma BatchImages(r: Record)
    requires r.Wf(SchemaOf(TBatch)) && |r.payload| + 20 < 0x8000_0000_0000_0000
    ensures B.Accepts(Image(SchemaOf(TBatch), r)) <==>
            && |r.headers| == 2 && r.headers[0].name[..7] == [0x54, 0x61, 0x73, 0x6B, 0x49, 0x44, 0]
            && r.headers[1].name[..9] == [0x4B, 0x65, 0x72, 0x6E, 0x65, 0x6C, 0x49, 0x44, 0]
            && AddUp(5580 + 72 * r.headers[0].ndim + 72 * r.headers[1].ndim, |r.payload|,
                     r.headers[0].dataSize, r.headers[1].dataSize)
  {
    hide *;
    var f := Image(SchemaOf(TBatch), r);
    ReadExact.WfParts(SchemaOf(TBatch), r);
    AcceptsIs(f);
    BatchHeaders(f, r);
    if |r.headers| == 2 {
      var h, k := r.headers[0], r.headers[1];
      BatchRead(f, r);
      BatchEnd(f, r, B.Sizes(|r.payload|, h.ndim, h.dataSize, k.ndim, k.dataSize));
      FewDims(h);
      FewDims(k);
      Wrapped(5580 + 72 * h.ndim + 72 * k.ndim, |r.payload|, h.dataSize, k.dataSize);
    }
  }

  lemma AcceptsIs(f: seq<byte>)
    ensures B.Accepts(f) <==> B.ReadSizes(f).Some? && B.Consistent(f, B.ReadSizes(f).value)
  {
    hide B.ReadSizes;
    hide B.Consistent;
  }

  /** Only two headers pass the count. */
  lemma BatchHeaders(f: seq<byte>, r: Record)
    requires r.Wf(SchemaOf(TBatch)) && |r.headers| < 0x1_0000_0000 && f == Image(SchemaOf(TBatch), r)
    ensures B.ReadSizes(f).Some? ==> |r.headers| == 2
  {
    BatchCount(f);
    hide *;
    if B.ReadSizes(f).Some? {
      B.TBatchNumbers();
      ImageStart(f, SchemaOf(TBatch), r);
      NHeaderAt(f, SchemaOf(TBatch), r);
      OneCount(f, 256, |r.headers|, 2);
    }
  }

  lemma BatchCount(f: seq<byte>)
    ensures B.ReadSizes(f).Some? ==> At(f, 256, U32(2))
  {
    hide At;
    hide U32;
  }

  /** With two headers the names alone decide, and what is read are the sizes of the record. */
  lemma BatchRead(f: seq<byte>, r: Record)
    requires r.Wf(SchemaOf(TBatch)) && |r.headers| == 2 && f == Image(SchemaOf(TBatch), r)
    ensures r.headers[0].Wf() && r.headers[1].Wf() && |r.payload| < 0x1_0000_0000_0000_0000
    ensures |r.headers[0].name| == |r.headers[1].name| == 256
    ensures var h, k := r.headers[0], r.headers[1];
            B.ReadSizes(f) ==
            if h.name[..7] == [0x54, 0x61, 0x73, 0x6B, 0x49, 0x44, 0]
               && k.name[..9] == [0x4B, 0x65, 0x72, 0x6E, 0x65, 0x6C, 0x49, 0x44, 0] then
              Some(B.Sizes(|r.payload|, h.ndim, h.dataSize, k.ndim, k.dataSize))
            else None
  {
    hide *;
    var s := SchemaOf(TBatch);
    ReadExact.WfParts(s, r);
    var h, k := r.headers[0], r.headers[1];
    B.TBatchNumbers();
    B.BatchFacts(f, r);
    NHeaderAt(f, s, r);
    B.TotalRead(f, |r.payload|);
    B.HeaderRead(f, 388, h, 256);
    B.SecondHeader(h);
    HeaderFieldsAt(f, 388 + HeaderLen(h), k);
    B.HeaderRead(f, 388 + HeaderLen(h), k, 256);
    NameAgrees(f, 388, h, 7);
    NameAgrees(f, 388 + HeaderLen(h), k, 9);
    ReadAs(f, |r.payload|, h, k);
  }

  lemma NameAgrees(f: seq<byte>, base: nat, h: Header, n: nat)
    requires h.Wf() && HeaderAt(f, base, h) && n <= 256
    ensures |h.name| == 256 && At(f, base + 32, h.name[..n])
    ensures forall t: seq<byte> :: |t| == n ==> (At(f, base + 32, t) <==> h.name[..n] == t)
  {
    hide U32;
    hide U64;
    hide Dims;
    hide Flat;
    forall t: seq<byte> | |t| == n
      ensures At(f, base + 32, t) <==> h.name[..n] == t
    {
      if At(f, base + 32, t) {
        AtUnique(f, base + 32, t, h.name[..n]);
      }
    }
  }

  lemma ReadAs(f: seq<byte>, total: u64, h: Header, k: Header)
    requires |f| >= 676 && At(f, 0, Magic(Rec, TBatch, Start)) && At(f, 256, U32(2)) && B.Field64(f, 16) == total
    requires B.Field32(f, 392) == h.ndim && B.Field64(f, 396) == h.dataSize && |h.name| == |k.name| == 256
    requires forall t: seq<byte> :: |t| == 7 ==> (At(f, 420, t) <==> h.name[..7] == t)
    requires |f| >= B.Hdr1Of(h.ndim) + 288
    requires forall t: seq<byte> :: |t| == 9 ==> (At(f, B.Hdr1Of(h.ndim) + 32, t) <==> k.name[..9] == t)
    requires B.Field32(f, B.Hdr1Of(h.ndim) + 4) == k.ndim && B.Field64(f, B.Hdr1Of(h.ndim) + 8) == k.dataSize
    ensures B.ReadSizes(f) ==
            if h.name[..7] == [0x54, 0x61, 0x73, 0x6B, 0x49, 0x44, 0]
               && k.name[..9] == [0x4B, 0x65, 0x72, 0x6E, 0x65, 0x6C, 0x49, 0x44, 0] then
              Some(B.Sizes(total, h.ndim, h.dataSize, k.ndim, k.dataSize))
            else None
  {
    hide B.Hdr1Of;
    hide At;
    hide U32;
    hide Magic;
    hide B.Field32;
    hide B.Field64;
    assert |TASK_ID_NAME| == 7 && |B.KERNEL_NAME| == 9;
  }

  lemma FewDims(h: Header)
    requires h.Wf()
    ensures h.ndim <= 7 && h.dataSize < 0x1_0000_0000_0000_0000
  {
  }

  /** The record ends where its sizes say, so only the sums are left. */
  lemma BatchEnd(f: seq<byte>, r: Record, z: B.Sizes)
    requires r.Wf(SchemaOf(TBatch)) && |r.headers| == 2 && r.headers[0].Wf() && r.headers[1].Wf()
    requires f == Image(SchemaOf(TBatch), r) && |r.payload| + 20 < 0x8000_0000_0000_0000
    requires z.total == |r.payload| && z.ndim0 == r.headers[0].ndim && z.ndim1 == r.headers[1].ndim
    ensures var d := 5580 + 72 * z.ndim0 + 72 * z.ndim1;
            B.Consistent(f, z) <==>
            && z.size0 % 20 == 0 && (z.size0 + z.size1) % 0x1_0000_0000_0000_0000 == |r.payload|
            && 0 <= d + Signed(z.size0)
            && d + Signed(z.size0) + (z.size1 + 8) % 0x1_0000_0000_0000_0000 <= d + |r.payload| + 8
  {
    hide *;
    B.BatchFacts(f, r);
    B.BodyParts(f, B.SplitOf(r), TBatch, r.payload);
    SplitIs(r);
    EndMark(f, z, B.SplitOf(r) + 8 + |r.payload|);
  }

  lemma SplitIs(r: Record)
    requires |r.headers| == 2
    ensures B.SplitOf(r) == 5572 + 72 * r.headers[0].ndim + 72 * r.headers[1].ndim
  {
  }

  lemma EndMark(f: seq<byte>, z: B.Sizes, e: nat)
    requires z.total + 20 < 0x8000_0000_0000_0000 && e == 5580 + 72 * z.ndim0 + 72 * z.ndim1 + z.total
    requires |f| == e + 8 && At(f, e, Magic(Rec, TBatch, End))
    ensures var d := 5580 + 72 * z.ndim0 + 72 * z.ndim1;
            B.Consistent(f, z) <==>
            && z.size0 % 20 == 0 && (z.size0 + z.size1) % 0x1_0000_0000_0000_0000 == z.total
            && 0 <= d + Signed(z.size0)
            && d + Signed(z.size0) + (z.size1 + 8) % 0x1_0000_0000_0000_0000 <= e + 8
  {
    hide At;
    hide Magic;
  }

  /** When two 64-bit sizes and the place behind the first one pass. */
  lemma Wrapped(d: nat, p: nat, m: nat, n: nat)
    requires p + 20 < 0x8000_0000_0000_0000 && d < 0x8000_0000_0000_0000
    requires m < 0x1_0000_0000_0000_0000 && n < 0x1_0000_0000_0000_0000
    ensures (&& m % 20 == 0 && (m + n) % 0x1_0000_0000_0000_0000 == p
             && 0 <= d + Signed(m) && d + Signed(m) + (n + 8) % 0x1_0000_0000_0000_0000 <= d + p + 8)
            <==> AddUp(d, p, m, n)
  {
    if m + n < 0x1_0000_0000_0000_0000 {
      assert (m + n) % 0x1_0000_0000_0000_0000 == m + n;
    } else {
      assert (m + n) % 0x1_0000_0000_0000_0000 == m + n - 0x1_0000_0000_0000_0000;
    }
    if n + 8 < 0x1_0000_0000_0000_0000 {
      assert (n + 8) % 0x1_0000_0000_0000_0000 == n + 8;
    } else {
      assert (n + 8) % 0x1_0000_0000_0000_0000 == n + 8 - 0x1_0000_0000_0000_0000;
    }
  }
}
