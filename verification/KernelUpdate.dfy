/** Updating one metadata key of a kernel, from the record file before the call to the record file
    after it: read the record, rebuild its payload, write it again. */
module KernelUpdate {
  import opened Bytes
  import opened Common
  import opened Signature
  import opened Layout
  import opened Disk
  import opened RecordIO
  import opened KeyValue
  import opened Structs
  import M = KernelMeta

  // ---------------------------------------------------------------- the record as the update sees it

  /** The names of the headers, each up to its terminator. */
  function Names(hs: seq<Header>): (ns: seq<string>)
    ensures |ns| == |hs|
  {
    seq(|hs|, i requires 0 <= i < |hs| => CText(hs[i].name))
  }

  function Sizes(hs: seq<Header>): (ns: seq<nat>)
    ensures |ns| == |hs| && forall i :: 0 <= i < |hs| ==> ns[i] == hs[i].dataSize
  {
    seq(|hs|, i requires 0 <= i < |hs| => hs[i].dataSize)
  }

  /** The payload in memory, and what stands behind it. */
  function Loaded(r: Record, past: nat -> char): M.Memory {
    M.Memory(Chars(r.payload), past)
  }

  /** What the rebuilding makes of a record that has been read. */
  function Outcome(r: Record, past: nat -> char, full: string, value: string): M.Outcome {
    M.Update(Names(r.headers), Sizes(r.headers), Loaded(r, past), full, value)
  }

  /** The header that the key names. */
  function Changed(r: Record, full: string): (h: nat)
    requires M.SplitKey(full).Some?
    ensures h <= |r.headers|
  {
    M.FindHeader(Names(r.headers), M.SplitKey(full).value.0)
  }

  /** Sizes and texts stay below the largest file size. */
  predicate Fits(r: Record, full: string, value: string) {
    M.SumTo(Sizes(r.headers), |r.headers|) + |r.payload| + |full| + |value| + 8 < TWO63
  }

  /** Texts a caller can pass: C strings of one line. */
  predicate Plain(full: string, value: string) {
    '\0' !in full && OneLine(full) && '\0' !in value && Narrow(full) && Narrow(value)
  }

  /** The record with the changed header's sizes and the new payload. */
  function Rewritten(r: Record, h: nat, sizes: seq<nat>, data: string): (r': Record)
    requires r.Wf(SchemaOf(Kernel)) && h < |r.headers| == |sizes| && sizes[h] < TWO64
    requires Narrow(data) && |data| < TWO63
    ensures r'.Wf(SchemaOf(Kernel)) && r'.attrs == r.attrs
  {
    var k := r.headers[h];
    Record(r.attrs, r.headers[h := k.(dataSize := sizes[h], dimSizes := k.dimSizes[0 := sizes[h]])], Codes(data))
  }

  lemma NarrowBytes(s: seq<byte>)
    ensures Narrow(Chars(s))
  {
  }

  lemma {:induction false} BlocksNarrow(mem: M.Memory, sizes: seq<nat>, h: nat, payload: string, n: nat)
    requires h < |sizes| && n <= |sizes| && sizes[h] == |payload| + 1 && Narrow(payload)
    requires forall k: nat :: mem.At(k) as int < 256
    ensures Narrow(M.Blocks(mem, sizes, h, payload, n))
    decreases n
  {
    if n > 0 {
      BlocksNarrow(mem, sizes, h, payload, n - 1);
      assert Narrow(M.NewBlock(mem, sizes, h, payload, n - 1));
    }
  }

  lemma SetNarrow(text: string, key: string, value: string)
    requires Narrow(text) && Narrow(key) && Narrow(value)
    ensures Narrow(SetText(text, key, value))
    ensures |SetText(text, key, value)| <= |text| + |key| + |value| + 3
  {
    M.SetFrom(text, key, value);
    SetIsTail(text, key, value);
    TailFits(text, SetSearch(key), value, false);
    hide SetText;
    forall k | 0 <= k < |SetText(text, key, value)|
      ensures SetText(text, key, value)[k] as int < 256
    {
      assert SetText(text, key, value)[k] in SetText(text, key, value);
    }
  }

  lemma KeyNarrow(full: string)
    requires Narrow(full) && M.SplitKey(full).Some?
    ensures Narrow(M.SplitKey(full).value.1) && |M.SplitKey(full).value.1| <= |full|
  {
  }

  /** A successful rebuilding leaves something that can be written as a record. */
  lemma OutcomeFits(r: Record, past: nat -> char, full: string, value: string)
    requires r.Wf(SchemaOf(Kernel)) && Fits(r, full, value) && Plain(full, value)
    requires (forall k: nat :: past(k) as int < 256) && Outcome(r, past, full, value).Updated?
    ensures var o := Outcome(r, past, full, value);
            && M.SplitKey(full).Some? && Changed(r, full) < |r.headers| == |o.sizes|
            && o.sizes[Changed(r, full)] < TWO64
            && Narrow(o.data) && |o.data| < TWO63
            && o.sizes == Sizes(r.headers)[Changed(r, full) := o.sizes[Changed(r, full)]]
  {
    hide SchemaOf;
    hide Record.Wf;
    hide SetText;
    hide M.Blocks;
    hide M.NewBlock;
    var names, sizes, mem := Names(r.headers), Sizes(r.headers), Loaded(r, past);
    M.UpdateIs(names, sizes, mem, full, value);
    hide M.Update;
    KeyNarrow(full);
    NarrowBytes(r.payload);
    var key, h := M.SplitKey(full).value.1, Changed(r, full);
    hide M.SplitKey;
    hide M.FindHeader;
    hide M.SumTo;
    var was := mem.Text(M.SumTo(sizes, h));
    SetNarrow(was, key, value);
    var payload := SetText(was, key, value);
    var sizes' := sizes[h := |payload| + 1];
    M.SumToSet(sizes, h, |payload| + 1, |sizes|);
    BlocksNarrow(mem, sizes', h, payload, |sizes|);
  }

  /** The record after the call; None where the update fails. */
  function Written(r: Record, past: nat -> char, full: string, value: string): (w: Option<Record>)
    requires r.Wf(SchemaOf(Kernel)) && Fits(r, full, value) && Plain(full, value)
    requires forall k: nat :: past(k) as int < 256
    ensures w.Some? ==> w.value.Wf(SchemaOf(Kernel))
  {
    match Outcome(r, past, full, value)
    case Failed(_) => None
    case Updated(sizes, data) =>
      OutcomeFits(r, past, full, value);
      Some(Rewritten(r, Changed(r, full), sizes, data))
  }

  // ---------------------------------------------------------------- what has been read is a record

  lemma {:induction false} ParsedHeaders(f: seq<byte>, p: nat, n: nat)
    requires ParseHeaders(f, p, n).Some?
    ensures var hs := ParseHeaders(f, p, n).value; |hs| == n && forall i :: 0 <= i < |hs| ==> hs[i].Wf()
    decreases n
  {
    HeadersNext(f, p, n);
    hide ParseHeaders;
    hide ParseHeader;
    if n > 0 {
      var h := ParseHeader(f, p).value;
      ParsedHeader(f, p);
      hide HeaderLen;
      ParsedHeaders(f, p + HeaderLen(h), n - 1);
      hide Header.Wf;
    }
  }

  lemma ParsedHeader(f: seq<byte>, p: nat)
    requires ParseHeader(f, p).Some?
    ensures ParseHeader(f, p).value.Wf()
  {
    var h := ParseHeader(f, p).value;
    forall j | 0 <= j < 7
      ensures |h.dimNames[j]| == 64
    {
    }
  }

  lemma ParsedWf(f: seq<byte>, s: Schema)
    requires s.Valid() && ParseRecord(f, s).Some? && |ParseRecord(f, s).value.payload| < TWO63
    ensures ParseRecord(f, s).value.Wf(s)
  {
    var r := ParseRecord(f, s).value;
    hide Magic;
    hide ParseBody;
    ParsedHeaders(f, s.HeaderBase(), GetU32(r.attrs[s.nheaderField]));
    hide ParseHeaders;
    assert Lengths(r.attrs) == s.widths;
  }

  // ---------------------------------------------------------------- the call

  /** tpb_raf_kernel_update_meta_key on a record file. The record is written to `out`, the file that its
      own ID names: the file it was read from, unless that file holds another kernel's record. On failure
      both files keep every byte. */
  method UpdateKey(file: DiskFile, out: DiskFile, past: nat -> char, full: string, value: string) returns (ok: bool)
    requires file.pos == 0 && Plain(full, value) && forall k: nat :: past(k) as int < 256
    requires var p := ParseRecord(file.data, SchemaOf(Kernel)); p.Some? ==> Fits(p.value, full, value)
    modifies file, out
    ensures !ok ==> out.data == old(out.data)
    ensures !ok || out != file ==> file.data == old(file.data)
    ensures var p := ParseRecord(old(file.data), SchemaOf(Kernel));
            if p == None then !ok
            else
              && p.value.Wf(SchemaOf(Kernel))
              && var w := Written(p.value, past, full, value);
                 ok == w.Some? && (ok ==> out.data == Image(SchemaOf(Kernel), w.value))
  {
    hide SchemaOf;
    hide ParseRecord;
    hide Image;
    hide Record.Wf;
    var read := ReadRecord(file, SchemaOf(Kernel));
    if read == None { return false; }
    var r := read.value;
    ParsedWf(file.data, SchemaOf(Kernel));
    var o := M.UpdateMetaKey(Names(r.headers), Sizes(r.headers), Loaded(r, past), full, value);
    if o.Failed? { return false; }
    OutcomeFits(r, past, full, value);
    out.data, out.pos := [], 0;
    WriteRecord(out, SchemaOf(Kernel), Rewritten(r, Changed(r, full), o.sizes, o.data));
    ok := true;
  }

  // ---------------------------------------------------------------- what it comes to

  /** Block i of a payload, as readers find it: behind the sizes before it. */
  function Block(r: Record, i: nat): (b: seq<byte>)
    requires i < |r.headers|
  {
    var off := M.SumTo(Sizes(r.headers), i);
    if off + r.headers[i].dataSize <= |r.payload| then r.payload[off..off + r.headers[i].dataSize] else []
  }

  /** A header with a new size, which is its first extent too when it has a dimension; nothing else differs. */
  predicate Resized(k: Header, k': Header) {
    && |k.dimSizes| == 7
    && k' == k.(dataSize := k'.dataSize,
                dimSizes := if k.ndim > 0 then k.dimSizes[0 := k'.dataSize] else k.dimSizes)
  }

  /** A record after a good update of header h of record q. */
  predicate UpdatedWell(q: Record, z: Record, h: nat, past: nat -> char, key: string, value: string, size: nat)
    requires size > 0
  {
    && z.attrs == q.attrs && h < |q.headers| == |z.headers|
    && (forall i :: 0 <= i < |q.headers| && i != h ==> z.headers[i] == q.headers[i])
    && Resized(q.headers[h], z.headers[h])
    && M.SumTo(Sizes(z.headers), |z.headers|) == |z.payload|
    && M.SumTo(Sizes(z.headers), h) <= |z.payload|
    && (forall i :: 0 <= i < h ==> Block(z, i) == Block(q, i))
    && (z.headers[h].dataSize == q.headers[h].dataSize ==>
          forall i :: 0 <= i < |q.headers| && i != h ==> Block(z, i) == Block(q, i))
    && var text := Loaded(z, past).Text(M.SumTo(Sizes(z.headers), h));
       z.headers[h].dataSize == |text| + 1
       && GetText(text, key, size) == (if |key| <= 253 then Some(Cut(value, size - 1)) else None)
  }

  /** From file to file: on a kernel record's file whose header sizes add up to its payload, a
      successful call leaves the file of a record that reads back with the same attributes and the
      other headers unchanged, sizes that add up again, the key bound to the value, and the blocks
      before the changed one as they were. The blocks after it are as they were, too, if its text
      has kept its length. */
  lemma UpdateRefines(r: Record, past: nat -> char, full: string, value: string, size: nat)
    requires r.Wf(SchemaOf(Kernel)) && M.SumTo(Sizes(r.headers), |r.headers|) == |r.payload|
    requires Fits(r, full, value) && Plain(full, value) && OneLine(value) && size > 0
    requires forall k: nat :: past(k) as int < 256
    ensures ParseRecord(Image(SchemaOf(Kernel), r), SchemaOf(Kernel)) == Some(Reread(SchemaOf(Kernel), r))
    ensures var q := Reread(SchemaOf(Kernel), r);
            && q.Wf(SchemaOf(Kernel)) && Fits(q, full, value)
            && var w := Written(q, past, full, value);
               && (w.Some? <==> r.payload != [] && M.SplitKey(full).Some? && Changed(q, full) < |q.headers|)
               && (w.Some? ==>
                 && M.SplitKey(full).Some? && Changed(q, full) < |q.headers|
                 && ParseRecord(Image(SchemaOf(Kernel), w.value), SchemaOf(Kernel))
                    == Some(Reread(SchemaOf(Kernel), w.value))
                 && UpdatedWell(q, Reread(SchemaOf(Kernel), w.value), Changed(q, full), past,
                                M.SplitKey(full).value.1, value, size))
  {
    var s := SchemaOf(Kernel);
    var q := Reread(s, r);
    RoundTrip(s, r);
    hide *;
    RereadSizes(r);
    Succeeds(q, past, full, value);
    var w := Written(q, past, full, value);
    if w.Some? {
      RoundTrip(s, w.value);
      UpdatedIs(q, past, full, value, size);
    }
  }

  /** An update succeeds exactly when there is a payload and the key names a header. */
  lemma Succeeds(q: Record, past: nat -> char, full: string, value: string)
    requires q.Wf(SchemaOf(Kernel)) && Fits(q, full, value) && Plain(full, value)
    requires (forall k: nat :: past(k) as int < 256) && M.SumTo(Sizes(q.headers), |q.headers|) == |q.payload|
    ensures Written(q, past, full, value).Some?
            <==> q.payload != [] && M.SplitKey(full).Some? && Changed(q, full) < |q.headers|
  {
    hide M.SplitKey;
    hide M.FindHeader;
    hide M.Blocks;
    hide SetText;
    hide SchemaOf;
    if M.SplitKey(full).Some? && Changed(q, full) < |q.headers| {
      M.SumToGrows(Sizes(q.headers), Changed(q, full) + 1, |q.headers|);
    }
  }

  lemma RereadSizes(r: Record)
    requires r.Wf(SchemaOf(Kernel))
    ensures var q := Reread(SchemaOf(Kernel), r);
            && Sizes(q.headers) == Sizes(r.headers) && q.payload == r.payload && |q.headers| == |r.headers|
            && Steady(q) && (forall full, value :: Fits(q, full, value) == Fits(r, full, value))
  {
    hide SchemaOf;
    hide Stored;
    hide Header.Wf;
    hide M.SumTo;
    forall i | 0 <= i < |r.headers|
      ensures Sizes(StoredAll(r.headers))[i] == Sizes(r.headers)[i]
              && Stored(Stored(r.headers[i])) == Stored(r.headers[i])
    {
      StoredSize(r.headers[i]);
    }
    assert Sizes(StoredAll(r.headers)) == Sizes(r.headers);
  }

  lemma StoredSize(h: Header)
    requires h.Wf()
    ensures Stored(h).dataSize == h.dataSize && Stored(Stored(h)) == Stored(h)
  {
    StoredOnce(h);
  }

  /** The headers of a record that has been read. */
  predicate Steady(r: Record) {
    forall i :: 0 <= i < |r.headers| ==> r.headers[i].Wf() && Stored(r.headers[i]) == r.headers[i]
  }

  lemma UpdatedIs(q: Record, past: nat -> char, full: string, value: string, size: nat)
    requires q.Wf(SchemaOf(Kernel)) && Steady(q) && M.SumTo(Sizes(q.headers), |q.headers|) == |q.payload|
    requires Fits(q, full, value) && Plain(full, value) && OneLine(value) && size > 0
    requires (forall k: nat :: past(k) as int < 256) && Written(q, past, full, value).Some?
    ensures M.SplitKey(full).Some? && Changed(q, full) < |q.headers|
    ensures var z := Reread(SchemaOf(Kernel), Written(q, past, full, value).value);
            UpdatedWell(q, z, Changed(q, full), past, M.SplitKey(full).value.1, value, size)
  {
    hide *;
    WrittenIs(q, past, full, value);
    var o, h := Outcome(q, past, full, value), Changed(q, full);
    var z := Reread(SchemaOf(Kernel), Rewritten(q, h, o.sizes, o.data));
    OutcomeFits(q, past, full, value);
    RewrittenReread(q, h, o.sizes, o.data);
    RewrittenWell(q, z, past, full, value, size);
  }

  /** A record with the new sizes and payload is one after a good update. */
  lemma RewrittenWell(q: Record, z: Record, past: nat -> char, full: string, value: string, size: nat)
    requires M.SumTo(Sizes(q.headers), |q.headers|) == |q.payload| && Plain(full, value) && OneLine(value) && size > 0
    requires Outcome(q, past, full, value).Updated? && M.SplitKey(full).Some?
    requires var o, h := Outcome(q, past, full, value), Changed(q, full);
             && h < |q.headers| == |z.headers| == |o.sizes| && Narrow(o.data) && z.payload == Codes(o.data)
             && z.attrs == q.attrs && Sizes(z.headers) == o.sizes && o.sizes == Sizes(q.headers)[h := o.sizes[h]]
             && Resized(q.headers[h], z.headers[h])
             && forall i :: 0 <= i < |q.headers| && i != h ==> z.headers[i] == q.headers[i]
    ensures UpdatedWell(q, z, Changed(q, full), past, M.SplitKey(full).value.1, value, size)
  {
    hide *;
    var o, h := Outcome(q, past, full, value), Changed(q, full);
    KeyReads(q, past, full, value, size);
    CharsCodes(o.data);
    forall i | 0 <= i < |q.headers| && i != h && (i < h || o.sizes == Sizes(q.headers))
      ensures Block(z, i) == Block(q, i)
    {
      BlockStays(q, z, past, full, value, i);
    }
    Gather(q, z, o.sizes, o.data, h, past, M.SplitKey(full).value.1, value, size);
  }

  lemma WrittenIs(q: Record, past: nat -> char, full: string, value: string)
    requires q.Wf(SchemaOf(Kernel)) && Fits(q, full, value) && Plain(full, value)
    requires (forall k: nat :: past(k) as int < 256) && Written(q, past, full, value).Some?
    ensures Outcome(q, past, full, value).Updated? && M.SplitKey(full).Some?
    ensures var o, h := Outcome(q, past, full, value), Changed(q, full);
            && h < |q.headers| == |o.sizes| && o.sizes[h] < TWO64 == 0x1_0000_0000_0000_0000
            && Narrow(o.data) && |o.data| < TWO63 == 0x8000_0000_0000_0000
            && Written(q, past, full, value) == Some(Rewritten(q, h, o.sizes, o.data))
  {
    hide Outcome;
    hide SchemaOf;
    hide Record.Wf;
    hide Fits;
    hide Plain;
    hide Rewritten;
    if Outcome(q, past, full, value).Updated? {
      OutcomeFits(q, past, full, value);
    }
  }

  /** What the rebuilding leaves under the key. */
  predicate Reads(data: string, past: nat -> char, sizes: seq<nat>, h: nat, key: string, value: string, size: nat)
    requires size > 0
  {
    && h < |sizes| && |data| == M.SumTo(sizes, |sizes|) && M.SumTo(sizes, h) <= |data|
    && var text := M.Memory(data, past).Text(M.SumTo(sizes, h));
       sizes[h] == |text| + 1 && GetText(text, key, size) == (if |key| <= 253 then Some(Cut(value, size - 1)) else None)
  }

  lemma KeyReads(q: Record, past: nat -> char, full: string, value: string, size: nat)
    requires Plain(full, value) && OneLine(value) && size > 0 && Outcome(q, past, full, value).Updated?
    ensures var o := Outcome(q, past, full, value);
            M.SplitKey(full).Some? && |o.sizes| == |q.headers|
            && Reads(o.data, past, o.sizes, Changed(q, full), M.SplitKey(full).value.1, value, size)
  {
    var names, sizes, mem := Names(q.headers), Sizes(q.headers), Loaded(q, past);
    M.UpdateIs(names, sizes, mem, full, value);
    M.UpdateReadsBack(names, sizes, mem, full, value, size);
    hide M.Update;
    hide M.SplitKey;
    hide M.SumTo;
    hide GetText;
  }

  lemma BlockStays(q: Record, z: Record, past: nat -> char, full: string, value: string, i: nat)
    requires Outcome(q, past, full, value).Updated? && M.SplitKey(full).Some? && Changed(q, full) < |q.headers|
    requires M.SumTo(Sizes(q.headers), |q.headers|) == |q.payload| && i < |q.headers| == |z.headers|
             && i != Changed(q, full)
    requires var o := Outcome(q, past, full, value);
             && Narrow(o.data) && z.payload == Codes(o.data) && Sizes(z.headers) == o.sizes
             && z.headers[i] == q.headers[i] && (i < Changed(q, full) || o.sizes == Sizes(q.headers))
    ensures Block(z, i) == Block(q, i)
  {
    var names, sizes, mem := Names(q.headers), Sizes(q.headers), Loaded(q, past);
    hide M.Update;
    hide M.FindHeader;
    hide M.SplitKey;
    hide M.SumTo;
    hide Block;
    assert Outcome(q, past, full, value) == M.Update(names, sizes, mem, full, value);
    assert Changed(q, full) == M.FindHeader(names, M.SplitKey(full).value.0);
    hide *;
    M.UpdateKeepsOthers(names, sizes, mem, full, value, i);
    BlockKept(q, z, Outcome(q, past, full, value).data, past, i);
  }

  lemma Gather(q: Record, z: Record, sizes: seq<nat>, data: string, h: nat, past: nat -> char, key: string,
               value: string, size: nat)
    requires z.attrs == q.attrs && h < |q.headers| == |z.headers| && size > 0 && Narrow(data)
    requires Resized(q.headers[h], z.headers[h])
    requires forall i :: 0 <= i < |q.headers| && i != h ==> z.headers[i] == q.headers[i]
    requires Sizes(z.headers) == sizes && |sizes| == |q.headers| && z.payload == Codes(data) && Chars(z.payload) == data
    requires Reads(data, past, sizes, h, key, value, size) && sizes == Sizes(q.headers)[h := sizes[h]]
    requires forall i ::
               0 <= i < |q.headers| && i != h && (i < h || sizes == Sizes(q.headers)) ==> Block(z, i) == Block(q, i)
    ensures UpdatedWell(q, z, h, past, key, value, size)
  {
    hide M.SumTo;
    hide Block;
    hide GetText;
    hide M.Memory.Text;
    assert z.headers[h].dataSize == sizes[h] && |z.payload| == |data|;
    if z.headers[h].dataSize == q.headers[h].dataSize {
      assert sizes == Sizes(q.headers);
    }
  }

  lemma ResizedStored(k: Header, n: u64)
    requires k.Wf() && Stored(k) == k
    ensures |k.dimSizes| == 7 && Resized(k, Stored(k.(dataSize := n, dimSizes := k.dimSizes[0 := n])))
  {
    var m := k.(dataSize := n, dimSizes := k.dimSizes[0 := n]);
    assert Stored(m).dimSizes == (if k.ndim > 0 then k.dimSizes[0 := n] else k.dimSizes);
  }

  /** The rewritten record, read back. */
  lemma RewrittenReread(q: Record, h: nat, sizes: seq<nat>, data: string)
    requires q.Wf(SchemaOf(Kernel)) && Steady(q) && h < |q.headers| == |sizes| && sizes[h] < TWO64
    requires Narrow(data) && |data| < TWO63 && sizes == Sizes(q.headers)[h := sizes[h]]
    ensures var z := Reread(SchemaOf(Kernel), Rewritten(q, h, sizes, data));
            && z.attrs == q.attrs && |z.headers| == |q.headers| && z.payload == Codes(data)
            && (forall i :: 0 <= i < |q.headers| && i != h ==> z.headers[i] == q.headers[i])
            && Sizes(z.headers) == sizes && Resized(q.headers[h], z.headers[h])
  {
    ResizedStored(q.headers[h], sizes[h]);
    hide SchemaOf;
    hide Codes;
    hide Resized;
    var z := Reread(SchemaOf(Kernel), Rewritten(q, h, sizes, data));
    forall i | 0 <= i < |q.headers|
      ensures z.headers[i].dataSize == sizes[i]
      ensures i != h ==> z.headers[i] == q.headers[i]
    {
    }
  }

  /** A block that the rebuilding took over as it was. */
  lemma BlockKept(q: Record, z: Record, data: string, past: nat -> char, i: nat)
    requires i < |q.headers| == |z.headers| && Narrow(data) && z.payload == Codes(data)
    requires M.SumTo(Sizes(q.headers), |q.headers|) == |q.payload| && z.headers[i].dataSize == q.headers[i].dataSize
    requires var a, n := M.SumTo(Sizes(z.headers), i), q.headers[i].dataSize;
             a + n <= |data| && data[a..a + n] == Loaded(q, past).Slice(M.SumTo(Sizes(q.headers), i), n)
    ensures Block(z, i) == Block(q, i)
  {
    var a, b, n := M.SumTo(Sizes(z.headers), i), M.SumTo(Sizes(q.headers), i), q.headers[i].dataSize;
    M.SumToGrows(Sizes(q.headers), i + 1, |q.headers|);
    assert b + n <= |q.payload|;
    hide M.SumTo;
    SliceKept(data, q.payload, past, a, b, n);
  }

  /** Characters taken from the old payload are its bytes. */
  lemma SliceKept(data: string, was: seq<byte>, past: nat -> char, a: nat, b: nat, n: nat)
    requires Narrow(data) && a + n <= |data| && b + n <= |was|
    requires data[a..a + n] == M.Memory(Chars(was), past).Slice(b, n)
    ensures Codes(data)[a..a + n] == was[b..b + n]
  {
    var x, y := Codes(data)[a..a + n], was[b..b + n];
    forall k | 0 <= k < |x|
      ensures x[k] == y[k]
    {
      assert data[a..a + n][k] == M.Memory(Chars(was), past).At(b + k);
    }
    assert x == y;
  }
}
