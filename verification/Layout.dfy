/** The .tpbr record layout: what a record is, and the bytes it is stored as. */
module Layout {
  import opened Bytes
  import opened Signature

  // ---------------------------------------------------------------- fixed attributes

  /** What the writer and the reader of one domain agree on: the widths of the fixed attribute
      fields in file order, which of them is nheader, the reserved bytes that follow (written as
      zeros, skipped on reading), and how the advisory metasize is computed (three of the four
      writers multiply in 32 bits). */
  datatype Schema = Schema(dom: Domain, widths: seq<nat>, nheaderField: nat, reserveLen: nat,
                           metaBase: u32, wideMeta: bool)
  {
    predicate Valid() {
      && nheaderField < |widths| && widths[nheaderField] == 4
    }

    function MetaSize(nheader: u32): u64 {
      metaBase + if wideMeta then nheader * 3096 else nheader * 3096 % TWO32
    }

    /** File offset of attribute field i: START, metasize, datasize, then the fields before i. */
    function FieldOff(i: nat): nat
      requires i <= |widths|
    {
      24 + Sum(widths[..i])
    }

    /** File offset of the first header. */
    function HeaderBase(): nat {
      24 + Sum(widths) + reserveLen
    }
  }

  /** A size grown by one ID, in 64 bits. */
  function PlusId(size: u64): u64 {
    (size + 20) % TWO64
  }

  lemma PlusIdIs(size: u64)
    requires size + 20 < 0x1_0000_0000_0000_0000
    ensures PlusId(size) == size + 20
  {
  }

  /** A record ID. */
  type Id = s: seq<byte> | |s| == 20 witness Zeros(20)

  /** "TaskID" and its terminator. */
  const TASK_ID_NAME: seq<byte> := [0x54, 0x61, 0x73, 0x6B, 0x49, 0x44, 0x00]

  /** "TPBLINK" */
  const LINK_TAG: seq<byte> := [0x54, 0x50, 0x42, 0x4C, 0x49, 0x4E, 0x4B]

  /** A name in its field, filled up with zeros. */
  function Padded(s: seq<byte>, n: nat): (r: seq<byte>)
    requires |s| <= n
    ensures |r| == n && s <= r && r[|s|..] == Zeros(n - |s|)
  {
    s + Zeros(n - |s|)
  }

  function SchemaOf(d: Domain): (s: Schema)
    ensures s.Valid() && s.dom == d
  {
    match d
    case Task => Schema(Task, [20, 20, 20, 20, 20, 8, 8, 8, 4, 4, 4, 4, 4, 4, 4, 4], 14, 128, 284, false)
    case TBatch => Schema(TBatch, [20, 20, 20, 8, 8, 8, 64, 64, 4, 4, 4, 4, 4, 4], 13, 128, 364, false)
    case Kernel => Schema(Kernel, [20, 20, 20, 256, 64, 2048, 4, 4, 4, 4, 4, 8], 9, 180, 2628, false)
    case RtEnv => Schema(RtEnv, [4, 256, 256, 8, 4, 4, 4, 4, 256, 4, 4, 4, 1024], 11, 0, 1832, true)
  }

  function Sum(ws: seq<nat>): nat {
    if ws == [] then 0 else ws[0] + Sum(ws[1..])
  }

  // ---------------------------------------------------------------- headers

  datatype Header = Header(
    blockSize: u32, ndim: u32, dataSize: u64, typeBits: u32, reserve: u32, uattr: u64,
    name: seq<byte>, tag: seq<byte>, note: seq<byte>,
    dimSizes: seq<u64>, dimNames: seq<seq<byte>>)
  {
    /** The array bounds of tpb_meta_header_t. */
    predicate Wf() {
      && |name| == 256 && |tag| == 256 && |note| == 2048
      && ndim <= 7 && |dimSizes| == 7 && |dimNames| == 7
      && forall j :: 0 <= j < 7 ==> |dimNames[j]| == 64
    }
  }

  const FIXED_HEADER_SIZE: u32 := 3096

  function Dims(ds: seq<u64>): (s: seq<byte>)
    ensures |s| == 8 * |ds|
  {
    if ds == [] then [] else U64(ds[0]) + Dims(ds[1..])
  }

  function Flat(parts: seq<seq<byte>>): seq<byte> {
    if parts == [] then [] else parts[0] + Flat(parts[1..])
  }

  /** One serialised header: its length depends on ndim, its first field does not. */
  function HeaderBytes(h: Header): seq<byte>
    requires h.Wf()
  {
    (HeaderScalars(h) + h.name + h.tag + h.note + Dims(h.dimSizes[..h.ndim]))
    + Flat(h.dimNames[..h.ndim])
  }

  function HeaderScalars(h: Header): (s: seq<byte>)
    ensures |s| == 32
  {
    (U32(FIXED_HEADER_SIZE) + U32(h.ndim) + U64(h.dataSize) + U32(h.typeBits) + U32(h.reserve))
    + U64(h.uattr)
  }

  function HeaderLen(h: Header): nat {
    2592 + 72 * h.ndim
  }

  function HeadersBytes(hs: seq<Header>): seq<byte>
    requires forall i :: 0 <= i < |hs| ==> hs[i].Wf()
  {
    if hs == [] then [] else HeaderBytes(hs[0]) + HeadersBytes(hs[1..])
  }

  function HeadersLen(hs: seq<Header>): nat {
    if hs == [] then 0 else HeaderLen(hs[0]) + HeadersLen(hs[1..])
  }

  // ---------------------------------------------------------------- records

  datatype Record = Record(attrs: seq<seq<byte>>, headers: seq<Header>, payload: seq<byte>) {
    predicate Wf(s: Schema) {
      && s.Valid() && Lengths(attrs) == s.widths
      && |headers| < TWO32 && attrs[s.nheaderField] == U32(|headers|)
      && (forall i :: 0 <= i < |headers| ==> headers[i].Wf())
      && |payload| < TWO63
    }
  }

  /** Everything in front of the first header. */
  function Preamble(s: Schema, r: Record): seq<byte>
    requires r.Wf(s)
  {
    Magic(Rec, s.dom, Start) + U64(s.MetaSize(|r.headers|)) + U64(|r.payload|)
    + Flat(r.attrs) + Zeros(s.reserveLen)
  }

  /** The file a record writer produces. */
  function Image(s: Schema, r: Record): seq<byte>
    requires r.Wf(s)
  {
    Preamble(s, r) + HeadersBytes(r.headers)
    + Magic(Rec, s.dom, Split) + r.payload + Magic(Rec, s.dom, End)
  }

  // ---------------------------------------------------------------- lengths

  function Lengths(parts: seq<seq<byte>>): (ws: seq<nat>)
    ensures |ws| == |parts|
  {
    seq(|parts|, i requires 0 <= i < |parts| => |parts[i]|)
  }

  lemma FlatHead(ps: seq<seq<byte>>)
    requires ps != []
    ensures Flat(ps) == ps[0] + Flat(ps[1..])
  {
  }

  lemma {:induction false} FlatLen(parts: seq<seq<byte>>)
    ensures |Flat(parts)| == Sum(Lengths(parts))
  {
    if parts != [] {
      FlatLen(parts[1..]);
      assert Lengths(parts)[1..] == Lengths(parts[1..]);
    }
  }

  lemma {:induction false} FlatLenUniform(parts: seq<seq<byte>>, w: nat)
    requires forall i :: 0 <= i < |parts| ==> |parts[i]| == w
    ensures |Flat(parts)| == w * |parts|
  {
    if parts != [] {
      FlatLenUniform(parts[1..], w);
    }
  }

  lemma HeaderBytesLen(h: Header)
    requires h.Wf()
    ensures |HeaderBytes(h)| == HeaderLen(h)
  {
    FlatLenUniform(h.dimNames[..h.ndim], 64);
  }

  lemma {:induction false} HeadersBytesLen(hs: seq<Header>)
    requires forall i :: 0 <= i < |hs| ==> hs[i].Wf()
    ensures |HeadersBytes(hs)| == HeadersLen(hs)
  {
    if hs != [] {
      HeaderBytesLen(hs[0]);
      HeadersBytesLen(hs[1..]);
    }
  }

  lemma AttrsLen(s: Schema, r: Record)
    requires r.Wf(s)
    ensures |Flat(r.attrs)| == Sum(s.widths)
    ensures |Preamble(s, r)| == s.HeaderBase()
  {
    FlatLen(r.attrs);
  }

  // ---------------------------------------------------------------- the parts at their offsets

  /** Five consecutive strings stand together exactly when each stands where the previous ends. */
  lemma FiveAt(f: seq<byte>, o: nat, a: seq<byte>, b: seq<byte>, c: seq<byte>, d: seq<byte>, e: seq<byte>)
    ensures At(f, o, a + b + c + d + e) <==>
            At(f, o, a) && At(f, o + |a|, b) && At(f, o + |a| + |b|, c)
            && At(f, o + |a| + |b| + |c|, d) && At(f, o + |a| + |b| + |c| + |d|, e)
  {
    AtAppend(f, o, a, b);
    AtAppend(f, o, a + b, c);
    AtAppend(f, o, a + b + c, d);
    AtAppend(f, o, a + b + c + d, e);
  }

  /** The parts stand one after the other from `off`. */
  predicate EachAt(f: seq<byte>, off: nat, parts: seq<seq<byte>>)
    decreases parts
  {
    if parts == [] then off <= |f|
    else At(f, off, parts[0]) && EachAt(f, off + |parts[0]|, parts[1..])
  }

  lemma {:induction false} FlatAt(f: seq<byte>, off: nat, parts: seq<seq<byte>>)
    ensures At(f, off, Flat(parts)) <==> EachAt(f, off, parts)
    decreases parts
  {
    if parts != [] {
      FlatAt(f, off + |parts[0]|, parts[1..]);
      AtAppend(f, off, parts[0], Flat(parts[1..]));
    }
  }

  /** The same by position: part i stands at the sum of the widths before it. */
  predicate PartsAt(f: seq<byte>, off: nat, parts: seq<seq<byte>>, ws: seq<nat>)
    requires |parts| == |ws|
  {
    off + Sum(ws) <= |f| && forall i :: 0 <= i < |parts| ==> At(f, off + Sum(ws[..i]), parts[i])
  }

  lemma {:induction false} EachAtPositions(f: seq<byte>, off: nat, parts: seq<seq<byte>>, ws: seq<nat>)
    requires Lengths(parts) == ws
    ensures EachAt(f, off, parts) <==> PartsAt(f, off, parts, ws)
    decreases parts
  {
    if parts != [] {
      var t, v := parts[1..], ws[1..];
      assert Lengths(t) == v;
      EachAtPositions(f, off + |parts[0]|, t, v);
      PositionsUncons(f, off, parts, ws);
    }
  }

  lemma PositionsUncons(f: seq<byte>, off: nat, parts: seq<seq<byte>>, ws: seq<nat>)
    requires Lengths(parts) == ws && parts != []
    ensures PartsAt(f, off, parts, ws) <==>
            At(f, off, parts[0]) && PartsAt(f, off + |parts[0]|, parts[1..], ws[1..])
  {
    var t, v := parts[1..], ws[1..];
    assert ws[..0] == [];
    forall i | 0 <= i < |t|
      ensures Sum(ws[..i + 1]) == |parts[0]| + Sum(v[..i])
    {
      assert ws[..i + 1][1..] == v[..i];
    }
    if PartsAt(f, off, parts, ws) {
      assert At(f, off + Sum(ws[..0]), parts[0]);
      forall i | 0 <= i < |t|
        ensures At(f, off + |parts[0]| + Sum(v[..i]), t[i])
      {
        assert At(f, off + Sum(ws[..i + 1]), parts[i + 1]);
      }
    }
    if At(f, off, parts[0]) && PartsAt(f, off + |parts[0]|, t, v) {
      forall i | 0 <= i < |parts|
        ensures At(f, off + Sum(ws[..i]), parts[i])
      {
        if i > 0 {
          assert At(f, off + |parts[0]| + Sum(v[..i - 1]), t[i - 1]);
        }
      }
    }
  }

  /** A header stands at `base` exactly when each of its fields stands at its own offset. */
  predicate HeaderAt(f: seq<byte>, base: nat, h: Header)
    requires h.Wf()
  {
    && At(f, base, U32(FIXED_HEADER_SIZE)) && At(f, base + 4, U32(h.ndim))
    && At(f, base + 8, U64(h.dataSize)) && At(f, base + 16, U32(h.typeBits))
    && At(f, base + 20, U32(h.reserve)) && At(f, base + 24, U64(h.uattr))
    && At(f, base + 32, h.name) && At(f, base + 288, h.tag) && At(f, base + 544, h.note)
    && At(f, base + 2592, Dims(h.dimSizes[..h.ndim]))
    && At(f, base + 2592 + 8 * h.ndim, Flat(h.dimNames[..h.ndim]))
  }

  lemma HeaderFieldsAt(f: seq<byte>, base: nat, h: Header)
    requires h.Wf()
    ensures At(f, base, HeaderBytes(h)) <==> HeaderAt(f, base, h)
  {
    hide U32;
    hide U64;
    hide HeaderScalars;
    hide Flat;
    hide Dims;
    hide At;
    var dims := Dims(h.dimSizes[..h.ndim]);
    AtAppend(f, base, HeaderScalars(h) + h.name + h.tag + h.note + dims, Flat(h.dimNames[..h.ndim]));
    FiveAt(f, base, HeaderScalars(h), h.name, h.tag, h.note, dims);
    HeaderScalarsAt(f, base, h);
  }

  lemma HeaderScalarsAt(f: seq<byte>, base: nat, h: Header)
    ensures At(f, base, HeaderScalars(h)) <==>
            && At(f, base, U32(FIXED_HEADER_SIZE)) && At(f, base + 4, U32(h.ndim))
            && At(f, base + 8, U64(h.dataSize)) && At(f, base + 16, U32(h.typeBits))
            && At(f, base + 20, U32(h.reserve)) && At(f, base + 24, U64(h.uattr))
  {
    var a := U32(FIXED_HEADER_SIZE) + U32(h.ndim) + U64(h.dataSize) + U32(h.typeBits) + U32(h.reserve);
    AtAppend(f, base, a, U64(h.uattr));
    FiveAt(f, base, U32(FIXED_HEADER_SIZE), U32(h.ndim), U64(h.dataSize), U32(h.typeBits), U32(h.reserve));
  }

  /** The fixed part of a record file, piece by piece. */
  predicate PreambleAt(f: seq<byte>, s: Schema, r: Record)
    requires r.Wf(s)
  {
    && At(f, 0, Magic(Rec, s.dom, Start))
    && At(f, 8, U64(s.MetaSize(|r.headers|))) && At(f, 16, U64(|r.payload|))
    && AttrsAt(f, s, r)
    && At(f, 24 + Sum(s.widths), Zeros(s.reserveLen))
  }

  lemma PreambleFieldsAt(f: seq<byte>, s: Schema, r: Record)
    requires r.Wf(s)
    ensures At(f, 0, Preamble(s, r)) <==> PreambleAt(f, s, r)
  {
    FiveAt(f, 0, Magic(Rec, s.dom, Start), U64(s.MetaSize(|r.headers|)), U64(|r.payload|),
           Flat(r.attrs), Zeros(s.reserveLen));
    AttrsLen(s, r);
    assert At(f, 24, Flat(r.attrs)) <==> AttrsAt(f, s, r) by { AttrFieldsAt(f, s, r); }
  }

  predicate AttrsAt(f: seq<byte>, s: Schema, r: Record)
    requires r.Wf(s)
  {
    && 24 + Sum(s.widths) <= |f|
    && forall i :: 0 <= i < |r.attrs| ==> At(f, s.FieldOff(i), r.attrs[i])
  }

  lemma AttrFieldsAt(f: seq<byte>, s: Schema, r: Record)
    requires r.Wf(s)
    ensures At(f, 24, Flat(r.attrs)) <==> AttrsAt(f, s, r)
  {
    FlatAt(f, 24, r.attrs);
    EachAtPositions(f, 24, r.attrs, s.widths);
  }

  /** Offset of the SPLIT signature. */
  function SplitOff(s: Schema, hs: seq<Header>): nat {
    s.HeaderBase() + HeadersLen(hs)
  }

  /** SPLIT, payload and END stand from `o`, and nothing follows. */
  predicate BodyAt(f: seq<byte>, o: nat, d: Domain, payload: seq<byte>) {
    && At(f, o, Magic(Rec, d, Split)) && At(f, o + 8, payload)
    && At(f, o + 8 + |payload|, Magic(Rec, d, End))
    && |f| == o + 16 + |payload|
  }

  lemma ThreePieces(f: seq<byte>, p: seq<byte>, h: seq<byte>, d: Domain, payload: seq<byte>)
    ensures f == p + h + Magic(Rec, d, Split) + payload + Magic(Rec, d, End) <==>
            At(f, 0, p) && At(f, |p|, h) && BodyAt(f, |p| + |h|, d, payload)
  {
    var t := p + h + Magic(Rec, d, Split) + payload + Magic(Rec, d, End);
    hide Magic;
    hide At;
    FiveAt(f, 0, p, h, Magic(Rec, d, Split), payload, Magic(Rec, d, End));
    AtWhole(f, t);
  }

  /** A file is the image of a record exactly when preamble, headers and body stand at their
      offsets and nothing follows END. */
  lemma ImageParts(f: seq<byte>, s: Schema, r: Record)
    requires r.Wf(s)
    ensures f == Image(s, r) <==>
            At(f, 0, Preamble(s, r)) && At(f, s.HeaderBase(), HeadersBytes(r.headers))
            && BodyAt(f, SplitOff(s, r.headers), s.dom, r.payload)
  {
    hide Magic;
    hide At;
    hide HeadersBytes;
    hide BodyAt;
    hide Flat;
    AttrsLen(s, r);
    HeadersBytesLen(r.headers);
    ThreePieces(f, Preamble(s, r), HeadersBytes(r.headers), s.dom, r.payload);
  }

  // ---------------------------------------------------------------- sizes that no reader looks at

  /** metasize is the length of the fixed part behind START and the two sizes, plus 3096 for each header: too
      short by eight bytes for a kernel, and kept in 32 bits for all but runtime environments. */
  lemma MetaSizes(n: u32)
    ensures SchemaOf(Task).MetaSize(n) == SchemaOf(Task).HeaderBase() - 24 + n * 3096 % 0x1_0000_0000
    ensures SchemaOf(TBatch).MetaSize(n) == SchemaOf(TBatch).HeaderBase() - 24 + n * 3096 % 0x1_0000_0000
    ensures SchemaOf(Kernel).MetaSize(n) == SchemaOf(Kernel).HeaderBase() - 32 + n * 3096 % 0x1_0000_0000
    ensures SchemaOf(RtEnv).MetaSize(n) == SchemaOf(RtEnv).HeaderBase() - 24 + n * 3096
  {
    TaskOffsets();
    TBatchOffsets();
    KernelOffsets();
    RtEnvOffsets();
    hide Schema.HeaderBase;
    hide Schema.FieldOff;
  }

  /** The block size stored for every header is that of one with seven dimensions. */
  lemma FixedSize(h: Header)
    requires h.Wf()
    ensures FIXED_HEADER_SIZE == |HeaderBytes(h.(ndim := 7))|
  {
    HeaderBytesLen(h.(ndim := 7));
    hide HeaderBytes;
  }

  // ---------------------------------------------------------------- the hard-coded offsets

  lemma {:induction false} SumNext(ws: seq<nat>, i: nat)
    requires i < |ws|
    ensures Sum(ws[..i + 1]) == Sum(ws[..i]) + ws[i]
  {
    if i == 0 {
      assert ws[..0] == [] && ws[..1] == [ws[0]];
    } else {
      SumNext(ws[1..], i - 1);
      assert ws[..i + 1][1..] == ws[1..][..i] && ws[..i][1..] == ws[1..][..i - 1];
    }
  }

  lemma FieldNext(s: Schema, i: nat)
    requires i < |s.widths|
    ensures s.FieldOff(i + 1) == s.FieldOff(i) + s.widths[i]
  {
    SumNext(s.widths, i);
  }

  /** The field offsets of `s` are `offs`, and its first header is at `base`. */
  predicate HasOffsets(s: Schema, offs: seq<nat>, base: nat) {
    && |offs| == |s.widths|
    && (forall i :: 0 <= i < |offs| ==> s.FieldOff(i) == offs[i])
    && s.HeaderBase() == base
  }

  /** Field offsets are the running sums of the widths. */
  lemma Running(s: Schema, offs: seq<nat>, base: nat)
    requires |offs| == |s.widths| > 0 && offs[0] == 24
    requires forall i :: 0 < i < |offs| ==> offs[i] == offs[i - 1] + s.widths[i - 1]
    requires base == offs[|offs| - 1] + s.widths[|offs| - 1] + s.reserveLen
    ensures HasOffsets(s, offs, base)
  {
    var i := 0;
    assert s.widths[..0] == [];
    while i < |s.widths| - 1
      invariant i < |s.widths| && forall j :: 0 <= j <= i ==> s.FieldOff(j) == offs[j]
    {
      FieldNext(s, i);
      i := i + 1;
    }
    FieldNext(s, i);
    assert s.widths[..|s.widths|] == s.widths;
  }

  const TASK_OFFSETS: seq<nat> :=
    [24, 44, 64, 84, 104, 124, 132, 140, 148, 152, 156, 160, 164, 168, 172, 176]
  const TBATCH_OFFSETS: seq<nat> :=
    [24, 44, 64, 84, 92, 100, 108, 172, 236, 240, 244, 248, 252, 256]
  const RTENV_OFFSETS: seq<nat> :=
    [24, 28, 284, 540, 548, 552, 556, 560, 564, 820, 824, 828, 832]
  const KERNEL_OFFSETS: seq<nat> :=
    [24, 44, 64, 84, 340, 404, 2452, 2456, 2460, 2464, 2468, 2472]

  /** The offsets that the patching code spells out as numbers are those of the serialised layout:
      derive_to (44), nheader (172) and the first header (308) of a task; */
  lemma TaskOffsets()
    ensures HasOffsets(SchemaOf(Task), TASK_OFFSETS, 308)
  {
    Running(SchemaOf(Task), TASK_OFFSETS, 308);
  }

  /** duration (100), nkernel (240), ntask (244), nheader (256) and the first header (388) of a batch; */
  lemma TBatchOffsets()
    ensures HasOffsets(SchemaOf(TBatch), TBATCH_OFFSETS, 388)
  {
    Running(SchemaOf(TBatch), TBATCH_OFFSETS, 388);
  }

  /** derive_to (552), ntask (556) and ntbatch (560) of a runtime environment; */
  lemma RtEnvOffsets()
    ensures HasOffsets(SchemaOf(RtEnv), RTENV_OFFSETS, 1856)
  {
    Running(SchemaOf(RtEnv), RTENV_OFFSETS, 1856);
  }

  /** and the active flag (2468) of a kernel. */
  lemma KernelOffsets()
    ensures HasOffsets(SchemaOf(Kernel), KERNEL_OFFSETS, 2660)
  {
    Running(SchemaOf(Kernel), KERNEL_OFFSETS, 2660);
  }
}
