/** Linking a derived runtime environment to its parent: the child's ID goes into the parent's
    DeriveTo block, and becomes derive_to in the parent's record and in its log row. */
module DeriveLink {
  import opened Bytes
  import opened Common
  import opened Signature
  import opened Layout
  import opened Disk
  import opened RecordIO
  import opened EntryLog
  import opened AttrPatch
  import opened Counters
  import opened Structs

  /** "DeriveTo" and its terminator. */
  const LINK_NAME: seq<byte> := [0x44, 0x65, 0x72, 0x69, 0x76, 0x65, 0x54, 0x6F, 0x00]

  /** Offset of derive_to in a log row. */
  const ROW_DERIVE: nat := 528
  const REC_DERIVE: nat := 552

  predicate IsLink(h: Header) {
    LINK_NAME <= h.name
  }

  /** The first DeriveTo header, or the number of headers. */
  function LinkIdx(hs: seq<Header>): (i: nat)
    ensures i <= |hs| && (i < |hs| ==> IsLink(hs[i])) && forall k :: 0 <= k < i ==> !IsLink(hs[k])
  {
    if hs == [] then 0 else if IsLink(hs[0]) then 0 else 1 + LinkIdx(hs[1..])
  }

  /** Payload bytes of the first i headers. */
  function OffTo(hs: seq<Header>, i: nat): (n: nat)
    requires i <= |hs|
  {
    if i == 0 then 0 else OffTo(hs, i - 1) + hs[i - 1].dataSize
  }

  /** The 32-bit numbers in a block. */
  function Ids(s: seq<byte>): (ids: seq<u32>)
    ensures 4 * |ids| <= |s| < 4 * |ids| + 4
  {
    if |s| < 4 then [] else [GetU32(s[..4])] + Ids(s[4..])
  }

  /** The children linked by headers and their payload. */
  function LinksOf(hs: seq<Header>, p: seq<byte>): seq<u32>
    requires OffTo(hs, |hs|) == |p|
  {
    var i := LinkIdx(hs);
    if i == |hs| then []
    else
      OffToFits(hs, i);
      Ids(p[OffTo(hs, i)..OffTo(hs, i + 1)])
  }

  /** Header sizes add up to the payload; a link block is one-dimensional at least and its size matches
      its count; and there is room for one more header and ID. */
  predicate Linkable(r: Record) {
    && r.Wf(SchemaOf(RtEnv)) && OffTo(r.headers, |r.headers|) == |r.payload|
    && |r.headers| + 1 < TWO32 && |r.payload| + 4 < TWO63
    && var i := LinkIdx(r.headers);
       i < |r.headers| ==>
         r.headers[i].ndim >= 1 && (r.headers[i].dataSize as int) == 4 * (r.headers[i].dimSizes[0] as int)
  }

  /** The children linked from a record. */
  function Links(r: Record): seq<u32>
    requires Linkable(r)
  {
    LinksOf(r.headers, r.payload)
  }

  lemma {:induction false} OffToMono(hs: seq<Header>, i: nat, k: nat)
    requires i <= k <= |hs|
    ensures OffTo(hs, i) <= OffTo(hs, k)
    decreases k
  {
    if i < k {
      OffToMono(hs, i, k - 1);
    }
  }

  /** The header of a new link block, with one ID. */
  const NEW_LINK: Header :=
    Header(FIXED_HEADER_SIZE, 1, 4, 0x43D, 0, 0, Padded(LINK_NAME, 256), Padded(LINK_TAG, 256), Zeros(2048),
           [1, 0, 0, 0, 0, 0, 0],
           [Zeros(64), Zeros(64), Zeros(64), Zeros(64), Zeros(64), Zeros(64), Zeros(64)])

  /** A link header with one more ID. */
  function Longer(h: Header): Header
    requires |h.dimSizes| == 7 && 4 * h.dimSizes[0] + 4 < TWO64
  {
    h.(dimSizes := h.dimSizes[0 := h.dimSizes[0] + 1], dataSize := 4 * (h.dimSizes[0] + 1))
  }

  /** The attributes with derive_to, field 5, set. */
  function Pointed(r: Record, child: u32): (r': Record)
    requires r.Wf(SchemaOf(RtEnv))
    ensures r'.Wf(SchemaOf(RtEnv)) && r'.headers == r.headers && r'.payload == r.payload
  {
    Widths(r);
    var attrs := r.attrs[5 := U32(child)];
    assert Lengths(attrs) == Lengths(r.attrs);
    r.(attrs := attrs)
  }

  lemma Widths(r: Record)
    requires r.Wf(SchemaOf(RtEnv))
    ensures |r.attrs| == 13 && |r.attrs[5]| == 4 && |r.attrs[11]| == 4 && r.attrs[11] == U32(|r.headers|)
    ensures SchemaOf(RtEnv).nheaderField == 11
  {
    assert |r.attrs| == |Lengths(r.attrs)| == 13;
    assert |r.attrs[5]| == Lengths(r.attrs)[5] && |r.attrs[11]| == Lengths(r.attrs)[11];
  }

  /** The record after its child list has grown by one: in its link block, or in a new one at the end. */
  function Grown(r: Record, child: u32): (r': Record)
    requires Linkable(r)
  {
    var i := LinkIdx(r.headers);
    if i < |r.headers| then
      OffToMono(r.headers, i + 1, |r.headers|);
      var at := OffTo(r.headers, i + 1);
      r.(headers := r.headers[i := Longer(r.headers[i])], payload := r.payload[..at] + U32(child) + r.payload[at..])
    else
      Widths(r);
      Record(r.attrs[11 := U32(|r.headers| + 1)], r.headers + [NEW_LINK], r.payload + U32(child))
  }

  /** The record that tpb_raf_record_append_rtenv_derive leaves. */
  function Linked(r: Record, child: u32): Record
    requires Linkable(r)
  {
    if child in Links(r) then Pointed(r, child)
    else
      GrownWf(r, child);
      Pointed(Grown(r, child), child)
  }

  lemma GrownWf(r: Record, child: u32)
    requires Linkable(r)
    ensures Grown(r, child).Wf(SchemaOf(RtEnv))
  {
    Widths(r);
    var r' := Grown(r, child);
    assert Lengths(r'.attrs) == Lengths(r.attrs);
    var i := LinkIdx(r.headers);
    if i < |r.headers| {
      OffToMono(r.headers, i + 1, |r.headers|);
      LongerWf(r.headers[i]);
    }
  }

  lemma LongerWf(h: Header)
    requires h.Wf() && 4 * h.dimSizes[0] + 4 < TWO64
    ensures Longer(h).Wf()
  {
  }

  // ---------------------------------------------------------------- what the growth does

  lemma {:induction false} OffToSet(hs: seq<Header>, i: nat, h: Header, k: nat)
    requires i < |hs| && k <= |hs|
    ensures OffTo(hs[i := h], k) == if k <= i then OffTo(hs, k) else OffTo(hs, k) - hs[i].dataSize + h.dataSize
    decreases k
  {
    if k > 0 {
      OffToSet(hs, i, h, k - 1);
    }
  }

  lemma {:induction false} OffToSnoc(hs: seq<Header>, h: Header, k: nat)
    requires k <= |hs|
    ensures OffTo(hs + [h], k) == OffTo(hs, k)
    decreases k
  {
    if k > 0 {
      OffToSnoc(hs, h, k - 1);
    }
  }

  lemma {:induction false} LinkIdxSet(hs: seq<Header>, i: nat, h: Header)
    requires i == LinkIdx(hs) < |hs| && IsLink(h)
    ensures LinkIdx(hs[i := h]) == i
    decreases hs
  {
    hide IsLink;
    if i > 0 {
      LinkIdxSet(hs[1..], i - 1, h);
      assert hs[i := h][1..] == hs[1..][i - 1 := h];
    }
  }

  lemma {:induction false} LinkIdxSnoc(hs: seq<Header>, h: Header)
    requires LinkIdx(hs) == |hs| && IsLink(h)
    ensures LinkIdx(hs + [h]) == |hs|
    decreases hs
  {
    hide IsLink;
    if hs != [] {
      LinkIdxSnoc(hs[1..], h);
      assert (hs + [h])[1..] == hs[1..] + [h];
    }
  }

  lemma {:induction false} IdsSnoc(b: seq<byte>, v: u32)
    requires |b| % 4 == 0
    ensures Ids(b + U32(v)) == Ids(b) + [v]
    decreases |b|
  {
    hide U32;
    var s := b + U32(v);
    if b == [] {
      assert s == U32(v) && s[..4] == U32(v) && s[4..] == [];
    } else {
      assert s[..4] == b[..4] && s[4..] == b[4..] + U32(v);
      IdsSnoc(b[4..], v);
    }
  }

  /** The headers and blocks of the grown record. */
  lemma GrownShape(r: Record, child: u32)
    requires Linkable(r) && |r.headers| + 2 < TWO32 && |r.payload| + 8 < TWO63
    ensures var r', i := Grown(r, child), LinkIdx(r.headers);
            && LinkIdx(r'.headers) == i < |r'.headers|
            && Linkable(r')
            && |r'.payload| == |r.payload| + 4
  {
    GrownWf(r, child);
    hide *;
    if LinkIdx(r.headers) < |r.headers| {
      LongerShape(r, child);
    } else {
      NewShape(r, child);
    }
  }

  lemma LongerShape(r: Record, child: u32)
    requires Linkable(r) && |r.headers| + 2 < TWO32 && |r.payload| + 8 < TWO63
    requires LinkIdx(r.headers) < |r.headers| && Grown(r, child).Wf(SchemaOf(RtEnv))
    ensures var r', i := Grown(r, child), LinkIdx(r.headers);
            LinkIdx(r'.headers) == i < |r'.headers| && Linkable(r') && |r'.payload| == |r.payload| + 4
  {
    var i, hs := LinkIdx(r.headers), r.headers;
    LinkHeader(r);
    LinkParts(r, child);
    LongerLink(hs[i]);
    OffToSet(hs, i, Longer(hs[i]), |hs|);
    LinkIdxSet(hs, i, Longer(hs[i]));
    hide Grown;
    hide Linkable;
    hide Longer;
    hide IsLink;
    hide LinkIdx;
    hide OffTo;
    hide U32;
    hide SchemaOf;
    hide Record.Wf;
    LinkableIf(Grown(r, child), i);
  }

  lemma NewShape(r: Record, child: u32)
    requires Linkable(r) && |r.headers| + 2 < TWO32 && |r.payload| + 8 < TWO63
    requires LinkIdx(r.headers) == |r.headers| && Grown(r, child).Wf(SchemaOf(RtEnv))
    ensures var r', i := Grown(r, child), LinkIdx(r.headers);
            LinkIdx(r'.headers) == i < |r'.headers| && Linkable(r') && |r'.payload| == |r.payload| + 4
  {
    var hs := r.headers;
    SizesFit(r);
    NoLinkBlock(r, child);
    NewLink();
    OffToSnoc(hs, NEW_LINK, |hs|);
    OffToLast(hs, NEW_LINK);
    LinkIdxSnoc(hs, NEW_LINK);
    hide Grown;
    hide Linkable;
    hide NEW_LINK;
    hide IsLink;
    hide LinkIdx;
    hide OffTo;
    hide U32;
    hide SchemaOf;
    hide Record.Wf;
    LinkableIf(Grown(r, child), |hs|);
  }

  lemma SizesFit(r: Record)
    requires Linkable(r)
    ensures OffTo(r.headers, |r.headers|) == |r.payload|
  {
    hide SchemaOf;
    hide OffTo;
  }

  lemma OffToLast(hs: seq<Header>, h: Header)
    ensures OffTo(hs + [h], |hs| + 1) == OffTo(hs + [h], |hs|) + h.dataSize
  {
  }

  /** The link block's header of a linkable record. */
  lemma LinkHeader(r: Record)
    requires Linkable(r) && LinkIdx(r.headers) < |r.headers|
    ensures OffTo(r.headers, |r.headers|) == |r.payload|
    ensures var h := r.headers[LinkIdx(r.headers)];
            && |h.dimSizes| == 7 && h.ndim >= 1 && (h.dataSize as int) == 4 * (h.dimSizes[0] as int)
            && 4 * h.dimSizes[0] + 4 < TWO64
  {
    hide SchemaOf;
    hide IsLink;
    OffToMono(r.headers, LinkIdx(r.headers) + 1, |r.headers|);
  }

  lemma LinkableIf(r: Record, i: nat)
    requires r.Wf(SchemaOf(RtEnv)) && OffTo(r.headers, |r.headers|) == |r.payload|
    requires |r.headers| + 1 < TWO32 && |r.payload| + 4 < TWO63 && LinkIdx(r.headers) == i < |r.headers|
    requires var h := r.headers[i];
             |h.dimSizes| == 7 && h.ndim >= 1 && (h.dataSize as int) == 4 * (h.dimSizes[0] as int)
    ensures Linkable(r)
  {
    hide SchemaOf;
    hide IsLink;
    hide OffTo;
  }

  lemma LongerLink(h: Header)
    requires |h.dimSizes| == 7 && 4 * h.dimSizes[0] + 4 < TWO64
    ensures var k := Longer(h);
            && IsLink(k) == IsLink(h) && k.ndim == h.ndim && |k.dimSizes| == 7
            && k.dimSizes[0] == h.dimSizes[0] + 1 && k.dataSize == 4 * h.dimSizes[0] + 4
  {
    hide IsLink;
    assert Longer(h).name == h.name;
    SameName(Longer(h), h);
  }

  lemma SameName(h: Header, k: Header)
    requires h.name == k.name
    ensures IsLink(h) == IsLink(k)
  {
  }

  lemma NewLink()
    ensures IsLink(NEW_LINK) && |NEW_LINK.dimSizes| == 7 && NEW_LINK.ndim == NEW_LINK.dimSizes[0] == 1
    ensures NEW_LINK.dataSize == 4
  {
  }

  /** Header k and its block are the same in both records. */
  predicate SameBlock(hs: seq<Header>, p: seq<byte>, hs': seq<Header>, p': seq<byte>, k: nat) {
    && k < |hs| && k < |hs'| && hs'[k] == hs[k]
    && OffTo(hs, k) + hs[k].dataSize <= |p| && OffTo(hs', k) + hs[k].dataSize <= |p'|
    && p'[OffTo(hs', k)..OffTo(hs', k) + hs[k].dataSize] == p[OffTo(hs, k)..OffTo(hs, k) + hs[k].dataSize]
  }

  /** Every block but the link block keeps its header and its bytes. */
  lemma OthersKept(r: Record, child: u32, k: nat)
    requires Linkable(r) && k < |r.headers| && k != LinkIdx(r.headers)
    ensures var r' := Linked(r, child); SameBlock(r.headers, r.payload, r'.headers, r'.payload, k)
  {
    GrownIs(r, child);
    LinkedIs(r, child);
    hide *;
    var hs, p, g := r.headers, r.payload, Grown(r, child);
    SameSame(hs, p, k);
    if LinkIdx(hs) < |hs| {
      ShiftedBlock(p, hs, LinkIdx(hs), g.headers[LinkIdx(hs)], U32(child), k);
    } else {
      AppendedBlock(p, hs, g.headers[|hs|], U32(child), k);
    }
  }

  lemma LinkedIs(r: Record, child: u32)
    requires Linkable(r)
    ensures var r', g := Linked(r, child), if child in Links(r) then r else Grown(r, child);
            r'.headers == g.headers && r'.payload == g.payload
  {
    GrownWf(r, child);
    hide Grown;
    hide Linkable;
    hide SchemaOf;
    hide Record.Wf;
    hide Links;
    hide U32;
  }

  lemma SameSame(hs: seq<Header>, p: seq<byte>, k: nat)
    requires k < |hs| && OffTo(hs, |hs|) == |p|
    ensures SameBlock(hs, p, hs, p, k)
  {
    OffToFits(hs, k);
  }

  /** The grown record, without the conditions under which it is one. */
  lemma GrownIs(r: Record, child: u32)
    requires Linkable(r)
    ensures OffTo(r.headers, |r.headers|) == |r.payload|
    ensures var r', i, hs, p := Grown(r, child), LinkIdx(r.headers), r.headers, r.payload;
            if i < |hs| then
              && OffTo(hs, i + 1) <= |p| && hs[i].dataSize + 4 < TWO64 && hs[i].dataSize % 4 == 0
              && |r'.headers| == |hs| && r'.headers[i].dataSize == hs[i].dataSize + 4 && IsLink(r'.headers[i])
              && r'.headers == hs[i := r'.headers[i]]
              && r'.payload == p[..OffTo(hs, i + 1)] + U32(child) + p[OffTo(hs, i + 1)..]
            else
              && |r'.headers| == |hs| + 1 && r'.headers == hs + [r'.headers[i]] && r'.headers[i].dataSize == 4
              && IsLink(r'.headers[i])
              && r'.payload == p + U32(child)
  {
    var i, hs := LinkIdx(r.headers), r.headers;
    OffToMono(hs, if i < |hs| then i + 1 else |hs|, |hs|);
    hide SchemaOf;
    hide U32;
  }

  lemma OffToFits(hs: seq<Header>, k: nat)
    requires k < |hs|
    ensures OffTo(hs, k + 1) == OffTo(hs, k) + hs[k].dataSize <= OffTo(hs, |hs|)
  {
    OffToMono(hs, k + 1, |hs|);
  }

  /** Inserting at the end of block i leaves the other blocks what they were. */
  lemma ShiftedBlock(p: seq<byte>, hs: seq<Header>, i: nat, h: Header, v: seq<byte>, k: nat)
    requires i < |hs| && k < |hs| && k != i && OffTo(hs, |hs|) == |p| && h.dataSize == hs[i].dataSize + |v|
    ensures OffTo(hs, i + 1) <= |p|
    ensures SameBlock(hs, p, hs[i := h], p[..OffTo(hs, i + 1)] + v + p[OffTo(hs, i + 1)..], k)
  {
    hide OffTo;
    OffToFits(hs, k);
    OffToFits(hs, i);
    OffToSet(hs, i, h, k);
    if k < i {
      OffToMono(hs, k + 1, i + 1);
      InsertBefore(p, OffTo(hs, i + 1), v, OffTo(hs, k), hs[k].dataSize);
    } else {
      OffToMono(hs, i + 1, k);
      InsertAfter(p, OffTo(hs, i + 1), v, OffTo(hs, k), hs[k].dataSize);
    }
  }

  lemma AppendedBlock(p: seq<byte>, hs: seq<Header>, h: Header, v: seq<byte>, k: nat)
    requires k < |hs| && OffTo(hs, |hs|) == |p|
    ensures SameBlock(hs, p, hs + [h], p + v, k)
  {
    hide OffTo;
    OffToFits(hs, k);
    OffToSnoc(hs, h, k);
    PrefixSlice(p, v, OffTo(hs, k), OffTo(hs, k) + hs[k].dataSize);
  }

  lemma PrefixSlice(p: seq<byte>, v: seq<byte>, o: nat, e: nat)
    requires o <= e <= |p|
    ensures (p + v)[o..e] == p[o..e]
  {
  }

  lemma InsertBefore(p: seq<byte>, at: nat, v: seq<byte>, o: nat, n: nat)
    requires o + n <= at <= |p|
    ensures var q := p[..at] + v + p[at..]; o + n <= |q| && q[o..o + n] == p[o..o + n]
  {
  }

  lemma InsertAfter(p: seq<byte>, at: nat, v: seq<byte>, o: nat, n: nat)
    requires at <= o && o + n <= |p|
    ensures var q := p[..at] + v + p[at..]; o + |v| + n <= |q| && q[o + |v|..o + |v| + n] == p[o..o + n]
  {
  }

  lemma InsertAt(p: seq<byte>, at: nat, v: seq<byte>, o: nat)
    requires o <= at <= |p|
    ensures var q := p[..at] + v + p[at..]; at + |v| <= |q| && q[o..at + |v|] == p[o..at] + v
  {
  }

  lemma LinksShift(hs: seq<Header>, p: seq<byte>, i: nat, h: Header, child: u32)
    requires i == LinkIdx(hs) < |hs| && IsLink(h) && OffTo(hs, |hs|) == |p|
    requires h.dataSize == hs[i].dataSize + 4 && hs[i].dataSize % 4 == 0
    ensures OffTo(hs, i + 1) <= |p|
    ensures var q := p[..OffTo(hs, i + 1)] + U32(child) + p[OffTo(hs, i + 1)..];
            OffTo(hs[i := h], |hs|) == |q| && LinksOf(hs[i := h], q) == LinksOf(hs, p) + [child]
  {
    OffToFits(hs, i);
    LinkIdxSet(hs, i, h);
    OffToSet(hs, i, h, i);
    OffToSet(hs, i, h, i + 1);
    OffToSet(hs, i, h, |hs|);
    hide OffTo;
    hide IsLink;
    hide U32;
    InsertAt(p, OffTo(hs, i + 1), U32(child), OffTo(hs, i));
    IdsSnoc(p[OffTo(hs, i)..OffTo(hs, i + 1)], child);
    hide Ids;
  }

  lemma LinksNew(hs: seq<Header>, p: seq<byte>, h: Header, child: u32)
    requires LinkIdx(hs) == |hs| && IsLink(h) && OffTo(hs, |hs|) == |p| && h.dataSize == 4
    ensures OffTo(hs + [h], |hs| + 1) == |p + U32(child)|
    ensures LinksOf(hs + [h], p + U32(child)) == LinksOf(hs, p) + [child]
  {
    LinkIdxSnoc(hs, h);
    OffToSnoc(hs, h, |hs|);
    assert OffTo(hs + [h], |hs| + 1) == OffTo(hs, |hs|) + 4;
    hide OffTo;
    hide IsLink;
    hide U32;
    NewBlock(p, U32(child));
    IdsSnoc([], child);
    hide Ids;
  }

  lemma NewBlock(p: seq<byte>, v: seq<byte>)
    ensures (p + v)[|p|..|p| + |v|] == v == [] + v && Ids([]) == []
  {
  }

  /** The link block grows by the child's ID at its end. */
  lemma GrownLinks(r: Record, child: u32)
    requires Linkable(r) && |r.headers| + 2 < TWO32 && |r.payload| + 8 < TWO63
    ensures Linkable(Grown(r, child)) && Links(Grown(r, child)) == Links(r) + [child]
  {
    GrownShape(r, child);
    GrownIs(r, child);
    hide Grown;
    hide Linkable;
    hide SchemaOf;
    hide Record.Wf;
    hide IsLink;
    hide U32;
    hide OffTo;
    hide LinksOf;
    var i, hs, r' := LinkIdx(r.headers), r.headers, Grown(r, child);
    if i < |hs| {
      LinksShift(hs, r.payload, i, r'.headers[i], child);
    } else {
      LinksNew(hs, r.payload, r'.headers[i], child);
    }
  }

  /** A child is linked once: the list grows by it if it is not there, and does not change if it is;
      linking it again changes nothing. Header sizes go on adding up to the payload. */
  lemma LinkedOnce(r: Record, child: u32)
    requires Linkable(r) && |r.headers| + 2 < TWO32 && |r.payload| + 8 < TWO63
    ensures var r' := Linked(r, child);
            && Linkable(r') && Links(r') == (if child in Links(r) then Links(r) else Links(r) + [child])
            && Linked(r', child) == r'
            && OffTo(r'.headers, |r'.headers|) == |r'.payload|
            && |r'.attrs| == 13 && r'.attrs[5] == U32(child)
  {
    var g := if child in Links(r) then r else Grown(r, child);
    if child !in Links(r) {
      GrownLinks(r, child);
    }
    hide Grown;
    var r' := Pointed(g, child);
    Widths(g);
    PointedLinks(g, child);
    assert r'.attrs[5 := U32(child)] == r'.attrs;
  }

  lemma PointedLinks(r: Record, child: u32)
    requires Linkable(r)
    ensures Linkable(Pointed(r, child)) && Links(Pointed(r, child)) == Links(r)
    ensures |Pointed(r, child).attrs| == 13 && Pointed(r, child).attrs[5] == U32(child)
    ensures Pointed(Pointed(r, child), child) == Pointed(r, child)
  {
    Widths(r);
    hide SchemaOf;
    hide U32;
    assert r.attrs[5 := U32(child)][5 := U32(child)] == r.attrs[5 := U32(child)];
  }

  // ---------------------------------------------------------------- the log row

  /** The log after derive_to has been set in the first row with the ID. */
  function LogDerived(f: seq<byte>, id: u32, child: u32): Option<seq<byte>> {
    if !At(f, 0, Magic(Entry, RtEnv, Start)) then None
    else
      match ScanRow(f, 8, id)
      case None => None
      case Some(p) => Some(Overwrite(f, p + ROW_DERIVE, U32(child)))
  }

  /** _sf_patch_tpbe_derive_to on the opened, locked log. */
  method PatchLogDerive(file: DiskFile, id: u32, child: u32) returns (ok: bool)
    requires file.pos == 0
    modifies file
    ensures ok == LogDerived(old(file.data), id, child).Some?
    ensures file.data == if ok then LogDerived(old(file.data), id, child).value else old(file.data)
  {
    hide Magic;
    hide At;
    hide U32;
    hide Overwrite;
    ghost var f := file.data;
    ok := file.Expect(Magic(Entry, RtEnv, Start), 8);
    if !ok { return; }
    var pos: nat := 8;
    while true
      invariant file.data == f && At(f, 0, Magic(Entry, RtEnv, Start))
      invariant ScanRow(f, 8, id) == ScanRow(f, pos, id)
      decreases |f| - pos
    {
      var disk;
      ok := file.Seek(pos);
      ok, disk := file.Read(ROW);
      if !ok { return false; }
      if RowId(disk) == id {
        ok := file.Seek(pos + ROW_DERIVE);
        file.Write(U32(child));
        return true;
      }
      pos := pos + ROW;
    }
  }

  /** A row with derive_to set. */
  function RowDerived(row: seq<byte>, child: u32): (r: seq<byte>)
    requires |row| == ROW
    ensures |r| == ROW && r[ROW_DERIVE..ROW_DERIVE + 4] == U32(child)
    ensures r[..ROW_DERIVE] == row[..ROW_DERIVE] && r[ROW_DERIVE + 4..] == row[ROW_DERIVE + 4..]
  {
    hide U32;
    Overwrite(row, ROW_DERIVE, U32(child))
  }

  /** Setting derive_to in the log file is setting it in the first row with the ID. */
  lemma LogDeriveRefines(rows: seq<seq<byte>>, id: u32, child: u32)
    requires RowsOf(rows, ROW)
    ensures LogDerived(LogImage(RtEnv, rows), id, child) ==
            match Counters.Find(rows, id)
            case None => None
            case Some(i) => if i < |rows| then Some(LogImage(RtEnv, rows[i := RowDerived(rows[i], child)])) else None
  {
    hide Magic;
    hide At;
    hide Flat;
    hide Overwrite;
    hide U32;
    var f := LogImage(RtEnv, rows);
    LogParts(f, RtEnv, rows);
    ScanFinds(f, 8, rows, id);
    FindFirst(rows, id);
    match Counters.Find(rows, id)
    case None =>
    case Some(i) => PatchRow(RtEnv, rows, ROW, i, ROW_DERIVE, U32(child));
  }

  // ---------------------------------------------------------------- in terms of the fields

  /** A link header is one whose name is the string DeriveTo, */
  lemma LinkByName(h: Header)
    requires h.Wf()
    ensures IsLink(h) <==> CText(h.name) == "DeriveTo"
  {
    CTextIs(h.name, "DeriveTo");
    assert Codes("DeriveTo") + [0] == [0x44, 0x65, 0x72, 0x69, 0x76, 0x65, 0x54, 0x6F, 0x00];
    assert LINK_NAME <= h.name <==> h.name[..9] == LINK_NAME;
    hide CText;
  }

  /** and a new one has that name, the link tag, the type of a 32-bit number and one element. */
  lemma NewLinkFields()
    ensures NEW_LINK == FreshHeader("DeriveTo", 0x43D, 1, 4)
  {
    assert Codes("DeriveTo") == [0x44, 0x65, 0x72, 0x69, 0x76, 0x65, 0x54, 0x6F];
    assert Codes("TPBLINK") == [0x54, 0x50, 0x42, 0x4C, 0x49, 0x4E, 0x4B];
    assert Padded(LINK_NAME, 256) == Field("DeriveTo", 256);
    assert Padded(LINK_TAG, 256) == Field("TPBLINK", 256);
  }

  lemma DerivedRow(e: RtEnvAttr, child: u32)
    requires e.Wf()
    ensures |e.Row()| == ROW && RowDerived(e.Row(), child) == e.(deriveTo := child).Row()
  {
    RtEnvRowWidths(e);
    PartSet(e.Parts(), RTENV_ROW, RTENV_STARTS, 5, U32(child));
    hide U32;
    hide U64;
    hide Flat;
    hide Overwrite;
    assert e.Parts()[5 := U32(child)] == e.(deriveTo := child).Parts();
  }

  /** Patching the log of a list of entries sets derive_to of the first one with the ID; it fails when there
      is none. */
  lemma LogDeriveFields(es: seq<RtEnvAttr>, i: nat, id: u32, child: u32)
    requires (forall k :: 0 <= k < |es| ==> es[k].Wf()) && i <= |es|
    requires (forall k :: 0 <= k < i ==> es[k].id != id) && (i < |es| ==> es[i].id == id)
    ensures LogDerived(LogImage(RtEnv, RtEnvRows(es)), id, child)
            == if i == |es| then None
               else Some(LogImage(RtEnv, RtEnvRows(es[i := es[i].(deriveTo := child)])))
  {
    RowsOfEntries(es);
    if i < |es| {
      DerivedWf(es[i], child);
    }
    hide *;
    var rows := RtEnvRows(es);
    forall k | 0 <= k < |es|
      ensures RowId(rows[k]) == es[k].id
    {
      RowFields(es[k]);
    }
    FindFirst(rows, id);
    LogDeriveRefines(rows, id, child);
    if i < |es| {
      DerivedRow(es[i], child);
      RowsSet(es, i, es[i].(deriveTo := child));
    }
  }

  lemma DerivedWf(e: RtEnvAttr, child: u32)
    requires e.Wf()
    ensures e.(deriveTo := child).Wf()
  {
  }

  /** derive_to set in a record of these attributes. */
  lemma PointedFields(e: RtEnvAttr, hs: seq<Header>, payload: seq<byte>, child: u32)
    requires e.Wf() && Holdable(hs, payload)
    ensures Pointed(RtEnvRecord(e, hs, payload), child) == RtEnvRecord(e.(deriveTo := child), hs, payload)
  {
    hide SchemaOf;
    hide U32;
    hide U64;
    assert e.Attrs(|hs|)[5 := U32(child)] == e.(deriveTo := child).Attrs(|hs|);
  }

  /** One block for each header, of the size it states. */
  predicate BlocksOf(hs: seq<Header>, blocks: seq<seq<byte>>) {
    |blocks| == |hs| && forall k :: 0 <= k < |hs| ==> |blocks[k]| == hs[k].dataSize
  }

  lemma {:induction false} BlocksBefore(hs: seq<Header>, blocks: seq<seq<byte>>, i: nat)
    requires BlocksOf(hs, blocks) && i <= |hs|
    ensures |Flat(blocks[..i])| == OffTo(hs, i)
    decreases i
  {
    if i > 0 {
      BlocksBefore(hs, blocks, i - 1);
      assert blocks[..i] == blocks[..i - 1] + [blocks[i - 1]];
      FlatAppend(blocks[..i - 1], blocks[i - 1]);
    }
  }

  /** Bytes put in behind block i go to its end. */
  lemma BlockLonger(hs: seq<Header>, blocks: seq<seq<byte>>, i: nat, v: seq<byte>)
    requires BlocksOf(hs, blocks) && i < |hs|
    ensures |blocks| == |hs| && OffTo(hs, i) + hs[i].dataSize == OffTo(hs, i + 1) <= |Flat(blocks)|
    ensures Flat(blocks)[OffTo(hs, i)..OffTo(hs, i + 1)] == blocks[i]
    ensures var p := Flat(blocks);
            p[..OffTo(hs, i + 1)] + v + p[OffTo(hs, i + 1)..] == Flat(blocks[i := blocks[i] + v])
  {
    var a, b, c := Flat(blocks[..i]), blocks[i], Flat(blocks[i + 1..]);
    BlocksBefore(hs, blocks, i);
    BlocksBefore(hs, blocks, i + 1);
    assert |b| == hs[i].dataSize;
    hide *;
    FlatAround(blocks, i);
    FlatAround(blocks[i := b + v], i);
    SpliceBetween(a, b, c, v);
  }

  lemma FlatAround(blocks: seq<seq<byte>>, i: nat)
    requires i < |blocks|
    ensures Flat(blocks) == Flat(blocks[..i]) + blocks[i] + Flat(blocks[i + 1..])
    ensures |Flat(blocks[..i + 1])| == |Flat(blocks[..i])| + |blocks[i]|
  {
    FlatAppend(blocks[..i], blocks[i]);
    FlatConcat(blocks[..i + 1], blocks[i + 1..]);
    hide Flat;
    assert blocks[..i + 1] == blocks[..i] + [blocks[i]] && blocks == blocks[..i + 1] + blocks[i + 1..];
  }

  lemma SpliceBetween(a: seq<byte>, b: seq<byte>, c: seq<byte>, v: seq<byte>)
    ensures var p := a + b + c;
            && p[|a|..|a| + |b|] == b
            && p[..|a| + |b|] + v + p[|a| + |b|..] == a + (b + v) + c
  {
  }

  /** None of the 32-bit numbers in a block is v. */
  predicate Lacks(block: seq<byte>, v: u32) {
    forall k :: 0 <= k < |block| / 4 ==> block[4 * k..4 * k + 4] != U32(v)
  }

  lemma LacksIds(block: seq<byte>, v: u32)
    ensures Lacks(block, v) <==> v !in Ids(block)
  {
    hide U32;
    if v in Ids(block) {
      var k :| 0 <= k < |Ids(block)| && Ids(block)[k] == v;
      IdsAt(block, k);
      assert block[4 * k..4 * k + 4] == U32(v);
    }
    if !Lacks(block, v) {
      var k :| 0 <= k < |block| / 4 && block[4 * k..4 * k + 4] == U32(v);
      IdsAt(block, k);
      assert GetU32(U32(v)) == v;
    }
  }

  /** What linking a new child makes of a record, field by field: derive_to is set; and in the first link
      block the ID goes to the end, its header counting one more, or there is a new header and block. */
  lemma LinkedFields(e: RtEnvAttr, hs: seq<Header>, blocks: seq<seq<byte>>, i: nat, child: u32)
    requires e.Wf() && Holdable(hs, Flat(blocks)) && BlocksOf(hs, blocks) && Linkable(RtEnvRecord(e, hs, Flat(blocks)))
    requires i <= |hs| && (forall k :: 0 <= k < i ==> CText(hs[k].name) != "DeriveTo")
    requires i < |hs| ==> CText(hs[i].name) == "DeriveTo" && Lacks(blocks[i], child)
    ensures var r, t := Linked(RtEnvRecord(e, hs, Flat(blocks)), child), e.(deriveTo := child);
            if i < |hs| then
              var h := hs[i];
              && h.dataSize + 4 < TWO64 && |h.dimSizes| == 7 && h.dimSizes[0] + 1 < TWO64
              && r.attrs == t.Attrs(|hs|)
              && r.headers == hs[i := h.(dataSize := h.dataSize + 4, dimSizes := h.dimSizes[0 := h.dimSizes[0] + 1])]
              && r.payload == Flat(blocks[i := blocks[i] + U32(child)])
            else
              && |hs| + 1 < TWO32 && r.attrs == t.Attrs(|hs| + 1)
              && r.headers == hs + [FreshHeader("DeriveTo", 0x43D, 1, 4)]
              && r.payload == Flat(blocks) + U32(child)
  {
    hide *;
    var r := RtEnvRecord(e, hs, Flat(blocks));
    RecordIs(e, hs, Flat(blocks));
    LinkIdxByName(hs, i);
    if i < |hs| {
      LinkedLonger(e, hs, blocks, child);
    } else {
      LinkedNew(e, hs, Flat(blocks), child);
    }
  }

  lemma RecordIs(e: RtEnvAttr, hs: seq<Header>, payload: seq<byte>)
    requires e.Wf() && Holdable(hs, payload)
    ensures |hs| < TWO32 == 0x1_0000_0000 && forall k :: 0 <= k < |hs| ==> hs[k].Wf()
    ensures var r := RtEnvRecord(e, hs, payload); r.attrs == e.Attrs(|hs|) && r.headers == hs && r.payload == payload
  {
    hide SchemaOf;
    hide RtEnvAttr.Attrs;
  }

  lemma LinkIdxByName(hs: seq<Header>, i: nat)
    requires forall k :: 0 <= k < |hs| ==> hs[k].Wf()
    requires i <= |hs| && (forall k :: 0 <= k < i ==> CText(hs[k].name) != "DeriveTo")
    requires i < |hs| ==> CText(hs[i].name) == "DeriveTo"
    ensures LinkIdx(hs) == i
  {
    hide LinkIdx;
    forall k | 0 <= k < |hs|
      ensures IsLink(hs[k]) <==> CText(hs[k].name) == "DeriveTo"
    {
      LinkByName(hs[k]);
    }
    hide IsLink;
    hide CText;
  }

  lemma LinkedLonger(e: RtEnvAttr, hs: seq<Header>, blocks: seq<seq<byte>>, child: u32)
    requires e.Wf() && Holdable(hs, Flat(blocks)) && BlocksOf(hs, blocks) && Linkable(RtEnvRecord(e, hs, Flat(blocks)))
    requires LinkIdx(hs) < |hs| && Lacks(blocks[LinkIdx(hs)], child)
    ensures var r, t, i := Linked(RtEnvRecord(e, hs, Flat(blocks)), child), e.(deriveTo := child), LinkIdx(hs);
            var h := hs[i];
            && h.dataSize + 4 < TWO64 && |h.dimSizes| == 7 && h.dimSizes[0] + 1 < TWO64
            && r.attrs == t.Attrs(|hs|)
            && r.headers == hs[i := h.(dataSize := h.dataSize + 4, dimSizes := h.dimSizes[0 := h.dimSizes[0] + 1])]
            && r.payload == Flat(blocks[i := blocks[i] + U32(child)])
  {
    hide *;
    var r, i, v := RtEnvRecord(e, hs, Flat(blocks)), LinkIdx(hs), U32(child);
    RecordIs(e, hs, Flat(blocks));
    LinkHeader(r);
    LongerIs(hs[i]);
    BlockLonger(hs, blocks, i, v);
    NotLinked(r, blocks[i], child);
    LinkParts(r, child);
    SplicedIs(r.payload, OffTo(hs, i + 1), child);
    LinkedIs(r, child);
    LinkedAttrs(r, child);
    AttrsPointed(e, |hs|, child);
  }

  lemma LongerIs(h: Header)
    requires |h.dimSizes| == 7 && (h.dataSize as int) == 4 * (h.dimSizes[0] as int) && 4 * h.dimSizes[0] + 4 < TWO64
    ensures h.dataSize + 4 < 0x1_0000_0000_0000_0000 == TWO64
    ensures Longer(h) == h.(dataSize := h.dataSize + 4, dimSizes := h.dimSizes[0 := h.dimSizes[0] + 1])
  {
  }

  lemma NotLinked(r: Record, block: seq<byte>, child: u32)
    requires Linkable(r) && LinkIdx(r.headers) < |r.headers| && Lacks(block, child)
    requires var i := LinkIdx(r.headers);
             OffTo(r.headers, i) <= OffTo(r.headers, i + 1) <= |r.payload|
             && r.payload[OffTo(r.headers, i)..OffTo(r.headers, i + 1)] == block
    ensures child !in Links(r)
  {
    LacksIds(block, child);
    hide SchemaOf;
    hide Ids;
    hide OffTo;
    hide LinkIdx;
    hide Lacks;
  }

  lemma SplicedIs(p: seq<byte>, at: nat, child: u32)
    requires at <= |p|
    ensures Spliced(p, at, child) == p[..at] + U32(child) + p[at..]
  {
  }

  lemma LinkedAttrs(r: Record, child: u32)
    requires Linkable(r) && child !in Links(r)
    ensures |Grown(r, child).attrs| == 13 && Linked(r, child).attrs == Grown(r, child).attrs[5 := U32(child)]
  {
    GrownWf(r, child);
    Widths(Grown(r, child));
    hide Grown;
    hide Linkable;
    hide SchemaOf;
    hide Record.Wf;
    hide Links;
    hide U32;
  }

  lemma AttrsPointed(e: RtEnvAttr, n: u32, child: u32)
    ensures |e.Attrs(n)| == 13 && e.Attrs(n)[5 := U32(child)] == e.(deriveTo := child).Attrs(n)
  {
    hide U32;
    hide U64;
  }

  lemma LinkedNew(e: RtEnvAttr, hs: seq<Header>, payload: seq<byte>, child: u32)
    requires e.Wf() && Holdable(hs, payload) && Linkable(RtEnvRecord(e, hs, payload)) && LinkIdx(hs) == |hs|
    ensures var r, t := Linked(RtEnvRecord(e, hs, payload), child), e.(deriveTo := child);
            && |hs| + 1 < TWO32 && r.attrs == t.Attrs(|hs| + 1)
            && r.headers == hs + [FreshHeader("DeriveTo", 0x43D, 1, 4)] && r.payload == payload + U32(child)
  {
    var r := RtEnvRecord(e, hs, payload);
    RecordIs(e, hs, payload);
    NewLinkFields();
    hide *;
    NoLinkBlock(r, child);
    LinkedIs(r, child);
    LinkedAttrs(r, child);
    AttrsCounted(e, |hs|, |hs| + 1);
    AttrsPointed(e, |hs| + 1, child);
    AtEnd(payload, U32(child));
  }

  lemma AttrsCounted(e: RtEnvAttr, n: u32, m: u32)
    ensures |e.Attrs(n)| == 13 && e.Attrs(n)[11 := U32(m)] == e.Attrs(m)
  {
    hide U32;
    hide U64;
  }

  lemma AtEnd(p: seq<byte>, v: seq<byte>)
    ensures p[..|p|] + v + p[|p|..] == p + v
  {
  }

  // ---------------------------------------------------------------- the record file

  /** Headers as a reader returns them: nothing past ndim, and the fixed block size. */
  predicate StoredForm(r: Record)
    requires r.Wf(SchemaOf(RtEnv))
  {
    StoredAll(r.headers) == r.headers
  }

  lemma ImageStored(r: Record)
    requires r.Wf(SchemaOf(RtEnv))
    ensures StoredForm(Reread(SchemaOf(RtEnv), r))
            && Image(SchemaOf(RtEnv), Reread(SchemaOf(RtEnv), r)) == Image(SchemaOf(RtEnv), r)
  {
    hide SchemaOf;
    hide Image;
    hide HeadersBytes;
    hide Stored;
    StoredBytes(r.headers);
    SameImage(SchemaOf(RtEnv), r, Reread(SchemaOf(RtEnv), r));
  }

  lemma SameImage(s: Schema, r: Record, r': Record)
    requires r.Wf(s) && r'.Wf(s) && r'.attrs == r.attrs && |r'.headers| == |r.headers| && r'.payload == r.payload
    requires HeadersBytes(r'.headers) == HeadersBytes(r.headers)
    ensures Image(s, r') == Image(s, r)
  {
    hide HeadersBytes;
    hide Flat;
    hide Magic;
    hide U64;
    hide Zeros;
  }

  /** _sf_patch_tpbr_derive_to: the offset is written without looking at the file. */
  method PatchRecordDerive(file: DiskFile, child: u32)
    modifies file
    ensures file.data == Overwrite(old(file.data), REC_DERIVE, U32(child))
  {
    var _ := file.Seek(REC_DERIVE);
    file.Write(U32(child));
  }

  /** Writing the offset sets the attribute and nothing else. */
  lemma PointRefines(r: Record, child: u32)
    requires r.Wf(SchemaOf(RtEnv))
    ensures Overwrite(Image(SchemaOf(RtEnv), r), REC_DERIVE, U32(child)) == Image(SchemaOf(RtEnv), Pointed(r, child))
  {
    hide Image;
    hide Overwrite;
    DeriveOffset();
    Widths(r);
    PatchAttr(SchemaOf(RtEnv), r, 5, U32(child));
  }

  lemma DeriveOffset()
    ensures var s := SchemaOf(RtEnv);
            |s.widths| == 13 && s.widths[5] == 4 && s.nheaderField == 11 && s.FieldOff(5) == REC_DERIVE
  {
    hide Sum;
    hide Schema.FieldOff;
    RtEnvOffsets();
    assert RTENV_OFFSETS[5] == 552;
  }

  // ---------------------------------------------------------------- the whole call

  /** The record file after a successful call, for the record it held. */
  function FileLinked(f: seq<byte>, r: Record, child: u32): seq<byte>
    requires Linkable(r)
  {
    Overwrite(FileGrown(f, r, child), REC_DERIVE, U32(child))
  }

  /** The record file before the last patch: rewritten, unless the child was linked already. */
  function FileGrown(f: seq<byte>, r: Record, child: u32): seq<byte>
    requires Linkable(r)
  {
    if child in Links(r) then f
    else
      GrownWf(r, child);
      Image(SchemaOf(RtEnv), Pointed(Grown(r, child), child))
  }

  lemma {:induction false} IdsAt(s: seq<byte>, k: nat)
    requires 4 * k + 4 <= |s|
    ensures k < |Ids(s)| && Ids(s)[k] == GetU32(s[4 * k..4 * k + 4])
    decreases k
  {
    if k > 0 {
      IdsAt(s[4..], k - 1);
      SubSlice(s, 4, |s| - 4, 4 * (k - 1));
      assert s[4..4 + (|s| - 4)] == s[4..];
    }
  }

  lemma SubSlice(p: seq<byte>, off: nat, n: nat, a: nat)
    requires off + n <= |p| && a + 4 <= n
    ensures p[off..off + n][a..a + 4] == p[off + a..off + a + 4]
  {
    var b, c := p[off..off + n][a..a + 4], p[off + a..off + a + 4];
    assert forall j :: 0 <= j < 4 ==> b[j] == p[off + a + j] == c[j];
  }

  method FindLink(hs: seq<Header>) returns (i: nat)
    ensures i == LinkIdx(hs)
  {
    hide IsLink;
    i := 0;
    while i < |hs|
      invariant i <= |hs| && LinkIdx(hs) == i + LinkIdx(hs[i..])
    {
      if IsLink(hs[i]) { return; }
      i := i + 1;
    }
  }

  /** _sf_header_data_offset */
  method DataOffset(hs: seq<Header>, idx: nat) returns (off: nat)
    requires idx <= |hs|
    ensures off == OffTo(hs, idx)
  {
    off := 0;
    var i := 0;
    while i < idx && i < |hs|
      invariant i <= idx && off == OffTo(hs, i)
    {
      off := off + hs[i].dataSize;
      i := i + 1;
    }
  }

  /** The scan of the n IDs at an offset. */
  method HasChild(p: seq<byte>, off: nat, n: nat, child: u32) returns (found: bool)
    requires off + 4 * n <= |p|
    ensures found <==> child in Ids(p[off..off + 4 * n])
  {
    ghost var block := p[off..off + 4 * n];
    var k := 0;
    while k < n
      invariant k <= n && child !in Ids(block)[..k]
    {
      IdsAt(block, k);
      SubSlice(p, off, 4 * n, 4 * k);
      if GetU32(p[off + 4 * k..off + 4 * k + 4]) == child {
        assert Ids(block)[k] == child;
        return true;
      }
      assert Ids(block)[..k + 1] == Ids(block)[..k] + [Ids(block)[k]];
      k := k + 1;
    }
    assert Ids(block)[..n] == Ids(block);
    return false;
  }

  /** The new payload: the bytes up to a place, the child, the rest. */
  method Insert(p: seq<byte>, at: nat, child: u32) returns (q: seq<byte>)
    requires at <= |p|
    ensures q == p[..at] + U32(child) + p[at..]
  {
    hide U32;
    var out := new byte[|p| + 4];
    CopyInto(out, 0, p[..at]);
    CopyInto(out, at, U32(child));
    CopyInto(out, at + 4, p[at..]);
    q := out[..];
    assert out[..at + 4 + |p[at..]|] == out[..];
  }

  /** The link block, where the code looks for it, and what growing it makes of the record. */
  lemma LinkBlock(r: Record, child: u32)
    requires Linkable(r) && LinkIdx(r.headers) < |r.headers|
    ensures var i, p := LinkIdx(r.headers), r.payload;
            && |r.headers[i].dimSizes| == 7 && 4 * r.headers[i].dimSizes[0] + 4 < TWO64
            && var off, n := OffTo(r.headers, i), r.headers[i].dimSizes[0];
            && off + 4 * n <= |p| && Links(r) == Ids(p[off..off + 4 * n])
            && Grown(r, child) == r.(headers := r.headers[i := Longer(r.headers[i])],
                                     payload := p[..off + 4 * n] + U32(child) + p[off + 4 * n..])
  {
    hide SchemaOf;
    hide U32;
    hide Ids;
    hide IsLink;
    OffToFits(r.headers, LinkIdx(r.headers));
  }

  lemma NoLinkBlock(r: Record, child: u32)
    requires Linkable(r) && LinkIdx(r.headers) == |r.headers|
    ensures |r.attrs| > 11 && |r.headers| + 1 < TWO32 && Links(r) == []
    ensures Grown(r, child) == Record(r.attrs[11 := U32(|r.headers| + 1)], r.headers + [NEW_LINK],
                                      r.payload[..|r.payload|] + U32(child) + r.payload[|r.payload|..])
  {
    hide SchemaOf;
    hide U32;
    hide IsLink;
    Widths(r);
    assert r.payload[..|r.payload|] + U32(child) + r.payload[|r.payload|..] == r.payload + U32(child);
  }

  /** The part of the call between reading the record and writing it: None when the child is there. */
  method Extend(r: Record, child: u32) returns (res: Option<Record>)
    requires Linkable(r)
    ensures child in Links(r) ==> res == None
    ensures child !in Links(r) ==> Grown(r, child).Wf(SchemaOf(RtEnv)) && res == Some(Pointed(Grown(r, child), child))
  {
    GrownWf(r, child);
    hide *;
    var i := FindLink(r.headers);
    var grown: Record;
    if i < |r.headers| {
      var found;
      found, grown := Lengthen(r, i, child);
      if found { return None; }
    } else {
      NoLinkBlock(r, child);
      var payload := Insert(r.payload, |r.payload|, child);
      grown := Record(r.attrs[11 := U32(|r.headers| + 1)], r.headers + [NEW_LINK], payload);
    }
    return Some(Pointed(grown, child));
  }

  /** The branch for a record that has a link block. */
  method Lengthen(r: Record, i: nat, child: u32) returns (found: bool, grown: Record)
    requires Linkable(r) && i == LinkIdx(r.headers) < |r.headers|
    ensures found <==> child in Links(r)
    ensures !found ==> grown == Grown(r, child)
  {
    hide *;
    LinkBlock(r, child);
    grown := r;
    var off := DataOffset(r.headers, i);
    var n: nat := r.headers[i].dimSizes[0];
    found := HasChild(r.payload, off, n, child);
    if found { return; }
    var payload := Insert(r.payload, off + 4 * n, child);
    grown := r.(headers := r.headers[i := Longer(r.headers[i])], payload := payload);
  }

  /** tpb_raf_record_append_rtenv_derive. When the parent's row is missing the call fails after the
      record has been rewritten. */
  method AppendDerive(rec: DiskFile, log: DiskFile, parent: u32, child: u32) returns (ok: bool)
    requires rec != log && rec.pos == 0 && log.pos == 0
    requires var p := ParseRecord(rec.data, SchemaOf(RtEnv)); p.Some? ==> Linkable(p.value)
    modifies rec, log
    ensures var p, l := ParseRecord(old(rec.data), SchemaOf(RtEnv)), LogDerived(old(log.data), parent, child);
            && ok == (p.Some? && l.Some?)
            && log.data == (if ok then l.value else old(log.data))
            && rec.data == (if p == None then old(rec.data)
                            else if ok then FileLinked(old(rec.data), p.value, child)
                            else FileGrown(old(rec.data), p.value, child))
  {
    hide ParseRecord;
    hide LogDerived;
    hide Overwrite;
    hide Image;
    hide Linkable;
    hide Grown;
    hide Links;
    hide Record.Wf;
    hide SchemaOf;
    hide U32;
    var read := ReadRecord(rec, SchemaOf(RtEnv));
    if read == None { return false; }
    var next := Extend(read.value, child);
    if next.Some? {
      rec.data, rec.pos := [], 0;
      WriteRecord(rec, SchemaOf(RtEnv), next.value);
    }
    ok := PatchLogDerive(log, parent, child);
    if ok {
      PatchRecordDerive(rec, child);
    }
  }

  /** On the file of any linkable record the call refines linking the child: the code works on what it
      has read back, and the file is that of the linked record. */
  lemma DeriveRefines(r: Record, child: u32)
    requires Linkable(r)
    ensures ParseRecord(Image(SchemaOf(RtEnv), r), SchemaOf(RtEnv)) == Some(Reread(SchemaOf(RtEnv), r))
            && Linkable(Reread(SchemaOf(RtEnv), r))
    ensures Linked(r, child).Wf(SchemaOf(RtEnv))
    ensures FileLinked(Image(SchemaOf(RtEnv), r), Reread(SchemaOf(RtEnv), r), child)
            == Image(SchemaOf(RtEnv), Linked(r, child))
  {
    RoundTrip(SchemaOf(RtEnv), r);
    ImageStored(r);
    LinkedReread(r, child);
    GrownWf(r, child);
    hide *;
    DeriveStored(Reread(SchemaOf(RtEnv), r), child);
    ImageStored(Linked(r, child));
  }

  lemma DeriveStored(r: Record, child: u32)
    requires Linkable(r)
    ensures FileLinked(Image(SchemaOf(RtEnv), r), r, child) == Image(SchemaOf(RtEnv), Linked(r, child))
  {
    hide Image;
    hide Overwrite;
    GrownWf(r, child);
    var g := if child in Links(r) then r else Grown(r, child);
    PointRefines(g, child);
    PointRefines(Pointed(g, child), child);
    PointTwice(g, child);
    hide Grown;
    hide Links;
    hide StoredAll;
  }

  /** Rereading a record and linking a child commute. */
  lemma LinkedReread(r: Record, child: u32)
    requires Linkable(r)
    ensures Linkable(Reread(SchemaOf(RtEnv), r)) && Linked(r, child).Wf(SchemaOf(RtEnv))
    ensures Linked(Reread(SchemaOf(RtEnv), r), child) == Reread(SchemaOf(RtEnv), Linked(r, child))
  {
    LinkableReread(r);
    GrownWf(r, child);
    GrownReread(r, child);
    PointedReread(r, child);
    PointedReread(Grown(r, child), child);
    hide Linkable;
    hide Grown;
    hide Pointed;
    hide Reread;
    hide Links;
    hide SchemaOf;
  }

  lemma LinkableReread(r: Record)
    requires Linkable(r)
    ensures Linkable(Reread(SchemaOf(RtEnv), r)) && Links(Reread(SchemaOf(RtEnv), r)) == Links(r)
  {
    var hs, ks := r.headers, StoredAll(r.headers);
    hide SchemaOf;
    hide IsLink;
    hide Ids;
    LinkIdxStored(hs);
    OffToStored(hs, |hs|);
    var i := LinkIdx(hs);
    if i < |hs| {
      StoredHeader(hs[i]);
      OffToStored(hs, i);
      OffToStored(hs, i + 1);
    }
  }

  /** What storage keeps of a header. */
  lemma StoredHeader(h: Header)
    requires h.Wf()
    ensures var k := Stored(h);
            && k.dataSize == h.dataSize && k.ndim == h.ndim && IsLink(k) == IsLink(h)
            && (h.ndim >= 1 ==> k.dimSizes[0] == h.dimSizes[0])
  {
  }

  lemma {:induction false} LinkIdxStored(hs: seq<Header>)
    requires forall i :: 0 <= i < |hs| ==> hs[i].Wf()
    ensures LinkIdx(StoredAll(hs)) == LinkIdx(hs)
    decreases hs
  {
    hide IsLink;
    hide Stored;
    if hs != [] {
      StoredHeader(hs[0]);
      LinkIdxStored(hs[1..]);
      assert StoredAll(hs)[1..] == StoredAll(hs[1..]);
    }
  }

  lemma {:induction false} OffToStored(hs: seq<Header>, i: nat)
    requires (forall i :: 0 <= i < |hs| ==> hs[i].Wf()) && i <= |hs|
    ensures OffTo(StoredAll(hs), i) == OffTo(hs, i)
    decreases i
  {
    hide Stored;
    if i > 0 {
      OffToStored(hs, i - 1);
      StoredHeader(hs[i - 1]);
    }
  }

  lemma PointedReread(r: Record, child: u32)
    requires r.Wf(SchemaOf(RtEnv))
    ensures Pointed(Reread(SchemaOf(RtEnv), r), child) == Reread(SchemaOf(RtEnv), Pointed(r, child))
  {
    hide SchemaOf;
    hide U32;
  }

  lemma GrownReread(r: Record, child: u32)
    requires r.Wf(SchemaOf(RtEnv)) && Linkable(r)
    requires Linkable(Reread(SchemaOf(RtEnv), r)) && Grown(r, child).Wf(SchemaOf(RtEnv))
    ensures Grown(Reread(SchemaOf(RtEnv), r), child) == Reread(SchemaOf(RtEnv), Grown(r, child))
  {
    LinkSize(r);
    hide *;
    RereadIs(r);
    RereadIs(Grown(r, child));
    LinkIdxStored(r.headers);
    if LinkIdx(r.headers) < |r.headers| {
      LongerReread(r, child);
    } else {
      NoLinkBlock(r, child);
      NoLinkBlock(Reread(SchemaOf(RtEnv), r), child);
      NewStored();
      StoredSnoc(r.headers, NEW_LINK);
    }
  }

  lemma LongerReread(r: Record, child: u32)
    requires r.Wf(SchemaOf(RtEnv)) && Linkable(r)
    requires Linkable(Reread(SchemaOf(RtEnv), r)) && Grown(r, child).Wf(SchemaOf(RtEnv))
    requires LinkIdx(r.headers) < |r.headers|
    ensures Grown(Reread(SchemaOf(RtEnv), r), child) == Reread(SchemaOf(RtEnv), Grown(r, child))
  {
    LinkSize(r);
    hide *;
    RereadIs(Grown(r, child));
    LongerHeaders(r, child);
    LongerPayload(r, child);
    SameRecord(Grown(Reread(SchemaOf(RtEnv), r), child), Reread(SchemaOf(RtEnv), Grown(r, child)));
  }

  lemma LongerHeaders(r: Record, child: u32)
    requires r.Wf(SchemaOf(RtEnv)) && Linkable(r) && Linkable(Reread(SchemaOf(RtEnv), r))
    requires LinkIdx(r.headers) < |r.headers|
    ensures var hs := Grown(r, child).headers;
            && (forall k :: 0 <= k < |hs| ==> hs[k].Wf())
            && Grown(Reread(SchemaOf(RtEnv), r), child).headers == StoredAll(hs)
  {
    LinkSize(r);
    hide *;
    RereadIs(r);
    LinkIdxStored(r.headers);
    LinkParts(r, child);
    LinkParts(Reread(SchemaOf(RtEnv), r), child);
    LongerStoredAll(r.headers, LinkIdx(r.headers));
  }

  lemma LongerPayload(r: Record, child: u32)
    requires r.Wf(SchemaOf(RtEnv)) && Linkable(r) && Linkable(Reread(SchemaOf(RtEnv), r))
    requires LinkIdx(r.headers) < |r.headers|
    ensures var g, k := Grown(r, child), Grown(Reread(SchemaOf(RtEnv), r), child);
            k.attrs == g.attrs && k.payload == g.payload
  {
    SamePlace(r);
    hide *;
    LinkPayload(r, child);
    LinkPayload(Reread(SchemaOf(RtEnv), r), child);
  }

  /** The place of the next ID, in a record and in what is read back of it. */
  lemma SamePlace(r: Record)
    requires r.Wf(SchemaOf(RtEnv)) && Linkable(r) && Linkable(Reread(SchemaOf(RtEnv), r))
    requires LinkIdx(r.headers) < |r.headers|
    ensures var q := Reread(SchemaOf(RtEnv), r);
            && q.attrs == r.attrs && q.payload == r.payload && LinkIdx(q.headers) < |q.headers|
            && OffTo(q.headers, LinkIdx(q.headers) + 1) == OffTo(r.headers, LinkIdx(r.headers) + 1)
  {
    hide *;
    RereadIs(r);
    PlaceStored(r.headers);
  }

  lemma PlaceStored(hs: seq<Header>)
    requires (forall k :: 0 <= k < |hs| ==> hs[k].Wf()) && LinkIdx(hs) < |hs|
    ensures var ks := StoredAll(hs);
            LinkIdx(ks) < |ks| && OffTo(ks, LinkIdx(ks) + 1) == OffTo(hs, LinkIdx(hs) + 1)
  {
    hide *;
    LinkIdxStored(hs);
    OffToStored(hs, LinkIdx(hs) + 1);
  }

  lemma LinkPayload(r: Record, child: u32)
    requires Linkable(r) && LinkIdx(r.headers) < |r.headers|
    ensures OffTo(r.headers, LinkIdx(r.headers) + 1) <= |r.payload|
    ensures var g, at := Grown(r, child), OffTo(r.headers, LinkIdx(r.headers) + 1);
            g.attrs == r.attrs && g.payload == Spliced(r.payload, at, child)
  {
    hide *;
    LinkParts(r, child);
  }

  lemma SameRecord(x: Record, y: Record)
    requires x.attrs == y.attrs && x.headers == y.headers && x.payload == y.payload
    ensures x == y
  {
  }

  /** The payload with the child's ID put in at a place. */
  function Spliced(p: seq<byte>, at: nat, child: u32): (q: seq<byte>)
    requires at <= |p|
    ensures |q| == |p| + 4
  {
    p[..at] + U32(child) + p[at..]
  }

  /** What growing the link block makes of the record, part by part. */
  lemma LinkParts(r: Record, child: u32)
    requires Linkable(r) && LinkIdx(r.headers) < |r.headers|
    ensures var g, i, p := Grown(r, child), LinkIdx(r.headers), r.payload;
            && |r.headers[i].dimSizes| == 7 && 4 * r.headers[i].dimSizes[0] + 4 < TWO64
            && g.attrs == r.attrs && g.headers == r.headers[i := Longer(r.headers[i])]
            && OffTo(r.headers, i + 1) <= |p| && g.payload == Spliced(p, OffTo(r.headers, i + 1), child)
  {
    hide SchemaOf;
    hide U32;
    hide IsLink;
    hide Longer;
    OffToMono(r.headers, LinkIdx(r.headers) + 1, |r.headers|);
  }

  lemma LongerStoredAll(hs: seq<Header>, i: nat)
    requires (forall k :: 0 <= k < |hs| ==> hs[k].Wf()) && i < |hs| && hs[i].ndim >= 1
    requires hs[i].Wf() && 4 * hs[i].dimSizes[0] + 4 < TWO64
    ensures OffTo(StoredAll(hs), i + 1) == OffTo(hs, i + 1)
    ensures Longer(hs[i]).Wf() && StoredAll(hs)[i].Wf() && 4 * StoredAll(hs)[i].dimSizes[0] + 4 < TWO64
    ensures var ks := hs[i := Longer(hs[i])];
            && (forall k :: 0 <= k < |ks| ==> ks[k].Wf())
            && StoredAll(ks) == StoredAll(hs)[i := Longer(StoredAll(hs)[i])]
  {
    OffToStored(hs, i + 1);
    LongerStored(hs[i]);
    StoredSet(hs, i, Longer(hs[i]));
    hide Stored;
    hide Longer;
    hide Header.Wf;
  }

  lemma LinkSize(r: Record)
    requires Linkable(r)
    ensures r.Wf(SchemaOf(RtEnv)) && forall k :: 0 <= k < |r.headers| ==> r.headers[k].Wf()
    ensures LinkIdx(r.headers) < |r.headers| ==> r.headers[LinkIdx(r.headers)].ndim >= 1
  {
    hide SchemaOf;
  }

  lemma RereadIs(r: Record)
    requires r.Wf(SchemaOf(RtEnv))
    ensures (forall k :: 0 <= k < |r.headers| ==> r.headers[k].Wf())
            && Reread(SchemaOf(RtEnv), r) == r.(headers := StoredAll(r.headers))
  {
    hide SchemaOf;
  }

  lemma StoredSet(hs: seq<Header>, i: nat, h: Header)
    requires (forall k :: 0 <= k < |hs| ==> hs[k].Wf()) && i < |hs| && h.Wf()
    ensures var ks := hs[i := h];
            && (forall k :: 0 <= k < |ks| ==> ks[k].Wf())
            && StoredAll(ks) == StoredAll(hs)[i := Stored(h)] && StoredAll(hs)[i] == Stored(hs[i])
  {
    hide Stored;
    hide Header.Wf;
  }

  lemma StoredSnoc(hs: seq<Header>, h: Header)
    requires (forall k :: 0 <= k < |hs| ==> hs[k].Wf()) && h.Wf()
    ensures var ks := hs + [h];
            && (forall k :: 0 <= k < |ks| ==> ks[k].Wf())
            && StoredAll(ks) == StoredAll(hs) + [Stored(h)]
  {
    hide Stored;
    hide Header.Wf;
  }

  lemma PointTwice(r: Record, child: u32)
    requires r.Wf(SchemaOf(RtEnv))
    ensures Pointed(Pointed(r, child), child) == Pointed(r, child)
  {
    Widths(r);
    assert r.attrs[5 := U32(child)][5 := U32(child)] == r.attrs[5 := U32(child)];
  }

  lemma LongerStored(h: Header)
    requires h.Wf() && h.ndim >= 1 && 4 * h.dimSizes[0] + 4 < TWO64
    ensures Longer(h).Wf() && 4 * Stored(h).dimSizes[0] + 4 < TWO64
    ensures Stored(Longer(h)) == Longer(Stored(h))
  {
  }

  lemma NewStored()
    ensures NEW_LINK.Wf() && Stored(NEW_LINK) == NEW_LINK
  {
  }
}
