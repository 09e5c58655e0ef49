/** Which files a record reader accepts, and what it makes of them: field by field, on every file. The block
    sizes of headers, metasize, the reserved bytes and what follows END may be anything. */
module ReadExact {
  import opened Bytes
  import opened Common
  import opened Signature
  import opened Layout
  import opened RecordIO
  import EntryLog

  // ---------------------------------------------------------------- one header

  /** The part in front of the dimensions stands at p. */
  predicate FixedStands(f: seq<byte>, p: nat, h: Header) {
    && At(f, p, U32(h.blockSize)) && At(f, p + 4, U32(h.ndim)) && At(f, p + 8, U64(h.dataSize))
    && At(f, p + 16, U32(h.typeBits)) && At(f, p + 20, U32(h.reserve)) && At(f, p + 24, U64(h.uattr))
    && At(f, p + 32, h.name) && At(f, p + 288, h.tag) && At(f, p + 544, h.note)
  }

  predicate HeaderStands(f: seq<byte>, p: nat, h: Header)
    requires h.Wf()
  {
    && FixedStands(f, p, h)
    && At(f, p + 2592, Dims(h.dimSizes[..h.ndim])) && At(f, p + 2592 + 8 * h.ndim, Flat(h.dimNames[..h.ndim]))
  }

  /** Nothing past the dimensions in use. */
  predicate Trimmed(h: Header)
    requires h.Wf()
  {
    forall k :: h.ndim <= k < 7 ==> h.dimSizes[k] == 0 && h.dimNames[k] == Zeros(64)
  }

  lemma Get32(f: seq<byte>, o: nat, v: u32)
    ensures At(f, o, U32(v)) <==> o + 4 <= |f| && GetU32(f[o..o + 4]) == v
  {
    AtSlice(f, o, U32(v));
  }

  lemma Get64(f: seq<byte>, o: nat, v: u64)
    ensures At(f, o, U64(v)) <==> o + 8 <= |f| && GetU64(f[o..o + 8]) == v
  {
    AtSlice(f, o, U64(v));
  }

  lemma FixedExactly(f: seq<byte>, p: nat, h: Header)
    requires h.Wf()
    ensures ParseFixed(f, p) == Some(h.(dimSizes := PadDims([]), dimNames := PadNames([]))) <==> FixedStands(f, p, h)
  {
    Get32(f, p, h.blockSize);
    Get32(f, p + 4, h.ndim);
    Get64(f, p + 8, h.dataSize);
    Get32(f, p + 16, h.typeBits);
    Get32(f, p + 20, h.reserve);
    Get64(f, p + 24, h.uattr);
    AtSlice(f, p + 32, h.name);
    AtSlice(f, p + 288, h.tag);
    AtSlice(f, p + 544, h.note);
    hide At;
    hide U32;
    hide U64;
    hide GetU32;
    hide GetU64;
    hide PadDims;
    hide PadNames;
  }

  lemma {:induction false} DimsExactly(f: seq<byte>, p: nat, ds: seq<u64>)
    ensures At(f, p, Dims(ds)) <==> p + 8 * |ds| <= |f| && ParseDims(f, p, |ds|) == ds
    decreases ds
  {
    if ds == [] {
      AtSlice(f, p, []);
    } else {
      assert ds == [ds[0]] + ds[1..];
      AtAppend(f, p, U64(ds[0]), Dims(ds[1..]));
      Get64(f, p, ds[0]);
      DimsExactly(f, p + 8, ds[1..]);
      hide At;
      hide U64;
      hide GetU64;
      if p + 8 * |ds| <= |f| {
        assert ParseDims(f, p, |ds|)[1..] == ParseDims(f, p + 8, |ds| - 1);
      }
    }
  }

  lemma PartsExactly(f: seq<byte>, p: nat, ps: seq<seq<byte>>, ws: seq<nat>)
    requires Lengths(ps) == ws
    ensures At(f, p, Flat(ps)) <==> p + Sum(ws) <= |f| && Pieces(f, p, ws) == ps
  {
    hide *;
    if At(f, p, Flat(ps)) {
      PiecesParse(f, p, ps, ws);
    }
    if p + Sum(ws) <= |f| && Pieces(f, p, ws) == ps {
      EntryLog.FlatPieces(f, p, ws);
    }
  }

  /** A header is read exactly where it stands, with nothing past its dimensions. */
  lemma HeaderExactly(f: seq<byte>, p: nat, h: Header)
    requires h.Wf()
    ensures ParseHeader(f, p) == Some(h) <==> HeaderStands(f, p, h) && Trimmed(h)
  {
    hide *;
    if ParseHeader(f, p) == Some(h) {
      HeaderTo(f, p, h);
    }
    if HeaderStands(f, p, h) && Trimmed(h) {
      HeaderFrom(f, p, h);
    }
  }

  lemma HeaderTo(f: seq<byte>, p: nat, h: Header)
    requires h.Wf() && ParseHeader(f, p) == Some(h)
    ensures HeaderStands(f, p, h) && Trimmed(h)
  {
    hide *;
    NamesWide(h);
    assert FixedStands(f, p, h) by {
      ParsedParts(f, p, h);
      FixedExactly(f, p, h);
    }
    assert At(f, p + 2592, Dims(h.dimSizes[..h.ndim])) by {
      ParsedParts(f, p, h);
      DimsExactly(f, p + 2592, h.dimSizes[..h.ndim]);
    }
    assert At(f, p + 2592 + 8 * h.ndim, Flat(h.dimNames[..h.ndim])) by {
      ParsedParts(f, p, h);
      PartsExactly(f, p + 2592 + 8 * h.ndim, h.dimNames[..h.ndim], Times(h.ndim, 64));
    }
    assert Trimmed(h) by {
      ParsedParts(f, p, h);
      PadExactly(h);
    }
    StandsIf(f, p, h);
  }

  lemma StandsIf(f: seq<byte>, p: nat, h: Header)
    requires h.Wf() && FixedStands(f, p, h) && At(f, p + 2592, Dims(h.dimSizes[..h.ndim]))
    requires At(f, p + 2592 + 8 * h.ndim, Flat(h.dimNames[..h.ndim]))
    ensures HeaderStands(f, p, h)
  {
    hide FixedStands;
    hide At;
  }

  /** What a header that has been read was put together from. */
  lemma ParsedParts(f: seq<byte>, p: nat, h: Header)
    requires h.Wf() && ParseHeader(f, p) == Some(h)
    ensures ParseFixed(f, p) == Some(h.(dimSizes := PadDims([]), dimNames := PadNames([])))
    ensures p + 2592 + 72 * h.ndim <= |f|
    ensures ParseDims(f, p + 2592, h.ndim) == h.dimSizes[..h.ndim]
    ensures Pieces(f, p + 2592 + 8 * h.ndim, Times(h.ndim, 64)) == h.dimNames[..h.ndim]
    ensures PadDims(h.dimSizes[..h.ndim]) == h.dimSizes && PadNames(h.dimNames[..h.ndim]) == h.dimNames
  {
    FixedForm(f, p);
    hide ParseFixed;
    hide ParseDims;
    hide Pieces;
    hide Times;
    hide PadDims;
    hide PadNames;
    hide Sum;
    var ds := ParseDims(f, p + 2592, h.ndim);
    var ns := Pieces(f, p + 2592 + 8 * h.ndim, Times(h.ndim, 64));
    assert PadDims(ds)[..|ds|] == ds && PadNames(ns)[..|ns|] == ns;
  }

  lemma HeaderFrom(f: seq<byte>, p: nat, h: Header)
    requires h.Wf() && HeaderStands(f, p, h) && Trimmed(h)
    ensures ParseHeader(f, p) == Some(h)
  {
    hide *;
    NamesWide(h);
    StandsHeader(f, p, h);
    FixedExactly(f, p, h);
    DimsExactly(f, p + 2592, h.dimSizes[..h.ndim]);
    PartsExactly(f, p + 2592 + 8 * h.ndim, h.dimNames[..h.ndim], Times(h.ndim, 64));
    PadExactly(h);
    HeaderParsed(f, p, h);
  }

  lemma StandsHeader(f: seq<byte>, p: nat, h: Header)
    requires h.Wf() && HeaderStands(f, p, h)
    ensures FixedStands(f, p, h) && At(f, p + 2592, Dims(h.dimSizes[..h.ndim]))
    ensures At(f, p + 2592 + 8 * h.ndim, Flat(h.dimNames[..h.ndim]))
  {
    hide FixedStands;
    hide At;
  }

  lemma HeaderParsed(f: seq<byte>, p: nat, h: Header)
    requires h.Wf() && h.ndim <= 7 && p + 2592 + 72 * h.ndim <= |f|
    requires ParseFixed(f, p) == Some(h.(dimSizes := PadDims([]), dimNames := PadNames([])))
    requires ParseDims(f, p + 2592, h.ndim) == h.dimSizes[..h.ndim]
    requires Pieces(f, p + 2592 + 8 * h.ndim, Times(h.ndim, 64)) == h.dimNames[..h.ndim]
    requires PadDims(h.dimSizes[..h.ndim]) == h.dimSizes && PadNames(h.dimNames[..h.ndim]) == h.dimNames
    ensures ParseHeader(f, p) == Some(h)
  {
    hide ParseFixed;
    hide ParseDims;
    hide Pieces;
    hide PadDims;
    hide PadNames;
  }

  lemma FixedForm(f: seq<byte>, p: nat)
    ensures match ParseFixed(f, p)
            case None => true
            case Some(g) => g.dimSizes == PadDims([]) && g.dimNames == PadNames([]) && p + 2592 <= |f|
  {
    hide PadDims;
    hide PadNames;
  }

  lemma NamesWide(h: Header)
    requires h.Wf()
    ensures h.ndim <= 7 && |h.dimSizes| == |h.dimNames| == 7
    ensures Lengths(h.dimNames[..h.ndim]) == Times(h.ndim, 64) && Sum(Times(h.ndim, 64)) == 64 * h.ndim
  {
  }

  /** Padding what is in use gives the arrays exactly when there is nothing more in them. */
  lemma PadExactly(h: Header)
    requires h.Wf()
    ensures PadDims(h.dimSizes[..h.ndim]) == h.dimSizes && PadNames(h.dimNames[..h.ndim]) == h.dimNames
            <==> Trimmed(h)
  {
    var ds, ns := h.dimSizes[..h.ndim], h.dimNames[..h.ndim];
    if Trimmed(h) {
      assert forall k :: 0 <= k < 7 ==> PadDims(ds)[k] == h.dimSizes[k];
      assert forall k :: 0 <= k < 7 ==> PadNames(ns)[k] == h.dimNames[k];
    }
  }

  // ---------------------------------------------------------------- all headers

  predicate HeadersStand(f: seq<byte>, p: nat, hs: seq<Header>)
    requires forall i :: 0 <= i < |hs| ==> hs[i].Wf()
    decreases hs
  {
    hs == [] || (HeaderStands(f, p, hs[0]) && Trimmed(hs[0]) && HeadersStand(f, p + HeaderLen(hs[0]), hs[1..]))
  }

  lemma {:induction false} HeadersExactly(f: seq<byte>, p: nat, hs: seq<Header>)
    requires forall i :: 0 <= i < |hs| ==> hs[i].Wf()
    ensures ParseHeaders(f, p, |hs|) == Some(hs) <==> HeadersStand(f, p, hs)
    decreases hs
  {
    hide ParseHeader;
    hide HeaderStands;
    hide Trimmed;
    hide Header.Wf;
    if hs != [] {
      HeaderExactly(f, p, hs[0]);
      HeadersExactly(f, p + HeaderLen(hs[0]), hs[1..]);
      assert hs == [hs[0]] + hs[1..];
      if ParseHeaders(f, p, |hs|) == Some(hs) {
        var h, t := ParseHeader(f, p).value, ParseHeaders(f, p + HeaderLen(ParseHeader(f, p).value), |hs| - 1);
        assert ([h] + t.value)[0] == h && ([h] + t.value)[1..] == t.value;
      }
    }
  }

  // ---------------------------------------------------------------- the record

  predicate RecordStands(f: seq<byte>, s: Schema, r: Record)
    requires r.Wf(s)
  {
    var o := SplitOff(s, r.headers);
    && At(f, 0, Magic(Rec, s.dom, Start)) && At(f, 16, U64(|r.payload|)) && At(f, 24, Flat(r.attrs))
    && s.HeaderBase() <= |f| && HeadersStand(f, s.HeaderBase(), r.headers)
    && At(f, o, Magic(Rec, s.dom, Split)) && At(f, o + 8, r.payload)
    && At(f, o + 8 + |r.payload|, Magic(Rec, s.dom, End))
  }

  /** A reader accepts a file as a record exactly when the record stands in it. */
  lemma RecordExactly(f: seq<byte>, s: Schema, r: Record)
    requires s.Valid() && r.Wf(s)
    ensures ParseRecord(f, s) == Some(r) <==> RecordStands(f, s, r)
  {
    hide *;
    if ParseRecord(f, s) == Some(r) {
      RecordTo(f, s, r);
    }
    if RecordStands(f, s, r) {
      RecordFrom(f, s, r);
    }
  }

  lemma WfParts(s: Schema, r: Record)
    requires r.Wf(s)
    ensures s.Valid() && s.nheaderField < |s.widths| == |r.attrs| && Lengths(r.attrs) == s.widths
    ensures |r.headers| < 0x1_0000_0000 && |r.payload| < 0x1_0000_0000_0000_0000
    ensures r.attrs[s.nheaderField] == U32(|r.headers|) && forall i :: 0 <= i < |r.headers| ==> r.headers[i].Wf()
    ensures 24 + Sum(s.widths) <= s.HeaderBase() && s.widths[s.nheaderField] == 4
  {
    hide Sum;
    assert |r.attrs| == |Lengths(r.attrs)|;
  }

  lemma RecordTo(f: seq<byte>, s: Schema, r: Record)
    requires s.Valid() && r.Wf(s) && ParseRecord(f, s) == Some(r)
    ensures RecordStands(f, s, r)
  {
    hide *;
    WfParts(s, r);
    ParsedRecord(f, s, r);
    PartsExactly(f, 24, r.attrs, s.widths);
    HeadersExactly(f, s.HeaderBase(), r.headers);
    AtSlice(f, SplitOff(s, r.headers) + 8, r.payload);
    Get64(f, 16, |r.payload|);
    RecordStandsIf(f, s, r);
  }

  lemma RecordStandsIf(f: seq<byte>, s: Schema, r: Record)
    requires r.Wf(s) && |r.payload| < 0x1_0000_0000_0000_0000
    requires At(f, 0, Magic(Rec, s.dom, Start)) && At(f, 16, U64(|r.payload|)) && At(f, 24, Flat(r.attrs))
    requires s.HeaderBase() <= |f| && (forall i :: 0 <= i < |r.headers| ==> r.headers[i].Wf())
    requires HeadersStand(f, s.HeaderBase(), r.headers)
    requires var o := SplitOff(s, r.headers);
             && At(f, o, Magic(Rec, s.dom, Split)) && At(f, o + 8, r.payload)
             && At(f, o + 8 + |r.payload|, Magic(Rec, s.dom, End))
    ensures RecordStands(f, s, r)
  {
    hide At;
    hide Magic;
    hide U64;
    hide Flat;
    hide HeadersStand;
    hide SplitOff;
    hide Schema.HeaderBase;
    hide Record.Wf;
  }

  /** What a record that has been read was put together from. */
  lemma ParsedRecord(f: seq<byte>, s: Schema, r: Record)
    requires s.Valid() && r.Wf(s) && ParseRecord(f, s) == Some(r)
    ensures At(f, 0, Magic(Rec, s.dom, Start)) && 24 + Sum(s.widths) <= s.HeaderBase() <= |f|
    ensures Pieces(f, 24, s.widths) == r.attrs && ParseHeaders(f, s.HeaderBase(), |r.headers|) == Some(r.headers)
    ensures |f| >= 24 && GetU64(f[16..24]) == |r.payload|
    ensures var o := SplitOff(s, r.headers);
            && At(f, o, Magic(Rec, s.dom, Split)) && At(f, o + 8 + |r.payload|, Magic(Rec, s.dom, End))
            && o + 8 + |r.payload| <= |f| && f[o + 8..o + 8 + |r.payload|] == r.payload
  {
    hide *;
    WfParts(s, r);
    CountBack(|r.headers|);
    ParsedIs(f, s, r);
    BodyIs(f, SplitOff(s, r.headers), s.dom, GetU64(f[16..24]));
  }

  lemma ParsedIs(f: seq<byte>, s: Schema, r: Record)
    requires s.Valid() && ParseRecord(f, s) == Some(r)
    ensures At(f, 0, Magic(Rec, s.dom, Start)) && 24 + Sum(s.widths) <= s.HeaderBase() <= |f|
    ensures Pieces(f, 24, s.widths) == r.attrs && |r.attrs| == |s.widths| && |r.attrs[s.nheaderField]| == 4
    ensures ParseHeaders(f, s.HeaderBase(), GetU32(r.attrs[s.nheaderField])) == Some(r.headers)
    ensures ParseBody(f, SplitOff(s, r.headers), s.dom, GetU64(f[16..24])) == Some(r.payload)
  {
    hide At;
    hide Magic;
    hide Pieces;
    hide ParseHeaders;
    hide ParseBody;
    hide SplitOff;
    hide Sum;
    hide GetU32;
    hide GetU64;
  }

  lemma BodyIs(f: seq<byte>, o: nat, d: Domain, size: nat)
    ensures match ParseBody(f, o, d, size)
            case None => true
            case Some(b) =>
              && |b| == size && At(f, o, Magic(Rec, d, Split)) && At(f, o + 8 + size, Magic(Rec, d, End))
              && o + 8 + size <= |f| && f[o + 8..o + 8 + size] == b
  {
    hide Magic;
  }

  lemma RecordFrom(f: seq<byte>, s: Schema, r: Record)
    requires s.Valid() && r.Wf(s) && RecordStands(f, s, r)
    ensures ParseRecord(f, s) == Some(r)
  {
    hide *;
    WfParts(s, r);
    CountBack(|r.headers|);
    StandsRecord(f, s, r);
    PartsExactly(f, 24, r.attrs, s.widths);
    HeadersExactly(f, s.HeaderBase(), r.headers);
    Get64(f, 16, |r.payload|);
    BodyFrom(f, SplitOff(s, r.headers), s.dom, r.payload);
    ParsedFrom(f, s, r);
  }

  lemma StandsRecord(f: seq<byte>, s: Schema, r: Record)
    requires r.Wf(s) && RecordStands(f, s, r)
    ensures forall i :: 0 <= i < |r.headers| ==> r.headers[i].Wf()
    ensures |r.payload| < 0x1_0000_0000_0000_0000
    ensures At(f, 0, Magic(Rec, s.dom, Start)) && At(f, 16, U64(|r.payload|)) && At(f, 24, Flat(r.attrs))
    ensures s.HeaderBase() <= |f| && HeadersStand(f, s.HeaderBase(), r.headers)
    ensures var o := SplitOff(s, r.headers);
            && At(f, o, Magic(Rec, s.dom, Split)) && At(f, o + 8, r.payload)
            && At(f, o + 8 + |r.payload|, Magic(Rec, s.dom, End))
  {
    hide At;
    hide Magic;
    hide U64;
    hide Flat;
    hide HeadersStand;
    hide SplitOff;
    hide Schema.HeaderBase;
  }

  lemma BodyFrom(f: seq<byte>, o: nat, d: Domain, payload: seq<byte>)
    requires At(f, o, Magic(Rec, d, Split)) && At(f, o + 8, payload) && At(f, o + 8 + |payload|, Magic(Rec, d, End))
    ensures ParseBody(f, o, d, |payload|) == Some(payload)
  {
    AtSlice(f, o + 8, payload);
    hide Magic;
    hide At;
  }

  lemma ParsedFrom(f: seq<byte>, s: Schema, r: Record)
    requires s.Valid() && At(f, 0, Magic(Rec, s.dom, Start)) && 24 + Sum(s.widths) <= s.HeaderBase() <= |f|
    requires Pieces(f, 24, s.widths) == r.attrs && |r.attrs[s.nheaderField]| == 4
    requires ParseHeaders(f, s.HeaderBase(), GetU32(r.attrs[s.nheaderField])) == Some(r.headers)
    requires GetU64(f[16..24]) == |r.payload|
    requires ParseBody(f, SplitOff(s, r.headers), s.dom, |r.payload|) == Some(r.payload)
    ensures ParseRecord(f, s) == Some(r)
  {
    hide At;
    hide Magic;
    hide Pieces;
    hide ParseHeaders;
    hide ParseBody;
    hide SplitOff;
    hide Sum;
    hide GetU32;
    hide GetU64;
  }

  lemma CountBack(n: u32)
    ensures GetU32(U32(n)) == n
  {
  }
}
