/** Writing and reading whole .tpbr records through a file cursor. */
module RecordIO {
  import opened Bytes
  import opened Common
  import opened Signature
  import opened Layout
  import opened Disk

  // ---------------------------------------------------------------- writing

  /** A write at the end of a file appends. */
  lemma WriteAppends(f: seq<byte>, s: seq<byte>)
    ensures Overwrite(f, |f|, s) == f + s
  {
  }

  method Append(file: DiskFile, s: seq<byte>)
    requires file.pos == |file.data|
    modifies file
    ensures file.data == old(file.data) + s && file.pos == |file.data|
  {
    WriteAppends(file.data, s);
    file.Write(s);
  }

  lemma {:induction false} DimsSnoc(ds: seq<u64>, j: nat)
    requires j < |ds|
    ensures Dims(ds[..j + 1]) == Dims(ds[..j]) + U64(ds[j])
  {
    if j == 0 {
      assert ds[..1] == [ds[0]];
    } else {
      DimsSnoc(ds[1..], j - 1);
      assert ds[..j + 1][1..] == ds[1..][..j] && ds[..j][1..] == ds[1..][..j - 1];
    }
  }

  lemma {:induction false} FlatSnoc(ps: seq<seq<byte>>, j: nat)
    requires j < |ps|
    ensures Flat(ps[..j + 1]) == Flat(ps[..j]) + ps[j]
  {
    if j == 0 {
      assert ps[..1] == [ps[0]];
    } else {
      FlatSnoc(ps[1..], j - 1);
      assert ps[..j + 1][1..] == ps[1..][..j] && ps[..j][1..] == ps[1..][..j - 1];
    }
  }

  lemma {:induction false} HeadersSnoc(hs: seq<Header>, j: nat)
    requires j < |hs| && forall i :: 0 <= i < |hs| ==> hs[i].Wf()
    ensures HeadersBytes(hs[..j + 1]) == HeadersBytes(hs[..j]) + HeaderBytes(hs[j])
  {
    hide HeaderBytes;
    if j == 0 {
      assert hs[..1] == [hs[0]];
    } else {
      HeadersSnoc(hs[1..], j - 1);
      assert hs[..j + 1][1..] == hs[1..][..j] && hs[..j][1..] == hs[1..][..j - 1];
    }
  }

  method WriteScalars(file: DiskFile, h: Header)
    requires file.pos == |file.data|
    modifies file
    ensures file.data == old(file.data) + HeaderScalars(h) && file.pos == |file.data|
  {
    hide U32;
    hide U64;
    hide UnLe;
    Append(file, U32(FIXED_HEADER_SIZE));
    Append(file, U32(h.ndim));
    Append(file, U64(h.dataSize));
    Append(file, U32(h.typeBits));
    Append(file, U32(h.reserve));
    Append(file, U64(h.uattr));
  }

  method WriteDims(file: DiskFile, ds: seq<u64>, n: nat)
    requires file.pos == |file.data| && n <= |ds|
    modifies file
    ensures file.data == old(file.data) + Dims(ds[..n]) && file.pos == |file.data|
  {
    var j := 0;
    while j < n
      invariant j <= n && file.pos == |file.data|
      invariant file.data == old(file.data) + Dims(ds[..j])
    {
      DimsSnoc(ds, j);
      Append(file, U64(ds[j]));
      j := j + 1;
    }
  }

  method WritePieces(file: DiskFile, ps: seq<seq<byte>>, n: nat)
    requires file.pos == |file.data| && n <= |ps|
    modifies file
    ensures file.data == old(file.data) + Flat(ps[..n]) && file.pos == |file.data|
  {
    var j := 0;
    while j < n
      invariant j <= n && file.pos == |file.data|
      invariant file.data == old(file.data) + Flat(ps[..j])
    {
      FlatSnoc(ps, j);
      Append(file, ps[j]);
      j := j + 1;
    }
  }

  method WriteHeader(file: DiskFile, h: Header)
    requires file.pos == |file.data| && h.Wf()
    modifies file
    ensures file.data == old(file.data) + HeaderBytes(h) && file.pos == |file.data|
  {
    hide HeaderScalars;
    hide Dims;
    hide Flat;
    WriteScalars(file, h);
    Append(file, h.name);
    Append(file, h.tag);
    Append(file, h.note);
    WriteDims(file, h.dimSizes, h.ndim);
    WritePieces(file, h.dimNames, h.ndim);
  }

  method WriteHeaders(file: DiskFile, hs: seq<Header>)
    requires file.pos == |file.data| && forall i :: 0 <= i < |hs| ==> hs[i].Wf()
    modifies file
    ensures file.data == old(file.data) + HeadersBytes(hs) && file.pos == |file.data|
  {
    hide HeaderBytes;
    ghost var f0 := file.data;
    var i := 0;
    while i < |hs|
      invariant i <= |hs| && file.pos == |file.data|
      invariant file.data == f0 + HeadersBytes(hs[..i])
    {
      HeadersSnoc(hs, i);
      WriteHeader(file, hs[i]);
      i := i + 1;
    }
    assert hs[..i] == hs;
  }

  /** tpb_raf_record_write_{task,tbatch,kernel,rtenv} on a file opened "wb". */
  method WriteRecord(file: DiskFile, s: Schema, r: Record)
    requires r.Wf(s) && file.data == [] && file.pos == 0
    modifies file
    ensures file.data == Image(s, r)
  {
    hide Magic;
    hide U64;
    hide Zeros;
    hide Flat;
    hide HeadersBytes;
    hide Sum;
    Append(file, Magic(Rec, s.dom, Start));
    Append(file, U64(s.MetaSize(|r.headers|)));
    Append(file, U64(|r.payload|));
    WritePieces(file, r.attrs, |r.attrs|);
    assert r.attrs[..|r.attrs|] == r.attrs;
    Append(file, Zeros(s.reserveLen));
    assert file.data == Preamble(s, r);
    WriteHeaders(file, r.headers);
    Append(file, Magic(Rec, s.dom, Split));
    Append(file, r.payload);
    Append(file, Magic(Rec, s.dom, End));
  }

  // ---------------------------------------------------------------- what a reader makes of a file

  function ParseDims(f: seq<byte>, p: nat, n: nat): (ds: seq<u64>)
    requires p + 8 * n <= |f|
    ensures |ds| == n
    decreases n
  {
    if n == 0 then [] else [GetU64(f[p..p + 8])] + ParseDims(f, p + 8, n - 1)
  }

  /** Consecutive pieces of the given widths. */
  function Pieces(f: seq<byte>, p: nat, ws: seq<nat>): (ps: seq<seq<byte>>)
    requires p + Sum(ws) <= |f|
    ensures |ps| == |ws| && forall i :: 0 <= i < |ws| ==> |ps[i]| == ws[i]
    decreases ws
  {
    if ws == [] then [] else [f[p..p + ws[0]]] + Pieces(f, p + ws[0], ws[1..])
  }

  function Times(n: nat, w: nat): (ws: seq<nat>)
    ensures |ws| == n && forall i :: 0 <= i < n ==> ws[i] == w
    ensures Sum(ws) == n * w
  {
    if n == 0 then [] else
      var t := Times(n - 1, w);
      assert ([w] + t)[1..] == t;
      [w] + t
  }

  function PadDims(ds: seq<u64>): (r: seq<u64>)
    requires |ds| <= 7
    ensures |r| == 7 && r[..|ds|] == ds && forall j :: |ds| <= j < 7 ==> r[j] == 0
  {
    ds + seq(7 - |ds|, _ => 0)
  }

  function PadNames(ns: seq<seq<byte>>): (r: seq<seq<byte>>)
    requires |ns| <= 7
    ensures |r| == 7 && r[..|ns|] == ns && forall j :: |ns| <= j < 7 ==> r[j] == Zeros(64)
  {
    ns + seq(7 - |ns|, _ => Zeros(64))
  }

  /** The part of a header before its dimensions; the structure is zero-filled beforehand. */
  function ParseFixed(f: seq<byte>, p: nat): Option<Header> {
    if p + 2592 > |f| then None
    else
      Some(Header(GetU32(f[p..p + 4]), GetU32(f[p + 4..p + 8]), GetU64(f[p + 8..p + 16]),
                  GetU32(f[p + 16..p + 20]), GetU32(f[p + 20..p + 24]), GetU64(f[p + 24..p + 32]),
                  f[p + 32..p + 288], f[p + 288..p + 544], f[p + 544..p + 2592],
                  PadDims([]), PadNames([])))
  }

  /** An ndim above 7 would run past the arrays of the structure; the model rejects it. */
  function ParseHeader(f: seq<byte>, p: nat): Option<Header> {
    match ParseFixed(f, p)
    case None => None
    case Some(h) =>
      if h.ndim > 7 || p + 2592 + 72 * h.ndim > |f| then None
      else
        Some(h.(dimSizes := PadDims(ParseDims(f, p + 2592, h.ndim)),
                dimNames := PadNames(Pieces(f, p + 2592 + 8 * h.ndim, Times(h.ndim, 64)))))
  }

  function Prepend(hs: seq<Header>, t: Option<seq<Header>>): Option<seq<Header>> {
    match t
    case None => None
    case Some(u) => Some(hs + u)
  }

  function ParseHeaders(f: seq<byte>, p: nat, n: nat): Option<seq<Header>>
    decreases n
  {
    if n == 0 then Some([])
    else
      match ParseHeader(f, p)
      case None => None
      case Some(h) =>
        Prepend([h], ParseHeaders(f, p + HeaderLen(h), n - 1))
  }

  function ParseBody(f: seq<byte>, o: nat, d: Domain, size: nat): Option<seq<byte>> {
    if At(f, o, Magic(Rec, d, Split)) && At(f, o + 8 + size, Magic(Rec, d, End))
    then Some(f[o + 8..o + 8 + size]) else None
  }

  /** tpb_raf_record_read_{task,tbatch,kernel,rtenv}. metasize is read and ignored; bytes after
      END are not looked at. */
  function ParseRecord(f: seq<byte>, s: Schema): Option<Record>
    requires s.Valid()
  {
    if !At(f, 0, Magic(Rec, s.dom, Start)) || s.HeaderBase() > |f| then None
    else
      var attrs := Pieces(f, 24, s.widths);
      match ParseHeaders(f, s.HeaderBase(), GetU32(attrs[s.nheaderField]))
      case None => None
      case Some(hs) =>
        match ParseBody(f, SplitOff(s, hs), s.dom, GetU64(f[16..24]))
        case None => None
        case Some(payload) => Some(Record(attrs, hs, payload))
  }

  // ---------------------------------------------------------------- the round trip

  /** What survives storage of a header: block_size becomes 3096 and everything past ndim is lost. */
  function Stored(h: Header): (h': Header)
    requires h.Wf()
    ensures h'.Wf()
  {
    h.(blockSize := FIXED_HEADER_SIZE,
       dimSizes := PadDims(h.dimSizes[..h.ndim]),
       dimNames := PadNames(h.dimNames[..h.ndim]))
  }

  function StoredAll(hs: seq<Header>): (hs': seq<Header>)
    requires forall i :: 0 <= i < |hs| ==> hs[i].Wf()
    ensures |hs'| == |hs| && forall i :: 0 <= i < |hs| ==> hs'[i] == Stored(hs[i])
  {
    if hs == [] then [] else [Stored(hs[0])] + StoredAll(hs[1..])
  }

  /** Every record file is the file of a record in stored form. */
  lemma {:induction false} StoredBytes(hs: seq<Header>)
    requires forall i :: 0 <= i < |hs| ==> hs[i].Wf()
    ensures HeadersBytes(StoredAll(hs)) == HeadersBytes(hs) && StoredAll(StoredAll(hs)) == StoredAll(hs)
    decreases hs
  {
    hide Dims;
    hide Flat;
    if hs != [] {
      StoredBytes(hs[1..]);
      StoredOnce(hs[0]);
      assert StoredAll(hs)[1..] == StoredAll(hs[1..]);
    }
  }

  lemma StoredOnce(h: Header)
    requires h.Wf()
    ensures HeaderBytes(Stored(h)) == HeaderBytes(h) && Stored(Stored(h)) == Stored(h)
  {
    hide Dims;
    hide Flat;
    hide U32;
    hide U64;
    var d := Stored(h);
    assert d.dimSizes[..d.ndim] == h.dimSizes[..h.ndim] && d.dimNames[..d.ndim] == h.dimNames[..h.ndim];
  }

  /** The record as a reader returns it. */
  function Reread(s: Schema, r: Record): (r': Record)
    requires r.Wf(s)
    ensures r'.Wf(s)
  {
    r.(headers := StoredAll(r.headers))
  }

  lemma {:induction false} DimsParse(f: seq<byte>, p: nat, ds: seq<u64>)
    requires At(f, p, Dims(ds))
    ensures ParseDims(f, p, |ds|) == ds
    decreases ds
  {
    if ds != [] {
      AtAppend(f, p, U64(ds[0]), Dims(ds[1..]));
      AtSlice(f, p, U64(ds[0]));
      DimsParse(f, p + 8, ds[1..]);
      assert ds == [ds[0]] + ds[1..];
    }
  }

  lemma {:induction false} PiecesParse(f: seq<byte>, p: nat, ps: seq<seq<byte>>, ws: seq<nat>)
    requires At(f, p, Flat(ps)) && Lengths(ps) == ws
    ensures p + Sum(ws) <= |f| && Pieces(f, p, ws) == ps
    decreases ws
  {
    if ps != [] {
      LengthsHead(ps);
      hide *;
      FlatHead(ps);
      SumHead(ws);
      AtAppend(f, p, ps[0], Flat(ps[1..]));
      AtSlice(f, p, ps[0]);
      PiecesParse(f, p + ws[0], ps[1..], ws[1..]);
      PiecesHead(f, p, ws);
      SameList(Pieces(f, p, ws), ps);
    }
  }

  lemma LengthsHead(ps: seq<seq<byte>>)
    requires ps != []
    ensures Lengths(ps)[0] == |ps[0]| && Lengths(ps[1..]) == Lengths(ps)[1..]
  {
  }

  lemma SameList(xs: seq<seq<byte>>, ys: seq<seq<byte>>)
    requires xs != [] && ys != [] && xs[0] == ys[0] && xs[1..] == ys[1..]
    ensures xs == ys
  {
    assert xs == [xs[0]] + xs[1..] && ys == [ys[0]] + ys[1..];
  }

  lemma HeaderParse(f: seq<byte>, p: nat, h: Header)
    requires h.Wf() && At(f, p, HeaderBytes(h))
    ensures ParseHeader(f, p) == Some(Stored(h))
  {
    HeaderNdim(h);
    hide *;
    FixedParse(f, p, h);
    HeaderNamesParse(f, p, h);
    HeaderWhole(f, p, h);
    StoredIs(h);
  }

  lemma HeaderNdim(h: Header)
    requires h.Wf()
    ensures h.ndim <= 7 && |h.dimSizes| == |h.dimNames| == 7
  {
  }

  lemma StoredIs(h: Header)
    requires h.Wf()
    ensures h.ndim <= 7 && |h.dimSizes| == |h.dimNames| == 7
    ensures Stored(h) == h.(blockSize := FIXED_HEADER_SIZE, dimSizes := PadDims(h.dimSizes[..h.ndim]),
                            dimNames := PadNames(h.dimNames[..h.ndim]))
  {
    hide PadDims;
    hide PadNames;
  }

  /** A header from the part in front of its dimensions, and the dimensions. */
  lemma HeaderWhole(f: seq<byte>, p: nat, h: Header)
    requires h.ndim <= 7 && |h.dimSizes| == |h.dimNames| == 7 && p + 2592 + 72 * h.ndim <= |f|
    requires ParseFixed(f, p)
             == Some(h.(blockSize := FIXED_HEADER_SIZE, dimSizes := PadDims([]), dimNames := PadNames([])))
    requires ParseDims(f, p + 2592, h.ndim) == h.dimSizes[..h.ndim]
    requires Pieces(f, p + 2592 + 8 * h.ndim, Times(h.ndim, 64)) == h.dimNames[..h.ndim]
    ensures ParseHeader(f, p)
            == Some(h.(blockSize := FIXED_HEADER_SIZE, dimSizes := PadDims(h.dimSizes[..h.ndim]),
                       dimNames := PadNames(h.dimNames[..h.ndim])))
  {
    hide ParseFixed;
    hide ParseDims;
    hide Pieces;
    hide Times;
    hide PadDims;
    hide PadNames;
  }

  lemma FixedParse(f: seq<byte>, p: nat, h: Header)
    requires h.Wf() && At(f, p, HeaderBytes(h))
    ensures ParseFixed(f, p)
            == Some(h.(blockSize := FIXED_HEADER_SIZE, dimSizes := PadDims([]), dimNames := PadNames([])))
  {
    HeaderSlices(f, p, h);
    hide HeaderBytes;
    hide At;
    hide U32;
    hide U64;
    hide PadDims;
    hide PadNames;
  }

  lemma StoredLen(h: Header)
    requires h.Wf()
    ensures HeaderLen(Stored(h)) == HeaderLen(h)
  {
  }

  lemma HeaderNamesParse(f: seq<byte>, p: nat, h: Header)
    requires h.Wf() && At(f, p, HeaderBytes(h))
    ensures p + 2592 + 72 * h.ndim <= |f|
    ensures ParseDims(f, p + 2592, h.ndim) == h.dimSizes[..h.ndim]
    ensures Pieces(f, p + 2592 + 8 * h.ndim, Times(h.ndim, 64)) == h.dimNames[..h.ndim]
  {
    hide Dims;
    hide Flat;
    hide At;
    hide HeaderScalars;
    HeaderFieldsAt(f, p, h);
    HeaderBytesLen(h);
    hide HeaderBytes;
    var names := h.dimNames[..h.ndim];
    DimsParse(f, p + 2592, h.dimSizes[..h.ndim]);
    assert Lengths(names) == Times(h.ndim, 64);
    PiecesParse(f, p + 2592 + 8 * h.ndim, names, Times(h.ndim, 64));
  }

  lemma HeaderSlices(f: seq<byte>, p: nat, h: Header)
    requires h.Wf() && At(f, p, HeaderBytes(h))
    ensures p + 2592 <= |f|
    ensures f[p + 4..p + 8] == U32(h.ndim) && f[p + 8..p + 16] == U64(h.dataSize)
    ensures f[p..p + 4] == U32(FIXED_HEADER_SIZE)
    ensures f[p + 16..p + 20] == U32(h.typeBits) && f[p + 20..p + 24] == U32(h.reserve)
    ensures f[p + 24..p + 32] == U64(h.uattr)
    ensures f[p + 32..p + 288] == h.name && f[p + 288..p + 544] == h.tag
    ensures f[p + 544..p + 2592] == h.note
  {
    hide U32;
    hide U64;
    hide Dims;
    hide Flat;
    HeaderFieldsAt(f, p, h);
    hide HeaderBytes;
    AtSlice(f, p, U32(FIXED_HEADER_SIZE));
    AtSlice(f, p + 4, U32(h.ndim));
    AtSlice(f, p + 8, U64(h.dataSize));
    AtSlice(f, p + 16, U32(h.typeBits));
    AtSlice(f, p + 20, U32(h.reserve));
    AtSlice(f, p + 24, U64(h.uattr));
    AtSlice(f, p + 32, h.name);
    AtSlice(f, p + 288, h.tag);
    AtSlice(f, p + 544, h.note);
  }

  lemma {:induction false} HeadersParse(f: seq<byte>, p: nat, hs: seq<Header>)
    requires (forall i :: 0 <= i < |hs| ==> hs[i].Wf()) && At(f, p, HeadersBytes(hs))
    ensures ParseHeaders(f, p, |hs|) == Some(StoredAll(hs))
    ensures HeadersLen(StoredAll(hs)) == HeadersLen(hs)
    decreases hs
  {
    hide HeaderBytes;
    hide ParseHeader;
    hide Stored;
    hide HeaderLen;
    if hs != [] {
      var h, t := hs[0], hs[1..];
      AtAppend(f, p, HeaderBytes(h), HeadersBytes(t));
      hide At;
      HeaderBytesLen(h);
      HeaderParse(f, p, h);
      StoredLen(h);
      HeadersParse(f, p + HeaderLen(h), t);
      assert StoredAll(hs)[1..] == StoredAll(t);
    }
  }

  lemma BodyParse(f: seq<byte>, o: nat, d: Domain, payload: seq<byte>)
    requires BodyAt(f, o, d, payload)
    ensures ParseBody(f, o, d, |payload|) == Some(payload)
  {
    AtSlice(f, o + 8, payload);
  }

  lemma PreambleStart(f: seq<byte>, s: Schema, r: Record)
    requires r.Wf(s) && At(f, 0, Preamble(s, r))
    ensures At(f, 0, Magic(Rec, s.dom, Start)) && s.HeaderBase() <= |f|
    ensures At(f, 16, U64(|r.payload|)) && At(f, 24, Flat(r.attrs))
  {
    hide U64;
    AttrsLen(s, r);
    FiveAt(f, 0, Magic(Rec, s.dom, Start), U64(s.MetaSize(|r.headers|)), U64(|r.payload|),
           Flat(r.attrs), Zeros(s.reserveLen));
  }

  lemma NHeaderAt(f: seq<byte>, s: Schema, r: Record)
    requires r.Wf(s) && At(f, 0, Preamble(s, r))
    ensures At(f, s.FieldOff(s.nheaderField), U32(|r.headers|)) && At(f, 16, U64(|r.payload|))
    ensures At(f, 0, Magic(Rec, s.dom, Start))
  {
    hide Preamble;
    hide Magic;
    hide U64;
    hide Sum;
    PreambleFieldsAt(f, s, r);
    assert At(f, s.FieldOff(s.nheaderField), r.attrs[s.nheaderField]);
  }

  lemma PreambleParse(f: seq<byte>, s: Schema, r: Record)
    requires r.Wf(s) && At(f, 0, Preamble(s, r))
    ensures At(f, 0, Magic(Rec, s.dom, Start)) && s.HeaderBase() <= |f|
    ensures f[16..24] == U64(|r.payload|)
    ensures Pieces(f, 24, s.widths) == r.attrs
  {
    hide Flat;
    PreambleStart(f, s, r);
    hide Preamble;
    AtSlice(f, 16, U64(|r.payload|));
    PiecesParse(f, 24, r.attrs, s.widths);
  }

  /** Reading back what was written: the same attributes, the same headers up to what storage
      keeps of them, the same payload. */
  lemma RoundTrip(s: Schema, r: Record)
    requires r.Wf(s)
    ensures ParseRecord(Image(s, r), s) == Some(Reread(s, r))
  {
    hide Preamble;
    hide HeadersBytes;
    hide HeaderBytes;
    hide ParseHeaders;
    hide Pieces;
    hide Sum;
    var f := Image(s, r);
    ImageParts(f, s, r);
    hide Image;
    PreambleParse(f, s, r);
    HeadersParse(f, s.HeaderBase(), r.headers);
    BodyParse(f, SplitOff(s, r.headers), s.dom, r.payload);
    hide ParseBody;
    hide BodyAt;
  }

  // ---------------------------------------------------------------- reading

  method ReadDims(file: DiskFile, n: nat) returns (res: Option<seq<u64>>)
    requires file.pos <= |file.data|
    modifies file`pos
    ensures res == if old(file.pos) + 8 * n <= |file.data|
                   then Some(ParseDims(file.data, old(file.pos), n)) else None
    ensures res.Some? ==> file.pos == old(file.pos) + 8 * n
  {
    ghost var f, p := file.data, file.pos;
    var ds: seq<u64> := [];
    var j := 0;
    while j < n
      invariant j <= n && file.pos == p + 8 * j <= |f|
      invariant p + 8 * n <= |f| ==> ParseDims(f, p, n) == ds + ParseDims(f, file.pos, n - j)
    {
      var ok, v := file.ReadU64();
      if !ok {
        return None;
      }
      ds, j := ds + [v], j + 1;
    }
    assert ds + [] == ds;
    return Some(ds);
  }

  method ReadPieces(file: DiskFile, ws: seq<nat>) returns (res: Option<seq<seq<byte>>>)
    requires file.pos <= |file.data|
    modifies file`pos
    ensures res == if old(file.pos) + Sum(ws) <= |file.data|
                   then Some(Pieces(file.data, old(file.pos), ws)) else None
    ensures res.Some? ==> file.pos == old(file.pos) + Sum(ws)
  {
    hide *;
    ghost var f, p := file.data, file.pos;
    ghost var rest := ws;
    var ps: seq<seq<byte>> := [];
    var j := 0;
    PiecesStart(f, p, ws);
    while j < |ws|
      invariant j <= |ws| && rest == ws[j..] && file.pos <= |f|
      invariant p + Sum(ws) == file.pos + Sum(rest)
      invariant PiecesGo(f, p, ws, ps, file.pos, rest)
    {
      assert rest[0] == ws[j] && rest[1..] == ws[j + 1..];
      SumHead(rest);
      PiecesMove(f, p, ws, ps, file.pos, rest);
      var ok, s := file.Read(ws[j]);
      if !ok {
        return None;
      }
      ps, j := ps + [s], j + 1;
      rest := rest[1..];
    }
    PiecesEnd(f, p, ws, ps, file.pos, rest);
    return Some(ps);
  }

  /** The pieces read so far and those to come are all the pieces. */
  ghost predicate PiecesGo(f: seq<byte>, p: nat, ws: seq<nat>, ps: seq<seq<byte>>, q: nat, rest: seq<nat>) {
    p + Sum(ws) <= |f| ==> q + Sum(rest) <= |f| && Pieces(f, p, ws) == ps + Pieces(f, q, rest)
  }

  lemma PiecesStart(f: seq<byte>, p: nat, ws: seq<nat>)
    ensures PiecesGo(f, p, ws, [], p, ws)
  {
    hide Pieces;
    hide Sum;
    if p + Sum(ws) <= |f| {
      assert [] + Pieces(f, p, ws) == Pieces(f, p, ws);
    }
  }

  lemma PiecesMove(f: seq<byte>, p: nat, ws: seq<nat>, ps: seq<seq<byte>>, q: nat, rest: seq<nat>)
    requires PiecesGo(f, p, ws, ps, q, rest) && rest != []
    ensures q + rest[0] <= |f| ==> PiecesGo(f, p, ws, ps + [f[q..q + rest[0]]], q + rest[0], rest[1..])
  {
    SumHead(rest);
    if p + Sum(ws) <= |f| && q + rest[0] <= |f| {
      PiecesHead(f, q, rest);
      hide Pieces;
      hide Sum;
      assert Pieces(f, q, rest) == [f[q..q + rest[0]]] + Pieces(f, q + rest[0], rest[1..]);
    }
  }

  lemma PiecesEnd(f: seq<byte>, p: nat, ws: seq<nat>, ps: seq<seq<byte>>, q: nat, rest: seq<nat>)
    requires PiecesGo(f, p, ws, ps, q, rest) && rest == []
    ensures p + Sum(ws) <= |f| ==> Pieces(f, p, ws) == ps
    ensures Sum(rest) == 0
  {
    assert ps + [] == ps;
  }

  lemma SumHead(ws: seq<nat>)
    requires ws != []
    ensures Sum(ws) == ws[0] + Sum(ws[1..])
  {
  }

  lemma PiecesHead(f: seq<byte>, p: nat, ws: seq<nat>)
    requires ws != [] && p + Sum(ws) <= |f|
    ensures Pieces(f, p, ws)[0] == f[p..p + ws[0]]
    ensures Pieces(f, p, ws)[1..] == Pieces(f, p + ws[0], ws[1..])
  {
  }

  method ReadFixed(file: DiskFile) returns (res: Option<Header>)
    requires file.pos <= |file.data|
    modifies file`pos
    ensures res == ParseFixed(file.data, old(file.pos))
    ensures res.Some? ==> file.pos == old(file.pos) + 2592 <= |file.data|
  {
    hide U32;
    hide U64;
    hide PadDims;
    hide PadNames;
    var ok;
    var bs, nd, ds, tb, rs, ua;
    var name, tag, note;
    ok, bs := file.ReadU32();
    if !ok { return None; }
    ok, nd := file.ReadU32();
    if !ok { return None; }
    ok, ds := file.ReadU64();
    if !ok { return None; }
    ok, tb := file.ReadU32();
    if !ok { return None; }
    ok, rs := file.ReadU32();
    if !ok { return None; }
    ok, ua := file.ReadU64();
    if !ok { return None; }
    ok, name := file.Read(256);
    if !ok { return None; }
    ok, tag := file.Read(256);
    if !ok { return None; }
    ok, note := file.Read(2048);
    if !ok { return None; }
    return Some(Header(bs, nd, ds, tb, rs, ua, name, tag, note, PadDims([]), PadNames([])));
  }

  method ReadHeader(file: DiskFile) returns (res: Option<Header>)
    requires file.pos <= |file.data|
    modifies file`pos
    ensures res == ParseHeader(file.data, old(file.pos))
    ensures res.Some? ==> file.pos == old(file.pos) + HeaderLen(res.value) <= |file.data|
  {
    hide ParseFixed;
    hide Pieces;
    hide ParseDims;
    var h := ReadFixed(file);
    if h.None? || h.value.ndim > 7 { return None; }
    var nd := h.value.ndim;
    var dims := ReadDims(file, nd);
    if dims.None? { return None; }
    var names := ReadPieces(file, Times(nd, 64));
    if names.None? { return None; }
    return Some(h.value.(dimSizes := PadDims(dims.value), dimNames := PadNames(names.value)));
  }

  lemma {:induction false} HeadersLenSnoc(hs: seq<Header>, h: Header)
    ensures HeadersLen(hs + [h]) == HeadersLen(hs) + HeaderLen(h)
  {
    if hs == [] {
      assert hs + [h] == [h];
    } else {
      HeadersLenSnoc(hs[1..], h);
      assert (hs + [h])[1..] == hs[1..] + [h];
    }
  }

  method ReadHeaders(file: DiskFile, n: nat) returns (res: Option<seq<Header>>)
    requires file.pos <= |file.data|
    modifies file`pos
    ensures res == ParseHeaders(file.data, old(file.pos), n)
    ensures res.Some? ==> file.pos == old(file.pos) + HeadersLen(res.value) <= |file.data|
  {
    hide ParseHeader;
    hide ParseHeaders;
    hide Prepend;
    hide HeaderLen;
    hide HeadersLen;
    ghost var f, p := file.data, file.pos;
    ghost var rest := ParseHeaders(f, p, n);
    var hs: seq<Header> := [];
    var i := 0;
    HeadersLenNothing();
    PrependNothing(rest);
    while i < n
      invariant i <= n && file.pos == p + HeadersLen(hs) <= |f|
      invariant rest == ParseHeaders(f, file.pos, n - i)
      invariant ParseHeaders(f, p, n) == Prepend(hs, rest)
    {
      HeadersNext(f, file.pos, n - i);
      var h := ReadHeader(file);
      if h.None? {
        PrependNone(hs);
        return None;
      }
      rest := ParseHeaders(f, file.pos, n - i - 1);
      HeadersLenSnoc(hs, h.value);
      PrependMore(hs, h.value, rest);
      hs, i := hs + [h.value], i + 1;
    }
    HeadersNext(f, file.pos, 0);
    PrependDone(hs);
    return Some(hs);
  }

  lemma HeadersNext(f: seq<byte>, p: nat, n: nat)
    ensures ParseHeaders(f, p, n) ==
            if n == 0 then Some([])
            else match ParseHeader(f, p)
                 case None => None
                 case Some(h) => Prepend([h], ParseHeaders(f, p + HeaderLen(h), n - 1))
  {
  }

  lemma HeadersLenNothing()
    ensures HeadersLen([]) == 0
  {
  }

  lemma PrependNone(hs: seq<Header>)
    ensures Prepend(hs, None) == None
  {
  }

  lemma PrependDone(hs: seq<Header>)
    ensures Prepend(hs, Some([])) == Some(hs)
  {
    assert hs + [] == hs;
  }

  lemma PrependNothing(t: Option<seq<Header>>)
    ensures Prepend([], t) == t
  {
    assert t.Some? ==> [] + t.value == t.value;
  }

  lemma PrependMore(hs: seq<Header>, h: Header, t: Option<seq<Header>>)
    ensures Prepend(hs, Prepend([h], t)) == Prepend(hs + [h], t)
  {
    assert t.Some? ==> hs + ([h] + t.value) == hs + [h] + t.value;
  }

  method ReadBody(file: DiskFile, d: Domain, size: nat) returns (res: Option<seq<byte>>)
    requires file.pos <= |file.data|
    modifies file`pos
    ensures res == ParseBody(file.data, old(file.pos), d, size)
  {
    hide Magic;
    ghost var f, o := file.data, file.pos;
    AtSlice(f, o, Magic(Rec, d, Split));
    AtSlice(f, o + 8 + size, Magic(Rec, d, End));
    hide At;
    var ok, m := file.Read(8);
    if !ok || m != Magic(Rec, d, Split) { return None; }
    var payload;
    ok, payload := file.Read(size);
    if !ok { return None; }
    ok, m := file.Read(8);
    if !ok || m != Magic(Rec, d, End) { return None; }
    return Some(payload);
  }

  /** tpb_raf_record_read_{task,tbatch,kernel,rtenv} on a file just opened. */
  method ReadRecord(file: DiskFile, s: Schema) returns (res: Option<Record>)
    requires s.Valid() && file.pos == 0
    modifies file`pos
    ensures res == ParseRecord(file.data, s)
  {
    hide Magic;
    hide U64;
    hide U32;
    hide Sum;
    hide ParseHeaders;
    hide ParseBody;
    hide Pieces;
    ghost var f := file.data;
    AtSlice(f, 0, Magic(Rec, s.dom, Start));
    hide At;
    var ok, m := file.Read(8);
    if !ok || m != Magic(Rec, s.dom, Start) { return None; }
    var metaSize, size;
    ok, metaSize := file.ReadU64();
    if !ok { return None; }
    ok, size := file.ReadU64();
    if !ok { return None; }
    var attrs := ReadPieces(file, s.widths);
    if attrs.None? { return None; }
    var reserve;
    ok, reserve := file.Read(s.reserveLen);
    if !ok { return None; }
    var hs := ReadHeaders(file, GetU32(attrs.value[s.nheaderField]));
    if hs.None? { return None; }
    var payload := ReadBody(file, s.dom, size);
    if payload.None? { return None; }
    return Some(Record(attrs.value, hs.value, payload.value));
  }
}
