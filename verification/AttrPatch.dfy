/** Overwriting one fixed attribute of a stored record at its file offset. */
module AttrPatch {
  import opened Bytes
  import opened Signature
  import opened Layout
  import opened RecordIO

  lemma {:induction false} FlatSet(ps: seq<seq<byte>>, ws: seq<nat>, i: nat, v: seq<byte>)
    requires Lengths(ps) == ws && i < |ps| && |v| == ws[i]
    ensures Sum(ws[..i]) + |v| <= |Flat(ps)|
    ensures Overwrite(Flat(ps), Sum(ws[..i]), v) == Flat(ps[i := v])
    decreases ps
  {
    hide Overwrite;
    hide Flat;
    hide Sum;
    assert |ps[0]| == Lengths(ps)[0] == ws[0];
    FlatHead(ps);
    FlatHead(ps[i := v]);
    if i == 0 {
      OverwriteLeft(ps[0], Flat(ps[1..]), 0, v);
      OverwriteWhole(ps[0], v);
      assert ps[0 := v][1..] == ps[1..];
      SumNone(ws);
    } else {
      assert Lengths(ps[1..]) == ws[1..];
      FlatSet(ps[1..], ws[1..], i - 1, v);
      SumTake(ws, i);
      OverwriteRight(ps[0], Flat(ps[1..]), Sum(ws[1..][..i - 1]), v);
      assert ps[i := v][1..] == ps[1..][i - 1 := v];
    }
  }

  lemma SumNone(ws: seq<nat>)
    ensures Sum(ws[..0]) == 0
  {
  }

  lemma SumTake(ws: seq<nat>, i: nat)
    requires 0 < i <= |ws|
    ensures Sum(ws[..i]) == ws[0] + Sum(ws[1..][..i - 1])
  {
    assert ws[..i][1..] == ws[1..][..i - 1];
  }

  /** Replacing attribute field i of the file is replacing it in the record: no other attribute,
      header or payload byte changes. */
  lemma PatchAttr(s: Schema, r: Record, i: nat, v: seq<byte>)
    requires r.Wf(s) && i < |s.widths| && i != s.nheaderField && |v| == s.widths[i]
    ensures r.(attrs := r.attrs[i := v]).Wf(s)
    ensures Overwrite(Image(s, r), s.FieldOff(i), v) == Image(s, r.(attrs := r.attrs[i := v]))
  {
    AttrWf(s, r, i, v);
    hide *;
    var r' := r.(attrs := r.attrs[i := v]);
    var a, b := Before(s, r), Behind(s, r);
    FlatSet(r.attrs, s.widths, i, v);
    ImageAround(s, r);
    ImageAround(s, r');
    SameAround(s, r, r');
    FieldAt(s, i);
    InsideMiddle(a, Flat(r.attrs), b, Sum(s.widths[..i]), v);
  }

  /** What stands before the attributes of a file, and what stands behind them. */
  function Before(s: Schema, r: Record): (a: seq<byte>)
    requires r.Wf(s)
    ensures |a| == 24
  {
    Magic(Rec, s.dom, Start) + U64(s.MetaSize(|r.headers|)) + U64(|r.payload|)
  }

  function Behind(s: Schema, r: Record): seq<byte>
    requires r.Wf(s)
  {
    Zeros(s.reserveLen) + HeadersBytes(r.headers) + Magic(Rec, s.dom, Split) + r.payload + Magic(Rec, s.dom, End)
  }

  lemma SameAround(s: Schema, r: Record, r': Record)
    requires r.Wf(s) && r'.Wf(s) && r'.headers == r.headers && r'.payload == r.payload
    ensures Before(s, r') == Before(s, r) && Behind(s, r') == Behind(s, r)
  {
    hide Magic;
    hide U64;
    hide Zeros;
    hide HeadersBytes;
  }

  /** An attribute replaced by one of its width leaves a record of the schema. */
  lemma AttrWf(s: Schema, r: Record, i: nat, v: seq<byte>)
    requires r.Wf(s) && i < |s.widths| && i != s.nheaderField && |v| == s.widths[i]
    ensures i < |r.attrs| && Lengths(r.attrs) == s.widths && r.(attrs := r.attrs[i := v]).Wf(s)
  {
    assert Lengths(r.attrs[i := v]) == Lengths(r.attrs);
  }

  lemma FieldAt(s: Schema, i: nat)
    requires i <= |s.widths|
    ensures s.FieldOff(i) == 24 + Sum(s.widths[..i])
  {
  }

  /** A write inside the middle one of three parts. */
  lemma InsideMiddle(a: seq<byte>, m: seq<byte>, b: seq<byte>, o: nat, v: seq<byte>)
    requires o + |v| <= |m|
    ensures Overwrite(a + m + b, |a| + o, v) == a + Overwrite(m, o, v) + b
  {
    hide Overwrite;
    OverwriteRight(a, m, o, v);
    OverwriteLeft(a + m, b, |a| + o, v);
  }

  lemma ImageAround(s: Schema, r: Record)
    requires r.Wf(s)
    ensures Image(s, r) == Before(s, r) + Flat(r.attrs) + Behind(s, r)
  {
    hide Flat;
    hide Magic;
    hide U64;
    hide HeadersBytes;
    hide Zeros;
    hide Record.Wf;
  }

  /** Reading an attribute field at its offset. */
  lemma AttrStands(f: seq<byte>, s: Schema, r: Record, i: nat)
    requires r.Wf(s) && f == Image(s, r) && i < |s.widths|
    ensures s.FieldOff(i) + s.widths[i] <= |f| && f[s.FieldOff(i)..s.FieldOff(i) + s.widths[i]] == r.attrs[i]
    ensures At(f, 0, Magic(Rec, s.dom, Start))
  {
    hide Image;
    hide Preamble;
    hide Magic;
    hide Sum;
    ImageParts(f, s, r);
    PreambleFieldsAt(f, s, r);
    assert At(f, s.FieldOff(i), r.attrs[i]);
    assert |r.attrs[i]| == Lengths(r.attrs)[i];
    AtSlice(f, s.FieldOff(i), r.attrs[i]);
  }
}
