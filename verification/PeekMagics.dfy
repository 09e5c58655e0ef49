/** Locating SPLIT by scanning, and END from datasize, without parsing the metadata. */
module PeekMagics {
  import opened Bytes
  import opened Common
  import opened Signature
  import opened Layout
  import opened Disk
  import opened RecordIO

  /** The first position in [pos, hi] at which SPLIT stands; None also when the file ends first. */
  function FirstSplit(f: seq<byte>, d: Domain, pos: nat, hi: int): Option<nat>
    decreases hi - pos
  {
    if pos > hi || pos + 8 > |f| then None
    else if At(f, pos, Magic(Rec, d, Split)) then Some(pos)
    else FirstSplit(f, d, pos + 1, hi)
  }

  function SearchHi(f: seq<byte>, size: u64): int {
    if size <= |f| - 24 && |f| - 16 - size < |f| - 8 then |f| - 16 - size else |f| - 8
  }

  /** tpb_raf_record_peek_magics: the positions of the SPLIT and END signatures it returns. */
  function Peek(f: seq<byte>, d: Domain): Option<(nat, nat)> {
    if !At(f, 0, Magic(Rec, d, Start)) || |f| < 24 then None
    else
      var size := GetU64(f[16..24]);
      if SearchHi(f, size) < 24 then None
      else
        match FirstSplit(f, d, 24, SearchHi(f, size))
        case None => None
        case Some(p) =>
          var e := p + 8 + ToLong(size);
          if e < 0 || !At(f, e, Magic(Rec, d, End)) then None else Some((p, e))
  }

  method FindSplit(file: DiskFile, d: Domain, lo: nat, hi: int) returns (res: Option<nat>)
    modifies file`pos
    ensures res == FirstSplit(file.data, d, lo, hi)
  {
    hide Magic;
    hide At;
    var pos := lo;
    while pos <= hi
      invariant FirstSplit(file.data, d, lo, hi) == FirstSplit(file.data, d, pos, hi)
    {
      var ok := file.Seek(pos);
      var m;
      ok, m := file.Read(8);
      if !ok {
        return None;
      }
      AtSlice(file.data, pos, Magic(Rec, d, Split));
      if m == Magic(Rec, d, Split) {
        return Some(pos);
      }
      pos := pos + 1;
    }
    return None;
  }

  method PeekRecord(file: DiskFile, d: Domain) returns (res: Option<(nat, nat)>)
    requires file.pos == 0
    modifies file`pos
    ensures res == Peek(file.data, d)
  {
    hide Magic;
    hide At;
    hide FirstSplit;
    var ok := file.Expect(Magic(Rec, d, Start), 8);
    if !ok { return None; }
    var metasize, size;
    ok, metasize := file.ReadU64();
    if !ok { return None; }
    ok, size := file.ReadU64();
    if !ok { return None; }
    var fsize := |file.data|;
    var hi := fsize - 8;
    if size <= fsize - 24 {
      var byData := fsize - 8 - size - 8;
      if byData < hi {
        hi := byData;
      }
    }
    if hi < 24 { return None; }
    var p := FindSplit(file, d, 24, hi);
    if p.None? { return None; }
    var e := p.value + 8 + ToLong(size);
    if e + 8 > fsize {
      if At(file.data, e, Magic(Rec, d, End)) {
        AtFits(file.data, e, Magic(Rec, d, End));
      }
      return None;
    }
    ok := file.Seek(e);
    if !ok { return None; }
    ok := file.Expect(Magic(Rec, d, End), 8);
    return if ok then Some((p.value, e)) else None;
  }

  // ---------------------------------------------------------------- agreement with the layout

  lemma {:induction false} FirstSplitIs(f: seq<byte>, d: Domain, pos: nat, hi: int, o: nat)
    requires pos <= o <= hi && At(f, o, Magic(Rec, d, Split))
    ensures FirstSplit(f, d, pos, hi).Some?
    ensures FirstSplit(f, d, pos, hi).value == o <==>
            forall q :: pos <= q < o ==> !At(f, q, Magic(Rec, d, Split))
    decreases o - pos
  {
    hide Magic;
    hide At;
    if pos < o && !At(f, pos, Magic(Rec, d, Split)) {
      AtFits(f, o, Magic(Rec, d, Split));
      FirstSplitIs(f, d, pos + 1, hi, o);
    } else {
      AtFits(f, o, Magic(Rec, d, Split));
    }
  }

  lemma AtFits(f: seq<byte>, o: nat, s: seq<byte>)
    requires At(f, o, s)
    ensures o + |s| <= |f|
  {
  }

  /** The scan finds the SPLIT and END of a stored record exactly when no earlier metadata bytes
      form a SPLIT signature. */
  lemma PeekExact(s: Schema, r: Record)
    requires r.Wf(s)
    ensures var f, o := Image(s, r), SplitOff(s, r.headers);
            Peek(f, s.dom) == Some((o, o + 8 + |r.payload|)) <==>
            forall q :: 24 <= q < o ==> !At(f, q, Magic(Rec, s.dom, Split))
  {
    hide Image;
    hide Preamble;
    hide HeadersBytes;
    hide Magic;
    hide U64;
    hide Sum;
    hide HeadersLen;
    hide FirstSplit;
    var f, o := Image(s, r), SplitOff(s, r.headers);
    ImageParts(f, s, r);
    PreambleStart(f, s, r);
    AtSlice(f, 16, U64(|r.payload|));
    assert SearchHi(f, |r.payload|) == o;
    assert At(f, o, Magic(Rec, s.dom, Split)) && At(f, o + 8 + |r.payload|, Magic(Rec, s.dom, End));
    hide At;
    FirstSplitIs(f, s.dom, 24, o, o);
  }
}
