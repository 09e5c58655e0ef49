/** The .tpbe row log: fixed-width rows between START and END, appended to in place. */
module EntryLog {
  import opened Bytes
  import opened Common
  import opened Signature
  import opened Layout
  import opened Disk
  import opened RecordIO

  predicate RowsOf(rows: seq<seq<byte>>, w: nat) {
    forall i :: 0 <= i < |rows| ==> |rows[i]| == w
  }

  /** The file that holds the given rows. */
  function LogImage(d: Domain, rows: seq<seq<byte>>): seq<byte> {
    Magic(Entry, d, Start) + Flat(rows) + Magic(Entry, d, End)
  }

  // ---------------------------------------------------------------- appending

  /** File contents after _tpb_raf_l1_entry_append, or None when it fails without writing. */
  function Appended(f: seq<byte>, d: Domain, row: seq<byte>): Option<seq<byte>> {
    if f == [] then Some(LogImage(d, [row]))
    else if |f| < 16 || !At(f, |f| - 8, Magic(Entry, d, End)) then None
    else Some(f[..|f| - 8] + row + Magic(Entry, d, End))
  }

  method Append(file: DiskFile, d: Domain, row: seq<byte>) returns (ok: bool)
    requires file.pos == 0 && row != []
    modifies file
    ensures ok == Appended(old(file.data), d, row).Some?
    ensures file.data == if ok then Appended(old(file.data), d, row).value else old(file.data)
  {
    hide Magic;
    hide At;
    hide Overwrite;
    var fsize := |file.data|;
    if fsize == 0 {
      RecordIO.Append(file, Magic(Entry, d, Start));
      RecordIO.Append(file, row);
      RecordIO.Append(file, Magic(Entry, d, End));
      FlatOne(row);
      return true;
    }
    if fsize < 16 { return false; }
    ok := file.Seek(fsize - 8);
    ok := file.Expect(Magic(Entry, d, End), 8);
    if ok {
      ghost var f := file.data;
      ok := file.Seek(fsize - 8);
      file.Write(row);
      file.Write(Magic(Entry, d, End));
      GrowOverEnd(f, row, Magic(Entry, d, End));
    }
  }

  lemma FlatOne(row: seq<byte>)
    ensures Flat([row]) == row
  {
    assert [row][1..] == [];
  }

  /** A row and then END written over the old END extend the file by the row. */
  lemma GrowOverEnd(f: seq<byte>, row: seq<byte>, end: seq<byte>)
    requires |f| >= 8 && |end| == 8 && row != []
    ensures Overwrite(Overwrite(f, |f| - 8, row), |f| - 8 + |row|, end) == f[..|f| - 8] + row + end
  {
    var g := Overwrite(f, |f| - 8, row);
    var h := Overwrite(g, |f| - 8 + |row|, end);
    assert g[..|f| - 8 + |row|] == f[..|f| - 8] + row;
    assert |g| <= |f| + |row|;
  }

  lemma {:induction false} FlatAppend(ps: seq<seq<byte>>, p: seq<byte>)
    ensures Flat(ps + [p]) == Flat(ps) + p
  {
    if ps == [] {
      FlatOne(p);
      assert ps + [p] == [p];
    } else {
      FlatAppend(ps[1..], p);
      assert (ps + [p])[1..] == ps[1..] + [p];
    }
  }

  /** Appending in place refines appending to the list of rows. */
  lemma AppendRefines(d: Domain, rows: seq<seq<byte>>, row: seq<byte>)
    ensures Appended(LogImage(d, rows), d, row) == Some(LogImage(d, rows + [row]))
    ensures Appended([], d, row) == Some(LogImage(d, [row]))
  {
    var m, e := Magic(Entry, d, Start), Magic(Entry, d, End);
    var f := LogImage(d, rows);
    FlatAppend(rows, row);
    hide Magic;
    hide Flat;
    AtTail(m + Flat(rows), e);
    assert f[..|f| - 8] == m + Flat(rows);
    assert m + Flat(rows) + row == m + Flat(rows + [row]);
    FlatOne(row);
  }

  lemma AtTail(a: seq<byte>, b: seq<byte>)
    ensures At(a + b, |a|, b)
  {
  }

  // ---------------------------------------------------------------- listing

  /** _tpb_raf_l1_entry_list on an existing file. With no rows the END signature is not looked at. */
  function Listed(f: seq<byte>, d: Domain, w: nat): Option<seq<seq<byte>>>
    requires w > 0
  {
    if |f| < 16 || (|f| - 16) % w != 0 || !At(f, 0, Magic(Entry, d, Start)) then None
    else
      var n := (|f| - 16) / w;
      if n == 0 then Some([])
      else if 8 + Sum(Times(n, w)) > |f| || !At(f, |f| - 8, Magic(Entry, d, End)) then None
      else Some(Pieces(f, 8, Times(n, w)))
  }

  method List(file: DiskFile, d: Domain, w: nat) returns (res: Option<seq<seq<byte>>>)
    requires file.pos == 0 && w > 0
    modifies file`pos
    ensures res == Listed(file.data, d, w)
  {
    hide Magic;
    hide At;
    hide Pieces;
    var fsize := |file.data|;
    if fsize < 16 { return None; }
    var dataSize := fsize - 16;
    if dataSize % w != 0 { return None; }
    var n: nat := dataSize / w;
    var ok := file.Expect(Magic(Entry, d, Start), 8);
    if !ok { return None; }
    if n == 0 { return Some([]); }
    res := ReadPieces(file, Times(n, w));
    if res.None? { return; }
    assert n * w == dataSize;
    ok := file.Expect(Magic(Entry, d, End), 8);
    if !ok { return None; }
  }

  lemma {:induction false} FlatPieces(f: seq<byte>, p: nat, ws: seq<nat>)
    requires p + Sum(ws) <= |f|
    ensures At(f, p, Flat(Pieces(f, p, ws))) && |Flat(Pieces(f, p, ws))| == Sum(ws)
    decreases ws
  {
    if ws != [] {
      var ps := Pieces(f, p, ws);
      PiecesHead(f, p, ws);
      FlatPieces(f, p + ws[0], ws[1..]);
      AtSlice(f, p, ps[0]);
      AtAppend(f, p, ps[0], Flat(ps[1..]));
    }
  }

  lemma LogParts(f: seq<byte>, d: Domain, rows: seq<seq<byte>>)
    ensures f == LogImage(d, rows) <==>
            At(f, 0, Magic(Entry, d, Start)) && At(f, 8, Flat(rows))
            && At(f, 8 + |Flat(rows)|, Magic(Entry, d, End)) && |f| == 16 + |Flat(rows)|
  {
    var m, e := Magic(Entry, d, Start), Magic(Entry, d, End);
    hide Flat;
    AtWhole(f, LogImage(d, rows));
    AtAppend(f, 0, m, Flat(rows));
    AtAppend(f, 0, m + Flat(rows), e);
  }

  lemma RowsLen(rows: seq<seq<byte>>, w: nat)
    requires RowsOf(rows, w)
    ensures |Flat(rows)| == |rows| * w && Lengths(rows) == Times(|rows|, w)
  {
    FlatLenUniform(rows, w);
    assert Lengths(rows) == Times(|rows|, w);
  }

  /** A listing of at least one row succeeds with exactly the rows the file holds. */
  lemma ListExact(f: seq<byte>, d: Domain, w: nat, rows: seq<seq<byte>>)
    requires w > 0 && rows != []
    ensures Listed(f, d, w) == Some(rows) <==> f == LogImage(d, rows) && RowsOf(rows, w)
  {
    hide Magic;
    hide Flat;
    hide Pieces;
    hide LogImage;
    LogParts(f, d, rows);
    if Listed(f, d, w) == Some(rows) {
      var n := (|f| - 16) / w;
      FlatPieces(f, 8, Times(n, w));
    }
    if f == LogImage(d, rows) && RowsOf(rows, w) {
      RowsLen(rows, w);
      DivUnique(|rows| * w, w, |rows|, 0);
      assert 0 < |rows| * w;
      PiecesParse(f, 8, rows, Times(|rows|, w));
    }
  }

  /** A log without rows lists as empty. */
  lemma ListEmpty(d: Domain, w: nat)
    requires w > 0
    ensures Listed(LogImage(d, []), d, w) == Some([])
  {
    var m, e := Magic(Entry, d, Start), Magic(Entry, d, End);
    hide Magic;
    AtAppend(m + [] + e, 0, m, [] + e);
    assert m + [] + e == m + ([] + e);
    AtWhole(m + ([] + e), m + ([] + e));
  }

  /** What an append adds, a later listing shows, after everything that was there before. */
  lemma ListAfterAppend(d: Domain, w: nat, rows: seq<seq<byte>>, row: seq<byte>)
    requires w > 0 && RowsOf(rows, w) && |row| == w
    ensures Appended(LogImage(d, rows), d, row).Some?
    ensures Listed(Appended(LogImage(d, rows), d, row).value, d, w) == Some(rows + [row])
  {
    hide Listed;
    hide LogImage;
    AppendRefines(d, rows, row);
    ListExact(LogImage(d, rows + [row]), d, w, rows + [row]);
  }

  // ---------------------------------------------------------------- patching inside a row

  /** Overwriting inside row i, at the row's offset, overwrites that row. */
  lemma {:induction false} PatchAt(rows: seq<seq<byte>>, w: nat, i: nat, off: nat, o: nat, s: seq<byte>)
    requires RowsOf(rows, w) && i < |rows| && o + |s| <= w && off == i * w
    ensures off + o + |s| <= |Flat(rows)|
    ensures Overwrite(Flat(rows), off + o, s) == Flat(rows[i := Overwrite(rows[i], o, s)])
    decreases rows
  {
    hide Overwrite;
    hide Flat;
    var h, t := rows[0], rows[1..];
    var r := Overwrite(rows[i], o, s);
    var rows' := rows[i := r];
    FlatHead(rows);
    FlatHead(rows');
    assert |h| == w;
    if i == 0 {
      OverwriteLeft(h, Flat(t), o, s);
      assert rows'[1..] == t;
    } else {
      Less(i, w);
      PatchAt(t, w, i - 1, off - w, o, s);
      OverwriteRight(h, Flat(t), off - w + o, s);
      assert rows'[1..] == t[i - 1 := r];
    }
  }

  lemma RowOff(i: nat, w: nat) returns (off: nat)
    ensures off == i * w
  {
    MulMono(0, i, w);
    off := i * w;
  }

  lemma Less(i: nat, w: nat)
    requires i > 0
    ensures i * w - w == (i - 1) * w >= 0
  {
  }

  /** A write that stays inside row i changes that row and nothing else: no row is lost or moved. */
  lemma PatchRow(d: Domain, rows: seq<seq<byte>>, w: nat, i: nat, o: nat, s: seq<byte>)
    requires RowsOf(rows, w) && i < |rows| && o + |s| <= w
    ensures Overwrite(LogImage(d, rows), 8 + i * w + o, s)
            == LogImage(d, rows[i := Overwrite(rows[i], o, s)])
    ensures RowsOf(rows[i := Overwrite(rows[i], o, s)], w)
  {
    hide Magic;
    hide Overwrite;
    hide Flat;
    var off := RowOff(i, w);
    PatchAt(rows, w, i, off, o, s);
    var m, e := Magic(Entry, d, Start), Magic(Entry, d, End);
    OverwriteRight(m, Flat(rows), off + o, s);
    OverwriteLeft(m + Flat(rows), e, 8 + (off + o), s);
  }
}
