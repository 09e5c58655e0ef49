/** Byte strings, little-endian integers, and the algebra of byte strings at file offsets. */
module Bytes {

  type byte = b: int | 0 <= b < 0x100
  type u32 = x: int | 0 <= x < 0x1_0000_0000
  type u64 = x: int | 0 <= x < 0x1_0000_0000_0000_0000

  const TWO32: nat := 0x1_0000_0000
  const TWO63: nat := 0x8000_0000_0000_0000
  const TWO64: nat := 0x1_0000_0000_0000_0000

  function Zeros(n: nat): (s: seq<byte>)
    ensures |s| == n && forall i :: 0 <= i < n ==> s[i] == 0
  {
    seq(n, _ => 0)
  }

  // ---------------------------------------------------------------- little-endian integers

  /** The `width` bytes that fwrite stores for the unsigned value `v` on a little-endian host. */
  function Le(width: nat, v: nat): (s: seq<byte>)
    ensures |s| == width
  {
    if width == 0 then [] else [v % 0x100] + Le(width - 1, v / 0x100)
  }

  function UnLe(s: seq<byte>): nat {
    if s == [] then 0 else s[0] + 0x100 * UnLe(s[1..])
  }

  function Pow256(n: nat): (p: nat)
    ensures p > 0
  {
    if n == 0 then 1 else 0x100 * Pow256(n - 1)
  }

  lemma {:induction false} UnLeLe(width: nat, v: nat)
    requires v < Pow256(width)
    ensures UnLe(Le(width, v)) == v
  {
    if width > 0 {
      UnLeLe(width - 1, v / 0x100);
      assert Le(width, v)[1..] == Le(width - 1, v / 0x100);
    }
  }

  lemma {:induction false} LeUnLe(s: seq<byte>)
    ensures UnLe(s) < Pow256(|s|)
    ensures Le(|s|, UnLe(s)) == s
  {
    if s != [] {
      LeUnLe(s[1..]);
      assert UnLe(s) / 0x100 == UnLe(s[1..]) && UnLe(s) % 0x100 == s[0];
    }
  }

  lemma Pow256Values()
    ensures Pow256(4) == TWO32 && Pow256(8) == TWO64
  {
    assert Pow256(2) == 0x100 * Pow256(1) == 0x10000;
    assert Pow256(4) == 0x100 * Pow256(3) && Pow256(3) == 0x100 * Pow256(2);
    assert Pow256(6) == 0x100 * Pow256(5) && Pow256(5) == 0x100 * Pow256(4);
    assert Pow256(8) == 0x100 * Pow256(7) && Pow256(7) == 0x100 * Pow256(6);
  }

  function U32(v: u32): (s: seq<byte>)
    ensures |s| == 4
    ensures UnLe(s) == v
  {
    Pow256Values();
    UnLeLe(4, v);
    Le(4, v)
  }

  function U64(v: u64): (s: seq<byte>)
    ensures |s| == 8
    ensures UnLe(s) == v
  {
    Pow256Values();
    UnLeLe(8, v);
    Le(8, v)
  }

  /** The u32 that fread obtains from four bytes; the only value `v` with U32(v) == s. */
  function GetU32(s: seq<byte>): (v: u32)
    requires |s| == 4
    ensures U32(v) == s
  {
    Pow256Values();
    LeUnLe(s);
    UnLe(s)
  }

  function GetU64(s: seq<byte>): (v: u64)
    requires |s| == 8
    ensures U64(v) == s
  {
    Pow256Values();
    LeUnLe(s);
    UnLe(s)
  }

  /** Byte by byte, the least significant first. */
  lemma LittleEndian(v: u32, w: u64)
    ensures var s: seq<int> := U32(v); v == s[0] + 0x100 * s[1] + 0x1_0000 * s[2] + 0x100_0000 * s[3]
    ensures var s: seq<int> := U64(w);
            w == s[0] + 0x100 * s[1] + 0x1_0000 * s[2] + 0x100_0000 * s[3]
                 + 0x1_0000_0000 * (s[4] + 0x100 * s[5] + 0x1_0000 * s[6] + 0x100_0000 * s[7])
  {
    var s := U64(w);
    FourBytes(U32(v), 0);
    FourBytes(s, 0x1_0000_0000 * UnLe(s[4..]));
    FourBytes(s[4..], 0);
    assert UnLe(U32(v)[4..]) == 0 && UnLe(s[4..][4..]) == 0;
  }

  lemma FourBytes(s: seq<byte>, rest: nat)
    requires |s| >= 4 && rest == 0x1_0000_0000 * UnLe(s[4..])
    ensures var t: seq<int> := s; UnLe(s) == t[0] + 0x100 * t[1] + 0x1_0000 * t[2] + 0x100_0000 * t[3] + rest
  {
    var a, b, c := s[1..], s[2..], s[3..];
    assert a[1..] == b && b[1..] == c && c[1..] == s[4..];
    assert UnLe(c) == s[3] + 0x100 * UnLe(s[4..]);
    assert UnLe(b) == s[2] + 0x100 * UnLe(c);
    assert UnLe(a) == s[1] + 0x100 * UnLe(b);
  }

  /** Conversion of a u64 to the signed 64-bit offset type. */
  function ToLong(v: u64): (r: int)
    ensures -0x8000_0000_0000_0000 <= r < 0x8000_0000_0000_0000 && (r == v || r == v - 0x1_0000_0000_0000_0000)
  {
    if v < TWO63 then v else v - TWO64
  }

  // ---------------------------------------------------------------- byte strings at offsets

  /** `s` stands in `f` at offset `off`. */
  predicate At(f: seq<byte>, off: nat, s: seq<byte>) {
    off + |s| <= |f| && forall i :: 0 <= i < |s| ==> f[off + i] == s[i]
  }

  lemma AtSlice(f: seq<byte>, off: nat, s: seq<byte>)
    ensures At(f, off, s) <==> off + |s| <= |f| && f[off..off + |s|] == s
  {
    if off + |s| <= |f| && f[off..off + |s|] == s {
      forall i | 0 <= i < |s|
        ensures f[off + i] == s[i]
      {
        assert f[off..off + |s|][i] == s[i];
      }
    }
  }

  lemma AtAppend(f: seq<byte>, off: nat, s: seq<byte>, t: seq<byte>)
    ensures At(f, off, s + t) <==> At(f, off, s) && At(f, off + |s|, t)
  {
    if At(f, off, s + t) {
      forall i | 0 <= i < |s|
        ensures f[off + i] == s[i]
      {
        assert (s + t)[i] == s[i];
      }
      forall i | 0 <= i < |t|
        ensures f[off + |s| + i] == t[i]
      {
        assert (s + t)[|s| + i] == t[i];
        assert off + (|s| + i) == off + |s| + i;
      }
    } else if At(f, off, s) && At(f, off + |s|, t) {
      forall i | 0 <= i < |s + t|
        ensures f[off + i] == (s + t)[i]
      {
        if i >= |s| {
          assert (s + t)[i] == t[i - |s|] == f[off + |s| + (i - |s|)];
        }
      }
    }
  }

  /** Two strings of one length at one place are the same string. */
  lemma AtUnique(f: seq<byte>, off: nat, s: seq<byte>, t: seq<byte>)
    requires At(f, off, s) && At(f, off, t) && |s| == |t|
    ensures s == t
  {
    AtSlice(f, off, s);
    AtSlice(f, off, t);
  }

  lemma AtWhole(f: seq<byte>, s: seq<byte>)
    ensures f == s <==> At(f, 0, s) && |f| == |s|
  {
    if At(f, 0, s) && |f| == |s| {
      forall i | 0 <= i < |s|
        ensures f[i] == s[i]
      {
        assert f[0 + i] == s[i];
      }
    }
  }

  // ---------------------------------------------------------------- overwriting in place

  /** File contents after fwrite of `s` at offset `off`: bytes are replaced in place, the file
      grows when the write runs past the end, and a gap before the write reads as zeros. */
  function Overwrite(f: seq<byte>, off: nat, s: seq<byte>): (r: seq<byte>)
    ensures s != [] ==> |r| == if off + |s| <= |f| then |f| else off + |s|
    ensures s == [] ==> r == f
  {
    if s == [] then f
    else if off > |f| then f + Zeros(off - |f|) + s
    else f[..off] + s + (if off + |s| <= |f| then f[off + |s|..] else [])
  }

  lemma OverwriteAt(f: seq<byte>, off: nat, s: seq<byte>)
    requires s != []
    ensures At(Overwrite(f, off, s), off, s)
  {
  }

  /** What lies wholly before or wholly after the written range stays where it is. */
  lemma OverwriteFrame(f: seq<byte>, off: nat, s: seq<byte>, o: nat, t: seq<byte>)
    requires At(f, o, t)
    requires o + |t| <= off || off + |s| <= o
    ensures At(Overwrite(f, off, s), o, t)
  {
  }

  /** What covers the whole file is all that is left. */
  lemma OverwriteWhole(f: seq<byte>, s: seq<byte>)
    requires |f| <= |s| && (s != [] || f == [])
    ensures Overwrite(f, 0, s) == s
  {
  }

  lemma OverwriteRight(a: seq<byte>, b: seq<byte>, o: nat, s: seq<byte>)
    requires o + |s| <= |b|
    ensures Overwrite(a + b, |a| + o, s) == a + Overwrite(b, o, s)
  {
  }

  lemma OverwriteLeft(a: seq<byte>, b: seq<byte>, o: nat, s: seq<byte>)
    requires o + |s| <= |a|
    ensures Overwrite(a + b, o, s) == Overwrite(a, o, s) + b
  {
  }

  // ---------------------------------------------------------------- several writes in a row

  datatype Edit = Edit(off: nat, bytes: seq<byte>) {
    function End(): nat { off + |bytes| }
  }

  function Apply(f: seq<byte>, es: seq<Edit>): seq<byte>
    decreases es
  {
    if es == [] then f else Apply(Overwrite(f, es[0].off, es[0].bytes), es[1..])
  }

  lemma {:induction false} ApplySnoc(f: seq<byte>, es: seq<Edit>, e: Edit)
    ensures Apply(f, es + [e]) == Overwrite(Apply(f, es), e.off, e.bytes)
    decreases es
  {
    if es == [] {
      assert es + [e] == [e];
    } else {
      assert (es + [e])[1..] == es[1..] + [e];
      ApplySnoc(Overwrite(f, es[0].off, es[0].bytes), es[1..], e);
    }
  }

  /** None of the edits touches the n bytes at o. */
  predicate Clear(o: nat, n: nat, es: seq<Edit>) {
    forall i :: 0 <= i < |es| ==> o + n <= es[i].off || es[i].End() <= o
  }

  lemma {:induction false} ApplyFrame(f: seq<byte>, es: seq<Edit>, o: nat, t: seq<byte>)
    requires At(f, o, t) && Clear(o, |t|, es)
    ensures At(Apply(f, es), o, t)
    decreases es
  {
    if es != [] {
      assert o + |t| <= es[0].off || es[0].End() <= o;
      OverwriteFrame(f, es[0].off, es[0].bytes, o, t);
      assert Clear(o, |t|, es[1..]);
      ApplyFrame(Overwrite(f, es[0].off, es[0].bytes), es[1..], o, t);
    }
  }

  lemma {:induction false} ApplyEdit(f: seq<byte>, es: seq<Edit>, k: nat)
    requires k < |es| && es[k].bytes != []
    requires Clear(es[k].off, |es[k].bytes|, es[k + 1..])
    ensures At(Apply(f, es), es[k].off, es[k].bytes)
    decreases es
  {
    var f1 := Overwrite(f, es[0].off, es[0].bytes);
    if k == 0 {
      OverwriteAt(f, es[0].off, es[0].bytes);
      ApplyFrame(f1, es[1..], es[0].off, es[0].bytes);
    } else {
      assert es[1..][k - 1 + 1..] == es[k + 1..];
      ApplyEdit(f1, es[1..], k - 1);
    }
  }

  predicate Apart(a: Edit, b: Edit) {
    a.End() <= b.off || b.End() <= a.off
  }

  /** Edits that do not overlap all land, whatever their order. */
  lemma AllLand(f: seq<byte>, es: seq<Edit>)
    requires forall i :: 0 <= i < |es| ==> es[i].bytes != []
    requires forall i, j :: 0 <= i < j < |es| ==> Apart(es[i], es[j])
    ensures forall k :: 0 <= k < |es| ==> At(Apply(f, es), es[k].off, es[k].bytes)
  {
    forall k | 0 <= k < |es|
      ensures At(Apply(f, es), es[k].off, es[k].bytes)
    {
      assert forall i :: k < i < |es| ==> Apart(es[k], es[i]);
      ApplyEdit(f, es, k);
    }
  }

  function MaxEnd(n: nat, es: seq<Edit>): nat
    decreases es
  {
    if es == [] then n
    else MaxEnd(if es[0].bytes == [] || es[0].End() <= n then n else es[0].End(), es[1..])
  }

  lemma {:induction false} ApplyLen(f: seq<byte>, es: seq<Edit>)
    ensures |Apply(f, es)| == MaxEnd(|f|, es)
    decreases es
  {
    if es != [] {
      ApplyLen(Overwrite(f, es[0].off, es[0].bytes), es[1..]);
    }
  }

  /** The file ends where the furthest edit ends. */
  lemma {:induction false} MaxEndIs(n: nat, es: seq<Edit>, k: nat)
    requires k < |es| && es[k].bytes != [] && n <= es[k].End()
    requires forall i :: 0 <= i < |es| ==> es[i].End() <= es[k].End()
    ensures MaxEnd(n, es) == es[k].End()
    decreases es
  {
    var m := if es[0].bytes == [] || es[0].End() <= n then n else es[0].End();
    if k > 0 {
      MaxEndIs(m, es[1..], k - 1);
    } else {
      MaxEndStays(m, es[1..]);
    }
  }

  lemma {:induction false} MaxEndStays(n: nat, es: seq<Edit>)
    requires forall i :: 0 <= i < |es| ==> es[i].End() <= n
    ensures MaxEnd(n, es) == n
    decreases es
  {
    if es != [] {
      MaxEndStays(n, es[1..]);
    }
  }
}
