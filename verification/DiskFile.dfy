/** An open file: its bytes and a cursor, as the C stream functions see them. */
module Disk {
  import opened Bytes

  class DiskFile {
    var data: seq<byte>
    var pos: nat

    /** Opening an existing file, or creating an empty one. */
    constructor (contents: seq<byte>)
      ensures data == contents && pos == 0
    {
      data, pos := contents, 0;
    }

    /** fseek with SEEK_SET: refused for a negative offset, allowed past the end. */
    method Seek(off: int) returns (ok: bool)
      modifies this`pos
      ensures ok == (0 <= off)
      ensures pos == if ok then off else old(pos)
    {
      ok := 0 <= off;
      if ok {
        pos := off;
      }
    }

    /** fread of exactly n bytes: refused when fewer are left, and then the cursor is at the end. */
    method Read(n: nat) returns (ok: bool, s: seq<byte>)
      modifies this`pos
      ensures ok == (old(pos) + n <= |data|)
      ensures ok ==> s == data[old(pos)..old(pos) + n] && pos == old(pos) + n
    {
      ok := pos + n <= |data|;
      if ok {
        s, pos := data[pos..pos + n], pos + n;
      } else {
        s := [];
        if pos < |data| {
          pos := |data|;
        }
      }
    }

    method Write(s: seq<byte>)
      modifies this
      ensures data == Overwrite(old(data), old(pos), s) && pos == old(pos) + |s|
    {
      data, pos := Overwrite(data, pos, s), pos + |s|;
    }

    /** fseek, then fwrite; `es` are the edits made so far to the contents `f`. */
    method WriteAt(off: nat, s: seq<byte>, ghost f: seq<byte>, ghost es: seq<Edit>)
      requires data == Apply(f, es)
      modifies this
      ensures data == Apply(f, es + [Edit(off, s)])
    {
      var _ := Seek(off);
      Write(s);
      ApplySnoc(f, es, Edit(off, s));
    }

    method ReadU32() returns (ok: bool, v: u32)
      modifies this`pos
      ensures ok == (old(pos) + 4 <= |data|)
      ensures ok ==> v == GetU32(data[old(pos)..old(pos) + 4]) && pos == old(pos) + 4
    {
      var s;
      ok, s := Read(4);
      v := 0;
      if ok {
        v := GetU32(s);
      }
    }

    method ReadU64() returns (ok: bool, v: u64)
      modifies this`pos
      ensures ok == (old(pos) + 8 <= |data|)
      ensures ok ==> v == GetU64(data[old(pos)..old(pos) + 8]) && pos == old(pos) + 8
    {
      var s;
      ok, s := Read(8);
      v := 0;
      if ok {
        v := GetU64(s);
      }
    }

    /** fseek, then a number. */
    method U32At(off: nat) returns (ok: bool, v: u32)
      modifies this`pos
      ensures ok == (off + 4 <= |data|)
      ensures ok ==> v == GetU32(data[off..off + 4])
    {
      ok := Seek(off);
      ok, v := ReadU32();
    }

    method U64At(off: nat) returns (ok: bool, v: u64)
      modifies this`pos
      ensures ok == (off + 8 <= |data|)
      ensures ok ==> v == GetU64(data[off..off + 8])
    {
      ok := Seek(off);
      ok, v := ReadU64();
    }

    /** fread of n bytes whose beginning is compared with `want`. */
    method Expect(want: seq<byte>, n: nat) returns (ok: bool)
      requires |want| <= n
      modifies this`pos
      ensures ok == (old(pos) + n <= |data| && At(data, old(pos), want))
      ensures ok ==> pos == old(pos) + n
    {
      ghost var p := pos;
      var got;
      ok, got := Read(n);
      if ok {
        assert forall i :: 0 <= i < |want| ==> got[i] == data[p + i];
        ok := got[..|want|] == want;
        assert got[..|want|] == data[p..p + |want|];
        AtSlice(data, p, want);
      }
    }
  }
}
