/** The 8-byte signatures that frame every rafdb file. */
module Signature {
  import opened Bytes
  import opened Common

  datatype FileType = Entry | Rec
  datatype Domain = TBatch | Kernel | Task | RtEnv
  datatype Position = Start | Split | End

  function TypeBits(t: FileType): byte {
    match t
    case Entry => 0xE0
    case Rec => 0xD0
  }

  function DomainBits(d: Domain): byte {
    match d
    case TBatch => 0x00
    case Kernel => 0x01
    case Task => 0x02
    case RtEnv => 0x03
  }

  function PositionByte(p: Position): byte {
    match p
    case Start => 0x53
    case Split => 0x44
    case End => 0x45
  }

  /** tpb_raf_build_magic. The type occupies the high nibble of byte 4 and the domain the low
      one, so the bitwise or of the source is a sum. */
  function Magic(t: FileType, d: Domain, p: Position): (m: seq<byte>)
    ensures |m| == 8
  {
    [0xE1, 0x54, 0x50, 0x42, TypeBits(t) + DomainBits(d), PositionByte(p), 0x31, 0xE0]
  }

  /** The bytes on disk: E1 "TPB", a byte with the type in its high and the domain in its low digit, the letter
      of the position, "1" E0. */
  lemma MagicBytes(t: FileType, d: Domain, p: Position)
    ensures var m := Magic(t, d, p);
            && m[..4] == [0xE1, 'T' as int, 'P' as int, 'B' as int] && m[6..] == [0x31, 0xE0]
            && m[4] / 0x10 == (if t == Entry then 0xE else 0xD)
            && m[4] % 0x10 == (if d == TBatch then 0 else if d == Kernel then 1 else if d == Task then 2 else 3)
            && m[5] as char == (if p == Start then 'S' else if p == Split then 'D' else 'E')
  {
  }

  lemma MagicInjective(t: FileType, d: Domain, p: Position, t': FileType, d': Domain, p': Position)
    ensures Magic(t, d, p) == Magic(t', d', p') <==> t == t' && d == d' && p == p'
  {
    assert Magic(t, d, p)[4] == TypeBits(t) + DomainBits(d);
    assert Magic(t, d, p)[5] == PositionByte(p);
    assert Magic(t', d', p')[4] == TypeBits(t') + DomainBits(d');
    assert Magic(t', d', p')[5] == PositionByte(p');
  }

  /** tpb_raf_detect_file on the first bytes of a file. */
  function Detect(f: seq<byte>): Option<(FileType, Domain)> {
    if |f| < 8 || f[0] != 0xE1 || f[1] != 0x54 || f[2] != 0x50 || f[3] != 0x42 then None
    else if f[6] != 0x31 || f[7] != 0xE0 || f[5] != 0x53 then None
    else
      var hi, lo := f[4] / 0x10 * 0x10, f[4] % 0x10;
      if hi != 0xE0 && hi != 0xD0 then None
      else
        var t := if hi == 0xE0 then Entry else Rec;
        if lo == 0x00 then Some((t, TBatch))
        else if lo == 0x01 then Some((t, Kernel))
        else if lo == 0x02 then Some((t, Task))
        else if lo == 0x03 then Some((t, RtEnv))
        else None
  }

  /** Detection inverts construction: a file is recognised as (t, d) exactly when it opens with
      the START signature of (t, d). */
  lemma DetectExact(f: seq<byte>, t: FileType, d: Domain)
    ensures Detect(f) == Some((t, d)) <==> At(f, 0, Magic(t, d, Start))
  {
    AtSlice(f, 0, Magic(t, d, Start));
    if |f| >= 8 {
      assert f[0..8] == [f[0], f[1], f[2], f[3], f[4], f[5], f[6], f[7]];
      var m := Magic(t, d, Start);
      assert m == [m[0], m[1], m[2], m[3], m[4], m[5], m[6], m[7]];
      if Detect(f) == Some((t, d)) {
        assert f[4] == TypeBits(t) + DomainBits(d);
      }
      if At(f, 0, m) {
        assert forall i :: 0 <= i < 8 ==> f[i] == f[0..8][i] == m[i];
      }
    }
  }
}
