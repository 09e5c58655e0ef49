/** Streaming SHA-1: a context with a 64-byte buffer, against the one-shot definition of RFC 3174
    (padding of section 4, functions and constants of section 5, block computation of section 6.1). */
module Sha1 {
  import Common
  import opened Bytes

  type Message = seq<byte>
  type Block = b: seq<byte> | |b| == 64 witness Zeros(64)

  const TWO61: nat := 0x2000_0000_0000_0000

  // ---------------------------------------------------------------- RFC 3174

  /** The buffer of five words (H0..H4, or A..E). */
  datatype Words = Words(a: bv32, b: bv32, c: bv32, d: bv32, e: bv32)

  const INITIAL: Words := Words(0x67452301, 0xEFCDAB89, 0x98BADCFE, 0x10325476, 0xC3D2E1F0)

  /** Word arithmetic: sums modulo 2^32, and the circular left shift S^n. */
  function Add(x: bv32, y: bv32): bv32 { x + y }

  function Rotl(x: bv32, n: bv6): bv32
    requires n <= 32
  {
    (x << n) | (x >> (32 - n))
  }

  function Xor4(x: bv32, y: bv32, z: bv32, w: bv32): bv32 { x ^ y ^ z ^ w }

  function Ch(b: bv32, c: bv32, d: bv32): bv32 { (b & c) | (!b & d) }

  function Parity(b: bv32, c: bv32, d: bv32): bv32 { b ^ c ^ d }

  function Maj(b: bv32, c: bv32, d: bv32): bv32 { (b & c) | (b & d) | (c & d) }

  /** An unsigned char as a word. */
  function Wide(p: byte): bv32 {
    (p as bv8) as bv32
  }

  /** Four bytes as a word, leftmost byte first. */
  function Pack(p: byte, q: byte, r: byte, s: byte): bv32 {
    (Wide(p) << 24) | (Wide(q) << 16) | (Wide(r) << 8) | Wide(s)
  }

  lemma RotlRotates(x: bv32)
    ensures Rotl(x, 1) == x.RotateLeft(1) && Rotl(x, 5) == x.RotateLeft(5) && Rotl(x, 30) == x.RotateLeft(30)
  {
  }

  /** The logical function f(t; B, C, D) of section 5. */
  function F(t: nat, b: bv32, c: bv32, d: bv32): bv32 {
    if t < 20 then Ch(b, c, d)
    else if t < 40 then Parity(b, c, d)
    else if t < 60 then Maj(b, c, d)
    else Parity(b, c, d)
  }

  /** The constant word K(t) of section 5. */
  function K(t: nat): bv32 {
    if t < 20 then 0x5A827999 else if t < 40 then 0x6ED9EBA1 else if t < 60 then 0x8F1BBCDC else 0xCA62C1D6
  }

  /** The word sequence W(t): section 6.1, steps a and b. */
  function W(m: Block, t: nat): bv32 {
    if t < 16 then Pack(m[4 * t], m[4 * t + 1], m[4 * t + 2], m[4 * t + 3])
    else Rotl(Xor4(W(m, t - 3), W(m, t - 8), W(m, t - 14), W(m, t - 16)), 1)
  }

  /** One round of section 6.1, step d. */
  function Round(v: Words, t: nat, w: bv32): Words {
    Words(Add(Add(Add(Add(Rotl(v.a, 5), F(t, v.b, v.c, v.d)), v.e), K(t)), w), v.a, Rotl(v.b, 30), v.c, v.d)
  }

  function Rounds(v: Words, m: Block, t: nat): Words {
    if t == 0 then v else Round(Rounds(v, m, t - 1), t - 1, W(m, t - 1))
  }

  /** Section 6.1, steps a to e: the buffer after one block. */
  function Compress(h: Words, m: Block): Words {
    var v := Rounds(h, m, 80);
    Words(Add(h.a, v.a), Add(h.b, v.b), Add(h.c, v.c), Add(h.d, v.d), Add(h.e, v.e))
  }

  function Absorb(h: Words, m: Message): Words
    requires |m| % 64 == 0
    decreases |m|
  {
    if m == [] then h else Absorb(Compress(h, m[..64]), m[64..])
  }

  /** n in 8 bytes, most significant first. */
  function BigEndian(n: nat): (s: Message)
    ensures |s| == 8
  {
    seq(8, i requires 0 <= i < 8 => ByteOf(n, i))
  }

  function ByteOf(n: nat, i: nat): byte
    requires i < 8
  {
    n / Shift(i) % 256
  }

  /** The weight of byte i of 8. */
  function Shift(i: nat): (p: nat)
    requires i < 8
    ensures p > 0
  {
    match i
    case 0 => 0x100_0000_0000_0000 case 1 => 0x1_0000_0000_0000 case 2 => 0x100_0000_0000 case 3 => 0x1_0000_0000
    case 4 => 0x100_0000 case 5 => 0x1_0000 case 6 => 0x100 case _ => 1
  }

  /** Section 4: a one bit, the fewest zero bits that leave 64 bits of the last block, the bit count. */
  function Tail(n: nat): (s: Message)
    requires n < TWO61
    ensures (n + |s|) % 64 == 0 && 9 <= |s| <= 72
  {
    [0x80] + Zeros((119 - n % 64) % 64) + BigEndian(8 * n)
  }

  function Padded(m: Message): (p: Message)
    requires |m| < TWO61
    ensures |p| % 64 == 0
  {
    m + Tail(|m|)
  }

  function WordBytes(w: bv32): (s: Message)
    ensures |s| == 4
  {
    [Low(w >> 24), Low(w >> 16), Low(w >> 8), Low(w)]
  }

  /** The low eight bits, as an unsigned char keeps them. */
  function Low(w: bv32): byte {
    ((w & 0xFF) as bv8) as int
  }

  function Output(h: Words): (s: Message)
    ensures |s| == 20
  {
    WordBytes(h.a) + WordBytes(h.b) + WordBytes(h.c) + WordBytes(h.d) + WordBytes(h.e)
  }

  /** The message digest of RFC 3174. */
  function Digest(m: Message): (d: Message)
    requires |m| < TWO61
    ensures |d| == 20
  {
    Output(Absorb(INITIAL, Padded(m)))
  }

  // ---------------------------------------------------------------- laws of the definition

  /** Ch takes the bits of c where b has ones, and those of d where it has zeros. */
  lemma ChSelects(b: bv32, c: bv32, d: bv32)
    ensures Ch(b, c, d) & b == c & b && Ch(b, c, d) & !b == d & !b
  {
  }

  /** Maj agrees with b wherever c or d does; elsewhere c and d agree, and it agrees with them. */
  lemma MajVotes(b: bv32, c: bv32, d: bv32)
    ensures (Maj(b, c, d) ^ b) & !((b ^ c) & (b ^ d)) == 0 && (Maj(b, c, d) ^ c) & ((b ^ c) & (b ^ d)) == 0
  {
  }

  /** Two equal arguments of an exclusive or cancel, and their order does not matter. */
  lemma ParityCancels(b: bv32, c: bv32, d: bv32)
    ensures Parity(b, b, d) == d && Parity(b, c, d) == Parity(c, b, d) == Parity(b, d, c)
  {
  }

  lemma Xor4Cancels(b: bv32, d: bv32, e: bv32)
    ensures Xor4(b, b, d, e) == Parity(0, d, e)
  {
  }

  /** A packed word written out gives its bytes back, leftmost first. */
  lemma PackWrites(p: bv8, q: bv8, r: bv8, s: bv8)
    ensures p as int < 256 && q as int < 256 && r as int < 256 && s as int < 256
    ensures WordBytes(Pack(p as int, q as int, r as int, s as int)) == [p as int, q as int, r as int, s as int]
  {
    PackBytes(p, q, r, s);
    ByteBack(p);
    ByteBack(q);
    ByteBack(r);
    ByteBack(s);
  }

  lemma ByteBack(p: bv8)
    ensures 0 <= p as int < 256 && (p as int) as bv8 == p
  {
  }

  lemma PackBytes(p: bv8, q: bv8, r: bv8, s: bv8)
    ensures var w := ((p as bv32) << 24) | ((q as bv32) << 16) | ((r as bv32) << 8) | (s as bv32);
            && ((w >> 24) & 0xFF) as bv8 == p && ((w >> 16) & 0xFF) as bv8 == q
            && ((w >> 8) & 0xFF) as bv8 == r && (w & 0xFF) as bv8 == s
  {
  }

  /** The length of a padded message: the fewest blocks that hold it, a mark and the 64-bit count; and what
      stands behind it. */
  lemma PaddedIs(m: Message)
    requires |m| < TWO61
    ensures |Padded(m)| == 64 * ((|m| + 8) / 64 + 1) && m <= Padded(m) && Padded(m)[|m|] == 0x80
    ensures forall i :: |m| < i < |Padded(m)| - 8 ==> Padded(m)[i] == 0
    ensures BigValue(Padded(m)[|Padded(m)| - 8..]) == 8 * |m|
  {
    hide ByteOf;
    assert Padded(m)[|Padded(m)| - 8..] == BigEndian(8 * |m|);
    CountValue(8 * |m|);
  }

  /** The number that bytes stand for, the most significant first. */
  function BigValue(s: seq<byte>): int {
    if s == [] then 0 else 256 * BigValue(s[..|s| - 1]) + s[|s| - 1]
  }

  lemma CountValue(n: nat)
    requires n < 0x1_0000_0000_0000_0000
    ensures BigValue(BigEndian(n)) == n
  {
    FirstBytes(n, 8);
    assert BigEndian(n)[..8] == BigEndian(n) && n / 1 == n;
  }

  /** The first k bytes of the count are what is left of it without the others. */
  lemma {:induction false} FirstBytes(n: nat, k: nat)
    requires k <= 8 && n < 0x1_0000_0000_0000_0000
    ensures BigValue(BigEndian(n)[..k]) == if k == 0 then 0 else n / Shift(k - 1)
    decreases k
  {
    if k > 0 {
      FirstBytes(n, k - 1);
      var s := BigEndian(n);
      assert s[..k][..k - 1] == s[..k - 1];
      if k == 1 {
        assert n / 0x100_0000_0000_0000 < 256;
      } else {
        Coarser(n, k - 1);
        hide Shift;
        hide ByteOf;
      }
    }
  }

  lemma {:induction false} AbsorbAppend(h: Words, x: Message, y: Message)
    requires |x| % 64 == 0 && |y| % 64 == 0
    ensures Absorb(h, x + y) == Absorb(Absorb(h, x), y)
    decreases |x|
  {
    hide Compress;
    if x == [] {
      assert [] + y == y;
    } else {
      assert (x + y)[..64] == x[..64] && (x + y)[64..] == x[64..] + y;
      AbsorbAppend(Compress(h, x[..64]), x[64..], y);
    }
  }

  lemma AbsorbBlock(h: Words, x: Message, m: Block)
    requires |x| % 64 == 0
    ensures Absorb(h, x + m) == Compress(Absorb(h, x), m)
  {
    hide Compress;
    AbsorbAppend(h, x, m);
    assert m[..64] == m && m[64..] == [];
  }

  /** The length field tells messages of different lengths apart. */
  lemma BigEndianInjective(m: nat, n: nat)
    requires m < TWO64 && n < TWO64 && BigEndian(m) == BigEndian(n)
    ensures m == n
  {
    forall i: nat | i < 8
      ensures ByteOf(m, i) == ByteOf(n, i)
    {
      assert BigEndian(m)[i] == ByteOf(m, i) && BigEndian(n)[i] == ByteOf(n, i);
    }
    Peel(m, n, 7);
  }

  lemma {:induction false} Peel(m: nat, n: nat, i: nat)
    requires i < 8 && m < TWO64 && n < TWO64
    requires forall k: nat :: k < 8 ==> ByteOf(m, k) == ByteOf(n, k)
    ensures m / Shift(i) == n / Shift(i)
    decreases i
  {
    hide Shift;
    hide ByteOf;
    if i > 0 {
      Peel(m, n, i - 1);
      Coarser(m, i);
      Coarser(n, i);
    } else {
      TopByte(m);
      TopByte(n);
    }
  }

  lemma TopByte(m: nat)
    requires m < TWO64
    ensures m / Shift(0) == ByteOf(m, 0)
  {
    assert Shift(0) == 0x100_0000_0000_0000;
  }

  lemma Coarser(m: nat, i: nat)
    requires 0 < i < 8
    ensures m / Shift(i) == 256 * (m / Shift(i - 1)) + ByteOf(m, i)
  {
    assert Shift(i - 1) == 256 * Shift(i);
    hide Shift;
    Common.DivTwice(m, Shift(i));
  }

  /** Distinct messages stay distinct when padded. */
  lemma PaddedInjective(m: Message, n: Message)
    requires |m| < TWO61 && |n| < TWO61 && Padded(m) == Padded(n)
    ensures m == n
  {
    var p, q := Padded(m), Padded(n);
    assert p[|p| - 8..] == BigEndian(8 * |m|);
    assert q[|q| - 8..] == BigEndian(8 * |n|);
    BigEndianInjective(8 * |m|, 8 * |n|);
    assert p[..|m|] == m && q[..|n|] == n;
  }

  // ---------------------------------------------------------------- the code

  /** The schedule loops of _sf_process_block. */
  method Schedule(block: Block) returns (w: array<bv32>)
    ensures fresh(w) && w.Length == 80 && forall k :: 0 <= k < 80 ==> w[k] == W(block, k)
  {
    hide Rotl;
    hide Xor4;
    hide Pack;
    w := new bv32[80];
    var i := 0;
    while i < 16
      invariant i <= 16
      invariant forall k :: 0 <= k < i ==> w[k] == W(block, k)
    {
      w[i] := Pack(block[i * 4], block[i * 4 + 1], block[i * 4 + 2], block[i * 4 + 3]);
      i := i + 1;
    }
    while i < 80
      invariant 16 <= i <= 80
      invariant forall k :: 0 <= k < i ==> w[k] == W(block, k)
    {
      w[i] := Rotl(Xor4(w[i - 3], w[i - 8], w[i - 14], w[i - 16]), 1);
      i := i + 1;
    }
  }

  /** One turn of the round loop of _sf_process_block. */
  method Turn(i: nat, w: bv32, a0: bv32, b0: bv32, c0: bv32, d0: bv32, e0: bv32)
    returns (a: bv32, b: bv32, c: bv32, d: bv32, e: bv32)
    requires i < 80
    ensures Words(a, b, c, d, e) == Round(Words(a0, b0, c0, d0, e0), i, w)
  {
    hide Rotl;
    hide Add;
    hide Ch;
    hide Maj;
    hide Parity;
    a, b, c, d, e := a0, b0, c0, d0, e0;
    var f, k: bv32;
    if i < 20 {
      f, k := Ch(b, c, d), 0x5A827999;
    } else if i < 40 {
      f, k := Parity(b, c, d), 0x6ED9EBA1;
    } else if i < 60 {
      f, k := Maj(b, c, d), 0x8F1BBCDC;
    } else {
      f, k := Parity(b, c, d), 0xCA62C1D6;
    }
    var tmp := Add(Add(Add(Add(Rotl(a, 5), f), e), k), w);
    e := d;
    d := c;
    c := Rotl(b, 30);
    b := a;
    a := tmp;
  }

  class Context {
    const state: array<bv32>
    var count: nat
    const buf: array<byte>
    /** All bytes fed so far. */
    ghost var fed: Message

    ghost predicate Valid()
      reads this, state, buf
    {
      && state.Length == 5 && buf.Length == 64
      && count == Wrap(|fed|)
      && Hash() == Absorb(INITIAL, Whole(fed))
      && buf[..|fed| % 64] == Rest(fed)
    }

    function Hash(): Words
      requires state.Length == 5
      reads state
    {
      Words(state[0], state[1], state[2], state[3], state[4])
    }

    constructor ()
      ensures Valid() && fed == [] && fresh(state) && fresh(buf)
    {
      state := new bv32[5] [0x67452301, 0xEFCDAB89, 0x98BADCFE, 0x10325476, 0xC3D2E1F0];
      buf := new byte[64](_ => 0);
      count := 0;
      fed := [];
    }

    method ProcessBlock(block: Block)
      requires state.Length == 5
      modifies state
      ensures Hash() == Compress(old(Hash()), block)
    {
      hide Add;
      hide Round;
      hide W;
      ghost var h := Hash();
      var w := Schedule(block);
      var a, b, c, d, e := state[0], state[1], state[2], state[3], state[4];
      var i := 0;
      while i < 80
        invariant i <= 80
        invariant Words(a, b, c, d, e) == Rounds(h, block, i)
        modifies {}
      {
        a, b, c, d, e := Turn(i, w[i], a, b, c, d, e);
        i := i + 1;
      }
      assert Words(a, b, c, d, e) == Rounds(h, block, 80);
      hide Rounds;
      state[0] := Add(state[0], a);
      state[1] := Add(state[1], b);
      state[2] := Add(state[2], c);
      state[3] := Add(state[3], d);
      state[4] := Add(state[4], e);
    }

    /** memcpy into the buffer. */
    method Copy(off: nat, s: Message)
      requires buf.Length == 64 && off + |s| <= 64
      modifies buf
      ensures buf[..off] == old(buf[..off]) && buf[off..off + |s|] == s
    {
      var i := 0;
      while i < |s|
        invariant i <= |s| && buf[..off] == old(buf[..off]) && buf[off..off + i] == s[..i]
      {
        buf[off + i] := s[i];
        i := i + 1;
      }
    }

    /** A block at a multiple of 64 bytes extends what has been absorbed. */
    method Take(block: Block, ghost done: Message)
      requires state.Length == 5 && |done| % 64 == 0 && Hash() == Absorb(INITIAL, done)
      modifies state
      ensures Hash() == Absorb(INITIAL, done + block)
    {
      hide Absorb;
      hide Compress;
      AbsorbBlock(INITIAL, done, block);
      ProcessBlock(block);
    }

    /** The loop over whole blocks of tpb_sha1_update. */
    method TakeBlocks(data: Message, ghost done: Message) returns (p: Message, ghost done': Message)
      requires state.Length == 5 && |done| % 64 == 0 && Hash() == Absorb(INITIAL, done)
      modifies state
      ensures |p| < 64 && |done'| % 64 == 0 && done' + p == done + data && Hash() == Absorb(INITIAL, done')
    {
      hide Absorb;
      p, done' := data, done;
      while |p| >= 64
        invariant |done'| % 64 == 0 && done' + p == done + data
        invariant Hash() == Absorb(INITIAL, done')
      {
        Take(p[..64], done');
        done' := done' + p[..64];
        p := p[64..];
      }
    }

    /** Completes a partly filled buffer and takes it. */
    method Complete(used: nat, data: Message, ghost done: Message, ghost rest: Message)
      requires state.Length == 5 && buf.Length == 64 && 0 < used < 64 <= used + |data|
      requires |done| % 64 == 0 && Hash() == Absorb(INITIAL, done) && buf[..used] == rest
      modifies state, buf
      ensures Hash() == Absorb(INITIAL, done + (rest + data[..64 - used]))
    {
      hide Absorb;
      Copy(used, data[..64 - used]);
      Joined(buf[..], rest, data[..64 - used]);
      Take(buf[..], done);
    }

    /** tpb_sha1_update: feeding bytes extends the message. */
    method Update(data: Message)
      requires Valid()
      modifies this, state, buf
      ensures Valid() && fed == old(fed) + data
    {
      hide Absorb;
      hide Whole;
      hide Rest;
      hide Wrap;
      var p := data;
      var used := count % 64;
      CountMod(|fed|);
      CountAdd(|fed|, |data|);
      count := Wrap(count + |data|);
      ghost var done, rest := Whole(fed), Rest(fed);
      fed := fed + data;
      if used > 0 {
        var space := 64 - used;
        if |p| < space {
          Fill(used, p, done, rest);
          return;
        }
        Complete(used, p, done, rest);
        Cat3(done, rest, p, space);
        done := done + (rest + p[..space]);
        p := p[space..];
      }
      ghost var done';
      p, done' := TakeBlocks(p, done);
      Keep(p, done');
    }

    /** Bytes that leave the buffer short of a block go behind those in it. */
    method Fill(used: nat, p: Message, ghost done: Message, ghost rest: Message)
      requires state.Length == 5 && buf.Length == 64 && count == Wrap(|fed|)
      requires used + |p| < 64 && |done| % 64 == 0 && buf[..used] == rest && fed == done + rest + p
      requires Hash() == Absorb(INITIAL, done)
      modifies buf
      ensures Valid()
    {
      hide Absorb;
      hide Whole;
      hide Rest;
      hide Wrap;
      Copy(used, p);
      Joined(buf[..], rest, p);
      Cat(done, rest, p);
      Split(fed, done, rest + p);
    }

    /** The bytes behind the last whole block go to the front of the buffer. */
    method Keep(p: Message, ghost done: Message)
      requires state.Length == 5 && buf.Length == 64 && count == Wrap(|fed|)
      requires |p| < 64 && |done| % 64 == 0 && done + p == fed && Hash() == Absorb(INITIAL, done)
      modifies buf
      ensures Valid()
    {
      hide Absorb;
      hide Whole;
      hide Rest;
      hide Wrap;
      if |p| > 0 {
        Copy(0, p);
      }
      Split(fed, done, p);
    }

    /** Fills the last block or two of tpb_sha1_final. */
    method Pad(bits: nat)
      requires Valid() && |fed| < TWO61 && bits == 8 * |fed|
      modifies state, buf
      ensures Hash() == Absorb(INITIAL, Padded(fed))
    {
      ghost var whole, rest := Whole(fed), Rest(fed);
      assert |whole| % 64 == 0 && bits < TWO64;
      var used := Mark();
      hide *;
      if used > 56 {
        PadTwo(fed, used);
        whole := Spill(used, whole, rest + [0x80]);
        LastBlock(0, bits, whole, []);
      } else {
        PadOne(fed, used);
        LastBlock(used, bits, whole, rest + [0x80]);
      }
    }

    /** The mark behind the bytes in the buffer. */
    method Mark() returns (used: nat)
      requires Valid()
      modifies buf
      ensures used == |fed| % 64 + 1 <= 64 && |Rest(fed)| == |fed| % 64 && buf[..used] == Rest(fed) + [0x80]
    {
      hide Absorb;
      hide Whole;
      hide Wrap;
      used := count % 64;
      CountMod(|fed|);
      ghost var rest := Rest(fed);
      Copy(used, [0x80]);
      Joined(buf[..], rest, [0x80]);
      hide Rest;
      used := used + 1;
    }

    /** A block filled up with zeros, and taken. */
    method Spill(used: nat, ghost whole: Message, ghost rest: Message) returns (ghost done: Message)
      requires state.Length == 5 && buf.Length == 64 && used <= 64
      requires |whole| % 64 == 0 && Hash() == Absorb(INITIAL, whole) && buf[..used] == rest
      modifies state, buf
      ensures done == whole + (rest + Zeros(64 - used)) && |done| % 64 == 0 && Hash() == Absorb(INITIAL, done)
    {
      hide Absorb;
      Copy(used, Zeros(64 - used));
      Joined(buf[..], rest, Zeros(64 - used));
      Take(buf[..], whole);
      done := whole + buf[..];
    }

    method LastBlock(used: nat, bits: nat, ghost whole: Message, ghost rest: Message)
      requires state.Length == 5 && buf.Length == 64 && bits < TWO64 && used <= 56
      requires |whole| % 64 == 0 && Hash() == Absorb(INITIAL, whole) && buf[..used] == rest
      modifies state, buf
      ensures Hash() == Absorb(INITIAL, whole + (rest + Zeros(56 - used) + BigEndian(bits)))
    {
      hide Absorb;
      hide BigEndian;
      Copy(used, Zeros(56 - used));
      Joined(buf[..], rest, Zeros(56 - used));
      var field := Field(bits);
      Copy(56, field);
      Joined(buf[..], rest + Zeros(56 - used), field);
      Take(buf[..], whole);
    }

    /** tpb_sha1_final: the digest of all bytes fed, by RFC 3174. */
    method Final() returns (digest: Message)
      requires Valid() && |fed| < TWO61
      modifies state, buf
      ensures digest == Digest(old(fed))
    {
      hide Absorb;
      hide Padded;
      hide WordBytes;
      Pad(Wrap(count * 8));
      var a := Emit(state[0]);
      var b := Emit(state[1]);
      var c := Emit(state[2]);
      var d := Emit(state[3]);
      var e := Emit(state[4]);
      digest := a + b + c + d + e;
    }
  }

  /** The four shifts of one state word. */
  method Emit(w: bv32) returns (s: Message)
    ensures s == WordBytes(w)
  {
    hide Low;
    s := [Low(w >> 24), Low(w >> 16), Low(w >> 8), Low(w)];
  }

  lemma Joined(b: Message, x: Message, y: Message)
    requires |x| + |y| <= |b| && b[..|x|] == x && b[|x|..|x| + |y|] == y
    ensures b[..|x| + |y|] == x + y && (|x| + |y| == |b| ==> b == x + y)
  {
    assert b[..|x| + |y|] == b[..|x|] + b[|x|..|x| + |y|];
  }

  lemma Cat(x: Message, y: Message, z: Message)
    ensures x + y + z == x + (y + z)
  {
  }

  lemma Cat3(x: Message, y: Message, z: Message, n: nat)
    requires n <= |z|
    ensures x + y + z == x + (y + z[..n]) + z[n..]
  {
  }

  /** The mark leaves room for the length in the same block. */
  lemma PadOne(m: Message, used: nat)
    requires |m| < TWO61 && used == |m| % 64 + 1 && used <= 56
    ensures Whole(m) + (Rest(m) + [0x80] + Zeros(56 - used) + BigEndian(8 * |m|)) == Padded(m)
  {
    hide BigEndian;
    assert (119 - |m| % 64) % 64 == 56 - used;
  }

  /** The mark leaves no such room: the length goes into a block of its own. */
  lemma PadTwo(m: Message, used: nat)
    requires |m| < TWO61 && used == |m| % 64 + 1 && used > 56
    ensures Whole(m) + (Rest(m) + [0x80] + Zeros(64 - used)) + ([] + Zeros(56) + BigEndian(8 * |m|)) == Padded(m)
  {
    hide BigEndian;
    assert (119 - |m| % 64) % 64 == 64 - used + 56;
    assert Zeros(64 - used) + Zeros(56) == Zeros(64 - used + 56);
  }

  /** An unsigned 64-bit count. */
  function Wrap(n: nat): nat {
    n % TWO64
  }

  lemma CountMod(n: nat)
    ensures Wrap(n) % 64 == n % 64
  {
  }

  lemma CountAdd(n: nat, k: nat)
    ensures Wrap(Wrap(n) + k) == Wrap(n + k)
  {
  }

  lemma Split(m: Message, x: Message, y: Message)
    requires m == x + y && |x| % 64 == 0 && |y| < 64
    ensures Whole(m) == x && Rest(m) == y
  {
  }

  /** The eight shifts of the bit count. */
  method Field(bits: nat) returns (s: Message)
    requires bits < TWO64
    ensures s == BigEndian(bits)
  {
    s := [bits / 0x100_0000_0000_0000 % 256, bits / 0x1_0000_0000_0000 % 256, bits / 0x100_0000_0000 % 256,
          bits / 0x1_0000_0000 % 256, bits / 0x100_0000 % 256, bits / 0x1_0000 % 256, bits / 0x100 % 256, bits % 256];
  }

  function Whole(m: Message): (p: Message)
    ensures |p| % 64 == 0
  {
    m[..|m| - |m| % 64]
  }

  function Rest(m: Message): (p: Message)
    ensures |p| == |m| % 64 && Whole(m) + p == m
  {
    m[|m| - |m| % 64..]
  }

  /** All bytes of the pieces, in order. */
  function Joining(pieces: seq<Message>): Message {
    if pieces == [] then [] else Joining(pieces[..|pieces| - 1]) + pieces[|pieces| - 1]
  }

  /** tpb_raf_hash_file, for a file that fread hands out in any pieces: the digest depends on the
      bytes alone, not on how they were cut. */
  method HashPieces(pieces: seq<Message>) returns (digest: Message)
    requires |Joining(pieces)| < TWO61
    ensures digest == Digest(Joining(pieces))
  {
    hide Digest;
    hide Absorb;
    hide Whole;
    hide Rest;
    hide Wrap;
    var ctx := new Context();
    var i := 0;
    while i < |pieces|
      invariant i <= |pieces| && ctx.Valid() && ctx.fed == Joining(pieces[..i])
      invariant fresh(ctx) && fresh(ctx.state) && fresh(ctx.buf)
    {
      ctx.Update(pieces[i]);
      assert pieces[..i + 1][..i] == pieces[..i];
      i := i + 1;
    }
    assert pieces[..i] == pieces;
    digest := ctx.Final();
  }
}
