/** Shared vocabulary: optional values, and C strings held in fixed-size buffers. */
module Common {
  datatype Option<+T> = None | Some(value: T)

  /** What a buffer with room for n characters and the terminator keeps of a string. */
  function Cut(s: string, n: nat): (r: string)
    ensures r <= s && |r| == if |s| > n then n else |s|
  {
    if |s| > n then s[..n] else s
  }

  /** The first place of a character (strchr), or the length. */
  function CharAt(s: string, c: char): (i: nat)
    ensures i <= |s| && c !in s[..i] && (i < |s| ==> s[i] == c)
  {
    if s == [] then 0 else if s[0] == c then 0 else 1 + CharAt(s[1..], c)
  }

  lemma {:induction false} CharAtIs(s: string, c: char, n: nat)
    requires n < |s| && s[n] == c && forall k :: 0 <= k < n ==> s[k] != c
    ensures CharAt(s, c) == n
    decreases n
  {
    if n > 0 {
      CharAtIs(s[1..], c, n - 1);
    }
  }

  /** Parts with a separator between them. */
  function Joined(parts: seq<string>, sep: string): string
    decreases |parts|
  {
    if parts == [] then ""
    else if |parts| == 1 then parts[0]
    else Joined(parts[..|parts| - 1], sep) + sep + parts[|parts| - 1]
  }

  /** One part more, behind one separator. */
  lemma JoinedSnoc(parts: seq<string>, p: string, sep: string)
    ensures Joined(parts + [p], sep) == if parts == [] then p else Joined(parts, sep) + sep + p
  {
    assert (parts + [p])[..|parts|] == parts;
  }

  /** A quotient and remainder are unique. */
  lemma DivUnique(a: nat, w: nat, q: nat, r: nat)
    requires w > 0 && a == q * w + r && r < w
    ensures a / w == q && a % w == r
  {
    var q', r' := a / w, a % w;
    assert a == q' * w + r';
    if q < q' {
      assert (q + 1) * w <= q' * w by { MulMono(q + 1, q', w); }
    } else if q' < q {
      assert (q' + 1) * w <= q * w by { MulMono(q' + 1, q, w); }
    }
  }

  lemma MulMono(a: nat, b: nat, w: nat)
    requires a <= b
    ensures a * w <= b * w
  {
  }

  /** A quotient, from a quotient by 256 times as much. */
  lemma DivTwice(m: nat, w: nat)
    requires w > 0
    ensures m / w == 256 * (m / (256 * w)) + m / w % 256
  {
    var q, r := m / w, m % w;
    var a, b := q / 256, q % 256;
    assert m == q * w + r && q == 256 * a + b;
    assert q * w == 256 * a * w + b * w;
    assert 256 * a * w == a * (256 * w);
    MulMono(b, 255, w);
    DivUnique(m, 256 * w, a, b * w + r);
  }

  /** memcpy into an array, behind what it already holds. */
  method CopyInto<T>(dst: array<T>, at: nat, src: seq<T>)
    requires at + |src| <= dst.Length
    modifies dst
    ensures dst[..at + |src|] == old(dst[..at]) + src
  {
    ghost var head := dst[..at];
    var k := 0;
    while k < |src|
      invariant k <= |src| && dst[..at + k] == head + src[..k]
    {
      dst[at + k] := src[k];
      k := k + 1;
    }
  }
}
