/** The environment snapshot of a task record: keys and non-empty value segments packed into two
    colon-separated blobs with a count per key, and the export code that unpacks them. */
module EnvSnapshot {
  import opened Common
  import opened MergeChain

  // ---------------------------------------------------------------- colon lists

  predicate ColonFree(s: string) {
    ':' !in s
  }

  /** The parts between colons; always at least one. */
  function Split(s: string): (parts: seq<string>)
    ensures |parts| > 0 && forall k :: 0 <= k < |parts| ==> ColonFree(parts[k])
    decreases |s|
  {
    if s == [] then [[]]
    else
      var ps := Split(s[..|s| - 1]);
      if s[|s| - 1] == ':' then ps + [[]]
      else ps[..|ps| - 1] + [ps[|ps| - 1] + [s[|s| - 1]]]
  }

  function Join(parts: seq<string>): string {
    Joined(parts, ":")
  }

  function NonEmpty(parts: seq<string>): (r: seq<string>)
    ensures |r| <= |parts| && forall k :: 0 <= k < |r| ==> r[k] != "" && r[k] in parts
    decreases |parts|
  {
    if parts == [] then []
    else NonEmpty(parts[..|parts| - 1]) + (if parts[|parts| - 1] != "" then [parts[|parts| - 1]] else [])
  }

  /** The segments of a value that are kept. */
  function Segments(val: string): (r: seq<string>)
    ensures forall k :: 0 <= k < |r| ==> r[k] != "" && ColonFree(r[k])
  {
    NonEmpty(Split(val))
  }

  predicate ColonFrees(parts: seq<string>) {
    forall k :: 0 <= k < |parts| ==> ColonFree(parts[k])
  }

  lemma {:induction false} SplitPlain(s: string)
    requires ColonFree(s)
    ensures Split(s) == [s]
    decreases |s|
  {
    if s != [] {
      assert ColonFree(s[..|s| - 1]);
      SplitPlain(s[..|s| - 1]);
      assert s[..|s| - 1] + [s[|s| - 1]] == s;
    }
  }

  /** A list with a string added to its last part. */
  function Longer(parts: seq<string>, t: string): seq<string>
    requires parts != []
  {
    parts[..|parts| - 1] + [parts[|parts| - 1] + t]
  }

  lemma SplitChar(s: string, c: char)
    ensures Split(s + [c]) == if c == ':' then Split(s) + [[]] else Longer(Split(s), [c])
  {
    assert (s + [c])[..|s + [c]| - 1] == s;
  }

  lemma LongerTwice(parts: seq<string>, t: string, c: char)
    requires parts != []
    ensures Longer(Longer(parts, t), [c]) == Longer(parts, t + [c])
  {
    assert parts[|parts| - 1] + t + [c] == parts[|parts| - 1] + (t + [c]);
  }

  /** A colon-free piece extends the last part. */
  lemma {:induction false} SplitAppend(s: string, t: string)
    requires ColonFree(t)
    ensures Split(s + t) == Longer(Split(s), t)
    decreases |t|
  {
    hide Split;
    var ps := Split(s);
    if t == [] {
      assert s + t == s;
      assert ps[|ps| - 1] + t == ps[|ps| - 1];
    } else {
      var u, c := t[..|t| - 1], t[|t| - 1];
      assert c in t && ColonFree(u) && u + [c] == t;
      SplitAppend(s, u);
      assert s + u + [c] == s + t;
      SplitChar(s + u, c);
      LongerTwice(ps, u, c);
    }
  }

  lemma SplitAfterColon(s: string, t: string)
    requires ColonFree(t)
    ensures Split(s + ":" + t) == Split(s) + [t]
  {
    hide Split;
    SplitChar(s, ':');
    assert s + ":" == s + [':'];
    SplitAppend(s + ":", t);
    assert [] + t == t;
  }

  /** Splitting what was joined gives the parts back. */
  lemma {:induction false} SplitJoin(parts: seq<string>)
    requires parts != [] && ColonFrees(parts)
    ensures Split(Join(parts)) == parts
    decreases |parts|
  {
    hide Split;
    hide ColonFree;
    if |parts| == 1 {
      SplitPlain(parts[0]);
    } else {
      SplitJoin(parts[..|parts| - 1]);
      SplitAfterColon(Join(parts[..|parts| - 1]), parts[|parts| - 1]);
    }
  }

  lemma {:induction false} JoinAppend(xs: seq<string>, ys: seq<string>)
    requires xs != [] && ys != []
    ensures Join(xs + ys) == Join(xs) + ":" + Join(ys)
    decreases |ys|
  {
    assert (xs + ys)[..|xs + ys| - 1] == xs + ys[..|ys| - 1];
    if |ys| == 1 {
      assert xs + ys[..0] == xs;
    } else {
      JoinAppend(xs, ys[..|ys| - 1]);
      assert Join(xs) + ":" + (Join(ys[..|ys| - 1]) + ":" + ys[|ys| - 1])
             == Join(xs) + ":" + Join(ys[..|ys| - 1]) + ":" + ys[|ys| - 1];
    }
  }

  /** Only the empty list of non-empty parts joins to nothing. */
  lemma JoinEmpty(parts: seq<string>)
    requires forall k :: 0 <= k < |parts| ==> parts[k] != ""
    ensures Join(parts) == "" <==> parts == []
  {
  }

  // ---------------------------------------------------------------- the encoding

  datatype Pair = Pair(key: string, val: string)

  /** What a snapshot stores. */
  datatype Packed = Packed(keys: string, counts: seq<int>, values: string)

  function Keys(kvs: seq<Pair>): (ks: seq<string>)
    ensures |ks| == |kvs| && forall i :: 0 <= i < |kvs| ==> ks[i] == kvs[i].key
  {
    seq(|kvs|, i requires 0 <= i < |kvs| => kvs[i].key)
  }

  function Counts(kvs: seq<Pair>): (cs: seq<int>)
    ensures |cs| == |kvs| && forall i :: 0 <= i < |kvs| ==> cs[i] == |Segments(kvs[i].val)|
  {
    seq(|kvs|, i requires 0 <= i < |kvs| => |Segments(kvs[i].val)|)
  }

  function AllSegments(kvs: seq<Pair>): (r: seq<string>)
    ensures forall k :: 0 <= k < |r| ==> r[k] != "" && ColonFree(r[k])
    decreases |kvs|
  {
    if kvs == [] then [] else AllSegments(kvs[..|kvs| - 1]) + Segments(kvs[|kvs| - 1].val)
  }

  function Encoded(kvs: seq<Pair>): Packed {
    Packed(Join(Keys(kvs)), Counts(kvs), Join(AllSegments(kvs)))
  }

  /** The pairs the encoder takes: keys not empty and colon-free. */
  predicate Encodable(kvs: seq<Pair>) {
    forall i :: 0 <= i < |kvs| ==> kvs[i].key != "" && ColonFree(kvs[i].key)
  }

  // ---------------------------------------------------------------- the decoder

  /** Entries of a blob, as the export code counts them. */
  function Entries(blob: string): nat {
    if blob == "" then 0 else |Split(blob)|
  }

  function Total(counts: seq<int>): int {
    if counts == [] then 0 else Total(counts[..|counts| - 1]) + counts[|counts| - 1]
  }

  /** The checks of _sf_env_validate on the three blobs. */
  predicate Validates(p: Packed) {
    && Entries(p.keys) == |p.counts|
    && (forall i :: 0 <= i < |p.counts| ==> p.counts[i] >= 0)
    && Entries(p.values) == Total(p.counts)
  }

  function KeyOf(p: Packed, i: nat): Option<string> {
    var parts := Split(p.keys);
    if i < |parts| then Some(parts[i]) else None
  }

  /** The value of entry i: as many parts of the value blob as its count says, behind those of the
      entries before it. */
  function ValueOf(p: Packed, i: nat): (r: string)
    requires Validates(p) && i < |p.counts|
  {
    TotalRange(p.counts, i);
    var lo, n := Total(p.counts[..i]), p.counts[i];
    if n == 0 then ""
    else
      assert p.values != "";
      Join(Split(p.values)[lo..lo + n])
  }

  lemma {:induction false} TotalRange(counts: seq<int>, i: nat)
    requires i < |counts| && forall k :: 0 <= k < |counts| ==> counts[k] >= 0
    ensures 0 <= Total(counts[..i]) <= Total(counts[..i]) + counts[i] <= Total(counts)
    decreases |counts|
  {
    var cs := counts[..|counts| - 1];
    if i < |cs| {
      assert cs[..i] == counts[..i];
      TotalRange(cs, i);
    } else {
      TotalNat(cs);
    }
  }

  lemma {:induction false} TotalNat(counts: seq<int>)
    requires forall k :: 0 <= k < |counts| ==> counts[k] >= 0
    ensures Total(counts) >= 0
    decreases |counts|
  {
    if counts != [] {
      TotalNat(counts[..|counts| - 1]);
    }
  }

  lemma {:induction false} TotalSegments(kvs: seq<Pair>)
    ensures Total(Counts(kvs)) == |AllSegments(kvs)|
    decreases |kvs|
  {
    hide Segments;
    if kvs != [] {
      TotalSegments(kvs[..|kvs| - 1]);
      assert Counts(kvs)[..|kvs| - 1] == Counts(kvs[..|kvs| - 1]);
    }
  }

  lemma {:induction false} SegmentsAt(kvs: seq<Pair>, i: nat)
    requires i < |kvs|
    ensures var lo, n := |AllSegments(kvs[..i])|, |Segments(kvs[i].val)|;
            lo + n <= |AllSegments(kvs)| && AllSegments(kvs)[lo..lo + n] == Segments(kvs[i].val)
    decreases |kvs|
  {
    hide Segments;
    var init := kvs[..|kvs| - 1];
    if i < |init| {
      assert init[..i] == kvs[..i] && init[i] == kvs[i];
      SegmentsAt(init, i);
    }
  }

  lemma EncodedValid(kvs: seq<Pair>)
    requires Encodable(kvs)
    ensures Validates(Encoded(kvs))
  {
    hide Segments;
    hide Split;
    hide Join;
    TotalSegments(kvs);
    JoinEmpty(Keys(kvs));
    JoinEmpty(AllSegments(kvs));
    if kvs != [] {
      SplitJoin(Keys(kvs));
    }
    if AllSegments(kvs) != [] {
      SplitJoin(AllSegments(kvs));
    }
  }

  /** Unpacking gives back every key, and its value without the empty segments, in order. */
  lemma DecodeEncode(kvs: seq<Pair>, i: nat)
    requires Encodable(kvs) && i < |kvs|
    ensures var p := Encoded(kvs);
            && Validates(p) && |p.counts| == |kvs|
            && KeyOf(p, i) == Some(kvs[i].key)
            && ValueOf(p, i) == Join(Segments(kvs[i].val))
  {
    EncodedValid(kvs);
    KeyDecodes(kvs, i);
    ValueDecodes(kvs, i);
  }

  lemma KeyDecodes(kvs: seq<Pair>, i: nat)
    requires Encodable(kvs) && i < |kvs|
    ensures KeyOf(Encoded(kvs), i) == Some(kvs[i].key)
  {
    hide Segments;
    hide Split;
    hide Join;
    hide AllSegments;
    SplitJoin(Keys(kvs));
  }

  lemma ValueDecodes(kvs: seq<Pair>, i: nat)
    requires Encodable(kvs) && i < |kvs| && Validates(Encoded(kvs)) && |Encoded(kvs).counts| == |kvs|
    ensures ValueOf(Encoded(kvs), i) == Join(Segments(kvs[i].val))
  {
    hide Segments;
    hide Split;
    hide Join;
    hide AllSegments;
    hide Validates;
    hide Total;
    TotalSegments(kvs[..i]);
    assert Counts(kvs)[..i] == Counts(kvs[..i]);
    SegmentsAt(kvs, i);
    if Counts(kvs)[i] == 0 {
      JoinEmpty(Segments(kvs[i].val));
    } else {
      SplitJoin(AllSegments(kvs));
    }
  }

  predicate NoneBlank(parts: seq<string>) {
    forall k :: 0 <= k < |parts| ==> parts[k] != ""
  }

  /** A value is given back as it was exactly when it has no empty segment, or is empty itself. */
  lemma WholeValue(val: string)
    ensures Join(Segments(val)) == val <==> val == "" || NoneBlank(Split(val))
  {
    if val == "" {
      NothingKept();
    } else if NoneBlank(Split(val)) {
      NoneEmpty(Split(val));
      JoinSplit(val);
    } else if Join(Segments(val)) == val {
      WholeOnly(val);
    }
  }

  lemma WholeOnly(val: string)
    requires val != "" && Join(Segments(val)) == val
    ensures NoneBlank(Split(val))
  {
    var ks := Segments(val);
    JoinEmpty(ks);
    SplitJoin(ks);
    assert Split(val) == ks;
  }

  lemma {:induction false} NoneEmpty(parts: seq<string>)
    requires NoneBlank(parts)
    ensures NonEmpty(parts) == parts
    decreases |parts|
  {
    if parts != [] {
      NoneEmpty(parts[..|parts| - 1]);
    }
  }

  lemma JoinLonger(parts: seq<string>, c: char)
    requires parts != []
    ensures Join(Longer(parts, [c])) == Join(parts) + [c]
  {
    var qs, l := parts[..|parts| - 1], parts[|parts| - 1];
    JoinNext(qs, l);
    JoinNext(qs, l + [c]);
    hide Join;
    assert parts == qs + [l];
    if qs != [] {
      assert Join(qs) + ":" + (l + [c]) == Join(qs) + ":" + l + [c];
    }
  }

  lemma {:induction false} JoinSplit(s: string)
    ensures Join(Split(s)) == s
    decreases |s|
  {
    if s == [] {
      NothingSeen();
    } else {
      var t, c := s[..|s| - 1], s[|s| - 1];
      JoinSplit(t);
      assert t + [c] == s;
      SplitChar(t, c);
      JoinLonger(Split(t), c);
      JoinNext(Split(t), []);
      hide Join;
      hide Split;
      hide Longer;
      assert s + [] == s && t + ":" + [] == t + [':'];
    }
  }

  // ---------------------------------------------------------------- the encoder's code

  /** _sf_count_colon_segments, over the n characters scanned and the state of the scan. */
  lemma CountNext(val: string, i: nat)
    requires i < |val|
    ensures Split(val[..i + 1]) == if val[i] == ':' then Split(val[..i]) + [[]] else Longer(Split(val[..i]), [val[i]])
  {
    assert val[..i + 1] == val[..i] + [val[i]];
    SplitChar(val[..i], val[i]);
  }

  /** The first scanner: how many segments are not empty. */
  method CountSegments(val: string) returns (nseg: nat)
    ensures nseg == |Segments(val)|
  {
    hide Split;
    hide NonEmpty;
    if val == "" {
      NothingKept();
      return 0;
    }
    nseg := 0;
    var inSeg := false;
    var i := 0;
    NothingSeen();
    assert val[..0] == "";
    while i < |val|
      invariant i <= |val|
      invariant var ps := Split(val[..i]);
                && inSeg == (ps[|ps| - 1] != "")
                && nseg == |NonEmpty(ps[..|ps| - 1])|
    {
      ghost var ps := Split(val[..i]);
      CountNext(val, i);
      CloseLast(ps);
      if val[i] == ':' {
        assert (ps + [[]])[..|ps|] == ps;
        if inSeg {
          nseg := nseg + 1;
          inSeg := false;
        }
      } else {
        assert Longer(ps, [val[i]])[..|ps| - 1] == ps[..|ps| - 1];
        inSeg := true;
      }
      i := i + 1;
    }
    assert val[..i] == val;
    CloseLast(Split(val));
    if inSeg {
      nseg := nseg + 1;
    }
  }

  lemma NothingKept()
    ensures Segments("") == []
  {
    assert Split("") == [[]];
  }

  lemma NothingSeen()
    ensures Split("") == [[]] && NonEmpty([[]][..0]) == []
  {
  }

  lemma CloseLast(parts: seq<string>)
    requires parts != []
    ensures NonEmpty(parts) == NonEmpty(parts[..|parts| - 1])
            + (if parts[|parts| - 1] != "" then [parts[|parts| - 1]] else [])
  {
  }

  /** A C string in a growing buffer: its length leaves room for the terminator, which is there. */
  ghost predicate Blob(data: array<char>, len: nat)
    reads data
  {
    len == 0 || (len < data.Length && data[len] == '\0')
  }

  /** The doubling of the capacity until `need` fits. */
  method Reserve(data: array<char>, len: nat, need: nat) returns (nb: array<char>)
    requires len <= data.Length
    ensures nb == data || fresh(nb)
    ensures len <= nb.Length && need <= nb.Length && nb[..len] == data[..len]
  {
    if need <= data.Length { return data; }
    var nc := if data.Length == 0 then 256 else data.Length * 2;
    while nc < need
      invariant 0 < nc && data.Length <= nc
      decreases need - nc
    {
      nc := nc * 2;
    }
    nb := new char[nc](_ => '\0');
    var i := 0;
    while i < len
      invariant i <= len && nb[..i] == data[..i]
    {
      nb[i] := data[i];
      i := i + 1;
    }
  }

  /** Appends a part behind a colon, or as the first part: the buffer growth is always enough. */
  method AppendPart(data: array<char>, len: nat, seg: string) returns (nb: array<char>, n: nat)
    requires len <= data.Length && Blob(data, len) && seg != ""
    modifies data
    ensures nb == data || fresh(nb)
    ensures n <= nb.Length && n > 0 && Blob(nb, n)
    ensures nb[..n] == if len > 0 then old(data[..len]) + ":" + seg else seg
  {
    nb := Reserve(data, len, len + |seg| + (if len > 0 then 1 else 0) + 1);
    n := len;
    if n > 0 {
      CopyInto(nb, n, ":");
      n := n + 1;
    }
    CopyInto(nb, n, seg);
    n := n + |seg|;
    nb[n] := '\0';
  }

  predicate HoldsKeys(text: string, kvs: seq<Pair>) {
    Encodable(kvs) && text == Join(Keys(kvs))
  }

  predicate HoldsCounts(counts: seq<int>, kvs: seq<Pair>) {
    counts == Counts(kvs)
  }

  predicate HoldsValues(text: string, kvs: seq<Pair>) {
    text == Join(AllSegments(kvs))
  }

  lemma HoldsKeysNext(text: string, kvs: seq<Pair>, kv: Pair)
    requires HoldsKeys(text, kvs) && kv.key != "" && ColonFree(kv.key)
    ensures HoldsKeys(if |text| > 0 then text + ":" + kv.key else kv.key, kvs + [kv])
  {
    hide ColonFree;
    hide Join;
    var ks := Keys(kvs);
    KeysNonBlank(kvs);
    JoinEmpty(ks);
    JoinNext(ks, kv.key);
    assert Keys(kvs + [kv]) == ks + [kv.key];
    EncodableNext(kvs, kv);
    hide Encodable;
    hide Keys;
  }

  lemma KeysNonBlank(kvs: seq<Pair>)
    requires Encodable(kvs)
    ensures forall k :: 0 <= k < |Keys(kvs)| ==> Keys(kvs)[k] != ""
  {
  }

  lemma EncodableNext(kvs: seq<Pair>, kv: Pair)
    requires Encodable(kvs) && kv.key != "" && ColonFree(kv.key)
    ensures Encodable(kvs + [kv])
  {
    hide ColonFree;
  }

  lemma HoldsCountsNext(counts: seq<int>, kvs: seq<Pair>, kv: Pair)
    requires HoldsCounts(counts, kvs)
    ensures HoldsCounts(counts + [|Segments(kv.val)|], kvs + [kv])
  {
    hide Segments;
  }

  lemma HoldsValuesNext(text: string, kvs: seq<Pair>, kv: Pair)
    requires HoldsValues(text, kvs)
    ensures text == Join(AllSegments(kvs)) && HoldsValues(Join(AllSegments(kvs) + Segments(kv.val)), kvs + [kv])
  {
    hide Segments;
    hide Join;
    assert (kvs + [kv])[..|kvs|] == kvs;
  }

  lemma HoldsNothing()
    ensures HoldsKeys("", []) && HoldsCounts([], []) && HoldsValues("", [])
  {
  }

  lemma HoldsIs(keys: string, counts: seq<int>, values: string, kvs: seq<Pair>)
    requires HoldsKeys(keys, kvs) && HoldsCounts(counts, kvs) && HoldsValues(values, kvs)
    ensures Packed(keys, counts, values) == Encoded(kvs) && Encodable(kvs)
  {
  }

  /** The static snapshot buffers. */
  class Snapshot {
    var keyBlob: array<char>
    var keyLen: nat
    var counts: array<int>
    var nkeys: nat
    var valueBlob: array<char>
    var valueLen: nat
    /** The pairs appended so far. */
    ghost var kept: seq<Pair>

    ghost predicate Valid()
      reads this, keyBlob, valueBlob, counts
    {
      && keyBlob != valueBlob
      && keyLen <= keyBlob.Length && Blob(keyBlob, keyLen)
      && valueLen <= valueBlob.Length && Blob(valueBlob, valueLen)
      && nkeys <= counts.Length
      && HoldsKeys(keyBlob[..keyLen], kept) && HoldsCounts(counts[..nkeys], kept)
      && HoldsValues(valueBlob[..valueLen], kept)
    }

    constructor ()
      ensures Valid() && kept == []
      ensures fresh(keyBlob) && fresh(valueBlob) && fresh(counts)
    {
      keyBlob, keyLen := new char[0], 0;
      valueBlob, valueLen := new char[0], 0;
      counts, nkeys := new int[0], 0;
      kept := [];
    }

    /** The count array, grown by doubling. */
    method AddCount(n: int)
      requires nkeys <= counts.Length
      modifies this`counts, this`nkeys, counts
      ensures counts == old(counts) || fresh(counts)
      ensures nkeys == old(nkeys) + 1 && nkeys <= counts.Length && counts[..nkeys] == old(counts[..nkeys]) + [n]
    {
      if nkeys + 1 > counts.Length {
        var nc := if counts.Length == 0 then 32 else counts.Length * 2;
        var nb := new int[nc](_ => 0);
        var i := 0;
        while i < nkeys
          invariant i <= nkeys && nb[..i] == counts[..i]
          modifies nb
        {
          nb[i] := counts[i];
          i := i + 1;
        }
        counts := nb;
      }
      counts[nkeys] := n;
      nkeys := nkeys + 1;
    }

    /** The second scanner: appends every segment that is not empty to the value blob. */
    method AddSegments(val: string, ghost had: seq<string>)
      requires valueLen <= valueBlob.Length && Blob(valueBlob, valueLen)
      requires valueBlob[..valueLen] == Join(had) && forall k :: 0 <= k < |had| ==> had[k] != ""
      modifies this`valueBlob, this`valueLen, valueBlob
      ensures valueBlob == old(valueBlob) || fresh(valueBlob)
      ensures valueLen <= valueBlob.Length && Blob(valueBlob, valueLen)
      ensures valueBlob[..valueLen] == Join(had + Segments(val))
    {
      hide Split;
      hide Join;
      hide NonEmpty;
      if val == "" {
        NothingKept();
        assert had + Segments(val) == had;
        return;
      }
      var start, p := 0, 0;
      NothingSeen();
      assert val[..0] == "" && val[0..0] == "";
      ghost var done: seq<string> := [];
      assert had + done == had;
      while true
        invariant start <= p <= |val|
        invariant valueBlob == old(valueBlob) || fresh(valueBlob)
        invariant valueLen <= valueBlob.Length && Blob(valueBlob, valueLen)
        invariant var ps := Split(val[..p]);
                  ps[|ps| - 1] == val[start..p] && done == NonEmpty(ps[..|ps| - 1])
        invariant valueBlob[..valueLen] == Join(had + done) && forall k :: 0 <= k < |done| ==> done[k] != ""
        decreases |val| - p
      {
        ghost var ps := Split(val[..p]);
        if p == |val| || val[p] == ':' {
          CloseLast(ps);
          if p > start {
            AppendSegment(val[start..p], had + done);
            assert had + done + [val[start..p]] == had + (done + [val[start..p]]);
            done := done + [val[start..p]];
          }
          assert done == NonEmpty(ps);
          if p == |val| {
            assert val[..p] == val;
            break;
          }
          CountNext(val, p);
          assert (ps + [[]])[..|ps|] == ps;
          start := p + 1;
        } else {
          CountNext(val, p);
          assert Longer(ps, [val[p]])[..|ps| - 1] == ps[..|ps| - 1];
          assert val[start..p] + [val[p]] == val[start..p + 1];
        }
        p := p + 1;
      }
    }

    method AppendSegment(seg: string, ghost had: seq<string>)
      requires valueLen <= valueBlob.Length && Blob(valueBlob, valueLen) && seg != ""
      requires valueBlob[..valueLen] == Join(had) && forall k :: 0 <= k < |had| ==> had[k] != ""
      modifies this`valueBlob, this`valueLen, valueBlob
      ensures valueBlob == old(valueBlob) || fresh(valueBlob)
      ensures valueLen <= valueBlob.Length && Blob(valueBlob, valueLen)
      ensures valueBlob[..valueLen] == Join(had + [seg])
    {
      JoinEmpty(had);
      JoinNext(had, seg);
      hide Join;
      valueBlob, valueLen := AppendPart(valueBlob, valueLen, seg);
    }

    method PutKey(kv: Pair)
      requires keyLen <= keyBlob.Length && Blob(keyBlob, keyLen) && HoldsKeys(keyBlob[..keyLen], kept)
      requires kv.key != "" && ColonFree(kv.key)
      modifies this`keyBlob, this`keyLen, keyBlob
      ensures keyBlob == old(keyBlob) || fresh(keyBlob)
      ensures keyLen <= keyBlob.Length && Blob(keyBlob, keyLen) && HoldsKeys(keyBlob[..keyLen], kept + [kv])
    {
      HoldsKeysNext(keyBlob[..keyLen], kept, kv);
      hide HoldsKeys;
      hide HoldsCounts;
      hide HoldsValues;
      hide Join;
      hide Segments;
      hide AllSegments;
      hide ColonFree;
      keyBlob, keyLen := AppendPart(keyBlob, keyLen, kv.key);
    }

    method PutCount(kv: Pair)
      requires nkeys <= counts.Length && HoldsCounts(counts[..nkeys], kept)
      modifies this`counts, this`nkeys, counts
      ensures counts == old(counts) || fresh(counts)
      ensures nkeys <= counts.Length && HoldsCounts(counts[..nkeys], kept + [kv])
    {
      HoldsCountsNext(counts[..nkeys], kept, kv);
      hide HoldsKeys;
      hide HoldsCounts;
      hide HoldsValues;
      hide Join;
      hide Segments;
      hide AllSegments;
      hide ColonFree;
      var nseg := CountSegments(kv.val);
      AddCount(nseg);
    }

    method PutValue(kv: Pair)
      requires valueLen <= valueBlob.Length && Blob(valueBlob, valueLen) && HoldsValues(valueBlob[..valueLen], kept)
      modifies this`valueBlob, this`valueLen, valueBlob
      ensures valueBlob == old(valueBlob) || fresh(valueBlob)
      ensures valueLen <= valueBlob.Length && Blob(valueBlob, valueLen)
              && HoldsValues(valueBlob[..valueLen], kept + [kv])
    {
      HoldsValuesNext(valueBlob[..valueLen], kept, kv);
      hide HoldsKeys;
      hide HoldsCounts;
      hide HoldsValues;
      hide Join;
      hide Segments;
      hide AllSegments;
      hide ColonFree;
      AddSegments(kv.val, AllSegments(kept));
    }

    /** _sf_snapshot_append_key */
    method AppendKey(key: string, val: string) returns (ok: bool)
      requires Valid() && key != ""
      modifies this, keyBlob, valueBlob, counts
      ensures Valid()
      ensures keyBlob == old(keyBlob) || fresh(keyBlob)
      ensures valueBlob == old(valueBlob) || fresh(valueBlob)
      ensures counts == old(counts) || fresh(counts)
      ensures ok <==> ColonFree(key)
      ensures kept == if ok then old(kept) + [Pair(key, val)] else old(kept)
    {
      hide HoldsKeys;
      hide HoldsCounts;
      hide HoldsValues;
      if ':' in key { return false; }
      hide Blob;
      PutKey(Pair(key, val));
      PutCount(Pair(key, val));
      PutValue(Pair(key, val));
      kept := kept + [Pair(key, val)];
      ok := true;
    }

    /** tpb_rtenv_clear_environ_snapshot */
    method Clear()
      modifies this
      ensures Valid() && kept == []
      ensures fresh(keyBlob) && fresh(valueBlob) && fresh(counts)
    {
      HoldsNothing();
      hide HoldsKeys;
      hide HoldsCounts;
      hide HoldsValues;
      keyBlob, keyLen := new char[0], 0;
      valueBlob, valueLen := new char[0], 0;
      counts, nkeys := new int[0], 0;
      kept := [];
    }

    /** One turn of the capture loop. */
    method CaptureOne(e: string, decls: seq<Row<Var>>) returns (ok: bool)
      requires Valid()
      modifies this, keyBlob, valueBlob, counts
      ensures Valid()
      ensures keyBlob == old(keyBlob) || fresh(keyBlob)
      ensures valueBlob == old(valueBlob) || fresh(valueBlob)
      ensures counts == old(counts) || fresh(counts)
      ensures After(old(kept), Judge(e, decls)) == if ok then Going(kept) else Failed(kept)
    {
      hide HoldsKeys;
      hide HoldsCounts;
      hide HoldsValues;
      hide Lookup;
      var eq := CharAt(e, '=');
      if eq == |e| || eq == 0 { return true; }
      var key, actual := Cut(e[..eq], KEY_MAX), e[eq + 1..];
      var valbuf := Cut(actual, VAL_MAX);
      var decl := Lookup(decls, key);
      if decl.Some? {
        if decl.value.onGet == 0 { return true; }
        if decl.value.onGet == 2 && actual != decl.value.value { return false; }
      }
      ok := AppendKey(key, valbuf);
      if !ok {
        Clear();
      }
    }

    /** tpb_rtenv_capture_environ_snapshot, once the declarations have been merged. */
    method Capture(environ: seq<string>, decls: seq<Row<Var>>) returns (ok: bool)
      requires Valid()
      modifies this, keyBlob, valueBlob, counts
      ensures Valid()
      ensures Scanned(environ, decls) == if ok then Going(kept) else Failed(kept)
    {
      Clear();
      hide HoldsKeys;
      hide HoldsCounts;
      hide HoldsValues;
      hide Judge;
      var i := 0;
      while i < |environ|
        invariant i <= |environ| && Valid()
        invariant fresh(keyBlob) && fresh(valueBlob) && fresh(counts)
        invariant Scanned(environ[..i], decls) == Going(kept)
      {
        ScannedNext(environ, decls, i);
        ok := CaptureOne(environ[i], decls);
        if !ok {
          ScannedFails(environ, decls, i + 1);
          return false;
        }
        i := i + 1;
      }
      assert environ[..i] == environ;
      return true;
    }
  }

  const KEY_MAX: nat := 255
  const VAL_MAX: nat := 65535

  datatype Verdict = Skip | Stop | Keep(kv: Pair)

  /** What capture does with one environment string: skip it, stop on a forbidden difference, or keep
      key and value as far as the buffers hold them. */
  function Judge(e: string, decls: seq<Row<Var>>): (v: Verdict)
    ensures v.Keep? ==> v.kv.key != ""
  {
    var eq := CharAt(e, '=');
    if eq == |e| || eq == 0 then Skip
    else
      var key, actual := Cut(e[..eq], KEY_MAX), e[eq + 1..];
      var decl := Lookup(decls, key);
      if decl.Some? && decl.value.onGet == 0 then Skip
      else if decl.Some? && decl.value.onGet == 2 && actual != decl.value.value then Stop
      else Keep(Pair(key, Cut(actual, VAL_MAX)))
  }

  /** Still going with these pairs, or failed with these left in the snapshot. */
  datatype Outcome = Going(kvs: seq<Pair>) | Failed(left: seq<Pair>)

  function After(kvs: seq<Pair>, v: Verdict): Outcome {
    match v
    case Skip => Going(kvs)
    case Stop => Failed(kvs)
    case Keep(kv) => if ColonFree(kv.key) then Going(kvs + [kv]) else Failed([])
  }

  function Scanned(environ: seq<string>, decls: seq<Row<Var>>): (o: Outcome)
    ensures o.Going? ==> Encodable(o.kvs)
    decreases |environ|
  {
    if environ == [] then Going([])
    else
      match Scanned(environ[..|environ| - 1], decls)
      case Failed(left) => Failed(left)
      case Going(kvs) => After(kvs, Judge(environ[|environ| - 1], decls))
  }

  /** Validation accepts exactly the blobs that are so many parts with colons between them: as many keys as
      counts, none of them negative, and as many value parts as the counts come to. */
  lemma ValidatesExactly(p: Packed)
    ensures Validates(p) <==>
            exists ks, vs ::
              && ColonFrees(ks) && ColonFrees(vs) && p.keys == Join(ks) && p.values == Join(vs)
              && (p.keys == "" <==> ks == []) && (p.values == "" <==> vs == [])
              && |ks| == |p.counts| && (forall i :: 0 <= i < |p.counts| ==> p.counts[i] >= 0)
              && Total(p.counts) == |vs|
  {
    hide Split;
    hide Join;
    hide Total;
    if Validates(p) {
      var ks, vs := Parted(p.keys), Parted(p.values);
      PartedIs(p.keys);
      PartedIs(p.values);
    }
    if ks, vs :| && ColonFrees(ks) && ColonFrees(vs) && p.keys == Join(ks) && p.values == Join(vs)
                 && (p.keys == "" <==> ks == []) && (p.values == "" <==> vs == [])
                 && |ks| == |p.counts| && (forall i :: 0 <= i < |p.counts| ==> p.counts[i] >= 0)
                 && Total(p.counts) == |vs| {
      EntriesOf(ks);
      EntriesOf(vs);
    }
  }

  /** The parts of a blob, none of the empty one. */
  function Parted(blob: string): seq<string> {
    if blob == "" then [] else Split(blob)
  }

  lemma PartedIs(blob: string)
    ensures ColonFrees(Parted(blob)) && Join(Parted(blob)) == blob && |Parted(blob)| == Entries(blob)
    ensures blob == "" <==> Parted(blob) == []
  {
    JoinSplit(blob);
    hide Split;
  }

  lemma EntriesOf(parts: seq<string>)
    requires ColonFrees(parts) && (Join(parts) == "" <==> parts == [])
    ensures Entries(Join(parts)) == |parts|
  {
    if parts != [] {
      SplitJoin(parts);
    }
    hide Split;
    hide Join;
  }

  // ---------------------------------------------------------------- what is captured, variable by variable

  /** What capture does with a variable, by its declaration: without one, or with one that says neither
      ignore (0) nor fail (2), it is kept; ignored ones are not; and one that says fail stops the capture
      unless the value is the declared one. Key and value are kept as far as their buffers hold them, and
      looked up and compared in that form and as they are. */
  lemma JudgeIs(key: string, val: string, decls: seq<Row<Var>>)
    requires key != "" && '=' !in key
    ensures var kept := Keep(Pair(Cut(key, 255), Cut(val, 65535)));
            Judge(key + "=" + val, decls) ==
            match Lookup(decls, Cut(key, 255))
            case None => kept
            case Some(d) => if d.onGet == 0 then Skip else if d.onGet == 2 && d.value != val then Stop else kept
  {
    var e := key + "=" + val;
    CharAtIs(e, '=', |key|);
    assert e[..|key|] == key && e[|key| + 1..] == val;
    hide Lookup;
  }

  /** A string without a name in front of an equals sign is no variable. */
  lemma JudgeNone(e: string, decls: seq<Row<Var>>)
    requires '=' !in e || e[0] == '='
    ensures Judge(e, decls) == Skip
  {
    hide Lookup;
    var eq := CharAt(e, '=');
    assert eq < |e| ==> e[eq] in e;
  }

  /** A variable that its declaration lets pass, or ignores. */
  predicate Wanted(v: Pair, decls: seq<Row<Var>>) {
    var d := Lookup(decls, Cut(v.key, 255)); d.None? || d.value.onGet != 0
  }

  /** One that differs from a declaration that does not allow it. */
  predicate Forbidden(v: Pair, decls: seq<Row<Var>>) {
    var d := Lookup(decls, Cut(v.key, 255)); d.Some? && d.value.onGet == 2 && d.value.value != v.val
  }

  /** One whose key cannot be stored. */
  predicate Unstorable(v: Pair, decls: seq<Row<Var>>) {
    Wanted(v, decls) && !Forbidden(v, decls) && ':' in Cut(v.key, 255)
  }

  function Environ(vars: seq<Pair>): (es: seq<string>)
    ensures |es| == |vars| && forall i :: 0 <= i < |vars| ==> es[i] == vars[i].key + "=" + vars[i].val
  {
    seq(|vars|, i requires 0 <= i < |vars| => vars[i].key + "=" + vars[i].val)
  }

  /** The wanted variables, cut to their buffers. */
  function Picked(vars: seq<Pair>, decls: seq<Row<Var>>): seq<Pair> {
    if vars == [] then []
    else
      var v := vars[|vars| - 1];
      Picked(vars[..|vars| - 1], decls)
      + (if Wanted(v, decls) then [Pair(Cut(v.key, 255), Cut(v.val, 65535))] else [])
  }

  /** Over an environment of variables: when none is forbidden or cannot be stored, the wanted ones are
      captured in order. The first one that is ends the capture: a forbidden one leaves the wanted ones
      before it, one that cannot be stored leaves nothing. */
  lemma {:induction false} CaptureIs(vars: seq<Pair>, n: nat, decls: seq<Row<Var>>)
    requires forall i :: 0 <= i < |vars| ==> vars[i].key != "" && '=' !in vars[i].key
    requires n <= |vars| && forall i :: 0 <= i < n ==> !Forbidden(vars[i], decls) && !Unstorable(vars[i], decls)
    ensures Scanned(Environ(vars[..n]), decls) == Going(Picked(vars[..n], decls))
    ensures n < |vars| && Forbidden(vars[n], decls) ==>
              Scanned(Environ(vars), decls) == Failed(Picked(vars[..n], decls))
    ensures n < |vars| && Unstorable(vars[n], decls) ==> Scanned(Environ(vars), decls) == Failed([])
    decreases n
  {
    hide Judge;
    hide Wanted;
    hide Forbidden;
    hide Unstorable;
    if n > 0 {
      CaptureIs(vars, n - 1, decls);
      assert vars[..n][..n - 1] == vars[..n - 1];
      assert Environ(vars[..n])[..n - 1] == Environ(vars[..n - 1]);
      OneVariable(vars[n - 1], decls);
    }
    if n < |vars| {
      OneVariable(vars[n], decls);
      var es := Environ(vars);
      assert es[..n] == Environ(vars[..n]);
      ScannedNext(es, decls, n);
      if Forbidden(vars[n], decls) || Unstorable(vars[n], decls) {
        ScannedFails(es, decls, n + 1);
      }
    }
  }

  lemma OneVariable(v: Pair, decls: seq<Row<Var>>)
    requires v.key != "" && '=' !in v.key
    ensures var j, kept := Judge(v.key + "=" + v.val, decls), Pair(Cut(v.key, 255), Cut(v.val, 65535));
            && (Forbidden(v, decls) <==> j == Stop) && (!Wanted(v, decls) <==> j == Skip)
            && (Wanted(v, decls) && !Forbidden(v, decls) ==> j == Keep(kept))
            && (Unstorable(v, decls) <==> j == Keep(kept) && !ColonFree(kept.key))
  {
    JudgeIs(v.key, v.val, decls);
    hide Judge;
    hide Lookup;
  }

  lemma ScannedNext(environ: seq<string>, decls: seq<Row<Var>>, i: nat)
    requires i < |environ|
    ensures Scanned(environ[..i + 1], decls) ==
      match Scanned(environ[..i], decls)
      case Failed(left) => Failed(left)
      case Going(kvs) => After(kvs, Judge(environ[i], decls))
  {
    hide Judge;
    assert environ[..i + 1][..i] == environ[..i];
  }

  lemma {:induction false} ScannedFails(environ: seq<string>, decls: seq<Row<Var>>, i: nat)
    requires i <= |environ| && Scanned(environ[..i], decls).Failed?
    ensures Scanned(environ, decls) == Scanned(environ[..i], decls)
    decreases |environ| - i
  {
    hide Judge;
    if i == |environ| {
      assert environ[..i] == environ;
    } else {
      ScannedNext(environ, decls, i);
      ScannedFails(environ, decls, i + 1);
    }
  }

  lemma JoinNext(parts: seq<string>, t: string)
    ensures Join(parts + [t]) == if parts == [] then t else Join(parts) + ":" + t
  {
    assert (parts + [t])[..|parts|] == parts;
  }

  // ---------------------------------------------------------------- the decoder's code

  /** _sf_env_blob_nkeys */
  method CountEntries(blob: string) returns (n: nat)
    ensures n == Entries(blob)
  {
    hide Split;
    if blob == "" { return 0; }
    n := 1;
    NothingSeen();
    assert blob[..0] == "";
    var i := 0;
    while i < |blob|
      invariant i <= |blob| && n == |Split(blob[..i])|
    {
      CountNext(blob, i);
      if blob[i] == ':' {
        n := n + 1;
      }
      i := i + 1;
    }
    assert blob[..i] == blob;
  }

  /** _sf_env_validate on the three blobs. */
  method Validate(p: Packed) returns (ok: bool)
    ensures ok <==> Validates(p)
  {
    hide Entries;
    var nkeys := CountEntries(p.keys);
    if nkeys != |p.counts| { return false; }
    var sum := 0;
    var i := 0;
    while i < |p.counts|
      invariant i <= |p.counts| && sum == Total(p.counts[..i])
      invariant forall k :: 0 <= k < i ==> p.counts[k] >= 0
    {
      if p.counts[i] < 0 { return false; }
      assert p.counts[..i + 1][..i] == p.counts[..i];
      sum := sum + p.counts[i];
      i := i + 1;
    }
    assert p.counts[..i] == p.counts;
    var nseg := CountEntries(p.values);
    return nseg == sum;
  }

  lemma {:induction false} JoinFront(parts: seq<string>)
    requires |parts| > 1
    ensures Join(parts) == parts[0] + ":" + Join(parts[1..])
    decreases |parts|
  {
    assert parts == [parts[0]] + parts[1..];
    JoinAppend([parts[0]], parts[1..]);
  }

  /** The scan to the next colon or to the end reads the first part of what is left. */
  method Token(blob: string, p: nat, ghost parts: seq<string>) returns (q: nat)
    requires p <= |blob| && parts != [] && ColonFrees(parts) && blob[p..] == Join(parts)
    ensures p <= q <= |blob| && blob[p..q] == parts[0]
    ensures if |parts| == 1 then q == |blob| else q < |blob| && blob[q] == ':' && blob[q + 1..] == Join(parts[1..])
  {
    if |parts| > 1 {
      JoinFront(parts);
    }
    hide Join;
    ghost var end := p + |parts[0]|;
    assert blob[p..] == parts[0] || blob[p..] == parts[0] + ":" + Join(parts[1..]);
    assert blob[p..end] == blob[p..][..|parts[0]|] == parts[0];
    assert |parts| > 1 ==> blob[end] == blob[p..][|parts[0]|] == ':';
    assert |parts| > 1 ==> blob[end + 1..] == blob[p..][|parts[0]| + 1..] == Join(parts[1..]);
    assert ColonFree(parts[0]);
    assert forall k :: p <= k < end ==> blob[k] == blob[p..end][k - p] && blob[k] != ':';
    q := p;
    while q < |blob| && blob[q] != ':'
      invariant p <= q <= end
    {
      q := q + 1;
    }
  }

  /** _sf_env_key_to_buf, with a buffer of buflen bytes. */
  method KeyToBuf(kb: string, idx: nat, buflen: nat) returns (r: Option<string>)
    ensures r == if idx < |Split(kb)| && |Split(kb)[idx]| < buflen then Some(Split(kb)[idx]) else None
  {
    hide Join;
    ghost var parts := Split(kb);
    JoinSplit(kb);
    hide Split;
    var p, cur := 0, 0;
    assert kb[0..] == kb && parts[0..] == parts;
    while true
      invariant cur < |parts| && p <= |kb| && kb[p..] == Join(parts[cur..]) && cur <= idx
      decreases |parts| - cur
    {
      var start := p;
      p := Token(kb, p, parts[cur..]);
      if cur == idx {
        if p - start + 1 > buflen { return None; }
        return Some(kb[start..p]);
      }
      if p == |kb| { return None; }
      assert parts[cur..][1..] == parts[cur + 1..];
      p, cur := p + 1, cur + 1;
    }
  }

  /** Where the scan stands once `done` parts have been read. */
  predicate At(vb: string, p: nat, parts: seq<string>, done: nat)
    requires done <= |parts|
  {
    p <= |vb| && if done < |parts| then vb[p..] == Join(parts[done..]) else p == |vb|
  }

  /** Nothing is left exactly in front of an empty last part. */
  lemma AtText(vb: string, p: nat, parts: seq<string>, done: nat)
    requires done < |parts| && At(vb, p, parts, done)
    ensures p <= |vb| && (p == |vb| <==> done == |parts| - 1 && parts[done] == "")
  {
    var rest := parts[done..];
    if |rest| > 1 {
      JoinFront(rest);
    }
  }

  /** One part read, and the colon behind it stepped over. */
  method Step(vb: string, p: nat, ghost parts: seq<string>, ghost done: nat) returns (q: nat, next: nat)
    requires done < |parts| && At(vb, p, parts, done) && ColonFrees(parts)
    ensures p <= q <= |vb| && vb[p..q] == parts[done] && At(vb, next, parts, done + 1)
  {
    hide Join;
    q := Token(vb, p, parts[done..]);
    assert parts[done..][1..] == parts[done + 1..];
    next := if q < |vb| && vb[q] == ':' then q + 1 else q;
  }

  /** The skipping loop of _sf_env_value_to_buf, in front of a part that is there. */
  method SkipParts(vb: string, skip: nat, ghost parts: seq<string>) returns (p: nat)
    requires skip < |parts| && At(vb, 0, parts, 0) && ColonFrees(parts)
    ensures At(vb, p, parts, skip)
  {
    hide At;
    p := 0;
    var nseg := 0;
    while nseg < skip && p < |vb|
      invariant nseg <= skip && At(vb, p, parts, nseg)
    {
      var q;
      q, p := Step(vb, p, parts, nseg);
      nseg := nseg + 1;
    }
    AtText(vb, p, parts, nseg);
  }

  /** n parts from index lo on, joined. */
  function Taken(parts: seq<string>, lo: nat, n: nat): string
    requires lo + n <= |parts|
  {
    Join(parts[lo..lo + n])
  }

  /** One part behind what has been copied: a colon goes in between only when something has been. */
  function Behind(out: string, part: string): string {
    if |out| > 0 then out + ":" + part else part
  }

  /** What the copying loop makes of n parts: without the colons behind leading empty ones. */
  function Gathered(parts: seq<string>, lo: nat, n: nat): string
    requires lo + n <= |parts|
  {
    if n == 0 then "" else Behind(Gathered(parts, lo, n - 1), parts[lo + n - 1])
  }

  /** The n parts reach an empty last part, in front of which the loop finds nothing left. */
  predicate EndsBlank(parts: seq<string>, lo: nat, n: nat) {
    n > 0 && lo + n == |parts| && parts[lo + n - 1] == ""
  }

  /** The copying loop of _sf_env_value_to_buf. */
  method TakeParts(vb: string, p0: nat, take: nat, outlen: nat, ghost parts: seq<string>, ghost lo: nat)
    returns (r: Option<string>)
    requires lo + take <= |parts| && At(vb, p0, parts, lo) && ColonFrees(parts) && outlen > 0
    ensures var v := Gathered(parts, lo, take);
            r == if EndsBlank(parts, lo, take) || |v| >= outlen then None else Some(v)
  {
    hide At;
    hide ColonFrees;
    hide Behind;
    var p: nat := p0;
    var out := "";
    var i := 0;
    while i < take
      invariant i <= take && At(vb, p, parts, lo + i)
      invariant out == Gathered(parts, lo, i) && |out| < outlen
      invariant !EndsBlank(parts, lo, i)
    {
      AtText(vb, p, parts, lo + i);
      GatheredGrows(parts, lo, i + 1, take);
      if p == |vb| { return None; }
      var start := p;
      var q;
      q, p := Step(vb, p, parts, lo + i);
      var more := CopyPart(out, vb[start..q], outlen);
      if more == None { return None; }
      out := more.value;
      i := i + 1;
    }
    return Some(out);
  }

  /** One part behind what has been copied, if it fits. */
  method CopyPart(out: string, part: string, outlen: nat) returns (r: Option<string>)
    requires |out| < outlen
    ensures var v := Behind(out, part); r == if |v| < outlen then Some(v) else None
  {
    var cell := out;
    if |cell| > 0 {
      if |cell| + 1 >= outlen { return None; }
      cell := cell + ":";
    }
    if |part| >= outlen - |cell| { return None; }
    assert "" + part == part;
    return Some(cell + part);
  }

  /** More parts only make the text longer. */
  lemma {:induction false} GatheredGrows(parts: seq<string>, lo: nat, i: nat, n: nat)
    requires i <= n && lo + n <= |parts|
    ensures |Gathered(parts, lo, i)| <= |Gathered(parts, lo, n)|
    decreases n
  {
    if i < n {
      GatheredGrows(parts, lo, i, n - 1);
    }
  }

  lemma TakenNext(parts: seq<string>, lo: nat, n: nat)
    requires n > 0 && lo + n <= |parts|
    ensures Taken(parts, lo, n)
            == if n == 1 then parts[lo] else Taken(parts, lo, n - 1) + ":" + parts[lo + n - 1]
  {
    assert parts[lo..lo + n][..n - 1] == parts[lo..lo + n - 1];
  }

  /** The parts are copied as they were joined exactly when the first is not empty, or is alone. */
  lemma {:induction false} GatheredIs(parts: seq<string>, lo: nat, n: nat)
    requires n > 0 && lo + n <= |parts|
    ensures Gathered(parts, lo, n) == Taken(parts, lo, n) <==> n == 1 || parts[lo] != ""
    ensures |Gathered(parts, lo, n)| <= |Taken(parts, lo, n)| - (if n > 1 && parts[lo] == "" then 1 else 0)
    ensures parts[lo] != "" ==> Gathered(parts, lo, n) != ""
    decreases n
  {
    hide Taken;
    TakenNext(parts, lo, n);
    if n == 1 {
      assert Gathered(parts, lo, 0) == "";
    } else {
      GatheredIs(parts, lo, n - 1);
    }
  }

  method SumBefore(counts: seq<int>, idx: nat) returns (sum: int)
    requires idx < |counts|
    ensures sum == Total(counts[..idx])
  {
    sum := 0;
    var i := 0;
    while i < idx
      invariant i <= idx && sum == Total(counts[..i])
    {
      assert counts[..i + 1][..i] == counts[..i];
      sum := sum + counts[i];
      i := i + 1;
    }
  }

  /** What the code reads as the value of entry i; None where it fails whatever the buffer. */
  function ReadOf(p: Packed, i: nat): Option<string>
    requires Validates(p) && i < |p.counts|
  {
    TotalRange(p.counts, i);
    var lo, n, parts := Total(p.counts[..i]), p.counts[i], Split(p.values);
    if n == 0 then Some("") else if EndsBlank(parts, lo, n) then None else Some(Gathered(parts, lo, n))
  }

  lemma ValueIs(p: Packed, idx: nat)
    requires Validates(p) && idx < |p.counts|
    ensures p.counts[idx] >= 0
    ensures p.counts[idx] == 0 ==> ValueOf(p, idx) == "" && ReadOf(p, idx) == Some("")
    ensures p.counts[idx] > 0 ==>
            var lo, n, parts := Total(p.counts[..idx]), p.counts[idx], Split(p.values);
            && p.values != "" && 0 <= lo && lo + n <= |parts|
            && ValueOf(p, idx) == Taken(parts, lo, n)
            && ReadOf(p, idx) == if EndsBlank(parts, lo, n) then None else Some(Gathered(parts, lo, n))
  {
    TotalRange(p.counts, idx);
    hide Split;
    hide Join;
    hide Total;
    hide Gathered;
    hide EndsBlank;
  }

  /** The parts of an entry that the code gives back as they are: none; or more, not ending in an empty
      last part of the blob, and starting with an empty one only when that is all. */
  predicate Readable(p: Packed, idx: nat)
    requires Validates(p) && idx < |p.counts|
  {
    TotalRange(p.counts, idx);
    var lo, n, parts := Total(p.counts[..idx]), p.counts[idx], Split(p.values);
    n == 0 || ((n == 1 || parts[lo] != "") && !(lo + n == |parts| && parts[|parts| - 1] == ""))
  }

  /** On every validated snapshot the value is read exactly when its parts are of that kind. */
  lemma ReadExactly(p: Packed, idx: nat)
    requires Validates(p) && idx < |p.counts|
    ensures ReadOf(p, idx) == Some(ValueOf(p, idx)) <==> Readable(p, idx)
  {
    ValueIs(p, idx);
    hide ValueOf;
    hide ReadOf;
    hide Validates;
    hide Split;
    hide Gathered;
    hide Taken;
    hide Total;
    if p.counts[idx] > 0 {
      GatheredIs(Split(p.values), Total(p.counts[..idx]), p.counts[idx]);
    }
  }

  /** A leading empty part loses its colon. */
  lemma LeadingBlank(a: string)
    requires a != "" && ColonFree(a)
    ensures var p := Packed("k", [2], ":" + a);
            Validates(p) && ValueOf(p, 0) == ":" + a && ReadOf(p, 0) == Some(a)
  {
    assert "" + ":" + a == ":" + a;
    TwoParts("", a);
    GatherTwo("", a);
  }

  /** A trailing empty part fails. */
  lemma TrailingBlank(a: string)
    requires a != "" && ColonFree(a)
    ensures var p := Packed("k", [2], a + ":");
            Validates(p) && ValueOf(p, 0) == a + ":" && ReadOf(p, 0) == None
  {
    assert a + ":" + "" == a + ":";
    TwoParts(a, "");
  }

  /** A snapshot of one key whose value has two parts. */
  lemma TwoParts(a: string, b: string)
    requires ColonFree(a) && ColonFree(b)
    ensures var p := Packed("k", [2], a + ":" + b);
            && Validates(p) && ValueOf(p, 0) == p.values
            && ReadOf(p, 0) == if EndsBlank([a, b], 0, 2) then None else Some(Gathered([a, b], 0, 2))
  {
    var p := Packed("k", [2], a + ":" + b);
    JoinTwo(a, b);
    SplitJoin([a, b]);
    SplitPlain("k");
    hide Split;
    hide Join;
    hide Gathered;
    assert Total([2][..0]) == 0 && Total([2]) == 2 by {
      assert [2][..0] == [];
    }
    assert Validates(p);
    ValueIs(p, 0);
    hide Validates;
    hide ValueOf;
    hide ReadOf;
    assert [a, b][0..2] == [a, b];
  }

  lemma GatherTwo(a: string, b: string)
    ensures Gathered([a, b], 0, 2) == Behind(a, b)
  {
    var parts := [a, b];
    assert Gathered(parts, 0, 0) == "" && Behind("", a) == a;
    assert Gathered(parts, 0, 1) == a;
  }

  lemma JoinTwo(a: string, b: string)
    ensures Join([a, b]) == a + ":" + b
  {
    assert Join([a]) == a;
    assert [a] + [b] == [a, b];
    JoinNext([a], b);
  }

  lemma AtStart(blob: string)
    ensures At(blob, 0, Split(blob), 0) && ColonFrees(Split(blob))
  {
    JoinSplit(blob);
    hide Split;
    hide Join;
    assert blob[0..] == blob && Split(blob)[0..] == Split(blob);
  }

  /** _sf_env_value_to_buf on a validated snapshot. */
  method ValueToBuf(p: Packed, idx: nat, outlen: nat) returns (r: Option<string>)
    requires Validates(p) && idx < |p.counts| && outlen > 0
    ensures r == match ReadOf(p, idx)
                 case None => None
                 case Some(v) => if |v| < outlen then Some(v) else None
  {
    ValueIs(p, idx);
    AtStart(p.values);
    hide Validates;
    hide ReadOf;
    hide ValueOf;
    hide Split;
    hide Total;
    hide At;
    hide Taken;
    hide Gathered;
    hide EndsBlank;
    hide ColonFrees;
    var skip := SumBefore(p.counts, idx);
    var take := p.counts[idx];
    if take == 0 {
      return Some("");
    }
    ghost var parts := Split(p.values);
    var start := SkipParts(p.values, skip, parts);
    r := TakeParts(p.values, start, take, outlen, parts, skip);
  }

  /** Without empty parts every value is read. */
  lemma PlainReads(p: Packed, idx: nat)
    requires Validates(p) && idx < |p.counts| && (p.values == "" || NoneBlank(Split(p.values)))
    ensures ReadOf(p, idx) == Some(ValueOf(p, idx))
  {
    ReadExactly(p, idx);
    ValueIs(p, idx);
    hide ReadOf;
    hide ValueOf;
    hide Split;
    hide Total;
  }

  const CELL: nat := 4096

  /** A row of the export: what a snapshot captured comes back, key and squeezed value, as long as
      they fit the cells. */
  method ExportRow(snap: Snapshot, idx: nat) returns (r: Option<Pair>)
    requires snap.Valid() && idx < |snap.kept|
    ensures var kv := snap.kept[idx];
            var v := Join(Segments(kv.val));
            r == if |kv.key| < 4096 && |v| < 4096 then Some(Pair(kv.key, v)) else None
  {
    var p := Packed(snap.keyBlob[..snap.keyLen], snap.counts[..snap.nkeys], snap.valueBlob[..snap.valueLen]);
    HoldsIs(p.keys, p.counts, p.values, snap.kept);
    EncodedValid(snap.kept);
    DecodeEncode(snap.kept, idx);
    EncodedText(snap.kept);
    PlainReads(p, idx);
    hide ReadOf;
    hide Split;
    hide Join;
    hide Segments;
    hide Encoded;
    hide Validates;
    hide ValueOf;
    var key := KeyToBuf(p.keys, idx, CELL);
    if key == None { return None; }
    var val := ValueToBuf(p, idx, CELL);
    if val == None { return None; }
    return Some(Pair(key.value, val.value));
  }

  lemma EncodedText(kvs: seq<Pair>)
    ensures var v := Encoded(kvs).values; v == "" || NoneBlank(Split(v))
  {
    JoinEmpty(AllSegments(kvs));
    if AllSegments(kvs) != [] {
      SplitJoin(AllSegments(kvs));
    }
  }
}
