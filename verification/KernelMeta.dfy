/** Updating one metadata key of a kernel record: the payload is rebuilt block by block, with offsets
    into the old payload computed from the already changed sizes. Payload bytes are characters. */
module KernelMeta {
  import opened Common
  import opened KeyValue

  /** The sum of the first i sizes. */
  function SumTo(sizes: seq<nat>, i: nat): (n: nat)
    requires i <= |sizes|
  {
    if i == 0 then 0 else SumTo(sizes, i - 1) + sizes[i - 1]
  }

  /** Memory at the payload: its bytes, and behind them whatever is there. */
  datatype Memory = Memory(data: seq<char>, past: nat -> char) {
    function At(k: nat): char {
      if k < |data| then data[k] else past(k)
    }

    function Slice(off: nat, n: nat): (s: seq<char>)
      ensures |s| == n && forall k :: 0 <= k < n ==> s[k] == At(off + k)
    {
      seq(n, k requires 0 <= k => At(off + k))
    }

    /** The C string at an offset inside the payload. */
    function Text(off: nat): (s: string)
      requires off <= |data|
      ensures '\0' !in s && off + |s| <= |data|
    {
      data[off..off + CharAt(data[off..], '\0')]
    }
  }

  /** Block i of the rebuilt payload: the new text for the changed header, and for every other one the
      old bytes at the offset that the new sizes give. */
  function NewBlock(mem: Memory, sizes: seq<nat>, h: nat, payload: string, i: nat): (b: seq<char>)
    requires h < |sizes| && i < |sizes| && sizes[h] == |payload| + 1
    ensures |b| == sizes[i]
  {
    if i == h then payload + "\0" else mem.Slice(SumTo(sizes, i), sizes[i])
  }

  /** The rebuilt payload up to block n. */
  function Blocks(mem: Memory, sizes: seq<nat>, h: nat, payload: string, n: nat): (s: seq<char>)
    requires h < |sizes| && n <= |sizes| && sizes[h] == |payload| + 1
    ensures |s| == SumTo(sizes, n)
  {
    if n == 0 then [] else Blocks(mem, sizes, h, payload, n - 1) + NewBlock(mem, sizes, h, payload, n - 1)
  }

  // ---------------------------------------------------------------- which blocks survive

  lemma {:induction false} SumToSet(sizes: seq<nat>, h: nat, len: nat, i: nat)
    requires h < |sizes| && i <= |sizes|
    ensures SumTo(sizes[h := len], i) == if i <= h then SumTo(sizes, i) else SumTo(sizes, i) - sizes[h] + len
    ensures i > h ==> SumTo(sizes, i) >= SumTo(sizes, h) + sizes[h]
    decreases i
  {
    if i > 0 {
      SumToSet(sizes, h, len, i - 1);
    }
  }

  lemma {:induction false} SumToGrows(sizes: seq<nat>, i: nat, k: nat)
    requires i <= k <= |sizes|
    ensures SumTo(sizes, i) <= SumTo(sizes, k)
    decreases k
  {
    if i < k {
      SumToGrows(sizes, i, k - 1);
    }
  }

  /** Block i of the rebuilt payload is block i of the old one. */
  ghost predicate Conserved(mem: Memory, sizes: seq<nat>, h: nat, payload: string, i: nat)
    requires h < |sizes| && i < |sizes|
  {
    NewBlock(mem, sizes[h := |payload| + 1], h, payload, i) == mem.Slice(SumTo(sizes, i), sizes[i])
  }

  /** Every block but the changed one is conserved, whatever the payload holds. */
  ghost predicate AlwaysConserved(sizes: seq<nat>, h: nat, payload: string)
    requires h < |sizes|
  {
    forall mem: Memory, i: nat :: i < |sizes| && i != h && |mem.data| == SumTo(sizes, |sizes|) ==>
      Conserved(mem, sizes, h, payload, i)
  }

  /** Blocks before the changed one keep their bytes. */
  lemma EarlierKept(mem: Memory, sizes: seq<nat>, h: nat, payload: string, i: nat)
    requires h < |sizes| && i < h
    ensures Conserved(mem, sizes, h, payload, i)
  {
    SumToSet(sizes, h, |payload| + 1, i);
  }

  /** All other blocks keep theirs, whatever they hold, exactly when the changed text keeps its
      length or no block after it has any bytes. */
  lemma ConservedExactly(sizes: seq<nat>, h: nat, payload: string)
    requires h < |sizes|
    ensures AlwaysConserved(sizes, h, payload)
            <==> |payload| + 1 == sizes[h] || forall i :: h < i < |sizes| ==> sizes[i] == 0
  {
    hide Conserved;
    if |payload| + 1 == sizes[h] || forall i :: h < i < |sizes| ==> sizes[i] == 0 {
      forall mem: Memory, i: nat | i < |sizes| && i != h && |mem.data| == SumTo(sizes, |sizes|)
        ensures Conserved(mem, sizes, h, payload, i)
      {
        if i < h {
          EarlierKept(mem, sizes, h, payload, i);
        } else {
          LaterKept(mem, sizes, h, payload, i);
        }
      }
    } else {
      var i :| h < i < |sizes| && sizes[i] != 0;
      var mem := Witness(sizes, i);
      LaterMoved(sizes, h, payload, i);
      SumToGrows(sizes, i + 1, |sizes|);
      assert |mem.data| == SumTo(sizes, |sizes|);
    }
  }

  lemma LaterKept(mem: Memory, sizes: seq<nat>, h: nat, payload: string, i: nat)
    requires h < i < |sizes| && (|payload| + 1 == sizes[h] || sizes[i] == 0)
    ensures Conserved(mem, sizes, h, payload, i)
  {
    SumToSet(sizes, h, |payload| + 1, i);
    if |payload| + 1 == sizes[h] {
      assert sizes[h := |payload| + 1] == sizes;
    }
  }

  /** A payload with a single mark, on the first byte of block i. */
  function Witness(sizes: seq<nat>, i: nat): (m: Memory)
    requires i < |sizes| && sizes[i] > 0
  {
    SumToGrows(sizes, i + 1, |sizes|);
    Memory(seq(SumTo(sizes, |sizes|), _ => 'a')[SumTo(sizes, i) := 'b'], _ => 'a')
  }

  lemma LaterMoved(sizes: seq<nat>, h: nat, payload: string, i: nat)
    requires h < i < |sizes| && sizes[i] > 0 && |payload| + 1 != sizes[h]
    ensures !Conserved(Witness(sizes, i), sizes, h, payload, i)
  {
    var mem := Witness(sizes, i);
    var sizes' := sizes[h := |payload| + 1];
    SumToSet(sizes, h, |payload| + 1, i);
    SumToGrows(sizes, i + 1, |sizes|);
    var o, o' := SumTo(sizes, i), SumTo(sizes', i);
    assert mem.At(o) == 'b' && mem.At(o') == 'a';
    assert mem.Slice(o, sizes[i])[0] == 'b' && mem.Slice(o', sizes[i])[0] == 'a';
  }

  // ---------------------------------------------------------------- the update

  lemma {:induction false} BlockAt(mem: Memory, sizes: seq<nat>, h: nat, payload: string, n: nat, i: nat)
    requires h < |sizes| && i < n <= |sizes| && sizes[h] == |payload| + 1
    ensures SumTo(sizes, i) + sizes[i] <= SumTo(sizes, n)
    ensures Blocks(mem, sizes, h, payload, n)[SumTo(sizes, i)..SumTo(sizes, i) + sizes[i]]
            == NewBlock(mem, sizes, h, payload, i)
    decreases n
  {
    hide NewBlock;
    var p, b := Blocks(mem, sizes, h, payload, n - 1), NewBlock(mem, sizes, h, payload, n - 1);
    if i < n - 1 {
      BlockAt(mem, sizes, h, payload, n - 1, i);
      assert (p + b)[SumTo(sizes, i)..SumTo(sizes, i) + sizes[i]] == p[SumTo(sizes, i)..SumTo(sizes, i) + sizes[i]];
    } else {
      assert (p + b)[|p|..|p| + |b|] == b;
    }
  }

  /** The changed header's place still holds its text, so reading it back sees the new one. */
  lemma ReadsBack(mem: Memory, sizes: seq<nat>, h: nat, payload: string)
    requires h < |sizes| && '\0' !in payload
    ensures var sizes' := sizes[h := |payload| + 1];
            var data' := Blocks(mem, sizes', h, payload, |sizes|);
            && |data'| == SumTo(sizes', |sizes|)
            && SumTo(sizes', h) == SumTo(sizes, h) <= |data'|
            && Memory(data', mem.past).Text(SumTo(sizes', h)) == payload
  {
    var sizes' := sizes[h := |payload| + 1];
    var data' := Blocks(mem, sizes', h, payload, |sizes|);
    SumToSet(sizes, h, |payload| + 1, h);
    BlockAt(mem, sizes', h, payload, |sizes|, h);
    hide Blocks;
    hide SumTo;
    SumToGrows(sizes', h, |sizes'|);
    TextAt(Memory(data', mem.past), SumTo(sizes', h), payload);
  }

  /** Bytes that are a text and its terminator read as that text. */
  lemma TextAt(mem: Memory, o: nat, text: string)
    requires o + |text| + 1 <= |mem.data| && '\0' !in text
    requires mem.data[o..o + |text| + 1] == text + "\0"
    ensures mem.Text(o) == text
  {
    var rest, t := mem.data[o..], text + "\0";
    assert rest[..|text| + 1] == t && t[|text|] == '\0';
    assert forall k :: 0 <= k < |text| ==> rest[k] == t[k] == text[k] && text[k] in text;
    CharAtIs(rest, '\0', |text|);
  }

  datatype Failure = BadKey | NotFound | BadFile

  datatype Outcome =
    | Failed(why: Failure)
    | Updated(sizes: seq<nat>, data: seq<char>)

  /** The part before the first dot names the header; the rest, cut to its buffer, is the key. */
  function SplitKey(full: string): Option<(string, string)> {
    var dot := CharAt(full, '.');
    if dot == |full| || dot == 0 || dot >= 64 then None
    else Some((full[..dot], Cut(full[dot + 1..], 255)))
  }

  /** A section of less than 64 characters and a key behind a dot: the key may have dots, and is cut to 255
      characters. */
  lemma SplitKeyIs(section: string, key: string)
    requires 0 < |section| < 64 && '.' !in section
    ensures SplitKey(section + "." + key) == Some((section, Cut(key, 255)))
  {
    var full := section + "." + key;
    assert forall k :: 0 <= k < |section| ==> full[k] == section[k] && section[k] in section;
    CharAtIs(full, '.', |section|);
    assert full[..|section|] == section && full[|section| + 1..] == key;
  }

  /** Anything else is refused. */
  lemma SplitKeyRefuses(full: string)
    ensures SplitKey(full) == None <==>
            !exists section, key ::
              0 < |section| < 64 && '.' !in section && full == section + "." + key
  {
    if section, key :| 0 < |section| < 64 && '.' !in section && full == section + "." + key {
      SplitKeyIs(section, key);
    }
    if SplitKey(full).Some? {
      var dot := CharAt(full, '.');
      assert full == full[..dot] + "." + full[dot + 1..];
    }
  }

  function FindHeader(names: seq<string>, name: string): (i: nat)
    ensures i <= |names| && (i < |names| ==> names[i] == name)
    ensures i == |names| <==> name !in names
  {
    if names == [] then 0 else if names[0] == name then 0 else 1 + FindHeader(names[1..], name)
  }

  /** tpb_raf_kernel_update_meta_key on a record that has been read. */
  function Update(names: seq<string>, sizes: seq<nat>, mem: Memory, full: string, value: string): Outcome
    requires |names| == |sizes|
  {
    match SplitKey(full)
    case None => Failed(BadKey)
    case Some((section, key)) =>
      var h := FindHeader(names, section);
      if h == |names| then Failed(NotFound)
      else if |mem.data| == 0 || SumTo(sizes, h) + sizes[h] > |mem.data| then Failed(BadFile)
      else
        var payload := SetText(mem.Text(SumTo(sizes, h)), key, value);
        Updated(sizes[h := |payload| + 1], Blocks(mem, sizes[h := |payload| + 1], h, payload, |sizes|))
  }

  /** Which failure an update meets: a key that is not split, a section without a header, a payload that is
      empty or ends before the header's block does; and when it meets none. */
  lemma UpdateFails(names: seq<string>, sizes: seq<nat>, mem: Memory, full: string, value: string)
    requires |names| == |sizes|
    ensures var r, k := Update(names, sizes, mem, full, value), SplitKey(full);
            && (r == Failed(BadKey) <==> k == None)
            && (r == Failed(NotFound) <==> k.Some? && k.value.0 !in names)
            && (r == Failed(BadFile) <==>
                  && k.Some? && k.value.0 in names
                  && var h := FindHeader(names, k.value.0);
                     |mem.data| == 0 || SumTo(sizes, h) + sizes[h] > |mem.data|)
  {
    hide SetText;
    hide Blocks;
    hide SplitKey;
  }

  /** What a successful update leaves. */
  lemma UpdateIs(names: seq<string>, sizes: seq<nat>, mem: Memory, full: string, value: string)
    requires |names| == |sizes| && Update(names, sizes, mem, full, value).Updated?
    ensures var r := Update(names, sizes, mem, full, value);
            var h := FindHeader(names, SplitKey(full).value.0);
            && SplitKey(full).Some? && h < |sizes| && SumTo(sizes, h) <= |mem.data|
            && var payload := SetText(mem.Text(SumTo(sizes, h)), SplitKey(full).value.1, value);
               r.sizes == sizes[h := |payload| + 1] && r.data == Blocks(mem, r.sizes, h, payload, |sizes|)
  {
    hide SetText;
    hide Blocks;
    hide SplitKey;
  }

  /** After a successful update the sizes add up to the payload, the changed header's size is that of
      its text, and reading the key back gives the value. */
  lemma UpdateReadsBack(names: seq<string>, sizes: seq<nat>, mem: Memory, full: string, value: string, size: nat)
    requires |names| == |sizes| && size > 0
    requires '\0' !in full && OneLine(full) && '\0' !in value && OneLine(value)
    requires Update(names, sizes, mem, full, value).Updated?
    ensures var r := Update(names, sizes, mem, full, value);
            var key := SplitKey(full).value.1;
            var h := FindHeader(names, SplitKey(full).value.0);
            && |r.sizes| == |sizes| && h < |sizes| && |r.data| == SumTo(r.sizes, |sizes|)
            && SumTo(r.sizes, h) <= |r.data|
            && var text := Memory(r.data, mem.past).Text(SumTo(r.sizes, h));
            && r.sizes[h] == |text| + 1
            && GetText(text, key, size) == (if |key| <= 253 then Some(Cut(value, size - 1)) else None)
  {
    hide *;
    UpdateIs(names, sizes, mem, full, value);
    KeyPlain(full);
    var key := SplitKey(full).value.1;
    var h := FindHeader(names, SplitKey(full).value.0);
    var payload := SetText(mem.Text(SumTo(sizes, h)), key, value);
    SetPlain(mem.Text(SumTo(sizes, h)), key, value);
    ReadsBack(mem, sizes, h, payload);
    GetAfterSet(mem.Text(SumTo(sizes, h)), key, value, size);
  }

  /** A set text has no terminator inside. */
  lemma SetPlain(text: string, key: string, value: string)
    requires '\0' !in text && '\0' !in key && '\0' !in value
    ensures '\0' !in SetText(text, key, value)
  {
    SetFrom(text, key, value);
    hide SetText;
  }

  /** It keeps the bytes of every block before the changed one, and of every other block too when it
      has none or the changed text has kept its length. */
  lemma UpdateKeepsOthers(names: seq<string>, sizes: seq<nat>, mem: Memory, full: string, value: string, i: nat)
    requires |names| == |sizes| && Update(names, sizes, mem, full, value).Updated?
    requires SplitKey(full).Some? && i < |sizes| && i != FindHeader(names, SplitKey(full).value.0)
    requires var h, r := FindHeader(names, SplitKey(full).value.0), Update(names, sizes, mem, full, value);
             i < h || sizes[i] == 0 || (h < |sizes| && r.sizes == sizes)
    ensures var r := Update(names, sizes, mem, full, value);
            && |r.sizes| == |sizes| && SumTo(r.sizes, i) + sizes[i] <= |r.data|
            && r.data[SumTo(r.sizes, i)..SumTo(r.sizes, i) + sizes[i]] == mem.Slice(SumTo(sizes, i), sizes[i])
  {
    hide *;
    UpdateIs(names, sizes, mem, full, value);
    var h := FindHeader(names, SplitKey(full).value.0);
    var payload := SetText(mem.Text(SumTo(sizes, h)), SplitKey(full).value.1, value);
    if i < h {
      EarlierKept(mem, sizes, h, payload, i);
    } else {
      LaterKept(mem, sizes, h, payload, i);
    }
    KeptInPlace(mem, sizes, h, payload, i);
  }

  lemma KeptInPlace(mem: Memory, sizes: seq<nat>, h: nat, payload: string, i: nat)
    requires i < |sizes| && h < |sizes| && i != h && Conserved(mem, sizes, h, payload, i)
    ensures var sizes' := sizes[h := |payload| + 1];
            var data := Blocks(mem, sizes', h, payload, |sizes|);
            && SumTo(sizes', i) + sizes[i] <= |data|
            && data[SumTo(sizes', i)..SumTo(sizes', i) + sizes[i]] == mem.Slice(SumTo(sizes, i), sizes[i])
  {
    hide SumTo;
    hide Blocks;
    BlockAt(mem, sizes[h := |payload| + 1], h, payload, |sizes|, i);
  }

  lemma KeyPlain(full: string)
    requires '\0' !in full && OneLine(full) && SplitKey(full).Some?
    ensures var key := SplitKey(full).value.1; '\0' !in key && OneLine(key)
  {
    var dot := CharAt(full, '.');
    var rest := full[dot + 1..];
    assert forall c :: c in Cut(rest, 255) ==> c in rest;
    assert forall c :: c in rest ==> c in full;
  }

  /** Every character of a set text comes from the old text, the key, the value or the line format. */
  lemma SetFrom(text: string, key: string, value: string)
    ensures forall c :: c in SetText(text, key, value) ==> c in text || c in key || c in value || c == '=' || c == '\n'
  {
    hide Tail;
    hide SetText;
    SetIsTail(text, key, value);
    TailFrom(text, SetSearch(key), value, false);
    assert forall c :: c in SetSearch(key) ==> c in Search(key);
    assert forall c :: c in Search(key) ==> c in key || c == '=';
  }

  lemma {:induction false} TailFrom(line: string, search: string, value: string, replaced: bool)
    ensures forall c :: c in Tail(line, search, value, replaced) ==> c in line || c in search || c in value || c == '\n'
    decreases |line|
  {
    hide Tail;
    if line == "" {
      TailEnd(search, value);
    } else {
      TailNext(line, search, value, replaced);
      RestPlain(line);
      TailFrom(Rest(line), search, value, replaced || search <= line[..CharAt(line, '\n')]);
      assert forall c :: c in line[..CharAt(line, '\n')] ==> c in line;
      assert forall c :: c in Rest(line) ==> c in line;
    }
  }

  // ---------------------------------------------------------------- the code

  /** An offset as the loops add it up. */
  method Offset(sizes: seq<nat>, i: nat) returns (off: nat)
    requires i <= |sizes|
    ensures off == SumTo(sizes, i)
  {
    off := 0;
    var j := 0;
    while j < i
      invariant j <= i && off == SumTo(sizes, j)
    {
      off := off + sizes[j];
      j := j + 1;
    }
  }

  method CopyBlock(mem: Memory, sizes: seq<nat>, h: nat, payload: string, data: array<char>, ptr: nat, i: nat)
    requires h < |sizes| && i < |sizes| && sizes[h] == |payload| + 1
    requires ptr + sizes[i] <= data.Length
    modifies data
    ensures data[..ptr + sizes[i]] == old(data[..ptr]) + NewBlock(mem, sizes, h, payload, i)
  {
    if i == h {
      CopyInto(data, ptr, payload + "\0");
    } else {
      var off := Offset(sizes, i);
      CopyInto(data, ptr, mem.Slice(off, sizes[i]));
    }
  }

  /** The rebuilding loop of tpb_raf_kernel_update_meta_key. */
  method Rebuild(mem: Memory, sizes: seq<nat>, h: nat, payload: string) returns (data: array<char>)
    requires h < |sizes| && sizes[h] == |payload| + 1
    ensures data[..] == Blocks(mem, sizes, h, payload, |sizes|)
  {
    hide NewBlock;
    var total := Offset(sizes, |sizes|);
    data := new char[total](_ => '\0');
    var ptr := 0;
    var i := 0;
    while i < |sizes|
      invariant i <= |sizes| && ptr == SumTo(sizes, i) && data.Length == SumTo(sizes, |sizes|)
      invariant fresh(data) && ptr <= data.Length && data[..ptr] == Blocks(mem, sizes, h, payload, i)
    {
      SumToGrows(sizes, i + 1, |sizes|);
      CopyBlock(mem, sizes, h, payload, data, ptr, i);
      ptr := ptr + sizes[i];
      i := i + 1;
    }
    assert data[..ptr] == data[..];
  }

  /** tpb_raf_kernel_update_meta_key between reading the record and writing it. */
  method UpdateMetaKey(names: seq<string>, sizes: seq<nat>, mem: Memory, full: string, value: string)
    returns (r: Outcome)
    requires |names| == |sizes| && '\0' !in full && OneLine(full) && '\0' !in value
    ensures r == Update(names, sizes, mem, full, value)
  {
    hide Blocks;
    hide SetText;
    var dot := CharAt(full, '.');
    if dot == |full| || dot == 0 { return Failed(BadKey); }
    if dot >= 64 { return Failed(BadKey); }
    var section, key := full[..dot], Cut(full[dot + 1..], 255);
    var h := FindHeader(names, section);
    if h == |names| { return Failed(NotFound); }
    var off := Offset(sizes, h);
    if |mem.data| == 0 || off + sizes[h] > |mem.data| { return Failed(BadFile); }
    KeyPlain(full);
    var out, cap := Set(mem.Text(off), key, value);
    ghost var payload := SetText(mem.Text(off), key, value);
    var n := Strlen(out, payload);
    var text := out[..n];
    assert text == payload;
    var data := Rebuild(mem, sizes[h := n + 1], h, text);
    return Updated(sizes[h := n + 1], data[..]);
  }
}
