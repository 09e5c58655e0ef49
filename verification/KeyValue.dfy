/** Line-based key/value text in kernel metadata payloads: reading a key, and setting one by copying
    the lines into a new buffer. */
module KeyValue {
  import opened Common

  // ---------------------------------------------------------------- lines

  predicate OneLine(s: string) {
    '\n' !in s
  }

  /** The lines of a text; a last line needs no newline. */
  function Lines(s: string): (ls: seq<string>)
    ensures forall k :: 0 <= k < |ls| ==> OneLine(ls[k])
    decreases |s|
  {
    if s == "" then []
    else
      var e := CharAt(s, '\n');
      if e == |s| then [s] else [s[..e]] + Lines(s[e + 1..])
  }

  function Unlines(ls: seq<string>): string {
    if ls == [] then "" else ls[0] + "\n" + Unlines(ls[1..])
  }

  /** What a key search looks for. */
  function Search(key: string): string {
    key + "="
  }

  /** The rest of the first line that starts with the search text. */
  function Lookup(ls: seq<string>, search: string): Option<string> {
    if ls == [] then None
    else if search <= ls[0] then Some(ls[0][|search|..])
    else Lookup(ls[1..], search)
  }

  /** The first matching line replaced, later ones dropped. */
  function Replaced(ls: seq<string>, search: string, value: string, done: bool): seq<string> {
    if ls == [] then []
    else if search <= ls[0] then
      (if done then [] else [search + value]) + Replaced(ls[1..], search, value, true)
    else [ls[0]] + Replaced(ls[1..], search, value, done)
  }

  predicate Matches(ls: seq<string>, search: string) {
    exists k :: 0 <= k < |ls| && search <= ls[k]
  }

  /** The lines after a set: with the new line at the end when no line matched. */
  function SetLines(ls: seq<string>, search: string, value: string): seq<string> {
    Replaced(ls, search, value, false) + (if Matches(ls, search) then [] else [search + value])
  }

  /** The set's search text, as the 256-byte buffer holds it. */
  function SetSearch(key: string): string {
    Cut(Search(key), 255)
  }

  /** tpb_raf_kernel_meta_kv_set on the text. */
  function SetText(text: string, key: string, value: string): string {
    Unlines(SetLines(Lines(text), SetSearch(key), value))
  }

  /** tpb_raf_kernel_meta_kv_get: None where the code fails, on an overlong key or a missing one. */
  function GetText(payload: string, key: string, size: nat): Option<string>
    requires size > 0
  {
    if |key| + 2 >= 256 then None
    else
      match Lookup(Lines(payload), Search(key))
      case None => None
      case Some(v) => Some(Cut(v, size - 1))
  }

  lemma {:induction false} LinesUnlines(ls: seq<string>)
    requires forall k :: 0 <= k < |ls| ==> OneLine(ls[k])
    ensures Lines(Unlines(ls)) == ls
    decreases |ls|
  {
    if ls != [] {
      LinesUnlines(ls[1..]);
      FirstLine(ls[0], Unlines(ls[1..]));
    }
  }

  lemma FirstLine(l: string, rest: string)
    requires OneLine(l)
    ensures Lines(l + "\n" + rest) == [l] + Lines(rest)
  {
    var s := l + "\n" + rest;
    assert s[|l|] == '\n';
    assert forall k :: 0 <= k < |l| ==> s[k] == l[k] && l[k] in l;
    CharAtIs(s, '\n', |l|);
    assert s[..|l|] == l && s[|l| + 1..] == rest;
  }

  lemma {:induction false} ReplacedLines(ls: seq<string>, search: string, value: string, done: bool)
    requires OneLine(search) && OneLine(value) && forall k :: 0 <= k < |ls| ==> OneLine(ls[k])
    ensures forall k :: 0 <= k < |Replaced(ls, search, value, done)| ==> OneLine(Replaced(ls, search, value, done)[k])
    decreases |ls|
  {
    if ls != [] {
      ReplacedLines(ls[1..], search, value, done || search <= ls[0]);
    }
  }

  /** Reading back a set text reads the lines that were set. */
  lemma SetTextLines(text: string, key: string, value: string)
    requires OneLine(key) && OneLine(value)
    ensures Lines(SetText(text, key, value)) == SetLines(Lines(text), SetSearch(key), value)
  {
    hide Lines;
    hide Unlines;
    var s := SetSearch(key);
    assert OneLine(s) by {
      assert forall c :: c in s ==> c in Search(key);
    }
    ReplacedLines(Lines(text), s, value, false);
    assert OneLine(s + value);
    LinesUnlines(SetLines(Lines(text), s, value));
  }

  // ---------------------------------------------------------------- laws

  lemma {:induction false} LookupAppend(xs: seq<string>, ys: seq<string>, search: string)
    ensures Lookup(xs + ys, search) == if Lookup(xs, search).Some? then Lookup(xs, search) else Lookup(ys, search)
    decreases |xs|
  {
    if xs == [] {
      assert xs + ys == ys;
    } else {
      assert (xs + ys)[1..] == xs[1..] + ys;
      LookupAppend(xs[1..], ys, search);
    }
  }

  lemma {:induction false} LookupMatches(ls: seq<string>, search: string)
    ensures Lookup(ls, search).Some? <==> Matches(ls, search)
    decreases |ls|
  {
    if ls != [] {
      LookupMatches(ls[1..], search);
      if Matches(ls, search) && !(search <= ls[0]) {
        var k :| 0 <= k < |ls| && search <= ls[k];
        assert search <= ls[1..][k - 1];
      }
      if Matches(ls[1..], search) {
        var k :| 0 <= k < |ls| - 1 && search <= ls[1..][k];
        assert search <= ls[k + 1];
      }
    }
  }

  lemma {:induction false} ReplacedLookup(ls: seq<string>, search: string, value: string)
    ensures Lookup(Replaced(ls, search, value, false), search) == if Lookup(ls, search).Some? then Some(value) else None
    decreases |ls|
  {
    if ls != [] {
      if search <= ls[0] {
        assert search <= search + value && (search + value)[|search|..] == value;
        var r := Replaced(ls, search, value, false);
        assert r[0] == search + value;
      } else {
        ReplacedLookup(ls[1..], search, value);
        assert ([ls[0]] + Replaced(ls[1..], search, value, false))[1..] == Replaced(ls[1..], search, value, false);
      }
    }
  }

  /** Another search text is untouched by the set: neither starts the other's lines. */
  predicate Unrelated(search: string, value: string, other: string) {
    !(other <= search + value) && !(search <= other)
  }

  lemma {:induction false} ReplacedOther(ls: seq<string>, search: string, value: string, done: bool, other: string)
    requires Unrelated(search, value, other)
    ensures Lookup(Replaced(ls, search, value, done), other) == Lookup(ls, other)
    decreases |ls|
  {
    if ls != [] {
      var more := Replaced(ls[1..], search, value, done || search <= ls[0]);
      ReplacedOther(ls[1..], search, value, done || search <= ls[0], other);
      if search <= ls[0] {
        if other <= ls[0] {
          PrefixesMeet(search, other, ls[0]);
        }
        assert ([search + value] + more)[1..] == more;
        assert [] + more == more;
      } else {
        assert ([ls[0]] + more)[1..] == more;
      }
    }
  }

  /** Of two prefixes of one string, one is a prefix of the other. */
  lemma PrefixesMeet(x: string, y: string, s: string)
    requires x <= s && y <= s
    ensures x <= y || y <= x
  {
    if |x| <= |y| {
      assert y[..|x|] == s[..|x|] == x;
    } else {
      assert x[..|y|] == s[..|y|] == y;
    }
  }

  /** Get after set returns the value, as far as the caller's buffer holds it. */
  lemma GetAfterSet(text: string, key: string, value: string, size: nat)
    requires OneLine(key) && OneLine(value) && size > 0
    ensures GetText(SetText(text, key, value), key, size) == if |key| <= 253 then Some(Cut(value, size - 1)) else None
  {
    hide Lines;
    hide SetText;
    hide Lookup;
    hide Replaced;
    SetTextLines(text, key, value);
    var s := Search(key);
    if |key| <= 253 {
      var ls := Lines(text);
      ReplacedLookup(ls, s, value);
      LookupMatches(ls, s);
      LookupAppend(Replaced(ls, s, value, false), if Matches(ls, s) then [] else [s + value], s);
      LookupOne(s + value, s);
      LookupNone(s);
    }
  }

  lemma LookupOne(l: string, s: string)
    ensures Lookup([l], s) == if s <= l then Some(l[|s|..]) else None
  {
  }

  lemma LookupNone(s: string)
    ensures Lookup([], s) == None
  {
  }

  lemma FirstEquals(key: string, x: string)
    requires '=' !in key && Search(key) <= x
    ensures CharAt(x, '=') == |key| && x[..|key|] == key
  {
    assert x[|key|] == Search(key)[|key|] == '=';
    assert forall k :: 0 <= k < |key| ==> x[k] == Search(key)[k] == key[k] && key[k] in key;
    CharAtIs(x, '=', |key|);
  }

  /** Another key reads as before, whatever the text holds. */
  ghost predicate AlwaysKept(key: string, value: string, other: string, size: nat)
    requires size > 0
  {
    forall text: string :: GetText(SetText(text, key, value), other, size) == GetText(text, other, size)
  }

  /** Exactly when: the other key can never be read, or neither search text starts the other's lines. */
  lemma KeptExactly(key: string, value: string, other: string, size: nat)
    requires OneLine(key) && OneLine(value) && OneLine(other) && size > 0
    ensures AlwaysKept(key, value, other, size)
            <==> |other| > 253 || Unrelated(SetSearch(key), value, Search(other))
  {
    hide GetText;
    hide SetText;
    if |other| > 253 || Unrelated(SetSearch(key), value, Search(other)) {
      forall text: string
        ensures GetText(SetText(text, key, value), other, size) == GetText(text, other, size)
      {
        UnrelatedKept(text, key, value, other, size);
      }
    } else if Search(other) <= SetSearch(key) + value {
      SetLeaks(key, value, other, size);
    } else {
      SetOverwrites(key, value, other, size);
    }
  }

  lemma UnrelatedKept(text: string, key: string, value: string, other: string, size: nat)
    requires OneLine(key) && OneLine(value) && size > 0
    requires |other| > 253 || Unrelated(SetSearch(key), value, Search(other))
    ensures GetText(SetText(text, key, value), other, size) == GetText(text, other, size)
  {
    if |other| <= 253 {
      hide Lines;
      hide SetText;
      hide SetSearch;
      hide Lookup;
      hide Replaced;
      SetTextLines(text, key, value);
      var s, o, ls := SetSearch(key), Search(other), Lines(text);
      ReplacedOther(ls, s, value, false, o);
      LookupAppend(Replaced(ls, s, value, false), if Matches(ls, s) then [] else [s + value], o);
      LookupOne(s + value, o);
      LookupNone(o);
    }
  }

  /** A line that starts with the other search text answers for the other key. */
  lemma SetLeaks(key: string, value: string, other: string, size: nat)
    requires OneLine(key) && OneLine(value) && size > 0 && |other| <= 253
    requires Search(other) <= SetSearch(key) + value
    ensures GetText("", other, size) == None && GetText(SetText("", key, value), other, size).Some?
  {
    SetTextLines("", key, value);
    var l := SetSearch(key) + value;
    hide SetSearch;
    assert Lines(SetText("", key, value)) == [l];
    LookupOne(l, Search(other));
  }

  /** A line of the other key that starts with this search text is replaced, and no longer found. */
  lemma SetOverwrites(key: string, value: string, other: string, size: nat)
    requires OneLine(key) && OneLine(value) && OneLine(other) && size > 0 && |other| <= 253
    requires SetSearch(key) <= Search(other) && !(Search(other) <= SetSearch(key) + value)
    ensures var text := Search(other) + "\n";
            GetText(text, other, size) == Some("") && GetText(SetText(text, key, value), other, size) == None
  {
    var s, o := SetSearch(key), Search(other);
    var text := o + "\n";
    FirstLine(o, "");
    assert o + "\n" + "" == text && Lines("") == [] && [o] + [] == [o];
    SetTextLines(text, key, value);
    hide SetSearch;
    hide SetText;
    hide Lines;
    OneReplaced(o, s, value);
    LookupOne(o, o);
    LookupOne(s + value, o);
  }

  lemma OneReplaced(l: string, search: string, value: string)
    requires search <= l
    ensures SetLines([l], search, value) == [search + value]
  {
    assert search <= [l][0];
    assert [l][1..] == [];
    assert Replaced([], search, value, true) == [] && [search + value] + [] == [search + value];
  }

  /** Keys without an equals sign are unrelated, as far as the buffers hold them. */
  lemma KeysUnrelated(key: string, value: string, other: string)
    requires '=' !in key && '=' !in other && key != other && |other| <= 253
    ensures Unrelated(SetSearch(key), value, Search(other))
  {
    var s, o := SetSearch(key), Search(other);
    if |key| >= 255 {
      assert s == key[..255];
      assert s[|other|] in key && o[|other|] == '=';
      assert (s + value)[|other|] == s[|other|];
    } else {
      assert s == Search(key);
      if o <= s + value {
        FirstEquals(key, s + value);
        FirstEquals(other, s + value);
      }
      if s <= o {
        FirstEquals(key, o);
        FirstEquals(other, o);
      }
    }
  }

  lemma PrefixBehind(s: string, x: string, v: string)
    ensures s + x <= s + v <==> x <= v
  {
    if s + x <= s + v {
      assert forall k :: 0 <= k < |x| ==> x[k] == (s + x)[|s| + k] == (s + v)[|s| + k] == v[k];
    }
  }

  /** So every other key reads as before, when neither key contains an equals sign. */
  lemma OthersKept(text: string, key: string, value: string, other: string, size: nat)
    requires OneLine(key) && OneLine(value) && size > 0
    requires '=' !in key && '=' !in other && key != other
    ensures GetText(SetText(text, key, value), other, size) == GetText(text, other, size)
  {
    if |other| <= 253 {
      KeysUnrelated(key, value, other);
    }
    UnrelatedKept(text, key, value, other, size);
  }

  /** With an equals sign in the other key the law can fail in two ways: setting k to "x=w" answers
      for the key k=x, and setting k to anything else drops a line of the key k=x. */
  lemma EqualsSignLeaks(k: string, x: string, w: string, size: nat)
    requires OneLine(k) && OneLine(x) && OneLine(w) && |k| + 1 + |x| <= 253 && size > 0
    ensures var other := k + "=" + x;
            && GetText("", other, size) == None
            && GetText(SetText("", k, x + "=" + w), other, size) == Some(Cut(w, size - 1))
            && forall v :: OneLine(v) && !(x + "=" <= v) ==>
                 && GetText(other + "=\n", other, size) == Some("")
                 && GetText(SetText(other + "=\n", k, v), other, size) == None
  {
    var other := k + "=" + x;
    var s, o, l := Search(k), Search(other), Search(k) + (x + "=" + w);
    assert SetSearch(k) == s && l == o + w && o == s + (x + "=") && l[|o|..] == w;
    SetTextLines("", k, x + "=" + w);
    assert Lines(SetText("", k, x + "=" + w)) == [l];
    LookupOne(l, o);
    forall v | OneLine(v) && !(x + "=" <= v)
      ensures GetText(other + "=\n", other, size) == Some("")
      ensures GetText(SetText(other + "=\n", k, v), other, size) == None
    {
      assert other + "=\n" == o + "\n";
      PrefixBehind(s, x + "=", v);
      SetOverwrites(k, v, other, size);
    }
  }

  // ---------------------------------------------------------------- on the text

  /** Texts of lines, one behind the other. */
  lemma {:induction false} UnlinesAppend(xs: seq<string>, ys: seq<string>)
    ensures Unlines(xs + ys) == Unlines(xs) + Unlines(ys)
    decreases |xs|
  {
    if xs == [] {
      assert xs + ys == ys;
    } else {
      assert (xs + ys)[1..] == xs[1..] + ys;
      UnlinesAppend(xs[1..], ys);
    }
  }

  lemma UnlinesOne(l: string)
    ensures Unlines([l]) == l + "\n" && Unlines([]) == ""
  {
    assert [l][1..] == [];
  }

  lemma {:induction false} LookupSkips(xs: seq<string>, ys: seq<string>, search: string)
    requires forall k :: 0 <= k < |xs| ==> !(search <= xs[k])
    ensures Lookup(xs + ys, search) == Lookup(ys, search)
  {
    LookupAppend(xs, ys, search);
    LookupMatches(xs, search);
  }

  lemma LookupHead(l: string, post: seq<string>, search: string)
    requires search <= l
    ensures Lookup([l] + post, search) == Some(l[|search|..])
  {
    assert ([l] + post)[0] == l;
  }

  /** A get reads what follows "key=" on the first line that starts so, cut to what the buffer holds; it fails
      on a key of more than 253 characters. */
  lemma GetFirst(pre: seq<string>, key: string, v: string, post: seq<string>, size: nat)
    requires (forall k :: 0 <= k < |pre| ==> OneLine(pre[k]) && !(key + "=" <= pre[k])) && OneLine(key + "=" + v)
    requires (forall k :: 0 <= k < |post| ==> OneLine(post[k])) && size > 0
    ensures var text := Unlines(pre) + (key + "=" + v) + "\n" + Unlines(post);
            GetText(text, key, size) == if |key| > 253 then None else Some(if |v| < size then v else v[..size - 1])
  {
    hide Lines;
    hide Unlines;
    hide Lookup;
    var s, l, text := key + "=", key + "=" + v, Unlines(pre) + (key + "=" + v) + "\n" + Unlines(post);
    assert Lines(text) == pre + ([l] + post) by {
      assert pre + [l] + post == pre + ([l] + post);
      TextAround(pre, l, post);
      LinesUnlines(pre + [l] + post);
    }
    LookupSkips(pre, [l] + post, s);
    LookupHead(l, post, s);
    assert l[|s|..] == v;
  }

  /** It fails too when no line starts so. */
  lemma GetMissing(lines: seq<string>, key: string, size: nat)
    requires (forall k :: 0 <= k < |lines| ==> OneLine(lines[k]) && !(key + "=" <= lines[k])) && size > 0
    ensures GetText(Unlines(lines), key, size) == None
  {
    LinesUnlines(lines);
    LookupMatches(lines, key + "=");
    hide Lines;
    hide Unlines;
  }

  lemma TextAround(pre: seq<string>, l: string, post: seq<string>)
    ensures Unlines(pre + [l] + post) == Unlines(pre) + l + "\n" + Unlines(post)
  {
    UnlinesAppend(pre + [l], post);
    UnlinesAppend(pre, [l]);
    UnlinesOne(l);
  }

  /** The lines that do not start with the search text, in order. */
  function Others(ls: seq<string>, search: string): (os: seq<string>)
    ensures forall l :: l in os <==> l in ls && !(search <= l)
    ensures |os| <= |ls| && (|os| == |ls| ==> os == ls)
  {
    if ls == [] then []
    else (if search <= ls[0] then [] else [ls[0]]) + Others(ls[1..], search)
  }

  lemma {:induction false} ReplacedOn(pre: seq<string>, rest: seq<string>, search: string, value: string, done: bool)
    requires forall k :: 0 <= k < |pre| ==> !(search <= pre[k])
    ensures Replaced(pre + rest, search, value, done) == pre + Replaced(rest, search, value, done)
    ensures Replaced(rest, search, value, true) == Others(rest, search)
    decreases |pre| + |rest|
  {
    if pre != [] {
      ReplacedOn(pre[1..], rest, search, value, done);
      assert (pre + rest)[0] == pre[0] && (pre + rest)[1..] == pre[1..] + rest;
      assert pre == [pre[0]] + pre[1..];
    } else {
      assert pre + rest == rest;
      if rest != [] {
        ReplacedOn([], rest[1..], search, value, true);
        assert [] + rest[1..] == rest[1..];
      }
    }
  }

  lemma ReplacedHead(l: string, post: seq<string>, search: string, value: string)
    requires search <= l
    ensures Replaced([l] + post, search, value, false) == [search + value] + Others(post, search)
  {
    ReplacedOn([], post, search, value, true);
    assert ([l] + post)[0] == l && ([l] + post)[1..] == post;
  }

  lemma NoneReplaced(ls: seq<string>, search: string, value: string)
    requires !Matches(ls, search)
    ensures Replaced(ls, search, value, false) == ls
  {
    ReplacedAppend(ls, search, search, value);
  }

  lemma SetLinesFirst(pre: seq<string>, l: string, post: seq<string>, search: string, value: string)
    requires search <= l && forall k :: 0 <= k < |pre| ==> !(search <= pre[k])
    ensures SetLines(pre + [l] + post, search, value) == pre + [search + value] + Others(post, search)
  {
    hide Replaced;
    hide Others;
    var ls, more := pre + [l] + post, Others(post, search);
    assert ls == pre + ([l] + post) && ls[|pre|] == l;
    ReplacedOn(pre, [l] + post, search, value, false);
    ReplacedHead(l, post, search, value);
    assert pre + ([search + value] + more) == pre + [search + value] + more;
    assert pre + [search + value] + more + [] == pre + [search + value] + more;
  }

  lemma SetTextIs(text: string, key: string, value: string)
    requires |key| <= 254
    ensures SetText(text, key, value) == Unlines(SetLines(Lines(text), key + "=", value))
  {
    hide SetLines;
    hide Lines;
    hide Unlines;
  }

  /** A set puts the new line in the place of the first line of the key, drops the other lines of the key and
      keeps all else. */
  lemma SetFirst(pre: seq<string>, key: string, was: string, post: seq<string>, value: string)
    requires |key| <= 254 && (forall k :: 0 <= k < |pre| ==> OneLine(pre[k]) && !(key + "=" <= pre[k]))
    requires OneLine(key + "=" + was) && forall k :: 0 <= k < |post| ==> OneLine(post[k])
    ensures SetText(Unlines(pre) + (key + "=" + was) + "\n" + Unlines(post), key, value)
            == Unlines(pre) + (key + "=" + value) + "\n" + Unlines(Others(post, key + "="))
  {
    hide *;
    var s, l := key + "=", key + "=" + was;
    TextAround(pre, l, post);
    LinesUnlines(pre + [l] + post);
    SetLinesFirst(pre, l, post, s, value);
    SetTextIs(Unlines(pre) + l + "\n" + Unlines(post), key, value);
    TextAround(pre, s + value, Others(post, s));
  }

  /** When the key has no line yet, the new one goes to the end. */
  lemma SetNew(lines: seq<string>, key: string, value: string)
    requires |key| <= 254 && forall k :: 0 <= k < |lines| ==> OneLine(lines[k]) && !(key + "=" <= lines[k])
    ensures SetText(Unlines(lines), key, value) == Unlines(lines) + (key + "=" + value) + "\n"
  {
    hide Lines;
    hide Unlines;
    hide Replaced;
    var s := key + "=";
    LinesUnlines(lines);
    assert !Matches(lines, s);
    NoneReplaced(lines, s, value);
    UnlinesAppend(lines, [s + value]);
    UnlinesOne(s + value);
  }

  lemma {:induction false} ReplacedTwice(ls: seq<string>, search: string, v: string, w: string, done: bool)
    ensures Replaced(Replaced(ls, search, v, done), search, w, done) == Replaced(ls, search, w, done)
    decreases |ls|
  {
    if ls != [] {
      var now := done || search <= ls[0];
      var more := Replaced(ls[1..], search, v, now);
      ReplacedTwice(ls[1..], search, v, w, now);
      if search <= ls[0] {
        if done {
          assert [] + more == more;
          assert [] + Replaced(ls[1..], search, w, true) == Replaced(ls[1..], search, w, true);
        } else {
          assert ([search + v] + more)[1..] == more && ([search + v] + more)[0] == search + v;
          assert search <= search + v;
        }
      } else {
        assert ([ls[0]] + more)[1..] == more;
      }
    }
  }

  lemma {:induction false} ReplacedAppend(xs: seq<string>, l: string, search: string, w: string)
    requires !Matches(xs, search) && search <= l
    ensures Replaced(xs + [l], search, w, false) == xs + [search + w]
    ensures Replaced(xs, search, w, false) == xs
    decreases |xs|
  {
    if xs == [] {
      assert xs + [l] == [l];
    } else {
      NoMatchAfter(xs, search);
      hide Matches;
      assert (xs + [l])[1..] == xs[1..] + [l];
      ReplacedAppend(xs[1..], l, search, w);
      assert xs == [xs[0]] + xs[1..];
    }
  }

  lemma NoMatchAfter(xs: seq<string>, search: string)
    requires !Matches(xs, search) && xs != []
    ensures !(search <= xs[0]) && !Matches(xs[1..], search)
  {
    assert forall k :: 0 <= k < |xs| - 1 ==> xs[1..][k] == xs[k + 1];
  }

  /** A second set of a key absorbs the first. */
  lemma SetAbsorbs(text: string, key: string, v: string, w: string)
    requires OneLine(key) && OneLine(v)
    ensures SetText(SetText(text, key, v), key, w) == SetText(text, key, w)
  {
    hide Lines;
    hide Unlines;
    hide Replaced;
    var s, ls := SetSearch(key), Lines(text);
    SetTextLines(text, key, v);
    assert s <= s + v;
    if Matches(ls, s) {
      var r := Replaced(ls, s, v, false);
      ReplacedTwice(ls, s, v, w, false);
      ReplacedLookup(ls, s, v);
      LookupMatches(ls, s);
      LookupMatches(r, s);
      assert r + [] == r;
    } else {
      ReplacedAppend(ls, s + v, s, v);
      ReplacedAppend(ls, s + v, s, w);
      var m := ls + [s + v];
      assert m[|ls|] == s + v;
      assert SetLines(ls, s, v) == m && SetLines(ls, s, w) == ls + [s + w];
      assert ls + [s + w] + [] == ls + [s + w];
    }
  }

  // ---------------------------------------------------------------- the code

  /** tpb_raf_kernel_meta_kv_get: the scan over the lines, with a caller's buffer of `size` bytes. */
  method Get(payload: string, key: string, size: nat) returns (r: Option<string>)
    requires OneLine(key) && size > 0
    ensures r == GetText(payload, key, size)
  {
    if |key| + 2 >= 256 { return None; }
    var search := Search(key);
    var line := payload;
    NoLines(search);
    hide Lines;
    hide Lookup;
    while line != ""
      invariant Lookup(Lines(payload), search) == Lookup(Lines(line), search)
      decreases |line|
    {
      var end := CharAt(line, '\n');
      PrefixInLine(line, search, end);
      LookupFirst(line, search);
      if search <= line {
        var val := line[|search|..end];
        var vlen := |val|;
        if vlen >= size {
          vlen := size - 1;
        }
        assert val == line[..end][|search|..];
        assert val[..vlen] == Cut(val, size - 1);
        return Some(val[..vlen]);
      }
      if end == |line| { break; }
      line := line[end + 1..];
    }
    return None;
  }

  lemma NoLines(search: string)
    ensures Lookup(Lines(""), search) == None
  {
  }

  /** The first line answers, or what is left of the text does. */
  lemma LookupFirst(line: string, search: string)
    requires line != ""
    ensures var first := line[..CharAt(line, '\n')];
            Lookup(Lines(line), search)
            == if search <= first then Some(first[|search|..]) else Lookup(Lines(Rest(line)), search)
  {
    LinesFirst(line);
    hide Lines;
  }

  /** C text in a buffer: n characters, then zeros. */
  ghost predicate Holds(out: array<char>, text: string)
    reads out
  {
    && |text| < out.Length && out[..|text|] == text
    && (forall k :: |text| <= k < out.Length ==> out[k] == '\0')
    && '\0' !in text
  }

  method Strlen(out: array<char>, ghost text: string) returns (n: nat)
    requires Holds(out, text)
    ensures n == |text|
  {
    assert forall k :: 0 <= k < |text| ==> out[k] == out[..|text|][k] == text[k] && text[k] in text;
    n := 0;
    while out[n] != '\0'
      invariant n <= |text|
      decreases |text| - n
    {
      n := n + 1;
    }
  }

  /** snprintf at the end of the text, with the rest of the buffer as its size. */
  method Print(out: array<char>, n: nat, s: string, ghost text: string)
    requires Holds(out, text) && n == |text| < out.Length && '\0' !in s
    modifies out
    ensures Holds(out, text + Cut(s, out.Length - n - 1))
  {
    var t := Cut(s, out.Length - n - 1);
    var i := 0;
    while i < |t|
      invariant i <= |t| && out[..n + i] == text + t[..i]
      invariant forall k :: n + i <= k < out.Length ==> out[k] == '\0'
    {
      out[n + i] := t[i];
      i := i + 1;
    }
    assert t[..i] == t;
    assert forall c :: c in t ==> c in s;
  }

  /** The capacity that a set allocates. */
  function Capacity(text: string, key: string, value: string): nat {
    |text| + |key| + |value| + 32
  }

  function Rest(line: string): string {
    var end := CharAt(line, '\n');
    if end < |line| then line[end + 1..] else ""
  }

  /** What a set still writes from a place in the text on. */
  function Tail(line: string, search: string, value: string, replaced: bool): string {
    var ls := Lines(line);
    Unlines(Replaced(ls, search, value, replaced) + (if replaced || Matches(ls, search) then [] else [search + value]))
  }

  /** What it writes for the line at that place. */
  function Emitted(line: string, search: string, value: string, replaced: bool): string {
    var first := line[..CharAt(line, '\n')];
    if search <= first then (if replaced then "" else search + value + "\n") else first + "\n"
  }

  lemma LinesFirst(line: string)
    requires line != ""
    ensures Lines(line) == [line[..CharAt(line, '\n')]] + Lines(Rest(line))
  {
    assert line[..|line|] == line;
    assert Lines("") == [] && [line] + [] == [line];
  }

  lemma MatchesFirst(l: string, ls: seq<string>, search: string)
    ensures Matches([l] + ls, search) <==> search <= l || Matches(ls, search)
  {
    if Matches(ls, search) {
      var k :| 0 <= k < |ls| && search <= ls[k];
      assert ([l] + ls)[k + 1] == ls[k];
    }
    if search <= l {
      assert ([l] + ls)[0] == l;
    }
  }

  lemma TailNext(line: string, search: string, value: string, replaced: bool)
    requires line != ""
    ensures var first := line[..CharAt(line, '\n')];
            Tail(line, search, value, replaced)
            == Emitted(line, search, value, replaced) + Tail(Rest(line), search, value, replaced || search <= first)
  {
    hide Lines;
    hide Matches;
    hide Unlines;
    hide Replaced;
    hide CharAt;
    hide Rest;
    var first, ls := line[..CharAt(line, '\n')], Lines(Rest(line));
    LinesFirst(line);
    MatchesFirst(first, ls, search);
    ReplacedFirst(first, ls, search, value, replaced);
    var now := replaced || search <= first;
    var head := if search <= first then (if replaced then [] else [search + value]) else [first];
    var more := Replaced(ls, search, value, now);
    var end := if now || Matches(ls, search) then [] else [search + value];
    assert head + more + end == head + (more + end);
    UnlinesAppend(head, more + end);
    UnlinesOne(search + value);
    UnlinesOne(first);
  }

  lemma ReplacedFirst(l: string, ls: seq<string>, search: string, value: string, replaced: bool)
    ensures Replaced([l] + ls, search, value, replaced) ==
            (if search <= l then (if replaced then [] else [search + value]) else [l])
            + Replaced(ls, search, value, replaced || search <= l)
  {
    assert ([l] + ls)[1..] == ls;
  }

  lemma TailEnd(search: string, value: string)
    ensures Tail("", search, value, true) == "" && Tail("", search, value, false) == search + value + "\n"
  {
    UnlinesOne(search + value);
    assert [] + [search + value] == [search + value];
  }

  /** A set never outgrows what it allocates. */
  lemma {:induction false} TailFits(line: string, search: string, value: string, replaced: bool)
    ensures |Tail(line, search, value, replaced)| <= |line| + (if line == "" then 0 else 1)
            + (if replaced then 0 else |search| + |value| + 1)
    decreases |line|
  {
    hide Tail;
    if line == "" {
      TailEnd(search, value);
    } else {
      TailNext(line, search, value, replaced);
      TailFits(Rest(line), search, value, replaced || search <= line[..CharAt(line, '\n')]);
    }
  }

  /** One turn of the copying loop. */
  method SetLine(out: array<char>, line: string, search: string, value: string, replaced: bool, ghost made: string)
    returns (replaced': bool)
    requires line != "" && Holds(out, made) && '\0' !in line && '\0' !in search && '\0' !in value && OneLine(search)
    requires |made| + |Emitted(line, search, value, replaced)| + 1 < out.Length
    modifies out
    ensures Holds(out, made + Emitted(line, search, value, replaced))
    ensures replaced' == (replaced || search <= line[..CharAt(line, '\n')])
  {
    var end := CharAt(line, '\n');
    PrefixInLine(line, search, end);
    assert forall c :: c in line[..end] ==> c in line;
    hide Holds;
    replaced' := replaced;
    assert made + "" == made;
    if search <= line {
      if !replaced {
        var n := Strlen(out, made);
        Print(out, n, search + value + "\n", made);
        replaced' := true;
      }
    } else {
      var n := Strlen(out, made);
      if end < |line| {
        assert line[..end + 1] == line[..end] + "\n";
        if n + (end + 1) + 1 > out.Length {
          assert false;
        }
        Print(out, n, line[..end + 1], made);
      } else {
        assert line[..end] == line;
        Print(out, n, line + "\n", made);
      }
    }
  }

  /** The copying loop: what it has written and what is still to write make up the new text. */
  method SetLoop(out: array<char>, text: string, search: string, value: string, ghost whole: string)
    returns (replaced: bool, ghost made: string)
    requires Holds(out, "") && '\0' !in text && '\0' !in search && '\0' !in value && OneLine(search)
    requires whole == Tail(text, search, value, false) && |whole| + 1 < out.Length
    modifies out
    ensures Holds(out, made) && made + Tail("", search, value, replaced) == whole
  {
    hide *;
    replaced := false;
    made := "";
    var line := text;
    assert "" + whole == whole;
    while line != ""
      invariant Holds(out, made) && '\0' !in line
      invariant made + Tail(line, search, value, replaced) == whole
      decreases |line|
    {
      ghost var piece := Emitted(line, search, value, replaced);
      TailNext(line, search, value, replaced);
      RestPlain(line);
      var end := CharAt(line, '\n');
      ghost var first := line[..end];
      Regroup(made, piece, Tail(Rest(line), search, value, replaced || search <= first));
      replaced := SetLine(out, line, search, value, replaced, made);
      made := made + piece;
      line := if end < |line| then line[end + 1..] else "";
    }
  }

  /** tpb_raf_kernel_meta_kv_set: the text is rewritten into a fresh buffer. The capacity is always
      enough: nothing is cut and the overflow branch is never taken. */
  method Set(text: string, key: string, value: string) returns (out: array<char>, cap: nat)
    requires '\0' !in text && '\0' !in key && '\0' !in value && OneLine(key)
    ensures fresh(out) && out.Length == cap == Capacity(text, key, value)
    ensures Holds(out, SetText(text, key, value))
  {
    var search := SetSearch(key);
    cap := Capacity(text, key, value);
    out := new char[cap](_ => '\0');
    assert Holds(out, "");
    TailFits(text, search, value, false);
    SetIsTail(text, key, value);
    SearchPlain(key);
    TailEnd(search, value);
    SearchValue(search, value);
    hide Tail;
    hide SetText;
    hide SetSearch;
    hide Holds;
    hide OneLine;
    var replaced;
    ghost var made;
    replaced, made := SetLoop(out, text, search, value, SetText(text, key, value));
    if !replaced {
      var n := Strlen(out, made);
      Print(out, n, search + value + "\n", made);
    } else {
      assert made + "" == made;
    }
  }

  lemma RestPlain(line: string)
    requires line != ""
    ensures var end := CharAt(line, '\n'); Rest(line) == if end < |line| then line[end + 1..] else ""
    ensures '\0' !in line ==> '\0' !in Rest(line)
    ensures |Rest(line)| < |line|
  {
    assert forall c :: c in Rest(line) ==> c in line;
  }

  lemma Regroup(x: string, y: string, z: string)
    ensures x + (y + z) == (x + y) + z && |x| + |y| <= |x + (y + z)|
  {
  }

  lemma SearchValue(search: string, value: string)
    requires '\0' !in search && '\0' !in value
    ensures '\0' !in search + value + "\n"
  {
  }

  lemma SetIsTail(text: string, key: string, value: string)
    ensures Tail(text, SetSearch(key), value, false) == SetText(text, key, value)
    ensures "" + SetText(text, key, value) == SetText(text, key, value)
    ensures |SetSearch(key)| <= |key| + 1
  {
    hide Lines;
    hide Unlines;
  }

  lemma SearchPlain(key: string)
    requires '\0' !in key && OneLine(key)
    ensures '\0' !in SetSearch(key) && OneLine(SetSearch(key))
  {
    assert forall c :: c in SetSearch(key) ==> c in Search(key);
  }

  lemma PrefixInLine(line: string, search: string, end: nat)
    requires OneLine(search) && end == CharAt(line, '\n')
    ensures search <= line <==> search <= line[..end]
  {
    if search <= line {
      assert forall k :: 0 <= k < |search| ==> line[k] == search[k] && search[k] in search;
    }
  }
}
