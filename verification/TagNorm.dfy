/** Tag lists: tokens between commas, trimmed, upper-cased, without duplicates and sorted. */
module TagNorm {
  import opened Common

  const SCRATCH: nat := 255
  const MAX_TOKENS: nat := 64
  const USER_MAX: nat := 191

  // ---------------------------------------------------------------- tokens

  /** The non-empty pieces between commas (strtok). */
  function Tokens(s: string): (ts: seq<string>)
    ensures forall k :: 0 <= k < |ts| ==> ts[k] != "" && ',' !in ts[k]
    decreases |s|
  {
    if s == "" then []
    else
      var e := CharAt(s, ',');
      (if e > 0 then [s[..e]] else []) + (if e < |s| then Tokens(s[e + 1..]) else [])
  }

  predicate Blank(c: char) {
    c == ' ' || c == '\t'
  }

  function TrimLeft(s: string): string {
    if s != "" && Blank(s[0]) then TrimLeft(s[1..]) else s
  }

  function TrimRight(s: string): string
    decreases |s|
  {
    if s != "" && Blank(s[|s| - 1]) then TrimRight(s[..|s| - 1]) else s
  }

  function Trim(s: string): string {
    TrimRight(TrimLeft(s))
  }

  function UpperChar(c: char): char {
    if 'a' <= c <= 'z' then c - 'a' + 'A' else c
  }

  function Upper(s: string): (r: string)
    ensures |r| == |s| && forall k :: 0 <= k < |s| ==> r[k] == UpperChar(s[k])
  {
    seq(|s|, k requires 0 <= k < |s| => UpperChar(s[k]))
  }

  /** The words of a tag list: trimmed, upper-cased, blank ones dropped. */
  function Words(ts: seq<string>): (ws: seq<string>)
    ensures forall k :: 0 <= k < |ws| ==> ws[k] != ""
  {
    if ts == [] then []
    else (if Trim(ts[0]) != "" then [Upper(Trim(ts[0]))] else []) + Words(ts[1..])
  }

  function WordsOf(s: string): seq<string> {
    Words(Tokens(s))
  }

  /** The first of each word. */
  function Distinct(ws: seq<string>): (ds: seq<string>)
    ensures (forall x :: x in ds <==> x in ws) && |ds| <= |ws|
    ensures forall i, k :: 0 <= i < k < |ds| ==> ds[i] != ds[k]
    decreases |ws|
  {
    if ws == [] then []
    else
      var ds := Distinct(ws[..|ws| - 1]);
      if ws[|ws| - 1] in ds then ds else ds + [ws[|ws| - 1]]
  }

  // ---------------------------------------------------------------- order

  /** strcmp: by bytes, a prefix first. */
  predicate Less(a: string, b: string) {
    b != "" && (a == "" || a[0] < b[0] || (a[0] == b[0] && Less(a[1..], b[1..])))
  }

  lemma {:induction false} LessTotal(a: string, b: string)
    ensures Less(a, b) || a == b || Less(b, a)
    ensures !(Less(a, b) && Less(b, a)) && !Less(a, a)
    decreases |a|
  {
    if a != "" {
      LessTotal(a[1..], a[1..]);
      if b != "" {
        LessTotal(a[1..], b[1..]);
        assert a == [a[0]] + a[1..] && b == [b[0]] + b[1..];
      }
    }
  }

  lemma {:induction false} LessTrans(a: string, b: string, c: string)
    requires Less(a, b) && Less(b, c)
    ensures Less(a, c)
    decreases |a|
  {
    if a != "" && a[0] == b[0] == c[0] {
      LessTrans(a[1..], b[1..], c[1..]);
    }
  }

  predicate Sorted(ts: seq<string>) {
    forall i, k :: 0 <= i < k < |ts| ==> Less(ts[i], ts[k])
  }

  function Insert(t: string, ts: seq<string>): (r: seq<string>)
    ensures forall x :: x in r <==> x == t || x in ts
    ensures |r| == |ts| + 1
  {
    if ts == [] then [t]
    else if Less(t, ts[0]) then [t] + ts
    else [ts[0]] + Insert(t, ts[1..])
  }

  function Sort(ts: seq<string>): (r: seq<string>)
    ensures |r| == |ts| && forall x :: x in r <==> x in ts
    decreases |ts|
  {
    if ts == [] then [] else Insert(ts[|ts| - 1], Sort(ts[..|ts| - 1]))
  }

  lemma {:induction false} InsertSorted(t: string, ts: seq<string>)
    requires Sorted(ts) && t !in ts
    ensures Sorted(Insert(t, ts))
    decreases |ts|
  {
    hide Less;
    if ts != [] {
      LessTotal(t, ts[0]);
      if Less(t, ts[0]) {
        forall k | 0 <= k < |ts|
          ensures Less(t, ts[k])
        {
          if k > 0 {
            LessTrans(t, ts[0], ts[k]);
          }
        }
      } else {
        InsertSorted(t, ts[1..]);
        var r := Insert(t, ts[1..]);
        forall k | 0 <= k < |r|
          ensures Less(ts[0], r[k])
        {
          assert r[k] == t || r[k] in ts[1..];
        }
      }
    }
  }

  lemma {:induction false} SortSorted(ts: seq<string>)
    requires forall i, k :: 0 <= i < k < |ts| ==> ts[i] != ts[k]
    ensures Sorted(Sort(ts))
    decreases |ts|
  {
    if ts != [] {
      SortSorted(ts[..|ts| - 1]);
      assert ts[|ts| - 1] !in ts[..|ts| - 1];
      InsertSorted(ts[|ts| - 1], Sort(ts[..|ts| - 1]));
    }
  }

  /** A strictly sorted list is determined by its elements. */
  lemma {:induction false} SortedUnique(xs: seq<string>, ys: seq<string>)
    requires Sorted(xs) && Sorted(ys) && forall x :: x in xs <==> x in ys
    ensures xs == ys
    decreases |xs|
  {
    hide Less;
    assert ys != [] ==> ys[0] in ys;
    if xs != [] {
      assert xs[0] in xs && xs[0] in ys;
      assert ys[0] in ys && ys[0] in xs;
      LessTotal(xs[0], ys[0]);
      FirstLeast(xs, ys[0]);
      FirstLeast(ys, xs[0]);
      RestElements(xs, ys);
      SortedUnique(xs[1..], ys[1..]);
      assert xs == [xs[0]] + xs[1..] && ys == [ys[0]] + ys[1..];
    }
  }

  lemma FirstLeast(xs: seq<string>, x: string)
    requires Sorted(xs) && x in xs
    ensures xs[0] == x || Less(xs[0], x)
  {
    hide Less;
  }

  lemma RestElements(xs: seq<string>, ys: seq<string>)
    requires xs != [] && ys != [] && xs[0] == ys[0] && Sorted(xs) && Sorted(ys) && forall x :: x in xs <==> x in ys
    ensures forall x :: x in xs[1..] <==> x in ys[1..]
  {
    hide Less;
    forall x
      ensures x in xs[1..] <==> x in ys[1..]
    {
      LessTotal(xs[0], xs[0]);
      assert x in xs[1..] <==> x in xs && x != xs[0] by { RestIs(xs, x); }
      assert x in ys[1..] <==> x in ys && x != ys[0] by { RestIs(ys, x); }
    }
  }

  lemma RestIs(xs: seq<string>, x: string)
    requires xs != [] && Sorted(xs)
    ensures x in xs[1..] <==> x in xs && x != xs[0]
  {
    hide Less;
    LessTotal(xs[0], xs[0]);
    if x in xs[1..] {
      var k :| 0 <= k < |xs| - 1 && xs[1..][k] == x;
      assert xs[k + 1] == x;
    }
  }

  // ---------------------------------------------------------------- the normal form

  function Join(ts: seq<string>): string {
    Joined(ts, ",")
  }

  /** The words that a raw tag list stands for: what the scratch buffer holds of it. */
  function TagWords(raw: string): seq<string> {
    WordsOf(Cut(raw, SCRATCH))
  }

  predicate Colon(ts: seq<string>) {
    exists k :: 0 <= k < |ts| && ':' in ts[k]
  }

  function Normal(raw: string): string {
    Join(Sort(Distinct(TagWords(raw))))
  }

  /** _sf_normalize_tags: None where it returns -1. */
  function Normalize(raw: string, size: nat): Option<string> {
    var ws := TagWords(raw);
    if Colon(ws) || |Distinct(ws)| > MAX_TOKENS || |Normal(raw)| >= size then None else Some(Normal(raw))
  }

  /** Inputs with the same set of words have the same normal form, and fail alike. */
  lemma SameWords(a: string, b: string, size: nat)
    requires forall x :: x in TagWords(a) <==> x in TagWords(b)
    ensures Normalize(a, size) == Normalize(b, size)
  {
    hide TagWords;
    hide Sort;
    hide Join;
    var xs, ys := Distinct(TagWords(a)), Distinct(TagWords(b));
    SortSorted(xs);
    SortSorted(ys);
    SortedUnique(Sort(xs), Sort(ys));
    assert Colon(TagWords(a)) <==> Colon(TagWords(b)) by {
      ColonIs(TagWords(a));
      ColonIs(TagWords(b));
    }
  }

  lemma ColonIs(ws: seq<string>)
    ensures Colon(ws) <==> exists x :: x in ws && ':' in x
  {
    if x :| x in ws && ':' in x {
      var k :| 0 <= k < |ws| && ws[k] == x;
    }
    if Colon(ws) {
      var k :| 0 <= k < |ws| && ':' in ws[k];
      assert ws[k] in ws;
    }
  }

  // ---------------------------------------------------------------- tokens of joined words

  /** The tokens up to the first comma, and those after it. */
  lemma TokensStep(s: string, e: nat)
    requires e < |s| && s[e] == ',' && ',' !in s[..e]
    ensures Tokens(s) == (if e > 0 then [s[..e]] else []) + Tokens(s[e + 1..])
  {
    assert forall k :: 0 <= k < e ==> s[k] == s[..e][k] && s[..e][k] in s[..e];
    CharAtIs(s, ',', e);
  }

  lemma TokensOne(t: string)
    requires ',' !in t
    ensures Tokens(t) == if t == "" then [] else [t]
  {
    var e := CharAt(t, ',');
    assert forall k :: 0 <= k < |t| ==> t[k] in t;
    assert t[..|t|] == t;
  }

  lemma {:induction false} TokensAppend(a: string, b: string)
    ensures Tokens(a + "," + b) == Tokens(a) + Tokens(b)
    decreases |a|
  {
    hide Tokens;
    var s, e := a + "," + b, CharAt(a, ',');
    assert s[..e] == a[..e];
    TokensStep(s, e);
    if e < |a| {
      TokensStep(a, e);
      assert s[e + 1..] == a[e + 1..] + "," + b;
      TokensAppend(a[e + 1..], b);
    } else {
      assert a[..e] == a && s[e + 1..] == b;
      TokensOne(a);
    }
  }

  lemma {:induction false} TokensJoin(ts: seq<string>)
    requires forall k :: 0 <= k < |ts| ==> ts[k] != "" && ',' !in ts[k]
    ensures Tokens(Join(ts)) == ts
    decreases |ts|
  {
    hide Tokens;
    if ts == [] {
      TokensNone();
    } else if |ts| == 1 {
      TokensOne(ts[0]);
    } else {
      TokensJoin(ts[..|ts| - 1]);
      TokensAppend(Join(ts[..|ts| - 1]), ts[|ts| - 1]);
      TokensOne(ts[|ts| - 1]);
    }
  }

  lemma TokensNone()
    ensures Tokens("") == []
  {
  }

  // ---------------------------------------------------------------- clean words

  /** A word as it comes out: no comma or blank ends, nothing to upper-case. */
  predicate Clean(w: string) {
    w != "" && ',' !in w && !Blank(w[0]) && !Blank(w[|w| - 1]) && Upper(w) == w
  }

  lemma {:induction false} TrimLeftIs(s: string)
    ensures var r := TrimLeft(s); (r != "" ==> !Blank(r[0])) && forall x :: x in r ==> x in s
    ensures |TrimLeft(s)| <= |s|
    decreases |s|
  {
    if s != "" && Blank(s[0]) {
      TrimLeftIs(s[1..]);
    }
  }

  lemma {:induction false} TrimRightIs(s: string)
    ensures var r := TrimRight(s); r <= s && (r != "" ==> !Blank(r[|r| - 1]))
    decreases |s|
  {
    if s != "" && Blank(s[|s| - 1]) {
      TrimRightIs(s[..|s| - 1]);
    }
  }

  lemma TrimIs(t: string)
    ensures var r := Trim(t); |r| <= |t| && (',' !in t ==> ',' !in r)
    ensures var r := Trim(t); r != "" ==> !Blank(r[0]) && !Blank(r[|r| - 1])
  {
    TrimLeftIs(t);
    TrimRightIs(TrimLeft(t));
    assert forall x :: x in Trim(t) ==> x in TrimLeft(t);
  }

  lemma TrimClean(w: string)
    requires w != "" && !Blank(w[0]) && !Blank(w[|w| - 1])
    ensures Trim(w) == w
  {
  }

  lemma UpperClean(t: string)
    requires t != "" && ',' !in t && !Blank(t[0]) && !Blank(t[|t| - 1])
    ensures Clean(Upper(t))
  {
    var u := Upper(t);
    forall k | 0 <= k < |u|
      ensures UpperChar(u[k]) == u[k] && u[k] != ','
    {
      assert t[k] in t;
    }
    assert Upper(u) == u;
  }

  lemma {:induction false} WordsClean(ts: seq<string>)
    requires forall k :: 0 <= k < |ts| ==> ',' !in ts[k]
    ensures forall k :: 0 <= k < |Words(ts)| ==> Clean(Words(ts)[k])
    decreases |ts|
  {
    hide Clean;
    hide Trim;
    hide Upper;
    hide Blank;
    if ts != [] {
      WordsClean(ts[1..]);
      TrimIs(ts[0]);
      if Trim(ts[0]) != "" {
        UpperClean(Trim(ts[0]));
      }
    }
  }

  lemma {:induction false} CleanWords(ts: seq<string>)
    requires forall k :: 0 <= k < |ts| ==> Clean(ts[k])
    ensures Words(ts) == ts
    decreases |ts|
  {
    hide Trim;
    hide Upper;
    if ts != [] {
      TrimClean(ts[0]);
      CleanWords(ts[1..]);
    }
  }

  lemma {:induction false} DistinctSame(ws: seq<string>)
    requires forall i, k :: 0 <= i < k < |ws| ==> ws[i] != ws[k]
    ensures Distinct(ws) == ws
    decreases |ws|
  {
    if ws != [] {
      DistinctSame(ws[..|ws| - 1]);
    }
  }

  // ---------------------------------------------------------------- lengths

  /** Characters and one separator for every token. */
  function Weight(ts: seq<string>): nat {
    if ts == [] then 0 else |ts[0]| + 1 + Weight(ts[1..])
  }

  lemma {:induction false} WeightAppend(a: seq<string>, b: seq<string>)
    ensures Weight(a + b) == Weight(a) + Weight(b)
    decreases |a|
  {
    if a == [] {
      assert a + b == b;
    } else {
      assert (a + b)[1..] == a[1..] + b;
      WeightAppend(a[1..], b);
    }
  }

  lemma {:induction false} WeightTokens(s: string)
    ensures Weight(Tokens(s)) <= |s| + 1
    decreases |s|
  {
    if s != "" {
      var e := CharAt(s, ',');
      var rest := if e < |s| then Tokens(s[e + 1..]) else [];
      if e < |s| {
        WeightTokens(s[e + 1..]);
      }
      WeightAppend(if e > 0 then [s[..e]] else [], rest);
    }
  }

  lemma {:induction false} WeightWords(ts: seq<string>)
    ensures Weight(Words(ts)) <= Weight(ts)
    decreases |ts|
  {
    hide Trim;
    if ts != [] {
      WeightWords(ts[1..]);
      TrimIs(ts[0]);
      WeightAppend(if Trim(ts[0]) != "" then [Upper(Trim(ts[0]))] else [], Words(ts[1..]));
    }
  }

  lemma {:induction false} WeightDistinct(ws: seq<string>)
    ensures Weight(Distinct(ws)) <= Weight(ws)
    decreases |ws|
  {
    if ws != [] {
      var w := ws[|ws| - 1];
      WeightDistinct(ws[..|ws| - 1]);
      WeightAppend(ws[..|ws| - 1], [w]);
      WeightAppend(Distinct(ws[..|ws| - 1]), [w]);
      assert ws[..|ws| - 1] + [w] == ws;
    }
  }

  lemma {:induction false} WeightInsert(t: string, ts: seq<string>)
    ensures Weight(Insert(t, ts)) == |t| + 1 + Weight(ts)
    decreases |ts|
  {
    hide Less;
    if ts != [] && !Less(t, ts[0]) {
      WeightInsert(t, ts[1..]);
    }
  }

  lemma {:induction false} WeightSort(ts: seq<string>)
    ensures Weight(Sort(ts)) == Weight(ts)
    decreases |ts|
  {
    if ts != [] {
      var init, t := ts[..|ts| - 1], ts[|ts| - 1];
      WeightSort(init);
      WeightInsert(t, Sort(init));
      WeightAppend(init, [t]);
      assert init + [t] == ts;
    }
  }

  lemma {:induction false} WeightJoin(ts: seq<string>)
    ensures |Join(ts)| == if ts == [] then 0 else Weight(ts) - 1
    decreases |ts|
  {
    if |ts| > 1 {
      var init, t := ts[..|ts| - 1], ts[|ts| - 1];
      WeightJoin(init);
      WeightAppend(init, [t]);
      assert init + [t] == ts;
    }
  }

  /** The normal form is never longer than what was read. */
  lemma NormalLen(raw: string)
    ensures |Normal(raw)| <= SCRATCH
  {
    hide Sort;
    hide Join;
    hide Distinct;
    hide Words;
    hide Tokens;
    var s := Cut(raw, SCRATCH);
    WeightTokens(s);
    WeightWords(Tokens(s));
    WeightDistinct(WordsOf(s));
    WeightSort(Distinct(WordsOf(s)));
    WeightJoin(Sort(Distinct(WordsOf(s))));
  }

  // ---------------------------------------------------------------- laws

  /** The tokens of a normal form are its words: strictly sorted, clean, and the words of the input. */
  lemma NormalTokens(raw: string)
    ensures var ts := Tokens(Normal(raw));
            && ts == Sort(Distinct(TagWords(raw))) && Sorted(ts)
            && (forall k :: 0 <= k < |ts| ==> Clean(ts[k]))
            && (forall x :: x in ts <==> x in TagWords(raw))
  {
    hide Join;
    hide Sort;
    hide Clean;
    hide Words;
    hide Tokens;
    var ws := TagWords(raw);
    var ts := Sort(Distinct(ws));
    WordsClean(Tokens(Cut(raw, SCRATCH)));
    SortSorted(Distinct(ws));
    forall k | 0 <= k < |ts|
      ensures Clean(ts[k])
    {
      assert ts[k] in ts && ts[k] in ws;
      var l :| 0 <= l < |ws| && ws[l] == ts[k];
    }
    CleanPlain(ts);
    TokensJoin(ts);
  }

  lemma CleanPlain(ts: seq<string>)
    requires forall k :: 0 <= k < |ts| ==> Clean(ts[k])
    ensures forall k :: 0 <= k < |ts| ==> ts[k] != "" && ',' !in ts[k]
  {
  }

  lemma SortedDistinct(ts: seq<string>)
    requires Sorted(ts)
    ensures Distinct(ts) == ts && Sort(ts) == ts
  {
    forall i, k | 0 <= i < k < |ts|
      ensures ts[i] != ts[k]
    {
      LessTotal(ts[i], ts[k]);
      LessTotal(ts[i], ts[i]);
    }
    DistinctSame(ts);
    SortSorted(ts);
    SortedUnique(Sort(ts), ts);
  }

  /** Normalising a normal form gives it back. */
  lemma Idempotent(raw: string, size: nat)
    requires Normalize(raw, size).Some?
    ensures Normalize(Normalize(raw, size).value, size) == Normalize(raw, size)
  {
    hide Sort;
    hide Distinct;
    hide Join;
    hide Clean;
    hide Colon;
    hide Sorted;
    var out := Normal(raw);
    NormalLen(raw);
    NormalTokens(raw);
    CleanWords(Tokens(out));
    hide Tokens;
    hide Words;
    SortedDistinct(Tokens(out));
    ColonIs(TagWords(raw));
    ColonIs(Tokens(out));
    SortLen(Distinct(TagWords(raw)));
  }

  lemma SortLen(ts: seq<string>)
    ensures |Sort(ts)| == |ts|
  {
  }

  // ---------------------------------------------------------------- role tags

  predicate ValidUser(tag: string) {
    |tag| <= USER_MAX && ':' !in tag
  }

  /** The user's text and the system's, as the combining buffer holds them. */
  function Combined(user: string, sys: string): string {
    Cut(if user == "" then sys else user + "," + sys, 319)
  }

  /** _sf_finalize_role_tags */
  function Finalize(user: string, sys: string, size: nat): Option<string> {
    if sys == "" || !ValidUser(user) then None else Normalize(Combined(user, sys), size)
  }

  lemma {:induction false} WordsAppend(a: seq<string>, b: seq<string>)
    ensures Words(a + b) == Words(a) + Words(b)
    decreases |a|
  {
    hide Trim;
    hide Upper;
    if a == [] {
      assert a + b == b;
    } else {
      assert (a + b)[1..] == a[1..] + b;
      WordsAppend(a[1..], b);
    }
  }

  /** The scratch buffer holds the user's text and the system's; valid user text and 63 characters
      of system text always fit. */
  predicate FitsScratch(user: string, sys: string) {
    (if user == "" then |sys| else |user| + 1 + |sys|) <= SCRATCH
  }

  /** The words of user and system text together, when the scratch buffer holds them. */
  lemma CombinedWords(user: string, sys: string)
    requires FitsScratch(user, sys)
    ensures TagWords(Combined(user, sys)) == WordsOf(user) + WordsOf(sys)
  {
    hide Words;
    hide Tokens;
    if user == "" {
      TokensNone();
      NoWords();
    } else {
      TokensAppend(user, sys);
      WordsAppend(Tokens(user), Tokens(sys));
    }
  }

  lemma NoWords()
    ensures Words([]) == []
  {
  }

  /** What the scratch buffer holds of the system's text, behind the user's. */
  function SystemPart(user: string, sys: string): string {
    Cut(sys, if |user| < SCRATCH then SCRATCH - (if user == "" then 0 else |user| + 1) else 0)
  }

  /** A finalised role tag holds exactly the user's words and those of the system's text as far as it
      reaches into the scratch buffer: what is cut off, in the middle of a word or not, is lost
      without an error. */
  lemma SystemTagsCut(user: string, sys: string, size: nat)
    requires Finalize(user, sys, size).Some?
    ensures var out := Finalize(user, sys, size).value;
            forall x :: x in Tokens(out) <==> x in WordsOf(user) || x in WordsOf(SystemPart(user, sys))
  {
    hide Words;
    hide Tokens;
    hide Normal;
    var part := SystemPart(user, sys);
    assert Cut(Combined(user, sys), SCRATCH) == Cut(Combined(user, part), SCRATCH);
    CombinedWords(user, part);
    NormalTokens(Combined(user, sys));
  }

  /** When both texts fit, every system word and every user word is there and no other; the tag fits
      its buffer and normalises to itself. */
  lemma RoleTags(user: string, sys: string, size: nat)
    requires FitsScratch(user, sys) && Finalize(user, sys, size).Some?
    ensures var out := Finalize(user, sys, size).value;
            && |out| < size && Normalize(out, size) == Some(out)
            && (forall x :: x in Tokens(out) <==> x in WordsOf(user) || x in WordsOf(sys))
  {
    hide Words;
    hide Tokens;
    hide Normal;
    SystemTagsCut(user, sys, size);
    assert SystemPart(user, sys) == sys;
    Idempotent(Combined(user, sys), size);
  }

  // ---------------------------------------------------------------- character by character

  /** The 26 lower-case letters become their capitals, all else stays. */
  lemma UpperIs(s: string, k: nat)
    requires k < |s|
    ensures Upper(s)[k] as int == if 0x61 <= s[k] as int <= 0x7A then s[k] as int - 0x20 else s[k] as int
  {
  }

  /** Blanks and tabs go at both ends, and only there. */
  lemma {:induction false} TrimmedIs(pre: string, core: string, post: string)
    requires (forall c :: c in pre + post ==> c == ' ' || c == '\t')
    requires core != "" ==> core[0] !in " \t" && core[|core| - 1] !in " \t"
    ensures Trim(pre + core + post) == core
    decreases |pre| + |post|
  {
    var s := pre + core + post;
    if pre != "" {
      assert pre[0] in pre + post && s[0] == pre[0] && s[1..] == pre[1..] + core + post;
      assert forall c :: c in pre[1..] + post ==> c in pre + post;
      TrimmedIs(pre[1..], core, post);
    } else if core == "" {
      BlankLeft(s);
    } else {
      assert TrimLeft(s) == s;
      assert forall c :: c in post ==> c in pre + post;
      BlankRight(core, post);
      assert s == core + post;
    }
  }

  lemma {:induction false} BlankLeft(s: string)
    requires forall c :: c in s ==> c == ' ' || c == '\t'
    ensures TrimLeft(s) == "" && TrimRight("") == ""
    decreases |s|
  {
    if s != "" {
      assert s[0] in s && forall c :: c in s[1..] ==> c in s;
      BlankLeft(s[1..]);
    }
  }

  lemma {:induction false} BlankRight(core: string, post: string)
    requires core != "" && core[|core| - 1] !in " \t" && forall c :: c in post ==> c == ' ' || c == '\t'
    ensures TrimRight(core + post) == core
    decreases |post|
  {
    var s := core + post;
    if post == "" {
      assert s == core;
    } else {
      var less := post[..|post| - 1];
      forall c | c in less
        ensures c == ' ' || c == '\t'
      {
        assert c in post;
      }
      assert post[|post| - 1] in post && s[|s| - 1] == post[|post| - 1];
      assert s[..|s| - 1] == core + less;
      BlankRight(core, less);
    }
  }

  /** The words of two lists with a comma between them. */
  lemma WordsSplit(a: string, b: string)
    ensures WordsOf(a + "," + b) == WordsOf(a) + WordsOf(b)
  {
    hide Words;
    hide Tokens;
    TokensAppend(a, b);
    WordsAppend(Tokens(a), Tokens(b));
  }

  /** A list without a comma is one word, or none when it is blank. */
  lemma WordsPiece(pre: string, core: string, post: string)
    requires (forall c :: c in pre + post ==> c == ' ' || c == '\t') && ',' !in core
    requires core != "" ==> core[0] !in " \t" && core[|core| - 1] !in " \t"
    ensures WordsOf(pre + core + post) == if core == "" then [] else [Upper(core)]
  {
    var s := pre + core + post;
    assert ',' !in s by {
      assert forall c :: c in s ==> c in pre + post || c in core;
    }
    TokensOne(s);
    TrimmedIs(pre, core, post);
    hide Tokens;
    hide Trim;
    hide Upper;
    if s == "" {
      assert core == "";
      NoWords();
    } else {
      assert [s][1..] == [] && Words([s]) == (if core != "" then [Upper(core)] else []) + Words([]);
    }
  }

  /** Behind a common part the smaller character decides, and a text that ends there comes first. */
  lemma {:induction false} LessAt(p: string, x: string, y: string)
    requires x != "" && y != "" ==> x[0] != y[0]
    ensures Less(p + x, p + y) <==> y != "" && (x == "" || x[0] < y[0])
    decreases |p|
  {
    if p == "" {
      assert p + x == x && p + y == y;
    } else {
      assert (p + x)[1..] == p[1..] + x && (p + y)[1..] == p[1..] + y;
      LessAt(p[1..], x, y);
    }
  }

  /** Normalising fails exactly on a colon in a word, more than 64 different words, or a result that does not fit
      with its terminator; 255 characters are read. */
  lemma NormalizeFails(raw: string, size: nat)
    ensures var ws := WordsOf(if |raw| > 255 then raw[..255] else raw);
            Normalize(raw, size) == None
            <==> (exists w :: w in ws && ':' in w) || |set w | w in ws| > 64 || |Normal(raw)| >= size
  {
    var ws := TagWords(raw);
    ColonIs(ws);
    DistinctCount(ws);
    hide WordsOf;
    hide Normal;
    hide Distinct;
    hide Colon;
  }

  lemma NoneDistinct()
    ensures Distinct([]) == []
  {
  }

  lemma ElementsNext(v: seq<string>, w: string)
    ensures |set x | x in v + [w]| == |set x | x in v| + (if w in v then 0 else 1)
  {
    assert (set x | x in v + [w]) == (set x | x in v) + {w};
  }

  lemma {:induction false} DistinctCount(ws: seq<string>)
    ensures |Distinct(ws)| == |set w | w in ws|
    decreases |ws|
  {
    hide Distinct;
    if ws == [] {
      NoneDistinct();
    } else {
      var v, w := ws[..|ws| - 1], ws[|ws| - 1];
      assert ws == v + [w];
      DistinctCount(v);
      DistinctNext(v, w);
      ElementsNext(v, w);
    }
  }

  /** Finalising normalises the two texts with a comma between them; it fails without system text, and on user text
      of more than 191 characters or with a colon. */
  lemma FinalizeIs(user: string, sys: string, size: nat)
    ensures Finalize(user, sys, size)
            == if sys == "" || |user| > 191 || ':' in user then None
               else Normalize(if user == "" then sys else user + "," + sys, size)
  {
    var t := if user == "" then sys else user + "," + sys;
    assert Cut(Combined(user, sys), 255) == Cut(t, 255);
    hide Normal;
    hide WordsOf;
    hide Distinct;
    hide Colon;
  }

  // ---------------------------------------------------------------- what is kept of the system's text

  /** Every accepted pair of texts of these lengths keeps every system word. */
  ghost predicate SystemKept(n: nat, m: nat, size: nat) {
    forall user: string, sys: string, x: string ::
      |user| == n && |sys| == m && Finalize(user, sys, size).Some? && x in WordsOf(sys) ==>
        x in Tokens(Finalize(user, sys, size).value)
  }

  /** For user text of n characters and system text of m that is so exactly when both fit. */
  lemma SystemKeptExactly(n: nat, m: nat, size: nat)
    requires n <= USER_MAX && m > 0 && size > SCRATCH
    ensures SystemKept(n, m, size) <==> (if n == 0 then m else n + 1 + m) <= SCRATCH
  {
    hide Words;
    hide Tokens;
    hide Finalize;
    if (if n == 0 then m else n + 1 + m) <= SCRATCH {
      forall user: string, sys: string, x: string
        | |user| == n && |sys| == m && Finalize(user, sys, size).Some? && x in WordsOf(sys)
        ensures x in Tokens(Finalize(user, sys, size).value)
      {
        RoleTags(user, sys, size);
      }
    } else {
      SystemTagLost(n, m, size);
    }
  }

  /** A letter n times. */
  function Letters(n: nat, c: char): (s: string)
    requires 'A' <= c <= 'Z'
    ensures |s| == n && ':' !in s && (forall k :: 0 <= k < n ==> s[k] == c) && (n > 0 ==> Clean(s))
  {
    var s := seq(n, _ => c);
    assert Upper(s) == s;
    s
  }

  /** Text that is one character over already loses a word: n times A from the user, m times B from
      the system. */
  lemma SystemTagLost(n: nat, m: nat, size: nat)
    requires n <= USER_MAX && size > SCRATCH && (if n == 0 then m else n + 1 + m) > SCRATCH
    ensures var user, sys := Letters(n, 'A'), Letters(m, 'B');
            var r := Finalize(user, sys, size);
            r.Some? && sys in WordsOf(sys) && sys !in Tokens(r.value)
  {
    var user, sys := Letters(n, 'A'), Letters(m, 'B');
    assert ValidUser(user) && !FitsScratch(user, sys);
    assert n > 0 ==> sys[0] == 'B' && user[0] == 'A';
    LettersCut(user, m);
    WordLost(user, sys, size);
  }

  /** A single system word that is cut is lost. */
  lemma WordLost(user: string, sys: string, size: nat)
    requires (user != "" ==> Clean(user)) && ValidUser(user) && size > SCRATCH && user != sys
    requires Clean(sys) && ':' !in sys && Clean(SystemPart(user, sys)) && SystemPart(user, sys) != sys
    ensures Finalize(user, sys, size).Some? && sys in WordsOf(sys)
    ensures sys !in Tokens(Finalize(user, sys, size).value)
  {
    CleanAccepted(user, sys, size);
    hide *;
    var part := SystemPart(user, sys);
    assert sys in WordsOf(sys) by {
      OneWord(sys);
    }
    assert sys !in WordsOf(user) by {
      WordOrNone(user);
    }
    assert sys !in WordsOf(part) by {
      OneWord(part);
    }
    SystemTagsCut(user, sys, size);
  }

  lemma LettersCut(user: string, m: nat)
    requires |user| <= USER_MAX && !FitsScratch(user, Letters(m, 'B'))
    ensures var part := SystemPart(user, Letters(m, 'B'));
            0 < |part| < m && Clean(part)
  {
    var part := SystemPart(user, Letters(m, 'B'));
    assert part == Letters(|part|, 'B');
  }

  lemma WordOrNone(t: string)
    requires t != "" ==> Clean(t)
    ensures WordsOf(t) == if t == "" then [] else [t]
  {
    if t == "" {
      TokensNone();
      NoWords();
    } else {
      OneWord(t);
    }
  }

  /** Two plain words are accepted. */
  lemma CleanAccepted(user: string, sys: string, size: nat)
    requires (user != "" ==> Clean(user)) && ValidUser(user) && size > SCRATCH
    requires sys != "" && ':' !in sys && Clean(SystemPart(user, sys))
    ensures Finalize(user, sys, size).Some?
  {
    hide Words;
    hide Tokens;
    hide Normal;
    hide Clean;
    var part := SystemPart(user, sys);
    WordOrNone(user);
    OneWord(part);
    assert Cut(Combined(user, sys), SCRATCH) == Cut(Combined(user, part), SCRATCH);
    CombinedWords(user, part);
    NormalLen(Combined(user, sys));
    assert ':' !in part by {
      assert forall c :: c in part ==> c in sys;
    }
  }

  /** Upper-case text without commas and blanks is one word. */
  lemma OneWord(t: string)
    requires Clean(t)
    ensures WordsOf(t) == [t]
  {
    hide Tokens;
    TokensOne(t);
    CleanWords([t]);
  }

  // ---------------------------------------------------------------- display

  /** Tokens joined with a comma and a space. */
  function Spaced(ts: seq<string>): string {
    Joined(ts, ", ")
  }

  /** _sf_format_tags_display */
  function Display(stored: string, size: nat): Option<string> {
    if |Spaced(Tokens(stored))| >= size then None else Some(Spaced(Tokens(stored)))
  }

  /** The display form has a comma and a blank between the tags. */
  lemma DisplayIs(tags: seq<string>, tag: string, size: nat)
    requires tag != "" && ',' !in tag && forall k :: 0 <= k < |tags| ==> tags[k] != "" && ',' !in tags[k]
    ensures var shown := if tags == [] then tag else Spaced(tags) + ", " + tag;
            Display(Join(tags + [tag]), size) == if |shown| >= size then None else Some(shown)
  {
    hide Tokens;
    TokensJoin(tags + [tag]);
    JoinedSnoc(tags, tag, ", ");
  }

  lemma {:induction false} SpacedWords(ts: seq<string>)
    requires forall k :: 0 <= k < |ts| ==> Clean(ts[k])
    ensures WordsOf(Spaced(ts)) == ts
    decreases |ts|
  {
    hide Words;
    hide Tokens;
    if ts == [] {
      TokensNone();
      NoWords();
    } else if |ts| == 1 {
      TokensOne(ts[0]);
      CleanWords(ts);
      assert ts == [ts[0]];
    } else {
      var init, t := ts[..|ts| - 1], ts[|ts| - 1];
      SpacedWords(init);
      assert Spaced(init) + ", " + t == Spaced(init) + "," + (" " + t);
      TokensAppend(Spaced(init), " " + t);
      TokensOne(" " + t);
      WordsAppend(Tokens(Spaced(init)), [" " + t]);
      SpacedWord(t);
      assert init + [t] == ts;
    }
  }

  lemma SpacedWord(t: string)
    requires Clean(t)
    ensures Words([" " + t]) == [t]
  {
    assert (" " + t)[1..] == t;
    assert TrimLeft(" " + t) == TrimLeft(t) == t;
    assert Words([]) == [];
  }

  /** What is displayed of a normal form normalises back to it exactly when the scratch buffer holds
      it: a longer text loses a word. */
  lemma DisplayNormalizes(raw: string, size: nat, wide: nat)
    requires Normalize(raw, size).Some? && Display(Normalize(raw, size).value, wide).Some?
    ensures var shown := Display(Normalize(raw, size).value, wide).value;
            Normalize(shown, size) == Normalize(raw, size) <==> |shown| <= SCRATCH
  {
    var out := Normal(raw);
    var ts := Tokens(out);
    NormalTokens(raw);
    hide Words;
    hide Tokens;
    hide Clean;
    hide Normal;
    if |Spaced(ts)| <= SCRATCH {
      SpacedWords(ts);
      SameWords(Spaced(ts), raw, size);
    } else {
      var cut := Cut(Spaced(ts), SCRATCH);
      SortedApart(ts);
      var x := WordMissing(ts, cut);
      NormalTokens(Spaced(ts));
      assert x in ts && x !in Tokens(Normal(Spaced(ts)));
    }
  }

  lemma SortedApart(ts: seq<string>)
    requires Sorted(ts)
    ensures forall i, k :: 0 <= i < k < |ts| ==> ts[i] != ts[k]
  {
    forall i, k | 0 <= i < k < |ts|
      ensures ts[i] != ts[k]
    {
      LessTotal(ts[i], ts[i]);
    }
  }

  /** A displayed text that is cut has lost one of its words. */
  lemma {:induction false} WordMissing(ts: seq<string>, cut: string) returns (x: string)
    requires (forall k :: 0 <= k < |ts| ==> Clean(ts[k])) && cut <= Spaced(ts) && |cut| < |Spaced(ts)|
    requires forall i, k :: 0 <= i < k < |ts| ==> ts[i] != ts[k]
    ensures x in ts && x !in WordsOf(cut)
    decreases |ts|
  {
    hide Words;
    hide Tokens;
    hide Clean;
    var init, t := ts[..|ts| - 1], ts[|ts| - 1];
    if |ts| == 1 {
      x := t;
      assert Spaced(ts) == t && forall c :: c in cut ==> c in t;
      CleanPlain(ts);
      PartOfWord(t, cut);
    } else if |cut| < |Spaced(init)| {
      assert cut <= Spaced(init);
      x := WordMissing(init, cut);
    } else {
      x := t;
      assert t !in init;
      SpacedWords(init);
      var n := |Spaced(init)|;
      if |cut| == n {
        assert cut == Spaced(init);
      } else {
        var p := cut[n + 1..];
        assert cut == Spaced(init) + "," + p;
        TokensAppend(Spaced(init), p);
        WordsAppend(Tokens(Spaced(init)), Tokens(p));
        assert p == "" || (p == " " + p[1..] && p[1..] <= t && |p[1..]| < |t|);
        BlankPart(t, p);
      }
    }
  }

  /** Fewer characters than a word has do not make the word. */
  lemma PartOfWord(t: string, p: string)
    requires ',' !in p && |p| < |t|
    ensures t !in WordsOf(p)
  {
    TrimIs(p);
    OnePiece(p);
  }

  /** Text without commas is one word at most. */
  lemma OnePiece(p: string)
    requires ',' !in p
    ensures WordsOf(p) == if Trim(p) == "" then [] else [Upper(Trim(p))]
  {
    hide Trim;
    hide Upper;
    TokensOne(p);
    hide Tokens;
    NoWords();
    assert Trim("") == "" by {
      TrimIs("");
    }
    if p != "" {
      assert [p][1..] == [] && [Upper(Trim(p))] + [] == [Upper(Trim(p))];
      assert Words([p]) == (if Trim(p) != "" then [Upper(Trim(p))] else []);
    }
  }

  lemma BlankPart(t: string, p: string)
    requires Clean(t) && (p == "" || (p == " " + p[1..] && p[1..] <= t && |p[1..]| < |t|))
    ensures t !in WordsOf(p)
  {
    if p == "" {
      PartOfWord(t, p);
    } else {
      var q := p[1..];
      assert forall c :: c in q ==> c in t;
      OnePiece(p);
      TrimIs(q);
      assert p[1..] == q && Trim(p) == Trim(q);
    }
  }

  // ---------------------------------------------------------------- the code

  /** _sf_toupper_check on one token. */
  method ToUpperCheck(t: string) returns (ok: bool, u: string)
    ensures ok <==> ':' !in t
    ensures ok ==> u == Upper(t)
  {
    u := "";
    var i := 0;
    while i < |t|
      invariant i <= |t| && u == Upper(t)[..i] && ':' !in t[..i]
    {
      if t[i] == ':' { return false, u; }
      u := u + [UpperChar(t[i])];
      i := i + 1;
    }
    assert t[..i] == t;
    ok := true;
  }

  /** The trimming loops. */
  method TrimToken(tok: string) returns (t: string)
    ensures t == Trim(tok)
  {
    t := tok;
    while t != "" && Blank(t[0])
      invariant TrimLeft(tok) == TrimLeft(t)
      decreases |t|
    {
      t := t[1..];
    }
    while t != "" && Blank(t[|t| - 1])
      invariant TrimRight(TrimLeft(tok)) == TrimRight(t)
      decreases |t|
    {
      t := t[..|t| - 1];
    }
  }

  /** A word added to the distinct ones, unless the table is full. */
  method AddToken(tokens: seq<string>, u: string, ghost ws: seq<string>) returns (ok: bool, r: seq<string>)
    requires tokens == Distinct(ws) && |tokens| <= MAX_TOKENS
    ensures ok <==> |Distinct(ws + [u])| <= MAX_TOKENS
    ensures ok ==> r == Distinct(ws + [u])
  {
    hide Distinct;
    DistinctNext(ws, u);
    r := tokens;
    var j := 0;
    while j < |tokens|
      invariant j <= |tokens| && u !in tokens[..j]
    {
      if tokens[j] == u { return true, r; }
      j := j + 1;
    }
    assert tokens[..|tokens|] == tokens;
    if |tokens| >= MAX_TOKENS { return false, r; }
    return true, tokens + [u];
  }

  /** One turn of the token loop. */
  method TakePiece(tokens: seq<string>, piece: string, ghost ws: seq<string>)
    returns (ok: bool, r: seq<string>, ghost ws': seq<string>)
    requires tokens == Distinct(ws) && Fine(ws)
    ensures ws' == ws + (if Trim(piece) != "" then [Upper(Trim(piece))] else [])
    ensures ok <==> Fine(ws')
    ensures ok ==> r == Distinct(ws')
  {
    hide Distinct;
    hide Trim;
    hide Colon;
    r, ws' := tokens, ws;
    assert ws + [] == ws;
    var t := TrimToken(piece);
    if t == "" { return true, tokens, ws'; }
    ws' := ws + [Upper(t)];
    UpperColon(t);
    ColonNext(ws, Upper(t));
    var plain, u := ToUpperCheck(t);
    if !plain { return false, r, ws'; }
    ok, r := AddToken(tokens, u, ws);
  }

  /** Nothing that fails so far: no colon, and room for the distinct words. */
  predicate Fine(ws: seq<string>) {
    !Colon(ws) && |Distinct(ws)| <= MAX_TOKENS
  }

  /** The token loop of _sf_normalize_tags: the distinct words, or a failure. */
  method Collect(pieces: seq<string>) returns (ok: bool, tokens: seq<string>)
    ensures ok <==> Fine(Words(pieces))
    ensures ok ==> tokens == Distinct(Words(pieces))
  {
    hide Trim;
    hide Upper;
    hide Distinct;
    hide Colon;
    hide Words;
    tokens := [];
    DistinctNone();
    NoWords();
    ghost var ws: seq<string> := [];
    ok := true;
    var i := 0;
    while ok && i < |pieces|
      invariant i <= |pieces| && ws == Words(pieces[..i])
      invariant ok <==> Fine(ws)
      invariant ok ==> tokens == Distinct(ws)
    {
      WordsNext(pieces, i);
      ok, tokens, ws := TakePiece(tokens, pieces[i], ws);
      i := i + 1;
    }
    if ok {
      assert pieces[..i] == pieces;
    } else {
      PieceFails(pieces, i);
    }
  }

  lemma DistinctNone()
    ensures Distinct([]) == [] && !Colon([])
  {
  }

  lemma PieceFails(pieces: seq<string>, n: nat)
    requires n <= |pieces| && !Fine(Words(pieces[..n]))
    ensures !Fine(Words(pieces))
  {
    hide Words;
    var ws := Words(pieces[..n]);
    assert pieces == pieces[..n] + pieces[n..];
    WordsAppend(pieces[..n], pieces[n..]);
    DistinctGrows(ws, Words(pieces));
    if Colon(ws) {
      var k :| 0 <= k < |ws| && ':' in ws[k];
      assert Words(pieces)[k] == ws[k];
    }
  }

  lemma WordsNext(pieces: seq<string>, i: nat)
    requires i < |pieces|
    ensures Words(pieces[..i + 1]) == Words(pieces[..i])
            + (if Trim(pieces[i]) != "" then [Upper(Trim(pieces[i]))] else [])
  {
    hide Trim;
    hide Upper;
    assert pieces[..i + 1] == pieces[..i] + [pieces[i]];
    WordsAppend(pieces[..i], [pieces[i]]);
    assert [pieces[i]][1..] == [];
    NoWords();
  }

  lemma UpperColon(t: string)
    ensures ':' in Upper(t) <==> ':' in t
  {
    assert forall k :: 0 <= k < |t| ==> (Upper(t)[k] == ':' <==> t[k] == ':');
    if ':' in t {
      var k :| 0 <= k < |t| && t[k] == ':';
      assert Upper(t)[k] == ':';
    }
  }

  lemma ColonNext(ws: seq<string>, w: string)
    ensures Colon(ws + [w]) <==> Colon(ws) || ':' in w
  {
    ColonIs(ws);
    ColonIs(ws + [w]);
  }

  lemma DistinctNext(ws: seq<string>, w: string)
    ensures Distinct(ws + [w]) == if w in Distinct(ws) then Distinct(ws) else Distinct(ws) + [w]
  {
    assert (ws + [w])[..|ws|] == ws;
  }

  lemma {:induction false} DistinctGrows(ws: seq<string>, vs: seq<string>)
    requires ws <= vs
    ensures |Distinct(ws)| <= |Distinct(vs)|
    decreases |vs|
  {
    if |ws| < |vs| {
      DistinctGrows(ws, vs[..|vs| - 1]);
    } else {
      assert ws == vs;
    }
  }

  /** One token, behind a separator unless it is the first. */
  method OutputToken(dst: array<char>, n: nat, first: bool, tok: string, sep: string) returns (ok: bool, n': nat)
    requires n < dst.Length && tok != ""
    modifies dst
    ensures var piece := if first then tok else sep + tok;
            && (ok <==> n + |piece| < dst.Length)
            && (ok ==> n' == n + |piece| && dst[..n'] == old(dst[..n]) + piece)
  {
    n' := n;
    if !first {
      if n' + |sep| >= dst.Length { return false, n'; }
      CopyInto(dst, n', sep);
      n' := n' + |sep|;
    }
    if n' + |tok| >= dst.Length { return false, n'; }
    CopyInto(dst, n', tok);
    n' := n' + |tok|;
    ok := true;
  }

  /** The output loop: tokens written one behind the other. */
  method Output(dst: array<char>, tokens: seq<string>, sep: string) returns (ok: bool, n: nat)
    requires dst.Length > 0 && (sep == "," || sep == ", ")
    requires forall k :: 0 <= k < |tokens| ==> tokens[k] != ""
    modifies dst
    ensures ok <==> |Joined(tokens, sep)| < dst.Length
    ensures ok ==> n == |Joined(tokens, sep)| && dst[..n] == Joined(tokens, sep) && dst[n] == '\0'
  {
    hide Joined;
    n := 0;
    var i := 0;
    JoinedNone(tokens, sep);
    while i < |tokens|
      invariant i <= |tokens| && n < dst.Length
      invariant dst[..n] == Joined(tokens[..i], sep)
    {
      JoinedNext(tokens, i, sep);
      JoinedGrows(tokens, i + 1, sep);
      ghost var had := dst[..n];
      ok, n := OutputToken(dst, n, i == 0, tokens[i], sep);
      if !ok { return; }
      assert i == 0 ==> had + tokens[i] == tokens[i];
      assert had + (sep + tokens[i]) == had + sep + tokens[i];
      i := i + 1;
    }
    assert tokens[..i] == tokens;
    dst[n] := '\0';
    ok := true;
  }

  lemma JoinedNext(ts: seq<string>, i: nat, sep: string)
    requires i < |ts|
    ensures Joined(ts[..i + 1], sep) == if i == 0 then ts[0] else Joined(ts[..i], sep) + sep + ts[i]
  {
    assert ts[..i + 1][..i] == ts[..i];
  }

  lemma {:induction false} JoinedGrows(ts: seq<string>, i: nat, sep: string)
    requires i <= |ts|
    ensures |Joined(ts[..i], sep)| <= |Joined(ts, sep)|
    decreases |ts| - i
  {
    hide Joined;
    if i == |ts| {
      assert ts[..i] == ts;
    } else {
      JoinedNext(ts, i, sep);
      JoinedGrows(ts, i + 1, sep);
      JoinedNone(ts, sep);
    }
  }

  lemma JoinedNone(ts: seq<string>, sep: string)
    ensures Joined(ts[..0], sep) == ""
  {
  }

  /** qsort with the token comparator, on tokens that are pairwise distinct. */
  method SortTokens(tokens: seq<string>) returns (r: seq<string>)
    ensures r == Sort(tokens)
  {
    r := [];
    var i := 0;
    assert tokens[..0] == [];
    while i < |tokens|
      invariant i <= |tokens| && r == Sort(tokens[..i])
    {
      assert tokens[..i + 1][..i] == tokens[..i];
      r := Insert(tokens[i], r);
      i := i + 1;
    }
    assert tokens[..i] == tokens;
  }

  /** _sf_normalize_tags into a buffer. */
  method NormalizeTags(dst: array<char>, raw: string) returns (ok: bool, n: nat)
    requires dst.Length > 0
    modifies dst
    ensures var r := Normalize(raw, dst.Length);
            && (ok <==> r.Some?)
            && (ok ==> n < dst.Length && dst[..n] == r.value && dst[n] == '\0')
  {
    dst[0] := '\0';
    if raw == "" {
      EmptyTags();
      return true, 0;
    }
    hide TagWords;
    hide Sort;
    hide Join;
    hide Distinct;
    var collected, tokens := Collect(Tokens(Cut(raw, SCRATCH)));
    RawWords(raw);
    hide Words;
    hide Tokens;
    if !collected { return false, 0; }
    var sorted := SortTokens(tokens);
    SortedText(raw);
    ok, n := Output(dst, sorted, ",");
  }

  lemma RawWords(raw: string)
    ensures Words(Tokens(Cut(raw, SCRATCH))) == TagWords(raw)
  {
  }

  lemma EmptyTags()
    ensures TagWords("") == [] && Normal("") == "" && !Colon(TagWords(""))
  {
    TokensNone();
    NoWords();
  }

  lemma SortedText(raw: string)
    ensures forall k :: 0 <= k < |Sort(Distinct(TagWords(raw)))| ==> Sort(Distinct(TagWords(raw)))[k] != ""
  {
    hide Sort;
    hide Distinct;
    hide TagWords;
    hide Tokens;
    var ts, ws := Sort(Distinct(TagWords(raw))), TagWords(raw);
    forall k | 0 <= k < |ts|
      ensures ts[k] != ""
    {
      assert ts[k] in ts && ts[k] in ws;
      WordsText(raw, ts[k]);
    }
  }

  lemma WordsText(raw: string, x: string)
    requires x in TagWords(raw)
    ensures x != ""
  {
  }

  /** _sf_finalize_role_tags into a buffer. */
  method FinalizeRoleTags(dst: array<char>, user: string, sys: string) returns (ok: bool, n: nat)
    requires dst.Length > 0
    modifies dst
    ensures var r := Finalize(user, sys, dst.Length);
            && (ok <==> r.Some?)
            && (ok ==> n < dst.Length && dst[..n] == r.value && dst[n] == '\0')
  {
    hide Normalize;
    if sys == "" { return false, 0; }
    var valid := |user| <= USER_MAX;
    var i := 0;
    while valid && i < |user|
      invariant i <= |user| && (valid ==> |user| <= USER_MAX && ':' !in user[..i])
      invariant !valid ==> !ValidUser(user)
    {
      if user[i] == ':' { valid := false; }
      i := i + 1;
    }
    assert i == |user| ==> user[..i] == user;
    if !valid { return false, 0; }
    ok, n := NormalizeTags(dst, Combined(user, sys));
  }

  /** _sf_format_tags_display into a buffer. */
  method FormatDisplay(dst: array<char>, stored: string) returns (ok: bool, n: nat)
    requires dst.Length > 0
    modifies dst
    ensures var r := Display(stored, dst.Length);
            && (ok <==> r.Some?)
            && (ok ==> n < dst.Length && dst[..n] == r.value && dst[n] == '\0')
  {
    ok, n := Output(dst, Tokens(stored), ", ");
  }
}
