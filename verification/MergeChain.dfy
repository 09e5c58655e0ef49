/** The inheritance chain of a runtime environment and the table merged along it: from the root-most
    record to the leaf, a later binding overwriting an earlier one. */
module MergeChain {
  import opened Common

  // ---------------------------------------------------------------- tables with fixed-size keys

  datatype Row<T> = Row(key: string, val: T)

  /** The first row with the key, or the number of rows. */
  function Index<T>(tab: seq<Row<T>>, key: string): (i: nat)
    ensures i <= |tab| && (forall k :: 0 <= k < i ==> tab[k].key != key)
    ensures i < |tab| ==> tab[i].key == key
  {
    if tab == [] then 0 else if tab[0].key == key then 0 else 1 + Index(tab[1..], key)
  }

  function Lookup<T>(tab: seq<Row<T>>, key: string): Option<T> {
    var i := Index(tab, key);
    if i < |tab| then Some(tab[i].val) else None
  }

  /** Set a key in a table of at most `max` rows that keeps `cap` characters of a new key: the search
      compares the whole key with what is stored. None when the table is full. */
  function Put<T>(tab: seq<Row<T>>, key: string, val: T, cap: nat, max: nat): Option<seq<Row<T>>> {
    var i := Index(tab, key);
    if i < |tab| then Some(tab[i := Row(key, val)])
    else if |tab| >= max then None
    else Some(tab + [Row(Cut(key, cap), val)])
  }

  function PutAll<T>(tab: seq<Row<T>>, bs: seq<Row<T>>, cap: nat, max: nat): Option<seq<Row<T>>>
    decreases |bs|
  {
    if bs == [] then Some(tab)
    else
      match PutAll(tab, bs[..|bs| - 1], cap, max)
      case None => None
      case Some(t) => Put(t, bs[|bs| - 1].key, bs[|bs| - 1].val, cap, max)
  }

  /** What was bound to the key last. */
  function Last<T>(bs: seq<Row<T>>, key: string): Option<T>
    decreases |bs|
  {
    if bs == [] then None
    else if bs[|bs| - 1].key == key then Some(bs[|bs| - 1].val)
    else Last(bs[..|bs| - 1], key)
  }

  ghost predicate Distinct<T(!new)>(tab: seq<Row<T>>) {
    forall i, k :: 0 <= i < k < |tab| ==> tab[i].key != tab[k].key
  }

  /** An overlong key is stored cut; no other key bound before it is stored under the same characters. */
  ghost predicate CutApart<T(!new)>(bs: seq<Row<T>>, cap: nat) {
    forall i, k :: 0 <= i < k < |bs| && |bs[k].key| > cap ==> Cut(bs[i].key, cap) != Cut(bs[k].key, cap)
  }

  /** Stored keys are at most cap long, so a key found whole is its own cut. */
  predicate Short<T>(tab: seq<Row<T>>, cap: nat) {
    forall k :: 0 <= k < |tab| ==> |tab[k].key| <= cap
  }

  lemma IndexIs<T>(tab: seq<Row<T>>, key: string, i: nat)
    requires i < |tab| && tab[i].key == key && forall k :: 0 <= k < i ==> tab[k].key != key
    ensures Index(tab, key) == i
  {
  }

  lemma IndexAbsent<T>(tab: seq<Row<T>>, key: string)
    requires forall k :: 0 <= k < |tab| ==> tab[k].key != key
    ensures Index(tab, key) == |tab|
  {
  }

  /** What was bound first to an overlong key that is cut to q. */
  function FirstCut<T>(bs: seq<Row<T>>, cap: nat, q: string): Option<T>
    decreases |bs|
  {
    if bs == [] then None
    else
      var b, was := bs[|bs| - 1], FirstCut(bs[..|bs| - 1], cap, q);
      if was.Some? then was else if |b.key| > cap && Cut(b.key, cap) == q then Some(b.val) else None
  }

  lemma PutLookup<T>(tab: seq<Row<T>>, key: string, val: T, cap: nat, max: nat, q: string)
    requires Short(tab, cap) && Put(tab, key, val, cap, max).Some?
    ensures Lookup(Put(tab, key, val, cap, max).value, q) ==
            if key == q && |q| <= cap then Some(val)
            else if Lookup(tab, q).Some? then Lookup(tab, q)
            else if |key| > cap && Cut(key, cap) == q then Some(val)
            else None
  {
    hide Index;
    var t := Put(tab, key, val, cap, max).value;
    var i, j := Index(tab, q), Index(tab, key);
    if j < |tab| {
      if i < |tab| {
        IndexIs(t, q, i);
      } else {
        IndexAbsent(t, q);
      }
    } else if i < |tab| {
      IndexIs(t, q, i);
    } else if Cut(key, cap) == q {
      IndexIs(t, q, |tab|);
    } else {
      IndexAbsent(t, q);
    }
  }

  /** Some overlong key is cut to q. */
  predicate CutTo<T>(bs: seq<Row<T>>, cap: nat, q: string) {
    exists i :: 0 <= i < |bs| && |bs[i].key| > cap && Cut(bs[i].key, cap) == q
  }

  lemma {:induction false} FirstCutIs<T>(bs: seq<Row<T>>, cap: nat, q: string)
    ensures FirstCut(bs, cap, q).Some? <==> CutTo(bs, cap, q)
    decreases |bs|
  {
    if bs != [] {
      var cs := bs[..|bs| - 1];
      FirstCutIs(cs, cap, q);
      assert forall i :: 0 <= i < |cs| ==> cs[i] == bs[i];
      if CutTo(cs, cap, q) {
        var i :| 0 <= i < |cs| && |cs[i].key| > cap && Cut(cs[i].key, cap) == q;
        assert bs[i] == cs[i];
      }
    }
  }

  /** What any key reads back as: an overlong one is never found, one that was bound reads as it was
      last bound, and any other as the first overlong key that was cut to it. */
  lemma {:induction false} LookupIsLast<T>(bs: seq<Row<T>>, cap: nat, max: nat, q: string)
    requires PutAll([], bs, cap, max).Some?
    ensures var t := PutAll([], bs, cap, max).value;
            && Short(t, cap)
            && Lookup(t, q) == if |q| > cap then None
                               else if Last(bs, q).Some? then Last(bs, q)
                               else FirstCut(bs, cap, q)
    decreases |bs|
  {
    hide Lookup;
    if bs == [] {
      IndexAbsent<T>([], q);
      LookupNone<T>(q);
    } else {
      var b := bs[|bs| - 1];
      LookupIsLast(bs[..|bs| - 1], cap, max, q);
      var t := PutAll([], bs[..|bs| - 1], cap, max).value;
      PutShort(t, b.key, b.val, cap, max);
      PutLookup(t, b.key, b.val, cap, max, q);
      hide Put;
    }
  }

  lemma PutShort<T>(tab: seq<Row<T>>, key: string, val: T, cap: nat, max: nat)
    requires Short(tab, cap) && Put(tab, key, val, cap, max).Some?
    ensures Short(Put(tab, key, val, cap, max).value, cap)
  {
    hide Index;
  }

  lemma LookupNone<T>(q: string)
    ensures Lookup<T>([], q) == None
  {
  }

  // ---------------------------------------------------------------- which keys are stored

  function Stored<T>(tab: seq<Row<T>>): set<string> {
    set k | 0 <= k < |tab| :: tab[k].key
  }

  function Cuts<T>(bs: seq<Row<T>>, cap: nat): set<string> {
    set i | 0 <= i < |bs| :: Cut(bs[i].key, cap)
  }

  lemma PutStored<T(!new)>(tab: seq<Row<T>>, key: string, val: T, cap: nat, max: nat)
    requires Short(tab, cap) && Put(tab, key, val, cap, max).Some?
    ensures var t := Put(tab, key, val, cap, max).value;
            && Short(t, cap) && Stored(t) == Stored(tab) + {Cut(key, cap)}
            && (Distinct(t) <==> Distinct(tab) && (|key| > cap ==> Cut(key, cap) !in Stored(tab)))
            && |t| == |tab| + (if key in Stored(tab) then 0 else 1)
  {
    hide Index;
    var t := Put(tab, key, val, cap, max).value;
    var i := Index(tab, key);
    if i < |tab| {
      assert forall k :: 0 <= k < |tab| ==> t[k].key == tab[k].key;
      assert Stored(t) == Stored(tab);
    } else {
      assert forall k :: 0 <= k < |tab| ==> t[k] == tab[k];
      assert t[|tab|].key == Cut(key, cap);
      assert Stored(t) == Stored(tab) + {Cut(key, cap)};
    }
  }

  lemma CutsNext<T>(bs: seq<Row<T>>, cap: nat)
    requires bs != []
    ensures Cuts(bs, cap) == Cuts(bs[..|bs| - 1], cap) + {Cut(bs[|bs| - 1].key, cap)}
  {
    var cs := bs[..|bs| - 1];
    assert forall i :: 0 <= i < |cs| ==> cs[i] == bs[i];
  }

  /** The stored keys are the bound keys, cut; they are pairwise distinct exactly when no overlong
      key is cut to the characters of a key bound before it. */
  lemma {:induction false} DistinctExactly<T(!new)>(bs: seq<Row<T>>, cap: nat, max: nat)
    requires PutAll([], bs, cap, max).Some?
    ensures var t := PutAll([], bs, cap, max).value;
            Short(t, cap) && Stored(t) == Cuts(bs, cap) && (Distinct(t) <==> CutApart(bs, cap))
    decreases |bs|
  {
    hide Put;
    hide Stored;
    hide Cuts;
    hide Distinct;
    hide CutApart;
    if bs == [] {
      NothingStored<T>(cap);
      ApartNone(bs, cap);
    } else {
      var b, cs := bs[|bs| - 1], bs[..|bs| - 1];
      DistinctExactly(cs, cap, max);
      PutStored(PutAll([], cs, cap, max).value, b.key, b.val, cap, max);
      CutsNext(bs, cap);
      ApartNext(bs, cap);
    }
  }

  lemma NothingStored<T(!new)>(cap: nat)
    ensures Stored<T>([]) == {} == Cuts<T>([], cap) && Distinct<T>([])
  {
  }

  lemma ApartNone<T(!new)>(bs: seq<Row<T>>, cap: nat)
    requires bs == []
    ensures CutApart(bs, cap)
  {
  }

  lemma ApartNext<T(!new)>(bs: seq<Row<T>>, cap: nat)
    requires bs != []
    ensures var b, cs := bs[|bs| - 1], bs[..|bs| - 1];
            CutApart(bs, cap) <==> CutApart(cs, cap) && (|b.key| > cap ==> Cut(b.key, cap) !in Cuts(cs, cap))
  {
    var b, cs := bs[|bs| - 1], bs[..|bs| - 1];
    assert forall i :: 0 <= i < |cs| ==> cs[i] == bs[i];
    if CutApart(bs, cap) && |b.key| > cap {
      forall i | 0 <= i < |cs|
        ensures Cut(cs[i].key, cap) != Cut(b.key, cap)
      {
        assert Cut(bs[i].key, cap) != Cut(bs[|bs| - 1].key, cap);
      }
    }
  }

  /** An overlong key bound twice takes two rows with the same stored characters. */
  lemma OverlongTwice<T(!new)>(key: string, v: T, w: T, cap: nat, max: nat)
    requires |key| > cap && PutAll([], [Row(key, v), Row(key, w)], cap, max).Some?
    ensures !Distinct(PutAll([], [Row(key, v), Row(key, w)], cap, max).value)
  {
    hide PutAll;
    var bs := [Row(key, v), Row(key, w)];
    DistinctExactly(bs, cap, max);
    assert bs[0].key == key && bs[1].key == key;
  }

  /** When no key is overlong, the table fails exactly when there are more keys than rows. */
  lemma {:induction false} FullExactly<T(!new)>(bs: seq<Row<T>>, cap: nat, max: nat)
    requires Short(bs, cap)
    ensures PutAll([], bs, cap, max) == None <==> |Cuts(bs, cap)| > max
    ensures PutAll([], bs, cap, max).Some? ==> |PutAll([], bs, cap, max).value| == |Cuts(bs, cap)|
    decreases |bs|
  {
    hide Stored;
    hide Cuts;
    if bs == [] {
      NothingStored<T>(cap);
    } else {
      var b, cs := bs[|bs| - 1], bs[..|bs| - 1];
      assert Short(cs, cap);
      FullExactly(cs, cap, max);
      CutsNext(bs, cap);
      if Cut(b.key, cap) in Cuts(cs, cap) {
        assert Cuts(bs, cap) == Cuts(cs, cap);
      }
      if PutAll([], cs, cap, max).Some? {
        var t := PutAll([], cs, cap, max).value;
        DistinctExactly(cs, cap, max);
        PutWhen(t, b.key, b.val, cap, max);
        hide Put;
        if Put(t, b.key, b.val, cap, max).Some? {
          PutStored(t, b.key, b.val, cap, max);
        }
      }
    }
  }

  lemma PutWhen<T>(t: seq<Row<T>>, key: string, val: T, cap: nat, max: nat)
    ensures Put(t, key, val, cap, max) == None <==> key !in Stored(t) && |t| >= max
  {
    hide Index;
    if key in Stored(t) {
      var k :| 0 <= k < |t| && t[k].key == key;
    }
    var i := Index(t, key);
    if i < |t| {
      assert t[i].key in Stored(t);
    }
  }

  // ---------------------------------------------------------------- the chain

  /** A log row: an environment and the one it inherits from, 0 or less for none. */
  datatype Entry = Entry(id: int, inheritFrom: int)

  const CHAIN_MAX: nat := 64

  function Parent(es: seq<Entry>, id: int): int {
    if es == [] then -1 else if es[0].id == id then es[0].inheritFrom else Parent(es[1..], id)
  }

  /** The parent is what the first row of the record says; one without a row has none. */
  lemma {:induction false} ParentIs(es: seq<Entry>, id: int, i: nat)
    requires i <= |es| && (forall k :: 0 <= k < i ==> es[k].id != id) && (i < |es| ==> es[i].id == id)
    ensures Parent(es, id) == if i < |es| then es[i].inheritFrom else -1
    decreases i
  {
    if i > 0 {
      ParentIs(es[1..], id, i - 1);
    }
  }

  /** The k-th ancestor. */
  function Ancestor(es: seq<Entry>, id: int, k: nat): int {
    if k == 0 then id else Parent(es, Ancestor(es, id, k - 1))
  }

  /** The collection loop of tpb_rtenv_merge_chain once the last element has been added: the chain,
      leaf first, or None on a cycle. The last element itself is not compared. */
  function Climb(es: seq<Entry>, chain: seq<int>): (r: Option<seq<int>>)
    requires 0 < |chain| <= CHAIN_MAX
    decreases CHAIN_MAX - |chain|
  {
    var p := Parent(es, chain[|chain| - 1]);
    if p <= 0 then Some(chain)
    else if p in chain[..|chain| - 1] then None
    else if |chain| == CHAIN_MAX then Some(chain)
    else Climb(es, chain + [p])
  }

  /** The chain is the line of ancestors, all with positive IDs but the leaf. */
  ghost predicate Line(es: seq<Entry>, id: int, chain: seq<int>) {
    && |chain| > 0
    && (forall k :: 0 <= k < |chain| ==> chain[k] == Ancestor(es, id, k))
    && (forall k :: 0 < k < |chain| ==> chain[k] > 0)
  }

  ghost predicate AllDifferent(chain: seq<int>) {
    forall i, k :: 0 <= i < k < |chain| ==> chain[i] != chain[k]
  }

  /** No repetition, but for the last element, which may repeat the one before. */
  ghost predicate Fresh(chain: seq<int>) {
    forall i, k :: 0 <= i < k < |chain| && chain[i] == chain[k] ==> k == |chain| - 1 && i == k - 1
  }

  /** A record repeats an ancestor other than its own child: the d-th ancestor, within the bound. */
  ghost predicate ClosesAt(es: seq<Entry>, id: int, d: nat) {
    && d <= 64
    && (forall k :: 1 <= k <= d ==> Ancestor(es, id, k) > 0)
    && exists j :: 0 <= j < d - 1 && Ancestor(es, id, j) == Ancestor(es, id, d)
  }

  ghost predicate Cyclic(es: seq<Entry>, id: int) {
    exists d: nat :: ClosesAt(es, id, d)
  }

  lemma {:induction false} ClimbIs(es: seq<Entry>, id: int, chain: seq<int>)
    requires Line(es, id, chain) && Fresh(chain) && |chain| <= CHAIN_MAX
    requires forall d: nat :: d < |chain| ==> !ClosesAt(es, id, d)
    ensures Climb(es, chain) == None <==> Cyclic(es, id)
    ensures var r := Climb(es, chain);
            r.Some? ==> Line(es, id, r.value) && AllDifferent(r.value) && |r.value| <= CHAIN_MAX
                        && (|r.value| == CHAIN_MAX || Parent(es, r.value[|r.value| - 1]) <= 0)
    decreases CHAIN_MAX - |chain|
  {
    var n := |chain|;
    assert n > 0;
    hide Line;
    hide Fresh;
    hide AllDifferent;
    hide Parent;
    hide Ancestor;
    hide ClosesAt;
    var p := Parent(es, chain[n - 1]);
    LineNext(es, id, chain);
    ClosesHere(es, id, chain);
    if p <= 0 {
      NoneAfter(es, id, n);
      SelfLast(es, id, chain);
    } else if p in chain[..n - 1] {
    } else if n == CHAIN_MAX {
      forall d: nat
        ensures !ClosesAt(es, id, d)
      {
        if d > CHAIN_MAX {
          BoundedClose(es, id, d);
        }
      }
      SelfLast(es, id, chain);
    } else {
      FreshNext(es, id, chain);
      ClimbIs(es, id, chain + [p]);
    }
  }

  lemma LineNext(es: seq<Entry>, id: int, chain: seq<int>)
    requires Line(es, id, chain)
    ensures Parent(es, chain[|chain| - 1]) == Ancestor(es, id, |chain|)
    ensures Ancestor(es, id, |chain|) > 0 ==> Line(es, id, chain + [Ancestor(es, id, |chain|)])
  {
    hide Parent;
  }

  lemma FreshNext(es: seq<Entry>, id: int, chain: seq<int>)
    requires Line(es, id, chain) && Fresh(chain) && Ancestor(es, id, |chain|) > 0
    requires Ancestor(es, id, |chain|) !in chain[..|chain| - 1]
    ensures Fresh(chain + [Ancestor(es, id, |chain|)])
  {
    LineNext(es, id, chain);
    SelfLast(es, id, chain);
    var c, p := chain[..|chain| - 1], Ancestor(es, id, |chain|);
    assert forall i :: 0 <= i < |c| ==> c[i] == chain[i] && c[i] != p;
  }

  lemma NoneAfter(es: seq<Entry>, id: int, n: nat)
    requires n > 0 && Ancestor(es, id, n) <= 0 && forall d: nat :: d < n ==> !ClosesAt(es, id, d)
    ensures !Cyclic(es, id)
  {
    hide Ancestor;
  }

  lemma BoundedClose(es: seq<Entry>, id: int, d: nat)
    requires d > CHAIN_MAX
    ensures !ClosesAt(es, id, d)
  {
  }

  lemma ClosesHere(es: seq<Entry>, id: int, chain: seq<int>)
    requires Line(es, id, chain) && |chain| <= CHAIN_MAX
    ensures var p := Ancestor(es, id, |chain|);
            ClosesAt(es, id, |chain|) <==> p > 0 && p in chain[..|chain| - 1]
  {
    var n, p := |chain|, Ancestor(es, id, |chain|);
    if p in chain[..n - 1] {
      var j :| 0 <= j < n - 1 && chain[..n - 1][j] == p;
      assert Ancestor(es, id, j) == p;
    }
    if ClosesAt(es, id, n) {
      var j :| 0 <= j < n - 1 && Ancestor(es, id, j) == Ancestor(es, id, n);
      assert chain[..n - 1][j] == p;
    }
    if p > 0 && p in chain[..n - 1] {
      forall k | 1 <= k <= n
        ensures Ancestor(es, id, k) > 0
      {
        if k < n {
          assert chain[k] == Ancestor(es, id, k);
        }
      }
    }
  }

  /** A repeated last element is its own parent, and so is caught at once. */
  lemma SelfLast(es: seq<Entry>, id: int, chain: seq<int>)
    requires Line(es, id, chain) && Fresh(chain)
    requires var p := Ancestor(es, id, |chain|); p <= 0 || p !in chain[..|chain| - 1]
    ensures AllDifferent(chain)
  {
    hide Parent;
    var n, c := |chain|, chain[..|chain| - 1];
    assert forall i :: 0 <= i < n - 1 ==> c[i] == chain[i];
    assert n >= 2 ==> chain[n - 2] in c;
    if n >= 2 {
      LineNext(es, id, c);
      assert Ancestor(es, id, n - 1) == Parent(es, chain[n - 2]);
      assert Ancestor(es, id, n) == Parent(es, chain[n - 1]);
    }
  }

  /** Collection rejects exactly the lines in which, within the bound, an ancestor repeats a record
      other than its own child; otherwise it yields the line of ancestors, all different, up to the
      root or to 64 records. */
  lemma ChainExactly(es: seq<Entry>, id: int)
    ensures Climb(es, [id]) == None <==> Cyclic(es, id)
    ensures var r := Climb(es, [id]);
            r.Some? ==> Line(es, id, r.value) && AllDifferent(r.value) && |r.value| <= 64
                        && (|r.value| == 64 || Parent(es, r.value[|r.value| - 1]) <= 0)
  {
    ClimbIs(es, id, [id]);
  }

  /** A record that is its own parent, before the 64th, makes the line cyclic too. */
  lemma SelfParentCaught(es: seq<Entry>, id: int, d: nat)
    requires 0 < d < CHAIN_MAX && Ancestor(es, id, d) == Ancestor(es, id, d - 1)
    requires forall k :: 1 <= k <= d ==> Ancestor(es, id, k) > 0
    ensures Climb(es, [id]) == None
  {
    assert Ancestor(es, id, d + 1) == Ancestor(es, id, d);
    assert ClosesAt(es, id, d + 1);
    ChainExactly(es, id);
  }

  /** One that is the 64th is not: the chain is cut there, and the merge goes on. */
  lemma SelfParentAtEnd(es: seq<Entry>, id: int)
    requires Ancestor(es, id, CHAIN_MAX) == Ancestor(es, id, CHAIN_MAX - 1)
    requires forall i, k :: 0 <= i < k < CHAIN_MAX ==> Ancestor(es, id, i) != Ancestor(es, id, k)
    ensures Climb(es, [id]).Some?
  {
    ChainExactly(es, id);
    hide Ancestor;
    hide Climb;
    forall d: nat, j: nat | d <= CHAIN_MAX && j + 1 < d
      ensures Ancestor(es, id, j) != Ancestor(es, id, d)
    {
      var k := if d == CHAIN_MAX then d - 1 else d;
      assert Ancestor(es, id, k) == Ancestor(es, id, d);
    }
  }

  // ---------------------------------------------------------------- records and their bindings

  datatype Var = Var(value: string, onSet: int, onGet: int)

  datatype App = App(version: string, note: string)

  /** A header as the merge sees it, with the text or the word at its payload block. */
  datatype Hdr =
    | KeyHdr(idx: int, text: string)
    | ValueHdr(idx: int, text: string)
    | OnSetHdr(idx: int, size: nat, word: int)
    | OnGetHdr(idx: int, size: nat, word: int)
    | OtherHdr

  /** The application triples of a record, and its headers. */
  datatype Rec = Rec(apps: seq<Row<App>>, hdrs: seq<Hdr>)

  datatype Merged = Merged(apps: seq<Row<App>>, vars: seq<Row<Var>>)

  const APP_CAP: nat := 63
  const APP_MAX: nat := 32
  const KEY_CAP: nat := 255
  const VAR_MAX: nat := 512
  const VALUE_CAP: nat := 4095

  /** What the headers with an index say: the last of each kind, and short words are passed over. */
  function Declared(hdrs: seq<Hdr>, idx: int): Var {
    if hdrs == [] then Var("", 0, 0)
    else
      var v := Declared(hdrs[..|hdrs| - 1], idx);
      match hdrs[|hdrs| - 1]
      case ValueHdr(k, text) => if k == idx then v.(value := text) else v
      case OnSetHdr(k, size, word) => if k == idx && size >= 4 then v.(onSet := word) else v
      case OnGetHdr(k, size, word) => if k == idx && size >= 4 then v.(onGet := word) else v
      case _ => v
  }

  /** As it is kept in the table. */
  function Kept(v: Var): Var {
    v.(value := Cut(v.value, VALUE_CAP))
  }

  function KeptApp(a: App): App {
    App(Cut(a.version, APP_CAP), Cut(a.note, APP_CAP))
  }

  /** The bindings of a record, in header order, for the first n headers. */
  function Bindings(r: Rec, n: nat): seq<Row<Var>>
    requires n <= |r.hdrs|
  {
    if n == 0 then []
    else
      Bindings(r, n - 1) +
      (if r.hdrs[n - 1].KeyHdr? then [Row(r.hdrs[n - 1].text, Kept(Declared(r.hdrs, r.hdrs[n - 1].idx)))] else [])
  }

  function Vars(r: Rec): seq<Row<Var>> {
    Bindings(r, |r.hdrs|)
  }

  function Apps(r: Rec): (bs: seq<Row<App>>)
    ensures |bs| == |r.apps|
  {
    seq(|r.apps|, i requires 0 <= i < |r.apps| => Row(r.apps[i].key, KeptApp(r.apps[i].val)))
  }

  /** One record's delta on the table. */
  function MergeOne(m: Merged, r: Rec): Option<Merged> {
    match PutAll(m.apps, Apps(r), APP_CAP, APP_MAX)
    case None => None
    case Some(apps) =>
      match PutAll(m.vars, Vars(r), KEY_CAP, VAR_MAX)
      case None => None
      case Some(vars) => Some(Merged(apps, vars))
  }

  /** The records by ID; None where the record cannot be read. */
  type Store = map<int, Rec>

  /** The chain merged from its end, down to index i. */
  function MergeDown(store: Store, chain: seq<int>, i: nat): Option<Merged>
    requires i <= |chain|
    decreases |chain| - i
  {
    if i == |chain| then Some(Merged([], []))
    else
      match MergeDown(store, chain, i + 1)
      case None => None
      case Some(m) => if chain[i] in store then MergeOne(m, store[chain[i]]) else None
  }

  /** Everything the chain's records bind, from its end down to index i. */
  function AllBound(store: Store, chain: seq<int>, i: nat): seq<Row<Var>>
    requires i <= |chain|
    decreases |chain| - i
  {
    if i == |chain| then []
    else AllBound(store, chain, i + 1) + (if chain[i] in store then Vars(store[chain[i]]) else [])
  }

  /** The binding of the nearest record from index i on that declares the key. */
  function Nearest(store: Store, chain: seq<int>, i: nat, q: string): Option<Var>
    requires i <= |chain|
    decreases |chain| - i
  {
    if i == |chain| then None
    else if chain[i] in store && Last(Vars(store[chain[i]]), q).Some? then Last(Vars(store[chain[i]]), q)
    else Nearest(store, chain, i + 1, q)
  }

  lemma {:induction false} PutAllAppend<T>(tab: seq<Row<T>>, bs: seq<Row<T>>, cs: seq<Row<T>>, cap: nat, max: nat)
    ensures PutAll(tab, bs + cs, cap, max) ==
            match PutAll(tab, bs, cap, max) { case None => None case Some(t) => PutAll(t, cs, cap, max) }
    decreases |cs|
  {
    hide Put;
    if cs == [] {
      assert bs + cs == bs;
    } else {
      PutAllAppend(tab, bs, cs[..|cs| - 1], cap, max);
      assert (bs + cs)[..|bs + cs| - 1] == bs + cs[..|cs| - 1];
    }
  }

  lemma {:induction false} LastAppend<T>(bs: seq<Row<T>>, cs: seq<Row<T>>, q: string)
    ensures Last(bs + cs, q) == if Last(cs, q).Some? then Last(cs, q) else Last(bs, q)
    decreases |cs|
  {
    if cs == [] {
      assert bs + cs == bs;
    } else {
      LastAppend(bs, cs[..|cs| - 1], q);
      assert (bs + cs)[..|bs + cs| - 1] == bs + cs[..|cs| - 1];
    }
  }

  lemma {:induction false} MergedIsAll(store: Store, chain: seq<int>, i: nat)
    requires i <= |chain| && MergeDown(store, chain, i).Some?
    ensures PutAll([], AllBound(store, chain, i), KEY_CAP, VAR_MAX) == Some(MergeDown(store, chain, i).value.vars)
    decreases |chain| - i
  {
    hide Vars;
    hide Apps;
    if i < |chain| {
      MergedIsAll(store, chain, i + 1);
      PutAllAppend([], AllBound(store, chain, i + 1), Vars(store[chain[i]]), KEY_CAP, VAR_MAX);
    }
  }

  lemma {:induction false} NearestIsLast(store: Store, chain: seq<int>, i: nat, q: string)
    requires i <= |chain|
    ensures Last(AllBound(store, chain, i), q) == Nearest(store, chain, i, q)
    decreases |chain| - i
  {
    hide Vars;
    if i < |chain| {
      NearestIsLast(store, chain, i + 1, q);
      if chain[i] in store {
        LastAppend(AllBound(store, chain, i + 1), Vars(store[chain[i]]), q);
      } else {
        assert AllBound(store, chain, i + 1) + [] == AllBound(store, chain, i + 1);
      }
    }
  }

  /** After a merge along a chain every key reads as the binding of the nearest self-or-ancestor that
      declares it, exactly when this holds: a key that is declared is not overlong, and to one that is
      not declared no overlong key is cut. */
  lemma NearestWins(store: Store, chain: seq<int>, q: string)
    requires MergeDown(store, chain, 0).Some?
    ensures Lookup(MergeDown(store, chain, 0).value.vars, q) == Nearest(store, chain, 0, q)
            <==> if Nearest(store, chain, 0, q).Some? then |q| <= 255
                 else !CutTo(AllBound(store, chain, 0), 255, q)
  {
    MergedIsAll(store, chain, 0);
    NearestIsLast(store, chain, 0, q);
    LookupIsLast(AllBound(store, chain, 0), KEY_CAP, VAR_MAX, q);
    FirstCutIs(AllBound(store, chain, 0), KEY_CAP, q);
  }

  /** The merged keys are pairwise distinct exactly when no overlong key was cut to another's characters. */
  lemma MergedDistinct(store: Store, chain: seq<int>)
    requires MergeDown(store, chain, 0).Some?
    ensures Distinct(MergeDown(store, chain, 0).value.vars) <==> CutApart(AllBound(store, chain, 0), 255)
  {
    hide MergeDown;
    MergedIsAll(store, chain, 0);
    DistinctExactly(AllBound(store, chain, 0), KEY_CAP, VAR_MAX);
  }

  // ---------------------------------------------------------------- what a key is bound to

  /** The texts of the value headers with the index, in order. */
  function Texts(hdrs: seq<Hdr>, idx: int): seq<string> {
    if hdrs == [] then []
    else
      var h := hdrs[|hdrs| - 1];
      Texts(hdrs[..|hdrs| - 1], idx) + (if h.ValueHdr? && h.idx == idx then [h.text] else [])
  }

  /** The words of its on-set headers that hold four bytes at least, and of its on-get headers. */
  function OnSets(hdrs: seq<Hdr>, idx: int): seq<int> {
    if hdrs == [] then []
    else
      var h := hdrs[|hdrs| - 1];
      OnSets(hdrs[..|hdrs| - 1], idx) + (if h.OnSetHdr? && h.idx == idx && h.size >= 4 then [h.word] else [])
  }

  function OnGets(hdrs: seq<Hdr>, idx: int): seq<int> {
    if hdrs == [] then []
    else
      var h := hdrs[|hdrs| - 1];
      OnGets(hdrs[..|hdrs| - 1], idx) + (if h.OnGetHdr? && h.idx == idx && h.size >= 4 then [h.word] else [])
  }

  function LastOr<T>(xs: seq<T>, none: T): T {
    if xs == [] then none else xs[|xs| - 1]
  }

  /** What is declared under an index: the last of each kind, where there is one. */
  lemma {:induction false} DeclaredIs(hdrs: seq<Hdr>, idx: int)
    ensures Declared(hdrs, idx)
            == Var(LastOr(Texts(hdrs, idx), ""), LastOr(OnSets(hdrs, idx), 0), LastOr(OnGets(hdrs, idx), 0))
    decreases |hdrs|
  {
    if hdrs != [] {
      DeclaredIs(hdrs[..|hdrs| - 1], idx);
    }
  }

  /** A record binds a key, by its last key header j of that text, to what is declared under the index of that
      header, the value cut to 4095 characters; */
  lemma {:induction false} BoundIs(r: Rec, n: nat, j: nat, q: string)
    requires j < n <= |r.hdrs| && r.hdrs[j].KeyHdr? && r.hdrs[j].text == q
    requires forall k :: j < k < n && r.hdrs[k].KeyHdr? ==> r.hdrs[k].text != q
    ensures var idx := r.hdrs[j].idx;
            Last(Bindings(r, n), q)
            == Some(Var(Cut(LastOr(Texts(r.hdrs, idx), ""), 4095), LastOr(OnSets(r.hdrs, idx), 0),
                        LastOr(OnGets(r.hdrs, idx), 0)))
    decreases n
  {
    hide Texts;
    hide OnSets;
    hide OnGets;
    hide LastOr;
    hide Declared;
    var h := r.hdrs[n - 1];
    if j < n - 1 {
      BoundIs(r, n - 1, j, q);
    } else {
      DeclaredIs(r.hdrs, h.idx);
    }
    if h.KeyHdr? {
      BindingsNext(r, n - 1);
    } else {
      DeltaSkips(r, n - 1);
    }
  }

  /** and no key that none of its key headers names. */
  lemma {:induction false} BoundNot(r: Rec, n: nat, q: string)
    requires n <= |r.hdrs| && forall k :: 0 <= k < n && r.hdrs[k].KeyHdr? ==> r.hdrs[k].text != q
    ensures Last(Bindings(r, n), q) == None
    decreases n
  {
    hide Declared;
    if n > 0 {
      BoundNot(r, n - 1, q);
      if r.hdrs[n - 1].KeyHdr? {
        BindingsNext(r, n - 1);
      } else {
        DeltaSkips(r, n - 1);
      }
    }
  }

  // ---------------------------------------------------------------- the applications

  /** Everything the chain's records list, from its end down to index i, as they list it. */
  function AllListed(store: Store, chain: seq<int>, i: nat): seq<Row<App>>
    requires i <= |chain|
    decreases |chain| - i
  {
    if i == |chain| then []
    else AllListed(store, chain, i + 1) + (if chain[i] in store then store[chain[i]].apps else [])
  }

  /** What the nearest record from index i on lists under the name, and last. */
  function NearestApp(store: Store, chain: seq<int>, i: nat, name: string): Option<App>
    requires i <= |chain|
    decreases |chain| - i
  {
    if i == |chain| then None
    else if chain[i] in store && Last(store[chain[i]].apps, name).Some? then Last(store[chain[i]].apps, name)
    else NearestApp(store, chain, i + 1, name)
  }

  /** Applications as the table keeps them. */
  function KeptApps(bs: seq<Row<App>>): (r: seq<Row<App>>)
    ensures |r| == |bs|
    ensures forall k :: 0 <= k < |bs| ==>
              r[k] == Row(bs[k].key, App(Cut(bs[k].val.version, 63), Cut(bs[k].val.note, 63)))
  {
    seq(|bs|, k requires 0 <= k < |bs| => Row(bs[k].key, App(Cut(bs[k].val.version, 63), Cut(bs[k].val.note, 63))))
  }

  lemma AppsKept(xs: seq<Row<App>>, r: Rec)
    ensures KeptApps(xs + r.apps) == KeptApps(xs) + Apps(r) && KeptApps([]) == []
  {
  }

  /** One record merged onto what was there. */
  lemma DownNext(store: Store, chain: seq<int>, i: nat)
    requires i < |chain|
    ensures MergeDown(store, chain, i).Some? ==> MergeDown(store, chain, i + 1).Some? && chain[i] in store
    ensures MergeDown(store, chain, i + 1).Some? && chain[i] in store ==>
              var m, r := MergeDown(store, chain, i + 1).value, store[chain[i]];
              var apps, vars := PutAll(m.apps, Apps(r), 63, 32), PutAll(m.vars, Vars(r), 255, 512);
              MergeDown(store, chain, i)
              == if apps.Some? && vars.Some? then Some(Merged(apps.value, vars.value)) else None
  {
    hide Vars;
    hide Apps;
    hide PutAll;
  }

  lemma {:induction false} MergedApps(store: Store, chain: seq<int>, i: nat)
    requires i <= |chain| && MergeDown(store, chain, i).Some?
    ensures PutAll([], KeptApps(AllListed(store, chain, i)), 63, 32) == Some(MergeDown(store, chain, i).value.apps)
    decreases |chain| - i
  {
    if i < |chain| {
      var xs := AllListed(store, chain, i + 1);
      assert chain[i] in store ==> AllListed(store, chain, i) == xs + store[chain[i]].apps;
      hide *;
      DownNext(store, chain, i);
      MergedApps(store, chain, i + 1);
      AppsKept(xs, store[chain[i]]);
      PutAllAppend([], KeptApps(xs), Apps(store[chain[i]]), 63, 32);
    } else {
      AppsKept([], Rec([], []));
    }
  }

  lemma {:induction false} NearestAppIsLast(store: Store, chain: seq<int>, i: nat, name: string)
    requires i <= |chain|
    ensures Last(AllListed(store, chain, i), name) == NearestApp(store, chain, i, name)
    decreases |chain| - i
  {
    if i < |chain| {
      NearestAppIsLast(store, chain, i + 1, name);
      if chain[i] in store {
        LastAppend(AllListed(store, chain, i + 1), store[chain[i]].apps, name);
      } else {
        assert AllListed(store, chain, i + 1) + [] == AllListed(store, chain, i + 1);
      }
    }
  }

  lemma {:induction false} LastKept(bs: seq<Row<App>>, name: string)
    ensures Last(KeptApps(bs), name) == match Last(bs, name)
                                        case None => None
                                        case Some(a) => Some(App(Cut(a.version, 63), Cut(a.note, 63)))
    decreases |bs|
  {
    if bs != [] {
      LastKept(bs[..|bs| - 1], name);
      assert KeptApps(bs)[..|bs| - 1] == KeptApps(bs[..|bs| - 1]);
    }
  }

  lemma KeptCuts(bs: seq<Row<App>>, name: string)
    ensures CutTo(KeptApps(bs), 63, name) <==> CutTo(bs, 63, name)
    ensures CutApart(KeptApps(bs), 63) <==> CutApart(bs, 63)
  {
    var ks := KeptApps(bs);
    assert forall k :: 0 <= k < |bs| ==> ks[k].key == bs[k].key;
  }

  /** The same for the applications: a name reads as the version and note of the nearest record that lists it,
      each cut to 63 characters, exactly when it is not overlong, or, not being listed, no overlong name is
      cut to it. */
  lemma NearestAppWins(store: Store, chain: seq<int>, name: string)
    requires MergeDown(store, chain, 0).Some?
    ensures var was := NearestApp(store, chain, 0, name);
            Lookup(MergeDown(store, chain, 0).value.apps, name)
            == (match was case None => None case Some(a) => Some(App(Cut(a.version, 63), Cut(a.note, 63))))
            <==> if was.Some? then |name| <= 63 else !CutTo(AllListed(store, chain, 0), 63, name)
  {
    var bs := AllListed(store, chain, 0);
    MergedApps(store, chain, 0);
    NearestAppIsLast(store, chain, 0, name);
    LastKept(bs, name);
    LookupIsLast(KeptApps(bs), 63, 32, name);
    FirstCutIs(KeptApps(bs), 63, name);
    KeptCuts(bs, name);
  }

  /** The names of the merged applications are pairwise distinct exactly when no overlong name was cut to
      another's characters. */
  lemma MergedAppsDistinct(store: Store, chain: seq<int>)
    requires MergeDown(store, chain, 0).Some?
    ensures Distinct(MergeDown(store, chain, 0).value.apps) <==> CutApart(AllListed(store, chain, 0), 63)
  {
    hide MergeDown;
    MergedApps(store, chain, 0);
    DistinctExactly(KeptApps(AllListed(store, chain, 0)), 63, 32);
    KeptCuts(AllListed(store, chain, 0), "");
  }

  /** The chain's records from index i on can be read. */
  predicate AllStored(store: Store, chain: seq<int>, i: nat) {
    forall k :: i <= k < |chain| ==> chain[k] in store
  }

  lemma StoredNext(store: Store, chain: seq<int>, i: nat)
    requires i < |chain|
    ensures AllStored(store, chain, i) <==> chain[i] in store && AllStored(store, chain, i + 1)
  {
  }

  lemma MergedEnd(store: Store, chain: seq<int>, i: nat)
    requires i == |chain|
    ensures MergeDown(store, chain, i).Some? && AllStored(store, chain, i)
    ensures PutAll([], KeptApps(AllListed(store, chain, i)), 63, 32) == Some([])
    ensures PutAll([], AllBound(store, chain, i), 255, 512) == Some([])
  {
    AppsKept([], Rec([], []));
  }

  /** A record's rows go behind those of its ancestors. */
  lemma RowsNext(store: Store, chain: seq<int>, i: nat)
    requires i < |chain| && chain[i] in store
    ensures KeptApps(AllListed(store, chain, i)) == KeptApps(AllListed(store, chain, i + 1)) + Apps(store[chain[i]])
    ensures AllBound(store, chain, i) == AllBound(store, chain, i + 1) + Vars(store[chain[i]])
  {
    AppsKept(AllListed(store, chain, i + 1), store[chain[i]]);
    hide KeptApps;
    hide Apps;
    hide Vars;
  }

  /** A merge along a chain succeeds exactly when every record can be read and both tables have room. */
  lemma {:induction false} MergedExactly(store: Store, chain: seq<int>, i: nat)
    requires i <= |chain|
    ensures MergeDown(store, chain, i).Some? <==>
            && AllStored(store, chain, i)
            && PutAll([], KeptApps(AllListed(store, chain, i)), 63, 32).Some?
            && PutAll([], AllBound(store, chain, i), 255, 512).Some?
    decreases |chain| - i
  {
    hide *;
    if i == |chain| {
      MergedEnd(store, chain, i);
    } else {
      DownNext(store, chain, i);
      StoredNext(store, chain, i);
      MergedExactly(store, chain, i + 1);
      if chain[i] in store {
        var r := store[chain[i]];
        var xs, vs := KeptApps(AllListed(store, chain, i + 1)), AllBound(store, chain, i + 1);
        RowsNext(store, chain, i);
        PutAllAppend([], xs, Apps(r), 63, 32);
        PutAllAppend([], vs, Vars(r), 255, 512);
        if MergeDown(store, chain, i + 1).Some? {
          MergedBoth(store, chain, i + 1);
        }
      }
    }
  }

  lemma MergedBoth(store: Store, chain: seq<int>, i: nat)
    requires i <= |chain| && MergeDown(store, chain, i).Some?
    ensures var m := MergeDown(store, chain, i).value;
            && PutAll([], KeptApps(AllListed(store, chain, i)), 63, 32) == Some(m.apps)
            && PutAll([], AllBound(store, chain, i), 255, 512) == Some(m.vars)
  {
    MergedApps(store, chain, i);
    MergedIsAll(store, chain, i);
    hide MergeDown;
    hide PutAll;
    hide AllListed;
    hide AllBound;
    hide KeptApps;
  }

  // ---------------------------------------------------------------- the code

  class Merger {
    var apps: seq<Row<App>>
    var vars: seq<Row<Var>>

    ghost function Value(): Merged
      reads this
    {
      Merged(apps, vars)
    }

    constructor ()
      ensures apps == [] && vars == []
    {
      apps := [];
      vars := [];
    }

    /** _sf_merge_add_app */
    method AddApp(name: string, app: App) returns (ok: bool)
      modifies this`apps
      ensures var r := Put(old(apps), name, KeptApp(app), APP_CAP, APP_MAX);
              if ok then r == Some(apps) else r == None && apps == old(apps)
    {
      var i := 0;
      while i < |apps|
        invariant i <= |apps| && forall k :: 0 <= k < i ==> apps[k].key != name
        modifies {}
      {
        if apps[i].key == name { break; }
        i := i + 1;
      }
      if i < |apps| {
        IndexIs(apps, name, i);
        apps := apps[i := Row(name, KeptApp(app))];
        return true;
      }
      IndexAbsent(apps, name);
      if |apps| >= APP_MAX { return false; }
      apps := apps + [Row(Cut(name, APP_CAP), KeptApp(app))];
      return true;
    }

    /** _sf_merge_add_var */
    method AddVar(key: string, v: Var) returns (ok: bool)
      modifies this`vars
      ensures var r := Put(old(vars), key, Kept(v), KEY_CAP, VAR_MAX);
              if ok then r == Some(vars) else r == None && vars == old(vars)
    {
      var i := 0;
      while i < |vars|
        invariant i <= |vars| && forall k :: 0 <= k < i ==> vars[k].key != key
        modifies {}
      {
        if vars[i].key == key { break; }
        i := i + 1;
      }
      if i < |vars| {
        IndexIs(vars, key, i);
        vars := vars[i := Row(key, Kept(v))];
        return true;
      }
      IndexAbsent(vars, key);
      if |vars| >= VAR_MAX { return false; }
      vars := vars + [Row(Cut(key, KEY_CAP), Kept(v))];
      return true;
    }

    /** The inner header loop of _sf_merge_record_delta. */
    method Declaration(hdrs: seq<Hdr>, idx: int) returns (v: Var)
      ensures v == Declared(hdrs, idx)
    {
      var val, onSet, onGet := "", 0, 0;
      var j := 0;
      while j < |hdrs|
        invariant j <= |hdrs| && Var(val, onSet, onGet) == Declared(hdrs[..j], idx)
      {
        assert hdrs[..j + 1][..j] == hdrs[..j];
        match hdrs[j] {
          case ValueHdr(k, text) => if k == idx { val := text; }
          case OnSetHdr(k, size, word) => if k == idx && size >= 4 { onSet := word; }
          case OnGetHdr(k, size, word) => if k == idx && size >= 4 { onGet := word; }
          case _ =>
        }
        j := j + 1;
      }
      assert hdrs[..j] == hdrs;
      v := Var(val, onSet, onGet);
    }

    /** The application loop of _sf_merge_record_delta. */
    method DeltaApps(r: Rec) returns (ok: bool)
      modifies this`apps
      ensures var p := PutAll(old(apps), Apps(r), APP_CAP, APP_MAX); if ok then p == Some(apps) else p == None
    {
      hide Put;
      var a := 0;
      while a < |r.apps|
        invariant a <= |r.apps| && PutAll(old(apps), Apps(r)[..a], APP_CAP, APP_MAX) == Some(apps)
      {
        assert Apps(r)[..a + 1][..a] == Apps(r)[..a];
        var added := AddApp(r.apps[a].key, r.apps[a].val);
        if !added {
          StopsHere(old(apps), Apps(r), a + 1, APP_CAP, APP_MAX);
          return false;
        }
        a := a + 1;
      }
      assert Apps(r)[..a] == Apps(r);
      return true;
    }

    /** The key loop of _sf_merge_record_delta. */
    method DeltaVars(r: Rec) returns (ok: bool)
      modifies this`vars
      ensures var p := PutAll(old(vars), Vars(r), KEY_CAP, VAR_MAX); if ok then p == Some(vars) else p == None
    {
      DeltaStarts(old(vars), r);
      hide *;
      var i := 0;
      while i < |r.hdrs|
        invariant i <= |r.hdrs| && PutAll(old(vars), Bindings(r, i), KEY_CAP, VAR_MAX) == Some(vars)
      {
        if r.hdrs[i].KeyHdr? {
          var v := Declaration(r.hdrs, r.hdrs[i].idx);
          DeltaNext(old(vars), r, i);
          var added := AddVar(r.hdrs[i].text, v);
          if !added {
            DeltaStops(old(vars), r, i + 1);
            return false;
          }
        } else {
          DeltaSkips(r, i);
        }
        i := i + 1;
      }
      DeltaEnds(r);
      return true;
    }

    /** _sf_merge_record_delta for a record that could be read. */
    method Delta(r: Rec) returns (ok: bool)
      modifies this
      ensures var m := MergeOne(old(Value()), r); if ok then m == Some(Value()) else m == None
    {
      hide PutAll;
      hide Vars;
      hide Apps;
      ok := DeltaApps(r);
      if ok {
        ok := DeltaVars(r);
      }
    }

    /** tpb_rtenv_merge_chain: collect the chain into the array, then merge from its end. */
    method MergeChain(es: seq<Entry>, store: Store, target: int) returns (ok: bool)
      requires apps == [] && vars == []
      modifies this
      ensures var c := Climb(es, [target]);
              if ok then c.Some? && MergeDown(store, c.value, 0) == Some(Value())
              else c == None || MergeDown(store, c.value, 0) == None
    {
      hide Climb;
      hide MergeOne;
      var chain := new int[CHAIN_MAX];
      var collected, depth := Collect(es, target, chain);
      if !collected { return false; }
      ghost var c := chain[..depth];
      var i := 0;
      while i < depth
        invariant i <= depth && MergeDown(store, c, depth - i) == Some(Value())
        invariant chain[..depth] == c
        modifies this
      {
        var id := chain[depth - 1 - i];
        assert id == c[depth - 1 - i];
        if id !in store {
          StopsDown(store, c, depth - 1 - i);
          return false;
        }
        var merged := Delta(store[id]);
        if !merged {
          StopsDown(store, c, depth - 1 - i);
          return false;
        }
        i := i + 1;
      }
      return true;
    }
  }

  /** The collection loop of tpb_rtenv_merge_chain. */
  method Collect(es: seq<Entry>, target: int, chain: array<int>) returns (ok: bool, depth: nat)
    requires chain.Length == CHAIN_MAX
    modifies chain
    ensures if ok then depth <= CHAIN_MAX && Climb(es, [target]) == Some(chain[..depth])
            else Climb(es, [target]) == None
  {
    var cur := target;
    depth := 0;
    while depth < CHAIN_MAX
      invariant depth <= CHAIN_MAX
      invariant if depth == 0 then cur == target
                else if depth < CHAIN_MAX then Climb(es, [target]) == Climb(es, chain[..depth] + [cur])
                else Climb(es, [target]) == Some(chain[..depth])
    {
      hide Climb;
      hide Parent;
      ghost var had := chain[..depth];
      chain[depth] := cur;
      depth := depth + 1;
      assert chain[..depth] == had + [cur];
      ClimbStep(es, had, cur);
      assert depth == 1 ==> had + [cur] == [target];
      var parent := FindParent(es, cur);
      if parent <= 0 { return true, depth; }
      var found := Among(chain, depth - 1, parent);
      assert chain[..depth - 1] == had;
      if found { return false, depth; }
      cur := parent;
    }
    ok := true;
  }

  /** The inner loop: is the parent in the chain before its last element? */
  method Among(chain: array<int>, n: nat, parent: int) returns (found: bool)
    requires n <= chain.Length
    ensures found <==> parent in chain[..n]
  {
    var j := 0;
    while j < n
      invariant j <= n && parent !in chain[..j]
    {
      if chain[j] == parent {
        assert chain[..n][j] == parent;
        return true;
      }
      assert chain[..j + 1] == chain[..j] + [chain[j]];
      j := j + 1;
    }
    found := false;
  }

  /** One step of the climb. */
  lemma ClimbStep(es: seq<Entry>, had: seq<int>, cur: int)
    requires |had| < CHAIN_MAX
    ensures var c, p := had + [cur], Parent(es, cur);
            Climb(es, c) == if p <= 0 then Some(c) else if p in had then None
                            else if |c| == CHAIN_MAX then Some(c) else Climb(es, c + [p])
  {
    var c := had + [cur];
    assert c[|c| - 1] == cur && c[..|c| - 1] == had;
  }

  method FindParent(es: seq<Entry>, id: int) returns (parent: int)
    ensures parent == Parent(es, id)
  {
    parent := -1;
    var j := 0;
    while j < |es|
      invariant j <= |es| && parent == -1 && Parent(es, id) == Parent(es[j..], id)
    {
      if es[j].id == id {
        return es[j].inheritFrom;
      }
      j := j + 1;
    }
  }

  lemma DeltaStarts(tab: seq<Row<Var>>, r: Rec)
    ensures PutAll(tab, Bindings(r, 0), KEY_CAP, VAR_MAX) == Some(tab)
  {
  }

  lemma DeltaEnds(r: Rec)
    ensures Vars(r) == Bindings(r, |r.hdrs|)
  {
  }

  lemma DeltaSkips(r: Rec, i: nat)
    requires i < |r.hdrs| && !r.hdrs[i].KeyHdr?
    ensures Bindings(r, i + 1) == Bindings(r, i)
  {
    assert Bindings(r, i + 1) == Bindings(r, i) + [] == Bindings(r, i);
  }

  /** A key header puts its binding into the table made of the ones before it. */
  lemma DeltaNext(tab: seq<Row<Var>>, r: Rec, i: nat)
    requires i < |r.hdrs| && r.hdrs[i].KeyHdr?
    ensures PutAll(tab, Bindings(r, i + 1), KEY_CAP, VAR_MAX) ==
            match PutAll(tab, Bindings(r, i), KEY_CAP, VAR_MAX)
            case None => None
            case Some(t) => Put(t, r.hdrs[i].text, Kept(Declared(r.hdrs, r.hdrs[i].idx)), KEY_CAP, VAR_MAX)
  {
    hide *;
    BindingsNext(r, i);
    PutSnoc(tab, Bindings(r, i), Row(r.hdrs[i].text, Kept(Declared(r.hdrs, r.hdrs[i].idx))), KEY_CAP, VAR_MAX);
  }

  lemma DeltaStops(tab: seq<Row<Var>>, r: Rec, i: nat)
    requires i <= |r.hdrs| && PutAll(tab, Bindings(r, i), KEY_CAP, VAR_MAX) == None
    ensures PutAll(tab, Vars(r), KEY_CAP, VAR_MAX) == None
  {
    hide *;
    DeltaEnds(r);
    BindingsPrefix(r, i, |r.hdrs|);
    assert Vars(r)[..|Bindings(r, i)|] == Bindings(r, i);
    StopsHere(tab, Vars(r), |Bindings(r, i)|, KEY_CAP, VAR_MAX);
  }

  lemma BindingsNext(r: Rec, i: nat)
    requires i < |r.hdrs| && r.hdrs[i].KeyHdr?
    ensures var b := Row(r.hdrs[i].text, Kept(Declared(r.hdrs, r.hdrs[i].idx)));
            Bindings(r, i + 1) == Bindings(r, i) + [b] && Bindings(r, i + 1)[..|Bindings(r, i)|] == Bindings(r, i)
  {
    hide Declared;
  }

  lemma {:induction false} BindingsPrefix(r: Rec, i: nat, n: nat)
    requires i <= n <= |r.hdrs|
    ensures Bindings(r, i) <= Bindings(r, n)
    decreases n
  {
    hide Declared;
    if i < n {
      BindingsPrefix(r, i, n - 1);
    }
  }

  lemma PutSnoc<T>(tab: seq<Row<T>>, bs: seq<Row<T>>, b: Row<T>, cap: nat, max: nat)
    ensures PutAll(tab, bs + [b], cap, max) ==
            match PutAll(tab, bs, cap, max) { case None => None case Some(t) => Put(t, b.key, b.val, cap, max) }
  {
    hide Put;
    assert (bs + [b])[..|bs + [b]| - 1] == bs;
  }

  /** A binding that does not fit fails the whole. */
  lemma {:induction false} StopsHere<T>(tab: seq<Row<T>>, bs: seq<Row<T>>, n: nat, cap: nat, max: nat)
    requires n <= |bs| && PutAll(tab, bs[..n], cap, max) == None
    ensures PutAll(tab, bs, cap, max) == None
    decreases |bs| - n
  {
    hide Put;
    if n == |bs| {
      assert bs[..n] == bs;
    } else {
      assert bs[..n + 1][..n] == bs[..n];
      StopsHere(tab, bs, n + 1, cap, max);
    }
  }

  lemma {:induction false} StopsDown(store: Store, chain: seq<int>, i: nat)
    requires i <= |chain| && MergeDown(store, chain, i) == None
    ensures MergeDown(store, chain, 0) == None
    decreases i
  {
    hide MergeOne;
    if i > 0 {
      StopsDown(store, chain, i - 1);
    }
  }
}
