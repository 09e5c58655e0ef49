/** The provider table of the ELF export audit: an open-addressed set of symbol names. */
module ProviderTable {
  import opened Bytes

  datatype Slot = Empty | Used(name: string)

  const CAP: nat := 65536

  /** The rolling hash, in unsigned 32-bit arithmetic. */
  function Hash(s: string): (h: nat)
    ensures h < TWO32
  {
    if s == [] then 5381 else (33 * Hash(s[..|s| - 1]) + s[|s| - 1] as nat % 256) % TWO32
  }

  /** Where probing for a name starts. */
  function Home(s: string): (k: nat)
    ensures k < CAP
  {
    Hash(s) % CAP
  }

  /** The hash of one name, and the slot where its probing starts. */
  lemma HashOfPrintf()
    ensures Hash("printf") == 359345080 && Home("printf") == 11192
  {
    var s := "printf";
    assert Hash(s[..0]) == 5381;
    assert s[..1][..0] == s[..0] && Hash(s[..1]) == 177685;
    assert s[..2][..1] == s[..1] && Hash(s[..2]) == 5863719;
    assert s[..3][..2] == s[..2] && Hash(s[..3]) == 193502832;
    assert s[..4][..3] == s[..3] && Hash(s[..4]) == 2090626270;
    assert s[..5][..4] == s[..4] && Hash(s[..5]) == 271190290;
    assert s[..6] == s && s[..6][..5] == s[..5];
  }

  /** How many probes from home h come before slot k. */
  function Dist(h: nat, k: nat): (d: nat)
    requires h < CAP && k < CAP
    ensures d < CAP
  {
    if k >= h then k - h else k + CAP - h
  }

  /** Slot of probe i from hash x: unsigned sum, masked. */
  function Probe(x: nat, i: nat): (k: nat)
    ensures k < CAP
  {
    (x + i) % TWO32 % CAP
  }

  lemma ModIs(y: nat, q: nat, r: nat)
    requires y == CAP * q + r && r < CAP
    ensures y % CAP == r
  {
  }

  /** Probe i from hash x, as the code computes it. */
  lemma ProbeDist(x: nat, i: nat)
    requires i < CAP && x < TWO32
    ensures Dist(x % CAP, Probe(x, i)) == i
  {
    var q, r := x / CAP, x % CAP;
    var y := if x + i < TWO32 then x + i else x + i - TWO32;
    assert (x + i) % TWO32 == y;
    var q' := if x + i < TWO32 then q else q - CAP;
    if r + i < CAP {
      ModIs(y, q', r + i);
    } else {
      ModIs(y, q' + 1, r + i - CAP);
    }
  }

  lemma DistInjective(h: nat, k: nat, l: nat)
    requires h < CAP && k < CAP && l < CAP && Dist(h, k) == Dist(h, l)
    ensures k == l
  {
  }

  /** The names in the first n slots. */
  function Names(s: seq<Slot>): (names: set<string>)
    ensures forall x :: x in names <==> Used(x) in s
  {
    if s == [] then {} else Names(s[..|s| - 1]) + (if s[|s| - 1].Used? then {s[|s| - 1].name} else {})
  }

  /** No name twice, and no empty slot between a name's home and its slot. */
  ghost predicate Sound(s: seq<Slot>) {
    && |s| == CAP
    && (forall k :: 0 <= k < CAP && s[k].Used? ==> s[k].name != "")
    && Apart(s) && Gapless(s)
  }

  ghost predicate Apart(s: seq<Slot>) {
    forall k, l :: 0 <= k < |s| && 0 <= l < |s| && s[k].Used? && s[k] == s[l] ==> k == l
  }

  ghost predicate Gapless(s: seq<Slot>)
    requires |s| == CAP
  {
    forall k, l ::
      0 <= k < CAP && 0 <= l < CAP && s[k].Used? && Dist(Home(s[k].name), l) < Dist(Home(s[k].name), k) ==>
        s[l].Used?
  }

  /** A run of i probes for x that met other names only. */
  ghost predicate Missed(s: seq<Slot>, x: string, i: nat)
    requires |s| == CAP
  {
    forall k :: 0 <= k < CAP && Dist(Home(x), k) < i ==> s[k].Used? && s[k].name != x
  }

  lemma MissedEmpty(s: seq<Slot>, x: string, k: nat)
    requires Sound(s) && k < CAP && Missed(s, x, Dist(Home(x), k)) && s[k] == Empty
    ensures x !in Names(s)
  {
    if x in Names(s) {
      var l :| 0 <= l < |s| && s[l] == Used(x);
      if Dist(Home(x), l) == Dist(Home(x), k) {
        DistInjective(Home(x), k, l);
      }
    }
  }

  lemma MissedAll(s: seq<Slot>, x: string)
    requires |s| == CAP && Missed(s, x, CAP)
    ensures x !in Names(s) && forall k :: 0 <= k < CAP ==> s[k].Used?
  {
    forall k | 0 <= k < CAP
      ensures s[k].Used? && s[k].name != x
    {
      assert Dist(Home(x), k) < CAP;
    }
  }

  lemma MissedNext(s: seq<Slot>, x: string, k: nat)
    requires |s| == CAP && k < CAP && Missed(s, x, Dist(Home(x), k)) && s[k].Used? && s[k].name != x
    ensures Missed(s, x, Dist(Home(x), k) + 1)
  {
    forall l | 0 <= l < CAP && Dist(Home(x), l) < Dist(Home(x), k) + 1
      ensures s[l].Used? && s[l].name != x
    {
      if Dist(Home(x), l) == Dist(Home(x), k) {
        DistInjective(Home(x), k, l);
      }
    }
  }

  lemma SoundInsert(s: seq<Slot>, x: string, k: nat)
    requires Sound(s) && x != "" && k < CAP && Missed(s, x, Dist(Home(x), k)) && s[k] == Empty
    ensures Sound(s[k := Used(x)]) && Names(s[k := Used(x)]) == Names(s) + {x}
  {
    MissedEmpty(s, x, k);
    ApartInsert(s, x, k);
    GaplessInsert(s, x, k);
    NamesInsert(s, x, k);
    hide Apart;
    hide Gapless;
    hide Missed;
    hide Home;
    hide Dist;
    hide Names;
  }

  lemma ApartInsert(s: seq<Slot>, x: string, k: nat)
    requires Apart(s) && k < |s| && s[k] == Empty && x !in Names(s)
    ensures Apart(s[k := Used(x)])
  {
    hide Names;
    forall l | 0 <= l < |s| && s[l].Used?
      ensures s[l].name != x
    {
      assert s[l] in s;
    }
  }

  /** The slots that the probing passed were taken, and no slot is given up. */
  lemma GaplessInsert(s: seq<Slot>, x: string, k: nat)
    requires |s| == CAP && Gapless(s) && k < CAP && Missed(s, x, Dist(Home(x), k))
    ensures Gapless(s[k := Used(x)])
  {
    hide Home;
    hide Dist;
  }

  lemma NamesInsert(s: seq<Slot>, x: string, k: nat)
    requires k < |s| && s[k] == Empty
    ensures Names(s[k := Used(x)]) == Names(s) + {x}
  {
    hide Names;
    var t := s[k := Used(x)];
    forall y
      ensures y in Names(t) <==> y in Names(s) + {x}
    {
      InsertName(s, x, k, y);
    }
  }

  lemma InsertName(s: seq<Slot>, x: string, k: nat, y: string)
    requires k < |s| && s[k] == Empty
    ensures Used(y) in s[k := Used(x)] <==> Used(y) in s || y == x
  {
    var t := s[k := Used(x)];
    assert t[k] == Used(x);
    if Used(y) in s {
      var l :| 0 <= l < |s| && s[l] == Used(y);
      assert t[l] == Used(y);
    }
  }

  /** With every slot taken, there are as many names as slots. */
  lemma {:induction false} FullCount(s: seq<Slot>)
    requires forall k :: 0 <= k < |s| ==> s[k].Used?
    requires forall k, l :: 0 <= k < l < |s| ==> s[k] != s[l]
    ensures |Names(s)| == |s|
    decreases |s|
  {
    if s != [] {
      var t := s[..|s| - 1];
      FullCount(t);
      assert s[|s| - 1].name !in Names(t);
    }
  }

  lemma NeverFull(s: seq<Slot>, x: string)
    requires Sound(s) && |Names(s)| <= CAP - 1
    ensures !Missed(s, x, CAP)
  {
    if Missed(s, x, CAP) {
      MissedAll(s, x);
      FullCount(s);
    }
  }

  lemma MissedNone(s: seq<Slot>, x: string)
    requires |s| == CAP
    ensures Missed(s, x, 0)
  {
  }

  lemma NeverNameless(s: seq<Slot>)
    requires Sound(s)
    ensures "" !in Names(s)
  {
  }

  ghost predicate Counted(s: seq<Slot>, n: nat) {
    Sound(s) && n == |Names(s)| && n <= CAP - 1
  }

  lemma CountedInsert(s: seq<Slot>, n: nat, x: string, k: nat)
    requires Counted(s, n) && n < CAP - 1 && x != "" && k < CAP && Missed(s, x, Dist(Home(x), k)) && s[k] == Empty
    ensures Counted(s[k := Used(x)], n + 1) && Names(s[k := Used(x)]) == Names(s) + {x}
  {
    hide Sound;
    SoundInsert(s, x, k);
    MissedEmpty(s, x, k);
    hide Names;
    hide Missed;
  }

  lemma CountedHas(s: seq<Slot>, k: nat, x: string)
    requires k < |s| && s[k] == Used(x)
    ensures x in Names(s) && Names(s) + {x} == Names(s)
  {
    assert s[k] in s;
  }

  lemma CountedAbsent(s: seq<Slot>, n: nat, x: string, k: nat)
    requires Counted(s, n) && k < CAP && Missed(s, x, Dist(Home(x), k)) && s[k] == Empty
    ensures x !in Names(s)
  {
    MissedEmpty(s, x, k);
  }

  lemma CountedEnd(s: seq<Slot>, n: nat, x: string)
    requires Counted(s, n)
    ensures !Missed(s, x, CAP)
  {
    NeverFull(s, x);
  }

  class Table {
    const slot: array<Slot>
    var n: nat

    ghost predicate Valid()
      reads this, slot
    {
      slot.Length == CAP && Counted(slot[..], n)
    }

    /** The set the table stands for. */
    ghost function Contents(): set<string>
      reads slot
    {
      Names(slot[..])
    }

    constructor ()
      ensures Valid() && Contents() == {} && fresh(slot)
    {
      slot := new Slot[CAP](_ => Empty);
      n := 0;
      new;
      assert forall x :: Used(x) !in slot[..];
    }

    method Put(k: nat, name: string)
      requires Valid() && n < CAP - 1 && name != "" && k < CAP && slot[k] == Empty
      requires Missed(slot[..], name, Dist(Home(name), k))
      modifies this, slot
      ensures Valid() && Contents() == old(Contents()) + {name}
    {
      hide Missed;
      hide Counted;
      hide Names;
      ghost var s := slot[..];
      CountedInsert(s, n, name, k);
      slot[k] := Used(name);
      n := n + 1;
      assert slot[..] == s[k := Used(name)];
    }

    /** The probe loop of both operations: it ends at the name or at an empty slot. */
    method Seek(name: string) returns (k: nat)
      requires Valid()
      ensures k < CAP && (slot[k] == Empty || slot[k] == Used(name))
      ensures Missed(slot[..], name, Dist(Home(name), k))
    {
      hide Counted;
      hide Missed;
      hide Hash;
      hide Probe;
      hide Dist;
      ghost var s := slot[..];
      var h := Hash(name);
      MissedNone(s, name);
      var i := 0;
      while i < CAP
        invariant i <= CAP && Missed(s, name, i)
      {
        k := Probe(h, i);
        ProbeDist(h, i);
        if slot[k] == Empty || slot[k].name == name { return; }
        MissedNext(s, name, k);
        i := i + 1;
      }
      CountedEnd(s, n, name);
      assert false;
    }

    /** _sf_prov_add: the full table refuses every name, a name it already holds too. */
    method Add(name: string) returns (ok: bool)
      requires Valid()
      modifies this, slot
      ensures Valid()
      ensures ok <==> name == "" || |old(Contents())| < 65535
      ensures Contents() == old(Contents()) + (if ok && name != "" then {name} else {})
    {
      assert n == |Names(slot[..])|;
      hide Counted;
      hide Missed;
      hide Names;
      if name == "" { return true; }
      if n >= CAP - 1 { return false; }
      var k := Seek(name);
      if slot[k] == Empty {
        Put(k, name);
      } else {
        CountedHas(slot[..], k, name);
      }
      return true;
    }

    /** _sf_prov_has: exactly the names in the set. */
    method Has(name: string) returns (found: bool)
      requires Valid()
      ensures found <==> name in Contents()
    {
      if name == "" {
        NeverNameless(slot[..]);
        return false;
      }
      hide Counted;
      hide Missed;
      hide Names;
      var k := Seek(name);
      if slot[k] == Empty {
        CountedAbsent(slot[..], n, name, k);
        return false;
      }
      CountedHas(slot[..], k, name);
      return true;
    }

    /** At every moment some slot is empty, so probing for an absent name ends at one. */
    lemma EmptySlot()
      requires Valid()
      ensures exists k :: 0 <= k < CAP && slot[k] == Empty
    {
      if forall k :: 0 <= k < CAP ==> slot[k] != Empty {
        assert forall k :: 0 <= k < CAP ==> slot[..][k].Used?;
        FullCount(slot[..]);
      }
    }
  }
}
