/** The ELF export audit: the load group of a kernel library is closed under located dependencies,
    and every strong reference of its audited members must find a default-visible definition. */
module LoadGroup {
  import opened Common
  import opened ProviderTable

  datatype Bind = Local | Global | Weak | OtherBind

  /** A dynamic symbol; `open` when its visibility is the default one. */
  datatype Symbol = Symbol(name: string, defined: bool, bind: Bind, open: bool)

  /** An image: the collected dependency names (the first 64) and the dynamic symbols but the first. */
  datatype Image = Image(needed: seq<string>, syms: seq<Symbol>)

  /** What the file system answers during one audit: canonical paths, images by canonical path, and
      where a dependency name is found from a given library. */
  datatype World = World(canon: string -> string, load: string -> Option<Image>,
                         find: (string, string) -> Option<string>)

  datatype Member = Member(path: string, skip: bool, img: Image)

  const GROUP_MAX: nat := 96

  const SKIPPED: seq<string> :=
    ["libc.so", "libm.so", "libdl.so", "libpthread.so", "ld-linux", "libgcc_s", "libtpbench", "libgomp",
     "libomp.so", "libstdc++", "libatomic", "linux-vdso", "librt.so", "libresolv"]

  predicate Contains(s: string, t: string) {
    t <= s || (s != [] && Contains(s[1..], t))
  }

  predicate IsSkipDso(name: string) {
    exists i :: 0 <= i < |SKIPPED| && Contains(name, SKIPPED[i])
  }

  /** The part after the last slash. */
  function Basename(path: string): string {
    if path == [] then []
    else if path[|path| - 1] == '/' then []
    else Basename(path[..|path| - 1]) + [path[|path| - 1]]
  }

  function Label(canon: string, soname: string): string {
    Cut(if soname != "" then soname else Basename(canon), 255)
  }

  function Paths(g: seq<Member>): (ps: seq<string>)
    ensures |ps| == |g|
  {
    seq(|g|, i requires 0 <= i < |g| => g[i].path)
  }

  // ---------------------------------------------------------------- growing the group

  /** _sf_group_add as a function: the new group, or None where the code returns -1. */
  function Added(w: World, g: seq<Member>, path: string, soname: string): (r: Option<seq<Member>>)
    ensures r.Some? ==> g <= r.value
  {
    var c := w.canon(path);
    if c in Paths(g) then Some(g)
    else if |g| >= GROUP_MAX || w.load(c) == None then None
    else Some(g + [Member(c, IsSkipDso(Label(c, soname)) || IsSkipDso(c), w.load(c).value)])
  }

  /** The dependency loop of _sf_walk_needed from name i on. */
  function Walked(w: World, g: seq<Member>, m: Member, i: nat): (r: Option<seq<Member>>)
    ensures r.Some? ==> g <= r.value
    decreases |m.img.needed| - i
  {
    if m.skip || i >= |m.img.needed| then Some(g)
    else
      match w.find(m.img.needed[i], m.path)
      case None => Walked(w, g, m, i + 1)
      case Some(p) =>
        var r := Added(w, g, p, m.img.needed[i]);
        if r == None then None else Walked(w, r.value, m, i + 1)
  }

  /** No path twice, within the cap, and every member loaded from its canonical path. */
  ghost predicate Grouped(w: World, g: seq<Member>) {
    && |g| <= 96
    && (forall i, k :: 0 <= i < k < |g| ==> g[i].path != g[k].path)
    && (forall i :: 0 <= i < |g| ==> w.load(g[i].path) == Some(g[i].img))
  }

  /** Member x is where some dependency of m is located, and is left out of the audit exactly when the name
      of that dependency, or else the path, says so. */
  ghost predicate Leads(w: World, m: Member, x: Member) {
    !m.skip && exists i :: 0 <= i < |m.img.needed| && LeadsBy(w, m, m.img.needed[i], x)
  }

  ghost predicate LeadsBy(w: World, m: Member, needed: string, x: Member) {
    && w.find(needed, m.path).Some? && w.canon(w.find(needed, m.path).value) == x.path
    && (x.skip <==> IsSkipDso(Label(x.path, needed)) || IsSkipDso(x.path))
  }

  /** Every member but the first was pulled in by an earlier audited one. */
  ghost predicate Rooted(w: World, g: seq<Member>) {
    forall k :: 0 < k < |g| ==> exists i :: 0 <= i < k && Leads(w, g[i], g[k])
  }

  /** The located dependencies of m up to name n are in the group. */
  ghost predicate Covers(w: World, g: seq<Member>, m: Member, n: nat) {
    !m.skip ==> forall i :: 0 <= i < n && i < |m.img.needed| ==>
      var q := w.find(m.img.needed[i], m.path);
      q.Some? ==> w.canon(q.value) in Paths(g)
  }

  ghost predicate Closed(w: World, g: seq<Member>, n: nat) {
    forall i :: 0 <= i < n && i < |g| ==> Covers(w, g, g[i], |g[i].img.needed|)
  }

  lemma PathsPrefix(g: seq<Member>, g': seq<Member>, p: string)
    requires g <= g' && p in Paths(g)
    ensures p in Paths(g')
  {
    var i :| 0 <= i < |g| && Paths(g)[i] == p;
    assert Paths(g')[i] == p;
  }

  lemma CoversPrefix(w: World, g: seq<Member>, g': seq<Member>, m: Member, n: nat)
    requires g <= g' && Covers(w, g, m, n)
    ensures Covers(w, g', m, n)
  {
    if !m.skip {
      forall i | 0 <= i < n && i < |m.img.needed| && w.find(m.img.needed[i], m.path).Some?
        ensures w.canon(w.find(m.img.needed[i], m.path).value) in Paths(g')
      {
        PathsPrefix(g, g', w.canon(w.find(m.img.needed[i], m.path).value));
      }
    }
  }

  lemma AddedKeeps(w: World, g: seq<Member>, path: string, soname: string)
    requires Grouped(w, g) && Added(w, g, path, soname).Some?
    ensures var g' := Added(w, g, path, soname).value; Grouped(w, g') && w.canon(path) in Paths(g')
  {
    hide IsSkipDso;
    hide Label;
    var c, g' := w.canon(path), Added(w, g, path, soname).value;
    if c !in Paths(g) {
      assert Paths(g')[|g|] == c;
      forall i | 0 <= i < |g|
        ensures g'[i].path != c
      {
        assert Paths(g)[i] == g[i].path;
      }
    }
  }

  lemma AddedRooted(w: World, g: seq<Member>, path: string, soname: string, i: nat)
    requires Rooted(w, g) && i < |g| && !g[i].skip && soname in g[i].img.needed
    requires w.find(soname, g[i].path) == Some(path) && Added(w, g, path, soname).Some?
    ensures Rooted(w, Added(w, g, path, soname).value)
  {
    hide IsSkipDso;
    hide Label;
    var g' := Added(w, g, path, soname).value;
    if g' != g {
      var n :| 0 <= n < |g[i].img.needed| && g[i].img.needed[n] == soname;
      assert LeadsBy(w, g[i], g[i].img.needed[n], g'[|g|]);
    }
    hide LeadsBy;
    assert g' != g ==> Leads(w, g[i], g'[|g|]);
    hide Leads;
    forall k | 0 < k < |g'|
      ensures exists i :: 0 <= i < k && Leads(w, g'[i], g'[k])
    {
      if k < |g| {
        var l :| 0 <= l < k && Leads(w, g[l], g[k]);
        assert Leads(w, g'[l], g'[k]);
      } else {
        assert Leads(w, g'[i], g'[k]);
      }
    }
  }

  lemma {:induction false} WalkedKeeps(w: World, g: seq<Member>, k: nat, i: nat)
    requires Grouped(w, g) && Rooted(w, g) && k < |g| && Covers(w, g, g[k], i) && i <= |g[k].img.needed|
    requires Walked(w, g, g[k], i).Some?
    ensures var g' := Walked(w, g, g[k], i).value;
            Grouped(w, g') && Rooted(w, g') && Covers(w, g', g[k], |g[k].img.needed|)
    decreases |g[k].img.needed| - i
  {
    hide Added;
    hide Grouped;
    hide Rooted;
    var m := g[k];
    if !m.skip && i < |m.img.needed| {
      match w.find(m.img.needed[i], m.path)
      case None => WalkedKeeps(w, g, k, i + 1);
      case Some(p) =>
        var r := Added(w, g, p, m.img.needed[i]);
        AddedKeeps(w, g, p, m.img.needed[i]);
        AddedRooted(w, g, p, m.img.needed[i], k);
        CoversPrefix(w, g, r.value, m, i);
        WalkedKeeps(w, r.value, k, i + 1);
    }
  }

  /** The worklist from member i on. */
  function Grown(w: World, g: seq<Member>, i: nat): (r: Option<seq<Member>>)
    requires |g| <= GROUP_MAX
    ensures r.Some? ==> g <= r.value
    decreases GROUP_MAX - i
  {
    if i >= |g| then Some(g)
    else
      WalkedCap(w, g, g[i], 0);
      match Walked(w, g, g[i], 0)
      case None => None
      case Some(g') => Grown(w, g', i + 1)
  }

  lemma {:induction false} WalkedCap(w: World, g: seq<Member>, m: Member, i: nat)
    requires |g| <= GROUP_MAX
    ensures var r := Walked(w, g, m, i); r.Some? ==> |r.value| <= GROUP_MAX
    decreases |m.img.needed| - i
  {
    hide IsSkipDso;
    hide Label;
    if !m.skip && i < |m.img.needed| {
      match w.find(m.img.needed[i], m.path)
      case None => WalkedCap(w, g, m, i + 1);
      case Some(p) =>
        var r := Added(w, g, p, m.img.needed[i]);
        if r.Some? {
          WalkedCap(w, r.value, m, i + 1);
        }
    }
  }

  /** The group of the library at `root`. */
  function Group(w: World, root: string): Option<seq<Member>> {
    match Added(w, [], root, "")
    case None => None
    case Some(g) => Grown(w, g, 0)
  }

  lemma {:induction false} GrownKeeps(w: World, g: seq<Member>, i: nat)
    requires Grouped(w, g) && Rooted(w, g) && Closed(w, g, i) && Grown(w, g, i).Some?
    ensures var g' := Grown(w, g, i).value; Grouped(w, g') && Rooted(w, g') && Closed(w, g', |g'|)
    decreases GROUP_MAX - i
  {
    hide Walked;
    hide Rooted;
    hide Covers;
    if i < |g| {
      var g' := Walked(w, g, g[i], 0).value;
      CoversNone(w, g, g[i]);
      WalkedKeeps(w, g, i, 0);
      forall k | 0 <= k < i + 1
        ensures Covers(w, g', g'[k], |g'[k].img.needed|)
      {
        if k < i {
          CoversPrefix(w, g, g', g[k], |g[k].img.needed|);
        }
      }
      GrownKeeps(w, g', i + 1);
    }
  }

  lemma CoversNone(w: World, g: seq<Member>, m: Member)
    ensures Covers(w, g, m, 0)
  {
  }

  /** The group holds no path twice, holds every located dependency of its audited members, and
      nothing but the root and what such dependencies lead to. */
  lemma GroupIsClosure(w: World, root: string)
    requires Group(w, root).Some?
    ensures var g := Group(w, root).value;
            && Grouped(w, g) && Rooted(w, g) && Closed(w, g, |g|)
            && |g| > 0 && g[0].path == w.canon(root)
            && (g[0].skip <==> IsSkipDso(Label(g[0].path, "")) || IsSkipDso(g[0].path))
  {
    hide IsSkipDso;
    hide Label;
    hide Grown;
    var g := Added(w, [], root, "").value;
    assert |Paths([])| == 0;
    GrownKeeps(w, g, 0);
  }

  /** A group on the way that cannot go on: an audited member has a dependency, located outside the group,
      for which there is no room, or which cannot be read. */
  ghost predicate Stuck(w: World, g: seq<Member>) {
    exists i, n ::
      && 0 <= i < |g| && !g[i].skip && 0 <= n < |g[i].img.needed|
      && var q := w.find(g[i].img.needed[n], g[i].path);
         q.Some? && w.canon(q.value) !in Paths(g) && (|g| >= 96 || w.load(w.canon(q.value)) == None)
  }

  lemma {:induction false} WalkedStuck(w: World, g: seq<Member>, k: nat, i: nat) returns (g': seq<Member>)
    requires Grouped(w, g) && Rooted(w, g) && k < |g| && i <= |g[k].img.needed| && Walked(w, g, g[k], i) == None
    ensures Grouped(w, g') && Rooted(w, g') && g <= g' && Stuck(w, g')
    decreases |g[k].img.needed| - i
  {
    hide IsSkipDso;
    hide Label;
    hide Grouped;
    hide Rooted;
    var m := g[k];
    match w.find(m.img.needed[i], m.path)
    case None => g' := WalkedStuck(w, g, k, i + 1);
    case Some(p) =>
      var r := Added(w, g, p, m.img.needed[i]);
      if r == None {
        g' := g;
      } else {
        AddedKeeps(w, g, p, m.img.needed[i]);
        AddedRooted(w, g, p, m.img.needed[i], k);
        g' := WalkedStuck(w, r.value, k, i + 1);
      }
  }

  lemma {:induction false} GrownStuck(w: World, g: seq<Member>, i: nat) returns (g': seq<Member>)
    requires Grouped(w, g) && Rooted(w, g) && i <= |g| && Grown(w, g, i) == None
    ensures Grouped(w, g') && Rooted(w, g') && g <= g' && Stuck(w, g')
    decreases GROUP_MAX - i
  {
    hide Walked;
    hide Rooted;
    hide Stuck;
    if Walked(w, g, g[i], 0) == None {
      g' := WalkedStuck(w, g, i, 0);
    } else {
      var h := Walked(w, g, g[i], 0).value;
      CoversNone(w, g, g[i]);
      WalkedKeeps(w, g, i, 0);
      g' := GrownStuck(w, h, i + 1);
    }
  }

  /** A group that is not built has a reason: the root cannot be read, or a group of the root and what is
      needed by its members gets stuck. */
  lemma GroupRefused(w: World, root: string)
    requires Group(w, root) == None
    ensures w.load(w.canon(root)) == None
            || exists g: seq<Member> ::
                 Grouped(w, g) && Rooted(w, g) && Stuck(w, g) && |g| > 0 && g[0].path == w.canon(root)
  {
    hide IsSkipDso;
    hide Label;
    hide Grown;
    hide Stuck;
    assert |Paths([])| == 0;
    if Added(w, [], root, "").Some? {
      var g := GrownStuck(w, Added(w, [], root, "").value, 0);
    }
  }

  // ---------------------------------------------------------------- who is audited

  lemma {:induction false} ContainsIs(s: string, t: string)
    ensures Contains(s, t) <==> exists a, b :: s == a + t + b
    decreases s
  {
    if t <= s {
      assert s == [] + t + s[|t|..];
    } else if s != [] {
      ContainsIs(s[1..], t);
      if a, b :| s[1..] == a + t + b {
        assert s == ([s[0]] + a) + t + b;
      }
      if a, b :| s == a + t + b {
        if a != [] {
          assert s[1..] == a[1..] + t + b;
        }
      }
    }
  }

  /** A name is passed over exactly when one of these stands somewhere in it. */
  lemma SkipExactly(name: string)
    ensures IsSkipDso(name) <==>
            exists t, a, b ::
              && t in ["libc.so", "libm.so", "libdl.so", "libpthread.so", "ld-linux", "libgcc_s", "libtpbench",
                       "libgomp", "libomp.so", "libstdc++", "libatomic", "linux-vdso", "librt.so", "libresolv"]
              && name == a + t + b
  {
    hide Contains;
    forall i | 0 <= i < |SKIPPED|
      ensures Contains(name, SKIPPED[i]) <==> exists a, b :: name == a + SKIPPED[i] + b
    {
      ContainsIs(name, SKIPPED[i]);
    }
    if t, a, b :| t in SKIPPED && name == a + t + b {
      var i :| 0 <= i < |SKIPPED| && SKIPPED[i] == t;
      assert Contains(name, SKIPPED[i]);
    }
    if IsSkipDso(name) {
      var i :| 0 <= i < |SKIPPED| && Contains(name, SKIPPED[i]);
      var a, b :| name == a + SKIPPED[i] + b;
      assert SKIPPED[i] in SKIPPED;
    }
  }

  /** The label of a library: the name it was needed by, and for the root the part of its path behind the last
      slash; at most 255 characters of it. */
  lemma LabelIs(dir: string, base: string, needed: string)
    requires '/' !in base
    ensures Label(dir + "/" + base, "") == Cut(base, 255) && Label(base, "") == Cut(base, 255)
    ensures needed != "" ==>
              Label(base, needed) == Cut(needed, 255) && Label(dir + "/" + base, needed) == Cut(needed, 255)
  {
    BasenameIs("", base);
    BasenameIs(dir + "/", base);
    assert "" + base == base;
  }

  lemma {:induction false} BasenameIs(dir: string, base: string)
    requires '/' !in base && (dir == "" || dir[|dir| - 1] == '/')
    ensures Basename(dir + base) == base
    decreases |base|
  {
    if base == "" {
      assert dir + base == dir;
    } else {
      BasenameIs(dir, base[..|base| - 1]);
      assert (dir + base)[..|dir + base| - 1] == dir + base[..|base| - 1];
    }
  }

  // ---------------------------------------------------------------- providers

  /** A symbol the provider table takes. */
  predicate Provides(y: Symbol) {
    y.defined && (y.bind == Global || y.bind == Weak) && y.open
  }

  /** Names offered to the table by the symbols, in order. */
  function Offered(ys: seq<Symbol>): (names: seq<string>) {
    if ys == [] then []
    else Offered(ys[..|ys| - 1]) + (if Provides(ys[|ys| - 1]) then [ys[|ys| - 1].name] else [])
  }

  function AllOffered(g: seq<Member>): (names: seq<string>) {
    if g == [] then [] else AllOffered(g[..|g| - 1]) + Offered(g[|g| - 1].img.syms)
  }

  /** The named ones among the names. */
  function Named(names: seq<string>): (s: set<string>)
    ensures forall x :: x in s <==> x in names && x != ""
  {
    set x | x in names && x != ""
  }

  /** The table refuses one of the names: a named one that comes when it is full. */
  ghost predicate Overflows(names: seq<string>) {
    exists k :: 0 <= k < |names| && names[k] != "" && |Named(names[..k])| >= CAP - 1
  }

  // ---------------------------------------------------------------- the verdict

  /** A reference the audit checks. */
  predicate Checked(y: Symbol) {
    !y.defined && y.name != "" && y.bind != Weak
  }

  /** A default-visible global or weak definition of the name, anywhere in the group. */
  ghost predicate Provided(g: seq<Member>, name: string) {
    exists i, k ::
      && 0 <= i < |g| && 0 <= k < |g[i].img.syms|
      && var y := g[i].img.syms[k]; y.name == name && y.defined && y.open && (y.bind == Global || y.bind == Weak)
  }

  /** Every named, not weak reference of an audited member is provided. */
  ghost predicate Resolved(g: seq<Member>) {
    forall i, k :: 0 <= i < |g| && !g[i].skip && 0 <= k < |g[i].img.syms| ==>
      var y := g[i].img.syms[k];
      !y.defined && y.name != "" && y.bind != Weak ==> Provided(g, y.name)
  }

  /** How many checked references of audited members are not in the set. */
  function Misses(ys: seq<Symbol>, names: set<string>): nat {
    if ys == [] then 0
    else Misses(ys[..|ys| - 1], names) + (if Checked(ys[|ys| - 1]) && ys[|ys| - 1].name !in names then 1 else 0)
  }

  function AllMisses(g: seq<Member>, names: set<string>): nat {
    if g == [] then 0
    else AllMisses(g[..|g| - 1], names) + (if g[|g| - 1].skip then 0 else Misses(g[|g| - 1].img.syms, names))
  }

  lemma {:induction false} OfferedAt(ys: seq<Symbol>, x: string)
    ensures x in Offered(ys) <==> exists k :: 0 <= k < |ys| && Provides(ys[k]) && ys[k].name == x
    decreases |ys|
  {
    if ys != [] {
      OfferedAt(ys[..|ys| - 1], x);
      var zs := ys[..|ys| - 1];
      if k :| 0 <= k < |zs| && Provides(zs[k]) && zs[k].name == x {
        assert Provides(ys[k]) && ys[k].name == x;
      }
      if k :| 0 <= k < |ys| && Provides(ys[k]) && ys[k].name == x {
        if k < |ys| - 1 {
          assert Provides(zs[k]) && zs[k].name == x;
        }
      }
    }
  }

  lemma {:induction false} AllOfferedAt(g: seq<Member>, x: string)
    ensures x in AllOffered(g) <==> Provided(g, x)
    decreases |g|
  {
    hide Offered;
    if g != [] {
      var g', m := g[..|g| - 1], g[|g| - 1];
      AllOfferedAt(g', x);
      OfferedAt(m.img.syms, x);
      ProvidedNext(g, x);
      hide Provided;
      hide Provides;
    }
  }

  lemma ProvidedNext(g: seq<Member>, x: string)
    requires g != []
    ensures var ys := g[|g| - 1].img.syms;
            Provided(g, x) <==> Provided(g[..|g| - 1], x)
                                || exists k :: 0 <= k < |ys| && Provides(ys[k]) && ys[k].name == x
  {
    var g', m := g[..|g| - 1], g[|g| - 1];
    assert forall i :: 0 <= i < |g'| ==> g'[i] == g[i];
    if k :| 0 <= k < |m.img.syms| && Provides(m.img.syms[k]) && m.img.syms[k].name == x {
      assert g[|g| - 1].img.syms[k] == m.img.syms[k];
    }
    if Provided(g', x) {
      var i, k :|
        && 0 <= i < |g'| && 0 <= k < |g'[i].img.syms|
        && var y := g'[i].img.syms[k]; y.name == x && y.defined && y.open && (y.bind == Global || y.bind == Weak);
      assert g[i].img.syms[k] == g'[i].img.syms[k];
    }
    if Provided(g, x) {
      var i, k :|
        && 0 <= i < |g| && 0 <= k < |g[i].img.syms|
        && var y := g[i].img.syms[k]; y.name == x && y.defined && y.open && (y.bind == Global || y.bind == Weak);
      if i < |g| - 1 {
        assert g'[i].img.syms[k] == g[i].img.syms[k];
      } else {
        assert Provides(m.img.syms[k]);
      }
    }
  }

  lemma {:induction false} NoMisses(ys: seq<Symbol>, names: set<string>)
    ensures Misses(ys, names) == 0 <==> forall k :: 0 <= k < |ys| && Checked(ys[k]) ==> ys[k].name in names
    decreases |ys|
  {
    if ys != [] {
      NoMisses(ys[..|ys| - 1], names);
      assert forall k :: 0 <= k < |ys| - 1 ==> ys[..|ys| - 1][k] == ys[k];
    }
  }

  lemma {:induction false} NoneMissing(g: seq<Member>, names: set<string>)
    ensures AllMisses(g, names) == 0 <==>
            forall i, k :: 0 <= i < |g| && !g[i].skip && 0 <= k < |g[i].img.syms| && Checked(g[i].img.syms[k]) ==>
              g[i].img.syms[k].name in names
    decreases |g|
  {
    hide Checked;
    hide Misses;
    if g != [] {
      var g' := g[..|g| - 1];
      NoneMissing(g', names);
      NoMisses(g[|g| - 1].img.syms, names);
      assert forall i :: 0 <= i < |g| - 1 ==> g'[i] == g[i];
    }
  }

  /** The table's contents decide resolution. */
  lemma VerdictIs(g: seq<Member>)
    ensures AllMisses(g, Named(AllOffered(g))) == 0 <==> Resolved(g)
  {
    hide AllMisses;
    hide AllOffered;
    hide Provided;
    NoneMissing(g, Named(AllOffered(g)));
    forall x: string
      ensures x in AllOffered(g) <==> Provided(g, x)
    {
      AllOfferedAt(g, x);
    }
  }

  // ---------------------------------------------------------------- the code

  class Audit {
    const w: World
    var group: seq<Member>

    constructor (w: World)
      ensures group == [] && this.w == w
    {
      this.w := w;
      group := [];
    }

    method GroupHas(path: string) returns (found: bool)
      ensures found <==> path in Paths(group)
    {
      var i := 0;
      while i < |group|
        invariant i <= |group| && path !in Paths(group)[..i]
      {
        if group[i].path == path {
          assert Paths(group)[i] == path;
          return true;
        }
        assert Paths(group)[..i + 1] == Paths(group)[..i] + [group[i].path];
        i := i + 1;
      }
      assert Paths(group)[..i] == Paths(group);
      return false;
    }

    /** _sf_group_add */
    method GroupAdd(path: string, soname: string) returns (ok: bool)
      modifies this
      ensures ok <==> Added(w, old(group), path, soname).Some?
      ensures group == if ok then Added(w, old(group), path, soname).value else old(group)
    {
      hide IsSkipDso;
      var canon := w.canon(path);
      var has := GroupHas(canon);
      if has { return true; }
      if |group| >= GROUP_MAX { return false; }
      var skip := IsSkipDso(Label(canon, soname)) || IsSkipDso(canon);
      match w.load(canon)
      case None => return false;
      case Some(img) =>
        group := group + [Member(canon, skip, img)];
        return true;
    }

    /** _sf_walk_needed */
    method WalkNeeded(idx: nat) returns (ok: bool)
      requires idx < |group|
      modifies this
      ensures var r := Walked(w, old(group), old(group)[idx], 0);
              if ok then r == Some(group) else r == None
    {
      hide Added;
      var m := group[idx];
      if m.skip { return true; }
      var i := 0;
      while i < |m.img.needed|
        invariant i <= |m.img.needed|
        invariant Walked(w, old(group), m, 0) == Walked(w, group, m, i)
      {
        match w.find(m.img.needed[i], m.path) {
          case None =>
          case Some(dep) =>
            var added := GroupAdd(dep, m.img.needed[i]);
            if !added { return false; }
        }
        i := i + 1;
      }
      return true;
    }

    /** The group stage of _sf_audit_needed. */
    method Build(root: string) returns (ok: bool)
      requires group == []
      modifies this
      ensures if ok then Group(w, root) == Some(group) else Group(w, root) == None
    {
      hide Added;
      hide Walked;
      var added := GroupAdd(root, "");
      if !added { return false; }
      RootCap(w, root);
      var i := 0;
      while i < |group|
        invariant i <= |group| <= GROUP_MAX
        invariant Group(w, root) == Grown(w, group, i)
        decreases GROUP_MAX - i
      {
        WalkedCap(w, group, group[i], 0);
        var walked := WalkNeeded(i);
        if !walked { return false; }
        i := i + 1;
      }
      return true;
    }

    /** One name offered to the table. */
    method Offer(x: string, prov: Table, ghost had: seq<string>) returns (ok: bool)
      requires prov.Valid() && prov.Contents() == Named(had)
      modifies prov, prov.slot
      ensures prov.Valid()
      ensures ok ==> prov.Contents() == Named(had + [x]) && (Overflows(had + [x]) ==> Overflows(had))
      ensures !ok ==> Overflows(had + [x])
    {
      NamedNext(had, x);
      hide Named;
      hide Overflows;
      ok := prov.Add(x);
    }

    /** _sf_collect_providers for one member. */
    method CollectProviders(ys: seq<Symbol>, prov: Table, ghost had: seq<string>) returns (ok: bool)
      requires prov.Valid() && prov.Contents() == Named(had)
      modifies prov, prov.slot
      ensures prov.Valid()
      ensures ok ==> prov.Contents() == Named(had + Offered(ys)) && (Overflows(had + Offered(ys)) ==> Overflows(had))
      ensures !ok ==> exists k :: 0 <= k <= |ys| && Overflows(had + Offered(ys[..k]))
    {
      hide Provides;
      hide Named;
      hide Overflows;
      hide Offered;
      hide Counted;
      hide Names;
      var i := 0;
      ghost var seen := had;
      OfferedNone(had, ys);
      while i < |ys|
        invariant i <= |ys| && prov.Valid()
        invariant seen == had + Offered(ys[..i]) && prov.Contents() == Named(seen)
        invariant Overflows(seen) ==> Overflows(had)
      {
        OfferedNext(ys, i);
        if Provides(ys[i]) {
          var added := Offer(ys[i].name, prov, seen);
          seen := seen + [ys[i].name];
          assert seen == had + Offered(ys[..i + 1]);
          if !added {
            assert Overflows(had + Offered(ys[..i + 1]));
            return false;
          }
        }
        i := i + 1;
      }
      assert ys[..i] == ys;
      return true;
    }

    /** The provider stage of _sf_audit_needed: the table fails exactly on overflow. */
    method Collect(prov: Table) returns (ok: bool)
      requires prov.Valid() && prov.Contents() == {}
      modifies prov, prov.slot
      ensures prov.Valid()
      ensures ok <==> !Overflows(AllOffered(group))
      ensures ok ==> prov.Contents() == Named(AllOffered(group))
    {
      NothingOffered(group);
      hide *;
      var i := 0;
      while i < |group|
        invariant i <= |group| && prov.Valid()
        invariant prov.Contents() == Named(AllOffered(group[..i])) && !Overflows(AllOffered(group[..i]))
      {
        AllOfferedNext(group, i);
        var had := CollectProviders(group[i].img.syms, prov, AllOffered(group[..i]));
        if !had {
          CollectStops(group, i);
          return false;
        }
        i := i + 1;
      }
      assert group[..i] == group;
      return true;
    }

    /** The symbol loop of _sf_audit_mapped. */
    method AuditMember(ys: seq<Symbol>, prov: Table) returns (nfail: nat)
      requires prov.Valid()
      ensures nfail == Misses(ys, prov.Contents())
    {
      hide Counted;
      hide Names;
      nfail := 0;
      var k := 0;
      while k < |ys|
        invariant k <= |ys| && nfail == Misses(ys[..k], prov.Contents())
      {
        assert ys[..k + 1][..k] == ys[..k];
        if !ys[k].defined && ys[k].name != "" && ys[k].bind != Weak {
          var has := prov.Has(ys[k].name);
          if !has { nfail := nfail + 1; }
        }
        k := k + 1;
      }
      assert ys[..k] == ys;
    }

    /** _sf_audit_mapped */
    method AuditMapped(prov: Table) returns (nfail: nat)
      requires prov.Valid()
      ensures nfail == AllMisses(group, prov.Contents())
    {
      hide Counted;
      hide Names;
      hide Misses;
      nfail := 0;
      var gi := 0;
      while gi < |group|
        invariant gi <= |group| && nfail == AllMisses(group[..gi], prov.Contents())
      {
        assert group[..gi + 1][..gi] == group[..gi];
        if !group[gi].skip {
          var n := AuditMember(group[gi].img.syms, prov);
          nfail := nfail + n;
        }
        gi := gi + 1;
      }
      assert group[..gi] == group;
    }

    /** _sf_audit_needed: 0 when every reference resolves, 1 when one does not, -1 when the group
        cannot be built or the provider table overflows. */
    method AuditNeeded(root: string) returns (rc: int)
      requires group == []
      modifies this
      ensures var g := Group(w, root);
              rc == if g == None || Overflows(AllOffered(g.value)) then -1 else if Resolved(g.value) then 0 else 1
    {
      hide Group;
      hide Resolved;
      hide Overflows;
      hide AllOffered;
      hide AllMisses;
      var prov := new Table();
      var built := Build(root);
      if !built { return -1; }
      var collected := Collect(prov);
      if !collected { return -1; }
      var nfail := AuditMapped(prov);
      VerdictIs(group);
      return if nfail > 0 then 1 else 0;
    }
  }

  lemma RootCap(w: World, root: string)
    ensures var r := Added(w, [], root, ""); r.Some? ==> |r.value| <= GROUP_MAX
  {
    hide IsSkipDso;
  }

  lemma OfferedNone(had: seq<string>, ys: seq<Symbol>)
    ensures had + Offered(ys[..0]) == had
  {
  }

  lemma OfferedNext(ys: seq<Symbol>, i: nat)
    requires i < |ys|
    ensures Offered(ys[..i + 1]) == Offered(ys[..i]) + (if Provides(ys[i]) then [ys[i].name] else [])
  {
    assert ys[..i + 1][..i] == ys[..i];
  }

  lemma NothingOffered(g: seq<Member>)
    ensures Named(AllOffered(g[..0])) == {} && !Overflows(AllOffered(g[..0]))
  {
  }

  /** A member that overflows the table makes the whole group overflow it. */
  lemma CollectStops(g: seq<Member>, i: nat)
    requires i < |g|
    requires exists k ::
               0 <= k <= |g[i].img.syms| && Overflows(AllOffered(g[..i]) + Offered(g[i].img.syms[..k]))
    ensures Overflows(AllOffered(g))
  {
    hide *;
    var had, ys := AllOffered(g[..i]), g[i].img.syms;
    var k :| 0 <= k <= |ys| && Overflows(had + Offered(ys[..k]));
    OfferedPrefix(ys, k);
    AllOfferedNext(g, i);
    AllOfferedPrefix(g, i + 1);
    OverflowsPrefix(had + Offered(ys[..k]), AllOffered(g));
  }

  lemma AllOfferedNext(g: seq<Member>, i: nat)
    requires i < |g|
    ensures AllOffered(g[..i + 1]) == AllOffered(g[..i]) + Offered(g[i].img.syms)
  {
    assert g[..i + 1][..i] == g[..i];
  }

  lemma {:induction false} OfferedPrefix(ys: seq<Symbol>, k: nat)
    requires k <= |ys|
    ensures Offered(ys[..k]) <= Offered(ys)
    decreases |ys| - k
  {
    if k == |ys| {
      assert ys[..k] == ys;
    } else {
      OfferedPrefix(ys, k + 1);
      OfferedNext(ys, k);
    }
  }

  lemma {:induction false} AllOfferedPrefix(g: seq<Member>, k: nat)
    requires k <= |g|
    ensures AllOffered(g[..k]) <= AllOffered(g)
    decreases |g| - k
  {
    if k == |g| {
      assert g[..k] == g;
    } else {
      AllOfferedPrefix(g, k + 1);
      AllOfferedNext(g, k);
    }
  }

  lemma OverflowsPrefix(x: seq<string>, y: seq<string>)
    requires x <= y && Overflows(x)
    ensures Overflows(y)
  {
    var k :| 0 <= k < |x| && x[k] != "" && |Named(x[..k])| >= CAP - 1;
    assert y[..k] == x[..k] && y[k] == x[k];
  }

  /** One more name: what it adds, and whether it overflows. */
  lemma NamedNext(had: seq<string>, x: string)
    ensures Named(had + [x]) == Named(had) + (if x != "" then {x} else {})
    ensures Overflows(had + [x]) <==> Overflows(had) || (x != "" && |Named(had)| >= CAP - 1)
  {
    var names := had + [x];
    assert names[..|had|] == had;
    if Overflows(had) {
      OverflowsPrefix(had, names);
    }
    if Overflows(names) {
      var k :| 0 <= k < |names| && names[k] != "" && |Named(names[..k])| >= CAP - 1;
      if k < |had| {
        assert names[..k] == had[..k];
      }
    }
    if x != "" && |Named(had)| >= CAP - 1 {
      assert names[|had|] == x;
    }
  }
}
