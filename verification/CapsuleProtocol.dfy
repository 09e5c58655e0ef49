/** The task-capsule protocol of a parallel job: one leader writes the capsule record and publishes
    its ID through shared memory; any number of other ranks wait for the ID and then append their
    TaskRecordIDs under a file lock. Shared memory is sequentially consistent; creating and sizing
    a shared-memory object is one step; every byte copied and every file write is a step. */
module CapsuleProtocol {
  import opened Bytes
  import opened Common
  import opened Signature
  import opened Layout
  import opened RecordIO
  import opened CapsuleAppend
  import opened Structs
  import EntryLog

  // ---------------------------------------------------------------- the capsule record

  const CAPSULE_HEADER: Header :=
    Header(3096, 1, 20, 0x102, 0, 0, Padded(TASK_ID_NAME, 256), Padded(LINK_TAG, 256), Zeros(2048),
           [1, 0, 0, 0, 0, 0, 0],
           [Zeros(64), Zeros(64), Zeros(64), Zeros(64), Zeros(64), Zeros(64), Zeros(64)])

  /** The attributes of a capsule: its own ID, the all-ones lineage mark, and the batch, kernel,
      time, handle, process and thread of the leader's task record. */
  function CapsuleAttrs(src: seq<seq<byte>>, c: Id): seq<seq<byte>>
    requires |src| == 16
  {
    [c, Zeros(20), seq(20, _ => 0xFF), src[3], src[4], src[5], src[6], Zeros(8), Zeros(4),
     src[9], src[10], src[11], Zeros(4), Zeros(4), U32(1), Zeros(4)]
  }

  function CapsuleRecord(src: seq<seq<byte>>, c: Id, first: Id): Record
    requires |src| == 16
  {
    Record(CapsuleAttrs(src, c), [CAPSULE_HEADER], first)
  }

  lemma CapsuleRecordFits(src: seq<seq<byte>>, c: Id, first: Id)
    requires Lengths(src) == SchemaOf(Task).widths
    ensures |src| == 16 && IsCapsule(CapsuleRecord(src, c, first))
  {
    assert |src| == |Lengths(src)| == 16;
    var ws := SchemaOf(Task).widths;
    assert forall i :: 0 <= i < 16 ==> |src[i]| == Lengths(src)[i] == ws[i];
    assert |src[3]| == 20 && |src[4]| == 20 && |src[5]| == 8 && |src[6]| == 8;
    assert |src[9]| == 4 && |src[10]| == 4 && |src[11]| == 4;
    assert Lengths(CapsuleAttrs(src, c)) == ws;
    assert CAPSULE_HEADER.name[..7] == TASK_ID_NAME;
  }

  // ---------------------------------------------------------------- in terms of the fields

  /** The attributes of the capsule of a leader's task: another ID, the all-ones lineage mark, and nothing
      of what the task did; the rest is the task's. */
  function CapsuleOf(a: TaskAttr, c: Id): TaskAttr {
    a.(id := c, deriveTo := Zeros(20), inheritFrom := seq(20, _ => 0xFF), duration := 0, exitCode := 0,
       ninput := 0, noutput := 0, reserve := 0)
  }

  lemma CapsuleHeaderFields()
    ensures CAPSULE_HEADER == FreshHeader("TaskID", 0x102, 1, 20)
  {
    assert Codes("TaskID") == [0x54, 0x61, 0x73, 0x6B, 0x49, 0x44];
    assert Codes("TPBLINK") == [0x54, 0x50, 0x42, 0x4C, 0x49, 0x4E, 0x4B];
    assert Padded(TASK_ID_NAME, 256) == Field("TaskID", 256);
    assert Padded(LINK_TAG, 256) == Field("TPBLINK", 256);
  }

  lemma CapsuleAttrsFields(a: TaskAttr, n: u32, c: Id)
    ensures CapsuleAttrs(a.Attrs(n), c) == CapsuleOf(a, c).Attrs(1)
  {
    hide U32;
    hide U64;
    ZeroNumbers();
  }

  lemma AttrsOf(a: TaskAttr, hs: seq<Header>, payload: seq<byte>)
    requires Holdable(hs, payload)
    ensures TaskRecord(a, hs, payload).attrs == a.Attrs(|hs|)
  {
    hide SchemaOf;
    hide TaskAttr.Attrs;
  }

  /** Runs of the attributes of a capsule, next to those of the task. */
  lemma CapsuleRuns(a: TaskAttr, c: Id, n: u32, m: u32)
    ensures var p, w := CapsuleOf(a, c).Attrs(m), a.Attrs(n);
            && |p| == |w| == 16
            && Flat(p[0..1]) == c && Flat(p[1..2]) == Zeros(20) && Flat(p[2..3]) == seq(20, _ => 0xFF)
            && p[3..7] == w[3..7] && Flat(p[7..9]) == Zeros(12) && p[9..12] == w[9..12]
            && Flat(p[12..14]) == Zeros(8) && Flat(p[14..15]) == U32(m)
  {
    ZeroNumbers();
    hide U32;
    hide U64;
    var p := CapsuleOf(a, c).Attrs(m);
    EntryLog.FlatOne(p[0]);
    EntryLog.FlatOne(p[1]);
    EntryLog.FlatOne(p[2]);
    EntryLog.FlatOne(p[14]);
    FlatTwo(p[7], p[8]);
    FlatTwo(p[12], p[13]);
    hide Flat;
    assert p[0..1] == [p[0]] && p[1..2] == [p[1]] && p[2..3] == [p[2]] && p[14..15] == [p[14]];
    assert p[7..9] == [p[7], p[8]] && p[12..14] == [p[12], p[13]];
  }

  lemma FlatTwo(x: seq<byte>, y: seq<byte>)
    ensures Flat([x, y]) == x + y
  {
    FlatConcat([x], [y]);
    EntryLog.FlatOne(x);
    EntryLog.FlatOne(y);
    assert [x] + [y] == [x, y];
  }

  /** The record that the leader writes, for its task's attributes. */
  lemma CapsuleFields(a: TaskAttr, n: u32, c: Id, first: Id)
    ensures CapsuleRecord(a.Attrs(n), c, first)
            == TaskRecord(CapsuleOf(a, c), [FreshHeader("TaskID", 0x102, 1, 20)], first)
  {
    CapsuleHeaderFields();
    CapsuleAttrsFields(a, n, c);
    hide CapsuleAttrs;
    hide CAPSULE_HEADER;
    hide SchemaOf;
  }

  /** On disk: what the file of a capsule has in common with that of the leader's task, and what is its own. */
  lemma CapsuleOnDisk(a: TaskAttr, hs: seq<Header>, payload: seq<byte>, c: Id, ks: seq<Header>, ids: seq<byte>)
    requires Holdable(hs, payload) && Holdable(ks, ids)
    ensures var g := Image(SchemaOf(Task), TaskRecord(a, hs, payload));
            var f := Image(SchemaOf(Task), TaskRecord(CapsuleOf(a, c), ks, ids));
            && |f| >= 176 && |g| >= 176
            && f[24..44] == c && f[44..64] == Zeros(20) && f[64..84] == seq(20, _ => 0xFF)
            && f[84..140] == g[84..140] && f[140..152] == Zeros(12) && f[152..164] == g[152..164]
            && f[164..172] == Zeros(8) && f[172..176] == U32(|ks|)
  {
    var s, r, q := SchemaOf(Task), TaskRecord(a, hs, payload), TaskRecord(CapsuleOf(a, c), ks, ids);
    CapsuleRuns(a, c, |hs|, |ks|);
    AttrsOf(a, hs, payload);
    AttrsOf(CapsuleOf(a, c), ks, ids);
    hide *;
    TaskSpots();
    TaskSpan(q, 0, 24, 1, 44);
    TaskSpan(q, 1, 44, 2, 64);
    TaskSpan(q, 2, 64, 3, 84);
    TaskSpan(q, 3, 84, 7, 140);
    TaskSpan(q, 7, 140, 9, 152);
    TaskSpan(q, 9, 152, 12, 164);
    TaskSpan(q, 12, 164, 14, 172);
    TaskSpan(q, 14, 172, 15, 176);
    TaskSpan(r, 3, 84, 7, 140);
    TaskSpan(r, 9, 152, 12, 164);
  }

  // ---------------------------------------------------------------- the state machine

  /** A shared-memory object: the ready flag and the 20 bytes behind it. */
  datatype Shm = Shm(flag: byte, bytes: Id)

  /** The leader in tpb_k_create_capsule_task, then in tpb_k_unlink_capsule_sync_shm. */
  datatype Leader =
    | LStart | LCreating | LRecorded | LLogged | LUnlinked
    | LOpened(o: nat) | LCopying(o: nat, k: nat) | LDone | LGone

  /** Another rank in tpb_k_sync_capsule_task, then in tpb_k_append_capsule_task. */
  datatype Rank =
    | RStart | RMapped(o: nat) | RCopying(o: nat, k: nat, buf: seq<byte>) | RSynced(id: seq<byte>)
    | RLocked | RWriting(e: nat, size: u64, k: nat) | RDone | RFailed

  /** What does not change: capsule ID, leader's task and its attributes, the other ranks' tasks. */
  datatype Job = Job(c: Id, lead: Id, src: seq<seq<byte>>, ids: seq<Id>) {
    predicate Valid() {
      Lengths(src) == SchemaOf(Task).widths && 20 * |ids| + 60 < TWO63
    }

    /** The record as the leader writes it. */
    function First(): Record
      requires |src| == 16
    {
      CapsuleRecord(src, c, lead)
    }
  }

  /** Shared-memory objects, the object the name is bound to, the capsule file, the participants,
      and, as history, the ranks in the order in which they finished appending. */
  datatype State = State(objs: seq<Shm>, name: Option<nat>, file: Option<seq<byte>>,
                         leader: Leader, ranks: seq<Rank>, order: seq<nat>)

  predicate Holds(r: Rank) {
    r.RLocked? || r.RWriting?
  }

  predicate LockFree(rs: seq<Rank>) {
    forall i :: 0 <= i < |rs| ==> !Holds(rs[i])
  }

  function SetObj(s: State, o: nat, m: Shm): State {
    if o < |s.objs| then s.(objs := s.objs[o := m]) else s
  }

  function LeaderStep(j: Job, s: State): State
    requires |j.src| == 16 && j.Valid()
  {
    match s.leader
    case LStart => s.(leader := LCreating, file := Some([]))
    case LCreating => s.(leader := LRecorded, file := Some(FirstImage(j)))
    case LRecorded => s.(leader := LLogged)
    case LLogged => s.(leader := LUnlinked, name := None)
    case LUnlinked =>
      if s.name.Some? then s.(leader := LOpened(s.name.value))
      else s.(leader := LOpened(|s.objs|), objs := s.objs + [Shm(0, Zeros(20))], name := Some(|s.objs|))
    case LOpened(o) => SetObj(s, o, Shm(0, Zeros(20))).(leader := LCopying(o, 0))
    case LCopying(o, k) =>
      if o < |s.objs| then
        if k < 20 then SetObj(s, o, s.objs[o].(bytes := s.objs[o].bytes[k := j.c[k]])).(leader := LCopying(o, k + 1))
        else SetObj(s, o, s.objs[o].(flag := 1)).(leader := LDone)
      else s
    case LDone => s.(leader := LGone, name := None)
    case LGone => s
  }

  function FirstImage(j: Job): seq<byte>
    requires |j.src| == 16 && j.Valid()
  {
    CapsuleRecordFits(j.src, j.c, j.lead);
    Image(SchemaOf(Task), j.First())
  }

  predicate RankEnabled(s: State, i: nat) {
    i < |s.ranks| && (s.ranks[i].RSynced? ==> LockFree(s.ranks))
  }

  function SetRank(s: State, i: nat, r: Rank): State
    requires i < |s.ranks|
  {
    s.(ranks := s.ranks[i := r])
  }

  /** A rank whose ID is not this capsule's opens some other file: it is taken to fail. */
  function RankStep(j: Job, s: State, i: nat): State
    requires RankEnabled(s, i) && |j.ids| == |s.ranks|
  {
    match s.ranks[i]
    case RStart => if s.name.Some? then SetRank(s, i, RMapped(s.name.value)) else s
    case RMapped(o) => if o < |s.objs| && s.objs[o].flag != 0 then SetRank(s, i, RCopying(o, 0, [])) else s
    case RCopying(o, k, buf) =>
      if o >= |s.objs| then s
      else if k < 20 then SetRank(s, i, RCopying(o, k + 1, buf + [s.objs[o].bytes[k]]))
      else SetRank(s, i, RSynced(buf))
    case RSynced(id) =>
      if id == j.c && s.file.Some? then SetRank(s, i, RLocked) else SetRank(s, i, RFailed)
    case RLocked =>
      if s.file.Some? && Accepts(s.file.value) then
        var f := s.file.value;
        SetRank(s, i, RWriting(EndOff(SizeOf(f), NdimOf(f)), PlusId(SizeOf(f)), 0))
      else SetRank(s, i, RFailed)
    case RWriting(e, size, k) =>
      if s.file.Some? && k < 5 then
        var w := Edits(e, size, j.ids[i])[k];
        SetRank(s, i, RWriting(e, size, k + 1)).(file := Some(Overwrite(s.file.value, w.off, w.bytes)))
      else SetRank(s, i, RDone).(order := s.order + [i])
    case RDone => s
    case RFailed => s
  }

  datatype Turn = TurnLeader | TurnRank(i: nat)

  predicate Enabled(s: State, t: Turn) {
    t.TurnRank? ==> RankEnabled(s, t.i)
  }

  function Next(j: Job, s: State, t: Turn): State
    requires |j.src| == 16 && j.Valid() && |j.ids| == |s.ranks| && Enabled(s, t)
  {
    match t
    case TurnLeader => LeaderStep(j, s)
    case TurnRank(i) => RankStep(j, s, i)
  }

  // ---------------------------------------------------------------- the invariant

  predicate Published(l: Leader) {
    l.LDone? || l.LGone?
  }

  /** The TaskRecordIDs of the ranks in `order`. */
  function IdsOf(j: Job, order: seq<nat>): (ids: seq<seq<byte>>)
    ensures |ids| == |order| && forall i :: 0 <= i < |ids| ==> |ids[i]| == 20
  {
    seq(|order|, i requires 0 <= i < |order| => if order[i] < |j.ids| then j.ids[order[i]] else Zeros(20))
  }

  /** The capsule record once the ranks in `order` have appended. */
  function Holding(j: Job, order: seq<nat>): (r: Record)
    requires j.Valid() && |order| <= |j.ids|
    ensures IsCapsule(r) && r.headers[0].ndim >= 1
    ensures |r.payload| == 20 + 20 * |order|
  {
    CapsuleRecordFits(j.src, j.c, j.lead);
    HoldingLen(CapsuleRecord(j.src, j.c, j.lead), IdsOf(j, order));
    GrownAll(CapsuleRecord(j.src, j.c, j.lead), IdsOf(j, order))
  }

  lemma {:induction false} HoldingLen(r: Record, ids: seq<seq<byte>>)
    requires IsCapsule(r) && r.headers[0].ndim >= 1
    requires (forall i :: 0 <= i < |ids| ==> |ids[i]| == 20) && |r.payload| + 20 * |ids| + 20 < TWO63
    ensures |GrownAll(r, ids).payload| == |r.payload| + 20 * |ids|
    decreases ids
  {
    hide SchemaOf;
    if ids != [] {
      HoldingLen(Grown(r, ids[0]), ids[1..]);
    }
  }

  /** An object that is flagged ready carries the capsule ID, and the leader is done with it. */
  predicate ShmOk(j: Job, s: State) {
    && (forall o :: 0 <= o < |s.objs| && s.objs[o].flag != 0 ==> Published(s.leader) && s.objs[o].bytes == j.c)
    && (s.name.Some? ==> s.name.value < |s.objs|)
    && match s.leader
       case LOpened(o) => o < |s.objs|
       case LCopying(o, k) => o < |s.objs| && k <= 20 && s.objs[o].flag == 0 && s.objs[o].bytes[..k] == j.c[..k]
       case _ => true
  }

  predicate RankOk(j: Job, s: State, r: Rank) {
    match r
    case RStart => true
    case RMapped(o) => o < |s.objs|
    case RCopying(o, k, buf) => o < |s.objs| && s.objs[o].flag != 0 && k <= 20 && buf == s.objs[o].bytes[..k]
    case RSynced(id) => Published(s.leader) && id == j.c
    case RLocked => Published(s.leader)
    case RWriting(_, _, _) => Published(s.leader)
    case RDone => Published(s.leader)
    case RFailed => false
  }

  predicate OneHolder(rs: seq<Rank>) {
    forall i, k :: 0 <= i < |rs| && 0 <= k < |rs| && Holds(rs[i]) && Holds(rs[k]) ==> i == k
  }

  function DoneCount(rs: seq<Rank>): (n: nat)
    ensures n <= |rs|
  {
    if rs == [] then 0 else (if rs[0].RDone? then 1 else 0) + DoneCount(rs[1..])
  }

  predicate OrderOk(s: State) {
    |s.order| == DoneCount(s.ranks) && Ordered(s.ranks, s.order)
  }

  /** The capsule file as it must stand: the record of the finished appends, with as many of the
      writes of the append in progress as that has made. */
  predicate FileIs(l: Leader, file: Option<seq<byte>>, rs: seq<Rank>, ids: seq<Id>, r: Record)
    requires IsCapsule(r) && |ids| == |rs|
  {
    match l
    case LStart => file == None
    case LCreating => file == Some([])
    case _ =>
      && ((forall i :: 0 <= i < |rs| ==> !rs[i].RWriting?) ==> file == Some(Image(SchemaOf(Task), r)))
      && (forall i :: 0 <= i < |rs| && rs[i].RWriting? ==> WriterOk(file, rs[i], ids[i], r))
  }

  predicate WriterOk(file: Option<seq<byte>>, q: Rank, id: Id, r: Record)
    requires IsCapsule(r) && q.RWriting?
  {
    && q.e == E(r) && q.size == |r.payload| + 20 && q.k <= 5
    && file == Some(Apply(Image(SchemaOf(Task), r), Edits(q.e, q.size, id)[..q.k]))
  }

  predicate FileOk(j: Job, s: State)
    requires j.Valid() && |s.order| <= |j.ids| && |j.ids| == |s.ranks|
  {
    FileIs(s.leader, s.file, s.ranks, j.ids, Holding(j, s.order))
  }

  predicate Inv(j: Job, s: State) {
    && j.Valid() && |j.ids| == |s.ranks| && OrderOk(s)
    && ShmOk(j, s) && OneHolder(s.ranks) && FileOk(j, s)
    && forall i :: 0 <= i < |s.ranks| ==> RankOk(j, s, s.ranks[i])
  }

  // ---------------------------------------------------------------- the leader's steps

  /** While the leader is still at work, no rank is past waiting. */
  predicate Waiting(rs: seq<Rank>) {
    forall i :: 0 <= i < |rs| ==> rs[i].RStart? || rs[i].RMapped?
  }

  lemma {:induction false} NoneDone(rs: seq<Rank>)
    requires Waiting(rs)
    ensures DoneCount(rs) == 0
    decreases rs
  {
    if rs != [] {
      NoneDone(rs[1..]);
    }
  }

  lemma NotYetPublished(j: Job, s: State)
    requires Inv(j, s) && !Published(s.leader)
    ensures Waiting(s.ranks) && s.order == []
  {
    hide FileOk;
    hide SchemaOf;
    hide DoneCount;
    forall i | 0 <= i < |s.ranks|
      ensures s.ranks[i].RStart? || s.ranks[i].RMapped?
    {
      assert RankOk(j, s, s.ranks[i]);
    }
    NoneDone(s.ranks);
  }

  lemma LeaderShm(j: Job, s: State)
    requires j.Valid() && |j.src| == 16 && ShmOk(j, s)
    ensures ShmOk(j, LeaderStep(j, s))
    ensures |LeaderStep(j, s).objs| >= |s.objs|
  {
    hide FirstImage;
    hide CapsuleRecord;
    hide Lengths;
    match s.leader
    case LCopying(o, k) =>
      if k < 20 {
        var m := s.objs[o].bytes[k := j.c[k]];
        assert m[..k + 1] == m[..k] + [m[k]] && m[..k] == s.objs[o].bytes[..k];
        assert j.c[..k + 1] == j.c[..k] + [j.c[k]];
      } else {
        assert s.objs[o].bytes[..20] == s.objs[o].bytes && j.c[..20] == j.c;
      }
    case _ =>
  }

  lemma LeaderFile(j: Job, s: State, r: Record)
    requires j.Valid() && |j.src| == 16 && |j.ids| == |s.ranks| && Waiting(s.ranks)
    requires IsCapsule(r) && Image(SchemaOf(Task), r) == FirstImage(j)
    requires FileIs(s.leader, s.file, s.ranks, j.ids, r)
    ensures var s' := LeaderStep(j, s); FileIs(s'.leader, s'.file, s.ranks, j.ids, r)
  {
    hide Image;
    hide SchemaOf;
    hide FirstImage;
    hide IsCapsule;
    hide Lengths;
  }

  lemma HoldingNothing(j: Job)
    requires j.Valid()
    ensures |j.src| == 16 && FirstImage(j) == Image(SchemaOf(Task), Holding(j, []))
  {
    hide Image;
    hide SchemaOf;
    hide IsCapsule;
    CapsuleRecordFits(j.src, j.c, j.lead);
    assert IdsOf(j, []) == [];
  }

  lemma LeaderLeaves(j: Job, s: State)
    requires j.Valid() && |j.src| == 16
    ensures LeaderStep(j, s).ranks == s.ranks && LeaderStep(j, s).order == s.order
    ensures Published(s.leader) ==>
            var s' := LeaderStep(j, s);
            Published(s'.leader) && s'.objs == s.objs && s'.file == s.file
  {
    hide FirstImage;
    hide SchemaOf;
    hide Lengths;
  }

  lemma RanksStillOk(j: Job, s: State, s': State)
    requires forall i :: 0 <= i < |s.ranks| ==> RankOk(j, s, s.ranks[i])
    requires s'.ranks == s.ranks && |s'.objs| >= |s.objs|
    requires (Published(s.leader) && Published(s'.leader) && s'.objs == s.objs) || Waiting(s.ranks)
    ensures forall i :: 0 <= i < |s'.ranks| ==> RankOk(j, s', s'.ranks[i])
  {
    forall i | 0 <= i < |s'.ranks|
      ensures RankOk(j, s', s'.ranks[i])
    {
      assert RankOk(j, s, s.ranks[i]);
    }
  }

  lemma LeaderKeeps(j: Job, s: State)
    requires Inv(j, s) && |j.src| == 16
    ensures Inv(j, LeaderStep(j, s))
  {
    hide LeaderStep;
    hide RankOk;
    hide ShmOk;
    hide FileIs;
    hide OrderOk;
    hide Holding;
    hide SchemaOf;
    var s' := LeaderStep(j, s);
    LeaderShm(j, s);
    LeaderLeaves(j, s);
    OrderSame(s, s');
    if Published(s.leader) {
      RanksStillOk(j, s, s');
      PublishedFile(s.leader, s'.leader, s.file, s.ranks, j.ids, Holding(j, s.order));
    } else {
      NotYetPublished(j, s);
      HoldingNothing(j);
      LeaderFile(j, s, Holding(j, []));
      RanksStillOk(j, s, s');
    }
  }

  lemma OrderSame(s: State, s': State)
    requires OrderOk(s) && s'.ranks == s.ranks && s'.order == s.order
    ensures OrderOk(s') && |s.order| <= |s.ranks|
  {
  }

  lemma PublishedFile(l: Leader, l': Leader, file: Option<seq<byte>>, rs: seq<Rank>, ids: seq<Id>, r: Record)
    requires IsCapsule(r) && |ids| == |rs| && FileIs(l, file, rs, ids, r) && Published(l) && Published(l')
    ensures FileIs(l', file, rs, ids, r)
  {
    hide IsCapsule;
    hide WriterOk;
    hide Image;
  }

  // ---------------------------------------------------------------- the ranks' steps

  /** A rank's step leaves shared memory, the leader and the other ranks alone. */
  lemma RankLeaves(j: Job, s: State, i: nat)
    requires RankEnabled(s, i) && |j.ids| == |s.ranks|
    ensures var s' := RankStep(j, s, i);
            && s'.objs == s.objs && s'.name == s.name && s'.leader == s.leader
            && |s'.ranks| == |s.ranks| && s'.ranks == s.ranks[i := s'.ranks[i]]
            && s'.order == (if s.ranks[i].RWriting? && s'.ranks[i].RDone? then s.order + [i] else s.order)
            && (s'.ranks[i].RDone? ==> s.ranks[i].RDone? || s.ranks[i].RWriting?)
            && (s.ranks[i].RDone? ==> s'.ranks[i].RDone?)
            && (!s.ranks[i].RWriting? ==> s'.file == s.file)
  {
    hide Accepts;
    hide Edits;
    hide EndOff;
    hide SizeOf;
    hide NdimOf;
    hide Overwrite;
  }

  lemma RankHolder(j: Job, s: State, i: nat)
    requires RankEnabled(s, i) && |j.ids| == |s.ranks| && OneHolder(s.ranks)
    ensures OneHolder(RankStep(j, s, i).ranks)
  {
    RankLeaves(j, s, i);
    RankTakes(j, s, i);
    hide RankStep;
  }

  lemma RankTakes(j: Job, s: State, i: nat)
    requires RankEnabled(s, i) && |j.ids| == |s.ranks|
    ensures Holds(RankStep(j, s, i).ranks[i]) ==> Holds(s.ranks[i]) || LockFree(s.ranks)
  {
    hide Accepts;
    hide Edits;
    hide EndOff;
    hide SizeOf;
    hide NdimOf;
    hide Overwrite;
  }

  lemma {:induction false} DoneSet(rs: seq<Rank>, i: nat, r: Rank)
    requires i < |rs|
    ensures DoneCount(rs[i := r]) + (if rs[i].RDone? then 1 else 0) == DoneCount(rs) + (if r.RDone? then 1 else 0)
    decreases rs
  {
    if i == 0 {
      assert rs[0 := r][1..] == rs[1..];
    } else {
      DoneSet(rs[1..], i - 1, r);
      assert rs[i := r][1..] == rs[1..][i - 1 := r];
    }
  }

  lemma RankOrder(j: Job, s: State, i: nat)
    requires RankEnabled(s, i) && |j.ids| == |s.ranks| && OrderOk(s)
    ensures OrderOk(RankStep(j, s, i))
  {
    RankLeaves(j, s, i);
    var s' := RankStep(j, s, i);
    hide RankStep;
    hide RankEnabled;
    hide DoneCount;
    DoneSet(s.ranks, i, s'.ranks[i]);
    if s.ranks[i].RWriting? && s'.ranks[i].RDone? {
      OrderGrows(s.ranks, s.order, i, s'.ranks[i]);
    } else {
      OrderStays(s.ranks, s.order, i, s'.ranks[i]);
    }
  }

  /** The ranks in the order are done, each once. */
  predicate Ordered(rs: seq<Rank>, order: seq<nat>) {
    && (forall i :: 0 <= i < |order| ==> order[i] < |rs| && rs[order[i]].RDone?)
    && (forall i, k :: 0 <= i < k < |order| ==> order[i] != order[k])
  }

  lemma OrderGrows(rs: seq<Rank>, order: seq<nat>, i: nat, r: Rank)
    requires Ordered(rs, order) && i < |rs| && !rs[i].RDone? && r.RDone?
    ensures Ordered(rs[i := r], order + [i])
  {
    var ss, next := rs[i := r], order + [i];
    forall k | 0 <= k < |next|
      ensures next[k] < |ss| && ss[next[k]].RDone? && (k < |order| ==> next[k] != i)
    {
    }
  }

  lemma OrderStays(rs: seq<Rank>, order: seq<nat>, i: nat, r: Rank)
    requires Ordered(rs, order) && i < |rs| && (rs[i].RDone? ==> r.RDone?)
    ensures Ordered(rs[i := r], order)
  {
  }

  lemma RanksOk(j: Job, s: State, i: nat)
    requires RankEnabled(s, i) && |j.ids| == |s.ranks| && ShmOk(j, s)
    requires forall k :: 0 <= k < |s.ranks| ==> RankOk(j, s, s.ranks[k])
    requires s.ranks[i].RSynced? || s.ranks[i].RLocked? ==> s.file.Some?
    requires s.ranks[i].RLocked? ==> Accepts(s.file.value)
    ensures var s' := RankStep(j, s, i); forall k :: 0 <= k < |s'.ranks| ==> RankOk(j, s', s'.ranks[k])
  {
    RankLeaves(j, s, i);
    MoverOk(j, s, i);
    var s' := RankStep(j, s, i);
    hide RankStep;
    hide ShmOk;
    forall k | 0 <= k < |s'.ranks|
      ensures RankOk(j, s', s'.ranks[k])
    {
      assert RankOk(j, s, s.ranks[k]);
    }
  }

  lemma MoverOk(j: Job, s: State, i: nat)
    requires RankEnabled(s, i) && |j.ids| == |s.ranks| && ShmOk(j, s) && RankOk(j, s, s.ranks[i])
    requires s.ranks[i].RSynced? || s.ranks[i].RLocked? ==> s.file.Some?
    requires s.ranks[i].RLocked? ==> Accepts(s.file.value)
    ensures (RankLeaves(j, s, i); RankOk(j, RankStep(j, s, i), RankStep(j, s, i).ranks[i]))
  {
    hide Accepts;
    hide Edits;
    hide EndOff;
    hide SizeOf;
    hide NdimOf;
    hide Overwrite;
    match s.ranks[i]
    case RCopying(o, k, buf) =>
      if k < 20 {
        assert s.objs[o].bytes[..k + 1] == s.objs[o].bytes[..k] + [s.objs[o].bytes[k]];
      } else {
        assert s.objs[o].bytes[..20] == s.objs[o].bytes;
      }
    case _ =>
  }

  // ---------------------------------------------------------------- the file under the ranks' steps

  /** The rank that holds the lock without having written finds the file whole and acceptable. */
  lemma LockedFile(j: Job, s: State, i: nat, r: Record)
    requires |j.ids| == |s.ranks| && i < |s.ranks| && s.ranks[i].RLocked? && OneHolder(s.ranks)
    requires IsCapsule(r) && r.headers[0].ndim >= 1 && Published(s.leader)
    requires FileIs(s.leader, s.file, s.ranks, j.ids, r)
    ensures s.file == Some(Image(SchemaOf(Task), r)) && Accepts(s.file.value)
    ensures EndOff(SizeOf(s.file.value), NdimOf(s.file.value)) == E(r)
    ensures PlusId(SizeOf(s.file.value)) == |r.payload| + 20
  {
    hide Image;
    hide Accepts;
    hide SchemaOf;
    hide WriterOk;
    hide SizeOf;
    hide NdimOf;
    hide EndOff;
    assert forall k :: 0 <= k < |s.ranks| && s.ranks[k].RWriting? ==> Holds(s.ranks[k]) && Holds(s.ranks[i]);
    CapsuleAccepted(Image(SchemaOf(Task), r), r);
  }

  /** A file with no writer at work, whichever ranks wait or hold the lock. */
  lemma QuietFile(l: Leader, file: Option<seq<byte>>, rs: seq<Rank>, rs': seq<Rank>, ids: seq<Id>, r: Record)
    requires IsCapsule(r) && |ids| == |rs| == |rs'| && FileIs(l, file, rs, ids, r)
    requires forall k :: 0 <= k < |rs| ==> (rs'[k] == rs[k] || (!rs[k].RWriting? && !rs'[k].RWriting?))
    ensures FileIs(l, file, rs', ids, r)
  {
    hide IsCapsule;
    hide WriterOk;
    hide Image;
    if forall k :: 0 <= k < |rs'| ==> !rs'[k].RWriting? {
      assert forall k :: 0 <= k < |rs| ==> !rs[k].RWriting?;
    }
  }

  /** The file while rank i, and no other, is writing. */
  lemma WritingFile(l: Leader, file: Option<seq<byte>>, rs: seq<Rank>, i: nat, ids: seq<Id>, r: Record)
    requires IsCapsule(r) && |ids| == |rs| && i < |rs| && rs[i].RWriting? && OneHolder(rs) && Published(l)
    requires WriterOk(file, rs[i], ids[i], r)
    ensures FileIs(l, file, rs, ids, r)
  {
    hide IsCapsule;
    hide WriterOk;
    hide Image;
    assert forall k :: 0 <= k < |rs| && rs[k].RWriting? ==> Holds(rs[k]) && Holds(rs[i]);
  }

  lemma WriteStarts(id: Id, r: Record)
    requires IsCapsule(r)
    ensures WriterOk(Some(Image(SchemaOf(Task), r)), RWriting(E(r), |r.payload| + 20, 0), id, r)
  {
    hide Image;
    hide IsCapsule;
    hide SchemaOf;
    hide E;
  }

  lemma WriteContinues(file: Option<seq<byte>>, q: Rank, id: Id, r: Record)
    requires IsCapsule(r) && q.RWriting? && WriterOk(file, q, id, r) && q.k < 5
    ensures var w := Edits(q.e, q.size, id)[q.k];
            WriterOk(Some(Overwrite(file.value, w.off, w.bytes)), RWriting(q.e, q.size, q.k + 1), id, r)
  {
    hide Image;
    hide SchemaOf;
    hide E;
    hide Overwrite;
    hide Apply;
    var es := Edits(q.e, q.size, id);
    assert |es| == 5;
    hide Edits;
    assert es[..q.k + 1] == es[..q.k] + [es[q.k]];
    ApplySnoc(Image(SchemaOf(Task), r), es[..q.k], es[q.k]);
  }

  lemma WriteEnds(file: Option<seq<byte>>, q: Rank, id: Id, r: Record)
    requires IsCapsule(r) && r.headers[0].ndim >= 1 && q.RWriting? && WriterOk(file, q, id, r) && q.k == 5
    ensures file == Some(Image(SchemaOf(Task), Grown(r, id)))
  {
    hide Image;
    hide SchemaOf;
    hide E;
    hide Apply;
    hide Accepts;
    hide Patched;
    var es := Edits(q.e, q.size, id);
    assert es[..5] == es;
    hide Edits;
    PatchedIs(Image(SchemaOf(Task), r), r, id);
    AppendRefines(r, id);
  }

  lemma {:induction false} GrownAllSnoc(r: Record, ids: seq<seq<byte>>, id: Id)
    requires IsCapsule(r) && r.headers[0].ndim >= 1
    requires (forall i :: 0 <= i < |ids| ==> |ids[i]| == 20) && |r.payload| + 20 * |ids| + 40 < TWO63
    ensures GrownAll(r, ids + [id]) == Grown(GrownAll(r, ids), id)
    decreases ids
  {
    hide SchemaOf;
    if ids == [] {
      assert [] + [id] == [id] && [id][1..] == [];
    } else {
      assert (ids + [id])[1..] == ids[1..] + [id];
      GrownAllSnoc(Grown(r, ids[0]), ids[1..], id);
    }
  }

  lemma HoldingSnoc(j: Job, order: seq<nat>, i: nat)
    requires j.Valid() && |order| < |j.ids| && i < |j.ids|
    ensures Holding(j, order + [i]) == Grown(Holding(j, order), j.ids[i])
  {
    CapsuleRecordFits(j.src, j.c, j.lead);
    hide IsCapsule;
    hide SchemaOf;
    hide CapsuleRecord;
    assert IdsOf(j, order + [i]) == IdsOf(j, order) + [j.ids[i]];
    FirstPayload(j);
    GrownAllSnoc(CapsuleRecord(j.src, j.c, j.lead), IdsOf(j, order), j.ids[i]);
  }

  lemma FirstPayload(j: Job)
    requires |j.src| == 16
    ensures var r := CapsuleRecord(j.src, j.c, j.lead); |r.payload| == 20 && |r.headers| == 1 && r.headers[0].ndim >= 1
  {
  }

  /** The waiting and copying stages neither write nor start to. */
  lemma QuietTurn(j: Job, s: State, i: nat)
    requires RankEnabled(s, i) && |j.ids| == |s.ranks| && !s.ranks[i].RLocked? && !s.ranks[i].RWriting?
    ensures var s' := RankStep(j, s, i);
            !s'.ranks[i].RWriting? && s'.file == s.file && s'.order == s.order
  {
  }

  lemma LockedTurn(j: Job, s: State, i: nat, r: Record)
    requires RankEnabled(s, i) && |j.ids| == |s.ranks| && s.ranks[i].RLocked? && OneHolder(s.ranks)
    requires IsCapsule(r) && r.headers[0].ndim >= 1 && Published(s.leader)
    requires FileIs(s.leader, s.file, s.ranks, j.ids, r)
    ensures var s' := RankStep(j, s, i);
            FileIs(s.leader, s'.file, s'.ranks, j.ids, r) && s'.order == s.order
  {
    hide Image;
    hide Accepts;
    hide SchemaOf;
    hide SizeOf;
    hide NdimOf;
    hide EndOff;
    hide FileIs;
    hide WriterOk;
    hide IsCapsule;
    LockedFile(j, s, i, r);
    RankHolder(j, s, i);
    WriteStarts(j.ids[i], r);
    WritingFile(s.leader, s.file, RankStep(j, s, i).ranks, i, j.ids, r);
  }

  lemma OnlyWriter(rs: seq<Rank>, i: nat)
    requires i < |rs| && OneHolder(rs) && Holds(rs[i])
    ensures forall k :: 0 <= k < |rs| && k != i ==> !rs[k].RWriting?
  {
    assert forall k :: 0 <= k < |rs| && rs[k].RWriting? ==> Holds(rs[k]);
  }

  lemma WholeFile(l: Leader, rs: seq<Rank>, ids: seq<Id>, r: Record)
    requires IsCapsule(r) && |ids| == |rs| && Published(l) && forall k :: 0 <= k < |rs| ==> !rs[k].RWriting?
    ensures FileIs(l, Some(Image(SchemaOf(Task), r)), rs, ids, r)
  {
    hide IsCapsule;
    hide Image;
  }

  lemma FileWriter(l: Leader, file: Option<seq<byte>>, rs: seq<Rank>, i: nat, ids: seq<Id>, r: Record)
    requires IsCapsule(r) && |ids| == |rs| && FileIs(l, file, rs, ids, r) && Published(l)
    requires i < |rs| && rs[i].RWriting?
    ensures WriterOk(file, rs[i], ids[i], r)
  {
    hide IsCapsule;
    hide WriterOk;
    hide Image;
  }

  lemma WritingTurn(j: Job, s: State, i: nat, r: Record)
    requires RankEnabled(s, i) && |j.ids| == |s.ranks| && s.ranks[i].RWriting? && OneHolder(s.ranks)
    requires IsCapsule(r) && r.headers[0].ndim >= 1 && Published(s.leader)
    requires FileIs(s.leader, s.file, s.ranks, j.ids, r)
    ensures var s' := RankStep(j, s, i);
            if s.ranks[i].k < 5 then FileIs(s.leader, s'.file, s'.ranks, j.ids, r) && s'.order == s.order
            else s'.file == Some(Image(SchemaOf(Task), Grown(r, j.ids[i]))) && s'.order == s.order + [i]
                 && forall k :: 0 <= k < |s'.ranks| ==> !s'.ranks[k].RWriting?
  {
    hide Image;
    hide SchemaOf;
    hide FileIs;
    hide IsCapsule;
    hide Edits;
    hide Overwrite;
    hide E;
    hide Apply;
    var q := s.ranks[i];
    FileWriter(s.leader, s.file, s.ranks, i, j.ids, r);
    OnlyWriter(s.ranks, i);
    if q.k < 5 {
      WriteContinues(s.file, q, j.ids[i], r);
      RankHolder(j, s, i);
      hide WriterOk;
      WritingFile(s.leader, RankStep(j, s, i).file, RankStep(j, s, i).ranks, i, j.ids, r);
    } else {
      WriteEnds(s.file, q, j.ids[i], r);
    }
  }

  lemma RankFile(j: Job, s: State, i: nat)
    requires Inv(j, s) && RankEnabled(s, i)
    ensures |RankStep(j, s, i).order| <= |j.ids| == |RankStep(j, s, i).ranks|
    ensures FileOk(j, RankStep(j, s, i))
  {
    hide FileIs;
    hide IsCapsule;
    hide Holding;
    hide SchemaOf;
    hide ShmOk;
    RankLeaves(j, s, i);
    RankOrder(j, s, i);
    assert RankOk(j, s, s.ranks[i]);
    var s', r := RankStep(j, s, i), Holding(j, s.order);
    if s.ranks[i].RLocked? {
      LockedTurn(j, s, i, r);
    } else if s.ranks[i].RWriting? {
      WritingTurn(j, s, i, r);
      if s.ranks[i].k >= 5 {
        WriterAtEnd(j, s, i);
        HoldingSnoc(j, s.order, i);
        WholeFile(s.leader, s'.ranks, j.ids, Holding(j, s'.order));
      }
    } else {
      QuietTurn(j, s, i);
      hide RankStep;
      QuietFile(s.leader, s.file, s.ranks, s'.ranks, j.ids, r);
    }
  }

  /** There is room in the order for a rank that is not in it yet. */
  lemma WriterAtEnd(j: Job, s: State, i: nat)
    requires OrderOk(s) && |j.ids| == |s.ranks| && i < |s.ranks| && !s.ranks[i].RDone?
    ensures |s.order| < |j.ids|
  {
    DoneSet(s.ranks, i, RDone);
  }

  lemma RankKeeps(j: Job, s: State, i: nat)
    requires Inv(j, s) && RankEnabled(s, i)
    ensures Inv(j, RankStep(j, s, i))
  {
    hide FileIs;
    hide SchemaOf;
    hide IsCapsule;
    hide Holding;
    hide RankStep;
    hide OrderOk;
    hide OneHolder;
    hide Accepts;
    assert RankOk(j, s, s.ranks[i]);
    SyncedPublished(j, s, s.ranks[i]);
    hide RankOk;
    RankLeaves(j, s, i);
    RankOrder(j, s, i);
    RankHolder(j, s, i);
    RankFile(j, s, i);
    FileReady(j, s, i);
    RanksOk(j, s, i);
    ShmSame(j, s, RankStep(j, s, i));
  }

  lemma SyncedPublished(j: Job, s: State, r: Rank)
    requires RankOk(j, s, r)
    ensures r.RSynced? || r.RLocked? ==> Published(s.leader)
  {
  }

  lemma ShmSame(j: Job, s: State, s': State)
    requires ShmOk(j, s) && s'.objs == s.objs && s'.name == s.name && s'.leader == s.leader
    ensures ShmOk(j, s')
  {
  }

  /** When a rank locks or checks the file, the file is there, and whole. */
  lemma FileReady(j: Job, s: State, i: nat)
    requires Inv(j, s) && i < |s.ranks|
    ensures Published(s.leader) ==> s.file.Some?
    ensures s.ranks[i].RLocked? ==> s.file.Some? && Accepts(s.file.value)
  {
    hide SchemaOf;
    hide IsCapsule;
    hide Holding;
    hide Image;
    hide Accepts;
    hide ShmOk;
    assert RankOk(j, s, s.ranks[i]);
    if Published(s.leader) {
      PublishedHasFile(s.leader, s.file, s.ranks, j.ids, Holding(j, s.order));
    }
    hide FileIs;
    if s.ranks[i].RLocked? {
      LockedFile(j, s, i, Holding(j, s.order));
    }
  }

  lemma PublishedHasFile(l: Leader, file: Option<seq<byte>>, rs: seq<Rank>, ids: seq<Id>, r: Record)
    requires IsCapsule(r) && |ids| == |rs| && FileIs(l, file, rs, ids, r) && Published(l)
    ensures file.Some?
  {
    hide IsCapsule;
    hide Image;
    if k: nat :| k < |rs| && rs[k].RWriting? {
      assert WriterOk(file, rs[k], ids[k], r);
    }
  }

  // ---------------------------------------------------------------- every run

  lemma InvNext(j: Job, s: State, t: Turn)
    requires Inv(j, s) && |j.src| == 16 && Enabled(s, t)
    ensures Inv(j, Next(j, s, t)) && |Next(j, s, t).ranks| == |s.ranks|
  {
    hide ShmOk;
    hide FileOk;
    hide OrderOk;
    hide OneHolder;
    hide SchemaOf;
    hide LeaderStep;
    hide RankStep;
    match t
    case TurnLeader =>
      LeaderKeeps(j, s);
      LeaderLeaves(j, s);
    case TurnRank(i) =>
      RankKeeps(j, s, i);
      RankLeaves(j, s, i);
  }

  lemma NextRanks(j: Job, s: State, t: Turn)
    requires |j.src| == 16 && j.Valid() && |j.ids| == |s.ranks| && Enabled(s, t)
    ensures |Next(j, s, t).ranks| == |s.ranks|
  {
    hide LeaderStep;
    hide RankStep;
    match t
    case TurnLeader => LeaderLeaves(j, s);
    case TurnRank(i) => RankLeaves(j, s, i);
  }

  /** A run: turns that can be taken one after the other. */
  predicate CanRun(j: Job, s: State, run: seq<Turn>)
    requires |j.src| == 16 && j.Valid() && |j.ids| == |s.ranks|
    decreases run
  {
    run == [] ||
    (Enabled(s, run[0]) && (NextRanks(j, s, run[0]); CanRun(j, Next(j, s, run[0]), run[1..])))
  }

  function Run(j: Job, s: State, run: seq<Turn>): (s': State)
    requires |j.src| == 16 && j.Valid() && |j.ids| == |s.ranks| && CanRun(j, s, run)
    ensures |s'.ranks| == |s.ranks|
    decreases run
  {
    if run == [] then s
    else
      NextRanks(j, s, run[0]);
      Run(j, Next(j, s, run[0]), run[1..])
  }

  lemma {:induction false} InvRun(j: Job, s: State, run: seq<Turn>)
    requires Inv(j, s) && |j.src| == 16 && CanRun(j, s, run)
    ensures Inv(j, Run(j, s, run))
    decreases run
  {
    hide Next;
    hide Enabled;
    if run != [] {
      InvNext(j, s, run[0]);
      InvRun(j, Next(j, s, run[0]), run[1..]);
    }
  }

  /** Nobody has started. The name of the shared-memory object is free, or an earlier run left an
      object behind under it. */
  predicate Initial(j: Job, s: State) {
    && j.Valid() && |j.src| == 16 && |j.ids| == |s.ranks|
    && s.leader == LStart && s.file == None && s.order == []
    && (forall i :: 0 <= i < |s.ranks| ==> s.ranks[i] == RStart)
    && ((s.objs == [] && s.name == None) || (|s.objs| == 1 && s.name == Some(0)))
  }

  /** No object of that name, or one that was never flagged ready. */
  predicate NoStale(s: State) {
    s.objs == [] || s.objs[0].flag == 0
  }

  lemma InvInitial(j: Job, s: State)
    requires Initial(j, s) && NoStale(s)
    ensures Inv(j, s)
  {
    hide SchemaOf;
    hide Image;
    hide Holding;
    NoneDone(s.ranks);
  }

  /** Every rank that has completed its sync got the leader's capsule ID, and the record exists: unless another rank is
      writing to it, an append would accept it. */
  predicate SyncSound(j: Job, s: State) {
    forall i :: 0 <= i < |s.ranks| && s.ranks[i].RSynced? ==>
      && s.ranks[i].id == j.c && s.file.Some?
      && ((forall k :: 0 <= k < |s.ranks| ==> !s.ranks[k].RWriting?) ==> Accepts(s.file.value))
  }

  ghost predicate AlwaysSound(j: Job, s: State)
    requires |j.src| == 16 && j.Valid() && |j.ids| == |s.ranks|
  {
    forall run: seq<Turn> :: CanRun(j, s, run) ==> SyncSound(j, Run(j, s, run))
  }

  lemma InvSound(j: Job, s: State)
    requires Inv(j, s)
    ensures SyncSound(j, s)
  {
    hide SchemaOf;
    hide Holding;
    hide IsCapsule;
    hide Accepts;
    forall i | 0 <= i < |s.ranks| && s.ranks[i].RSynced?
      ensures s.ranks[i].id == j.c && s.file.Some?
      ensures (forall k :: 0 <= k < |s.ranks| ==> !s.ranks[k].RWriting?) ==> Accepts(s.file.value)
    {
      assert RankOk(j, s, s.ranks[i]);
      FileReady(j, s, i);
      if forall k :: 0 <= k < |s.ranks| ==> !s.ranks[k].RWriting? {
        QuietAccepts(s.leader, s.file, s.ranks, j.ids, Holding(j, s.order));
      }
    }
  }

  lemma QuietAccepts(l: Leader, file: Option<seq<byte>>, rs: seq<Rank>, ids: seq<Id>, r: Record)
    requires IsCapsule(r) && |ids| == |rs| && FileIs(l, file, rs, ids, r) && Published(l)
    requires forall k :: 0 <= k < |rs| ==> !rs[k].RWriting?
    ensures file.Some? && Accepts(file.value)
  {
    assert r.Wf(SchemaOf(Task)) && |r.headers| == 1;
    hide IsCapsule;
    hide Image;
    hide Accepts;
    CapsuleAccepted(Image(SchemaOf(Task), r), r);
  }

  // ---------------------------------------------------------------- an object left behind

  function Repeat(n: nat): seq<Turn> {
    if n == 0 then [] else [TurnRank(0)] + Repeat(n - 1)
  }

  /** Rank 0 alone, from the middle of its copy. */
  lemma {:induction false} CopyOn(j: Job, s: State, k: nat)
    requires |j.src| == 16 && j.Valid() && |j.ids| == |s.ranks| && |s.ranks| > 0 && |s.objs| == 1 && k <= 20
    requires s.ranks[0].RCopying? && s.ranks[0].o == 0 && s.ranks[0].k == k
    ensures CanRun(j, s, Repeat(21 - k))
    ensures var t := Run(j, s, Repeat(21 - k));
            |t.ranks| > 0 && t.ranks[0].RSynced? && t.leader == s.leader && t.file == s.file
    decreases 21 - k
  {
    hide SchemaOf;
    var s' := Next(j, s, TurnRank(0));
    assert Repeat(21 - k)[0] == TurnRank(0) && Repeat(21 - k)[1..] == Repeat(20 - k);
    NextRanks(j, s, TurnRank(0));
    if k < 20 {
      CopyOn(j, s', k + 1);
    } else {
      assert Repeat(0) == [];
    }
  }

  /** An object left behind with its flag set breaks the protocol: a rank that runs first completes
      its sync before there is any record. */
  lemma StaleBreaks(j: Job, s: State)
    requires Initial(j, s) && !NoStale(s) && |s.ranks| > 0
    ensures CanRun(j, s, Repeat(23)) && !SyncSound(j, Run(j, s, Repeat(23)))
  {
    hide SchemaOf;
    var s1 := Next(j, s, TurnRank(0));
    var s2 := Next(j, s1, TurnRank(0));
    assert s1.ranks[0] == RMapped(0);
    assert s2.ranks[0] == RCopying(0, 0, []);
    CopyOn(j, s2, 0);
    assert Repeat(23)[1..] == Repeat(22) && Repeat(22)[1..] == Repeat(21);
  }

  /** Every run is sound exactly when no flagged object was left behind. */
  lemma SoundExactly(j: Job, s: State)
    requires Initial(j, s) && |s.ranks| > 0
    ensures AlwaysSound(j, s) <==> NoStale(s)
  {
    hide SyncSound;
    hide CanRun;
    hide Run;
    if NoStale(s) {
      InvInitial(j, s);
      forall run: seq<Turn> | CanRun(j, s, run)
        ensures SyncSound(j, Run(j, s, run))
      {
        InvRun(j, s, run);
        InvSound(j, Run(j, s, run));
      }
    } else {
      StaleBreaks(j, s);
    }
  }

  // ---------------------------------------------------------------- the finished capsule

  predicate AllDone(rs: seq<Rank>) {
    forall i :: 0 <= i < |rs| ==> rs[i].RDone?
  }

  lemma {:induction false} AllCount(rs: seq<Rank>)
    requires AllDone(rs)
    ensures DoneCount(rs) == |rs|
    decreases rs
  {
    if rs != [] {
      AllCount(rs[1..]);
    }
  }

  /** Once all ranks have appended, the capsule file reads back as the leader's TaskRecordID followed
      by each other rank's exactly once, in the order in which they held the lock. No append fails. */
  lemma CapsuleComplete(j: Job, s: State, run: seq<Turn>)
    requires Initial(j, s) && NoStale(s) && CanRun(j, s, run) && AllDone(Run(j, s, run).ranks) && |s.ranks| > 0
    ensures var t := Run(j, s, run);
            && |t.order| == |j.ids|
            && (forall i :: 0 <= i < |t.order| ==> t.order[i] < |j.ids|)
            && (forall i, k :: 0 <= i < k < |t.order| ==> t.order[i] != t.order[k])
            && t.file.Some?
            && var p := ParseRecord(t.file.value, SchemaOf(Task));
               p.Some? && p.value.attrs == CapsuleAttrs(j.src, j.c)
               && p.value.payload == j.lead + Flat(IdsOf(j, t.order))
  {
    var t := Run(j, s, run);
    CapsuleWritten(j, s, run);
    hide *;
    HoldingIs(j, t.order);
    RoundTrip(SchemaOf(Task), Holding(j, t.order));
  }

  /** The capsule file is then that of the record which holds them all. */
  lemma CapsuleWritten(j: Job, s: State, run: seq<Turn>)
    requires Initial(j, s) && NoStale(s) && CanRun(j, s, run) && AllDone(Run(j, s, run).ranks) && |s.ranks| > 0
    ensures var t := Run(j, s, run);
            && j.Valid() && |j.src| == 16 && |t.order| == |j.ids|
            && (forall i :: 0 <= i < |t.order| ==> t.order[i] < |j.ids|)
            && (forall i, k :: 0 <= i < k < |t.order| ==> t.order[i] != t.order[k])
            && t.file == Some(Image(SchemaOf(Task), Holding(j, t.order)))
            && Holding(j, t.order).Wf(SchemaOf(Task))
  {
    hide Run;
    hide CanRun;
    hide Image;
    hide ShmOk;
    hide OneHolder;
    hide Initial;
    InvInitial(j, s);
    InvRun(j, s, run);
    JobSize(j, s);
    var t := Run(j, s, run);
    AllCount(t.ranks);
    assert RankOk(j, t, t.ranks[0]);
    DoneFile(t.leader, t.file, t.ranks, j.ids, Holding(j, t.order));
  }

  lemma JobSize(j: Job, s: State)
    requires Initial(j, s)
    ensures j.Valid() && |j.src| == 16
  {
    hide SchemaOf;
  }

  /** Field by field: the finished capsule of a leader's task has the attributes of that task's capsule, one
      TaskID header that counts all the IDs, and the IDs. */
  lemma CapsuleCompleteFields(j: Job, s: State, run: seq<Turn>, a: TaskAttr, n: u32)
    requires Initial(j, s) && NoStale(s) && CanRun(j, s, run) && AllDone(Run(j, s, run).ranks) && |s.ranks| > 0
    requires j.src == a.Attrs(n)
    ensures var t, m := Run(j, s, run), 1 + |j.ids|;
            && 20 * m < TWO63 && |j.lead + Flat(IdsOf(j, t.order))| == 20 * m
            && t.file == Some(Image(SchemaOf(Task), TaskRecord(CapsuleOf(a, j.c),
                                                               [FreshHeader("TaskID", 0x102, m, 20 * m)],
                                                               j.lead + Flat(IdsOf(j, t.order)))))
  {
    var t := Run(j, s, run);
    CapsuleWritten(j, s, run);
    JobSize(j, s);
    hide *;
    HoldingFields(j, t.order, a, n);
  }

  lemma HoldingFields(j: Job, order: seq<nat>, a: TaskAttr, n: u32)
    requires j.Valid() && j.src == a.Attrs(n) && |j.src| == 16 && |order| == |j.ids|
    ensures var m := 1 + |j.ids|;
            && 20 * m < TWO63 && |j.lead + Flat(IdsOf(j, order))| == 20 * m
            && Holding(j, order) == TaskRecord(CapsuleOf(a, j.c), [FreshHeader("TaskID", 0x102, m, 20 * m)],
                                               j.lead + Flat(IdsOf(j, order)))
  {
    var ids := IdsOf(j, order);
    HoldingIs(j, order);
    FlatLenUniform(ids, 20);
    HoldingHeader(j, order, a, n);
    CapsuleAttrsFields(a, n, j.c);
    hide SchemaOf;
    hide Holding;
    hide IdsOf;
    hide Flat;
    hide CapsuleAttrs;
    hide FreshHeader;
    hide TaskAttr.Attrs;
    hide CapsuleOf;
    hide U32;
  }

  lemma HoldingHeader(j: Job, order: seq<nat>, a: TaskAttr, n: u32)
    requires j.Valid() && j.src == a.Attrs(n) && |j.src| == 16 && |order| == |j.ids|
    ensures var m := 1 + |j.ids|;
            20 * m < TWO63 && Holding(j, order).headers == [FreshHeader("TaskID", 0x102, m, 20 * m)]
  {
    var r, m := CapsuleRecord(j.src, j.c, j.lead), 1 + |j.ids|;
    CapsuleRecordFits(j.src, j.c, j.lead);
    CapsuleHeaderFields();
    FreshCounted(m, 20 * m);
    GrownHeader(r, IdsOf(j, order));
    hide SchemaOf;
    hide FreshHeader;
    hide CAPSULE_HEADER;
    hide CapsuleAttrs;
    hide GrownAll;
    hide Lengths;
    hide TaskAttr.Attrs;
  }

  lemma FreshCounted(m: u64, size: u64)
    ensures var h := FreshHeader("TaskID", 0x102, 1, 20);
            && h.dataSize == 20 && h.ndim == 1 && |h.dimSizes| == 7 && h.dimSizes[0] == 1
            && h.(dataSize := size, dimSizes := h.dimSizes[0 := m]) == FreshHeader("TaskID", 0x102, m, size)
  {
    assert [1, 0, 0, 0, 0, 0, 0][0 := m] == [m, 0, 0, 0, 0, 0, 0];
  }

  lemma {:induction false} GrownHeader(r: Record, ids: seq<seq<byte>>)
    requires IsCapsule(r) && r.headers[0].ndim >= 1
    requires (forall i :: 0 <= i < |ids| ==> |ids[i]| == 20) && |r.payload| + 20 * |ids| + 20 < TWO63
    requires r.headers[0].dataSize == |r.payload| && |r.headers[0].dimSizes| == 7
    requires r.headers[0].dimSizes[0] == |r.payload| / 20
    ensures var h, size := r.headers[0], |r.payload| + 20 * |ids|;
            GrownAll(r, ids).headers == [h.(dataSize := size, dimSizes := h.dimSizes[0 := size / 20])]
    decreases ids
  {
    hide SchemaOf;
    var h := r.headers[0];
    if ids == [] {
      assert r.headers == [h] && h.dimSizes[0 := h.dimSizes[0]] == h.dimSizes;
    } else {
      var r' := Grown(r, ids[0]);
      var size := |r.payload| + 20 * |ids|;
      GrownHeader(r', ids[1..]);
      assert r'.headers[0].dimSizes[0 := size / 20] == h.dimSizes[0 := size / 20];
    }
  }

  lemma DoneFile(l: Leader, file: Option<seq<byte>>, rs: seq<Rank>, ids: seq<Id>, r: Record)
    requires IsCapsule(r) && |ids| == |rs| && FileIs(l, file, rs, ids, r) && Published(l) && AllDone(rs)
    ensures file == Some(Image(SchemaOf(Task), r))
  {
    hide IsCapsule;
    hide Image;
    hide WriterOk;
  }

  lemma HoldingIs(j: Job, order: seq<nat>)
    requires j.Valid() && |j.src| == 16 && |order| <= |j.ids|
    ensures Holding(j, order).payload == j.lead + Flat(IdsOf(j, order))
    ensures Holding(j, order).attrs == CapsuleAttrs(j.src, j.c)
  {
    hide SchemaOf;
    hide Image;
    CapsuleRecordFits(j.src, j.c, j.lead);
    AppendsRefine(CapsuleRecord(j.src, j.c, j.lead), IdsOf(j, order));
  }
}
