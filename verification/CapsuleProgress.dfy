/** Whether the ranks of a capsule can finish: both waits of the sync are loops without an end, so a rank may wait for a
    name that is gone, or for the flag of an object that nobody will set. */
module CapsuleProgress {
  import opened Bytes
  import opened Common
  import opened Layout
  import opened CapsuleProtocol

  /** What the name is bound to, from the leader's place on. */
  predicate NameOk(s: State) {
    match s.leader
    case LUnlinked => s.name == None
    case LOpened(o) => s.name == Some(o)
    case LCopying(o, _) => s.name == Some(o)
    case LDone => s.name.Some? && s.name.value < |s.objs| && s.objs[s.name.value].flag != 0
    case LGone => s.name == None
    case _ => true
  }

  ghost predicate Ready(j: Job, s: State) {
    Inv(j, s) && NameOk(s) && |j.src| == 16 && |j.ids| == |s.ranks| && j.Valid()
  }

  /** A rank that waits for nothing: it looks for the name after the leader has removed it, or it has opened an object
      that is not flagged and is not the leader's. */
  predicate Stuck(s: State, r: Rank) {
    match r
    case RStart => s.leader.LGone?
    case RMapped(o) =>
      o < |s.objs| && s.objs[o].flag == 0 && !(s.leader.LOpened? && s.leader.o == o)
      && !(s.leader.LCopying? && s.leader.o == o)
    case _ => false
  }

  predicate NoneStuck(s: State) {
    forall i :: 0 <= i < |s.ranks| ==> !Stuck(s, s.ranks[i])
  }

  ghost predicate CanFinish(j: Job, s: State)
    requires |j.src| == 16 && j.Valid() && |j.ids| == |s.ranks|
  {
    exists run: seq<Turn> :: CanRun(j, s, run) && AllDone(Run(j, s, run).ranks)
  }

  // ---------------------------------------------------------------- one turn

  lemma NameNext(j: Job, s: State, t: Turn)
    requires Ready(j, s) && Enabled(s, t)
    ensures NameOk(Next(j, s, t))
  {
    hide SchemaOf;
    hide FirstImage;
    hide Holding;
    hide OrderOk;
    hide FileOk;
    hide OneHolder;
    hide CapsuleAppend.Accepts;
    hide CapsuleAppend.Edits;
  }

  lemma ReadyNext(j: Job, s: State, t: Turn)
    requires Ready(j, s) && Enabled(s, t)
    ensures Ready(j, Next(j, s, t))
  {
    NameNext(j, s, t);
    InvNext(j, s, t);
    NextRanks(j, s, t);
    hide *;
  }

  function LeaderLeft(l: Leader): nat {
    match l
    case LStart => 30
    case LCreating => 29
    case LRecorded => 28
    case LLogged => 27
    case LUnlinked => 26
    case LOpened(_) => 25
    case LCopying(_, k) => if k <= 20 then 24 - k else 1
    case LDone => 0
    case LGone => 0
  }

  function RankLeft(r: Rank): nat {
    match r
    case RStart => 31
    case RMapped(_) => 30
    case RCopying(_, k, _) => if k <= 20 then 29 - k else 9
    case RSynced(_) => 8
    case RLocked => 7
    case RWriting(_, _, k) => if k <= 5 then 6 - k else 1
    case RDone => 0
    case RFailed => 0
  }

  function Left(rs: seq<Rank>): nat {
    if rs == [] then 0 else RankLeft(rs[0]) + Left(rs[1..])
  }

  lemma {:induction false} LeftSet(rs: seq<Rank>, i: nat, r: Rank)
    requires i < |rs|
    ensures Left(rs[i := r]) + RankLeft(rs[i]) == Left(rs) + RankLeft(r)
    decreases rs
  {
    hide RankLeft;
    if i == 0 {
      assert rs[0 := r][1..] == rs[1..];
    } else {
      assert rs[i := r][1..] == rs[1..][i - 1 := r];
      LeftSet(rs[1..], i - 1, r);
    }
  }

  /** The leader gets on until the object is published, and leaves no rank stuck. */
  lemma LeaderGoesOn(j: Job, s: State)
    requires Ready(j, s) && NoneStuck(s) && !Published(s.leader)
    ensures LeaderLeft(LeaderStep(j, s).leader) < LeaderLeft(s.leader)
    ensures LeaderStep(j, s).ranks == s.ranks && NoneStuck(LeaderStep(j, s))
  {
    hide SchemaOf;
    hide FirstImage;
    hide Holding;
    hide OrderOk;
    hide FileOk;
    hide OneHolder;
    var t := LeaderStep(j, s);
    forall i | 0 <= i < |t.ranks|
      ensures !Stuck(t, t.ranks[i])
    {
      assert RankOk(j, s, s.ranks[i]) && !Stuck(s, s.ranks[i]);
    }
  }

  /** A rank gets on once the object is published. */
  lemma RankGoesOn(j: Job, s: State, i: nat)
    requires Ready(j, s) && NoneStuck(s) && Published(s.leader) && RankEnabled(s, i) && !s.ranks[i].RDone?
    ensures var t := RankStep(j, s, i);
            && |t.ranks| == |s.ranks| && t.ranks == s.ranks[i := t.ranks[i]] && t.leader == s.leader
            && RankLeft(t.ranks[i]) < RankLeft(s.ranks[i]) && NoneStuck(t)
  {
    RankParts(j, s, i);
    RankParts(j, RankStep(j, s, i), i) by {
      ReadyNext(j, s, TurnRank(i));
      RankLeaves(j, s, i);
    }
    hide *;
    RankLeaves(j, s, i);
    RankMoves(j, s, i);
    NoneStuckSet(s, RankStep(j, s, i), i);
  }

  lemma RankParts(j: Job, s: State, i: nat)
    requires Ready(j, s) && i < |s.ranks|
    ensures NameOk(s) && RankOk(j, s, s.ranks[i]) && !s.ranks[i].RFailed? && |j.ids| == |s.ranks|
  {
    hide SchemaOf;
    hide Holding;
    hide OrderOk;
    hide FileOk;
    hide OneHolder;
    hide NameOk;
  }

  lemma NoneStuckSet(s: State, t: State, i: nat)
    requires NoneStuck(s) && i < |s.ranks| == |t.ranks| && t.ranks == s.ranks[i := t.ranks[i]]
    requires t.leader == s.leader && t.objs == s.objs && !Stuck(t, t.ranks[i])
    ensures NoneStuck(t)
  {
    forall k | 0 <= k < |t.ranks|
      ensures !Stuck(t, t.ranks[k])
    {
      assert !Stuck(s, s.ranks[k]);
    }
  }

  lemma RankMoves(j: Job, s: State, i: nat)
    requires Published(s.leader) && RankEnabled(s, i) && |j.ids| == |s.ranks| && NameOk(s) && RankOk(j, s, s.ranks[i])
    requires NoneStuck(s) && !s.ranks[i].RDone?
    requires var t := RankStep(j, s, i);
             i < |t.ranks| && !t.ranks[i].RFailed? && t.objs == s.objs && t.leader == s.leader
    ensures var t := RankStep(j, s, i); RankLeft(t.ranks[i]) < RankLeft(s.ranks[i]) && !Stuck(t, t.ranks[i])
  {
    assert !Stuck(s, s.ranks[i]);
    hide NoneStuck;
    hide CapsuleAppend.Accepts;
    hide CapsuleAppend.Edits;
    hide CapsuleAppend.EndOff;
    hide CapsuleAppend.SizeOf;
    hide CapsuleAppend.NdimOf;
    hide Overwrite;
    hide LockFree;
  }

  /** Somebody can go on: the holder of the lock, or anybody when it is free. */
  lemma SomeEnabled(s: State) returns (i: nat)
    requires !AllDone(s.ranks)
    ensures RankEnabled(s, i) && !s.ranks[i].RDone?
  {
    if LockFree(s.ranks) {
      i :| 0 <= i < |s.ranks| && !s.ranks[i].RDone?;
    } else {
      i :| 0 <= i < |s.ranks| && Holds(s.ranks[i]);
    }
  }

  // ---------------------------------------------------------------- runs

  lemma {:induction false} Finishing(j: Job, s: State) returns (run: seq<Turn>)
    requires Ready(j, s) && NoneStuck(s)
    ensures CanRun(j, s, run) && AllDone(Run(j, s, run).ranks)
    decreases LeaderLeft(s.leader) + Left(s.ranks)
  {
    hide Inv;
    hide NameOk;
    hide NoneStuck;
    hide LeaderStep;
    hide RankStep;
    hide RankLeft;
    hide LeaderLeft;
    hide Left;
    hide Stuck;
    hide SchemaOf;
    if AllDone(s.ranks) {
      return [];
    }
    var t: Turn;
    if Published(s.leader) {
      var i := SomeEnabled(s);
      t := TurnRank(i);
      RankGoesOn(j, s, i);
      LeftSet(s.ranks, i, RankStep(j, s, i).ranks[i]);
    } else {
      t := TurnLeader;
      LeaderGoesOn(j, s);
    }
    ReadyNext(j, s, t);
    var more := Finishing(j, Next(j, s, t));
    run := [t] + more;
    assert run[1..] == more;
  }

  lemma StuckNext(j: Job, s: State, t: Turn, i: nat)
    requires Ready(j, s) && Enabled(s, t) && i < |s.ranks| && Stuck(s, s.ranks[i])
    ensures var s' := Next(j, s, t); |s'.ranks| == |s.ranks| && s'.ranks[i] == s.ranks[i] && Stuck(s', s'.ranks[i])
  {
    NextRanks(j, s, t);
    RankParts(j, s, i);
    match t
    case TurnLeader =>
      StuckLeader(j, s, i);
    case TurnRank(k) =>
      RankLeaves(j, s, k);
      if k == i {
        StuckStays(j, s, i);
      }
      hide LeaderStep;
      hide RankStep;
      hide Inv;
      hide SchemaOf;
  }

  lemma StuckStays(j: Job, s: State, i: nat)
    requires RankEnabled(s, i) && |j.ids| == |s.ranks| && NameOk(s) && Stuck(s, s.ranks[i])
    ensures RankStep(j, s, i) == s
  {
    hide CapsuleAppend.Accepts;
    hide CapsuleAppend.Edits;
    hide CapsuleAppend.EndOff;
    hide CapsuleAppend.SizeOf;
    hide CapsuleAppend.NdimOf;
    hide Overwrite;
    hide LockFree;
  }

  lemma StuckLeader(j: Job, s: State, i: nat)
    requires |j.src| == 16 && j.Valid() && NameOk(s) && i < |s.ranks| && Stuck(s, s.ranks[i])
    ensures var s' := LeaderStep(j, s); s'.ranks == s.ranks && Stuck(s', s.ranks[i])
  {
    hide SchemaOf;
    hide FirstImage;
    hide Lengths;
  }

  lemma {:induction false} StuckRun(j: Job, s: State, run: seq<Turn>, i: nat)
    requires Ready(j, s) && CanRun(j, s, run) && i < |s.ranks| && Stuck(s, s.ranks[i])
    ensures !AllDone(Run(j, s, run).ranks)
    decreases run
  {
    hide Inv;
    hide NameOk;
    hide Next;
    hide SchemaOf;
    if run != [] {
      StuckNext(j, s, run[0], i);
      ReadyNext(j, s, run[0]);
      StuckRun(j, Next(j, s, run[0]), run[1..], i);
    }
  }

  /** From wherever a run has come to, the ranks can all finish exactly when none of them is stuck. */
  lemma FinishExactly(j: Job, s: State)
    requires Ready(j, s)
    ensures CanFinish(j, s) <==> NoneStuck(s)
  {
    hide Inv;
    hide NameOk;
    hide Stuck;
    hide CanRun;
    hide Run;
    hide SchemaOf;
    if NoneStuck(s) {
      var run := Finishing(j, s);
    } else {
      var i :| 0 <= i < |s.ranks| && Stuck(s, s.ranks[i]);
      forall run: seq<Turn> | CanRun(j, s, run)
        ensures !AllDone(Run(j, s, run).ranks)
      {
        StuckRun(j, s, run, i);
      }
    }
  }

  lemma {:induction false} ReadyRun(j: Job, s: State, run: seq<Turn>)
    requires Ready(j, s) && CanRun(j, s, run)
    ensures Ready(j, Run(j, s, run))
    decreases run
  {
    hide Inv;
    hide NameOk;
    hide Next;
    hide SchemaOf;
    if run != [] {
      ReadyNext(j, s, run[0]);
      ReadyRun(j, Next(j, s, run[0]), run[1..]);
    }
  }

  /** After any run that found no flagged object: the ranks can all finish exactly when none has come too late for the
      name, and none has opened the object left behind before the leader removed its name. At the start they can. */
  lemma ProgressExactly(j: Job, s: State, run: seq<Turn>)
    requires Initial(j, s) && NoStale(s) && CanRun(j, s, run)
    ensures CanFinish(j, s)
    ensures CanFinish(j, Run(j, s, run)) <==> NoneStuck(Run(j, s, run))
  {
    InvInitial(j, s);
    assert NameOk(s) && NoneStuck(s);
    hide *;
    ReadyIs(j, s);
    ReadyRun(j, s, run);
    FinishExactly(j, s);
    FinishExactly(j, Run(j, s, run));
  }

  lemma ReadyIs(j: Job, s: State)
    requires Inv(j, s) && NameOk(s) && |j.src| == 16 && |j.ids| == |s.ranks|
    ensures Ready(j, s)
  {
  }

  // ---------------------------------------------------------------- with no object left behind

  /** The one object is the leader's, and flagged once it is published. */
  predicate OneObject(s: State) {
    && |s.objs| <= 1
    && match s.leader
       case LOpened(o) => o == 0
       case LCopying(o, _) => o == 0
       case LDone => |s.objs| == 1 && s.objs[0].flag != 0
       case LGone => |s.objs| == 1 && s.objs[0].flag != 0
       case _ => s.objs == []
  }

  lemma OneObjectNext(j: Job, s: State, t: Turn)
    requires Ready(j, s) && OneObject(s) && Enabled(s, t)
    ensures OneObject(Next(j, s, t))
  {
    ShmParts(j, s);
    hide Inv;
    hide ShmOk;
    hide NameOk;
    hide SchemaOf;
    hide LeaderStep;
    hide RankStep;
    match t
    case TurnLeader =>
      OneObjectLeader(j, s);
    case TurnRank(i) =>
      RankLeaves(j, s, i);
  }

  lemma ShmParts(j: Job, s: State)
    requires Inv(j, s)
    ensures ShmOk(j, s)
  {
    hide ShmOk;
  }

  lemma OneObjectLeader(j: Job, s: State)
    requires |j.src| == 16 && j.Valid() && NameOk(s) && OneObject(s) && ShmOk(j, s)
    ensures OneObject(LeaderStep(j, s))
  {
    hide SchemaOf;
    hide FirstImage;
    hide Lengths;
  }

  lemma {:induction false} OneObjectRun(j: Job, s: State, run: seq<Turn>)
    requires Ready(j, s) && OneObject(s) && CanRun(j, s, run)
    ensures Ready(j, Run(j, s, run)) && OneObject(Run(j, s, run))
    decreases run
  {
    hide Inv;
    hide NameOk;
    hide Next;
    hide OneObject;
    hide SchemaOf;
    if run != [] {
      ReadyNext(j, s, run[0]);
      OneObjectNext(j, s, run[0]);
      OneObjectRun(j, Next(j, s, run[0]), run[1..]);
    }
  }

  /** Then only the leader can leave a rank behind, by removing the name before the rank has looked for it. */
  lemma OneObjectStuck(j: Job, s: State)
    requires Ready(j, s) && OneObject(s)
    ensures NoneStuck(s) <==> !s.leader.LGone? || forall i :: 0 <= i < |s.ranks| ==> !s.ranks[i].RStart?
  {
    hide *;
    NoneStuckIs(s);
    forall i | 0 <= i < |s.ranks|
      ensures Stuck(s, s.ranks[i]) <==> s.leader.LGone? && s.ranks[i].RStart?
    {
      RankParts(j, s, i);
      OneStuck(j, s, s.ranks[i]);
    }
  }

  lemma OneStuck(j: Job, s: State, r: Rank)
    requires OneObject(s) && RankOk(j, s, r)
    ensures Stuck(s, r) <==> s.leader.LGone? && r.RStart?
  {
    hide SchemaOf;
  }

  lemma NoneStuckIs(s: State)
    ensures NoneStuck(s) <==> forall i :: 0 <= i < |s.ranks| ==> !Stuck(s, s.ranks[i])
  {
  }

  /** As long as the leader has not removed the name, all ranks can still finish. */
  ghost predicate AlwaysFinish(j: Job, s: State)
    requires |j.src| == 16 && j.Valid() && |j.ids| == |s.ranks|
  {
    forall run: seq<Turn> :: CanRun(j, s, run) && !Run(j, s, run).leader.LGone? ==> CanFinish(j, Run(j, s, run))
  }

  /** That is so exactly when no object of the name was left behind: one that is not flagged can be opened by a rank
      before the leader removes its name, and then the rank waits for a flag that nobody sets. */
  lemma FinishAlwaysExactly(j: Job, s: State)
    requires Initial(j, s) && NoStale(s) && |s.ranks| > 0
    ensures AlwaysFinish(j, s) <==> s.objs == []
  {
    InvInitial(j, s);
    hide Inv;
    hide CanRun;
    hide Run;
    hide SchemaOf;
    hide CanFinish;
    assert NameOk(s);
    if s.objs == [] {
      forall run: seq<Turn> | CanRun(j, s, run) && !Run(j, s, run).leader.LGone?
        ensures CanFinish(j, Run(j, s, run))
      {
        OneObjectRun(j, s, run);
        OneObjectStuck(j, Run(j, s, run));
        FinishExactly(j, Run(j, s, run));
      }
    } else {
      LeftBehind(j, s);
    }
  }

  lemma LeftBehind(j: Job, s: State)
    requires Initial(j, s) && NoStale(s) && |s.ranks| > 0 && s.objs != []
    ensures !AlwaysFinish(j, s)
  {
    var run := [TurnRank(0)];
    var s' := RankStep(j, s, 0);
    assert s'.ranks[0] == RMapped(0) && s'.objs == s.objs && s'.leader == LStart;
    assert Stuck(s', s'.ranks[0]);
    OneTurn(j, s, TurnRank(0));
    ProgressExactly(j, s, run);
    hide *;
    NotAlways(j, s, run);
  }

  lemma NotAlways(j: Job, s: State, run: seq<Turn>)
    requires |j.src| == 16 && j.Valid() && |j.ids| == |s.ranks| && CanRun(j, s, run)
    requires Run(j, s, run).leader == LStart && |Run(j, s, run).ranks| == |s.ranks| && !CanFinish(j, Run(j, s, run))
    ensures !AlwaysFinish(j, s)
  {
    hide CanRun;
    hide Run;
    hide CanFinish;
    hide SchemaOf;
  }

  lemma OneTurn(j: Job, s: State, t: Turn)
    requires |j.src| == 16 && j.Valid() && |j.ids| == |s.ranks| && Enabled(s, t)
    ensures CanRun(j, s, [t]) && Run(j, s, [t]) == Next(j, s, t)
  {
    hide Next;
    hide SchemaOf;
    NextRanks(j, s, t);
    assert [t][1..] == [];
  }
}
