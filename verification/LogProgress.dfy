/** Processes at work on the runtime-environment files never block each other for good: from wherever a run has come to,
    they can all finish what they have begun. */
module LogProgress {
  import opened Bytes
  import opened Common
  import opened Signature
  import opened Layout
  import opened EntryLog
  import opened Counters
  import opened LogInterleaving

  predicate AllIdle(s: State) {
    forall p :: 0 <= p < |s.procs| ==> s.procs[p].Idle?
  }

  /** Nothing new is asked for. */
  predicate OnlyGo(run: seq<Action>) {
    forall k :: 0 <= k < |run| ==> run[k].op.Go?
  }

  // ---------------------------------------------------------------- what is left to do

  function AppLeft(q: Proc): nat {
    match q
    case AppWait(_) => 5
    case AppLocked(_) => 4
    case AppSized(_, _) => 3
    case AppChecked(_, _) => 2
    case AppClosing => 1
    case _ => 0
  }

  /** For a patch, over a log of n bytes. */
  function PatLeft(q: Proc, n: nat): nat {
    match q
    case PatWait(_, _, _) => n + 1850
    case PatRecLocked(_, _, _) => n + 1849
    case PatRecRead(_, _, _, _, _) => n + 1848
    case PatRecHalf(_, _, _, _) => n + 1847
    case PatRecDone(_, _, _) => n + 1846
    case PatBetween(_, _, _) => n + 1845
    case PatScan(_, _, _, pos) => if pos <= n + 1828 then 4 + n + 1828 - pos else 4
    case PatFound(_, _, _, _, _, _) => 3
    case PatHalf(_, _, _, _, _) => 2
    case PatLogDone => 1
    case _ => 0
  }

  function AppSum(ps: seq<Proc>): nat {
    if ps == [] then 0 else AppLeft(ps[0]) + AppSum(ps[1..])
  }

  function PatSum(ps: seq<Proc>, n: nat): nat {
    if ps == [] then 0 else PatLeft(ps[0], n) + PatSum(ps[1..], n)
  }

  lemma {:induction false} SumsSet(ps: seq<Proc>, p: nat, q: Proc, n: nat)
    requires p < |ps|
    ensures AppSum(ps[p := q]) + AppLeft(ps[p]) == AppSum(ps) + AppLeft(q)
    ensures PatSum(ps[p := q], n) + PatLeft(ps[p], n) == PatSum(ps, n) + PatLeft(q, n)
    decreases ps
  {
    hide AppLeft;
    hide PatLeft;
    if p == 0 {
      assert ps[0 := q][1..] == ps[1..];
    } else {
      assert ps[p := q][1..] == ps[1..][p - 1 := q];
      SumsSet(ps[1..], p - 1, q, n);
    }
  }

  // ---------------------------------------------------------------- one step

  /** A process that does not wait for a lock. */
  predicate Moves(q: Proc) {
    !q.Idle? && !q.AppWait? && !q.PatWait? && !q.PatBetween?
  }

  /** Somebody can go on: one that waits for no lock, or anybody when all others wait. */
  lemma SomeEnabled(s: State) returns (p: nat)
    requires !AllIdle(s)
    ensures Enabled(s, p, Go) && p < |s.procs| && !s.procs[p].Idle?
  {
    if exists i :: 0 <= i < |s.procs| && Moves(s.procs[i]) {
      p :| 0 <= p < |s.procs| && Moves(s.procs[p]);
    } else {
      p :| 0 <= p < |s.procs| && !s.procs[p].Idle?;
    }
  }

  /** Only an append changes the length of the log. */
  lemma LogLen(f: Files, q: Proc)
    requires LogOk(f) && ProcOk(f, q) && !q.AppChecked?
    ensures |NextFiles(f, q).log| == |f.log|
  {
    hide Find;
    hide RowsNow;
    hide RowNow;
    hide HitRow;
    hide Passed;
    hide Magic;
    hide U32;
    if q.PatFound? || q.PatHalf? {
      assert Hit(f, q.id, q.pos);
      FlatLenUniform(RowsNow(f), ROW);
    }
  }

  /** Each step leaves less to do: to the appends, or with these as they are to the patches. */
  lemma GoesOn(f: Files, q: Proc, n: nat)
    requires !q.Idle? && |f.log| == n
    ensures var t := NextProc(f, q, Go);
            || AppLeft(t) < AppLeft(q)
            || (AppLeft(t) == AppLeft(q) && PatLeft(t, n) < PatLeft(q, n) && !q.AppChecked?)
  {
    hide At;
    hide Magic;
    hide RowId;
    hide RowCounter;
    hide AddU32;
  }

  lemma InvParts(s: State, p: nat)
    requires Inv(s) && p < |s.procs|
    ensures LogOk(s.files) && ProcOk(s.files, s.procs[p])
  {
    hide LogOk;
    hide ProcOk;
    hide RecsOk;
    hide Balanced;
    hide Exclusive;
  }

  // ---------------------------------------------------------------- runs

  lemma {:induction false} Settling(s: State) returns (run: seq<Action>)
    requires Inv(s)
    ensures CanRun(s, run) && OnlyGo(run) && AllIdle(Run(s, run))
    decreases AppSum(s.procs), PatSum(s.procs, |s.files.log|)
  {
    hide *;
    if AllIdle(s) {
      run := [];
      RunNone(s);
      return;
    }
    var p := SomeEnabled(s);
    var n, q, t := |s.files.log|, s.procs[p], Step(s, p, Go);
    StepParts(s, p, Go);
    InvParts(s, p);
    GoesOn(s.files, q, n);
    SumsSet(s.procs, p, t.procs[p], n);
    if !q.AppChecked? {
      LogLen(s.files, q);
    }
    InvStep(s, p, Go);
    var more := Settling(t);
    run := [Action(p, Go)] + more;
    RunMore(s, Action(p, Go), more);
  }

  lemma RunNone(s: State)
    ensures CanRun(s, []) && OnlyGo([]) && Run(s, []) == s
  {
  }

  lemma RunMore(s: State, a: Action, more: seq<Action>)
    requires Enabled(s, a.p, a.op) && a.op.Go? && CanRun(Step(s, a.p, a.op), more) && OnlyGo(more)
    ensures CanRun(s, [a] + more) && OnlyGo([a] + more) && Run(s, [a] + more) == Run(Step(s, a.p, a.op), more)
  {
    hide Enabled;
    hide Step;
    assert ([a] + more)[1..] == more && ([a] + more)[0] == a;
  }

  lemma {:induction false} RunOn(s: State, run: seq<Action>, more: seq<Action>)
    requires CanRun(s, run) && CanRun(Run(s, run), more)
    ensures CanRun(s, run + more) && Run(s, run + more) == Run(Run(s, run), more)
    decreases run
  {
    hide Enabled;
    hide Step;
    if run == [] {
      assert run + more == more;
    } else {
      RunOn(Step(s, run[0].p, run[0].op), run[1..], more);
      assert (run + more)[1..] == run[1..] + more && (run + more)[0] == run[0];
    }
  }

  lemma {:induction false} AskedOn(run: seq<Action>, more: seq<Action>, id: u32, r: Row)
    requires OnlyGo(more)
    ensures AllAsked(run + more, id, r) == AllAsked(run, id, r)
    decreases |run| + |more|
  {
    if run != [] {
      AskedOn(run[1..], more, id, r);
      assert (run + more)[1..] == run[1..] + more && (run + more)[0] == run[0];
    } else if more != [] {
      AskedOn([], more[1..], id, r);
      assert [] + more == more && [] + more[1..] == more[1..];
    }
  }

  /** However a run stands, the processes can finish without being asked for more; and then every increment and every
      row that was asked for has arrived. */
  lemma Settles(s: State, run: seq<Action>) returns (more: seq<Action>)
    requires LogInterleaving.Initial(s) && CanRun(s, run)
    ensures OnlyGo(more) && CanRun(s, run + more) && AllIdle(Run(s, run + more))
    ensures forall id: u32, r: Row :: var f, asked := Run(s, run + more).files, AllAsked(run, id, r);
              && Get(f.recT, id) == asked.tasks && Get(f.recB, id) == asked.batches
              && multiset(f.written)[r] == multiset(s.files.written)[r] + asked.rows
  {
    hide *;
    InvInitial(s);
    InvRun(s, run);
    more := Settling(Run(s, run));
    RunOn(s, run, more);
    IdleIs(Run(s, run + more));
    forall id: u32, r: Row
      ensures var f, asked := Run(s, run + more).files, AllAsked(run, id, r);
              && Get(f.recT, id) == asked.tasks && Get(f.recB, id) == asked.batches
              && multiset(f.written)[r] == multiset(s.files.written)[r] + asked.rows
    {
      NothingLost(s, run + more, id, r);
      AskedOn(run, more, id, r);
    }
  }

  lemma IdleIs(s: State)
    requires AllIdle(s)
    ensures forall p :: 0 <= p < |s.procs| ==> s.procs[p].Idle?
  {
  }
}
