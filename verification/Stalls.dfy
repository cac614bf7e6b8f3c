/** Exactly when the scheduler stalls: when a step leaves no task READY or
    RUNNING, when sched_exit returns to its caller, and when sched_wait returns
    -1. Nothing here is assumed of the program but what one call can see. */
module Stalls {
  import opened Util
  import opened Table
  import opened Runs
  import opened NoStall
  import Laws

  ghost predicate OtherReady(s: Sys)
    requires Wf(s)
  {
    exists i :: 0 <= i < NPROC && i != s.cur && Is(s.procs[i], Ready)
  }

  ghost predicate SleepsFor(e: Option<Proc>, pid: int) {
    Is(e, Sleeping) && e.value.pid == pid
  }

  /** Some other task sleeps under the pid of the current task's parent. */
  ghost predicate ParentSleeps(s: Sys)
    requires Wf(s)
  {
    exists i :: 0 <= i < NPROC && i != s.cur && SleepsFor(s.procs[i], Current(s).ppid)
  }

  /** In its own code and not a zombie, the current task is READY or RUNNING. */
  lemma CallerRuns(w: World)
    requires Inv(w) && w.at[w.sys.cur] == User && Current(w.sys).status != Zombie
    ensures Is(w.sys.procs[w.sys.cur], Ready) || Is(w.sys.procs[w.sys.cur], Running)
    ensures Runnable(w.sys.procs)
  {
    assert HandshakeAt(w, w.sys.cur);
  }

  // ---- Exit ----

  lemma ExitLooksFor(w: World, code: int)
    requires Inv(w) && Enabled(w, Exit(code))
    ensures var dead := Current(w.sys).(status := Zombie, exitCode := Some(code));
            var ps := w.sys.procs[w.sys.cur := Some(dead)];
            (SleepingTask(ps, dead.ppid) != -1 <==> ParentSleeps(w.sys))
            && SleepingTask(ps, dead.ppid) != w.sys.cur
  {
    var c := w.sys.cur;
    var dead := Current(w.sys).(status := Zombie, exitCode := Some(code));
    var ps := w.sys.procs[c := Some(dead)];
    var r := SleepingTask(ps, dead.ppid);
    if r != -1 {
      assert SleepsFor(w.sys.procs[r], dead.ppid);
    }
    if ParentSleeps(w.sys) {
      var i :| 0 <= i < NPROC && i != c && SleepsFor(w.sys.procs[i], dead.ppid);
      assert Is(ps[i], Sleeping) && ps[i].value.pid == dead.ppid;
    }
  }

  lemma ExitKeepsCpu(w: World, code: int)
    requires Inv(w) && Enabled(w, Exit(code))
    ensures Next(w, Exit(code)).sys.cur == w.sys.cur <==> !ParentSleeps(w.sys)
    ensures ParentSleeps(w.sys) ==> Is(Next(w, Exit(code)).sys.procs[Next(w, Exit(code)).sys.cur], Running)
  {
    ExitLooksFor(w, code);
  }

  /** An exit stalls the scheduler if and only if no other task is READY and no
      other task sleeps under the pid of the caller's parent. */
  lemma ExitStallsIff(w: World, code: int)
    requires Inv(w) && Enabled(w, Exit(code))
    ensures !Runnable(Next(w, Exit(code)).sys.procs) <==> !OtherReady(w.sys) && !ParentSleeps(w.sys)
  {
    var w' := Next(w, Exit(code));
    ExitKeepsCpu(w, code);
    if ParentSleeps(w.sys) {
      assert Is(w'.sys.procs[w'.sys.cur], Running);
    } else {
      ExitLooksFor(w, code);
      forall i | 0 <= i < NPROC && i != w.sys.cur
        ensures w'.sys.procs[i] == w.sys.procs[i] && !Is(w.sys.procs[i], Running)
      {
      }
      if OtherReady(w.sys) {
        var i :| 0 <= i < NPROC && i != w.sys.cur && Is(w.sys.procs[i], Ready);
        assert Is(w'.sys.procs[i], Ready);
      }
      if Runnable(w'.sys.procs) {
        var i :| 0 <= i < NPROC && (Is(w'.sys.procs[i], Ready) || Is(w'.sys.procs[i], Running));
        assert i != w.sys.cur && Is(w.sys.procs[i], Ready);
      }
    }
  }

  /** sched_switch leaves a sleeper or a zombie if and only if something is READY. */
  lemma SwitchLeavesIff(s: Sys)
    requires Wf(s) && (Is(s.procs[s.cur], Sleeping) || Is(s.procs[s.cur], Zombie))
    ensures Switch(s).cur != s.cur <==> OtherReady(s)
  {
    SelectionIsBest(s);
    if OtherReady(s) {
      var i :| 0 <= i < NPROC && i != s.cur && Is(s.procs[i], Ready);
      assert Is(Queue(s)[i], Ready);
    }
    if Switch(s).cur != s.cur {
      SwitchMoves(s);
      assert Is(s.procs[Switch(s).cur], Ready);
    }
  }

  /** sched_exit returns to its caller, a zombie by then, if and only if no
      other task is READY and no other sleeps under the caller's parent's pid. */
  lemma ExitReturnsIff(w: World, code: int)
    requires Reachable(w) && Shape(w) && Enabled(w, Exit(code))
    ensures var w1 := Next(w, Exit(code));
            (w1.sys.cur == w.sys.cur && Enabled(w1, Resume)
             && Next(w1, Resume).sys.cur == w.sys.cur && Next(w1, Resume).at[w.sys.cur] == User)
            <==> !OtherReady(w.sys) && !ParentSleeps(w.sys)
  {
    ReachableInv(w);
    ExitKeepsCpu(w, code);
    if !ParentSleeps(w.sys) {
      ExitLooksFor(w, code);
      var w1 := Next(w, Exit(code));
      assert Is(w1.sys.procs[w1.sys.cur], Zombie);
      SwitchLeavesIff(w1.sys);
      assert OtherReady(w1.sys) <==> OtherReady(w.sys) by {
        assert forall i :: 0 <= i < NPROC && i != w.sys.cur ==> w1.sys.procs[i] == w.sys.procs[i];
      }
    }
  }

  // ---- What becomes of a zombie ----

  /** A zombie inside sched_exit; if it has the CPU, some other task is READY. */
  ghost predicate Leaving(w: World, c: nat) {
    && Inv(w) && c < NPROC
    && Is(w.sys.procs[c], Zombie) && w.at[c] == InExit
    && (w.sys.cur == c ==> OtherReady(w.sys))
  }

  /** Whatever happens next, a tick or its own call of sched_switch, takes the
      CPU from it, and it does not get the CPU back until it is reaped. */
  lemma LeavingStays(w: World, a: Action, c: nat)
    requires Leaving(w, c) && Enabled(w, a) && Next(w, a).sys.procs[c].Some?
    ensures Leaving(Next(w, a), c) && Next(w, a).sys.cur != c
  {
    NextInv(w, a);
    match a
    case Tick => TickLeaves(w.sys, c);
    case Resume =>
      if w.at[w.sys.cur] == InLoop {
        assert w.sys.cur != c;
      } else {
        SwitchLeaves(w.sys, c);
      }
    case _ =>
      assert w.sys.cur != c;
  }

  lemma TickLeaves(s: Sys, c: nat)
    requires Wf(s) && c < NPROC && Is(s.procs[c], Zombie)
    requires s.cur == c ==> OtherReady(s)
    ensures Table.Tick(s).cur != c
    ensures Is(Table.Tick(s).procs[c], Zombie)
  {
    if s.cur == c {
      var i :| 0 <= i < NPROC && i != c && Is(s.procs[i], Ready);
      assert Is(Charge(s).procs[i], Ready);
    }
    SwitchLeaves(Charge(s), c);
  }

  lemma SwitchLeaves(s: Sys, c: nat)
    requires Wf(s) && c < NPROC && Is(s.procs[c], Zombie)
    requires s.cur == c ==> OtherReady(s)
    ensures Switch(s).cur != c && Is(Switch(s).procs[c], Zombie)
  {
    SwitchKeeps(s);
    SwitchMoves(s);
    assert Kept(s.procs[c], Switch(s).procs[c]);
    if s.cur == c {
      SwitchLeavesIff(s);
    }
  }

  /** A zombie that has the CPU, and no other task that is READY. */
  ghost predicate Left(w: World, c: nat) {
    && Inv(w) && w.sys.cur == c
    && Is(w.sys.procs[c], Zombie) && !OtherReady(w.sys)
    && (w.at[c] == InExit || w.at[c] == User)
  }

  /** It keeps the CPU, and is back in its own code as soon as its call of
      sched_switch is over. */
  lemma LeftStays(w: World, a: Action, c: nat)
    requires Left(w, c) && Enabled(w, a)
    ensures Left(Next(w, a), c)
    ensures Next(w, a).at[c] == if a == Resume then User else w.at[c]
  {
    NextInv(w, a);
    var s := if a == Tick then Charge(w.sys) else w.sys;
    assert OtherReady(s) <==> OtherReady(w.sys) by {
      assert forall i :: 0 <= i < NPROC && i != c ==> s.procs[i] == w.sys.procs[i];
    }
    SwitchLeavesIff(s);
    SwitchKeeps(s);
    assert forall i :: 0 <= i < NPROC ==> Kept(s.procs[i], Switch(s).procs[i]);
    SwitchMoves(s);
    assert Next(w, a).sys == Switch(s);
    assert forall i :: 0 <= i < NPROC && i != c ==> Switch(s).procs[i] == Queue(s)[i];
  }

  /** Slot c is not empty along this path: the task in it has not been reaped. */
  ghost predicate Unreaped(ws: seq<World>, c: nat, n: nat)
    requires n < |ws|
  {
    forall k :: 0 <= k <= n ==> c < |ws[k].sys.procs| && ws[k].sys.procs[c].Some?
  }

  lemma {:induction false} LeavingPath(ws: seq<World>, acts: seq<Action>, c: nat, n: nat)
    requires Path(ws, acts) && n <= |acts| && Leaving(ws[0], c) && Unreaped(ws, c, n)
    ensures forall m :: 0 <= m <= n ==> Leaving(ws[m], c) && (m != 0 ==> ws[m].sys.cur != c)
  {
    if n != 0 {
      LeavingPath(ws, acts, c, n - 1);
      assert StepAt(ws, acts, n - 1);
      LeavingStays(ws[n - 1], acts[n - 1], c);
    }
  }

  lemma {:induction false} LeftPath(ws: seq<World>, acts: seq<Action>, c: nat, n: nat)
    requires Path(ws, acts) && n <= |acts| && Left(ws[0], c)
    ensures forall m :: 0 <= m <= n ==>
              Left(ws[m], c) && ws[m].at[c] == if Resume in acts[..m] then User else ws[0].at[c]
  {
    if n != 0 {
      LeftPath(ws, acts, c, n - 1);
      assert StepAt(ws, acts, n - 1);
      LeftStays(ws[n - 1], acts[n - 1], c);
      assert acts[..n] == acts[..n - 1] + [acts[n - 1]];
    }
  }

  lemma ExitLeavesOrNot(w: World, code: int)
    requires Inv(w) && Enabled(w, Exit(code))
    ensures Next(w, Exit(code)).at[w.sys.cur] == InExit
    ensures if !OtherReady(w.sys) && !ParentSleeps(w.sys) then Left(Next(w, Exit(code)), w.sys.cur)
            else Leaving(Next(w, Exit(code)), w.sys.cur)
  {
    var w1 := Next(w, Exit(code));
    NextInv(w, Exit(code));
    ExitKeepsCpu(w, code);
    ExitLooksFor(w, code);
    if !ParentSleeps(w.sys) {
      assert OtherReady(w1.sys) <==> OtherReady(w.sys) by {
        assert forall i :: 0 <= i < NPROC && i != w.sys.cur ==> w1.sys.procs[i] == w.sys.procs[i];
      }
    }
  }

  /** The same on every continuation, wherever ticks fall, until the zombie is
      reaped: if no other task is READY and none sleeps under the caller's
      parent's pid, it keeps the CPU and is back in its own code as soon as
      sched_switch has run; otherwise it is never seen outside sched_exit. */
  lemma ExitReturnsOnPath(w: World, code: int, ws: seq<World>, acts: seq<Action>, n: nat)
    requires Reachable(w) && Shape(w) && Enabled(w, Exit(code))
    requires Path(ws, acts) && ws[0] == Next(w, Exit(code)) && n <= |acts| && Unreaped(ws, w.sys.cur, n)
    ensures Shape(ws[n]) && Is(ws[n].sys.procs[w.sys.cur], Zombie)
    ensures var back := !OtherReady(w.sys) && !ParentSleeps(w.sys);
            && ws[n].at[w.sys.cur] == (if back && Resume in acts[..n] then User else InExit)
            && (back ==> ws[n].sys.cur == w.sys.cur)
            && (!back && n != 0 ==> ws[n].sys.cur != w.sys.cur)
  {
    ReachableInv(w);
    ExitLeavesOrNot(w, code);
    if !OtherReady(w.sys) && !ParentSleeps(w.sys) {
      LeftPath(ws, acts, w.sys.cur, n);
    } else {
      LeavingPath(ws, acts, w.sys.cur, n);
    }
  }

  // ---- Wait ----

  /** A wait stalls the scheduler if and only if no other task is READY and the
      caller has children, none of them a zombie. */
  lemma WaitStallsIff(w: World)
    requires Inv(w) && Enabled(w, Wait)
    ensures !Runnable(Next(w, Wait).sys.procs) <==>
              && !OtherReady(w.sys)
              && HasChild(w.sys.procs, Current(w.sys).pid)
              && !HasDeadChild(w.sys.procs, Current(w.sys).pid)
  {
    var w' := Next(w, Wait);
    var c := w.sys.cur;
    CallerRuns(w);
    if HasChild(w.sys.procs, c + 1) && !HasDeadChild(w.sys.procs, c + 1) {
      if OtherReady(w.sys) {
        var i :| 0 <= i < NPROC && i != c && Is(w.sys.procs[i], Ready);
        assert Is(w'.sys.procs[i], Ready);
      }
      if Runnable(w'.sys.procs) {
        var i :| 0 <= i < NPROC && (Is(w'.sys.procs[i], Ready) || Is(w'.sys.procs[i], Running));
        assert i != c && Is(w.sys.procs[i], Ready);
      }
    } else {
      assert w'.sys.procs[c] == w.sys.procs[c];
    }
  }

  // ---- Every action ----

  /** Unlike Candidate, this does not ask which task runs. */
  lemma SwitchRunnable(s: Sys)
    requires Wf(s) && OneRunning(s)
    ensures Runnable(Switch(s).procs) <==> Runnable(s.procs)
  {
    SwitchKeeps(s);
    SwitchMoves(s);
    var s' := Switch(s);
    forall i | 0 <= i < NPROC
      ensures Is(s'.procs[i], Ready) || Is(s'.procs[i], Running) <==> Is(s.procs[i], Ready) || Is(s.procs[i], Running)
    {
      assert Kept(s.procs[i], s'.procs[i]);
    }
    RunnableSame(s.procs, s'.procs);
  }

  lemma RunnableSame(ps: seq<Option<Proc>>, qs: seq<Option<Proc>>)
    requires |ps| == |qs|
    requires forall i :: 0 <= i < |ps| ==>
               (Is(ps[i], Ready) || Is(ps[i], Running) <==> Is(qs[i], Ready) || Is(qs[i], Running))
    ensures Runnable(ps) <==> Runnable(qs)
  {
    if Runnable(ps) {
      var i :| 0 <= i < |ps| && (Is(ps[i], Ready) || Is(ps[i], Running));
      assert Is(qs[i], Ready) || Is(qs[i], Running);
    }
    if Runnable(qs) {
      var i :| 0 <= i < |qs| && (Is(qs[i], Ready) || Is(qs[i], Running));
      assert Is(ps[i], Ready) || Is(ps[i], Running);
    }
  }

  lemma ResumeRunnable(w: World)
    requires Inv(w) && Enabled(w, Resume)
    ensures Runnable(Next(w, Resume).sys.procs) <==> Runnable(w.sys.procs)
  {
    var c := w.sys.cur;
    if w.at[c] == InLoop {
      assert HandshakeAt(w, c);
      RunnableSame(w.sys.procs, Next(w, Resume).sys.procs);
    } else {
      SwitchRunnable(w.sys);
    }
  }

  /** Ticks, renicing, forks and the rest of a call never stall the scheduler,
      and never get it out of a stall. */
  lemma OthersNeverStall(w: World, a: Action)
    requires Inv(w) && Enabled(w, a) && (a.Tick? || a.Nice? || a.Fork? || a.Resume?)
    ensures Runnable(Next(w, a).sys.procs) <==> Runnable(w.sys.procs)
  {
    match a
    case Tick =>
      RunnableSame(w.sys.procs, Charge(w.sys).procs);
      SwitchRunnable(Charge(w.sys));
    case Nice(n) =>
      RunnableSame(w.sys.procs, Next(w, a).sys.procs);
    case Fork =>
      CallerRuns(w);
      assert Next(w, a).sys.procs[w.sys.cur] == w.sys.procs[w.sys.cur];
    case _ =>
      ResumeRunnable(w);
  }

  /** What stalls a running scheduler, and nothing else does. */
  lemma StallIff(w: World, a: Action)
    requires Reachable(w) && Shape(w) && Runnable(w.sys.procs) && Enabled(w, a)
    ensures !Runnable(Next(w, a).sys.procs) <==>
              && !OtherReady(w.sys)
              && ((a.Exit? && !ParentSleeps(w.sys))
                  || (a.Wait? && HasChild(w.sys.procs, Current(w.sys).pid)
                              && !HasDeadChild(w.sys.procs, Current(w.sys).pid)))
  {
    ReachableInv(w);
    match a
    case Exit(code) => ExitStallsIff(w, code);
    case Wait => WaitStallsIff(w);
    case _ => OthersNeverStall(w, a);
  }

  /** A stall is for ever: no task can call the API, and no tick helps. */
  lemma StallStays(w: World, a: Action)
    requires Inv(w) && !Runnable(w.sys.procs) && Enabled(w, a)
    ensures !Runnable(Next(w, a).sys.procs)
  {
    if a.Tick? || a.Resume? {
      OthersNeverStall(w, a);
    } else {
      CallerRuns(w);
    }
  }

  lemma StalledForEver(ws: seq<World>, acts: seq<Action>, n: nat)
    requires Path(ws, acts) && n <= |acts|
    requires Inv(ws[0]) && !Runnable(ws[0].sys.procs)
    ensures !Runnable(ws[n].sys.procs)
  {
    var P := x => Inv(x) && !Runnable(x.sys.procs);
    forall x, a | P(x) && Enabled(x, a)
      ensures P(Next(x, a))
    {
      NextInv(x, a);
      StallStays(x, a);
    }
    PathKeeps(P, ws, acts, n);
  }

  // ---- Waiting without children ----

  /** Pid 1 is for ever in slot 0 and its own parent; no other task is its own. */
  ghost predicate SelfAt(s: Sys, i: nat)
    requires Wf(s) && i < NPROC
  {
    if i == 0 then IsChild(s.procs[0], 1) else !IsChild(s.procs[i], i + 1)
  }

  ghost predicate Selves(s: Sys)
    requires Wf(s)
  {
    forall i :: 0 <= i < NPROC ==> SelfAt(s, i)
  }

  ghost predicate Steady(w: World) {
    && Inv(w)
    && Selves(w.sys)
  }

  lemma NextSelves(w: World, a: Action)
    requires Inv(w) && Selves(w.sys) && Enabled(w, a)
    ensures Selves(Next(w, a).sys)
  {
    var w' := Next(w, a);
    forall i | 0 <= i < NPROC
      ensures SelfAt(w'.sys, i)
    {
      assert SelfAt(w.sys, i) && SelfAt(w.sys, 0) && SelfAt(w.sys, w.sys.cur);
      NextParent(w, a, i);
    }
  }

  /** The same task, an empty slot still, a new child of the caller, or a zombie
      child of the caller reaped. */
  ghost predicate ParentKept(e: Option<Proc>, e': Option<Proc>, caller: Proc) {
    || (e.Some? && e'.Some? && e'.value.ppid == e.value.ppid)
    || (e.None? && e'.None?)
    || (e.None? && IsChild(e', caller.pid))
    || (e'.None? && DeadChild(e, caller.pid) && caller.status != Zombie)
  }

  lemma NextParent(w: World, a: Action, i: nat)
    requires Inv(w) && Enabled(w, a) && i < NPROC
    ensures ParentKept(w.sys.procs[i], Next(w, a).sys.procs[i], Current(w.sys))
  {
    Laws.PresenceLaw(w, a, i);
    if Next(w, a).sys.procs[i].Some? {
      if w.sys.procs[i].Some? {
        Laws.RecordLaw(w, a, i);
      } else {
        Laws.BirthLaw(w, a, i);
      }
    }
  }

  lemma StartSelves()
    ensures Selves(Start().sys)
  {
  }

  lemma ReachableSelves(w: World)
    requires Reachable(w)
    ensures Steady(w)
  {
    var P := x => Steady(x);
    forall x, a | P(x) && Enabled(x, a)
      ensures P(Next(x, a))
    {
      NextInv(x, a);
      NextSelves(x, a);
    }
    StartInv();
    StartSelves();
    ReachableKeeps(P, w);
  }

  /** sched_wait returns -1 if and only if the caller has no other child and is
      not pid 1. */
  lemma WaitFailsIff(w: World)
    requires Reachable(w) && Shape(w) && Enabled(w, Wait)
    ensures !HasChild(w.sys.procs, Current(w.sys).pid) <==> !OtherChild(w.sys.procs, w.sys.cur) && w.sys.cur != 0
  {
    ReachableSelves(w);
    var c := w.sys.cur;
    assert SelfAt(w.sys, c) && SelfAt(w.sys, 0);
    if OtherChild(w.sys.procs, c) {
      var j :| 0 <= j < NPROC && j != c && IsChild(w.sys.procs[j], c + 1);
    }
  }

  /** Pid 1 asleep inside sched_wait, with no child but itself. */
  ghost predicate Lonely(w: World) {
    && Steady(w)
    && Is(w.sys.procs[0], Sleeping) && Waiting(w, 0)
    && !OtherChild(w.sys.procs, 0)
  }

  lemma LonelyStays(w: World, a: Action)
    requires Lonely(w) && Enabled(w, a)
    ensures Lonely(Next(w, a))
  {
    NextInv(w, a);
    NextSelves(w, a);
    var w' := Next(w, a);
    assert HandshakeAt(w, 0);
    forall j | 0 < j < NPROC
      ensures !IsChild(w'.sys.procs[j], 1)
    {
      NextParent(w, a, j);
      assert !IsChild(w.sys.procs[j], 1);
    }
    LonelySleeps(w, a);
  }

  lemma LonelySleeps(w: World, a: Action)
    requires Lonely(w) && Enabled(w, a)
    ensures Is(Next(w, a).sys.procs[0], Sleeping)
    ensures Waiting(Next(w, a), 0)
  {
    assert HandshakeAt(w, 0);
    match a
    case Tick => SwitchKeeps(Charge(w.sys)); assert Kept(Charge(w.sys).procs[0], Switch(Charge(w.sys)).procs[0]);
    case Resume =>
      if w.at[w.sys.cur] != InLoop {
        SwitchKeeps(w.sys);
        assert Kept(w.sys.procs[0], Switch(w.sys).procs[0]);
      }
    case Exit(code) =>
      assert !IsChild(w.sys.procs[w.sys.cur], 1);
    case _ =>
  }

  /** A pid 1 that waits without any other child does not get -1: it goes to
      sleep, and on every continuation it is still asleep inside sched_wait,
      whatever other tasks do. */
  lemma ChildlessInitWaitsForEver(w: World, ws: seq<World>, acts: seq<Action>, n: nat)
    requires Reachable(w) && Shape(w) && Enabled(w, Wait) && w.sys.cur == 0 && !OtherChild(w.sys.procs, 0)
    requires Path(ws, acts) && ws[0] == Next(w, Wait) && n <= |acts|
    ensures ws[0].at[0] == InWait && Shape(ws[n])
    ensures Is(ws[n].sys.procs[0], Sleeping) && (ws[n].at[0] == InWait || ws[n].at[0] == InLoop)
  {
    ReachableSelves(w);
    assert SelfAt(w.sys, 0) && HandshakeAt(w, 0);
    NextInv(w, Wait);
    NextSelves(w, Wait);
    var P := x => Lonely(x);
    forall x, a | P(x) && Enabled(x, a)
      ensures P(Next(x, a))
    {
      LonelyStays(x, a);
    }
    PathKeeps(P, ws, acts, n);
  }

  // ---- Both happen ----

  /** Already the first call can stall the scheduler: pid 1 waits, alone. */
  lemma LonelyWaitStalls()
    ensures Reachable(Start())
    ensures Enabled(Start(), Wait)
    ensures Start().sys.cur == 0
    ensures Lonely(Next(Start(), Wait))
    ensures !Runnable(Next(Start(), Wait).sys.procs)
  {
    var w := Start();
    StartReachable();
    StartInv();
    StartSelves();
    assert SelfAt(w.sys, 0);
    NextInv(w, Wait);
    NextSelves(w, Wait);
    WaitStallsIff(w);
  }

  /** Already the first exit can come back: pid 1 exits, alone. */
  lemma LastExitReturns(code: int)
    ensures Reachable(Start()) && Enabled(Start(), Exit(code))
    ensures var w := Next(Start(), Exit(code));
            && Enabled(w, Resume)
            && Is(Next(w, Resume).sys.procs[0], Zombie) && Next(w, Resume).at[0] == User
  {
    var w := Start();
    StartReachable();
    StartInv();
    ExitReturnsIff(w, code);
    SwitchKeeps(Next(w, Exit(code)).sys);
    assert Kept(Next(w, Exit(code)).sys.procs[0], Switch(Next(w, Exit(code)).sys).procs[0]);
  }
}
