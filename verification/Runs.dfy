/** Whole runs of the scheduler. A world is the process table together with the
    place where each task will continue, and a history of what has happened.
    Its steps are the atomic bodies of ps9/sched.c, between the points where
    signals are unblocked; a timer tick may fall at any of those points. */
module Runs {
  import opened Util
  import opened Table

  /** Where a task continues when it next has the CPU:
      User     in its own code;
      InWait   in sched_wait, asleep, about to call sched_switch (line 219);
      InLoop   in sched_wait, back from sched_switch, about to scan again (line 221);
      InExit   in sched_exit, about to call sched_switch (line 173). */
  datatype Point = User | InWait | InLoop | InExit

  /** A child's exit code on its way to the task with the given pid. */
  datatype Parcel = Parcel(child: int, to: int, code: int)

  datatype Event =
    | Born(pid: int, inherited: nat)
    | Ticked
    | Gave(parcel: Parcel)
    | Took(parcel: Parcel, ticks: nat)

  /** birth[i] is the length of the log when the task in slot i was created. */
  datatype World = World(sys: Sys, at: seq<Point>, birth: seq<nat>, log: seq<Event>)

  datatype Action = Tick | Fork | Exit(code: int) | Nice(n: int) | Wait | Resume

  ghost predicate Shape(w: World) {
    && Wf(w.sys)
    && |w.at| == NPROC
    && |w.birth| == NPROC
  }

  ghost function Start(): (w: World)
    ensures Shape(w)
  {
    World(Boot(), seq(NPROC, i => User), seq(NPROC, i => 0), [Born(1, 0)])
  }

  /** A tick may come at any time; the running task may call the API from its
      own code unless it is a zombie; inside sched_wait and sched_exit it can
      only go on. */
  ghost predicate Enabled(w: World, a: Action)
    requires Shape(w)
  {
    match a
    case Tick => true
    case Resume => w.at[w.sys.cur] != User && (w.at[w.sys.cur] == InLoop ==> Current(w.sys).status != Zombie)
    case _ => w.at[w.sys.cur] == User && Current(w.sys).status != Zombie
  }

  ghost function Pass(w: World): (w': World)
    requires Shape(w) && Current(w.sys).status != Zombie
    ensures Shape(w')
  {
    var c := w.sys.cur;
    var me := Current(w.sys).pid;
    var z := ZombieChild(w.sys.procs, me);
    var (sys', read) := Scan(w.sys);
    if z == -1 then w.(sys := sys', at := w.at[c := InWait])
    else
      var dead := w.sys.procs[z].value;
      // CodesKept below rules out the read of a code that was never written
      var code := if read.Some? then read.value else 0;
      w.(sys := sys', at := w.at[c := User], log := w.log + [Took(Parcel(dead.pid, me, code), dead.ticks)])
  }

  ghost function Next(w: World, a: Action): (w': World)
    requires Shape(w) && Enabled(w, a)
    ensures Shape(w')
  {
    var c := w.sys.cur;
    match a
    case Tick => w.(sys := Table.Tick(w.sys), log := w.log + [Ticked])
    case Nice(n) => w.(sys := Table.Nice(w.sys, n))
    case Fork =>
      var (sys', pid) := Table.Fork(w.sys);
      if pid == -1 then w
      else World(sys', w.at[pid - 1 := User], w.birth[pid - 1 := |w.log|], w.log + [Born(pid, Current(w.sys).ticks)])
    case Exit(code) =>
      var me := Current(w.sys);
      w.(sys := Table.Exit(w.sys, code), at := w.at[c := InExit], log := w.log + [Gave(Parcel(me.pid, me.ppid, code))])
    case Wait =>
      if HasChild(w.sys.procs, Current(w.sys).pid) then Pass(w) else w
    case Resume =>
      match w.at[c]
      case InWait => w.(sys := Switch(w.sys), at := w.at[c := InLoop])
      case InLoop => Pass(w)
      case _ =>
        // a sched_exit whose sched_switch finds nobody returns to its caller
        var sys' := Switch(w.sys);
        if sys'.cur == c then w.(sys := sys', at := w.at[c := User]) else w.(sys := sys')
  }

  /** Action i, enabled, takes world i of the run to world i + 1. */
  ghost predicate StepAt(ws: seq<World>, acts: seq<Action>, i: nat)
    requires i < |acts| < |ws|
  {
    Shape(ws[i]) && Enabled(ws[i], acts[i]) && ws[i + 1] == Next(ws[i], acts[i])
  }

  /** The worlds along a list of actions: each action takes one to the next. */
  ghost predicate Path(ws: seq<World>, acts: seq<Action>) {
    && |ws| == |acts| + 1
    && forall i :: 0 <= i < |acts| ==> StepAt(ws, acts, i)
  }

  /** A path from the start. */
  ghost predicate IsRun(ws: seq<World>, acts: seq<Action>) {
    Path(ws, acts) && ws[0] == Start()
  }

  ghost predicate Reachable(w: World) {
    exists ws, acts :: IsRun(ws, acts) && ws[|acts|] == w
  }

  lemma StartReachable()
    ensures Reachable(Start())
  {
    var acts: seq<Action> := [];
    assert IsRun([Start()], acts) && [Start()][|acts|] == Start();
  }

  lemma StepAtLonger(ws: seq<World>, acts: seq<Action>, w: World, a: Action, i: nat)
    requires i < |acts| < |ws| && StepAt(ws, acts, i)
    ensures StepAt(ws + [w], acts + [a], i)
  {
    assert (ws + [w])[i] == ws[i] && (ws + [w])[i + 1] == ws[i + 1] && (acts + [a])[i] == acts[i];
  }

  lemma RunOn(ws: seq<World>, acts: seq<Action>, a: Action, w: World)
    requires IsRun(ws, acts) && Shape(ws[|acts|]) && Enabled(ws[|acts|], a) && w == Next(ws[|acts|], a)
    ensures IsRun(ws + [w], acts + [a])
  {
    forall i | 0 <= i < |acts + [a]|
      ensures StepAt(ws + [w], acts + [a], i)
    {
      if i < |acts| {
        assert StepAt(ws, acts, i);
        StepAtLonger(ws, acts, w, a, i);
      }
    }
  }

  lemma StepReachable(w: World, a: Action)
    requires Reachable(w) && Shape(w) && Enabled(w, a)
    ensures Reachable(Next(w, a))
  {
    var ws, acts :| IsRun(ws, acts) && ws[|acts|] == w;
    var w' := Next(w, a);
    RunOn(ws, acts, a, w');
    assert (ws + [w'])[|acts + [a]|] == w';
  }

  // ---- The invariant of every run ----

  ghost predicate OneRunning(s: Sys) {
    forall i :: 0 <= i < |s.procs| && Is(s.procs[i], Running) ==> i == s.cur
  }

  ghost predicate CodesKept(s: Sys) {
    forall i :: 0 <= i < |s.procs| && s.procs[i].Some? ==> (s.procs[i].value.exitCode.Some? <==> Is(s.procs[i], Zombie))
  }

  ghost predicate Waiting(w: World, i: nat)
    requires i < |w.at|
  {
    w.at[i] == InWait || w.at[i] == InLoop
  }

  /** A live task inside the loop of sched_wait sleeps exactly while it has no
      zombie child, and nobody sleeps anywhere else. */
  ghost predicate HandshakeAt(w: World, i: nat)
    requires Shape(w) && i < NPROC
  {
    && (Is(w.sys.procs[i], Sleeping) ==> Waiting(w, i))
    && (w.sys.procs[i].Some? && Waiting(w, i) ==>
          && !Is(w.sys.procs[i], Zombie)
          && (Is(w.sys.procs[i], Sleeping) <==> !HasDeadChild(w.sys.procs, i + 1)))
  }

  ghost predicate Handshake(w: World)
    requires Shape(w)
  {
    forall i :: 0 <= i < NPROC ==> HandshakeAt(w, i)
  }

  function Living(e: Option<Proc>): int {
    if e.Some? && e.value.status != Zombie then 1 else 0
  }

  ghost function LivingSeq(ps: seq<Option<Proc>>): (xs: seq<int>)
    ensures |xs| == |ps|
    ensures forall i :: 0 <= i < |ps| ==> xs[i] == Living(ps[i])
  {
    seq(|ps|, i requires 0 <= i < |ps| => Living(ps[i]))
  }

  ghost predicate Census(s: Sys) {
    s.procCount == Sum(LivingSeq(s.procs))
  }

  ghost predicate Inv(w: World) {
    && Shape(w)
    && OneRunning(w.sys)
    && CodesKept(w.sys)
    && Census(w.sys)
    && Handshake(w)
  }

  // ---- Changing one entry, and switching ----

  lemma CensusUpdate(ps: seq<Option<Proc>>, i: nat, e: Option<Proc>)
    requires i < |ps|
    ensures Sum(LivingSeq(ps[i := e])) == Sum(LivingSeq(ps)) - Living(ps[i]) + Living(e)
  {
    assert LivingSeq(ps[i := e]) == LivingSeq(ps)[i := Living(e)];
    SumUpdate(LivingSeq(ps), i, Living(e));
  }

  /** The same child of the same parent, and the same sort of sleeper or zombie. */
  ghost predicate Alike(e: Option<Proc>, e': Option<Proc>) {
    if e.None? then e'.None?
    else
      && e'.Some?
      && e'.value.ppid == e.value.ppid && e'.value.exitCode == e.value.exitCode
      && (Is(e, Sleeping) <==> Is(e', Sleeping))
      && (Is(e, Zombie) <==> Is(e', Zombie))
  }

  ghost predicate AlikeAll(ps: seq<Option<Proc>>, qs: seq<Option<Proc>>) {
    |ps| == |qs| && forall i :: 0 <= i < |ps| ==> Alike(ps[i], qs[i])
  }

  lemma SameDeadChild(ps: seq<Option<Proc>>, qs: seq<Option<Proc>>, pid: int)
    requires |ps| == |qs|
    requires forall i :: 0 <= i < |ps| ==> (DeadChild(ps[i], pid) <==> DeadChild(qs[i], pid))
    ensures HasDeadChild(ps, pid) <==> HasDeadChild(qs, pid)
  {
    if HasDeadChild(ps, pid) {
      var i :| 0 <= i < |ps| && DeadChild(ps[i], pid);
      assert DeadChild(qs[i], pid);
    }
    if HasDeadChild(qs, pid) {
      var i :| 0 <= i < |qs| && DeadChild(qs[i], pid);
      assert DeadChild(ps[i], pid);
    }
  }

  lemma AlikeInv(w: World, sys': Sys, log': seq<Event>)
    requires Inv(w) && Wf(sys') && AlikeAll(w.sys.procs, sys'.procs)
    requires sys'.procCount == w.sys.procCount && OneRunning(sys')
    ensures Inv(w.(sys := sys', log := log'))
  {
    var w' := w.(sys := sys', log := log');
    assert LivingSeq(sys'.procs) == LivingSeq(w.sys.procs);
    forall i | 0 <= i < NPROC
      ensures HandshakeAt(w', i)
    {
      assert HandshakeAt(w, i) && Alike(w.sys.procs[i], sys'.procs[i]);
      assert forall j :: 0 <= j < NPROC ==> Alike(w.sys.procs[j], sys'.procs[j]);
      SameDeadChild(w.sys.procs, sys'.procs, i + 1);
    }
    forall i | 0 <= i < NPROC && sys'.procs[i].Some?
      ensures sys'.procs[i].value.exitCode.Some? <==> Is(sys'.procs[i], Zombie)
    {
      assert Alike(w.sys.procs[i], sys'.procs[i]);
    }
  }

  lemma SwitchInv(w: World, s: Sys, log': seq<Event>)
    requires Inv(w) && Wf(s) && s.cur == w.sys.cur && s.procCount == w.sys.procCount
    requires AlikeAll(w.sys.procs, s.procs) && OneRunning(s)
    ensures Inv(w.(sys := Switch(s), log := log'))
  {
    SwitchKeeps(s);
    var sys' := Switch(s);
    forall i | 0 <= i < NPROC
      ensures Alike(w.sys.procs[i], sys'.procs[i])
    {
      assert Alike(w.sys.procs[i], s.procs[i]) && Kept(s.procs[i], sys'.procs[i]);
    }
    AlikeInv(w, sys', log');
  }

  // ---- Each action keeps the invariant ----

  lemma NiceInv(w: World, n: int)
    requires Inv(w) && Enabled(w, Nice(n))
    ensures Inv(Next(w, Nice(n)))
  {
    var w' := Next(w, Nice(n));
    CensusUpdate(w.sys.procs, w.sys.cur, w'.sys.procs[w.sys.cur]);
    forall i | 0 <= i < NPROC
      ensures HandshakeAt(w', i)
    {
      assert HandshakeAt(w, i);
      SameDeadChild(w.sys.procs, w'.sys.procs, i + 1);
    }
  }

  lemma ForkInv(w: World)
    requires Inv(w) && Enabled(w, Fork)
    ensures Inv(Next(w, Fork))
  {
    var pid := NextPid(w.sys.procs);
    if pid != -1 {
      var w' := Next(w, Fork);
      CensusUpdate(w.sys.procs, pid - 1, w'.sys.procs[pid - 1]);
      forall i | 0 <= i < NPROC
        ensures HandshakeAt(w', i)
      {
        assert HandshakeAt(w, i);
        SameDeadChild(w.sys.procs, w'.sys.procs, i + 1);
      }
    }
  }

  lemma SleepInv(w: World)
    requires Inv(w) && Current(w.sys).status != Zombie
    requires ZombieChild(w.sys.procs, Current(w.sys).pid) == -1
    ensures Inv(Pass(w))
  {
    var w' := Pass(w);
    CensusUpdate(w.sys.procs, w.sys.cur, w'.sys.procs[w.sys.cur]);
    forall i | 0 <= i < NPROC
      ensures HandshakeAt(w', i)
    {
      assert HandshakeAt(w, i);
      SameDeadChild(w.sys.procs, w'.sys.procs, i + 1);
    }
  }

  lemma ReapInv(w: World)
    requires Inv(w) && Current(w.sys).status != Zombie && Current(w.sys).status != Sleeping
    requires ZombieChild(w.sys.procs, Current(w.sys).pid) != -1
    ensures Inv(Pass(w))
  {
    var z := ZombieChild(w.sys.procs, Current(w.sys).pid);
    var w' := Pass(w);
    CensusUpdate(w.sys.procs, z, None);
    forall i | 0 <= i < NPROC
      ensures HandshakeAt(w', i)
    {
      assert HandshakeAt(w, i);
      if i != w.sys.cur {
        SameDeadChild(w.sys.procs, w'.sys.procs, i + 1);
      }
    }
  }

  /** Inside the loop of sched_wait the running task is asleep exactly when
      there is nothing to reap; from its own code it is never asleep. */
  lemma PassInv(w: World)
    requires Inv(w) && Current(w.sys).status != Zombie
    requires w.at[w.sys.cur] == User || w.at[w.sys.cur] == InLoop
    ensures Inv(Pass(w))
  {
    var c := w.sys.cur;
    var z := ZombieChild(w.sys.procs, Current(w.sys).pid);
    if z == -1 {
      SleepInv(w);
    } else {
      assert HandshakeAt(w, c) && DeadChild(w.sys.procs[z], c + 1);
      ReapInv(w);
    }
  }

  lemma ExitInv(w: World, code: int)
    requires Inv(w) && Enabled(w, Exit(code))
    ensures Inv(Next(w, Exit(code)))
  {
    var c := w.sys.cur;
    var ps := w.sys.procs;
    var dead := Current(w.sys).(status := Zombie, exitCode := Some(code));
    var qs := ps[c := Some(dead)];
    var r := SleepingTask(qs, dead.ppid);
    var w' := Next(w, Exit(code));
    CensusUpdate(ps, c, Some(dead));
    if r != -1 {
      CensusUpdate(qs, r, w'.sys.procs[r]);
    }
    forall i | 0 <= i < NPROC
      ensures HandshakeAt(w', i)
    {
      assert HandshakeAt(w, i);
      if i + 1 == dead.ppid {
        assert DeadChild(w'.sys.procs[c], i + 1);
      } else {
        SameDeadChild(ps, w'.sys.procs, i + 1);
      }
    }
  }

  lemma TickInv(w: World)
    requires Inv(w)
    ensures Inv(Next(w, Tick))
  {
    SwitchInv(w, Charge(w.sys), w.log + [Ticked]);
  }

  /** Moving the running task between two points outside the loop, or between
      two points inside it, is no concern of the handshake. */
  lemma PointInv(w: World, c: nat, p: Point)
    requires Inv(w) && c < NPROC
    requires Waiting(w, c) <==> (p == InWait || p == InLoop)
    ensures Inv(w.(at := w.at[c := p]))
  {
    var w' := w.(at := w.at[c := p]);
    forall i | 0 <= i < NPROC
      ensures HandshakeAt(w', i)
    {
      assert HandshakeAt(w, i);
    }
  }

  lemma ResumeInv(w: World)
    requires Inv(w) && Enabled(w, Resume)
    ensures Inv(Next(w, Resume))
  {
    var c := w.sys.cur;
    if w.at[c] == InLoop {
      PassInv(w);
    } else {
      SwitchInv(w, w.sys, w.log);
      var v := w.(sys := Switch(w.sys), log := w.log);
      PointInv(v, c, if w.at[c] == InWait then InLoop else User);
    }
  }

  lemma NextInv(w: World, a: Action)
    requires Inv(w) && Enabled(w, a)
    ensures Inv(Next(w, a))
  {
    match a
    case Tick => TickInv(w);
    case Nice(n) => NiceInv(w, n);
    case Fork => ForkInv(w);
    case Exit(code) => ExitInv(w, code);
    case Wait => if HasChild(w.sys.procs, Current(w.sys).pid) { PassInv(w); }
    case Resume => ResumeInv(w);
  }

  lemma StartInv()
    ensures Inv(Start())
  {
    var ps := Boot().procs;
    var empty: seq<Option<Proc>> := seq(NPROC, i => None);
    assert ps == empty[0 := ps[0]];
    SumConstant(LivingSeq(empty), 0);
    CensusUpdate(empty, 0, ps[0]);
  }

  /** What every action keeps. */
  ghost predicate Inductive(P: World -> bool) {
    forall w, a :: Shape(w) && P(w) && Enabled(w, a) ==> P(Next(w, a))
  }

  lemma {:induction false} PathKeeps(P: World -> bool, ws: seq<World>, acts: seq<Action>, n: nat)
    requires Inductive(P) && Path(ws, acts) && n <= |acts| && P(ws[0])
    ensures P(ws[n])
  {
    if n != 0 {
      PathKeeps(P, ws, acts, n - 1);
      assert StepAt(ws, acts, n - 1);
    }
  }

  lemma ReachableKeeps(P: World -> bool, w: World)
    requires Inductive(P) && P(Start()) && Reachable(w)
    ensures P(w)
  {
    var ws, acts :| IsRun(ws, acts) && ws[|acts|] == w;
    PathKeeps(P, ws, acts, |acts|);
  }

  // ---- What the invariant says of reachable worlds ----

  lemma ReachableInv(w: World)
    requires Reachable(w)
    ensures Inv(w)
  {
    var P := x => Inv(x);
    forall x, a | P(x) && Enabled(x, a)
      ensures P(Next(x, a))
    {
      NextInv(x, a);
    }
    StartInv();
    ReachableKeeps(P, w);
  }

  /** The table invariant: slots carry their pids and clamped nice values, the
      current task is in the table, at most one task is RUNNING and it is the
      current one, proc_count counts the tasks that are not zombies, and
      exactly the zombies hold an exit code. */
  lemma TableInvariant(w: World)
    requires Reachable(w)
    ensures |w.sys.procs| == NPROC
    ensures w.sys.cur < NPROC
    ensures w.sys.procs[w.sys.cur].Some?
    ensures w.sys.procCount == Sum(LivingSeq(w.sys.procs))
    ensures forall i :: 0 <= i < NPROC && w.sys.procs[i].Some? ==>
              var p := w.sys.procs[i].value;
              && p.pid == i + 1
              && -20 <= p.nice <= 19
              && (p.status == Running ==> i == w.sys.cur)
              && (p.status == Zombie <==> p.exitCode.Some?)
  {
    ReachableInv(w);
  }

  /** No child exit is missed and no wake-up is spurious: a task inside the loop
      of sched_wait is asleep exactly when no child of its pid is a zombie, and
      a task that is not inside that loop is never asleep. */
  lemma WaitExitHandshake(w: World, i: nat)
    requires Reachable(w) && i < |w.sys.procs| && i < |w.at| && w.sys.procs[i].Some?
    ensures var asleep := w.sys.procs[i].value.status == Sleeping;
            var zombieChild := exists j :: 0 <= j < |w.sys.procs| && DeadChild(w.sys.procs[j], i + 1);
            if w.at[i] == InWait || w.at[i] == InLoop then asleep <==> !zombieChild else !asleep
  {
    ReachableInv(w);
    assert HandshakeAt(w, i);
  }

  /** The slot SleepingTask finds for the pid of a sleeping task is that task's. */
  lemma SleeperFound(s: Sys, p: nat)
    requires Wf(s) && p < NPROC && Is(s.procs[p], Sleeping)
    ensures SleepingTask(s.procs, p + 1) == p
  {
    assert s.procs[p].value.pid == p + 1;
  }

  /** In a reachable world every task that has the CPU inside sched_wait or
      sched_exit can go on, and any other that is not a zombie can call the API. */
  lemma NeverStuck(w: World, a: Action)
    requires Reachable(w)
    ensures Shape(w)
    ensures w.at[w.sys.cur] != User ==> Enabled(w, Resume)
    ensures w.at[w.sys.cur] == User && !Is(w.sys.procs[w.sys.cur], Zombie) && !a.Resume? ==> Enabled(w, a)
  {
    ReachableInv(w);
    assert HandshakeAt(w, w.sys.cur);
  }

  /** An exit reaches the parent that sleeps for it: the parent gets the CPU at
      once, the child is its only zombie child, and its next step reaps exactly
      that child, with exactly that code, and leaves sched_wait. */
  lemma ExitReachesSleeper(w: World, code: int, p: nat)
    requires Inv(w) && Enabled(w, Exit(code))
    requires p < NPROC && Current(w.sys).ppid == p + 1
    requires Is(w.sys.procs[p], Sleeping) && w.at[p] == InLoop
    ensures var w1 := Next(w, Exit(code));
            && w1.sys.cur == p && Enabled(w1, Resume)
            && var w2 := Next(w1, Resume);
               && w2.sys.cur == p && w2.at[p] == User
               && w2.sys.procs == w.sys.procs[p := Some(WithStatus(w.sys.procs[p].value, Running))][w.sys.cur := None]
               && w2.log == w1.log + [Took(Parcel(w.sys.cur + 1, p + 1, code), Current(w.sys).ticks)]
  {
    var c := w.sys.cur;
    var dead := Current(w.sys).(status := Zombie, exitCode := Some(code));
    var mid := w.sys.(procs := w.sys.procs[c := Some(dead)]);
    SleeperFound(mid, p);
    var w1 := Next(w, Exit(code));
    assert w1.sys.cur == p;
    assert HandshakeAt(w, p);
    forall j | 0 <= j < NPROC
      ensures DeadChild(w1.sys.procs[j], p + 1) <==> j == c
    {
      assert j != c && j != p ==> w1.sys.procs[j] == w.sys.procs[j];
    }
    var z := ZombieChild(w1.sys.procs, p + 1);
    assert DeadChild(w1.sys.procs[c], p + 1);
    assert z != -1 && DeadChild(w1.sys.procs[z], p + 1);
    assert w.sys.procs[p := Some(WithStatus(w.sys.procs[p].value, Running))][c := None]
        == w1.sys.procs[c := None];
  }

  /** Wherever in sched_wait the parent sleeps, an exit of its child wakes it,
      gives it the CPU, and leaves it a zombie child to find. */
  lemma ExitWakesSleeper(w: World, code: int, p: nat)
    requires Inv(w) && Enabled(w, Exit(code))
    requires p < NPROC && Current(w.sys).ppid == p + 1 && Is(w.sys.procs[p], Sleeping)
    ensures var w1 := Next(w, Exit(code));
            && w1.sys.cur == p && w1.at[p] == w.at[p] && Waiting(w1, p)
            && Is(w1.sys.procs[p], Running) && DeadChild(w1.sys.procs[w.sys.cur], p + 1)
  {
    var c := w.sys.cur;
    var dead := Current(w.sys).(status := Zombie, exitCode := Some(code));
    assert HandshakeAt(w, p) && HandshakeAt(w, c);
    SleeperFound(w.sys.(procs := w.sys.procs[c := Some(dead)]), p);
  }

  /** The task's pass of the loop delivered a child's code to it. */
  ghost predicate Delivered(w: World, w': World, p: nat)
    requires Shape(w') && p < NPROC
  {
    && w'.at[p] == User
    && exists x: Parcel, t: nat :: w'.log == w.log + [Took(x, t)] && x.to == p + 1
  }

  lemma AwakeReaps(w: World)
    requires Inv(w) && w.at[w.sys.cur] == InLoop && Current(w.sys).status != Sleeping
    ensures Enabled(w, Resume)
    ensures Delivered(w, Next(w, Resume), w.sys.cur)
  {
    var p := w.sys.cur;
    assert HandshakeAt(w, p);
    var z := ZombieChild(w.sys.procs, p + 1);
    var dead := w.sys.procs[z].value;
    var x := Parcel(dead.pid, p + 1, dead.exitCode.value);
    assert Next(w, Resume).log == w.log + [Took(x, dead.ticks)];
  }

  lemma SwitchStaysAwake(s: Sys, p: nat)
    requires Wf(s) && p < NPROC && s.procs[p].Some? && s.procs[p].value.status != Sleeping
    ensures Switch(s).procs[p].Some?
    ensures Switch(s).procs[p].value.status != Sleeping
  {
    SwitchKeeps(s);
    assert Kept(s.procs[p], Switch(s).procs[p]);
  }

  /** A task once woken inside sched_wait, and perhaps switched away again, stays
      awake until its own next scan, and that scan delivers a zombie child. */
  lemma AwakeUntilDelivered(w: World, a: Action, p: nat)
    requires Inv(w) && Enabled(w, a)
    requires p < NPROC && w.sys.procs[p].Some? && Waiting(w, p) && w.sys.procs[p].value.status != Sleeping
    ensures var w' := Next(w, a);
            if a == Resume && w.sys.cur == p && w.at[p] == InLoop then Delivered(w, w', p)
            else Waiting(w', p) && w'.sys.procs[p].Some? && w'.sys.procs[p].value.status != Sleeping
  {
    assert HandshakeAt(w, p);
    match a
    case Tick => SwitchStaysAwake(Charge(w.sys), p);
    case Resume =>
      if w.at[w.sys.cur] != InLoop {
        SwitchStaysAwake(w.sys, p);
      } else if w.sys.cur == p {
        AwakeReaps(w);
      }
    case _ =>
  }
}
