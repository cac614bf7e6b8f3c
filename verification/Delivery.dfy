/** Exit codes arrive: whoever has been woken in sched_wait leaves it with a
    child's code as soon as it has had the CPU twice. */
module Delivery {
  import opened Util
  import opened Table
  import opened Runs

  /** Step k is made by p: it goes on inside the API. */
  ghost predicate GoesOn(ws: seq<World>, acts: seq<Action>, p: nat, k: nat)
    requires k < |acts| < |ws|
  {
    acts[k] == Resume && ws[k].sys.cur == p
  }

  /** Inside sched_wait, and not asleep. */
  ghost predicate Awake(w: World, p: nat) {
    Inv(w) && p < NPROC && w.sys.procs[p].Some? && Waiting(w, p) && w.sys.procs[p].value.status != Sleeping
  }

  /** History is never rewritten. */
  lemma LogGrows(w: World, a: Action)
    requires Shape(w) && Enabled(w, a)
    ensures w.log <= Next(w, a).log
  {
  }

  /** From sched_switch a task goes on to its next scan, and from that, if it is
      awake, with a code out of sched_wait; and nothing else moves it. */
  lemma AwakeStep(w: World, a: Action, p: nat)
    requires Awake(w, p) && Enabled(w, a)
    ensures var w', turn := Next(w, a), a == Resume && w.sys.cur == p;
            if turn && w.at[p] == InLoop then Delivered(w, w', p)
            else Awake(w', p) && w'.at[p] == if turn then InLoop else w.at[p]
  {
    NextInv(w, a);
    AwakeUntilDelivered(w, a, p);
  }

  /** A code for pid came after the first from events. */
  ghost predicate Received(log: seq<Event>, from: nat, pid: int) {
    exists k :: from <= k < |log| && log[k].Took? && log[k].parcel.to == pid
  }

  lemma ReceivedStays(log: seq<Event>, log': seq<Event>, from: nat, pid: int)
    requires log <= log' && Received(log, from, pid)
    ensures Received(log', from, pid)
  {
    var k :| from <= k < |log| && log[k].Took? && log[k].parcel.to == pid;
    assert log'[k] == log[k];
  }

  lemma {:induction false} WokenPath(ws: seq<World>, acts: seq<Action>, p: nat, n: nat)
    requires Path(ws, acts) && Awake(ws[0], p) && n <= |acts|
    ensures ws[0].log <= ws[n].log
    ensures Received(ws[n].log, |ws[0].log|, p + 1)
         || (Awake(ws[n], p) && ((exists i :: 0 <= i < n && GoesOn(ws, acts, p, i)) ==> ws[n].at[p] == InLoop))
  {
    if n != 0 {
      WokenPath(ws, acts, p, n - 1);
      assert StepAt(ws, acts, n - 1);
      var w, a := ws[n - 1], acts[n - 1];
      LogGrows(w, a);
      if Received(w.log, |ws[0].log|, p + 1) {
        ReceivedStays(w.log, ws[n].log, |ws[0].log|, p + 1);
      } else {
        AwakeStep(w, a, p);
        if GoesOn(ws, acts, p, n - 1) && w.at[p] == InLoop {
          assert ws[n].log[|w.log|].Took?;
        }
      }
    }
  }

  /** A task that is awake inside sched_wait, in whatever way it was woken, has
      received a child's code by the time it has gone on twice: once from its
      sched_switch and once from its scan. */
  lemma WokenReceives(ws: seq<World>, acts: seq<Action>, p: nat, i: nat, j: nat)
    requires Path(ws, acts) && Reachable(ws[0]) && Shape(ws[0]) && i < j < |acts|
    requires p < NPROC && ws[0].sys.procs[p].Some? && Waiting(ws[0], p) && !Is(ws[0].sys.procs[p], Sleeping)
    requires GoesOn(ws, acts, p, i) && GoesOn(ws, acts, p, j)
    ensures Received(ws[|acts|].log, |ws[0].log|, p + 1)
  {
    ReachableInv(ws[0]);
    WokenPath(ws, acts, p, j);
    assert StepAt(ws, acts, j);
    if !Received(ws[j].log, |ws[0].log|, p + 1) {
      AwakeStep(ws[j], acts[j], p);
      assert ws[j + 1].log[|ws[j].log|].Took?;
    } else {
      LogGrows(ws[j], acts[j]);
      ReceivedStays(ws[j].log, ws[j + 1].log, |ws[0].log|, p + 1);
    }
    LogsGrow(ws, acts, j + 1, |acts|);
    ReceivedStays(ws[j + 1].log, ws[|acts|].log, |ws[0].log|, p + 1);
  }

  lemma {:induction false} LogsGrow(ws: seq<World>, acts: seq<Action>, m: nat, n: nat)
    requires Path(ws, acts) && m <= n <= |acts|
    ensures ws[m].log <= ws[n].log
  {
    if m < n {
      LogsGrow(ws, acts, m, n - 1);
      assert StepAt(ws, acts, n - 1);
      LogGrows(ws[n - 1], acts[n - 1]);
    }
  }

  // ---- The opening of ps9/main.c, with one child ----

  /** Pid 1 sleeps before its next scan, and its child, pid 2, runs. */
  ghost predicate ParentWaits(w: World) {
    && Reachable(w) && Shape(w)
    && w.sys.cur == 1 && w.at[1] == User && w.at[0] == InLoop
    && Is(w.sys.procs[0], Sleeping)
    && w.sys.procs[1].Some? && w.sys.procs[1].value.ppid == 1 && !Is(w.sys.procs[1], Zombie)
  }

  /** Pid 1 has gone to sleep, and its child, pid 2, is the only other task. */
  ghost predicate ParentSleeps(w: World) {
    && Reachable(w) && Shape(w)
    && w.sys.cur == 0 && w.at[0] == InWait && w.at[1] == User
    && Is(w.sys.procs[0], Sleeping)
    && Is(w.sys.procs[1], Ready) && w.sys.procs[1].value.ppid == 1
    && forall i :: 2 <= i < NPROC ==> w.sys.procs[i].None?
  }

  lemma ParentCanSleep()
    ensures exists w :: ParentSleeps(w)
  {
    var w0 := Start();
    StartReachable();
    assert NextPid(w0.sys.procs) == 2;
    StepReachable(w0, Runs.Fork);
    var w1 := Next(w0, Runs.Fork);
    assert IsChild(w1.sys.procs[1], 1);
    StepReachable(w1, Wait);
    assert ParentSleeps(Next(w1, Wait));
  }

  lemma ParentCanWait()
    ensures exists w :: ParentWaits(w)
  {
    ParentCanSleep();
    var w1 :| ParentSleeps(w1);
    StepReachable(w1, Resume);
    var w := Next(w1, Resume);
    assert Candidate(w1.sys, 1);
    SwitchChooses(w1.sys);
    SwitchKeeps(w1.sys);
    SwitchMoves(w1.sys);
    assert Kept(w1.sys.procs[0], w.sys.procs[0]) && Kept(w1.sys.procs[1], w.sys.procs[1]);
    assert ParentWaits(w);
  }

  /** It happens: fork, wait, exit of the child, and its code is delivered. */
  lemma CodeArrives(code: int)
    ensures exists w :: ParentWaits(w) && Enabled(w, Exit(code)) &&
              var w1 := Next(w, Exit(code));
              && w1.sys.cur == 0 && Enabled(w1, Resume)
              && Next(w1, Resume).at[0] == User
              && Next(w1, Resume).sys.procs[1].None?
              && Taken(Next(w1, Resume).log, Parcel(2, 1, code))
  {
    ParentCanWait();
    var w :| ParentWaits(w);
    ReachableInv(w);
    ExitReachesSleeper(w, code, 0);
    var w1 := Next(w, Exit(code));
    var log := Next(w1, Resume).log;
    assert log[|log| - 1].Took? && log[|log| - 1].parcel == Parcel(2, 1, code);
  }

  ghost predicate Taken(log: seq<Event>, x: Parcel) {
    exists k :: 0 <= k < |log| && log[k].Took? && log[k].parcel == x
  }
}
