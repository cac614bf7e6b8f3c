/** ps9/sched.c in its own form: task records on the heap, a table of pointers
    to them, and operations that update both in place with scan loops. Every
    operation is proved against the function of module Table with its name. */
module Scheduler {
  import opened Util
  import opened Table

  /** struct sched_proc, without its stack and its saved registers. */
  class Task {
    var pid: int
    var ppid: int
    var status: Status
    var priority: int
    var niceval: int
    var exitCode: Option<int>
    var totalTicks: nat

    constructor (pid: int, ppid: int, status: Status, ticks: nat)
      ensures View() == Proc(pid, ppid, status, 20, 0, None, ticks)
    {
      this.pid, this.ppid, this.status := pid, ppid, status;
      this.priority, this.niceval, this.exitCode, this.totalTicks := 20, 0, None, ticks;
    }

    ghost function View(): Proc
      reads this
    {
      Proc(pid, ppid, status, priority, niceval, exitCode, totalTicks)
    }

    /** The body of the first loop of sched_switch. */
    method Recompute()
      requires NiceOk(niceval)
      modifies `priority
      ensures Some(View()) == Refresh(Some(old(View())))
    {
      var temp := 20 - niceval - totalTicks / (20 - niceval);
      if temp <= 0 {
        temp := 1;
      }
      priority := temp;
    }
  }

  ghost function Entry(t: Task?): Option<Proc>
    reads t
  {
    if t == null then None else Some(t.View())
  }

  ghost function Entries(ts: seq<Task?>): (ps: seq<Option<Proc>>)
    reads ts
    ensures |ps| == |ts|
    ensures forall i :: 0 <= i < |ts| ==> ps[i] == Entry(ts[i])
  {
    seq(|ts|, i requires 0 <= i < |ts| reads ts => Entry(ts[i]))
  }

  /** The table after i turns of the loop that recomputes priorities. */
  ghost function PartRefreshed(ps: seq<Option<Proc>>, i: nat): (r: seq<Option<Proc>>)
    requires i <= |ps| && NiceTable(ps)
    ensures |r| == |ps|
    ensures forall j :: 0 <= j < |ps| ==> r[j] == if j < i then Refresh(ps[j]) else ps[j]
  {
    Refreshed(ps[..i]) + ps[i..]
  }

  lemma PartRefreshedNext(ps: seq<Option<Proc>>, i: nat)
    requires i < |ps| && NiceTable(ps)
    ensures PartRefreshed(ps, i)[i] == ps[i]
    ensures PartRefreshed(ps, i + 1) == PartRefreshed(ps, i)[i := Refresh(ps[i])]
  {
  }

  class Machine {
    const procs: array<Task?>
    var current: Task
    var procCount: int
    var tickCount: nat

    ghost predicate Valid()
      reads this, procs, procs[..], current
    {
      && procs.Length == NPROC
      && 1 <= current.pid <= NPROC && procs[current.pid - 1] == current
      && (forall i :: 0 <= i < NPROC && procs[i] != null ==> procs[i].pid == i + 1 && NiceOk(procs[i].niceval))
    }

    ghost function Model(): (s: Sys)
      reads this, procs, procs[..], current
      requires Valid()
      ensures Wf(s)
    {
      Sys(Entries(procs[..]), current.pid - 1, procCount, tickCount)
    }

    /** sched_init, as far as the table goes. */
    constructor ()
      ensures Valid() && fresh(procs)
      ensures Model() == Boot()
    {
      var table := new Task?[NPROC](_ => null);
      var init := new Task(1, 1, Running, 0);
      table[0] := init;
      procs, current := table, init;
      procCount, tickCount := 1, 0;
      new;
      assert Entries(procs[..]) == Boot().procs;
    }

    method NextFree() returns (pid: int)
      requires Valid()
      ensures pid == NextPid(Model().procs)
    {
      ghost var ps := Model().procs;
      for i := 0 to NPROC
        invariant NextPid(ps) == NextPid(ps, i)
      {
        if procs[i] == null {
          return i + 1;
        }
      }
      return -1;
    }

    method SchedFork() returns (pid: int)
      requires Valid()
      modifies this, procs
      ensures Valid() && current == old(current)
      ensures (Model(), pid) == Fork(old(Model()))
    {
      ghost var before := Model();
      pid := NextFree();
      if pid < 0 {
        return -1;
      }
      assert before.procs[pid - 1] == Entry(procs[pid - 1]);
      var child := new Task(pid, current.pid, Ready, current.totalTicks);
      Install(child, pid - 1);
    }

    /** Put a new task into an empty slot. */
    method Install(t: Task, i: nat)
      requires Valid() && i < NPROC && procs[i] == null && t.pid == i + 1 && NiceOk(t.niceval)
      modifies procs, this`procCount
      ensures Valid() && current == old(current)
      ensures var s := old(Model());
              Model() == s.(procs := s.procs[i := Some(t.View())], procCount := s.procCount + 1)
    {
      ghost var ps := Model().procs;
      procs[i] := t;
      procCount := procCount + 1;
      assert Entries(procs[..]) == ps[i := Some(t.View())];
    }

    /** Writing one task record changes one entry of the table. */
    twostate lemma OneWritten(t: Task)
      requires old(Valid()) && old(allocated(t)) && old(1 <= t.pid <= NPROC && procs[t.pid - 1] == t)
      requires procs[..] == old(procs[..])
      requires forall i :: 0 <= i < NPROC && procs[i] != null && procs[i] != t ==> unchanged(procs[i])
      requires t.pid == old(t.pid)
      ensures Entries(procs[..]) == old(Entries(procs[..]))[t.pid - 1 := Some(t.View())]
    {
      forall i | 0 <= i < NPROC
        ensures Entries(procs[..])[i] == old(Entries(procs[..]))[t.pid - 1 := Some(t.View())][i]
      {
        if i == t.pid - 1 {
        } else if procs[i] != null {
          assert old(procs[i].pid == i + 1);
          assert old(Entry(procs[i])) == Entry(procs[i]);
        }
      }
    }

    method FindSleeping(pid: int) returns (slot: int)
      requires Valid()
      ensures slot == SleepingTask(Model().procs, pid)
    {
      ghost var ps := Model().procs;
      for i := 0 to NPROC
        invariant SleepingTask(ps, pid) == SleepingTask(ps, pid, i)
      {
        assert ps[i] == Entry(procs[i]);
        if procs[i] != null && procs[i].pid == pid && procs[i].status == Sleeping {
          return i;
        }
      }
      return -1;
    }

    /** Make the task in slot i the running one. */
    method Dispatch(i: nat)
      requires Valid() && i < NPROC && procs[i] != null
      modifies this`current, procs[i]
      ensures Valid() && current == procs[i]
      ensures var s := old(Model());
              Model() == s.(procs := s.procs[i := Some(WithStatus(s.procs[i].value, Running))], cur := i)
    {
      current := procs[i];
      current.status := Running;
      OneWritten(current);
    }

    /** Turn the running task into a zombie that holds its code. */
    method Bury(code: int)
      requires Valid()
      modifies this`procCount, current
      ensures Valid()
      ensures var s := old(Model());
              Model() == s.(
                procs := s.procs[s.cur := Some(Current(s).(status := Zombie, exitCode := Some(code)))],
                procCount := s.procCount - 1)
    {
      procCount := procCount - 1;
      current.status := Zombie;
      current.exitCode := Some(code);
      OneWritten(current);
    }

    /** The body of sched_exit up to the point where it unblocks signals. */
    method SchedExit(code: int) returns (woken: bool)
      requires Valid()
      modifies this, procs[..]
      ensures Valid()
      ensures Model() == Exit(old(Model()), code)
      ensures woken <==> current != old(current)
    {
      assert current in procs[..];
      Bury(code);
      var parent := FindSleeping(current.ppid);
      woken := parent != -1;
      if woken {
        assert Model().procs[parent] == Entry(procs[parent]);
        assert procs[parent] in procs[..];
        Dispatch(parent);
      }
    }

    /** The test of sched_wait for any child at all. */
    method AnyChild() returns (found: bool)
      requires Valid()
      ensures found <==> HasChild(Model().procs, current.pid)
    {
      ghost var ps := Model().procs;
      for i := 0 to NPROC
        invariant forall j :: 0 <= j < i ==> !IsChild(ps[j], current.pid)
      {
        assert ps[i] == Entry(procs[i]);
        if procs[i] != null && procs[i].ppid == current.pid {
          return true;
        }
      }
      return false;
    }

    /** One pass of the loop of sched_wait, up to its call of sched_switch. */
    method WaitPass() returns (code: Option<int>)
      requires Valid() && current.status != Zombie
      modifies procs, current
      ensures Valid() && current == old(current)
      ensures (Model(), code) == Scan(old(Model()))
    {
      ghost var before := Model();
      ghost var ps := before.procs;
      for i := 0 to NPROC
        invariant Valid() && Model() == before
        invariant ZombieChild(ps, current.pid) == ZombieChild(ps, current.pid, i)
        invariant current == old(current) && current.status != Zombie
      {
        assert ps[i] == Entry(procs[i]);
        if procs[i] != null && procs[i].ppid == current.pid && procs[i].status == Zombie {
          code := procs[i].exitCode;
          procs[i] := null;
          assert Entries(procs[..]) == ps[i := None];
          return;
        }
      }
      current.status := Sleeping;
      code := None;
      assert Entries(procs[..]) == ps[before.cur := Some(WithStatus(ps[before.cur].value, Sleeping))];
    }

    method SchedNice(niceval: int)
      requires Valid()
      modifies current
      ensures Valid() && current == old(current)
      ensures Model() == Nice(old(Model()), niceval)
    {
      ghost var before := Model();
      var n := niceval;
      if n > 19 {
        n := 19;
      } else if n < -20 {
        n := -20;
      }
      current.niceval := n;
      assert Entries(procs[..]) == before.procs[before.cur := Some(Current(before).(nice := Clamp(niceval)))];
    }

    /** One turn of the first loop of sched_switch. */
    method RefreshSlot(i: nat)
      requires Valid() && i < NPROC
      modifies procs[..]
      ensures Valid() && procs[..] == old(procs[..])
      ensures Model() == old(Model()).(procs := old(Model()).procs[i := Refresh(old(Model()).procs[i])])
    {
      assert Model().procs[i] == Entry(procs[i]);
      if procs[i] != null {
        assert procs[i] in procs[..];
        procs[i].Recompute();
        OneWritten(procs[i]);
      }
    }

    method RefreshAll()
      requires Valid()
      modifies procs[..]
      ensures Valid() && current == old(current) && procs[..] == old(procs[..])
      ensures Model() == old(Model()).(procs := Refreshed(old(Model()).procs))
    {
      ghost var before := Model();
      ghost var objects := procs[..];
      var i := 0;
      while i < NPROC
        invariant 0 <= i <= NPROC
        invariant procs[..] == objects && Valid()
        invariant Model() == before.(procs := PartRefreshed(before.procs, i))
      {
        RefreshSlot(i);
        PartRefreshedNext(before.procs, i);
        i := i + 1;
      }
      assert PartRefreshed(before.procs, NPROC) == Refreshed(before.procs);
    }

    /** The second loop of sched_switch. */
    method Choose() returns (best: int)
      requires Valid()
      ensures best == Pick(Model().procs, NPROC)
    {
      ghost var ps := Model().procs;
      var highest := 0;
      best := -1;
      for i := 0 to NPROC
        invariant best == Pick(ps, i)
        invariant highest == if best == -1 then 0 else ps[best].value.priority
      {
        assert ps[i] == Entry(procs[i]);
        if procs[i] != null && procs[i].status == Ready && procs[i].priority > highest {
          highest := procs[i].priority;
          best := i;
        }
      }
    }

    /** Line 288 of sched_switch: a task that can still run goes back on the queue. */
    method Requeue()
      requires Valid()
      modifies current
      ensures Valid() && current == old(current) && procs[..] == old(procs[..])
      ensures var s := old(Model());
              Model() == s.(procs := s.procs[s.cur := Some(Yield(Current(s)))])
    {
      if current.status != Sleeping && current.status != Zombie {
        current.status := Ready;
      }
      OneWritten(current);
    }

    /** sched_switch up to its choice. */
    method MakeQueue()
      requires Valid()
      modifies procs[..]
      ensures Valid() && current == old(current)
      ensures Model() == old(Model()).(procs := Queue(old(Model())))
    {
      RefreshAll();
      assert current in procs[..];
      Requeue();
      assert Model().procs == Queue(old(Model()));
    }

    /** The end of sched_switch: go to the chosen task, unless it is the current one. */
    method GoTo(best: int)
      requires Valid() && (best == -1 || (0 <= best < NPROC && procs[best] != null))
      modifies this, procs[..]
      ensures Valid()
      ensures var s := old(Model());
              Model() == if best == -1 || best == s.cur then s
                         else s.(procs := s.procs[best := Some(WithStatus(s.procs[best].value, Running))], cur := best)
    {
      if best != -1 {
        // the source writes READY again to a chosen current task, which it already is
        if procs[best].pid != current.pid {
          assert procs[best] in procs[..];
          Dispatch(best);
        }
      }
    }

    method SchedSwitch()
      requires Valid()
      modifies this, procs[..]
      ensures Valid()
      ensures Model() == Switch(old(Model()))
    {
      MakeQueue();
      var best := Choose();
      if best != -1 {
        assert Model().procs[best] == Entry(procs[best]);
      }
      GoTo(best);
    }

    method SchedTick()
      requires Valid()
      modifies this, procs[..]
      ensures Valid()
      ensures Model() == Tick(old(Model()))
    {
      ghost var before := Model();
      current.totalTicks := current.totalTicks + 1;
      tickCount := tickCount + 1;
      assert Entries(procs[..]) == Charge(before).procs;
      SchedSwitch();
    }
  }
}
