/** What a step of ps9/sched.c does, field by field: for each field of a task's
    record, and for each of the other things a world consists of, its new value
    after any of the actions, at whatever point they come. */
module Laws {
  import opened Util
  import opened Table
  import opened Runs

  /** The current task makes a pass of the loop of sched_wait. */
  ghost predicate Scans(w: World, a: Action)
    requires Shape(w)
  {
    || (a == Wait && HasChild(w.sys.procs, w.sys.cur + 1))
    || (a == Resume && w.at[w.sys.cur] == InLoop)
  }

  /** sched_switch runs. */
  ghost predicate Switches(w: World, a: Action)
    requires Shape(w)
  {
    a == Runs.Tick || (a == Resume && w.at[w.sys.cur] != InLoop)
  }

  ghost predicate FirstFree(ps: seq<Option<Proc>>, i: nat) {
    i < |ps| && ps[i].None? && forall j :: 0 <= j < i ==> ps[j].Some?
  }

  ghost predicate FirstDead(ps: seq<Option<Proc>>, pid: int, i: nat) {
    i < |ps| && DeadChild(ps[i], pid) && forall j :: 0 <= j < i ==> !DeadChild(ps[j], pid)
  }

  /** One slot of the table after an action. */
  lemma NextSlot(w: World, a: Action, i: nat)
    requires Inv(w) && Enabled(w, a) && i < NPROC
    ensures var e, e' := w.sys.procs[i], Next(w, a).sys.procs[i];
            if Switches(w, a) then e' == Switch(if a == Runs.Tick then Charge(w.sys) else w.sys).procs[i]
            else if Scans(w, a) && FirstDead(w.sys.procs, w.sys.cur + 1, i) then e' == None
            else if Scans(w, a) && !HasDeadChild(w.sys.procs, w.sys.cur + 1) && i == w.sys.cur then
              e' == Some(WithStatus(e.value, Sleeping))
            else a.Resume? || a.Wait? ==> e' == e
  {
  }

  /** A slot is filled by a fork that finds it the first empty one, and emptied by
      a pass of sched_wait that finds in it the first zombie child. */
  lemma PresenceLaw(w: World, a: Action, i: nat)
    requires Inv(w) && Enabled(w, a) && i < NPROC
    ensures Next(w, a).sys.procs[i].Some? <==>
              if w.sys.procs[i].None? then a == Runs.Fork && FirstFree(w.sys.procs, i)
              else !(Scans(w, a) && FirstDead(w.sys.procs, w.sys.cur + 1, i))
  {
    NextSlot(w, a, i);
    if Switches(w, a) {
      SwitchSlot(if a == Runs.Tick then Charge(w.sys) else w.sys, i);
    }
  }

  lemma SwitchSlot(s: Sys, i: nat)
    requires Wf(s) && i < NPROC
    ensures Kept(s.procs[i], Switch(s).procs[i])
    ensures s.procs[i].Some? ==> Switch(s).procs[i].value.priority == DynamicOf(s, i)
  {
    SwitchKeeps(s);
  }

  /** A new record: a READY child of the caller, of nice value 0, with the
      caller's ticks. */
  lemma BirthLaw(w: World, a: Action, i: nat)
    requires Inv(w) && Enabled(w, a) && i < NPROC && w.sys.procs[i].None? && Next(w, a).sys.procs[i].Some?
    ensures Next(w, a).sys.procs[i].value
         == Proc(i + 1, w.sys.cur + 1, Ready, 20, 0, None, w.sys.procs[w.sys.cur].value.ticks)
  {
    NextSlot(w, a, i);
    if Switches(w, a) {
      SwitchSlot(if a == Runs.Tick then Charge(w.sys) else w.sys, i);
    }
  }

  /** What is written into a record after that. */
  ghost predicate Written(p: Proc, p': Proc, a: Action, me: bool) {
    && p'.pid == p.pid
    && p'.ppid == p.ppid
    && p'.nice == (if !(a.Nice? && me) then p.nice
                   else if a.n > 19 then 19 else if a.n < -20 then -20 else a.n)
    && p'.ticks == p.ticks + (if a == Runs.Tick && me then 1 else 0)
    && p'.exitCode == (if a.Exit? && me then Some(a.code) else p.exitCode)
  }

  lemma RecordLaw(w: World, a: Action, i: nat)
    requires Inv(w) && Enabled(w, a) && i < NPROC && w.sys.procs[i].Some? && Next(w, a).sys.procs[i].Some?
    ensures Written(w.sys.procs[i].value, Next(w, a).sys.procs[i].value, a, i == w.sys.cur)
  {
    NextSlot(w, a, i);
    if Switches(w, a) {
      SwitchSlot(if a == Runs.Tick then Charge(w.sys) else w.sys, i);
    }
  }

  /** Priorities are those of the last sched_switch: it recomputes them all. */
  lemma PriorityLaw(w: World, a: Action, i: nat)
    requires Inv(w) && Enabled(w, a) && i < NPROC && w.sys.procs[i].Some? && Next(w, a).sys.procs[i].Some?
    ensures Next(w, a).sys.procs[i].value.priority ==
              if Switches(w, a) then DynamicOf(Next(w, a).sys, i) else w.sys.procs[i].value.priority
  {
    NextSlot(w, a, i);
    if Switches(w, a) {
      SwitchSlot(if a == Runs.Tick then Charge(w.sys) else w.sys, i);
    }
  }

  /** The new status of a task in slot i, if the CPU goes from slot c to slot c'. */
  function StatusAfterSwitch(st: Status, i: nat, c: nat, c': nat): Status {
    if i == c' && c' != c then Running
    else if i == c && st == Running then Ready
    else st
  }

  lemma SwitchStatus(s: Sys, i: nat)
    requires Wf(s) && i < NPROC && s.procs[i].Some?
    ensures Switch(s).procs[i].Some?
    ensures Switch(s).procs[i].value.status == StatusAfterSwitch(s.procs[i].value.status, i, s.cur, Switch(s).cur)
  {
    SwitchMoves(s);
  }

  /** The caller sleeps for its children, or dies; the parent that sleeps for it
      is woken; a switch makes the caller READY, if it can run, and the chosen
      task RUNNING, if it is another; and nothing else changes anyone's status. */
  lemma StatusLaw(w: World, a: Action, i: nat)
    requires Inv(w) && Enabled(w, a) && i < NPROC && w.sys.procs[i].Some? && Next(w, a).sys.procs[i].Some?
    ensures var st, c := w.sys.procs[i].value.status, w.sys.cur;
            Next(w, a).sys.procs[i].value.status ==
              if Switches(w, a) then StatusAfterSwitch(st, i, c, Next(w, a).sys.cur)
              else if Scans(w, a) && !HasDeadChild(w.sys.procs, c + 1) && i == c then Sleeping
              else if a.Exit? && i == c then Zombie
              else if a.Exit? && st == Sleeping && w.sys.procs[c].value.ppid == i + 1 then Running
              else st
  {
    NextSlot(w, a, i);
    if Switches(w, a) {
      SwitchStatus(if a == Runs.Tick then Charge(w.sys) else w.sys, i);
    } else if a.Exit? {
      ExitStatus(w, a.code, i);
    }
  }

  lemma ExitStatus(w: World, code: int, i: nat)
    requires Inv(w) && Enabled(w, Exit(code)) && i < NPROC && w.sys.procs[i].Some?
    ensures var e' := Next(w, Exit(code)).sys.procs[i];
            e'.Some? && e'.value.status ==
              if i == w.sys.cur then Zombie
              else if Is(w.sys.procs[i], Sleeping) && w.sys.procs[w.sys.cur].value.ppid == i + 1 then Running
              else w.sys.procs[i].value.status
  {
    var dead := Current(w.sys).(status := Zombie, exitCode := Some(code));
    var ps := w.sys.procs[w.sys.cur := Some(dead)];
    if i != w.sys.cur && Is(w.sys.procs[i], Sleeping) && dead.ppid == i + 1 {
      SleeperFound(w.sys.(procs := ps), i);
    }
  }

  /** Who has the CPU: the best of those that want it, after a switch; a parent
      that slept for the caller, after its exit; and otherwise still the caller. */
  lemma CurrentLaw(w: World, a: Action)
    requires Inv(w) && Enabled(w, a)
    ensures var c, p := Next(w, a).sys.cur, w.sys.procs[w.sys.cur].value.ppid;
            if a == Runs.Tick then Best(Charge(w.sys), c)
            else if Switches(w, a) then Best(w.sys, c)
            else if a.Exit? && 1 <= p <= NPROC && p - 1 != w.sys.cur && Is(w.sys.procs[p - 1], Sleeping) then c == p - 1
            else c == w.sys.cur
  {
    match a
    case Tick => SwitchChooses(Charge(w.sys));
    case Resume => if Switches(w, a) { SwitchChooses(w.sys); }
    case Exit(code) => ExitCurrent(w, code);
    case _ =>
  }

  lemma ExitCurrent(w: World, code: int)
    requires Inv(w) && Enabled(w, Exit(code))
    ensures var c, p := Next(w, Exit(code)).sys.cur, w.sys.procs[w.sys.cur].value.ppid;
            c == if 1 <= p <= NPROC && p - 1 != w.sys.cur && Is(w.sys.procs[p - 1], Sleeping) then p - 1 else w.sys.cur
  {
    var dead := Current(w.sys).(status := Zombie, exitCode := Some(code));
    var ps := w.sys.procs[w.sys.cur := Some(dead)];
    var p := dead.ppid;
    if 1 <= p <= NPROC && p - 1 != w.sys.cur && Is(w.sys.procs[p - 1], Sleeping) {
      SleeperFound(w.sys.(procs := ps), p - 1);
    }
  }

  /** Where each task goes on. Only the caller's place changes, but for the child
      of a fork, which starts in its own code. */
  lemma PlaceLaw(w: World, a: Action, i: nat)
    requires Inv(w) && Enabled(w, a) && i < NPROC
    ensures Next(w, a).at[i] ==
              if a == Runs.Fork && FirstFree(w.sys.procs, i) then User
              else if i != w.sys.cur then w.at[i]
              else if Scans(w, a) then (if HasDeadChild(w.sys.procs, i + 1) then User else InWait)
              else if a.Exit? then InExit
              else if a == Resume && w.at[i] == InWait then InLoop
              else if a == Resume && Next(w, a).sys.cur == i then User
              else w.at[i]
  {
  }

  /** The two counters. */
  lemma CounterLaw(w: World, a: Action)
    requires Inv(w) && Enabled(w, a)
    ensures Next(w, a).sys.tickCount == w.sys.tickCount + (if a == Runs.Tick then 1 else 0)
    ensures Next(w, a).sys.procCount == w.sys.procCount
              + (if a == Runs.Fork && exists i :: FirstFree(w.sys.procs, i) then 1 else 0) - (if a.Exit? then 1 else 0)
  {
    if a == Runs.Fork && NextPid(w.sys.procs) != -1 {
      assert FirstFree(w.sys.procs, NextPid(w.sys.procs) - 1);
    }
  }

  /** Where it all begins: pid 1, its own parent, RUNNING in its own code, alone. */
  lemma StartLaw()
    ensures var w := Start();
            && w.sys.cur == 0 && w.sys.procCount == 1 && w.sys.tickCount == 0
            && |w.sys.procs| == |w.at| == 1023
            && (forall i :: 0 <= i < 1023 ==> w.at[i] == User)
            && w.sys.procs[0] == Some(Proc(1, 1, Running, 20, 0, None, 0))
            && (forall i :: 1 <= i < 1023 ==> w.sys.procs[i] == None)
  {
  }
}
