/** The process table of ps9/sched.c as a value, and what each of its
    operations does to it. A table slot is NULL (None) or a task; slot i
    belongs to pid i + 1. Each function below is one atomic step: the bodies
    run with signals blocked, but for sched_nice, which makes a single store. */
module Table {
  import opened Util

  const NPROC: nat := 1023

  datatype Status = Ready | Running | Sleeping | Zombie

  /** exitCode is None while the C field has never been written. */
  datatype Proc = Proc(
    pid: int, ppid: int, status: Status, priority: int, nice: int,
    exitCode: Option<int>, ticks: nat)

  /** cur is the slot of the task that `current` points to. */
  datatype Sys = Sys(procs: seq<Option<Proc>>, cur: nat, procCount: int, tickCount: nat)

  predicate NiceOk(n: int) {
    -20 <= n <= 19
  }

  ghost predicate NiceTable(ps: seq<Option<Proc>>) {
    forall i :: 0 <= i < |ps| && ps[i].Some? ==> NiceOk(ps[i].value.nice)
  }

  /** What the pointer operations of the source rely on. */
  ghost predicate Wf(s: Sys) {
    && |s.procs| == NPROC
    && s.cur < NPROC && s.procs[s.cur].Some?
    && (forall i :: 0 <= i < NPROC && s.procs[i].Some? ==> s.procs[i].value.pid == i + 1)
    && NiceTable(s.procs)
  }

  ghost predicate Is(e: Option<Proc>, st: Status) {
    e.Some? && e.value.status == st
  }

  ghost function Current(s: Sys): Proc
    requires Wf(s)
  {
    s.procs[s.cur].value
  }

  function WithStatus(p: Proc, st: Status): Proc {
    p.(status := st)
  }

  // ---- Boot, fork, exit, wait, nice ----

  ghost function Boot(): (s: Sys)
    ensures Wf(s)
  {
    var init := Proc(1, 1, Running, 20, 0, None, 0);
    Sys(seq(NPROC, i => if i == 0 then Some(init) else None), 0, 1, 0)
  }

  /** The least slot from i on that is empty, as a pid; -1 when there is none. */
  ghost function NextPid(ps: seq<Option<Proc>>, i: nat := 0): (r: int)
    requires i <= |ps|
    ensures r == -1 || i < r <= |ps|
    ensures r == -1 <==> forall j :: i <= j < |ps| ==> ps[j].Some?
    ensures r != -1 ==> ps[r - 1].None? && forall j :: i <= j < r - 1 ==> ps[j].Some?
    decreases |ps| - i
  {
    if i == |ps| then -1 else if ps[i].None? then i + 1 else NextPid(ps, i + 1)
  }

  ghost function Child(s: Sys, pid: int): Proc
    requires Wf(s)
  {
    Proc(pid, Current(s).pid, Ready, 20, 0, None, Current(s).ticks)
  }

  ghost function Fork(s: Sys): (r: (Sys, int))
    requires Wf(s)
    ensures Wf(r.0)
  {
    var pid := NextPid(s.procs);
    if pid == -1 then (s, -1)
    else (s.(procs := s.procs[pid - 1 := Some(Child(s, pid))], procCount := s.procCount + 1), pid)
  }

  /** The first slot from i on whose task has this pid and sleeps; -1 if none. */
  ghost function SleepingTask(ps: seq<Option<Proc>>, pid: int, i: nat := 0): (r: int)
    requires i <= |ps|
    ensures r == -1 || i <= r < |ps|
    ensures r == -1 <==> forall j :: i <= j < |ps| ==> !(Is(ps[j], Sleeping) && ps[j].value.pid == pid)
    ensures r != -1 ==> Is(ps[r], Sleeping) && ps[r].value.pid == pid
    ensures r != -1 ==> forall j :: i <= j < r ==> !(Is(ps[j], Sleeping) && ps[j].value.pid == pid)
    decreases |ps| - i
  {
    if i == |ps| then -1
    else if Is(ps[i], Sleeping) && ps[i].value.pid == pid then i
    else SleepingTask(ps, pid, i + 1)
  }

  ghost function Exit(s: Sys, code: int): (s': Sys)
    requires Wf(s)
    ensures Wf(s')
  {
    var dead := Current(s).(status := Zombie, exitCode := Some(code));
    var ps := s.procs[s.cur := Some(dead)];
    var r := SleepingTask(ps, dead.ppid);
    if r == -1 then s.(procs := ps, procCount := s.procCount - 1)
    else s.(procs := ps[r := Some(WithStatus(ps[r].value, Running))], cur := r, procCount := s.procCount - 1)
  }

  ghost predicate IsChild(e: Option<Proc>, pid: int) {
    e.Some? && e.value.ppid == pid
  }

  ghost predicate HasChild(ps: seq<Option<Proc>>, pid: int) {
    exists i :: 0 <= i < |ps| && IsChild(ps[i], pid)
  }

  ghost predicate DeadChild(e: Option<Proc>, pid: int) {
    IsChild(e, pid) && Is(e, Zombie)
  }

  ghost predicate HasDeadChild(ps: seq<Option<Proc>>, pid: int) {
    exists i :: 0 <= i < |ps| && DeadChild(ps[i], pid)
  }

  /** The first zombie child of pid from slot i on; -1 if there is none. */
  ghost function ZombieChild(ps: seq<Option<Proc>>, pid: int, i: nat := 0): (r: int)
    requires i <= |ps|
    ensures r == -1 || i <= r < |ps|
    ensures r == -1 <==> forall j :: i <= j < |ps| ==> !DeadChild(ps[j], pid)
    ensures r != -1 ==> DeadChild(ps[r], pid) && forall j :: i <= j < r ==> !DeadChild(ps[j], pid)
    decreases |ps| - i
  {
    if i == |ps| then -1 else if DeadChild(ps[i], pid) then i else ZombieChild(ps, pid, i + 1)
  }

  /** One pass of the loop in sched_wait: reap the first zombie child, or go to
      sleep. The second component is the code read, present after a reaping. */
  ghost function Scan(s: Sys): (r: (Sys, Option<int>))
    requires Wf(s) && Current(s).status != Zombie
    ensures Wf(r.0)
  {
    var z := ZombieChild(s.procs, Current(s).pid);
    if z == -1 then (s.(procs := s.procs[s.cur := Some(WithStatus(Current(s), Sleeping))]), None)
    else (s.(procs := s.procs[z := None]), s.procs[z].value.exitCode)
  }

  function Clamp(n: int): (r: int)
    ensures NiceOk(r)
    ensures NiceOk(n) ==> r == n
    ensures n > 19 ==> r == 19
    ensures n < -20 ==> r == -20
  {
    if n > 19 then 19 else if n < -20 then -20 else n
  }

  ghost function Nice(s: Sys, n: int): (s': Sys)
    requires Wf(s)
    ensures Wf(s')
  {
    s.(procs := s.procs[s.cur := Some(Current(s).(nice := Clamp(n)))])
  }

  // ---- Switching ----

  /** The dynamic priority. The ticks are never negative and the divisor is
      positive, so C's truncating division is Dafny's. */
  function Dynamic(nice: int, ticks: nat): (r: int)
    requires NiceOk(nice)
    ensures 1 <= r <= 40
  {
    var temp := 20 - nice - ticks / (20 - nice);
    if temp <= 0 then 1 else temp
  }

  function Refresh(e: Option<Proc>): Option<Proc>
    requires e.Some? ==> NiceOk(e.value.nice)
  {
    if e.None? then None else Some(e.value.(priority := Dynamic(e.value.nice, e.value.ticks)))
  }

  ghost function Refreshed(ps: seq<Option<Proc>>): (r: seq<Option<Proc>>)
    requires NiceTable(ps)
    ensures |r| == |ps|
    ensures forall i :: 0 <= i < |ps| ==> r[i] == Refresh(ps[i])
  {
    seq(|ps|, i requires 0 <= i < |ps| => Refresh(ps[i]))
  }

  function Yield(p: Proc): Proc {
    if p.status != Sleeping && p.status != Zombie then WithStatus(p, Ready) else p
  }

  /** The table on which sched_switch makes its choice. */
  ghost function Queue(s: Sys): (ps: seq<Option<Proc>>)
    requires Wf(s)
    ensures |ps| == NPROC
    ensures forall i :: 0 <= i < NPROC && i != s.cur ==> ps[i] == Refresh(s.procs[i])
    ensures ps[s.cur] == Some(Yield(Refresh(s.procs[s.cur]).value))
  {
    var ps := Refreshed(s.procs);
    ps[s.cur := Some(Yield(ps[s.cur].value))]
  }

  /** Entry b is the READY task of greatest positive priority among the first n
      slots, the lowest slot among equals; b is -1 when there is none. */
  ghost predicate FirstBest(ps: seq<Option<Proc>>, n: nat, b: int)
    requires n <= |ps|
  {
    if b == -1 then forall j :: 0 <= j < n && Is(ps[j], Ready) ==> ps[j].value.priority <= 0
    else
      && 0 <= b < n && Is(ps[b], Ready) && ps[b].value.priority > 0
      && forall j :: 0 <= j < n && Is(ps[j], Ready) ==>
           if j < b then ps[j].value.priority < ps[b].value.priority
           else ps[j].value.priority <= ps[b].value.priority
  }

  ghost function Pick(ps: seq<Option<Proc>>, n: nat): (b: int)
    requires n <= |ps|
    ensures FirstBest(ps, n, b)
  {
    if n == 0 then -1
    else
      var b := Pick(ps, n - 1);
      var high := if b == -1 then 0 else ps[b].value.priority;
      if Is(ps[n - 1], Ready) && ps[n - 1].value.priority > high then n - 1 else b
  }

  ghost function Switch(s: Sys): (s': Sys)
    requires Wf(s)
    ensures Wf(s')
  {
    var ps := Queue(s);
    var b := Pick(ps, NPROC);
    if b == -1 || b == s.cur then s.(procs := ps)
    else s.(procs := ps[b := Some(WithStatus(ps[b].value, Running))], cur := b)
  }

  ghost function Charge(s: Sys): (s': Sys)
    requires Wf(s)
    ensures Wf(s')
  {
    s.(procs := s.procs[s.cur := Some(Current(s).(ticks := Current(s).ticks + 1))],
       tickCount := s.tickCount + 1)
  }

  ghost function Tick(s: Sys): (s': Sys)
    requires Wf(s)
    ensures Wf(s')
  {
    Switch(Charge(s))
  }

  /** A task that wants the CPU: READY, or running on it. */
  ghost predicate Candidate(s: Sys, i: nat)
    requires Wf(s) && i < NPROC
  {
    Is(s.procs[i], Ready) || (i == s.cur && Is(s.procs[i], Running))
  }

  ghost function DynamicOf(s: Sys, i: nat): int
    requires Wf(s) && i < NPROC && s.procs[i].Some?
  {
    Dynamic(s.procs[i].value.nice, s.procs[i].value.ticks)
  }

  // ---- What a switch can change ----

  /** The same task, with only its priority and its place on the run queue changed. */
  ghost predicate Kept(e: Option<Proc>, e': Option<Proc>) {
    if e.None? then e'.None?
    else
      && e'.Some?
      && e'.value == e.value.(status := e'.value.status, priority := e'.value.priority)
      && (Is(e, Sleeping) <==> Is(e', Sleeping))
      && (Is(e, Zombie) <==> Is(e', Zombie))
  }

  lemma SwitchKeeps(s: Sys)
    requires Wf(s)
    ensures forall i :: 0 <= i < NPROC ==> Kept(s.procs[i], Switch(s).procs[i])
    ensures Switch(s).procCount == s.procCount
    ensures Switch(s).tickCount == s.tickCount
    ensures forall i :: 0 <= i < NPROC && Is(Switch(s).procs[i], Running) && !Is(s.procs[i], Running) ==>
              i == Switch(s).cur
    ensures forall i :: 0 <= i < NPROC && i != s.cur && Is(s.procs[i], Ready) ==>
              Is(Switch(s).procs[i], Ready) || i == Switch(s).cur
    ensures !Is(Switch(s).procs[s.cur], Running)
  {
  }

  /** Whatever is on the CPU afterwards either stayed there, or was READY and
      is now the only task the switch made RUNNING. */
  lemma SwitchMoves(s: Sys)
    requires Wf(s)
    ensures Switch(s).cur != s.cur ==> Is(s.procs[Switch(s).cur], Ready) && Is(Switch(s).procs[Switch(s).cur], Running)
    ensures Switch(s).cur == s.cur ==> Switch(s).procs == Queue(s)
  {
  }

  /** Selection meets its specification: every recomputed priority is in 1..40,
      so the scan finds nothing exactly when nothing is READY, and otherwise it
      finds the READY task of maximal priority in the lowest slot. */
  lemma SelectionIsBest(s: Sys)
    requires Wf(s)
    ensures forall i :: 0 <= i < NPROC && Queue(s)[i].Some? ==> 1 <= Queue(s)[i].value.priority <= 40
    ensures var b := Pick(Queue(s), NPROC);
            && (b == -1 <==> forall i :: 0 <= i < NPROC ==> !Is(Queue(s)[i], Ready))
            && (b != -1 ==> 0 <= b < NPROC && Is(Queue(s)[b], Ready))
            && (b != -1 ==> forall i :: 0 <= i < NPROC && Is(Queue(s)[i], Ready) ==>
                  Queue(s)[i].value.priority < Queue(s)[b].value.priority
                  || (Queue(s)[i].value.priority == Queue(s)[b].value.priority && b <= i))
  {
    var ps := Queue(s);
    forall i | 0 <= i < NPROC && ps[i].Some?
      ensures 1 <= ps[i].value.priority <= 40
    {
      assert s.procs[i].Some? && NiceOk(s.procs[i].value.nice);
    }
    assert FirstBest(ps, NPROC, Pick(ps, NPROC));
  }

  /** Of the tasks that want the CPU, c has the highest dynamic priority, and is
      the one in the lowest slot that has it; c is the current task if none wants it. */
  ghost predicate Best(s: Sys, c: nat)
    requires Wf(s)
  {
    if forall i :: 0 <= i < NPROC ==> !Candidate(s, i) then c == s.cur
    else
      && c < NPROC && Candidate(s, c)
      && forall j :: 0 <= j < NPROC && Candidate(s, j) ==>
           if j < c then DynamicOf(s, j) < DynamicOf(s, c) else DynamicOf(s, j) <= DynamicOf(s, c)
  }

  /** Who gets the CPU, in every state from which sched_switch is called. */
  lemma SwitchChooses(s: Sys)
    requires Wf(s)
    ensures Best(s, Switch(s).cur)
  {
    var ps := Queue(s);
    SelectionIsBest(s);
    forall i | 0 <= i < NPROC
      ensures Is(ps[i], Ready) <==> Candidate(s, i)
      ensures ps[i].Some? ==> ps[i].value.priority == DynamicOf(s, i)
    {
    }
  }
}
