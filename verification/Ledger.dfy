/** Conservation over whole runs of the scheduler: no tick, no exit code and no
    pid is lost, invented or handed out twice. */
module Ledger {
  import opened Util
  import opened Table
  import opened Runs

  // ---- Reading the history ----

  ghost function TicksIn(log: seq<Event>): nat {
    if |log| == 0 then 0
    else TicksIn(log[..|log| - 1]) + if log[|log| - 1].Ticked? then 1 else 0
  }

  /** Ticks that tasks were born with, over every task ever created. */
  ghost function Inherited(log: seq<Event>): nat {
    if |log| == 0 then 0
    else Inherited(log[..|log| - 1]) + match log[|log| - 1] { case Born(_, t) => t case _ => 0 }
  }

  /** Final ticks of the tasks that have been reaped. */
  ghost function Retired(log: seq<Event>): nat {
    if |log| == 0 then 0
    else Retired(log[..|log| - 1]) + match log[|log| - 1] { case Took(_, t) => t case _ => 0 }
  }

  /** How often this parcel was given to sched_exit. */
  ghost function Given(log: seq<Event>, x: Parcel): nat {
    if |log| == 0 then 0
    else Given(log[..|log| - 1], x) + if log[|log| - 1] == Gave(x) then 1 else 0
  }

  /** How often this parcel was delivered by sched_wait. */
  ghost function Taken(log: seq<Event>, x: Parcel): nat {
    if |log| == 0 then 0
    else Taken(log[..|log| - 1], x) + if log[|log| - 1].Took? && log[|log| - 1].parcel == x then 1 else 0
  }

  /** The pids born and not yet reaped. */
  ghost function Live(log: seq<Event>): set<int> {
    if |log| == 0 then {}
    else
      match log[|log| - 1]
      case Born(pid, _) => Live(log[..|log| - 1]) + {pid}
      case Took(p, _) => Live(log[..|log| - 1]) - {p.child}
      case _ => Live(log[..|log| - 1])
  }

  lemma Append(log: seq<Event>, e: Event)
    ensures (log + [e])[..|log + [e]| - 1] == log
    ensures (log + [e])[|log + [e]| - 1] == e
  {
  }

  // ---- Reading the table ----

  function TicksOf(e: Option<Proc>): int {
    if e.Some? then e.value.ticks else 0
  }

  ghost function TickSeq(ps: seq<Option<Proc>>): (xs: seq<int>)
    ensures |xs| == |ps|
    ensures forall i :: 0 <= i < |ps| ==> xs[i] == TicksOf(ps[i])
  {
    seq(|ps|, i requires 0 <= i < |ps| => TicksOf(ps[i]))
  }

  /** 1 if this entry is a zombie that holds the parcel. */
  function Holds(e: Option<Proc>, x: Parcel): int {
    if e.Some? && e.value.status == Zombie && e.value.exitCode.Some?
       && x == Parcel(e.value.pid, e.value.ppid, e.value.exitCode.value) then 1 else 0
  }

  ghost function HeldSeq(ps: seq<Option<Proc>>, x: Parcel): (xs: seq<int>)
    ensures |xs| == |ps|
    ensures forall i :: 0 <= i < |ps| ==> xs[i] == Holds(ps[i], x)
  {
    seq(|ps|, i requires 0 <= i < |ps| => Holds(ps[i], x))
  }

  ghost predicate InTable(ps: seq<Option<Proc>>, pid: int) {
    1 <= pid <= |ps| && ps[pid - 1].Some?
  }

  lemma HeldUpdate(ps: seq<Option<Proc>>, i: nat, e: Option<Proc>, x: Parcel)
    requires i < |ps|
    ensures Sum(HeldSeq(ps[i := e], x)) == Sum(HeldSeq(ps, x)) - Holds(ps[i], x) + Holds(e, x)
  {
    assert HeldSeq(ps[i := e], x) == HeldSeq(ps, x)[i := Holds(e, x)];
    SumUpdate(HeldSeq(ps, x), i, Holds(e, x));
  }

  lemma TicksUpdate(ps: seq<Option<Proc>>, i: nat, e: Option<Proc>)
    requires i < |ps|
    ensures Sum(TickSeq(ps[i := e])) == Sum(TickSeq(ps)) - TicksOf(ps[i]) + TicksOf(e)
  {
    assert TickSeq(ps[i := e]) == TickSeq(ps)[i := TicksOf(e)];
    SumUpdate(TickSeq(ps), i, TicksOf(e));
  }

  // ---- The books ----

  ghost predicate TickBook(w: World) {
    && w.sys.tickCount == TicksIn(w.log)
    && w.sys.tickCount + Inherited(w.log)
       == Sum(TickSeq(w.sys.procs)) + Retired(w.log)
    && (forall i :: 0 <= i < |w.sys.procs| ==> TicksOf(w.sys.procs[i]) <= w.sys.tickCount)
  }

  ghost predicate CodeBook(w: World, x: Parcel) {
    Given(w.log, x) == Taken(w.log, x) + Sum(HeldSeq(w.sys.procs, x))
  }

  ghost predicate PidBook(w: World) {
    && Unreused(w.log)
    && forall p :: p in Live(w.log) <==> InTable(w.sys.procs, p)
  }

  /** No birth hands out a pid that is still live. */
  ghost predicate Unreused(log: seq<Event>) {
    forall i :: 0 <= i < |log| && log[i].Born? ==> log[i].pid !in Live(log[..i])
  }

  lemma UnreusedAppend(log: seq<Event>, e: Event)
    requires Unreused(log)
    requires e.Born? ==> e.pid !in Live(log)
    ensures Unreused(log + [e])
  {
    var log' := log + [e];
    forall i | 0 <= i < |log'| && log'[i].Born?
      ensures log'[i].pid !in Live(log'[..i])
    {
      assert log'[..i] == log[..i];
      if i == |log| {
        assert log[..i] == log;
      }
    }
  }

  // ---- Each action keeps the ticks ----

  lemma SwitchTicks(s: Sys)
    requires Wf(s)
    ensures TickSeq(Switch(s).procs) == TickSeq(s.procs)
    ensures forall i :: 0 <= i < NPROC ==> TicksOf(Switch(s).procs[i]) == TicksOf(s.procs[i])
    ensures Switch(s).tickCount == s.tickCount
  {
    SwitchKeeps(s);
    forall i | 0 <= i < NPROC
      ensures TicksOf(Switch(s).procs[i]) == TicksOf(s.procs[i])
    {
      assert Kept(s.procs[i], Switch(s).procs[i]);
    }
  }

  lemma TickTicks(w: World)
    requires Inv(w) && TickBook(w)
    ensures TickBook(Next(w, Tick))
  {
    var s := Charge(w.sys);
    var c := w.sys.cur;
    Append(w.log, Ticked);
    TicksUpdate(w.sys.procs, c, s.procs[c]);
    SwitchTicks(s);
    var w' := Next(w, Tick);
    forall i | 0 <= i < NPROC
      ensures TicksOf(w'.sys.procs[i]) <= w'.sys.tickCount
    {
      assert TicksOf(w'.sys.procs[i]) == TicksOf(s.procs[i]);
      assert TicksOf(w.sys.procs[i]) <= w.sys.tickCount;
    }
  }

  lemma BornTicks(w: World, w': World, i: nat, child: Proc, me: nat)
    requires TickBook(w) && i < |w.sys.procs| && me < |w.sys.procs|
    requires w.sys.procs[i].None? && w.sys.procs[me].Some? && child.ticks == w.sys.procs[me].value.ticks
    requires w'.sys.procs == w.sys.procs[i := Some(child)] && w'.sys.tickCount == w.sys.tickCount
    requires w'.log == w.log + [Born(i + 1, child.ticks)]
    ensures TickBook(w')
  {
    Append(w.log, Born(i + 1, child.ticks));
    TicksUpdate(w.sys.procs, i, Some(child));
    assert TicksOf(w.sys.procs[me]) <= w.sys.tickCount;
  }

  lemma ForkTicks(w: World)
    requires Inv(w) && TickBook(w) && Enabled(w, Fork)
    ensures TickBook(Next(w, Fork))
  {
    var pid := NextPid(w.sys.procs);
    if pid != -1 {
      BornTicks(w, Next(w, Fork), pid - 1, Child(w.sys, pid), w.sys.cur);
    }
  }

  lemma ExitTicks(w: World, code: int)
    requires Inv(w) && TickBook(w) && Enabled(w, Exit(code))
    ensures TickBook(Next(w, Exit(code)))
  {
    var w' := Next(w, Exit(code));
    Append(w.log, Gave(Parcel(Current(w.sys).pid, Current(w.sys).ppid, code)));
    assert forall j :: 0 <= j < NPROC ==> TicksOf(w'.sys.procs[j]) == TicksOf(w.sys.procs[j]);
    assert TickSeq(w'.sys.procs) == TickSeq(w.sys.procs);
  }

  lemma ReapedTicks(w: World, w': World, z: nat, parcel: Parcel)
    requires TickBook(w) && z < |w.sys.procs| && w.sys.procs[z].Some?
    requires w'.sys.procs == w.sys.procs[z := None] && w'.sys.tickCount == w.sys.tickCount
    requires w'.log == w.log + [Took(parcel, w.sys.procs[z].value.ticks)]
    ensures TickBook(w')
  {
    Append(w.log, Took(parcel, w.sys.procs[z].value.ticks));
    TicksUpdate(w.sys.procs, z, None);
  }

  lemma PassTicks(w: World)
    requires Inv(w) && TickBook(w) && Current(w.sys).status != Zombie
    ensures TickBook(Pass(w))
  {
    var ps := w.sys.procs;
    var z := ZombieChild(ps, Current(w.sys).pid);
    if z == -1 {
      assert TickSeq(Pass(w).sys.procs) == TickSeq(ps);
    } else {
      ReapedTicks(w, Pass(w), z, Parcel(ps[z].value.pid, Current(w.sys).pid, ps[z].value.exitCode.value));
    }
  }

  lemma NextTicks(w: World, a: Action)
    requires Inv(w) && TickBook(w) && Enabled(w, a)
    ensures TickBook(Next(w, a))
  {
    match a
    case Tick => TickTicks(w);
    case Nice(n) => assert TickSeq(Next(w, a).sys.procs) == TickSeq(w.sys.procs);
    case Fork => ForkTicks(w);
    case Exit(code) => ExitTicks(w, code);
    case Wait => if HasChild(w.sys.procs, Current(w.sys).pid) { PassTicks(w); }
    case Resume => if w.at[w.sys.cur] == InLoop { PassTicks(w); } else { SwitchTicks(w.sys); }
  }

  // ---- Each action keeps the exit codes ----

  lemma SwitchCodes(s: Sys, x: Parcel)
    requires Wf(s)
    ensures HeldSeq(Switch(s).procs, x) == HeldSeq(s.procs, x)
  {
    SwitchKeeps(s);
    forall i | 0 <= i < NPROC
      ensures Holds(Switch(s).procs[i], x) == Holds(s.procs[i], x)
    {
      assert Kept(s.procs[i], Switch(s).procs[i]);
    }
  }

  lemma ExitCodes(w: World, code: int, x: Parcel)
    requires Inv(w) && CodeBook(w, x) && Enabled(w, Exit(code))
    ensures CodeBook(Next(w, Exit(code)), x)
  {
    var c := w.sys.cur;
    var me := Current(w.sys);
    var dead := me.(status := Zombie, exitCode := Some(code));
    var qs := w.sys.procs[c := Some(dead)];
    var w' := Next(w, Exit(code));
    Append(w.log, Gave(Parcel(me.pid, me.ppid, code)));
    HeldUpdate(w.sys.procs, c, Some(dead), x);
    assert HeldSeq(w'.sys.procs, x) == HeldSeq(qs, x);
  }

  lemma ReapedCodes(w: World, w': World, z: nat, e: Event, x: Parcel)
    requires CodeBook(w, x) && z < |w.sys.procs| && e.Took?
    requires Holds(w.sys.procs[z], e.parcel) == 1
    requires w'.sys.procs == w.sys.procs[z := None] && w'.log == w.log + [e]
    ensures CodeBook(w', x)
  {
    Append(w.log, e);
    HeldUpdate(w.sys.procs, z, None, x);
  }

  lemma PassCodes(w: World, x: Parcel)
    requires Inv(w) && CodeBook(w, x) && Current(w.sys).status != Zombie
    ensures CodeBook(Pass(w), x)
  {
    var ps := w.sys.procs;
    var z := ZombieChild(ps, Current(w.sys).pid);
    if z == -1 {
      assert HeldSeq(Pass(w).sys.procs, x) == HeldSeq(ps, x);
    } else {
      var dead := ps[z].value;
      ReapedCodes(w, Pass(w), z, Took(Parcel(dead.pid, Current(w.sys).pid, dead.exitCode.value), dead.ticks), x);
    }
  }

  /** An event that moves no code, on a table that holds the same codes. */
  lemma CodesSame(w: World, w': World, x: Parcel)
    requires CodeBook(w, x) && HeldSeq(w'.sys.procs, x) == HeldSeq(w.sys.procs, x)
    requires w'.log == w.log || exists e: Event :: w'.log == w.log + [e] && !e.Gave? && !e.Took?
    ensures CodeBook(w', x)
  {
    if w'.log != w.log {
      var e: Event :| w'.log == w.log + [e] && !e.Gave? && !e.Took?;
      Append(w.log, e);
    }
  }

  lemma TickCodes(w: World, x: Parcel)
    requires Inv(w) && CodeBook(w, x)
    ensures CodeBook(Next(w, Tick), x)
  {
    assert HeldSeq(Charge(w.sys).procs, x) == HeldSeq(w.sys.procs, x);
    SwitchCodes(Charge(w.sys), x);
    CodesSame(w, Next(w, Tick), x);
  }

  lemma ForkCodes(w: World, x: Parcel)
    requires Inv(w) && CodeBook(w, x) && Enabled(w, Fork)
    ensures CodeBook(Next(w, Fork), x)
  {
    if NextPid(w.sys.procs) != -1 {
      assert HeldSeq(Next(w, Fork).sys.procs, x) == HeldSeq(w.sys.procs, x);
      CodesSame(w, Next(w, Fork), x);
    }
  }

  lemma ResumeCodes(w: World, x: Parcel)
    requires Inv(w) && CodeBook(w, x) && Enabled(w, Resume)
    ensures CodeBook(Next(w, Resume), x)
  {
    if w.at[w.sys.cur] == InLoop {
      PassCodes(w, x);
    } else {
      SwitchCodes(w.sys, x);
    }
  }

  lemma NextCodes(w: World, a: Action, x: Parcel)
    requires Inv(w) && CodeBook(w, x) && Enabled(w, a)
    ensures CodeBook(Next(w, a), x)
  {
    match a
    case Tick => TickCodes(w, x);
    case Nice(n) => assert HeldSeq(Next(w, a).sys.procs, x) == HeldSeq(w.sys.procs, x);
    case Fork => ForkCodes(w, x);
    case Exit(code) => ExitCodes(w, code, x);
    case Wait => if HasChild(w.sys.procs, Current(w.sys).pid) { PassCodes(w, x); }
    case Resume => ResumeCodes(w, x);
  }

  // ---- Each action keeps the pids ----

  ghost predicate SameSlots(ps: seq<Option<Proc>>, qs: seq<Option<Proc>>) {
    |ps| == |qs| && forall i :: 0 <= i < |ps| ==> (ps[i].Some? <==> qs[i].Some?)
  }

  lemma SwitchSlots(s: Sys)
    requires Wf(s)
    ensures SameSlots(s.procs, Switch(s).procs)
  {
    SwitchKeeps(s);
    assert forall i :: 0 <= i < NPROC ==> Kept(s.procs[i], Switch(s).procs[i]);
  }

  /** An event that is neither a birth nor a reaping, on a table with the same slots in use. */
  lemma PidsKept(w: World, w': World)
    requires PidBook(w) && SameSlots(w.sys.procs, w'.sys.procs)
    requires w'.log == w.log || exists e: Event :: w'.log == w.log + [e] && !e.Born? && !e.Took?
    ensures PidBook(w')
  {
    if w'.log != w.log {
      var e: Event :| w'.log == w.log + [e] && !e.Born? && !e.Took?;
      Append(w.log, e);
      UnreusedAppend(w.log, e);
    }
    forall p
      ensures p in Live(w'.log) <==> InTable(w'.sys.procs, p)
    {
      assert InTable(w'.sys.procs, p) <==> InTable(w.sys.procs, p);
    }
  }

  lemma ForkPids(w: World)
    requires Inv(w) && PidBook(w) && Enabled(w, Fork)
    ensures PidBook(Next(w, Fork))
  {
    var pid := NextPid(w.sys.procs);
    if pid != -1 {
      var w' := Next(w, Fork);
      var e := Born(pid, Current(w.sys).ticks);
      Append(w.log, e);
      assert !InTable(w.sys.procs, pid);
      UnreusedAppend(w.log, e);
      forall p
        ensures p in Live(w'.log) <==> InTable(w'.sys.procs, p)
      {
        assert p != pid ==> (InTable(w'.sys.procs, p) <==> InTable(w.sys.procs, p));
      }
    }
  }

  lemma PassPids(w: World)
    requires Inv(w) && PidBook(w) && Current(w.sys).status != Zombie
    ensures PidBook(Pass(w))
  {
    var ps := w.sys.procs;
    var z := ZombieChild(ps, Current(w.sys).pid);
    var w' := Pass(w);
    if z == -1 {
      PidsKept(w, w');
    } else {
      var dead := ps[z].value;
      var e := Took(Parcel(dead.pid, Current(w.sys).pid, dead.exitCode.value), dead.ticks);
      Append(w.log, e);
      UnreusedAppend(w.log, e);
      forall p
        ensures p in Live(w'.log) <==> InTable(w'.sys.procs, p)
      {
        assert p != z + 1 ==> (InTable(w'.sys.procs, p) <==> InTable(ps, p));
      }
    }
  }

  lemma NextPids(w: World, a: Action)
    requires Inv(w) && PidBook(w) && Enabled(w, a)
    ensures PidBook(Next(w, a))
  {
    match a
    case Tick =>
      SwitchSlots(Charge(w.sys));
      PidsKept(w, Next(w, a));
    case Fork => ForkPids(w);
    case Nice(n) => PidsKept(w, Next(w, a));
    case Exit(code) =>
      assert SameSlots(w.sys.procs, Next(w, a).sys.procs);
      PidsKept(w, Next(w, a));
    case Wait => if HasChild(w.sys.procs, Current(w.sys).pid) { PassPids(w); }
    case Resume =>
      if w.at[w.sys.cur] == InLoop {
        PassPids(w);
      } else {
        SwitchSlots(w.sys);
        PidsKept(w, Next(w, a));
      }
  }

  // ---- Runs keep the books ----

  ghost predicate Books(w: World) {
    && TickBook(w)
    && PidBook(w)
    && forall x :: CodeBook(w, x)
  }

  /** A table with one task in it. */
  lemma LoneTask(ps: seq<Option<Proc>>, x: Parcel)
    requires |ps| > 0 && forall i :: 0 < i < |ps| ==> ps[i].None?
    ensures Sum(TickSeq(ps)) == TicksOf(ps[0])
    ensures Sum(HeldSeq(ps, x)) == Holds(ps[0], x)
  {
    var empty: seq<Option<Proc>> := seq(|ps|, i => None);
    assert ps == empty[0 := ps[0]];
    SumConstant(TickSeq(empty), 0);
    TicksUpdate(empty, 0, ps[0]);
    SumConstant(HeldSeq(empty, x), 0);
    HeldUpdate(empty, 0, ps[0], x);
  }

  lemma FirstEvent(log: seq<Event>, x: Parcel)
    requires log == [Born(1, 0)]
    ensures TicksIn(log) == Inherited(log) == Retired(log) == Given(log, x) == Taken(log, x) == 0
    ensures Live(log) == {1} && Unreused(log)
  {
    assert log[..0] == [];
  }

  lemma StartTicks(w: World)
    requires w == Start()
    ensures TickBook(w)
  {
    LoneTask(w.sys.procs, Parcel(0, 0, 0));
    FirstEvent(w.log, Parcel(0, 0, 0));
  }

  lemma StartCodes(w: World, x: Parcel)
    requires w == Start()
    ensures CodeBook(w, x)
  {
    LoneTask(w.sys.procs, x);
    FirstEvent(w.log, x);
  }

  lemma StartPids(w: World)
    requires w == Start()
    ensures PidBook(w)
  {
    FirstEvent(w.log, Parcel(0, 0, 0));
  }

  lemma StartBooks()
    ensures Books(Start())
  {
    var w := Start();
    StartTicks(w);
    StartPids(w);
    forall x
      ensures CodeBook(w, x)
    {
      StartCodes(w, x);
    }
  }

  lemma NextBooks(w: World, a: Action)
    requires Inv(w) && Books(w) && Enabled(w, a)
    ensures Books(Next(w, a))
  {
    NextTicks(w, a);
    NextPids(w, a);
    forall x
      ensures CodeBook(Next(w, a), x)
    {
      assert CodeBook(w, x);
      NextCodes(w, a, x);
    }
  }

  // ---- The conservation laws ----

  lemma ReachableBooks()
    ensures forall w :: Reachable(w) ==> Books(w)
  {
    var P := x => Inv(x) && Books(x);
    forall x, a | P(x) && Enabled(x, a)
      ensures P(Next(x, a))
    {
      NextInv(x, a);
      NextBooks(x, a);
    }
    StartInv();
    StartBooks();
    forall w | Reachable(w)
      ensures Books(w)
    {
      ReachableKeeps(P, w);
    }
  }

  /** tick_count is the number of timer ticks, and equals the ticks of every
      task ever created, less what each was born with; and no table entry
      claims more ticks than there have been. */
  lemma TicksConserved(w: World)
    requires Reachable(w)
    ensures w.sys.tickCount == TicksIn(w.log)
    ensures w.sys.tickCount == Sum(TickSeq(w.sys.procs)) + Retired(w.log) - Inherited(w.log)
    ensures forall i :: 0 <= i < |w.sys.procs| && w.sys.procs[i].Some? ==>
              0 <= w.sys.procs[i].value.ticks <= w.sys.tickCount
  {
    ReachableBooks();
    forall i | 0 <= i < |w.sys.procs| && w.sys.procs[i].Some?
      ensures w.sys.procs[i].value.ticks <= w.sys.tickCount
    {
      assert TicksOf(w.sys.procs[i]) <= w.sys.tickCount;
    }
  }

  /** Every parcel given to sched_exit has been delivered by sched_wait, once,
      to the task whose pid is the child's ppid, or is still held by a zombie.
      A delivery is logged under the pid of the task that received it. */
  lemma ExitCodesConserved(w: World, x: Parcel)
    requires Reachable(w)
    ensures Given(w.log, x) == Taken(w.log, x) + Sum(HeldSeq(w.sys.procs, x))
  {
    ReachableBooks();
    assert CodeBook(w, x);
  }

  lemma {:induction false} LiveUntilTaken(log: seq<Event>, pid: int, i: nat, j: nat)
    requires i <= j <= |log|
    requires pid in Live(log[..i]) && pid !in Live(log[..j])
    ensures exists k :: i <= k < j && log[k].Took? && log[k].parcel.child == pid
  {
    if i < j {
      Append(log[..j - 1], log[j - 1]);
      assert log[..j] == log[..j - 1] + [log[j - 1]];
      if pid !in Live(log[..j - 1]) {
        LiveUntilTaken(log, pid, i, j - 1);
      } else {
        assert log[j - 1].Took? && log[j - 1].parcel.child == pid;
      }
    }
  }

  lemma RebirthNeedsReaping(log: seq<Event>, i: nat, j: nat)
    requires Unreused(log) && i < j < |log|
    requires log[i].Born? && log[j].Born? && log[i].pid == log[j].pid
    ensures exists k :: i < k < j && log[k].Took? && log[k].parcel.child == log[i].pid
  {
    Append(log[..i], log[i]);
    assert log[..i + 1] == log[..i] + [log[i]];
    assert log[i].pid in Live(log[..i + 1]);
    LiveUntilTaken(log, log[i].pid, i + 1, j);
  }

  /** A pid handed out twice was reaped in between. */
  lemma PidLifetime(w: World, i: nat, j: nat)
    requires Reachable(w)
    requires i < j < |w.log| && w.log[i].Born? && w.log[j].Born? && w.log[i].pid == w.log[j].pid
    ensures exists k :: i < k < j && w.log[k].Took? && w.log[k].parcel.child == w.log[i].pid
  {
    ReachableBooks();
    RebirthNeedsReaping(w.log, i, j);
  }

  /** pid is the least number in 1..NPROC outside the set, or -1 when there is none. */
  ghost predicate LeastUnused(live: set<int>, pid: int) {
    if pid == -1 then forall p :: 1 <= p <= NPROC ==> p in live
    else 1 <= pid <= NPROC && pid !in live && forall p :: 1 <= p < pid ==> p in live
  }

  /** A fork gets the least pid that is not in use, or -1 exactly when all are;
      the pids in use are those born and not yet reaped, zombies included. */
  lemma ForkPid(w: World)
    requires Reachable(w)
    ensures Wf(w.sys) && LeastUnused(Live(w.log), Table.Fork(w.sys).1)
  {
    ReachableInv(w);
    ReachableBooks();
    LeastFree(w.sys.procs, Live(w.log));
  }

  lemma LeastFree(ps: seq<Option<Proc>>, live: set<int>)
    requires |ps| == NPROC
    requires forall p :: p in live <==> InTable(ps, p)
    ensures LeastUnused(live, NextPid(ps))
  {
    forall p | 1 <= p <= NPROC && (NextPid(ps) == -1 || p < NextPid(ps))
      ensures p in live
    {
      assert ps[p - 1].Some? && InTable(ps, p);
    }
    if NextPid(ps) != -1 {
      assert !InTable(ps, NextPid(ps));
    }
  }
}
