/** Who gets the CPU when nothing but timer ticks happens. A READY task is ever
    dispatched if and only if its dynamic priority is at least 2 or no task in a
    lower slot can run; and then at a tick whose number has a formula. */
module Fairness {
  import opened Util
  import opened Table
  import opened Runs

  ghost function TickN(s: Sys, n: nat): (s': Sys)
    requires Wf(s)
    ensures Wf(s')
    decreases n
  {
    if n == 0 then s else TickN(Table.Tick(s), n - 1)
  }

  ghost predicate Lowest(s: Sys, t: nat)
    requires Wf(s) && t < NPROC
  {
    forall j :: 0 <= j < t ==> !Candidate(s, j)
  }

  // ---- The priority formula ----

  /** A priority of at least q >= 2 means fewer than k * (k - q + 1) ticks, k = 20 - nice. */
  lemma DynamicAtLeast(nice: int, ticks: nat, q: int)
    requires NiceOk(nice) && q >= 2
    ensures Dynamic(nice, ticks) >= q <==> ticks < (20 - nice) * (20 - nice - q + 1)
  {
    var k := 20 - nice;
    var d, r := ticks / k, ticks % k;
    assert ticks == k * d + r && 0 <= r < k;
    if k - d >= q {
      MulLe(k, d, k - q);
      assert k * (k - q + 1) == k * (k - q) + k;
    } else {
      MulLe(k, k - q + 1, d);
    }
  }

  lemma MulLe(k: nat, a: int, b: int)
    requires a <= b
    ensures k * a <= k * b
  {
  }

  /** The ticks this entry can still be charged before its priority drops below q. */
  function Credit(e: Option<Proc>, q: int): nat {
    if e.None? then 0
    else
      var k := 20 - e.value.nice;
      var c := k * (k - q + 1) - e.value.ticks;
      if c > 0 then c else 0
  }

  /** The task in slot i goes before t, of priority q, while it has at least q,
      or in a higher slot more than q. */
  ghost function CreditAt(s: Sys, t: nat, q: int, i: nat): nat
    requires Wf(s) && i < NPROC
  {
    if i != t && Candidate(s, i) then Credit(s.procs[i], if i < t then q else q + 1) else 0
  }

  /** The credits of every task but t that wants the CPU. */
  ghost function Credits(s: Sys, t: nat, q: int): (xs: seq<int>)
    requires Wf(s)
    ensures |xs| == NPROC
    ensures forall i :: 0 <= i < NPROC ==> xs[i] == CreditAt(s, t, q, i)
  {
    seq(NPROC, i requires 0 <= i < NPROC => CreditAt(s, t, q, i))
  }

  ghost function Debt(s: Sys, t: nat, q: int): (d: nat)
    requires Wf(s)
  {
    SumConstant(seq(NPROC, _ => 0), 0);
    SumMonotone(seq(NPROC, _ => 0), Credits(s, t, q));
    Sum(Credits(s, t, q))
  }

  // ---- One tick ----

  ghost predicate SameTask(e: Option<Proc>, e': Option<Proc>, charge: nat) {
    if e.None? then e'.None?
    else
      && e'.Some? && e'.value.nice == e.value.nice && e'.value.ticks == e.value.ticks + charge
  }

  /** A tick charges the current task and nobody else, and the tasks that want
      the CPU are the same before and after it. */
  lemma TickFrame(s: Sys, i: nat)
    requires Wf(s) && OneRunning(s) && i < NPROC
    ensures OneRunning(Table.Tick(s))
    ensures SameTask(s.procs[i], Table.Tick(s).procs[i], if i == s.cur then 1 else 0)
    ensures Candidate(s, i) <==> Candidate(Table.Tick(s), i)
  {
    var c := Charge(s);
    SwitchKeeps(c);
    SwitchMoves(c);
    assert Kept(c.procs[i], Switch(c).procs[i]);
  }

  lemma TickCandidates(s: Sys)
    requires Wf(s) && OneRunning(s)
    ensures OneRunning(Table.Tick(s))
    ensures forall i :: 0 <= i < NPROC ==> (Candidate(s, i) <==> Candidate(Table.Tick(s), i))
  {
    forall i | 0 <= i < NPROC
      ensures Candidate(s, i) <==> Candidate(Table.Tick(s), i)
    {
      TickFrame(s, i);
    }
    TickFrame(s, 0);
  }

  /** While some task wants the CPU, a tick gives it to the best of them: no
      other has a higher dynamic priority, and none in a lower slot an equal one. */
  lemma TickPicks(s: Sys, t: nat)
    requires Wf(s) && OneRunning(s) && t < NPROC && Candidate(s, t)
    ensures Candidate(s, Table.Tick(s).cur)
    ensures DynamicOf(Charge(s), Table.Tick(s).cur) >= DynamicOf(Charge(s), t)
    ensures t < Table.Tick(s).cur ==> DynamicOf(Charge(s), Table.Tick(s).cur) > DynamicOf(Charge(s), t)
  {
    var c := Charge(s);
    assert forall i :: 0 <= i < NPROC ==> (Candidate(c, i) <==> Candidate(s, i));
    SwitchChooses(c);
    assert Candidate(c, t);
  }

  // ---- The tick that dispatches ----

  /** Waiting for the CPU with a claim to it: a dynamic priority of at least 2,
      or any priority at all in the lowest slot of those that want it. */
  ghost predicate Claims(s: Sys, t: nat, q: int) {
    && Wf(s) && OneRunning(s)
    && t < NPROC && t != s.cur && Is(s.procs[t], Ready)
    && DynamicOf(s, t) == q && (q >= 2 || Lowest(s, t))
  }

  lemma ClaimKept(s: Sys, t: nat, q: int)
    requires Claims(s, t, q) && Table.Tick(s).cur != t
    ensures Claims(Table.Tick(s), t, q)
  {
    TickCandidates(s);
    TickFrame(s, t);
    var s' := Table.Tick(s);
    assert Candidate(s, t) && Candidate(s', t);
  }

  /** After the tick a task has credit exactly if the switch put it before t. */
  lemma CreditMeans(s: Sys, t: nat, q: int, j: nat)
    requires Claims(s, t, q) && j < NPROC && j != t && Candidate(s, j)
    ensures CreditAt(Table.Tick(s), t, q, j) > 0 <==> DynamicOf(Charge(s), j) >= if j < t then q else q + 1
    ensures DynamicOf(Charge(s), t) == q
  {
    TickFrame(s, j);
    var e := Table.Tick(s).procs[j].value;
    assert Dynamic(e.nice, e.ticks) == DynamicOf(Charge(s), j);
    DynamicAtLeast(e.nice, e.ticks, if j < t then q else q + 1);
  }

  lemma WinnerHasCredit(s: Sys, t: nat, q: int)
    requires Claims(s, t, q) && Table.Tick(s).cur != t
    ensures CreditAt(Table.Tick(s), t, q, Table.Tick(s).cur) > 0
  {
    TickPicks(s, t);
    CreditMeans(s, t, q, Table.Tick(s).cur);
  }

  lemma LosersHaveNone(s: Sys, t: nat, q: int)
    requires Claims(s, t, q) && Table.Tick(s).cur == t
    ensures Debt(Table.Tick(s), t, q) == 0
  {
    var s' := Table.Tick(s);
    forall j | 0 <= j < NPROC
      ensures CreditAt(s', t, q, j) == 0
    {
      TickFrame(s, j);
      if j != t && Candidate(s, j) {
        TickPicks(s, j);
        CreditMeans(s, t, q, j);
      }
    }
    SumConstant(Credits(s', t, q), 0);
  }

  lemma CreditTick(s: Sys, t: nat, q: int, i: nat)
    requires Wf(s) && OneRunning(s) && i < NPROC
    ensures CreditAt(Table.Tick(s), t, q, i)
         == CreditAt(s, t, q, i) - if i == s.cur && CreditAt(s, t, q, i) > 0 then 1 else 0
  {
    TickFrame(s, i);
  }

  lemma DebtTick(s: Sys, t: nat, q: int)
    requires Wf(s) && OneRunning(s)
    ensures Debt(Table.Tick(s), t, q) == Debt(s, t, q) - if CreditAt(s, t, q, s.cur) > 0 then 1 else 0
  {
    var xs, ys := Credits(s, t, q), Credits(Table.Tick(s), t, q);
    forall i | 0 <= i < NPROC
      ensures ys[i] == xs[i] - if i == s.cur && xs[i] > 0 then 1 else 0
    {
      CreditTick(s, t, q, i);
    }
    assert ys == xs[s.cur := ys[s.cur]];
    SumUpdate(xs, s.cur, ys[s.cur]);
  }

  lemma CreditInDebt(s: Sys, t: nat, q: int, i: nat)
    requires Wf(s) && i < NPROC && CreditAt(s, t, q, i) > 0
    ensures Debt(s, t, q) > 0
  {
    var zeros := seq(NPROC, _ => 0);
    SumConstant(zeros, 0);
    SumStrict(zeros, Credits(s, t, q), i);
  }

  /** A tick takes one from the debt of the others if the running task has
      credit, and nothing else changes the debt; t is dispatched exactly when it
      is paid, and until then the CPU is with a task that has credit. */
  lemma TickProgress(s: Sys, t: nat, q: int)
    requires Claims(s, t, q)
    ensures var s' := Table.Tick(s);
            && Debt(s', t, q) == Debt(s, t, q) - (if CreditAt(s, t, q, s.cur) > 0 then 1 else 0)
            && (s'.cur == t <==> Debt(s', t, q) == 0)
            && (s'.cur != t ==> Claims(s', t, q) && CreditAt(s', t, q, s'.cur) > 0)
  {
    DebtTick(s, t, q);
    if Table.Tick(s).cur == t {
      LosersHaveNone(s, t, q);
    } else {
      ClaimKept(s, t, q);
      WinnerHasCredit(s, t, q);
      CreditInDebt(Table.Tick(s), t, q, Table.Tick(s).cur);
    }
  }

  /** t has the CPU after n ticks, and not before. */
  ghost predicate FirstAt(s: Sys, t: nat, n: nat)
    requires Wf(s)
  {
    TickN(s, n).cur == t && forall m: nat :: m < n ==> TickN(s, m).cur != t
  }

  lemma FirstLater(s: Sys, t: nat, n: nat)
    requires Wf(s) && s.cur != t && FirstAt(Table.Tick(s), t, n)
    ensures FirstAt(s, t, n + 1)
  {
    forall m: nat | m < n + 1
      ensures TickN(s, m).cur != t
    {
      if m != 0 {
        assert TickN(s, m) == TickN(Table.Tick(s), m - 1);
      }
    }
  }

  lemma {:induction false} DebtPaid(s: Sys, t: nat, q: int)
    requires Claims(s, t, q) && CreditAt(s, t, q, s.cur) > 0
    ensures FirstAt(s, t, Debt(s, t, q))
    decreases Debt(s, t, q), 0
  {
    TickProgress(s, t, q);
    PaidLater(s, t, q);
  }

  lemma {:induction false} PaidLater(s: Sys, t: nat, q: int)
    requires Claims(s, t, q)
    ensures FirstAt(s, t, Debt(Table.Tick(s), t, q) + 1)
    decreases Debt(Table.Tick(s), t, q), 1
  {
    TickProgress(s, t, q);
    var s' := Table.Tick(s);
    if s'.cur != t {
      DebtPaid(s', t, q);
    }
    FirstLater(s, t, Debt(s', t, q));
  }

  /** How many ticks t waits: what the others that want the CPU can be charged
      while they go before t, and one more if the running task has no credit. */
  ghost function WaitTime(s: Sys, t: nat, q: int): nat
    requires Wf(s)
  {
    Debt(s, t, q) + if CreditAt(s, t, q, s.cur) > 0 then 0 else 1
  }

  /** Exactly the tick at which t is first dispatched. */
  lemma DispatchTime(s: Sys, t: nat, q: int)
    requires Claims(s, t, q)
    ensures FirstAt(s, t, WaitTime(s, t, q))
  {
    if CreditAt(s, t, q, s.cur) > 0 {
      DebtPaid(s, t, q);
    } else {
      TickProgress(s, t, q);
      PaidLater(s, t, q);
    }
  }

  // ---- Starvation ----

  /** Priority 1, with a task in a lower slot that wants the CPU. */
  ghost predicate Hopeless(s: Sys, t: nat) {
    && Wf(s) && OneRunning(s)
    && t < NPROC && t != s.cur && Is(s.procs[t], Ready)
    && DynamicOf(s, t) == 1 && !Lowest(s, t)
  }

  lemma TickHopeless(s: Sys, t: nat)
    requires Hopeless(s, t)
    ensures Hopeless(Table.Tick(s), t)
  {
    var j :| 0 <= j < t && Candidate(s, j);
    TickPicks(s, j);
    assert DynamicOf(Charge(s), t) == 1;
    assert Table.Tick(s).cur != t;
    TickFrame(s, t);
    TickCandidates(s);
    assert Candidate(s, t) && Candidate(Table.Tick(s), t) && Candidate(Table.Tick(s), j);
  }

  lemma {:induction false} Starves(s: Sys, t: nat, n: nat)
    requires Hopeless(s, t)
    ensures TickN(s, n).cur != t
    decreases n
  {
    if n != 0 {
      TickHopeless(s, t);
      Starves(Table.Tick(s), t, n - 1);
    }
  }

  /** Some number of ticks, and nothing else, gives t the CPU. */
  ghost predicate Served(s: Sys, t: nat)
    requires Wf(s)
  {
    exists n: nat :: TickN(s, n).cur == t
  }

  lemma NeverServed(s: Sys, t: nat)
    requires Hopeless(s, t)
    ensures !Served(s, t)
  {
    forall n: nat
      ensures TickN(s, n).cur != t
    {
      Starves(s, t, n);
    }
  }

  lemma ServedInTime(s: Sys, t: nat, q: int)
    requires Claims(s, t, q)
    ensures Served(s, t)
  {
    DispatchTime(s, t, q);
  }

  /** Exactly which READY tasks the timer alone ever serves. */
  lemma DispatchedIff(s: Sys, t: nat)
    requires Wf(s) && OneRunning(s) && t < NPROC && t != s.cur && Is(s.procs[t], Ready)
    ensures Served(s, t) <==> DynamicOf(s, t) >= 2 || Lowest(s, t)
  {
    if DynamicOf(s, t) >= 2 || Lowest(s, t) {
      ServedInTime(s, t, DynamicOf(s, t));
    } else {
      NeverServed(s, t);
    }
  }

  ghost predicate Spent(s: Sys)
    requires Wf(s)
  {
    forall i :: 0 <= i < NPROC && Candidate(s, i) ==>
      var k := 20 - s.procs[i].value.nice; s.procs[i].value.ticks >= k * (k - 1)
  }

  lemma TickSpent(s: Sys, m: nat)
    requires Wf(s) && OneRunning(s) && Spent(s) && m < NPROC && Candidate(s, m) && Lowest(s, m)
    ensures Spent(Table.Tick(s))
    ensures Table.Tick(s).cur == m
    ensures Lowest(Table.Tick(s), m)
    ensures forall i :: 0 <= i < NPROC && Candidate(Table.Tick(s), i) ==> DynamicOf(Table.Tick(s), i) == 1
  {
    var s' := Table.Tick(s);
    TickCandidates(s);
    forall i | 0 <= i < NPROC && Candidate(s', i)
      ensures DynamicOf(s', i) == 1 && DynamicOf(Charge(s), i) == 1
      ensures var k := 20 - s'.procs[i].value.nice; s'.procs[i].value.ticks >= k * (k - 1)
    {
      TickFrame(s, i);
      assert Candidate(s, i);
      DynamicAtLeast(s'.procs[i].value.nice, s'.procs[i].value.ticks, 2);
    }
    TickPicks(s, m);
    assert Candidate(s', s'.cur);
  }

  /** Why credit matters: once everyone that wants the CPU has used k * (k - 1)
      ticks, all priorities stay at 1 and every tick selects the lowest pid. */
  lemma {:induction false} SpentForever(s: Sys, m: nat, n: nat)
    requires Wf(s) && OneRunning(s) && Spent(s) && m < NPROC && Candidate(s, m) && Lowest(s, m)
    requires n >= 1
    ensures TickN(s, n).cur == m
    ensures forall i :: 0 <= i < NPROC && Candidate(TickN(s, n), i) ==> DynamicOf(TickN(s, n), i) == 1
    decreases n
  {
    TickSpent(s, m);
    TickCandidates(s);
    assert TickN(s, n) == TickN(Table.Tick(s), n - 1);
    if n > 1 {
      SpentForever(Table.Tick(s), m, n - 1);
    }
  }

  // ---- In runs ----

  /** The world after n more ticks and nothing else. */
  ghost function TicksOn(w: World, n: nat): (w': World)
    requires Runs.Shape(w)
    ensures Runs.Shape(w') && w'.sys == TickN(w.sys, n)
    decreases n
  {
    if n == 0 then w else TicksOn(Next(w, Runs.Tick), n - 1)
  }

  lemma {:induction false} TicksReach(w: World, n: nat)
    requires Reachable(w) && Runs.Shape(w)
    ensures Reachable(TicksOn(w, n))
    decreases n
  {
    if n != 0 {
      StepReachable(w, Runs.Tick);
      TicksReach(Next(w, Runs.Tick), n - 1);
    }
  }

  /** In any reachable world, a READY task of priority at least 2, or in the
      lowest slot, has the CPU after WaitTime more ticks, and not before. */
  lemma ReadyTaskIsDispatched(w: World, t: nat)
    requires Reachable(w) && Runs.Shape(w) && t < NPROC
    requires t != w.sys.cur && Is(w.sys.procs[t], Ready)
    requires DynamicOf(w.sys, t) >= 2 || Lowest(w.sys, t)
    ensures var n := WaitTime(w.sys, t, DynamicOf(w.sys, t));
            && Reachable(TicksOn(w, n)) && TicksOn(w, n).sys.cur == t
            && forall m: nat :: m < n ==> TicksOn(w, m).sys.cur != t
  {
    ReachableInv(w);
    var q := DynamicOf(w.sys, t);
    DispatchTime(w.sys, t, q);
    TicksReach(w, WaitTime(w.sys, t, q));
  }

  // ---- Starvation happens ----

  /** Two tasks in the first two slots, with these nice values and ticks, both
      wanting the CPU, the one in slot c having it. */
  ghost predicate Two(w: World, c: nat, nice0: int, ticks0: nat, nice1: int, ticks1: nat) {
    && Runs.Shape(w) && OneRunning(w.sys)
    && w.sys.cur == c
    && c < 2
    && (forall i :: 0 <= i < NPROC ==> (w.sys.procs[i].Some? <==> i < 2))
    && Candidate(w.sys, 0) && Candidate(w.sys, 1) && w.at[0] == w.at[1] == User
    && (w.sys.procs[0].value.nice, w.sys.procs[0].value.ticks) == (nice0, ticks0)
    && (w.sys.procs[1].value.nice, w.sys.procs[1].value.ticks) == (nice1, ticks1)
  }

  lemma TwoStart() returns (w: World)
    ensures Reachable(w)
    ensures Two(w, 0, 19, 0, 0, 0)
  {
    StartReachable();
    var w1 := Next(Start(), Runs.Nice(19));
    StepReachable(Start(), Runs.Nice(19));
    assert NextPid(w1.sys.procs) == 2;
    StepReachable(w1, Runs.Fork);
    w := Next(w1, Runs.Fork);
    ReachableInv(w);
  }

  lemma TwoTick(w: World, nice0: int, ticks0: nat, nice1: int, ticks1: nat, c: nat) returns (w': World)
    requires Reachable(w) && Two(w, c, nice0, ticks0, nice1, ticks1)
    ensures Reachable(w') && w'.sys.cur < 2
    ensures Two(w', w'.sys.cur, nice0, if c == 0 then ticks0 + 1 else ticks0,
                nice1, if c == 1 then ticks1 + 1 else ticks1)
    ensures w'.sys.cur == if Dynamic(nice0, if c == 0 then ticks0 + 1 else ticks0)
                             >= Dynamic(nice1, if c == 1 then ticks1 + 1 else ticks1) then 0 else 1
  {
    StepReachable(w, Runs.Tick);
    w' := Next(w, Runs.Tick);
    TickCandidates(w.sys);
    TickPicks(w.sys, 0);
    TickPicks(w.sys, 1);
    TickPresence(w.sys);
    TickFrame(w.sys, 0);
    TickFrame(w.sys, 1);
  }

  lemma TickPresence(s: Sys)
    requires Wf(s) && OneRunning(s)
    ensures forall i :: 0 <= i < NPROC ==> (Table.Tick(s).procs[i].Some? <==> s.procs[i].Some?)
  {
    forall i | 0 <= i < NPROC
      ensures Table.Tick(s).procs[i].Some? <==> s.procs[i].Some?
    {
      TickFrame(s, i);
    }
  }

  /** There are two tasks, and each has called sched_nice(19): a fork sets 0. */
  ghost predicate NiceTwo(s: Sys)
    requires Wf(s)
  {
    && (forall i :: 0 <= i < NPROC ==> (s.procs[i].Some? <==> i < 2))
    && s.procs[0].value.nice == 19 && s.procs[1].value.nice == 19
  }

  /** Two tasks that each run one tick and call sched_nice(19) are enough: the
      child is READY and no number of ticks gives it the CPU again. */
  lemma StarvationReachable()
    ensures exists w :: Reachable(w) && Wf(w.sys) && NiceTwo(w.sys) && Is(w.sys.procs[1], Ready) && !Served(w.sys, 1)
  {
    var w1 := TwoStart();
    var w2 := TwoTick(w1, 19, 0, 0, 0, 0);
    assert Dynamic(19, 1) == 1 && Dynamic(0, 0) == 20;
    StepReachable(w2, Runs.Nice(19));
    var w3 := Next(w2, Runs.Nice(19));
    var w4 := TwoTick(w3, 19, 1, 19, 0, 1);
    assert Hopeless(w4.sys, 1);
    NeverServed(w4.sys, 1);
  }
}
