/** The calls of ps7/sem.c from outside: what each move does to signals and to a
    process that waits for the lock, and how the calls made in a run account for
    the count. */
module Calls {
  import opened Util
  import opened Semaphore
  import opened SemaphoreProofs
  import opened Progress

  // ---- Single moves ----

  /** A waiting process is one that has set its slot and not yet been let through;
      its slot, and no other, holds a pid. */
  lemma SlotsExact(cfg: Config, st: St, p: nat)
    requires Valid(cfg) && Reachable(cfg, st) && p < |st.pcs| && p < |st.sh.procs|
    ensures st.sh.procs[p] == match st.pcs[p]
                              case WSpin => cfg.pids[p]
                              case WTest => cfg.pids[p]
                              case WClear => cfg.pids[p]
                              case WGiveUp => cfg.pids[p]
                              case WPause => cfg.pids[p]
                              case WAsleep => cfg.pids[p]
                              case _ => 0
  {
    ReachableInv(cfg, st);
    assert FlagOk(cfg, st, p);
  }

  /** A signal comes from the scan of a sem_inc that passes the slot of a waiting
      process, and from nothing else, and it is for that process; it goes when it
      is handled. */
  lemma SignalsExact(cfg: Config, st: St, m: Move)
    requires Valid(cfg) && Reachable(cfg, st) && Shape(cfg, st) && Enabled(cfg, st, m)
    ensures Next(cfg, st, m).pending ==
              if m.Wake? || m.Handle? then st.pending - {cfg.pids[m.p]}
              else if m.Go? && st.pcs[m.p].IScan? && st.pcs[m.p].slot < |st.pcs| && Flagged(st.pcs[st.pcs[m.p].slot])
              then st.pending + {cfg.pids[st.pcs[m.p].slot]}
              else st.pending
  {
    ReachableInv(cfg, st);
    if m.Go? && st.pcs[m.p].IScan? && st.pcs[m.p].slot < |st.pcs| {
      assert FlagOk(cfg, st, st.pcs[m.p].slot);
    }
  }

  predicate Spinning(pc: Pc) {
    pc.WSpin? || pc.ISpin? || pc.TSpin?
  }

  /** Whoever finds the lock taken tries again, and changes nothing. */
  lemma LockedOut(cfg: Config, st: St, p: nat)
    requires Valid(cfg) && Reachable(cfg, st) && Shape(cfg, st) && p < |st.pcs|
    requires Spinning(st.pcs[p]) && st.sh.lock != 0
    ensures Enabled(cfg, st, Go(p)) && Next(cfg, st, Go(p)) == st
  {
    ReachableInv(cfg, st);
    assert st.pcs[p := st.pcs[p]] == st.pcs;
  }

  /** A process can move unless it is in sigsuspend with no signal pending; and a
      pending signal, unless held, is handled wherever the process may be. */
  lemma BlockedIff(cfg: Config, st: St, p: nat)
    requires Shape(cfg, st) && p < |st.pcs|
    ensures (forall m :: Enabled(cfg, st, m) ==> m.p != p) <==> st.pcs[p] == WAsleep && cfg.pids[p] !in st.pending
    ensures (exists m :: Enabled(cfg, st, m) && m.p == p && (m.Wake? || m.Handle?)) <==>
              cfg.pids[p] in st.pending && (cfg.held ==> st.pcs[p] == WAsleep)
  {
    if st.pcs[p] == Idle {
      assert Enabled(cfg, st, Call(p, Inc));
    } else if st.pcs[p] != WAsleep {
      assert Enabled(cfg, st, Go(p));
    }
    if cfg.pids[p] in st.pending && (cfg.held ==> st.pcs[p] == WAsleep) {
      var m := if st.pcs[p] == WAsleep then Wake(p) else Handle(p);
      assert Enabled(cfg, st, m) && m.p == p;
    }
  }

  // ---- Whole runs ----

  /** How many calls of this operation these moves make. */
  ghost function CallsOf(moves: seq<Move>, op: Op): nat {
    if |moves| == 0 then 0
    else (if moves[0].Call? && moves[0].op == op then 1 else 0) + CallsOf(moves[1..], op)
  }

  /** How many steps of a run from st start at such a place in the code. */
  ghost function Steps(cfg: Config, st: St, moves: seq<Move>, at: Pc -> bool): nat
    requires Shape(cfg, st) && Run(cfg, st, moves).Some?
    decreases |moves|
  {
    if |moves| == 0 then 0
    else
      (if moves[0].Go? && at(st.pcs[moves[0].p]) then 1 else 0)
      + Steps(cfg, Next(cfg, st, moves[0]), moves[1..], at)
  }

  ghost function Marks(pcs: seq<Pc>, at: Pc -> bool): (xs: seq<int>)
    ensures |xs| == |pcs|
    ensures forall p :: 0 <= p < |pcs| ==> xs[p] == if at(pcs[p]) then 1 else 0
  {
    seq(|pcs|, p requires 0 <= p < |pcs| => if at(pcs[p]) then 1 else 0)
  }

  /** How many processes are at such a place. */
  ghost function Members(st: St, at: Pc -> bool): int {
    Sum(Marks(st.pcs, at))
  }

  lemma MembersUpdate(st: St, st': St, p: nat, at: Pc -> bool)
    requires p < |st.pcs| == |st'.pcs| && st'.pcs == st.pcs[p := st'.pcs[p]]
    ensures Members(st', at) == Members(st, at) + (if at(st'.pcs[p]) then 1 else 0) - (if at(st.pcs[p]) then 1 else 0)
  {
    assert Marks(st'.pcs, at) == Marks(st.pcs, at)[p := if at(st'.pcs[p]) then 1 else 0];
    SumUpdate(Marks(st.pcs, at), p, if at(st'.pcs[p]) then 1 else 0);
  }

  /** A call of op leads to a place inside, a step out of it starts at an exit, and
      nothing else crosses the border. */
  ghost predicate Border(cfg: Config, op: Op, inside: Pc -> bool, exit: Pc -> bool) {
    forall st, m :: Shape(cfg, st) && Enabled(cfg, st, m) ==>
      var pc, pc' := st.pcs[m.p], Next(cfg, st, m).pcs[m.p];
      (if inside(pc') then 1 else 0) - (if inside(pc) then 1 else 0)
      == (if m.Call? && m.op == op then 1 else 0) - (if m.Go? && exit(pc) then 1 else 0)
  }

  /** Every call has come to its exit, once, or is still inside. */
  lemma {:induction false} Accounted(cfg: Config, st: St, moves: seq<Move>, op: Op,
                                     inside: Pc -> bool, exit: Pc -> bool)
    requires Border(cfg, op, inside, exit) && Shape(cfg, st) && Run(cfg, st, moves).Some?
    ensures Members(st, inside) + CallsOf(moves, op)
         == Members(Run(cfg, st, moves).value, inside) + Steps(cfg, st, moves, exit)
    decreases |moves|
  {
    if |moves| != 0 {
      var st' := Next(cfg, st, moves[0]);
      assert Enabled(cfg, st, moves[0]);
      MembersUpdate(st, st', moves[0].p, inside);
      Accounted(cfg, st', moves[1..], op, inside, exit);
    }
  }

  predicate InTry(pc: Pc) {
    pc.TSpin? || pc.TTest? || pc.TLoad? || pc.TStore? || pc.TUnlock?
  }

  // The last step of each operation.

  predicate LeavesInc(pc: Pc) {
    pc.IUnlock?
  }

  predicate LeavesWait(pc: Pc) {
    pc.WUnlock?
  }

  predicate LeavesTry(pc: Pc) {
    pc.TUnlock?
  }

  predicate TookOne(pc: Pc) {
    pc == TUnlock(true)
  }

  lemma IncBorder(cfg: Config)
    ensures Border(cfg, Inc, InInc, LeavesInc)
  {
  }

  lemma WaitBorder(cfg: Config)
    ensures Border(cfg, Wait, InWait, LeavesWait)
  {
  }

  lemma TryBorder(cfg: Config)
    ensures Border(cfg, Try, InTry, LeavesTry)
  {
  }

  lemma CompletedNext(cfg: Config, st: St, m: Move)
    requires Shape(cfg, st) && Enabled(cfg, st, m)
    ensures Next(cfg, st, m).incs == st.incs + if m.Go? && LeavesInc(st.pcs[m.p]) then 1 else 0
    ensures Next(cfg, st, m).decs
         == st.decs + if m.Go? && (LeavesWait(st.pcs[m.p]) || TookOne(st.pcs[m.p])) then 1 else 0
  {
  }

  /** What the completed calls have done to the history counters. */
  lemma {:induction false} Completed(cfg: Config, st: St, moves: seq<Move>)
    requires Shape(cfg, st) && Run(cfg, st, moves).Some?
    ensures var st' := Run(cfg, st, moves).value;
            && st'.incs == st.incs + Steps(cfg, st, moves, LeavesInc)
            && st'.decs == st.decs + Steps(cfg, st, moves, LeavesWait)
                                   + Steps(cfg, st, moves, TookOne)
    decreases |moves|
  {
    if |moves| != 0 {
      CompletedNext(cfg, st, moves[0]);
      Completed(cfg, Next(cfg, st, moves[0]), moves[1..]);
    }
  }

  lemma NobodyInside(cfg: Config, at: Pc -> bool)
    requires !at(Idle)
    ensures Members(Start(cfg), at) == 0
  {
    SumConstant(Marks(Start(cfg).pcs, at), 0);
  }

  /** Whichever way a call goes, it comes to an end only by releasing the lock. */
  lemma CallsAccounted(cfg: Config, moves: seq<Move>)
    requires Run(cfg, Start(cfg), moves).Some?
    ensures var st := Run(cfg, Start(cfg), moves).value;
            && CallsOf(moves, Inc) == Members(st, InInc) + Steps(cfg, Start(cfg), moves, LeavesInc)
            && CallsOf(moves, Wait) == Members(st, InWait) + Steps(cfg, Start(cfg), moves, LeavesWait)
            && CallsOf(moves, Try) == Members(st, InTry) + Steps(cfg, Start(cfg), moves, LeavesTry)
  {
    NobodyInside(cfg, InInc);
    NobodyInside(cfg, InWait);
    NobodyInside(cfg, InTry);
    IncBorder(cfg);
    WaitBorder(cfg);
    TryBorder(cfg);
    Accounted(cfg, Start(cfg), moves, Inc, InInc, LeavesInc);
    Accounted(cfg, Start(cfg), moves, Wait, InWait, LeavesWait);
    Accounted(cfg, Start(cfg), moves, Try, InTry, LeavesTry);
  }

  /** Whenever the lock is free, the count is the initial one plus the calls of
      sem_inc less the calls of sem_wait, but for those not yet over, and less
      the calls of sem_try that took one. */
  lemma CountOfCalls(cfg: Config, moves: seq<Move>)
    requires Valid(cfg) && Run(cfg, Start(cfg), moves).Some? && Run(cfg, Start(cfg), moves).value.sh.lock == 0
    ensures var st := Run(cfg, Start(cfg), moves).value;
            st.sh.count == cfg.init
              + (CallsOf(moves, Inc) - Members(st, InInc))
              - (CallsOf(moves, Wait) - Members(st, InWait))
              - Steps(cfg, Start(cfg), moves, TookOne)
  {
    ReachableInv(cfg, Run(cfg, Start(cfg), moves).value);
    CallsAccounted(cfg, moves);
    Completed(cfg, Start(cfg), moves);
  }
}
