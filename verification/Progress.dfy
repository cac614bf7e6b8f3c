/** Progress in ps7/sem.c: which waiting processes can still get through
    sem_wait, by themselves or with the help of the others, and when a wake-up
    can be lost. */
module Progress {
  import opened Util
  import opened Semaphore
  import opened SemaphoreProofs

  // ---- Continuations ----

  /** Some continuation leads from st to st'; without inc, it calls no sem_inc. */
  ghost predicate Leads(cfg: Config, st: St, st': St, inc: bool)
    requires Shape(cfg, st)
  {
    exists moves ::
      (inc || NoInc(moves)) && Run(cfg, st, moves) == Some(st')
  }

  ghost predicate CanFinish(cfg: Config, st: St, p: nat, inc: bool)
    requires Shape(cfg, st) && p < |st.pcs|
  {
    exists st' :: Leads(cfg, st, st', inc) && p < |st'.pcs| && st'.pcs[p] == Idle
  }

  lemma LeadsSelf(cfg: Config, st: St, inc: bool)
    requires Shape(cfg, st)
    ensures Leads(cfg, st, st, inc)
  {
    assert NoInc([]) && Run(cfg, st, []) == Some(st);
  }

  lemma LeadsStep(cfg: Config, st: St, m: Move, st': St, inc: bool)
    requires Shape(cfg, st) && Enabled(cfg, st, m) && (inc || !CallsInc(m))
    requires Leads(cfg, Next(cfg, st, m), st', inc)
    ensures Leads(cfg, st, st', inc)
  {
    var moves :| (inc || NoInc(moves)) && Run(cfg, Next(cfg, st, m), moves) == Some(st');
    assert ([m] + moves)[1..] == moves;
    assert Run(cfg, st, [m] + moves) == Some(st');
  }

  lemma {:induction false} RunAppend(cfg: Config, st: St, xs: seq<Move>, ys: seq<Move>)
    requires Shape(cfg, st) && Run(cfg, st, xs).Some?
    ensures Run(cfg, st, xs + ys) == Run(cfg, Run(cfg, st, xs).value, ys)
    decreases |xs|
  {
    if |xs| == 0 {
      assert xs + ys == ys;
    } else {
      assert (xs + ys)[1..] == xs[1..] + ys;
      RunAppend(cfg, Next(cfg, st, xs[0]), xs[1..], ys);
    }
  }

  lemma LeadsOn(cfg: Config, s1: St, s2: St, s3: St, inc1: bool, inc2: bool)
    requires Shape(cfg, s1) && Shape(cfg, s2) && Leads(cfg, s1, s2, inc1) && Leads(cfg, s2, s3, inc2)
    ensures Leads(cfg, s1, s3, inc1 || inc2)
  {
    var xs :| (inc1 || NoInc(xs)) && Run(cfg, s1, xs) == Some(s2);
    var ys :| (inc2 || NoInc(ys)) && Run(cfg, s2, ys) == Some(s3);
    RunAppend(cfg, s1, xs, ys);
    assert inc1 || inc2 || NoInc(xs + ys);
  }

  lemma LeadsMore(cfg: Config, st: St, st': St)
    requires Shape(cfg, st) && Leads(cfg, st, st', false)
    ensures Leads(cfg, st, st', true)
  {
    var moves :| NoInc(moves) && Run(cfg, st, moves) == Some(st');
  }

  lemma LeadsReachable(cfg: Config, st: St, st': St, inc: bool)
    requires Reachable(cfg, st) && Shape(cfg, st) && Leads(cfg, st, st', inc)
    ensures Reachable(cfg, st') && Shape(cfg, st')
  {
    var before :| Run(cfg, Start(cfg), before) == Some(st);
    var moves :| Run(cfg, st, moves) == Some(st');
    RunAppend(cfg, Start(cfg), before, moves);
  }

  lemma Reach(cfg: Config, st: St, m: Move)
    requires Reachable(cfg, st) && Shape(cfg, st) && Enabled(cfg, st, m)
    ensures Reachable(cfg, Next(cfg, st, m))
  {
    LeadsSelf(cfg, Next(cfg, st, m), true);
    LeadsStep(cfg, st, m, Next(cfg, st, m), true);
    LeadsReachable(cfg, st, Next(cfg, st, m), true);
  }

  // ---- The lock comes free ----

  /** How many steps the holder of the lock has yet to make, at most. */
  function Left(pc: Pc, n: nat): nat {
    match pc
    case WTest => 5
    case WClear => 4
    case WLoad => 3
    case WStore(_) => 2
    case ILoad => n + 4
    case IStore(_) => n + 3
    case IScan(i) => if i < n then n - i + 2 else 2
    case TTest => 4
    case TLoad => 3
    case TStore(_) => 2
    case WUnlock => 1
    case WGiveUp => 1
    case IUnlock => 1
    case TUnlock(_) => 1
    case _ => 0
  }

  /** What the holder has yet to do to count. */
  function Due(pc: Pc, count: int): int {
    match pc
    case WTest => if count > 0 then -1 else 0
    case WClear => -1
    case WLoad => -1
    case WStore(_) => -1
    case ILoad => 1
    case IStore(_) => 1
    case TTest => if count != 0 then -1 else 0
    case TLoad => -1
    case TStore(_) => -1
    case _ => 0
  }

  /** Where the holder is once it has freed the lock. */
  function After(pc: Pc, count: int): Pc {
    if pc == WGiveUp || (pc == WTest && count <= 0) then WPause else Idle
  }

  lemma HolderSteps(cfg: Config, st: St, h: nat)
    requires Valid(cfg) && Inv(cfg, st) && h < |st.pcs| && Critical(st.pcs[h])
    ensures Enabled(cfg, st, Go(h))
    ensures st.pending <= Next(cfg, st, Go(h)).pending
    ensures var st' := Next(cfg, st, Go(h));
            && Left(st'.pcs[h], |st.pcs|) < Left(st.pcs[h], |st.pcs|)
            && st'.pcs == st.pcs[h := st'.pcs[h]]
            && if Critical(st'.pcs[h]) then
                 && After(st'.pcs[h], st'.sh.count) == After(st.pcs[h], st.sh.count)
                 && st'.sh.count + Due(st'.pcs[h], st'.sh.count) == st.sh.count + Due(st.pcs[h], st.sh.count)
               else
                 && st'.sh.lock == 0 && st'.pcs[h] == After(st.pcs[h], st.sh.count)
                 && st'.sh.count == st.sh.count + Due(st.pcs[h], st.sh.count)
  {
    assert HolderOk(cfg, st, st.pcs[h]);
  }

  /** Before its scan has come to slot p, or elsewhere in sem_inc. */
  predicate ToScan(pc: Pc, p: nat) {
    pc.ILoad? || pc.IStore? || ScansBefore(pc, p)
  }

  /** A waiting process is signalled at the latest by the scan of its slot. */
  lemma ScanSignals(cfg: Config, st: St, h: nat, p: nat)
    requires Valid(cfg) && Inv(cfg, st) && h < |st.pcs| && Critical(st.pcs[h])
    requires p < |st.pcs| && Flagged(st.pcs[p]) && ToScan(st.pcs[h], p)
    ensures ToScan(Next(cfg, st, Go(h)).pcs[h], p) || cfg.pids[p] in Next(cfg, st, Go(h)).pending
    ensures Next(cfg, st, Go(h)).pcs[p] == st.pcs[p]
  {
    assert FlagOk(cfg, st, p);
  }

  /** The waiting processes that a call at this pc has still to signal. */
  ghost predicate Signals(cfg: Config, st: St, pc: Pc, st': St)
    requires Shape(cfg, st)
  {
    && st.pending <= st'.pending
    && forall p :: 0 <= p < |st.pcs| && Flagged(st.pcs[p]) && ToScan(pc, p) ==> cfg.pids[p] in st'.pending
  }

  lemma SignalsStep(cfg: Config, st: St, h: nat, st': St)
    requires Valid(cfg) && Inv(cfg, st) && h < |st.pcs| && Critical(st.pcs[h])
    requires var s1 := Next(cfg, st, Go(h));
             st.pending <= s1.pending && Signals(cfg, s1, s1.pcs[h], st')
    ensures Signals(cfg, st, st.pcs[h], st')
  {
    forall p | 0 <= p < |st.pcs| && Flagged(st.pcs[p]) && ToScan(st.pcs[h], p)
      ensures cfg.pids[p] in st'.pending
    {
      ScanSignals(cfg, st, h, p);
    }
  }

  /** The holder of the lock, by its own steps alone, always gets to free it; if
      it is in sem_inc it signals first whom it has still to signal. */
  lemma {:induction false} HolderFinishes(cfg: Config, st: St, h: nat) returns (st': St)
    requires Valid(cfg) && Reachable(cfg, st) && Shape(cfg, st) && h < |st.pcs| && Critical(st.pcs[h])
    ensures Leads(cfg, st, st', false) && st'.sh.lock == 0
    ensures st'.pcs == st.pcs[h := After(st.pcs[h], st.sh.count)]
    ensures Signals(cfg, st, st.pcs[h], st')
    ensures st'.sh.count == st.sh.count + Due(st.pcs[h], st.sh.count)
    decreases Left(st.pcs[h], |st.pcs|)
  {
    ReachableInv(cfg, st);
    HolderSteps(cfg, st, h);
    Reach(cfg, st, Go(h));
    var s1 := Next(cfg, st, Go(h));
    if Critical(s1.pcs[h]) {
      st' := HolderFinishes(cfg, s1, h);
    } else {
      st' := s1;
      LeadsSelf(cfg, s1, false);
    }
    assert st'.pcs == st.pcs[h := st'.pcs[h]];
    LeadsStep(cfg, st, Go(h), st', false);
    SignalsStep(cfg, st, h, st');
  }

  /** Where a process is that has won the lock. */
  function Won(pc: Pc): Pc {
    if pc == WSpin then WTest else if pc == ISpin then ILoad else TTest
  }

  /** A process that spins on a free lock wins it, and then finishes. */
  lemma SpinnerFinishes(cfg: Config, st: St, p: nat) returns (st': St)
    requires Valid(cfg) && Reachable(cfg, st) && Shape(cfg, st) && p < |st.pcs| && st.sh.lock == 0
    requires st.pcs[p] == WSpin || st.pcs[p] == ISpin || st.pcs[p] == TSpin
    ensures Leads(cfg, st, st', false) && st'.sh.lock == 0
    ensures st'.pcs == st.pcs[p := After(Won(st.pcs[p]), st.sh.count)]
    ensures Signals(cfg, st, Won(st.pcs[p]), st')
    ensures st'.sh.count == st.sh.count + Due(Won(st.pcs[p]), st.sh.count)
  {
    Reach(cfg, st, Go(p));
    var s1 := Next(cfg, st, Go(p));
    assert s1.pcs == st.pcs[p := Won(st.pcs[p])] && s1.sh.count == st.sh.count;
    st' := HolderFinishes(cfg, s1, p);
    LeadsStep(cfg, st, Go(p), st', false);
  }

  /** A sem_try can be called and come to its end. */
  lemma TryFinishes(cfg: Config, st: St, q: nat) returns (st': St)
    requires Valid(cfg) && Reachable(cfg, st) && Shape(cfg, st) && q < |st.pcs| && st.sh.lock == 0
    requires st.pcs[q] == Idle && st.sh.count > 0
    ensures Leads(cfg, st, st', false)
    ensures st'.sh.lock == 0
    ensures st'.pcs == st.pcs
    ensures st'.sh.count == st.sh.count - 1
  {
    Reach(cfg, st, Call(q, Try));
    var s1 := Next(cfg, st, Call(q, Try));
    assert s1.sh == st.sh && s1.pcs == st.pcs[q := TSpin];
    assert Won(TSpin) == TTest && After(TTest, st.sh.count) == Idle && Due(TTest, st.sh.count) == -1;
    st' := SpinnerFinishes(cfg, s1, q);
    LeadsStep(cfg, st, Call(q, Try), st', false);
  }

  /** So can a sem_inc, and by it every waiting process is signalled. */
  lemma IncFinishes(cfg: Config, st: St, q: nat) returns (st': St)
    requires Valid(cfg) && Reachable(cfg, st) && Shape(cfg, st) && q < |st.pcs| && st.sh.lock == 0
    requires st.pcs[q] == Idle
    ensures Leads(cfg, st, st', true)
    ensures st'.sh.lock == 0
    ensures st'.pcs == st.pcs
    ensures Signals(cfg, st, ILoad, st')
    ensures st'.sh.count == st.sh.count + 1
  {
    Reach(cfg, st, Call(q, Inc));
    var s1 := Next(cfg, st, Call(q, Inc));
    assert s1.sh == st.sh && s1.pending == st.pending && s1.pcs == st.pcs[q := ISpin];
    assert Won(ISpin) == ILoad && After(ILoad, st.sh.count) == Idle && Due(ILoad, st.sh.count) == 1;
    st' := SpinnerFinishes(cfg, s1, q);
    LeadsMore(cfg, s1, st');
    LeadsStep(cfg, st, Call(q, Inc), st', true);
  }

  // ---- Without another sem_inc ----

  /** Inside sem_wait, and not in possession of the lock. */
  predicate Outside(pc: Pc) {
    pc.WFlag? || pc.WSpin? || pc.WPause? || pc.WAsleep?
  }

  predicate Pausing(pc: Pc) {
    pc.WPause? || pc.WAsleep?
  }

  /** With the semaphore up and the lock free, a process in sem_wait gets through
      by its own steps, if it is not on its way to sleep or has a signal pending. */
  lemma {:induction false} WaiterFinishes(cfg: Config, st: St, p: nat) returns (st': St)
    requires Valid(cfg) && Reachable(cfg, st) && Shape(cfg, st) && p < |st.pcs| && st.sh.lock == 0 && st.sh.count > 0
    requires Outside(st.pcs[p]) && (Pausing(st.pcs[p]) ==> cfg.pids[p] in st.pending)
    ensures Leads(cfg, st, st', false)
    ensures st'.pcs == st.pcs[p := Idle]
    ensures st'.sh.lock == 0
    ensures st'.sh.count == st.sh.count - 1
    decreases st.pcs[p].WPause?, !st.pcs[p].WSpin?
  {
    if st.pcs[p] == WSpin {
      st' := SpinnerFinishes(cfg, st, p);
    } else {
      var m := if st.pcs[p] == WAsleep then Wake(p) else Go(p);
      Reach(cfg, st, m);
      var s1 := Next(cfg, st, m);
      st' := WaiterFinishes(cfg, s1, p);
      assert st'.pcs == st.pcs[p := Idle];
      LeadsStep(cfg, st, m, st', false);
    }
  }

  /** Asleep, or about to be, with no signal pending, and nobody in sem_inc. */
  ghost predicate Deaf(cfg: Config, st: St, p: nat)
    requires Shape(cfg, st) && p < |st.pcs|
  {
    && Pausing(st.pcs[p]) && cfg.pids[p] !in st.pending
    && forall q :: 0 <= q < |st.pcs| ==> !InInc(st.pcs[q])
  }

  lemma DeafStays(cfg: Config, st: St, m: Move, p: nat)
    requires Valid(cfg) && Shape(cfg, st) && Enabled(cfg, st, m) && p < |st.pcs| && Deaf(cfg, st, p)
    requires !CallsInc(m)
    ensures Deaf(cfg, Next(cfg, st, m), p)
    ensures st.pcs[p] == WAsleep ==> Next(cfg, st, m).pcs[p] == WAsleep
  {
    assert !InInc(st.pcs[m.p]);
  }

  /** A lost wake-up stays lost: until sem_inc is called again the process is in
      sigsuspend, whatever else happens, although the semaphore is up. */
  lemma LostUntilInc(cfg: Config, st: St, moves: seq<Move>, p: nat)
    requires Valid(cfg) && Shape(cfg, st) && p < |st.pcs| && Lost(cfg, st, p)
    requires NoInc(moves) && Run(cfg, st, moves).Some?
    ensures Run(cfg, st, moves).value.pcs[p] == WAsleep
  {
    var P := x => Shape(cfg, x) && Deaf(cfg, x, p) && x.pcs[p] == WAsleep;
    forall x, m | P(x) && Enabled(cfg, x, m) && !CallsInc(m)
      ensures P(Next(cfg, x, m))
    {
      DeafStays(cfg, x, m, p);
    }
    RunKeeps(cfg, P, false, st, moves);
  }

  lemma DeafNeverFinishes(cfg: Config, st: St, moves: seq<Move>, p: nat)
    requires Valid(cfg) && Shape(cfg, st) && p < |st.pcs| && Deaf(cfg, st, p)
    requires NoInc(moves) && Run(cfg, st, moves).Some?
    ensures Pausing(Run(cfg, st, moves).value.pcs[p])
  {
    var P := x => Shape(cfg, x) && Deaf(cfg, x, p);
    forall x, m | P(x) && Enabled(cfg, x, m) && !CallsInc(m)
      ensures P(Next(cfg, x, m))
    {
      DeafStays(cfg, x, m, p);
    }
    RunKeeps(cfg, P, false, st, moves);
  }

  /** With the semaphore up, the lock free and nobody in sem_inc, a process in
      sem_wait can get through without another sem_inc if and only if it is not
      in sigsuspend or about to call it, or has a signal pending. */
  lemma FinishesWithoutIncIff(cfg: Config, st: St, p: nat)
    requires Valid(cfg) && Reachable(cfg, st) && Shape(cfg, st) && p < |st.pcs|
    requires st.sh.lock == 0 && st.sh.count > 0 && forall q :: 0 <= q < |st.pcs| ==> !InInc(st.pcs[q])
    requires Outside(st.pcs[p])
    ensures CanFinish(cfg, st, p, false) <==> (Pausing(st.pcs[p]) ==> cfg.pids[p] in st.pending)
  {
    ReachableInv(cfg, st);
    if Pausing(st.pcs[p]) ==> cfg.pids[p] in st.pending {
      var st' := WaiterFinishes(cfg, st, p);
    } else if CanFinish(cfg, st, p, false) {
      var st' :| Leads(cfg, st, st', false) && p < |st'.pcs| && st'.pcs[p] == Idle;
      var moves :| NoInc(moves) && Run(cfg, st, moves) == Some(st');
      DeafNeverFinishes(cfg, st, moves, p);
    }
  }

  // ---- With signals held ----

  lemma HeldPending(cfg: Config, st: St, p: nat)
    requires Valid(cfg) && Inv(cfg, st) && cfg.held && p < |st.pcs|
    requires st.sh.lock == 0 && st.sh.count > 0 && Pausing(st.pcs[p])
    ensures cfg.pids[p] in st.pending
  {
    assert WaiterOk(cfg, st, p);
    assert forall q :: 0 <= q < |st.pcs| && ScansBefore(st.pcs[q], p) ==> Critical(st.pcs[q]);
  }

  /** With signals held, whoever is in sem_wait while the semaphore is up and the
      lock is free can get through by its own steps. */
  lemma HeldWaiterFinishes(cfg: Config, st: St, p: nat)
    requires Valid(cfg) && Reachable(cfg, st) && Shape(cfg, st) && cfg.held && p < |st.pcs|
    requires st.sh.lock == 0 && st.sh.count > 0 && Outside(st.pcs[p])
    ensures st.pcs[p] == WAsleep ==> Enabled(cfg, st, Wake(p))
    ensures CanFinish(cfg, st, p, false)
  {
    ReachableInv(cfg, st);
    if Pausing(st.pcs[p]) {
      HeldPending(cfg, st, p);
    }
    var st' := WaiterFinishes(cfg, st, p);
  }

  // ---- Deadlock ----

  predicate InWait(pc: Pc) {
    Outside(pc) || pc.WTest? || pc.WClear? || pc.WLoad? || pc.WStore? || pc.WUnlock? || pc.WGiveUp?
  }

  /** In sem_wait, and without a part of count. */
  predicate Wanting(pc: Pc) {
    Outside(pc) || pc.WTest? || pc.WGiveUp?
  }

  /** The semaphore is used up and every process wants it. */
  ghost predicate Dead(st: St) {
    st.sh.count == 0 && forall q :: 0 <= q < |st.pcs| ==> Wanting(st.pcs[q])
  }

  lemma DeadStays(cfg: Config, st: St, m: Move)
    requires Shape(cfg, st) && Dead(st) && Enabled(cfg, st, m)
    ensures Dead(Next(cfg, st, m))
  {
    assert Wanting(st.pcs[m.p]);
  }

  /** Some continuation frees the lock, and does not bring about a deadlock. */
  lemma LockComesFree(cfg: Config, st: St) returns (st': St)
    requires Valid(cfg) && Reachable(cfg, st) && Shape(cfg, st) && !Dead(st)
    ensures Leads(cfg, st, st', false)
    ensures st'.sh.lock == 0
    ensures !Dead(st')
    ensures forall p :: 0 <= p < |st.pcs| && InWait(st.pcs[p]) ==> Outside(st'.pcs[p]) || st'.pcs[p] == Idle
  {
    ReachableInv(cfg, st);
    if st.sh.lock == 0 {
      st' := st;
      LeadsSelf(cfg, st, false);
    } else {
      var h: nat :| h < |st.pcs| && Critical(st.pcs[h]);
      st' := HolderFinishes(cfg, st, h);
      assert st'.pcs[h] == After(st.pcs[h], st.sh.count);
      if st.sh.count == 0 {
        var q :| 0 <= q < |st.pcs| && !Wanting(st.pcs[q]);
        assert !Wanting(st'.pcs[q]);
      }
    }
  }

  /** Some process has not failed its test since the last increment. */
  ghost predicate SomeFresh(st: St) {
    |st.seen| == |st.pcs| && exists q :: 0 <= q < |st.pcs| && Fresh(st, q)
  }

  ghost predicate Fresh(st: St, q: nat)
    requires q < |st.pcs| == |st.seen|
  {
    Failed(st.pcs[q]) ==> st.seen[q] == st.vs
  }

  lemma FreshNext(cfg: Config, st: St, m: Move)
    requires Shape(cfg, st) && SomeFresh(st) && Enabled(cfg, st, m)
    ensures SomeFresh(Next(cfg, st, m))
  {
    var q :| 0 <= q < |st.pcs| && Fresh(st, q);
    assert Fresh(Next(cfg, st, m), if m.Go? && !Failed(st.pcs[m.p]) then m.p else q);
  }

  /** While the semaphore is up and the lock free, not everybody is on the way
      to sigsuspend. */
  lemma SomeoneAwake(cfg: Config, st: St) returns (q: nat)
    requires Valid(cfg) && Reachable(cfg, st) && Shape(cfg, st) && |cfg.pids| > 0
    requires st.sh.lock == 0 && st.sh.count > 0
    ensures q < |st.pcs| && !Failed(st.pcs[q])
  {
    ReachableInv(cfg, st);
    var P := x => SomeFresh(x);
    forall x, m | Shape(cfg, x) && P(x) && Enabled(cfg, x, m)
      ensures P(Next(cfg, x, m))
    {
      FreshNext(cfg, x, m);
    }
    assert Fresh(Start(cfg), 0);
    ReachableKeeps(cfg, P, st);
    q :| 0 <= q < |st.pcs| && Fresh(st, q);
    assert WaiterOk(cfg, st, q);
  }

  /** A process that is not on the way to sigsuspend, and needs no increment
      itself, can do what is left of its call, and call sem_inc. */
  lemma HelperIncs(cfg: Config, st: St, q: nat) returns (st': St)
    requires Valid(cfg) && Reachable(cfg, st) && Shape(cfg, st) && q < |st.pcs| && st.sh.lock == 0
    requires !Pausing(st.pcs[q]) && (Wanting(st.pcs[q]) ==> st.sh.count > 0)
    ensures Leads(cfg, st, st', true)
    ensures st'.sh.lock == 0
    ensures st'.sh.count > 0
    ensures st'.pcs == st.pcs[q := Idle]
    ensures forall p :: 0 <= p < |st.pcs| && p != q && Flagged(st.pcs[p]) ==> cfg.pids[p] in st'.pending
  {
    ReachableInv(cfg, st);
    assert !Critical(st.pcs[q]);
    var s1 := st;
    LeadsSelf(cfg, st, false);
    if Wanting(st.pcs[q]) {
      s1 := WaiterFinishes(cfg, st, q);
    } else if st.pcs[q] != Idle {
      s1 := SpinnerFinishes(cfg, st, q);
    }
    LeadsReachable(cfg, st, s1, false);
    ReachableInv(cfg, s1);
    st' := IncFinishes(cfg, s1, q);
    LeadsOn(cfg, st, s1, st', false, true);
  }

  lemma NotDeadFinishes(cfg: Config, st: St, p: nat)
    requires Valid(cfg) && Reachable(cfg, st) && Shape(cfg, st) && p < |st.pcs| && InWait(st.pcs[p])
    requires !Dead(st)
    ensures CanFinish(cfg, st, p, true)
  {
    var s1 := LockComesFree(cfg, st);
    LeadsReachable(cfg, st, s1, false);
    LeadsMore(cfg, st, s1);
    if s1.pcs[p] != Idle {
      FreeFinishes(cfg, s1, p);
      var s2 :| Leads(cfg, s1, s2, true) && p < |s2.pcs| && s2.pcs[p] == Idle;
      LeadsOn(cfg, st, s1, s2, false, true);
    }
  }

  lemma FreeFinishes(cfg: Config, st: St, p: nat)
    requires Valid(cfg) && Reachable(cfg, st) && Shape(cfg, st) && p < |st.pcs| && Outside(st.pcs[p])
    requires !Dead(st)
    requires st.sh.lock == 0
    ensures CanFinish(cfg, st, p, true)
  {
    ReachableInv(cfg, st);
    var s1 := st;
    LeadsSelf(cfg, st, true);
    if st.sh.count == 0 || (Pausing(st.pcs[p]) && cfg.pids[p] !in st.pending) {
      var q: nat;
      if st.sh.count > 0 {
        q := SomeoneAwake(cfg, st);
      } else {
        q :| q < |st.pcs| && !Wanting(st.pcs[q]);
      }
      s1 := HelperIncs(cfg, st, q);
    }
    LeadsReachable(cfg, st, s1, true);
    var s2 := WaiterFinishes(cfg, s1, p);
    LeadsOn(cfg, st, s1, s2, true, false);
  }

  /** Under either mask a process in sem_wait can get through, with the help of
      others if need be, unless and only unless the semaphore is used up and
      every process wants it; and that is then so for ever. A lost wake-up is
      made good by the next sem_inc, and somebody can call one. */
  lemma FinishesIff(cfg: Config, st: St, p: nat)
    requires Valid(cfg) && Reachable(cfg, st) && Shape(cfg, st)
    requires p < |st.pcs| && InWait(st.pcs[p])
    ensures CanFinish(cfg, st, p, true) <==> !Dead(st)
  {
    ReachableInv(cfg, st);
    if !Dead(st) {
      NotDeadFinishes(cfg, st, p);
    } else {
      var P := x => Dead(x);
      forall x, m | Shape(cfg, x) && P(x) && Enabled(cfg, x, m)
        ensures P(Next(cfg, x, m))
      {
        DeadStays(cfg, x, m);
      }
      forall st' | Leads(cfg, st, st', true) && Shape(cfg, st')
        ensures Wanting(st'.pcs[p])
      {
        var moves :| Run(cfg, st, moves) == Some(st');
        RunKeeps(cfg, P, true, st, moves);
      }
    }
  }

  // ---- Deadlock happens ----

  ghost predicate UsedUp(cfg: Config, st: St, pcs: seq<Pc>) {
    Reachable(cfg, st) && st.pcs == pcs && st.sh.lock == 0 && st.sh.count == 0
  }

  /** Process 0 uses up the count, one sem_try after the other. */
  lemma {:induction false} UseUp(cfg: Config, st: St)
    requires Valid(cfg) && Reachable(cfg, st) && Shape(cfg, st) && |cfg.pids| >= 1
    requires st.pcs[0] == Idle && st.sh.lock == 0
    ensures exists st' :: UsedUp(cfg, st', st.pcs)
    decreases st.sh.count
  {
    ReachableInv(cfg, st);
    if st.sh.count == 0 {
      assert UsedUp(cfg, st, st.pcs);
    } else {
      var s1 := TryFinishes(cfg, st, 0);
      LeadsReachable(cfg, st, s1, false);
      UseUp(cfg, s1);
    }
  }

  /** Then one process after the other calls sem_wait. */
  lemma {:induction false} AllWait(cfg: Config, st: St, k: nat)
    requires Reachable(cfg, st) && Shape(cfg, st) && k <= |st.pcs| && st.sh.count == 0
    requires forall q :: 0 <= q < k ==> Wanting(st.pcs[q])
    requires forall q :: k <= q < |st.pcs| ==> st.pcs[q] == Idle
    ensures exists st' :: Reachable(cfg, st') && Shape(cfg, st') && Dead(st')
    decreases |st.pcs| - k
  {
    if k != |st.pcs| {
      Reach(cfg, st, Call(k, Wait));
      AllWait(cfg, Next(cfg, st, Call(k, Wait)), k + 1);
    }
  }

  /** The deadlock can come about in every configuration that has a process. */
  lemma DeadReachable(cfg: Config)
    requires Valid(cfg) && |cfg.pids| >= 1
    ensures exists st :: Reachable(cfg, st) && Shape(cfg, st) && Dead(st)
  {
    assert Run(cfg, Start(cfg), []) == Some(Start(cfg));
    UseUp(cfg, Start(cfg));
    var s1 :| UsedUp(cfg, s1, Start(cfg).pcs);
    ReachableInv(cfg, s1);
    AllWait(cfg, s1, 0);
  }

  // ---- Which configurations lose wake-ups ----

  ghost predicate CanLose(cfg: Config) {
    exists st, p: nat :: Reachable(cfg, st) && Shape(cfg, st) && p < |st.pcs| && Lost(cfg, st, p)
  }

  /** Process 0 is about to call sigsuspend, all others are outside, and the count is this. */
  ghost predicate Pauses(cfg: Config, st: St, count: int) {
    && Reachable(cfg, st) && Shape(cfg, st) && |st.pcs| >= 1
    && st.pcs == Start(cfg).pcs[0 := WPause] && st.sh.lock == 0 && st.sh.count == count
  }

  /** Process 0 finds count used up and frees the lock. */
  lemma FirstGivesUp(cfg: Config, st: St)
    requires Valid(cfg) && |cfg.pids| >= 1 && UsedUp(cfg, st, Start(cfg).pcs)
    ensures exists st' :: Pauses(cfg, st', 0)
  {
    ReachableInv(cfg, st);
    Reach(cfg, st, Call(0, Wait));
    var s1 := Next(cfg, st, Call(0, Wait));
    Reach(cfg, s1, Go(0));
    var s2 := Next(cfg, s1, Go(0));
    assert s2.pcs == Start(cfg).pcs[0 := WSpin] && s2.sh.count == 0;
    var s3 := SpinnerFinishes(cfg, s2, 0);
    LeadsReachable(cfg, s2, s3, false);
    assert Pauses(cfg, s3, 0);
  }

  /** A signal that is pending before sigsuspend is handled there and then. */
  lemma FirstHandles(cfg: Config, st: St, count: int)
    requires |cfg.pids| >= 1 && !cfg.held && Pauses(cfg, st, count)
    ensures exists st' :: Pauses(cfg, st', count) && cfg.pids[0] !in st'.pending
  {
    if cfg.pids[0] in st.pending {
      Reach(cfg, st, Handle(0));
      assert Pauses(cfg, Next(cfg, st, Handle(0)), count);
    }
  }

  lemma FirstSleeps(cfg: Config, st: St, count: int)
    requires |cfg.pids| >= 1 && Pauses(cfg, st, count) && cfg.pids[0] !in st.pending && count > 0
    ensures CanLose(cfg)
  {
    Reach(cfg, st, Go(0));
    var s1 := Next(cfg, st, Go(0));
    assert s1.pcs == Start(cfg).pcs[0 := WAsleep] && s1.sh == st.sh && s1.pending == st.pending;
    assert Lost(cfg, s1, 0);
  }

  /** With SIGUSR1 handled as soon as it arrives, a wake-up can be lost from any
      initial count: process 1 runs the whole of sem_inc while process 0 is
      between the release of the lock and sigsuspend. */
  lemma WakeupCanBeLost(cfg: Config)
    requires Valid(cfg) && |cfg.pids| >= 2 && !cfg.held
    ensures CanLose(cfg)
  {
    assert Run(cfg, Start(cfg), []) == Some(Start(cfg));
    UseUp(cfg, Start(cfg));
    var s0 :| UsedUp(cfg, s0, Start(cfg).pcs);
    FirstGivesUp(cfg, s0);
    var s1 :| Pauses(cfg, s1, 0);
    var s2 := HelperIncs(cfg, s1, 1);
    LeadsReachable(cfg, s1, s2, true);
    assert s2.pcs == s1.pcs;
    FirstHandles(cfg, s2, s2.sh.count);
    var s3 :| Pauses(cfg, s3, s2.sh.count) && cfg.pids[0] !in s3.pending;
    FirstSleeps(cfg, s3, s2.sh.count);
  }

  /** A wake-up can be lost if and only if signals are not held until sigsuspend
      and there are two processes. */
  lemma CanLoseIff(cfg: Config)
    requires Valid(cfg)
    ensures CanLose(cfg) <==> !cfg.held && |cfg.pids| >= 2
  {
    if !cfg.held && |cfg.pids| >= 2 {
      WakeupCanBeLost(cfg);
    }
    if CanLose(cfg) {
      var st, p: nat :| Reachable(cfg, st) && Shape(cfg, st) && p < |st.pcs| && Lost(cfg, st, p);
      if cfg.held {
        HeldNeverLoses(cfg, st, p);
      }
      if |cfg.pids| == 1 {
        AloneNeverLoses(cfg, st);
      }
    }
  }
}
