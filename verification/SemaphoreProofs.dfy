/** What holds of ps7/sem.c in every reachable state, for any number of
    processes and any interleaving of their steps. */
module SemaphoreProofs {
  import opened Util
  import opened Semaphore

  // ---- The lock ----

  lemma MutexGo(cfg: Config, st: St, p: nat)
    requires Shape(cfg, st) && Mutex(st) && Enabled(cfg, st, Go(p))
    ensures Mutex(Next(cfg, st, Go(p)))
  {
    var st' := Next(cfg, st, Go(p));
    assert st'.pcs == st.pcs[p := st'.pcs[p]];
    if st'.sh.lock == 1 {
      if st.sh.lock == 1 {
        var h :| 0 <= h < |st.pcs| && Critical(st.pcs[h]);
        assert Critical(st'.pcs[h]);
      } else {
        assert Critical(st'.pcs[p]);
      }
    }
  }

  lemma MutexNext(cfg: Config, st: St, m: Move)
    requires Shape(cfg, st) && Mutex(st) && Enabled(cfg, st, m)
    ensures Mutex(Next(cfg, st, m))
  {
    if m.Go? {
      MutexGo(cfg, st, m.p);
    } else {
      var st' := Next(cfg, st, m);
      assert forall q :: 0 <= q < |st.pcs| ==> Critical(st'.pcs[q]) == Critical(st.pcs[q]);
      if st.sh.lock == 1 {
        var h :| 0 <= h < |st.pcs| && Critical(st.pcs[h]);
        assert Critical(st'.pcs[h]);
      }
    }
  }

  // ---- The count ----

  lemma CountedGo(cfg: Config, st: St, p: nat)
    requires Shape(cfg, st) && Mutex(st) && Counted(cfg, st) && Enabled(cfg, st, Go(p))
    ensures Counted(cfg, Next(cfg, st, Go(p)))
  {
    var st' := Next(cfg, st, Go(p));
    if Critical(st.pcs[p]) {
      assert HolderOk(cfg, st, st.pcs[p]);
    }
    forall q | 0 <= q < |st'.pcs| && Critical(st'.pcs[q])
      ensures HolderOk(cfg, st', st'.pcs[q])
    {
      if q != p {
        assert Critical(st.pcs[q]) && HolderOk(cfg, st, st.pcs[q]);
      }
    }
  }

  lemma CountedNext(cfg: Config, st: St, m: Move)
    requires Shape(cfg, st) && Mutex(st) && Counted(cfg, st) && Enabled(cfg, st, m)
    ensures Counted(cfg, Next(cfg, st, m))
  {
    if m.Go? {
      CountedGo(cfg, st, m.p);
    } else {
      var st' := Next(cfg, st, m);
      forall q | 0 <= q < |st'.pcs| && Critical(st'.pcs[q])
        ensures HolderOk(cfg, st', st'.pcs[q])
      {
        assert st'.pcs[q] == st.pcs[q] && HolderOk(cfg, st, st.pcs[q]);
      }
    }
  }

  // ---- The flags ----

  lemma FlagsNext(cfg: Config, st: St, m: Move)
    requires Shape(cfg, st) && Flags(cfg, st) && Enabled(cfg, st, m)
    ensures Flags(cfg, Next(cfg, st, m))
  {
    var st' := Next(cfg, st, m);
    forall q | 0 <= q < |st.pcs|
      ensures FlagOk(cfg, st', q)
    {
      assert FlagOk(cfg, st, q);
    }
  }

  // ---- The waiters ----

  lemma DueStays(st: St, st': St, p: nat, i: nat)
    requires |st'.pcs| == |st.pcs| && p < |st.pcs| && ScanDue(st, i)
    requires forall q :: 0 <= q < |st.pcs| && q != p ==> st'.pcs[q] == st.pcs[q]
    requires ScansBefore(st.pcs[p], i) ==> ScansBefore(st'.pcs[p], i)
    ensures ScanDue(st', i)
  {
    var q :| 0 <= q < |st.pcs| && ScansBefore(st.pcs[q], i);
    assert ScansBefore(st'.pcs[q], i);
  }

  /** A step of the scan either leaves slot i still to come or signals its waiter. */
  lemma WaitersScan(cfg: Config, st: St, p: nat)
    requires Valid(cfg) && Inv(cfg, st) && Enabled(cfg, st, Go(p)) && st.pcs[p].IScan?
    ensures forall i :: 0 <= i < |st.pcs| ==> WaiterOk(cfg, Next(cfg, st, Go(p)), i)
  {
    var st' := Next(cfg, st, Go(p));
    var k := st.pcs[p].slot;
    forall i | 0 <= i < |st.pcs|
      ensures WaiterOk(cfg, st', i)
    {
      assert WaiterOk(cfg, st, i) && FlagOk(cfg, st, i);
      if Failed(st.pcs[i]) {
        assert i != p;
        if k < |st.pcs| {
          assert FlagOk(cfg, st, k);
          assert st'.sent == if st.sh.procs[k] != 0 then st.sent + {cfg.pids[k]} else st.sent;
          assert k != i ==> cfg.pids[k] != cfg.pids[i];
        }
        if k != i && ScanDue(st, i) {
          DueStays(st, st', p, i);
        }
      }
    }
  }

  lemma WaitersRest(cfg: Config, st: St, m: Move)
    requires Valid(cfg) && Inv(cfg, st) && Enabled(cfg, st, m) && (m.Go? ==> !st.pcs[m.p].IScan?)
    ensures forall i :: 0 <= i < |st.pcs| ==> WaiterOk(cfg, Next(cfg, st, m), i)
  {
    var st' := Next(cfg, st, m);
    if m.Go? && Critical(st.pcs[m.p]) {
      assert HolderOk(cfg, st, st.pcs[m.p]);
    }
    forall i | 0 <= i < |st.pcs|
      ensures WaiterOk(cfg, st', i)
    {
      assert WaiterOk(cfg, st, i);
      assert m.p != i ==> cfg.pids[m.p] != cfg.pids[i];
      if m.Go? && st.pcs[m.p].IStore? {
        assert ScansBefore(st'.pcs[m.p], i);
      } else if Failed(st.pcs[i]) && ScanDue(st, i) {
        DueStays(st, st', m.p, i);
      }
    }
  }

  lemma WaitersNext(cfg: Config, st: St, m: Move)
    requires Valid(cfg) && Inv(cfg, st) && Enabled(cfg, st, m)
    ensures Waiters(cfg, Next(cfg, st, m))
  {
    if m.Go? && st.pcs[m.p].IScan? {
      WaitersScan(cfg, st, m.p);
    } else {
      WaitersRest(cfg, st, m);
    }
  }

  // ---- Runs ----

  lemma InvNext(cfg: Config, st: St, m: Move)
    requires Valid(cfg) && Inv(cfg, st) && Enabled(cfg, st, m)
    ensures Inv(cfg, Next(cfg, st, m))
  {
    MutexNext(cfg, st, m);
    CountedNext(cfg, st, m);
    FlagsNext(cfg, st, m);
    WaitersNext(cfg, st, m);
  }

  ghost predicate NoInc(moves: seq<Move>) {
    forall i :: 0 <= i < |moves| ==> !CallsInc(moves[i])
  }

  predicate CallsInc(m: Move) {
    m.Call? && m.op == Inc
  }

  /** What every move keeps; without inc, every move but a call of sem_inc. */
  ghost predicate Inductive(cfg: Config, P: St -> bool, inc: bool) {
    forall st, m ::
      Shape(cfg, st) && P(st) && Enabled(cfg, st, m) && (inc || !CallsInc(m)) ==> P(Next(cfg, st, m))
  }

  lemma {:induction false} RunKeeps(cfg: Config, P: St -> bool, inc: bool, st: St, moves: seq<Move>)
    requires Inductive(cfg, P, inc) && Shape(cfg, st) && P(st)
    requires (inc || NoInc(moves)) && Run(cfg, st, moves).Some?
    ensures P(Run(cfg, st, moves).value)
    decreases |moves|
  {
    if |moves| != 0 {
      assert !inc ==> !CallsInc(moves[0]);
      assert forall i :: 0 <= i < |moves[1..]| ==> moves[1..][i] == moves[i + 1];
      RunKeeps(cfg, P, inc, Next(cfg, st, moves[0]), moves[1..]);
    }
  }

  lemma ReachableKeeps(cfg: Config, P: St -> bool, st: St)
    requires Inductive(cfg, P, true) && P(Start(cfg)) && Reachable(cfg, st)
    ensures P(st)
  {
    var moves :| Run(cfg, Start(cfg), moves) == Some(st);
    RunKeeps(cfg, P, true, Start(cfg), moves);
  }

  lemma ReachableInv(cfg: Config, st: St)
    requires Valid(cfg) && Reachable(cfg, st)
    ensures Inv(cfg, st)
  {
    var P := x => Inv(cfg, x);
    forall x, m | P(x) && Enabled(cfg, x, m)
      ensures P(Next(cfg, x, m))
    {
      InvNext(cfg, x, m);
    }
    ReachableKeeps(cfg, P, st);
  }

  /** At most one process holds the lock, the lock word says whether one does,
      and whenever it is free, count is the initial count plus the completed
      increments less the completed decrements, and is not negative. */
  lemma SemaphoreConserved(cfg: Config, st: St)
    requires Valid(cfg) && Reachable(cfg, st)
    ensures forall p, q :: 0 <= p < q < |st.pcs| ==> !(Critical(st.pcs[p]) && Critical(st.pcs[q]))
    ensures st.sh.lock == 0 <==> forall p :: 0 <= p < |st.pcs| ==> !Critical(st.pcs[p])
    ensures st.sh.count >= 0
    ensures st.sh.lock == 0 ==> st.sh.count == cfg.init + st.incs - st.decs
  {
    ReachableInv(cfg, st);
  }

  /** A process that found count used up, and since whose test a V has been
      stored, has been signalled since, or a sem_inc has yet to scan its slot. */
  lemma FailedWaiterSignalled(cfg: Config, st: St, p: nat)
    requires Valid(cfg) && Reachable(cfg, st) && p < |st.pcs| && Failed(st.pcs[p])
    requires st.seen[p] < st.vs
    ensures cfg.pids[p] in st.sent || exists q :: 0 <= q < |st.pcs| && st.pcs[q].IScan? && st.pcs[q].slot <= p
  {
    ReachableInv(cfg, st);
    assert WaiterOk(cfg, st, p);
    if ScanDue(st, p) {
      var q :| 0 <= q < |st.pcs| && ScansBefore(st.pcs[q], p);
      assert st.pcs[q].IScan?;
    }
  }

  /** Where the semaphore is up and no sem_inc has yet to scan its slot, a
      process in sigsuspend has no signal pending exactly when its last signal
      was handled before it got there. */
  lemma LostWakeupIff(cfg: Config, st: St, p: nat)
    requires Valid(cfg) && Reachable(cfg, st) && p < |st.pcs|
    requires st.pcs[p] == WAsleep && st.sh.count > 0
    requires forall q :: 0 <= q < |st.pcs| && st.pcs[q].IScan? ==> st.pcs[q].slot > p
    ensures cfg.pids[p] !in st.pending <==> cfg.pids[p] in st.ate
  {
    ReachableInv(cfg, st);
    assert WaiterOk(cfg, st, p);
  }

  /** No lost wake-up, if a signal that comes before sigsuspend is kept for it. */
  lemma NoLostWakeup(cfg: Config, st: St, p: nat)
    requires Valid(cfg) && Reachable(cfg, st) && cfg.held && p < |st.pcs|
    requires st.pcs[p] == WAsleep && st.sh.count > 0
    requires forall q :: 0 <= q < |st.pcs| && st.pcs[q].IScan? ==> st.pcs[q].slot > p
    ensures cfg.pids[p] in st.pending
  {
    ReachableInv(cfg, st);
    LostWakeupIff(cfg, st, p);
  }

  // ---- Which configurations never lose a wake-up ----

  predicate InInc(pc: Pc) {
    pc.ISpin? || pc.ILoad? || pc.IStore? || pc.IScan? || pc.IUnlock?
  }

  /** A lost wake-up: the semaphore is up, the lock is free, nobody is inside
      sem_inc, and p is in sigsuspend with no signal pending. */
  ghost predicate Lost(cfg: Config, st: St, p: nat)
    requires Shape(cfg, st) && p < |st.pcs|
  {
    && st.sh.count > 0 && st.sh.lock == 0
    && st.pcs[p] == WAsleep && cfg.pids[p] !in st.pending
    && forall q :: 0 <= q < |st.pcs| ==> !InInc(st.pcs[q])
  }

  /** A single process stores no increment between its failed test and its next. */
  ghost predicate Alone(st: St) {
    && |st.pcs| == |st.seen| == 1
    && st.seen[0] <= st.vs
    && (Failed(st.pcs[0]) ==> st.seen[0] == st.vs)
  }

  lemma AloneNeverLoses(cfg: Config, st: St)
    requires Valid(cfg) && |cfg.pids| == 1 && Reachable(cfg, st) && Shape(cfg, st)
    ensures !Lost(cfg, st, 0)
  {
    ReachableInv(cfg, st);
    var P := x => Alone(x);
    forall x, m | Shape(cfg, x) && P(x) && Enabled(cfg, x, m)
      ensures P(Next(cfg, x, m))
    {
      assert m.p == 0;
    }
    ReachableKeeps(cfg, P, st);
    assert WaiterOk(cfg, st, 0);
  }

  lemma HeldNeverLoses(cfg: Config, st: St, p: nat)
    requires Valid(cfg) && cfg.held && Reachable(cfg, st) && Shape(cfg, st) && p < |st.pcs|
    ensures !Lost(cfg, st, p)
  {
    if Lost(cfg, st, p) {
      assert forall q :: 0 <= q < |st.pcs| && st.pcs[q].IScan? ==> InInc(st.pcs[q]);
      NoLostWakeup(cfg, st, p);
    }
  }
}
