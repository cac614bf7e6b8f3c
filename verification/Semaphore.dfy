/** ps7/sem.c as a protocol of small steps. Any number of processes run sem_wait,
    sem_inc and sem_try on one shared struct sem; each access to shared memory
    is a step of its own, and the steps of different processes interleave freely.
    Each process has its own slot in the procs array. */
module Semaphore {
  import opened Util

  /** struct sem. */
  datatype Shared = Shared(lock: int, count: int, procs: seq<int>)

  /** The next thing a process does. W: sem_wait, I: sem_inc, T: sem_try. A
      register holds what was loaded from count. */
  datatype Pc =
    | Idle
    | WFlag | WSpin | WTest | WClear | WLoad | WStore(reg: int) | WUnlock | WGiveUp | WPause | WAsleep
    | ISpin | ILoad | IStore(reg: int) | IScan(slot: nat) | IUnlock
    | TSpin | TTest | TLoad | TStore(reg: int) | TUnlock(took: bool)

  datatype Effect = Effect(sh: Shared, pc: Pc, kill: Option<int>)

  /** tas: one exchange sets the lock; the old value decides whether it was won. */
  function TestAndSet(sh: Shared, won: Pc, lost: Pc): Effect {
    Effect(sh.(lock := 1), if sh.lock == 0 then won else lost, None)
  }

  /** One step of the code of sem.c by the process in slot me. */
  function Step(sh: Shared, me: nat, pid: int, pc: Pc): Effect
    requires me < |sh.procs| && pc != Idle && pc != WAsleep
  {
    match pc
    case WFlag => Effect(sh.(procs := sh.procs[me := pid]), WSpin, None)
    case WSpin => TestAndSet(sh, WTest, WSpin)
    case WTest => Effect(sh, if sh.count > 0 then WClear else WGiveUp, None)
    case WClear => Effect(sh.(procs := sh.procs[me := 0]), WLoad, None)
    case WLoad => Effect(sh, WStore(sh.count), None)
    case WStore(r) => Effect(sh.(count := r - 1), WUnlock, None)
    case WUnlock => Effect(sh.(lock := 0), Idle, None)
    case WGiveUp => Effect(sh.(lock := 0), WPause, None)
    case WPause => Effect(sh, WAsleep, None)
    case ISpin => TestAndSet(sh, ILoad, ISpin)
    case ILoad => Effect(sh, IStore(sh.count), None)
    case IStore(r) => Effect(sh.(count := r + 1), IScan(0), None)
    case IScan(i) =>
      if i >= |sh.procs| then Effect(sh, IUnlock, None)
      else Effect(sh, IScan(i + 1), if sh.procs[i] != 0 then Some(sh.procs[i]) else None)
    case IUnlock => Effect(sh.(lock := 0), Idle, None)
    case TSpin => TestAndSet(sh, TTest, TSpin)
    case TTest => Effect(sh, if sh.count != 0 then TLoad else TUnlock(false), None)
    case TLoad => Effect(sh, TStore(sh.count), None)
    case TStore(r) => Effect(sh.(count := r - 1), TUnlock(true), None)
    case TUnlock(_) => Effect(sh.(lock := 0), Idle, None)
  }

  /** The shared struct in its own form, with each step's access made in place. */
  class Sem {
    var lock: int
    var count: int
    const procs: array<int>

    ghost function Contents(): Shared
      reads this, procs
    {
      Shared(lock, count, procs[..])
    }

    constructor (nProc: nat)
      ensures procs.Length == nProc && fresh(procs)
    {
      procs := new int[nProc];
      lock, count := 0, 0;
    }

    method SemInit(count: int)
      modifies this, procs
      ensures Contents() == Shared(0, count, seq(procs.Length, _ => 0))
    {
      this.count := count;
      lock := 0;
      for i := 0 to procs.Length
        invariant this.count == count && lock == 0
        invariant forall j :: 0 <= j < i ==> procs[j] == 0
      {
        procs[i] := 0;
      }
    }

    method Tas() returns (was: int)
      modifies this`lock
      ensures lock == 1 && was == old(lock)
    {
      was := lock;
      lock := 1;
    }

    /** One step of the process in slot me, on the struct itself. */
    method Advance(me: nat, pid: int, pc: Pc) returns (next: Pc, kill: Option<int>)
      requires me < procs.Length && pc != Idle && pc != WAsleep
      modifies this, procs
      ensures Effect(Contents(), next, kill) == Step(old(Contents()), me, pid, pc)
    {
      kill := None;
      match pc {
        case WFlag => procs[me] := pid; next := WSpin;
        case WSpin => var was := Tas(); next := if was == 0 then WTest else WSpin;
        case WTest => next := if count > 0 then WClear else WGiveUp;
        case WClear => procs[me] := 0; next := WLoad;
        case WLoad => next := WStore(count);
        case WStore(r) => count := r - 1; next := WUnlock;
        case WUnlock => lock := 0; next := Idle;
        case WGiveUp => lock := 0; next := WPause;
        case WPause => next := WAsleep;
        case ISpin => var was := Tas(); next := if was == 0 then ILoad else ISpin;
        case ILoad => next := IStore(count);
        case IStore(r) => count := r + 1; next := IScan(0);
        case IScan(i) =>
          if i >= procs.Length {
            next := IUnlock;
          } else {
            if procs[i] != 0 {
              kill := Some(procs[i]);
            }
            next := IScan(i + 1);
          }
        case IUnlock => lock := 0; next := Idle;
        case TSpin => var was := Tas(); next := if was == 0 then TTest else TSpin;
        case TTest => next := if count != 0 then TLoad else TUnlock(false);
        case TLoad => next := TStore(count);
        case TStore(r) => count := r - 1; next := TUnlock(true);
        case TUnlock(_) => lock := 0; next := Idle;
      }
    }
  }

  // ---- All processes together ----

  /** pids[p] is the pid of the process in slot p. held says whether a SIGUSR1
      that arrives outside sigsuspend stays pending until it, as sem_wait needs;
      otherwise it is handled at once and is gone, as with the mask as written. */
  datatype Config = Config(pids: seq<int>, init: int, held: bool)

  ghost predicate Valid(cfg: Config) {
    && cfg.init >= 0
    && (forall p :: 0 <= p < |cfg.pids| ==> cfg.pids[p] != 0)
    && (forall p, q :: 0 <= p < q < |cfg.pids| ==> cfg.pids[p] != cfg.pids[q])
  }

  /** History beside the shared struct and the program counters: vs counts the
      increments stored so far; seen[p] is what vs was when p last found count
      used up; sent and ate are the pids signalled, and those whose last signal
      was handled outside sigsuspend, since that test; incs and decs count the
      completed increments and decrements. */
  datatype St = St(
    sh: Shared, pcs: seq<Pc>, pending: set<int>,
    vs: nat, seen: seq<nat>, sent: set<int>, ate: set<int>, incs: nat, decs: nat)

  datatype Op = Wait | Inc | Try

  datatype Move = Call(p: nat, op: Op) | Go(p: nat) | Wake(p: nat) | Handle(p: nat)

  ghost function Start(cfg: Config): St {
    var n := |cfg.pids|;
    St(Shared(0, cfg.init, seq(n, _ => 0)), seq(n, _ => Idle), {}, 0, seq(n, _ => 0), {}, {}, 0, 0)
  }

  ghost predicate Shape(cfg: Config, st: St) {
    |st.pcs| == |st.sh.procs| == |st.seen| == |cfg.pids|
  }

  ghost predicate Enabled(cfg: Config, st: St, m: Move)
    requires Shape(cfg, st)
  {
    m.p < |cfg.pids| &&
    match m
    case Call(p, _) => st.pcs[p] == Idle
    case Go(p) => st.pcs[p] != Idle && st.pcs[p] != WAsleep
    case Wake(p) => st.pcs[p] == WAsleep && cfg.pids[p] in st.pending
    case Handle(p) => !cfg.held && st.pcs[p] != WAsleep && cfg.pids[p] in st.pending
  }

  /** What a step of process p, from this pc, adds to the history. */
  function Record(st: St, p: nat, pid: int, pc: Pc, e: Effect): St
    requires p < |st.seen|
  {
    match pc
    case WTest =>
      if e.pc == WGiveUp then st.(seen := st.seen[p := st.vs], sent := st.sent - {pid}, ate := st.ate - {pid})
      else st
    case IStore(_) => st.(vs := st.vs + 1)
    case IScan(_) =>
      if e.kill.Some?
      then st.(pending := st.pending + {e.kill.value}, sent := st.sent + {e.kill.value}, ate := st.ate - {e.kill.value})
      else st
    case IUnlock => st.(incs := st.incs + 1)
    case WUnlock => st.(decs := st.decs + 1)
    case TUnlock(took) => if took then st.(decs := st.decs + 1) else st
    case _ => st
  }

  ghost function Next(cfg: Config, st: St, m: Move): (st': St)
    requires Shape(cfg, st) && Enabled(cfg, st, m)
    ensures Shape(cfg, st')
  {
    match m
    case Call(p, op) => st.(pcs := st.pcs[p := match op { case Wait => WFlag case Inc => ISpin case Try => TSpin }])
    case Go(p) =>
      var e := Step(st.sh, p, cfg.pids[p], st.pcs[p]);
      Record(st, p, cfg.pids[p], st.pcs[p], e).(sh := e.sh, pcs := st.pcs[p := e.pc])
    case Wake(p) => st.(pcs := st.pcs[p := WSpin], pending := st.pending - {cfg.pids[p]})
    case Handle(p) => st.(pending := st.pending - {cfg.pids[p]}, ate := st.ate + {cfg.pids[p]})
  }

  /** The state after these moves, if each is enabled when its turn comes. */
  ghost function Run(cfg: Config, st: St, moves: seq<Move>): (r: Option<St>)
    requires Shape(cfg, st)
    ensures r.Some? ==> Shape(cfg, r.value)
    decreases |moves|
  {
    if |moves| == 0 then Some(st)
    else if Enabled(cfg, st, moves[0]) then Run(cfg, Next(cfg, st, moves[0]), moves[1..])
    else None
  }

  ghost predicate Reachable(cfg: Config, st: St) {
    exists moves :: Run(cfg, Start(cfg), moves) == Some(st)
  }

  // ---- The invariant ----

  /** Between a won tas and the release of the lock. */
  predicate Critical(pc: Pc) {
    !(pc.Idle? || pc.WFlag? || pc.WSpin? || pc.WPause? || pc.WAsleep? || pc.ISpin? || pc.TSpin?)
  }

  ghost predicate Mutex(st: St) {
    && (st.sh.lock == 0 || st.sh.lock == 1)
    && (forall p :: 0 <= p < |st.pcs| && Critical(st.pcs[p]) ==> st.sh.lock == 1)
    && (st.sh.lock == 1 ==> exists p :: 0 <= p < |st.pcs| && Critical(st.pcs[p]))
    && (forall p, q :: 0 <= p < |st.pcs| && 0 <= q < |st.pcs| && Critical(st.pcs[p]) && Critical(st.pcs[q]) ==> p == q)
  }

  /** What the lock holder has done to count and not yet completed. */
  function Drift(pc: Pc): int {
    match pc
    case IScan(_) => 1
    case IUnlock => 1
    case WUnlock => -1
    case TUnlock(took) => if took then -1 else 0
    case _ => 0
  }

  ghost predicate HolderOk(cfg: Config, st: St, pc: Pc) {
    && st.sh.count == cfg.init + st.incs - st.decs + Drift(pc)
    && match pc {
         case WClear => st.sh.count > 0
         case WLoad => st.sh.count > 0
         case WStore(r) => r == st.sh.count && r > 0
         case IStore(r) => r == st.sh.count
         case TLoad => st.sh.count > 0
         case TStore(r) => r == st.sh.count && r > 0
         case _ => true
       }
  }

  ghost predicate Counted(cfg: Config, st: St) {
    && st.sh.count >= 0
    && (st.sh.lock == 0 ==> st.sh.count == cfg.init + st.incs - st.decs)
    && (forall p :: 0 <= p < |st.pcs| && Critical(st.pcs[p]) ==> HolderOk(cfg, st, st.pcs[p]))
  }

  /** From setting its flag to clearing it. */
  predicate Flagged(pc: Pc) {
    pc.WSpin? || pc.WTest? || pc.WClear? || pc.WGiveUp? || pc.WPause? || pc.WAsleep?
  }

  ghost predicate FlagOk(cfg: Config, st: St, p: nat)
    requires Shape(cfg, st) && p < |st.pcs|
  {
    st.sh.procs[p] == if Flagged(st.pcs[p]) then cfg.pids[p] else 0
  }

  ghost predicate Flags(cfg: Config, st: St)
    requires Shape(cfg, st)
  {
    forall p :: 0 <= p < |st.pcs| ==> FlagOk(cfg, st, p)
  }

  /** Between a failed test of count and the next try. */
  predicate Failed(pc: Pc) {
    pc.WGiveUp? || pc.WPause? || pc.WAsleep?
  }

  predicate ScansBefore(pc: Pc, p: nat) {
    pc.IScan? && pc.slot <= p
  }

  /** Some sem_inc has not yet scanned slot p. */
  ghost predicate ScanDue(st: St, p: nat) {
    exists q :: 0 <= q < |st.pcs| && ScansBefore(st.pcs[q], p)
  }

  ghost predicate WaiterOk(cfg: Config, st: St, p: nat)
    requires Shape(cfg, st) && p < |st.pcs|
  {
    && st.seen[p] <= st.vs
    && (Failed(st.pcs[p]) ==>
          && (st.seen[p] == st.vs ==> st.sh.count <= 0)
          && (st.seen[p] < st.vs ==> cfg.pids[p] in st.sent || ScanDue(st, p))
          && (cfg.pids[p] in st.sent ==> (cfg.pids[p] in st.pending <==> cfg.pids[p] !in st.ate)))
  }

  ghost predicate Waiters(cfg: Config, st: St)
    requires Shape(cfg, st)
  {
    && (cfg.held ==> st.ate == {})
    && forall p :: 0 <= p < |st.pcs| ==> WaiterOk(cfg, st, p)
  }

  ghost predicate Inv(cfg: Config, st: St) {
    && Shape(cfg, st)
    && Mutex(st)
    && Counted(cfg, st)
    && Flags(cfg, st)
    && Waiters(cfg, st)
  }
}
