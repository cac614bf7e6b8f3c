/** ps7/tasTest.c: n forked workers each add 1 to map[0] k times, under the
    spinlock map[1], which they take with the exchange of ps7/tas64.S. The load
    and the store of the increment are separate steps, and the steps of the
    workers interleave in any order. */
module Workers {
  import opened Util

  datatype Pc = Spin | Load | Store(reg: int) | Release | Done

  /** map[0], map[1], and each worker's place and finished iterations. */
  datatype Memory = Memory(total: int, lock: int, pcs: seq<Pc>, iters: seq<int>)

  ghost predicate Shape(m: Memory) {
    |m.pcs| == |m.iters|
  }

  /** The head of the worker's for loop. */
  function Head(j: int, k: nat): Pc {
    if j < k then Spin else Done
  }

  ghost function Start(n: nat, k: nat): (m: Memory)
    ensures Shape(m) && |m.pcs| == n
  {
    Memory(0, 0, seq(n, _ => Head(0, k)), seq(n, _ => 0))
  }

  /** One step of worker p; a worker that does not exist or is done does nothing. */
  ghost function Step(m: Memory, k: nat, p: nat): (m': Memory)
    requires Shape(m)
    ensures Shape(m') && |m'.pcs| == |m.pcs|
  {
    if p >= |m.pcs| then m
    else
      match m.pcs[p]
      case Spin => m.(lock := 1, pcs := m.pcs[p := if m.lock == 0 then Load else Spin])
      case Load => m.(pcs := m.pcs[p := Store(m.total)])
      case Store(r) => m.(total := r + 1, pcs := m.pcs[p := Release])
      case Release =>
        m.(lock := 0, pcs := m.pcs[p := Head(m.iters[p] + 1, k)], iters := m.iters[p := m.iters[p] + 1])
      case Done => m
  }

  ghost function After(m: Memory, k: nat, schedule: seq<nat>): (m': Memory)
    requires Shape(m)
    ensures Shape(m') && |m'.pcs| == |m.pcs|
  {
    if |schedule| == 0 then m
    else Step(After(m, k, schedule[..|schedule| - 1]), k, schedule[|schedule| - 1])
  }

  ghost function Exec(n: nat, k: nat, schedule: seq<nat>): (m: Memory)
    ensures Shape(m) && |m.pcs| == n
  {
    After(Start(n, k), k, schedule)
  }

  /** tas: sets the lock word and returns what it was. */
  method Tas(shared: array<int>) returns (was: int)
    requires shared.Length == 2
    modifies shared
    ensures was == old(shared[1])
    ensures shared[1] == 1
    ensures shared[0] == old(shared[0])
  {
    was := shared[1];
    shared[1] := 1;
  }

  /** The shared mapping and the workers' own variables, changed in place. */
  method RunWorkers(n: nat, k: nat, schedule: seq<nat>, shared: array<int>) returns (pcs: array<Pc>, iters: array<int>)
    requires shared.Length == 2
    modifies shared
    ensures pcs.Length == iters.Length == n
    ensures Memory(shared[0], shared[1], pcs[..], iters[..]) == Exec(n, k, schedule)
    ensures (forall p :: 0 <= p < n ==> pcs[p].Done?) ==> shared[0] == n * k && shared[1] == 0
  {
    shared[0], shared[1] := 0, 0;
    pcs := new Pc[n](_ => Head(0, k));
    iters := new int[n](_ => 0);
    assert Memory(shared[0], shared[1], pcs[..], iters[..]) == Start(n, k);
    for t := 0 to |schedule|
      invariant Memory(shared[0], shared[1], pcs[..], iters[..]) == Exec(n, k, schedule[..t])
    {
      assert schedule[..t + 1][..t] == schedule[..t];
      var p := schedule[t];
      if p < n {
        match pcs[p] {
          case Spin =>
            var was := Tas(shared);
            pcs[p] := if was == 0 then Load else Spin;
          case Load => pcs[p] := Store(shared[0]);
          case Store(r) =>
            shared[0] := r + 1;
            pcs[p] := Release;
          case Release =>
            shared[1] := 0;
            iters[p] := iters[p] + 1;
            pcs[p] := Head(iters[p], k);
          case Done =>
        }
      }
    }
    assert schedule[..|schedule|] == schedule;
    if forall p :: 0 <= p < n ==> pcs[p].Done? {
      assert forall p :: 0 <= p < n ==> Exec(n, k, schedule).pcs[p] == pcs[p];
      ParallelCounter(n, k, schedule);
    }
  }

  // ---- The invariant ----

  /** Between a successful tas and the release. */
  predicate Inside(pc: Pc) {
    pc.Load? || pc.Store? || pc.Release?
  }

  ghost predicate Mutex(m: Memory) {
    && (m.lock == 0 || m.lock == 1)
    && (m.lock == 1 <==> exists p :: 0 <= p < |m.pcs| && Inside(m.pcs[p]))
    && (forall p, q :: 0 <= p < |m.pcs| && 0 <= q < |m.pcs| && Inside(m.pcs[p]) && Inside(m.pcs[q]) ==> p == q)
  }

  ghost predicate Counted(m: Memory)
    requires Shape(m)
  {
    && (m.lock == 0 ==> m.total == Sum(m.iters))
    && (forall p :: 0 <= p < |m.pcs| && Inside(m.pcs[p]) ==>
          && m.total == Sum(m.iters) + (if m.pcs[p].Release? then 1 else 0)
          && (m.pcs[p].Store? ==> m.pcs[p].reg == m.total))
  }

  ghost predicate Bounded(m: Memory, k: nat)
    requires Shape(m)
  {
    forall p :: 0 <= p < |m.pcs| ==>
      && 0 <= m.iters[p] <= k
      && (m.pcs[p].Done? <==> m.iters[p] == k)
  }

  ghost predicate Inv(m: Memory, k: nat) {
    && Shape(m)
    && Mutex(m)
    && Counted(m)
    && Bounded(m, k)
  }

  lemma StepMutex(m: Memory, k: nat, p: nat)
    requires Inv(m, k)
    ensures Mutex(Step(m, k, p))
  {
    var m' := Step(m, k, p);
    if p < |m.pcs| {
      assert m'.pcs[p] == m'.pcs[p];
      if exists h :: 0 <= h < |m.pcs| && Inside(m.pcs[h]) {
        var h :| 0 <= h < |m.pcs| && Inside(m.pcs[h]);
        assert h != p ==> Inside(m'.pcs[h]);
      }
    }
  }

  lemma StepInv(m: Memory, k: nat, p: nat)
    requires Inv(m, k)
    ensures Inv(Step(m, k, p), k)
  {
    StepMutex(m, k, p);
    if p < |m.pcs| && m.pcs[p].Release? {
      SumUpdate(m.iters, p, m.iters[p] + 1);
    }
  }

  lemma {:induction false} ExecInv(n: nat, k: nat, schedule: seq<nat>)
    ensures Inv(Exec(n, k, schedule), k)
  {
    if |schedule| == 0 {
      SumConstant(Start(n, k).iters, 0);
    } else {
      ExecInv(n, k, schedule[..|schedule| - 1]);
      StepInv(Exec(n, k, schedule[..|schedule| - 1]), k, schedule[|schedule| - 1]);
    }
  }

  // ---- What every run computes ----

  /** A worker is between a successful tas and its release exactly when the lock
      word is 1, and only one worker can be. */
  lemma LockExact(n: nat, k: nat, schedule: seq<nat>)
    ensures var m := Exec(n, k, schedule);
            && (m.lock == 1 <==> exists p :: 0 <= p < n && Inside(m.pcs[p]))
            && (m.lock != 1 ==> m.lock == 0)
            && forall p, q :: 0 <= p < q < n ==> !(Inside(m.pcs[p]) && Inside(m.pcs[q]))
  {
    ExecInv(n, k, schedule);
  }

  /** Every run that finishes ends with n * k in the counter. */
  lemma ParallelCounter(n: nat, k: nat, schedule: seq<nat>)
    requires forall p :: 0 <= p < n ==> Exec(n, k, schedule).pcs[p].Done?
    ensures Exec(n, k, schedule).total == n * k
    ensures Exec(n, k, schedule).lock == 0
  {
    ExecInv(n, k, schedule);
    SumConstant(Exec(n, k, schedule).iters, k);
  }

  // ---- Progress ----

  function Stage(pc: Pc): int {
    match pc
    case Load => 1
    case Store(_) => 2
    case Release => 3
    case _ => 0
  }

  ghost function WorkSeq(m: Memory, k: nat): (xs: seq<int>)
    requires Shape(m)
    ensures |xs| == |m.pcs|
    ensures forall p :: 0 <= p < |m.pcs| ==> xs[p] == 4 * (k - m.iters[p]) - Stage(m.pcs[p])
  {
    seq(|m.pcs|, p requires 0 <= p < |m.pcs| => 4 * (k - m.iters[p]) - Stage(m.pcs[p]))
  }

  predicate Idles(m: Memory, p: nat)
    requires p < |m.pcs|
  {
    m.pcs[p].Done? || (m.pcs[p].Spin? && m.lock == 1)
  }

  /** A step that is not a failed tas takes exactly one unit off the work left,
      so a run has at most 4 * n * k of them. */
  lemma StepWork(m: Memory, k: nat, p: nat)
    requires Inv(m, k) && p < |m.pcs|
    ensures Idles(m, p) ==> Step(m, k, p) == m
    ensures !Idles(m, p) ==> Sum(WorkSeq(Step(m, k, p), k)) == Sum(WorkSeq(m, k)) - 1
  {
    if Idles(m, p) {
      assert m.pcs[p := m.pcs[p]] == m.pcs;
    } else {
      var xs, ys := WorkSeq(m, k), WorkSeq(Step(m, k, p), k);
      forall r | 0 <= r < |xs|
        ensures ys[r] == if r == p then xs[r] - 1 else xs[r]
      {
        WorkAt(m, k, p, r);
      }
      assert ys == xs[p := xs[p] - 1];
      SumUpdate(xs, p, xs[p] - 1);
    }
  }

  lemma WorkAt(m: Memory, k: nat, p: nat, r: nat)
    requires Inv(m, k) && p < |m.pcs| && r < |m.pcs| && !Idles(m, p)
    ensures WorkSeq(Step(m, k, p), k)[r] == if r == p then WorkSeq(m, k)[r] - 1 else WorkSeq(m, k)[r]
  {
    assert m.iters[p] <= k;
  }

  lemma WorkPositive(m: Memory, k: nat)
    requires Inv(m, k)
    ensures Sum(WorkSeq(m, k)) >= 0
  {
    var zeros := seq(|m.pcs|, _ => 0);
    SumConstant(zeros, 0);
    SumMonotone(zeros, WorkSeq(m, k));
  }

  /** The lock holder if there is one, else anyone who is not done. */
  lemma SomeoneMoves(m: Memory, k: nat) returns (q: nat)
    requires Inv(m, k) && exists p :: 0 <= p < |m.pcs| && !m.pcs[p].Done?
    ensures q < |m.pcs| && !Idles(m, q)
  {
    q :| q < |m.pcs| && !m.pcs[q].Done?;
    if m.lock == 1 {
      q :| q < |m.pcs| && Inside(m.pcs[q]);
    }
  }

  lemma {:induction false} AfterConcat(m: Memory, k: nat, xs: seq<nat>, ys: seq<nat>)
    requires Shape(m)
    ensures After(m, k, xs + ys) == After(After(m, k, xs), k, ys)
  {
    if |ys| == 0 {
      assert xs + ys == xs;
    } else {
      assert (xs + ys)[..|xs + ys| - 1] == xs + ys[..|ys| - 1];
      AfterConcat(m, k, xs, ys[..|ys| - 1]);
    }
  }

  lemma {:induction false} Finish(m: Memory, k: nat) returns (rest: seq<nat>)
    requires Inv(m, k)
    ensures forall p :: 0 <= p < |m.pcs| ==> After(m, k, rest).pcs[p].Done?
    decreases Sum(WorkSeq(m, k))
  {
    rest := [];
    if exists p :: 0 <= p < |m.pcs| && !m.pcs[p].Done? {
      var q := SomeoneMoves(m, k);
      var m' := Step(m, k, q);
      StepWork(m, k, q);
      StepInv(m, k, q);
      WorkPositive(m', k);
      var more := Finish(m', k);
      rest := [q] + more;
      assert After(m, k, [q]) == m' by {
        assert [q][..0] == [];
      }
      AfterConcat(m, k, [q], more);
    }
  }

  /** From every reachable state some continuation finishes: no deadlock. */
  lemma CanFinish(n: nat, k: nat, schedule: seq<nat>)
    ensures exists rest :: forall p :: 0 <= p < n ==> Exec(n, k, schedule + rest).pcs[p].Done?
  {
    ExecInv(n, k, schedule);
    var rest := Finish(Exec(n, k, schedule), k);
    AfterConcat(Start(n, k), k, schedule, rest);
  }
}
