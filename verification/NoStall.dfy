/** Absence of stalls. If pid 1 never exits and waits only when it has another
    child, and every other task exits only after reaping its own children, then
    in every reachable world some task is READY or RUNNING. */
module NoStall {
  import opened Util
  import opened Table
  import opened Runs

  ghost predicate OtherChild(ps: seq<Option<Proc>>, i: nat) {
    exists j :: 0 <= j < |ps| && j != i && IsChild(ps[j], i + 1)
  }

  ghost predicate Orderly(w: World, a: Action)
    requires Shape(w)
  {
    match a
    case Exit(_) => w.sys.cur != 0 && !HasChild(w.sys.procs, Current(w.sys).pid)
    case Wait => w.sys.cur == 0 ==> OtherChild(w.sys.procs, 0)
    case _ => true
  }

  ghost predicate OrderlyAt(ws: seq<World>, acts: seq<Action>, i: nat)
    requires i < |acts| < |ws|
  {
    StepAt(ws, acts, i) && Orderly(ws[i], acts[i])
  }

  ghost predicate OrderlyRun(ws: seq<World>, acts: seq<Action>) {
    && |ws| == |acts| + 1
    && ws[0] == Start()
    && forall i :: 0 <= i < |acts| ==> OrderlyAt(ws, acts, i)
  }

  ghost predicate Alive(e: Option<Proc>) {
    e.Some? && e.value.status != Zombie
  }

  ghost predicate Runnable(ps: seq<Option<Proc>>) {
    exists i :: 0 <= i < |ps| && (Is(ps[i], Ready) || Is(ps[i], Running))
  }

  /** Every task but pid 1 has a parent that is in the table, is not a zombie,
      and was born before it; birth order makes the parent relation acyclic. */
  ghost predicate ParentAt(w: World, j: nat)
    requires Shape(w) && j < NPROC && w.sys.procs[j].Some?
  {
    var p := w.sys.procs[j].value.ppid - 1;
    if j == 0 then p == 0 && Alive(w.sys.procs[0])
    else 0 <= p < NPROC && Alive(w.sys.procs[p]) && w.birth[p] < w.birth[j]
  }

  ghost predicate MemberAt(w: World, j: nat)
    requires Shape(w) && j < NPROC
  {
    w.sys.procs[j].Some? ==>
      && ParentAt(w, j)
      && w.birth[j] < |w.log|
      && (Waiting(w, j) ==> OtherChild(w.sys.procs, j))
      && (Is(w.sys.procs[j], Zombie) <==> w.at[j] == InExit)
  }

  ghost predicate Family(w: World)
    requires Shape(w)
  {
    && Alive(w.sys.procs[0])
    && forall j :: 0 <= j < NPROC ==> MemberAt(w, j)
  }

  ghost predicate Settled(w: World) {
    && Inv(w)
    && Family(w)
  }

  // ---- Some task can run ----

  /** From a live task, going to a child of each sleeper in turn, births only
      increase; so the walk ends at a task that is not asleep. */
  lemma {:induction false} YoungestRuns(w: World, i: nat)
    requires Inv(w) && Family(w) && i < NPROC && Alive(w.sys.procs[i])
    ensures Runnable(w.sys.procs)
    decreases |w.log| - w.birth[i]
  {
    assert MemberAt(w, i) && HandshakeAt(w, i);
    if Is(w.sys.procs[i], Sleeping) {
      var j :| 0 <= j < NPROC && j != i && IsChild(w.sys.procs[j], i + 1);
      assert MemberAt(w, j) && !DeadChild(w.sys.procs[j], i + 1);
      YoungestRuns(w, j);
    }
  }

  lemma SomeoneRuns(w: World)
    requires Inv(w) && Family(w)
    ensures Runnable(w.sys.procs)
  {
    YoungestRuns(w, 0);
  }

  lemma SwitchFinds(w: World)
    requires Inv(w) && Family(w)
    requires Is(w.sys.procs[w.sys.cur], Sleeping) || Is(w.sys.procs[w.sys.cur], Zombie)
    ensures Switch(w.sys).cur != w.sys.cur
  {
    SomeoneRuns(w);
    var i :| 0 <= i < NPROC && (Is(w.sys.procs[i], Ready) || Is(w.sys.procs[i], Running));
    assert i != w.sys.cur && Is(w.sys.procs[i], Ready);
    assert Is(Queue(w.sys)[i], Ready);
    SelectionIsBest(w.sys);
  }

  // ---- Each orderly action keeps the family ----

  lemma OtherChildKept(ps: seq<Option<Proc>>, qs: seq<Option<Proc>>, i: nat)
    requires OtherChild(ps, i) && |ps| == |qs|
    requires forall k :: 0 <= k < |ps| && IsChild(ps[k], i + 1) ==> IsChild(qs[k], i + 1)
    ensures OtherChild(qs, i)
  {
    var k :| 0 <= k < |ps| && k != i && IsChild(ps[k], i + 1);
    assert IsChild(qs[k], i + 1);
  }

  /** The same parents, zombies and waiters. */
  lemma FamilyAlike(w: World, w': World)
    requires Inv(w) && Family(w) && Shape(w') && AlikeAll(w.sys.procs, w'.sys.procs)
    requires w'.birth == w.birth && |w.log| <= |w'.log|
    requires forall j :: 0 <= j < NPROC ==>
               (Waiting(w', j) ==> Waiting(w, j)) && (w.at[j] == InExit <==> w'.at[j] == InExit)
    ensures Family(w')
  {
    var ps, qs := w.sys.procs, w'.sys.procs;
    assert Alike(ps[0], qs[0]);
    forall j | 0 <= j < NPROC
      ensures MemberAt(w', j)
    {
      assert MemberAt(w, j) && Alike(ps[j], qs[j]);
      if qs[j].Some? {
        var p := qs[j].value.ppid - 1;
        assert Alike(ps[p], qs[p]);
        if Waiting(w', j) {
          assert forall k :: 0 <= k < NPROC ==> Alike(ps[k], qs[k]);
          OtherChildKept(ps, qs, j);
        }
      }
    }
  }

  lemma SwitchAlike(s: Sys)
    requires Wf(s)
    ensures AlikeAll(s.procs, Switch(s).procs)
  {
    SwitchKeeps(s);
    forall i | 0 <= i < NPROC
      ensures Alike(s.procs[i], Switch(s).procs[i])
    {
      assert Kept(s.procs[i], Switch(s).procs[i]);
    }
  }

  lemma TickFamily(w: World)
    requires Inv(w) && Family(w)
    ensures Family(Next(w, Tick))
  {
    var s := Charge(w.sys);
    SwitchAlike(s);
    forall i | 0 <= i < NPROC
      ensures Alike(w.sys.procs[i], Switch(s).procs[i])
    {
      assert Alike(w.sys.procs[i], s.procs[i]) && Alike(s.procs[i], Switch(s).procs[i]);
    }
    FamilyAlike(w, Next(w, Tick));
  }

  lemma NewMember(w: World, w': World, f: nat, child: Proc)
    requires Inv(w) && Family(w) && Shape(w') && f < NPROC && w.sys.procs[f].None?
    requires Current(w.sys).status != Zombie && child.ppid == Current(w.sys).pid && child.status == Ready
    requires w'.sys.procs == w.sys.procs[f := Some(child)] && w'.at == w.at[f := User]
    requires w'.birth == w.birth[f := |w.log|] && |w'.log| == |w.log| + 1
    ensures forall j :: 0 <= j < NPROC ==> MemberAt(w', j)
  {
    forall j | 0 <= j < NPROC
      ensures MemberAt(w', j)
    {
      assert MemberAt(w, j) && MemberAt(w, w.sys.cur);
      if j != f && w.sys.procs[j].Some? && Waiting(w, j) {
        OtherChildKept(w.sys.procs, w'.sys.procs, j);
      }
    }
  }

  lemma ForkFamily(w: World)
    requires Inv(w) && Family(w) && Enabled(w, Fork)
    ensures Family(Next(w, Fork))
  {
    var pid := NextPid(w.sys.procs);
    if pid != -1 {
      NewMember(w, Next(w, Fork), pid - 1, Child(w.sys, pid));
    }
  }

  /** An exit changes no parent, and makes no zombie but the caller. */
  lemma ExitEntry(w: World, code: int, j: nat)
    requires Inv(w) && Enabled(w, Exit(code)) && j < NPROC
    ensures var e, e' := w.sys.procs[j], Next(w, Exit(code)).sys.procs[j];
            && (e.Some? <==> e'.Some?)
            && (e.Some? ==> e'.value.ppid == e.value.ppid)
            && (Is(e', Zombie) <==> j == w.sys.cur || Is(e, Zombie))
  {
  }

  /** A task without children can become a zombie. */
  lemma ChildlessDies(w: World, w': World, c: nat)
    requires Inv(w) && Family(w) && Shape(w')
    requires 0 < c < NPROC && w.at[c] == User && !HasChild(w.sys.procs, c + 1)
    requires forall j :: 0 <= j < NPROC ==> (w.sys.procs[j].Some? <==> w'.sys.procs[j].Some?)
    requires forall j :: 0 <= j < NPROC && w.sys.procs[j].Some? ==>
               w'.sys.procs[j].value.ppid == w.sys.procs[j].value.ppid
    requires forall j :: 0 <= j < NPROC ==>
               (Is(w'.sys.procs[j], Zombie) <==> (j == c && w.sys.procs[c].Some?) || Is(w.sys.procs[j], Zombie))
    requires w'.at == w.at[c := InExit] && w'.birth == w.birth && |w'.log| >= |w.log|
    ensures Family(w')
  {
    var ps, qs := w.sys.procs, w'.sys.procs;
    forall j | 0 <= j < NPROC
      ensures MemberAt(w', j)
    {
      assert MemberAt(w, j);
      if ps[j].Some? {
        assert !IsChild(ps[j], c + 1);
        if Waiting(w, j) && j != c {
          OtherChildKept(ps, qs, j);
        }
      }
    }
  }

  lemma ExitFamily(w: World, code: int)
    requires Inv(w) && Family(w) && Enabled(w, Exit(code)) && Orderly(w, Exit(code))
    ensures Family(Next(w, Exit(code)))
  {
    forall j | 0 <= j < NPROC
      ensures var e, e' := w.sys.procs[j], Next(w, Exit(code)).sys.procs[j];
              && (e.Some? <==> e'.Some?)
              && (e.Some? ==> e'.value.ppid == e.value.ppid)
              && (Is(e', Zombie) <==> j == w.sys.cur || Is(e, Zombie))
    {
      ExitEntry(w, code, j);
    }
    ChildlessDies(w, Next(w, Exit(code)), w.sys.cur);
  }

  lemma SleepFamily(w: World)
    requires Inv(w) && Family(w) && Current(w.sys).status != Zombie
    requires ZombieChild(w.sys.procs, Current(w.sys).pid) == -1
    requires OtherChild(w.sys.procs, w.sys.cur)
    ensures Family(Pass(w))
  {
    var w' := Pass(w);
    var ps, qs := w.sys.procs, w'.sys.procs;
    forall j | 0 <= j < NPROC
      ensures MemberAt(w', j)
    {
      assert MemberAt(w, j);
      if ps[j].Some? && Waiting(w', j) {
        OtherChildKept(ps, qs, j);
      }
    }
  }

  lemma ReapFamily(w: World)
    requires Inv(w) && Family(w) && Current(w.sys).status != Zombie
    requires ZombieChild(w.sys.procs, Current(w.sys).pid) != -1
    ensures Family(Pass(w))
  {
    var z := ZombieChild(w.sys.procs, Current(w.sys).pid);
    var w' := Pass(w);
    var ps, qs := w.sys.procs, w'.sys.procs;
    forall j | 0 <= j < NPROC
      ensures MemberAt(w', j)
    {
      assert MemberAt(w, j);
      if qs[j].Some? && Waiting(w', j) {
        OtherChildKept(ps, qs, j);
      }
    }
  }

  /** A caller that has any child has one other than itself. */
  lemma ChildIsOther(w: World)
    requires Inv(w) && Family(w) && w.sys.cur != 0 && HasChild(w.sys.procs, Current(w.sys).pid)
    ensures OtherChild(w.sys.procs, w.sys.cur)
  {
    var j :| 0 <= j < NPROC && IsChild(w.sys.procs[j], Current(w.sys).pid);
    assert MemberAt(w, j);
  }

  lemma PassFamily(w: World)
    requires Inv(w) && Family(w) && Current(w.sys).status != Zombie
    requires OtherChild(w.sys.procs, w.sys.cur)
    ensures Family(Pass(w))
  {
    if ZombieChild(w.sys.procs, Current(w.sys).pid) == -1 {
      SleepFamily(w);
    } else {
      ReapFamily(w);
    }
  }

  lemma ResumeFamily(w: World)
    requires Inv(w) && Family(w) && Enabled(w, Resume)
    ensures Family(Next(w, Resume))
  {
    var c := w.sys.cur;
    assert MemberAt(w, c) && HandshakeAt(w, c);
    if w.at[c] == InLoop {
      PassFamily(w);
    } else {
      SwitchAlike(w.sys);
      if Is(w.sys.procs[c], Zombie) {
        SwitchFinds(w);
      }
      FamilyAlike(w, Next(w, Resume));
    }
  }

  lemma NextFamily(w: World, a: Action)
    requires Inv(w) && Family(w) && Enabled(w, a) && Orderly(w, a)
    ensures Family(Next(w, a))
  {
    match a
    case Tick => TickFamily(w);
    case Fork => ForkFamily(w);
    case Exit(code) => ExitFamily(w, code);
    case Nice(n) =>
      assert forall j :: 0 <= j < NPROC ==> Alike(w.sys.procs[j], Next(w, a).sys.procs[j]);
      FamilyAlike(w, Next(w, a));
    case Wait =>
      if HasChild(w.sys.procs, Current(w.sys).pid) {
        if w.sys.cur != 0 {
          ChildIsOther(w);
        }
        PassFamily(w);
      }
    case Resume => ResumeFamily(w);
  }

  lemma StartFamily()
    ensures Inv(Start()) && Family(Start())
  {
    StartInv();
  }

  lemma {:induction false} RunFamily(ws: seq<World>, acts: seq<Action>, n: nat)
    requires OrderlyRun(ws, acts) && n <= |acts|
    ensures forall m :: 0 <= m <= n ==> Settled(ws[m])
  {
    if n == 0 {
      StartFamily();
    } else {
      RunFamily(ws, acts, n - 1);
      assert OrderlyAt(ws, acts, n - 1);
      NextInv(ws[n - 1], acts[n - 1]);
      NextFamily(ws[n - 1], acts[n - 1]);
    }
  }

  // ---- What this says of orderly runs ----

  /** Reachable by actions that keep the discipline, in any interleaving with ticks. */
  ghost predicate OrderlyReachable(w: World) {
    exists ws, acts :: OrderlyRun(ws, acts) && ws[|acts|] == w
  }

  lemma OrderlyFamily()
    ensures forall w :: OrderlyReachable(w) ==> Settled(w)
  {
    forall w | OrderlyReachable(w)
      ensures Settled(w)
    {
      var ws, acts :| OrderlyRun(ws, acts) && ws[|acts|] == w;
      RunFamily(ws, acts, |acts|);
    }
  }

  /** Some task is READY or RUNNING. */
  lemma NeverStalls(w: World)
    requires OrderlyReachable(w)
    ensures exists i :: 0 <= i < |w.sys.procs| && w.sys.procs[i].Some?
                        && w.sys.procs[i].value.status in {Ready, Running}
  {
    OrderlyFamily();
    SomeoneRuns(w);
    var ps := w.sys.procs;
    var i :| 0 <= i < NPROC && (Is(ps[i], Ready) || Is(ps[i], Running));
    assert ps[i].Some?;
  }

  /** A sched_switch called by a sleeper or a zombie always leaves it, and so
      sched_exit never returns: every zombie stays inside it. */
  lemma ExitNeverReturns(w: World)
    requires OrderlyReachable(w)
    ensures Shape(w)
    ensures Current(w.sys).status == Sleeping || Current(w.sys).status == Zombie ==> Switch(w.sys).cur != w.sys.cur
    ensures forall i :: 0 <= i < NPROC && w.sys.procs[i].Some? && w.sys.procs[i].value.status == Zombie ==>
              w.at[i] == InExit
  {
    OrderlyFamily();
    if Current(w.sys).status == Sleeping || Current(w.sys).status == Zombie {
      SwitchFinds(w);
    }
    forall i | 0 <= i < NPROC && w.sys.procs[i].Some? && w.sys.procs[i].value.status == Zombie
      ensures w.at[i] == InExit
    {
      assert MemberAt(w, i);
    }
  }
}
