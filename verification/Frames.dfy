/** Stack relocation for fork: ps9/adjstack.c, and the copy and register fix-up
    around its call in sched_fork. Memory is an array of 64-bit words, and a stack
    a part of it; the word at index i of a stack based at address base has address
    base + 8 * i. */
module Frames {
  import opened Util

  const SPACE: int := 0x1_0000_0000_0000_0000
  type Word = x: int | 0 <= x < SPACE

  const STACK_SIZE: int := 65536
  const WORDS: nat := 8192

  /** unsigned long addition. */
  function Add(a: Word, b: Word): Word {
    (a + b) % SPACE
  }

  /** unsigned long subtraction. */
  function Sub(a: Word, b: Word): Word {
    (a - b) % SPACE
  }

  /** A stack of this base, and one word beyond it, fit into the address space. */
  predicate Base(base: Word) {
    base + STACK_SIZE + 8 <= SPACE
  }

  /** The limit test of adjstack; both limits are inclusive. */
  predicate Within(base: Word, a: Word) {
    base <= a <= base + STACK_SIZE
  }

  predicate Aligned(base: Word, a: Word) {
    (a - base) % 8 == 0
  }

  function Index(base: Word, a: Word): (i: nat)
    requires Within(base, a)
    ensures i <= WORDS
    ensures Aligned(base, a) ==> a == base + 8 * i
  {
    (a - base) / 8
  }

  /** A distance by which two stacks that do not overlap can differ. */
  predicate Far(adj: Word) {
    STACK_SIZE <= adj <= SPACE - STACK_SIZE
  }

  // ---- The walk of adjstack ----

  /** How often a word of this value can pass the limit test, once shifted, and
      shifted again if it is met again. */
  function Passes(base: Word, adj: Word, v: Word): nat {
    if !Within(base, Add(v, adj)) then 0
    else if !Within(base, Add(Add(v, adj), adj)) then 1
    else 2
  }

  /** Two shifts in a row stay inside a stack only from its one end to the other. */
  lemma TwoShifts(base: Word, adj: Word, v: Word)
    requires Base(base) && Far(adj) && Within(base, v) && Within(base, Add(v, adj))
    ensures (adj == STACK_SIZE && v == base) || (adj == SPACE - STACK_SIZE && v == base + STACK_SIZE)
    ensures !Within(base, Add(Add(v, adj), adj))
  {
    if v + adj < SPACE {
      assert Add(v, adj) == v + adj;
    } else {
      assert Add(v, adj) == v + adj - SPACE;
    }
  }

  lemma PassesDrop(base: Word, adj: Word, v: Word)
    requires Base(base) && Far(adj) && Within(base, Add(v, adj))
    ensures Passes(base, adj, Add(v, adj)) == Passes(base, adj, v) - 1
  {
    if Within(base, Add(Add(v, adj), adj)) {
      TwoShifts(base, adj, Add(v, adj));
    }
  }

  ghost function PassesSeq(s: seq<Word>, base: Word, adj: Word): (xs: seq<int>)
    ensures |xs| == |s|
    ensures forall k :: 0 <= k < |s| ==> xs[k] == Passes(base, adj, s[k])
  {
    seq(|s|, k requires 0 <= k < |s| => Passes(base, adj, s[k]))
  }

  /** A bound on the length of the walk, whatever the stack contains. */
  ghost function Fuel(s: seq<Word>, base: Word, adj: Word): nat {
    SumConstant(seq(|s|, _ => 0), 0);
    SumMonotone(seq(|s|, _ => 0), PassesSeq(s, base, adj));
    Sum(PassesSeq(s, base, adj))
  }

  lemma FuelDrops(s: seq<Word>, base: Word, adj: Word, i: nat)
    requires Base(base) && Far(adj) && i < |s| && Within(base, Add(s[i], adj))
    ensures Fuel(s[i := Add(s[i], adj)], base, adj) == Fuel(s, base, adj) - 1
  {
    var next := Add(s[i], adj);
    PassesDrop(base, adj, s[i]);
    assert PassesSeq(s[i := next], base, adj) == PassesSeq(s, base, adj)[i := Passes(base, adj, next)];
    SumUpdate(PassesSeq(s, base, adj), i, Passes(base, adj, next));
  }

  /** The walk goes from word to word to its end and never meets an address inside
      a word. The array has one word beyond the stack, at the inclusive upper limit. */
  ghost predicate Tame(s: seq<Word>, base: Word, adj: Word, i: nat)
    requires |s| == WORDS + 1 && i <= WORDS && Base(base) && Far(adj)
    decreases Fuel(s, base, adj)
  {
    var next := Add(s[i], adj);
    Within(base, next) ==>
      && Aligned(base, next)
      && (FuelDrops(s, base, adj, i); Tame(s[i := next], base, adj, Index(base, next)))
  }

  /** Memory after the walk from word i: at its end, or at the first address it
      meets that is inside a word. */
  ghost function Walk(s: seq<Word>, base: Word, adj: Word, i: nat): (t: seq<Word>)
    requires |s| == WORDS + 1 && i <= WORDS && Base(base) && Far(adj)
    ensures |t| == |s|
    decreases Fuel(s, base, adj)
  {
    var next := Add(s[i], adj);
    if !Within(base, next) then s
    else if !Aligned(base, next) then s[i := next]
    else FuelDrops(s, base, adj, i); Walk(s[i := next], base, adj, Index(base, next))
  }

  /** The walk from word i makes a store to word k, before it meets an address
      inside a word if it does. */
  ghost predicate Writes(s: seq<Word>, base: Word, adj: Word, i: nat, k: nat)
    requires |s| == WORDS + 1 && i <= WORDS && Base(base) && Far(adj)
    decreases Fuel(s, base, adj)
  {
    var next := Add(s[i], adj);
    && Within(base, next)
    && (i == k
        || (Aligned(base, next)
            && (FuelDrops(s, base, adj, i); Writes(s[i := next], base, adj, Index(base, next), k))))
  }

  /** The words adjstack can reach in a stack that begins at word at: the stack,
      and the one word beyond it. */
  function Window(s: seq<Word>, at: nat): (w: seq<Word>)
    requires at + WORDS + 1 <= |s|
    ensures |w| == WORDS + 1
  {
    s[at..at + WORDS + 1]
  }

  function Patch(s: seq<Word>, at: nat, w: seq<Word>): (t: seq<Word>)
    requires at + |w| <= |s|
    ensures |t| == |s|
    ensures forall k :: 0 <= k < |s| ==> t[k] == if at <= k < at + |w| then w[k - at] else s[k]
  {
    s[..at] + w + s[at + |w|..]
  }

  /** The same walk in the whole of memory, the stack beginning at word at: what
      it leaves, and whether it comes to its end. */
  ghost function Trace(m: seq<Word>, at: nat, base: Word, adj: Word, i: nat): (r: (seq<Word>, bool))
    requires at + WORDS + 1 <= |m| && i <= WORDS && Base(base) && Far(adj)
    decreases Fuel(m, base, adj)
  {
    var next := Add(m[at + i], adj);
    if !Within(base, next) then (m, true)
    else if !Aligned(base, next) then (m[at + i := next], false)
    else FuelDrops(m, base, adj, at + i); Trace(m[at + i := next], at, base, adj, Index(base, next))
  }

  lemma StoreInWindow(m: seq<Word>, at: nat, i: nat, v: Word, t: seq<Word>)
    requires at + WORDS + 1 <= |m| && i <= WORDS && |t| == WORDS + 1
    ensures Window(m[at + i := v], at) == Window(m, at)[i := v]
    ensures Patch(m[at + i := v], at, t) == Patch(m, at, t)
  {
  }

  lemma PatchWindow(m: seq<Word>, at: nat)
    requires at + WORDS + 1 <= |m|
    ensures Patch(m, at, Window(m, at)) == m
  {
  }

  lemma {:induction false} TraceInWindow(m: seq<Word>, at: nat, base: Word, adj: Word, i: nat)
    requires at + WORDS + 1 <= |m| && i <= WORDS && Base(base) && Far(adj)
    ensures Trace(m, at, base, adj, i)
         == (Patch(m, at, Walk(Window(m, at), base, adj, i)), Tame(Window(m, at), base, adj, i))
    decreases Fuel(m, base, adj)
  {
    var next := Add(m[at + i], adj);
    if Within(base, next) {
      var m' := m[at + i := next];
      StoreInWindow(m, at, i, next, Walk(Window(m, at), base, adj, i));
      FuelDrops(Window(m, at), base, adj, i);
      FuelDrops(m, base, adj, at + i);
      if Aligned(base, next) {
        TraceInWindow(m', at, base, adj, Index(base, next));
      } else {
        PatchWindow(m', at);
      }
    } else {
      PatchWindow(m, at);
    }
  }

  /** adjstack on a stack that begins at word at of memory, from the point where
      it has the caller's frame pointer. Nothing is asked of the contents. If the
      loop is about to follow an address inside a word, it is left there, and
      ended is false. */
  method AdjStack(mem: array<Word>, at: nat, base: Word, adj: Word, bp: Word) returns (ended: bool)
    requires at + WORDS + 1 <= mem.Length && Base(base) && Far(adj)
    requires Within(base, Add(bp, adj)) && Aligned(base, Add(bp, adj))
    modifies mem
    ensures (mem[..], ended) == Trace(old(mem[..]), at, base, adj, Index(base, Add(bp, adj)))
  {
    var p: Word := Add(bp, adj);
    ghost var r := Trace(mem[..], at, base, adj, Index(base, p));
    while true
      invariant Within(base, p) && Aligned(base, p)
      invariant Trace(mem[..], at, base, adj, Index(base, p)) == r
      decreases Fuel(mem[..], base, adj)
    {
      var k := at + Index(base, p);
      var prev := mem[k];
      var next := Add(prev, adj);
      if next < base || next > base + STACK_SIZE {
        return true;
      }
      FuelDrops(mem[..], base, adj, k);
      ghost var after := mem[..][k := next];
      mem[k] := next;
      assert mem[..] == after;
      if (next - base) % 8 != 0 {
        return false;
      }
      p := next;
    }
  }

  // ---- The loop in single turns ----

  /** One turn that goes on: in memory m at word k of the stack, to memory m' at
      word k'. */
  ghost predicate GoesOn(m: seq<Word>, k: nat, m': seq<Word>, k': nat, at: nat, base: Word, adj: Word) {
    && at + WORDS + 1 <= |m| && k <= WORDS
    && var next: Word := (m[at + k] + adj) % SPACE;
       && base <= next <= base + STACK_SIZE
       && next == base + 8 * k'
       && m' == m[at + k := next]
  }

  ghost predicate Turns(ms: seq<seq<Word>>, ks: seq<nat>, at: nat, base: Word, adj: Word) {
    && |ms| == |ks| >= 1
    && forall j :: 0 <= j < |ms| - 1 ==> GoesOn(ms[j], ks[j], ms[j + 1], ks[j + 1], at, base, adj)
  }

  /** At word k the loop breaks off, with ended, or stores an address inside a word. */
  ghost predicate Stops(m: seq<Word>, k: nat, m': seq<Word>, ended: bool, at: nat, base: Word, adj: Word) {
    && at + WORDS + 1 <= |m| && k <= WORDS
    && var next: Word := (m[at + k] + adj) % SPACE;
       if next < base || next > base + STACK_SIZE then m' == m && ended
       else (next - base) % 8 != 0 && m' == m[at + k := next] && !ended
  }

  lemma TraceTurn(m: seq<Word>, k: nat, m': seq<Word>, k': nat, at: nat, base: Word, adj: Word)
    requires Base(base) && Far(adj) && GoesOn(m, k, m', k', at, base, adj)
    ensures at + WORDS + 1 <= |m'| && k' <= WORDS
    ensures Trace(m, at, base, adj, k) == Trace(m', at, base, adj, k')
  {
    var next := Add(m[at + k], adj);
    assert Within(base, next) && Aligned(base, next) && Index(base, next) == k';
    FuelDrops(m, base, adj, at + k);
  }

  lemma TraceStop(m: seq<Word>, k: nat, m': seq<Word>, ended: bool, at: nat, base: Word, adj: Word)
    requires Base(base) && Far(adj) && Stops(m, k, m', ended, at, base, adj)
    ensures Trace(m, at, base, adj, k) == (m', ended)
  {
  }

  /** However often the loop turns, what it leaves is Trace. */
  lemma {:induction false} TraceExact(ms: seq<seq<Word>>, ks: seq<nat>, m': seq<Word>, ended: bool,
                                      at: nat, base: Word, adj: Word, j: nat)
    requires Base(base) && Far(adj) && Turns(ms, ks, at, base, adj) && j < |ms|
    requires Stops(ms[|ms| - 1], ks[|ms| - 1], m', ended, at, base, adj)
    ensures at + WORDS + 1 <= |ms[j]| && ks[j] <= WORDS
    ensures Trace(ms[j], at, base, adj, ks[j]) == (m', ended)
    decreases |ms| - j
  {
    if j == |ms| - 1 {
      TraceStop(ms[j], ks[j], m', ended, at, base, adj);
    } else {
      TraceExact(ms, ks, m', ended, at, base, adj, j + 1);
      TraceTurn(ms[j], ks[j], ms[j + 1], ks[j + 1], at, base, adj);
    }
  }

  /** And on any contents it stops. */
  lemma {:induction false} LoopStops(m: seq<Word>, k: nat, at: nat, base: Word, adj: Word)
      returns (ms: seq<seq<Word>>, ks: seq<nat>, m': seq<Word>, ended: bool)
    requires Base(base) && Far(adj) && at + WORDS + 1 <= |m| && k <= WORDS
    ensures Turns(ms, ks, at, base, adj) && ms[0] == m && ks[0] == k
    ensures Stops(ms[|ms| - 1], ks[|ms| - 1], m', ended, at, base, adj)
    decreases Fuel(m, base, adj)
  {
    var next := Add(m[at + k], adj);
    if Within(base, next) && Aligned(base, next) {
      FuelDrops(m, base, adj, at + k);
      ms, ks, m', ended := LoopStops(m[at + k := next], Index(base, next), at, base, adj);
      ms, ks := [m] + ms, [k] + ks;
    } else {
      ms, ks, ended := [m], [k], !Within(base, next);
      m' := if ended then m else m[at + k := next];
    }
  }

  // ---- The walk up a chain of frames ----

  /** A walk that only goes up: every shifted frame pointer that passes the
      limit test is a word address further up. */
  ghost predicate Rising(s: seq<Word>, base: Word, adj: Word, i: nat)
    requires |s| == WORDS + 1 && i <= WORDS
    decreases WORDS - i
  {
    var next := Add(s[i], adj);
    Within(base, next) ==>
      && Aligned(base, next)
      && i < Index(base, next)
      && Rising(s, base, adj, Index(base, next))
  }

  /** The words that adjstack rewrites, in the order of its walk. */
  ghost function Rewritten(s: seq<Word>, base: Word, adj: Word, i: nat): (ks: seq<nat>)
    requires |s| == WORDS + 1 && i <= WORDS && Rising(s, base, adj, i)
    ensures forall k :: k in ks ==> i <= k < WORDS
    decreases WORDS - i
  {
    var next := Add(s[i], adj);
    if Within(base, next) then [i] + Rewritten(s, base, adj, Index(base, next)) else []
  }

  /** t is s with exactly the saved frame pointers on the chain shifted. */
  ghost predicate ChainShifted(s: seq<Word>, t: seq<Word>, base: Word, adj: Word, i: nat)
    requires |s| == WORDS + 1 && i <= WORDS && Rising(s, base, adj, i)
  {
    && |t| == |s|
    && forall k :: 0 <= k < |s| ==> t[k] == if k in Rewritten(s, base, adj, i) then Add(s[k], adj) else s[k]
  }

  lemma {:induction false} RisingFrame(s: seq<Word>, t: seq<Word>, base: Word, adj: Word, i: nat)
    requires |s| == |t| == WORDS + 1 && i <= WORDS && s[i..] == t[i..]
    requires Rising(s, base, adj, i)
    ensures Rising(t, base, adj, i)
    ensures Rewritten(t, base, adj, i) == Rewritten(s, base, adj, i)
    decreases WORDS - i
  {
    assert s[i] == s[i..][0] == t[i..][0] == t[i];
    var next := Add(s[i], adj);
    if Within(base, next) {
      var j := Index(base, next);
      assert s[j..] == s[i..][j - i..] && t[j..] == t[i..][j - i..];
      RisingFrame(s, t, base, adj, j);
    }
  }

  /** A walk that only goes up shifts exactly the frame pointers on its way. */
  lemma {:induction false} RisingWalk(s: seq<Word>, base: Word, adj: Word, i: nat)
    requires |s| == WORDS + 1 && i <= WORDS && Base(base) && Far(adj) && Rising(s, base, adj, i)
    ensures Tame(s, base, adj, i)
    ensures ChainShifted(s, Walk(s, base, adj, i), base, adj, i)
    decreases WORDS - i
  {
    var next := Add(s[i], adj);
    if Within(base, next) {
      var j := Index(base, next);
      var t := s[i := next];
      FuelDrops(s, base, adj, i);
      RisingFrame(s, t, base, adj, j);
      RisingWalk(t, base, adj, j);
      assert Walk(s, base, adj, i) == Walk(t, base, adj, j);
      assert Rewritten(s, base, adj, i) == [i] + Rewritten(t, base, adj, j);
    }
  }

  // ---- The frame chain as an unwinder follows it ----

  /** Where the frame at word i says its caller's frame is; -1 at the end. */
  function Caller(s: seq<Word>, base: Word, i: nat): (j: int)
    requires i < WORDS <= |s|
    ensures j == -1 || i < j < WORDS
  {
    var v := s[i];
    if base <= v < base + STACK_SIZE && Aligned(base, v) && Index(base, v) > i then Index(base, v) else -1
  }

  ghost function Chain(s: seq<Word>, base: Word, i: nat): (ks: seq<nat>)
    requires i < WORDS <= |s|
    ensures ks != [] && ks[0] == i
    ensures forall k :: k in ks ==> i <= k < WORDS
    decreases WORDS - i
  {
    var j := Caller(s, base, i);
    if j == -1 then [i] else [i] + Chain(s, base, j)
  }

  function Last(ks: seq<nat>): (k: nat)
    requires ks != []
    ensures k in ks
  {
    ks[|ks| - 1]
  }

  /** The stacks do not overlap. */
  predicate Apart(p: Word, c: Word) {
    p + STACK_SIZE <= c || c + STACK_SIZE <= p
  }

  /** What sched_fork passes to adjstack: the wrapped distance of the stacks. */
  function Distance(p: Word, c: Word): (adj: Word)
    requires Base(p) && Base(c) && Apart(p, c)
    ensures Far(adj)
  {
    assert p <= c ==> (c - p) % SPACE == c - p;
    assert c < p ==> (c - p) % SPACE == c - p + SPACE;
    Sub(c, p)
  }

  /** Shifting by the distance between the stacks moves addresses inside one to
      the same place inside the other, and no others. */
  lemma Shift(p: Word, c: Word, v: Word)
    requires Base(p) && Base(c)
    ensures Within(c, Add(v, Sub(c, p))) <==> Within(p, v)
    ensures Within(p, v) ==> Add(v, Sub(c, p)) == v - p + c
  {
    var d := v - p;
    assert Add(v, Sub(c, p)) == (c + d) % SPACE;
    if c + d < 0 {
      assert (c + d) % SPACE == c + d + SPACE;
    } else if c + d < SPACE {
      assert (c + d) % SPACE == c + d;
    } else {
      assert (c + d) % SPACE == c + d - SPACE;
    }
  }

  /** A saved frame pointer inside the parent's stack leads the child to the
      same frame as the parent. */
  lemma CallerMoved(par: seq<Word>, p: Word, t: seq<Word>, c: Word, i: nat)
    requires |par| == |t| == WORDS && i < WORDS && Base(p) && Base(c)
    requires Within(p, par[i]) && Aligned(p, par[i]) && t[i] == par[i] - p + c
    ensures Caller(t, c, i) == Caller(par, p, i)
  {
  }

  lemma RewrittenAbove(s: seq<Word>, base: Word, adj: Word, i: nat)
    requires |s| == WORDS + 1 && i <= WORDS && Rising(s, base, adj, i) && Within(base, Add(s[i], adj))
    ensures i in Rewritten(s, base, adj, i)
    ensures var j := Index(base, Add(s[i], adj));
            forall k :: j <= k <= WORDS ==> (k in Rewritten(s, base, adj, i) <==> k in Rewritten(s, base, adj, j))
  {
    var j := Index(base, Add(s[i], adj));
    assert Rewritten(s, base, adj, i) == [i] + Rewritten(s, base, adj, j);
  }

  /** The chain followed in the child is the parent's, frame by frame, if and
      only if the word that ends the parent's chain does not happen to be the
      address of a later word of the child's stack. */
  lemma {:induction false} ChainMoved(par: seq<Word>, p: Word, t: seq<Word>, c: Word, top: Word, i: nat)
    requires |par| == WORDS && i < WORDS && Base(p) && Base(c) && Apart(p, c)
    requires Rising(par + [top], c, Sub(c, p), i)
    requires |t| == WORDS
    requires forall k :: i <= k < WORDS ==>
               t[k] == if k in Rewritten(par + [top], c, Sub(c, p), i) then Add(par[k], Sub(c, p)) else par[k]
    ensures Chain(t, c, i) == Chain(par, p, i) <==> Caller(par, c, Last(Chain(par, p, i))) == -1
    decreases WORDS - i
  {
    var adj := Sub(c, p);
    var s := par + [top];
    assert s[i] == par[i];
    Shift(p, c, par[i]);
    var next := Add(par[i], adj);
    if Within(c, next) {
      var j := Index(c, next);
      RewrittenAbove(s, c, adj, i);
      assert t[i] == par[i] - p + c;
      CallerMoved(par, p, t, c, i);
      if j < WORDS {
        assert Caller(par, p, i) == j;
        ChainMoved(par, p, t, c, top, j);
        assert Last(Chain(par, p, i)) == Last(Chain(par, p, j));
        ConsEqual(i, Chain(t, c, j), Chain(par, p, j));
      } else {
        assert Chain(par, p, i) == [i] && Chain(t, c, i) == [i];
        assert par[i] == p + STACK_SIZE;
      }
    } else {
      assert t[i] == par[i];
      assert Caller(par, p, i) == -1 && Chain(par, p, i) == [i];
      assert Caller(t, c, i) == Caller(par, c, i);
    }
  }

  lemma ConsEqual(i: nat, xs: seq<nat>, ys: seq<nat>)
    ensures [i] + xs == [i] + ys <==> xs == ys
  {
    assert ([i] + xs)[1..] == xs && ([i] + ys)[1..] == ys;
  }

  /** A chain of frame records as a compiler lays it out: a saved frame pointer
      into the stack, or to its very top, is a word address further up. */
  ghost predicate WellLinked(par: seq<Word>, p: Word, i: nat)
    requires |par| == WORDS && i < WORDS
    decreases WORDS - i
  {
    Within(p, par[i]) ==>
      && Aligned(p, par[i])
      && i < Index(p, par[i])
      && (Index(p, par[i]) < WORDS ==> WellLinked(par, p, Index(p, par[i])))
  }

  /** The chain ends in a frame that saved the stack top, as sched_init sets up. */
  ghost predicate Rooted(par: seq<Word>, p: Word, i: nat)
    requires |par| == WORDS && i < WORDS
  {
    par[Last(Chain(par, p, i))] == p + STACK_SIZE
  }

  /** Because the upper limit test is inclusive, under a rooted chain adjstack
      also reads the word at the limit; the walk only goes up exactly when that
      word, once shifted, fails the limit test. */
  lemma {:induction false} RisingIff(par: seq<Word>, p: Word, c: Word, top: Word, i: nat)
    requires |par| == WORDS && i < WORDS && Base(p) && Base(c)
    requires WellLinked(par, p, i)
    ensures Rising(par + [top], c, Sub(c, p), i) <==> (Rooted(par, p, i) ==> !Within(c, Add(top, Sub(c, p))))
    decreases WORDS - i
  {
    var s := par + [top];
    Shift(p, c, par[i]);
    if Within(p, par[i]) {
      var j := Index(p, par[i]);
      if j < WORDS {
        assert Caller(par, p, i) == j;
        assert Last(Chain(par, p, i)) == Last(Chain(par, p, j));
        RisingIff(par, p, c, top, j);
      } else {
        assert Chain(par, p, i) == [i];
        assert s[WORDS] == top;
      }
    } else {
      assert Chain(par, p, i) == [i];
    }
  }

  /** adjstack rewrites exactly the frame-chain words that point into the stack
      or to its top, each by the distance of the stacks. */
  lemma {:induction false} RewrittenInside(par: seq<Word>, p: Word, c: Word, top: Word, i: nat)
    requires |par| == WORDS && i < WORDS && Base(p) && Base(c)
    requires WellLinked(par, p, i) && Rising(par + [top], c, Sub(c, p), i)
    ensures forall k :: k in Rewritten(par + [top], c, Sub(c, p), i) ==> Add(par[k], Sub(c, p)) == par[k] - p + c
    ensures forall k :: k in Rewritten(par + [top], c, Sub(c, p), i) <==> k in Chain(par, p, i) && Within(p, par[k])
    decreases WORDS - i
  {
    var s, adj := par + [top], Sub(c, p);
    Shift(p, c, par[i]);
    if Within(p, par[i]) {
      var j := Index(p, par[i]);
      assert Rewritten(s, c, adj, i) == [i] + Rewritten(s, c, adj, j);
      if j < WORDS {
        assert Caller(par, p, i) == j;
        RewrittenInside(par, p, c, top, j);
      } else {
        assert !Within(c, Add(s[WORDS], adj));
      }
    }
  }

  /** A root frame that saved the stack top, as sched_init sets it up, ends the
      chain in a word that is never a later word of another stack; so a fork
      under it gives the child exactly the parent's chain. */
  lemma RootedChain(par: seq<Word>, p: Word, c: Word, i: nat)
    requires |par| == WORDS && i < WORDS && Base(p) && Base(c) && Apart(p, c)
    requires Rooted(par, p, i)
    ensures Caller(par, c, Last(Chain(par, p, i))) == -1
  {
  }

  // ---- Writing beyond the stack ----

  /** A word is left alone, or shifted once, or shifted twice. */
  ghost predicate Shifted(base: Word, adj: Word, v: Word, v': Word) {
    || v' == v
    || (Within(base, Add(v, adj)) && v' == Add(v, adj))
    || (Within(base, Add(v, adj)) && Within(base, Add(Add(v, adj), adj)) && v' == Add(Add(v, adj), adj))
  }

  lemma {:induction false} WalkWord(s: seq<Word>, base: Word, adj: Word, i: nat, k: nat)
    requires |s| == WORDS + 1 && i <= WORDS && k <= WORDS && Base(base) && Far(adj)
    ensures Shifted(base, adj, s[k], Walk(s, base, adj, i)[k])
    decreases Fuel(s, base, adj)
  {
    var next := Add(s[i], adj);
    if Within(base, next) && Aligned(base, next) {
      FuelDrops(s, base, adj, i);
      WalkWord(s[i := next], base, adj, Index(base, next), k);
      if k == i && Within(base, Add(next, adj)) {
        TwoShifts(base, adj, next);
      }
    }
  }

  /** A word that has been shifted never gets its old value back. */
  lemma ShiftedDiffers(base: Word, adj: Word, v: Word, v': Word)
    requires Base(base) && Far(adj) && Within(base, Add(v, adj))
    requires Shifted(base, adj, Add(v, adj), v')
    ensures v' != v
  {
    var v1 := Add(v, adj);
    assert v1 != v;
    if Within(base, Add(v1, adj)) {
      TwoShifts(base, adj, v1);
    }
  }

  /** A store to a word can be told from its contents. */
  lemma {:induction false} WritesIffChanged(s: seq<Word>, base: Word, adj: Word, i: nat, k: nat)
    requires |s| == WORDS + 1 && i <= WORDS && k <= WORDS && Base(base) && Far(adj)
    ensures Writes(s, base, adj, i, k) <==> Walk(s, base, adj, i)[k] != s[k]
    decreases Fuel(s, base, adj)
  {
    var next := Add(s[i], adj);
    if Within(base, next) {
      if Aligned(base, next) {
        FuelDrops(s, base, adj, i);
        var t, j := s[i := next], Index(base, next);
        if i == k {
          WalkWord(t, base, adj, j, k);
          ShiftedDiffers(base, adj, s[k], Walk(t, base, adj, j)[k]);
        } else {
          WritesIffChanged(t, base, adj, j, k);
        }
      } else {
        assert next != s[i];
      }
    }
  }

  lemma {:induction false} OverrunWalk(s: seq<Word>, par: seq<Word>, p: Word, c: Word, i: nat)
    requires |s| == WORDS + 1 && |par| == WORDS && i < WORDS && Base(p) && Base(c) && Apart(p, c)
    requires s[i..WORDS] == par[i..]
    requires WellLinked(par, p, i) && Rooted(par, p, i)
    ensures Writes(s, c, Distance(p, c), i, WORDS) <==> Within(c, Add(s[WORDS], Distance(p, c)))
    decreases WORDS - i
  {
    var adj := Distance(p, c);
    assert s[i] == s[i..WORDS][0] == par[i];
    Shift(p, c, par[i]);
    var next := Add(par[i], adj);
    assert Caller(par, p, i) == -1 ==> Last(Chain(par, p, i)) == i;
    var j := Index(p, par[i]);
    var t := s[i := next];
    FuelDrops(s, c, adj, i);
    assert Writes(s, c, adj, i, WORDS) <==> Writes(t, c, adj, j, WORDS);
    if j < WORDS {
      assert Caller(par, p, i) == j;
      assert Last(Chain(par, p, i)) == Last(Chain(par, p, j));
      assert t[j..WORDS] == s[i..WORDS][j - i..] && par[j..] == par[i..][j - i..];
      OverrunWalk(t, par, p, c, j);
    }
  }

  /** Under a rooted chain adjstack makes a store to the word beyond the child's
      stack, and so changes it, if and only if that word, once shifted, passes the
      limit test, whether as the address of a word or not. */
  lemma OverrunIff(par: seq<Word>, p: Word, c: Word, top: Word, i: nat)
    requires |par| == WORDS && i < WORDS && Base(p) && Base(c) && Apart(p, c)
    requires WellLinked(par, p, i) && Rooted(par, p, i)
    ensures Writes(par + [top], c, Distance(p, c), i, WORDS) <==> Within(c, Add(top, Distance(p, c)))
    ensures Walk(par + [top], c, Distance(p, c), i)[WORDS] != top <==> Within(c, Add(top, Distance(p, c)))
  {
    OverrunWalk(par + [top], par, p, c, i);
    WritesIffChanged(par + [top], c, Distance(p, c), i, WORDS);
  }

  /** A parent whose frame saved its stack top, and beyond the child's stack a
      word that holds an address of the parent's. */
  ghost predicate Overrunning(p: Word, c: Word, par: seq<Word>, top: Word) {
    && p == 0x1_0000 && c == 0x5_0000 && par == seq(WORDS, _ => p + STACK_SIZE)
    && p <= top <= p + STACK_SIZE
  }

  /** It happens, at whichever address of the parent's stack; and where that is
      inside a word, the walk follows it. */
  lemma OverrunHappens(p: Word, c: Word, par: seq<Word>, top: Word)
    requires Overrunning(p, c, par, top)
    ensures WellLinked(par, p, 0)
    ensures Rooted(par, p, 0)
    ensures Base(p)
    ensures Base(c)
    ensures Apart(p, c)
    ensures Writes(par + [top], c, Distance(p, c), 0, WORDS)
    ensures (top - p) % 8 != 0 ==> !Tame(par + [top], c, Distance(p, c), 0)
  {
    var adj := Distance(p, c);
    assert adj == 0x4_0000;
    assert Caller(par, p, 0) == -1 && Chain(par, p, 0) == [0];
    OverrunIff(par, p, c, top, 0);
    var s0 := par + [top];
    assert Add(s0[0], adj) == c + STACK_SIZE && Index(c, c + STACK_SIZE) == WORDS;
    assert Add(top, adj) == c + (top - p);
  }

  // ---- sched_fork ----

  /** The parent's frames are linked upwards, and under a root frame the word
      beyond the child's stack does not shift into it. */
  ghost predicate Sound(par: seq<Word>, p: Word, c: Word, top: Word, i: nat)
    requires |par| == WORDS && i < WORDS
  {
    WellLinked(par, p, i) && (Rooted(par, p, i) ==> !Within(c, Add(top, Sub(c, p))))
  }

  /** Under a sound fork every address on the walk is that of a word. */
  lemma SoundIsTame(par: seq<Word>, p: Word, c: Word, top: Word, i: nat)
    requires |par| == WORDS && i < WORDS && Base(p) && Base(c) && Apart(p, c)
    requires Sound(par, p, c, top, i)
    ensures Tame(par + [top], c, Distance(p, c), i)
  {
    RisingIff(par, p, c, top, i);
    RisingWalk(par + [top], c, Distance(p, c), i);
  }

  /** t is the parent's stack with exactly the frame pointers shifted; the chain
      is the parent's unless the word that ends it leads on in the child, and
      under a root frame it is, and t can be the parent of a fork in its turn. */
  ghost predicate Relocated(par: seq<Word>, p: Word, t: seq<Word>, c: Word, i: nat)
    requires |par| == |t| == WORDS && i < WORDS
  {
    && (forall k :: 0 <= k < WORDS ==>
          t[k] == if k in Chain(par, p, i) && Within(p, par[k]) then par[k] - p + c else par[k])
    && (Chain(t, c, i) == Chain(par, p, i) <==> Caller(par, c, Last(Chain(par, p, i))) == -1)
    && (Rooted(par, p, i) ==> Chain(t, c, i) == Chain(par, p, i) && WellLinked(t, c, i) && Rooted(t, c, i))
  }

  /** Under a root frame the child's frames are linked upwards, and rooted, too. */
  lemma {:induction false} LinksMoved(par: seq<Word>, p: Word, t: seq<Word>, c: Word, i: nat)
    requires |par| == |t| == WORDS && i < WORDS && Base(p) && Base(c)
    requires WellLinked(par, p, i) && Rooted(par, p, i)
    requires forall k :: k in Chain(par, p, i) && Within(p, par[k]) ==> t[k] == par[k] - p + c
    ensures WellLinked(t, c, i) && Rooted(t, c, i)
    decreases WORDS - i
  {
    assert i in Chain(par, p, i);
    if Caller(par, p, i) == -1 {
      assert Chain(par, p, i) == [i];
      assert Chain(t, c, i) == [i];
    } else {
      var j := Caller(par, p, i);
      assert Chain(par, p, i) == [i] + Chain(par, p, j);
      CallerMoved(par, p, t, c, i);
      LinksMoved(par, p, t, c, j);
      assert Chain(t, c, i) == [i] + Chain(t, c, j);
    }
  }

  /** What a sound fork leaves in the child's stack. */
  lemma SoundFork(par: seq<Word>, p: Word, c: Word, top: Word, i: nat)
    requires |par| == WORDS && i < WORDS && Base(p) && Base(c) && Apart(p, c)
    requires Sound(par, p, c, top, i)
    ensures var t := Walk(par + [top], c, Distance(p, c), i);
            t[WORDS] == top && Relocated(par, p, t[..WORDS], c, i)
  {
    RisingIff(par, p, c, top, i);
    RisingWalk(par + [top], c, Distance(p, c), i);
    RewrittenInside(par, p, c, top, i);
    var t := Walk(par + [top], c, Distance(p, c), i)[..WORDS];
    ChainMoved(par, p, t, c, top, i);
    if Rooted(par, p, i) {
      RootedChain(par, p, c, i);
      LinksMoved(par, p, t, c, i);
    }
  }

  /** The address of word k of a memory that begins at address lo. */
  function Address(lo: Word, k: nat): Word
    requires lo + 8 * k < SPACE
  {
    lo + 8 * k
  }

  function Stack(s: seq<Word>, at: nat): (t: seq<Word>)
    requires at + WORDS <= |s|
    ensures |t| == WORDS
  {
    s[at..at + WORDS]
  }

  /** Two stacks that do not overlap, each with a word beyond it, in a memory of
      n words at address lo. */
  ghost predicate Layout(n: nat, lo: Word, pi: nat, ci: nat) {
    && lo + 8 * n <= SPACE
    && pi + WORDS + 1 <= n && ci + WORDS + 1 <= n
    && (pi + WORDS <= ci || ci + WORDS <= pi)
  }

  /** The child's stack, and the word beyond it, when the walk over the copy of
      the parent's stack is over. */
  ghost function ChildWindow(s: seq<Word>, lo: Word, pi: nat, ci: nat, f: nat): (w: seq<Word>)
    requires Layout(|s|, lo, pi, ci) && f < WORDS
    ensures |w| == WORDS + 1
  {
    var p, c := Address(lo, pi), Address(lo, ci);
    Walk(Stack(s, pi) + [s[ci + WORDS]], c, Distance(p, c), f)
  }

  /** A fork leaves the parent's stack as it was unless the child's stack lies
      right below it and adjstack writes beyond that. */
  lemma ParentKeptIff(s: seq<Word>, lo: Word, pi: nat, ci: nat, f: nat)
    requires Layout(|s|, lo, pi, ci) && f < WORDS
    ensures var p, c := Address(lo, pi), Address(lo, ci);
            Stack(Patch(s, ci, ChildWindow(s, lo, pi, ci, f)), pi) == Stack(s, pi) <==>
            !(c + STACK_SIZE == p && Writes(Stack(s, pi) + [s[ci + WORDS]], c, Distance(p, c), f, WORDS))
  {
    var p, c := Address(lo, pi), Address(lo, ci);
    var w := ChildWindow(s, lo, pi, ci, f);
    var t := Patch(s, ci, w);
    WritesIffChanged(Stack(s, pi) + [s[ci + WORDS]], c, Distance(p, c), f, WORDS);
    if ci + WORDS == pi {
      assert Stack(t, pi)[0] == w[WORDS] && Stack(s, pi)[0] == s[pi];
      assert forall k :: 0 < k < WORDS ==> Stack(t, pi)[k] == Stack(s, pi)[k];
    } else {
      assert Stack(t, pi) == Stack(s, pi);
    }
  }

  /** With frames linked upwards from a root frame: unless the child's stack lies
      right below it, and its own first word, then the one beyond the child's
      stack, holds an address of it. */
  lemma RootedParentKeptIff(s: seq<Word>, lo: Word, pi: nat, ci: nat, f: nat)
    requires Layout(|s|, lo, pi, ci) && f < WORDS
    requires WellLinked(Stack(s, pi), Address(lo, pi), f) && Rooted(Stack(s, pi), Address(lo, pi), f)
    ensures Stack(Patch(s, ci, ChildWindow(s, lo, pi, ci, f)), pi) == Stack(s, pi) <==>
            !(ci + WORDS == pi && Within(Address(lo, pi), s[pi]))
  {
    var p, c := Address(lo, pi), Address(lo, ci);
    ParentKeptIff(s, lo, pi, ci, f);
    OverrunIff(Stack(s, pi), p, c, s[ci + WORDS], f);
    Shift(p, c, s[pi]);
  }

  /** It can happen, wherever the frame is: every word holds the stack's top. */
  lemma ParentHit(s: seq<Word>, lo: Word, ci: nat, f: nat)
    requires Layout(|s|, lo, ci + WORDS, ci) && f < WORDS
    requires Stack(s, ci + WORDS) == seq(WORDS, _ => Address(lo, ci + WORDS) + STACK_SIZE)
    ensures Stack(Patch(s, ci, ChildWindow(s, lo, ci + WORDS, ci, f)), ci + WORDS) != Stack(s, ci + WORDS)
  {
    var par := Stack(s, ci + WORDS);
    assert Chain(par, Address(lo, ci + WORDS), f) == [f];
    assert s[ci + WORDS] == par[0];
    RootedParentKeptIff(s, lo, ci + WORDS, ci, f);
  }

  lemma CopyWord(s: seq<Word>, pi: nat, ci: nat, i: nat)
    requires pi + WORDS <= |s| && ci + WORDS <= |s| && (pi + WORDS <= ci || ci + WORDS <= pi) && i < WORDS
    ensures var m := Patch(s, ci, s[pi..pi + i]); m[ci + i := m[pi + i]] == Patch(s, ci, s[pi..pi + i + 1])
  {
    assert s[pi..pi + i + 1] == s[pi..pi + i] + [s[pi + i]];
  }

  method CopyStack(mem: array<Word>, pi: nat, ci: nat)
    requires pi + WORDS <= mem.Length && ci + WORDS <= mem.Length && (pi + WORDS <= ci || ci + WORDS <= pi)
    modifies mem
    ensures mem[..] == Patch(old(mem[..]), ci, Stack(old(mem[..]), pi))
  {
    ghost var s := mem[..];
    for i := 0 to WORDS
      invariant mem[..] == Patch(s, ci, s[pi..pi + i])
    {
      CopyWord(s, pi, ci, i);
      ghost var before := mem[..];
      mem[ci + i] := mem[pi + i];
      assert mem[..] == before[ci + i := before[pi + i]];
    }
  }

  /** The loop of adjstack comes to its end. */
  ghost predicate ForkEnds(s: seq<Word>, lo: Word, pi: nat, ci: nat, f: nat)
    requires Layout(|s|, lo, pi, ci) && f < WORDS
  {
    var p, c := Address(lo, pi), Address(lo, ci);
    Tame(Stack(s, pi) + [s[ci + WORDS]], c, Distance(p, c), f)
  }

  ghost predicate SoundAt(s: seq<Word>, lo: Word, pi: nat, ci: nat, f: nat)
    requires Layout(|s|, lo, pi, ci) && f < WORDS
  {
    Sound(Stack(s, pi), Address(lo, pi), Address(lo, ci), s[ci + WORDS], f)
  }

  /** Memory t is s with the parent's stack relocated into the child's, and
      nothing else changed. */
  ghost predicate Cloned(s: seq<Word>, t: seq<Word>, lo: Word, pi: nat, ci: nat, f: nat)
    requires Layout(|s|, lo, pi, ci) && |t| == |s| && f < WORDS
  {
    && Relocated(Stack(s, pi), Address(lo, pi), Stack(t, ci), Address(lo, ci), f)
    && forall k :: 0 <= k < |s| && !(ci <= k < ci + WORDS) ==> t[k] == s[k]
  }

  /** What a sound fork leaves in memory. */
  lemma SoundPatch(s: seq<Word>, lo: Word, pi: nat, ci: nat, f: nat)
    requires Layout(|s|, lo, pi, ci) && f < WORDS && SoundAt(s, lo, pi, ci, f)
    ensures ForkEnds(s, lo, pi, ci, f)
    ensures Cloned(s, Patch(s, ci, ChildWindow(s, lo, pi, ci, f)), lo, pi, ci, f)
  {
    var p, c := Address(lo, pi), Address(lo, ci);
    SoundIsTame(Stack(s, pi), p, c, s[ci + WORDS], f);
    SoundFork(Stack(s, pi), p, c, s[ci + WORDS], f);
    var w := ChildWindow(s, lo, pi, ci, f);
    assert Stack(Patch(s, ci, w), ci) == w[..WORDS];
  }

  lemma PatchTwice(s: seq<Word>, at: nat, v: seq<Word>, w: seq<Word>)
    requires |v| <= |w| && at + |w| <= |s|
    ensures Patch(Patch(s, at, v), at, w) == Patch(s, at, w)
  {
  }

  lemma CopyWindow(s: seq<Word>, pi: nat, ci: nat)
    requires pi + WORDS <= |s| && ci + WORDS + 1 <= |s|
    ensures Window(Patch(s, ci, Stack(s, pi)), ci) == Stack(s, pi) + [s[ci + WORDS]]
  {
  }

  lemma SameWord(p: Word, c: Word, bp: Word)
    requires Base(p) && Base(c) && Apart(p, c) && InFrame(p, bp)
    ensures var a := Add(bp, Distance(p, c));
            Within(c, a) && Aligned(c, a) && Index(c, a) == Index(p, bp) < WORDS
  {
    Shift(p, c, bp);
  }

  /** The copy, and adjstack on it, called with the parent's frame pointer. */
  method CloneStack(mem: array<Word>, lo: Word, pi: nat, ci: nat, bp: Word) returns (ended: bool)
    requires Layout(mem.Length, lo, pi, ci) && InFrame(Address(lo, pi), bp)
    modifies mem
    ensures mem[..] == Patch(old(mem[..]), ci, ChildWindow(old(mem[..]), lo, pi, ci, Index(Address(lo, pi), bp)))
    ensures ended <==> ForkEnds(old(mem[..]), lo, pi, ci, Index(Address(lo, pi), bp))
  {
    ghost var s := mem[..];
    CopyStack(mem, pi, ci);
    var p, c := Address(lo, pi), Address(lo, ci);
    SameWord(p, c, bp);
    CopyWindow(s, pi, ci);
    PatchTwice(s, ci, Stack(s, pi), ChildWindow(s, lo, pi, ci, Index(p, bp)));
    TraceInWindow(mem[..], ci, c, Distance(p, c), Index(p, bp));
    ended := AdjStack(mem, ci, c, Distance(p, c), bp);
  }

  /** bp is the address of a word of the stack at p. */
  predicate InFrame(p: Word, bp: Word) {
    Within(p, bp) && Aligned(p, bp) && bp < p + STACK_SIZE
  }

  /** The copy, the adjustment of the chain and the fix-up of the saved BP and
      SP, in the order of sched_fork, with both stacks in one memory. Nothing
      changes but the child's stack and the word beyond it, which hold what the
      walk makes of the copy. If the fork is sound, the walk ends, the child's
      stack is the parent's relocated, and all else is as it was. */
  method ForkStack(mem: array<Word>, lo: Word, pi: nat, ci: nat, bp: Word, sp: Word)
      returns (childBp: Word, childSp: Word, ended: bool)
    requires Layout(mem.Length, lo, pi, ci) && InFrame(Address(lo, pi), bp) && Within(Address(lo, pi), sp)
    modifies mem
    ensures childBp - Address(lo, ci) == bp - Address(lo, pi)
    ensures childSp - Address(lo, ci) == sp - Address(lo, pi)
    ensures mem[..] == Patch(old(mem[..]), ci, ChildWindow(old(mem[..]), lo, pi, ci, Index(Address(lo, pi), bp)))
    ensures ended <==> ForkEnds(old(mem[..]), lo, pi, ci, Index(Address(lo, pi), bp))
    ensures SoundAt(old(mem[..]), lo, pi, ci, Index(Address(lo, pi), bp)) ==>
              ended && Cloned(old(mem[..]), mem[..], lo, pi, ci, Index(Address(lo, pi), bp))
  {
    ghost var s := mem[..];
    ended := CloneStack(mem, lo, pi, ci, bp);
    if SoundAt(s, lo, pi, ci, Index(Address(lo, pi), bp)) {
      SoundPatch(s, lo, pi, ci, Index(Address(lo, pi), bp));
    }
    var diff := Distance(Address(lo, pi), Address(lo, ci));
    Shift(Address(lo, pi), Address(lo, ci), bp);
    Shift(Address(lo, pi), Address(lo, ci), sp);
    childBp := Add(bp, diff);
    childSp := Add(sp, diff);
  }

  // ---- Forks of forks ----

  /** Stack g + 1 is made from stack g by a fork whose limit word, tops[g], is harmless. */
  ghost predicate ForkedAt(stacks: seq<seq<Word>>, bases: seq<Word>, tops: seq<Word>, g: nat, i: nat)
    requires g < |tops| && |stacks| == |bases| == |tops| + 1 && i < WORDS
  {
    var p, c := bases[g], bases[g + 1];
    && |stacks[g]| == WORDS && Base(p) && Base(c) && Apart(p, c)
    && !Within(c, Add(tops[g], Distance(p, c)))
    && stacks[g + 1] == Walk(stacks[g] + [tops[g]], c, Distance(p, c), i)[..WORDS]
  }

  /** Over any number of generations of forks, under a root frame, the frame
      chain is the first parent's, frame by frame. */
  lemma {:induction false} Generations(stacks: seq<seq<Word>>, bases: seq<Word>, tops: seq<Word>, g: nat, i: nat)
    requires |stacks| == |bases| == |tops| + 1 && g <= |tops| && i < WORDS
    requires forall h :: 0 <= h < |tops| ==> ForkedAt(stacks, bases, tops, h, i)
    requires |stacks[0]| == WORDS && WellLinked(stacks[0], bases[0], i) && Rooted(stacks[0], bases[0], i)
    ensures |stacks[g]| == WORDS
    ensures WellLinked(stacks[g], bases[g], i)
    ensures Rooted(stacks[g], bases[g], i)
    ensures Chain(stacks[g], bases[g], i) == Chain(stacks[0], bases[0], i)
  {
    if g != 0 {
      Generations(stacks, bases, tops, g - 1, i);
      assert ForkedAt(stacks, bases, tops, g - 1, i);
      SoundFork(stacks[g - 1], bases[g - 1], bases[g], tops[g - 1], i);
    }
  }
}
