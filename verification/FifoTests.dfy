/** ps7/fifoTest.c: n writers send numbered words through a FIFO to one reader,
    which checks that each writer's words arrive in order. The FIFO is known
    here by the contract in ps7/fifo.h only: a bounded queue whose operations
    block while it is full or empty. */
module FifoTests {
  import opened Util

  const NUMBERS: nat := 0x100_0000
  const CAPACITY: nat := 4096

  /** The word with which a writer sends its number j: j + (my_procnum << 24).
      Below writer 128 the C shift of an int does not overflow. */
  function Encode(w: nat, j: nat): nat {
    j + w * NUMBERS
  }

  function Writer(word: nat): nat {
    word / NUMBERS
  }

  function Number(word: nat): nat {
    word - Writer(word) * NUMBERS
  }

  lemma DecodeEncode(w: nat, j: nat)
    requires j < NUMBERS
    ensures Writer(Encode(w, j)) == w && Number(Encode(w, j)) == j
  {
  }

  lemma EncodeDecode(word: nat)
    ensures Encode(Writer(word), Number(word)) == word
    ensures Number(word) < NUMBERS
  {
  }

  /** The words a writer sends. */
  function Words(w: nat, l: nat): (ws: seq<nat>)
    ensures |ws| == l
    ensures forall j :: 0 <= j < l ==> ws[j] == Encode(w, j)
  {
    seq(l, j requires j >= 0 => Encode(w, j))
  }

  method WriteAll(w: nat, l: nat) returns (sent: seq<nat>)
    requires 1 <= w < 128 && l <= NUMBERS
    ensures sent == Words(w, l)
  {
    sent := [];
    for j := 0 to l
      invariant sent == Words(w, j)
    {
      sent := sent + [j + w * 0x100_0000];
    }
  }

  // ---- The checker ----

  /** How many of these words came from writer w. */
  ghost function Count(ws: seq<nat>, w: nat): (c: nat)
    ensures c <= |ws|
  {
    if |ws| == 0 then 0
    else Count(ws[..|ws| - 1], w) + if Writer(ws[|ws| - 1]) == w then 1 else 0
  }

  ghost predicate FromWriters(ws: seq<nat>, n: nat) {
    forall j :: 0 <= j < |ws| ==> 1 <= Writer(ws[j]) <= n
  }

  /** Each word's number is how many earlier words its writer has sent. */
  ghost predicate InOrder(ws: seq<nat>) {
    forall j :: 0 <= j < |ws| ==> Number(ws[j]) == Count(ws[..j], Writer(ws[j]))
  }

  lemma CountAppend(ws: seq<nat>, x: nat, w: nat)
    ensures Count(ws + [x], w) == Count(ws, w) + if Writer(x) == w then 1 else 0
  {
    assert (ws + [x])[..|ws + [x]| - 1] == ws;
  }

  lemma InOrderAppend(ws: seq<nat>, x: nat)
    ensures InOrder(ws + [x]) <==> InOrder(ws) && Number(x) == Count(ws, Writer(x))
  {
    var ws' := ws + [x];
    assert forall j :: 0 <= j < |ws| ==> ws'[j] == ws[j] && ws'[..j] == ws[..j];
    assert ws'[..|ws|] == ws && ws'[|ws|] == x;
    if InOrder(ws') {
      assert Number(ws'[|ws|]) == Count(ws'[..|ws|], Writer(ws'[|ws|]));
      forall j | 0 <= j < |ws|
        ensures Number(ws[j]) == Count(ws[..j], Writer(ws[j]))
      {
        assert Number(ws'[j]) == Count(ws'[..j], Writer(ws'[j]));
      }
    }
  }

  lemma OneMoreWord(ws: seq<nat>, j: nat)
    requires j < |ws|
    ensures forall w :: Count(ws[..j + 1], w) == Count(ws[..j], w) + if w == Writer(ws[j]) then 1 else 0
    ensures InOrder(ws[..j + 1]) <==> InOrder(ws[..j]) && Number(ws[j]) == Count(ws[..j], Writer(ws[j]))
  {
    assert ws[..j + 1] == ws[..j] + [ws[j]];
    InOrderAppend(ws[..j], ws[j]);
    forall w: nat
      ensures Count(ws[..j + 1], w) == Count(ws[..j], w) + if w == Writer(ws[j]) then 1 else 0
    {
      CountAppend(ws[..j], ws[j], w);
    }
  }

  /** The reader of test2, on the words that the FIFO delivers to it. */
  method CheckOrder(n: nat, ws: seq<nat>) returns (ok: bool)
    requires FromWriters(ws, n)
    ensures ok <==> InOrder(ws)
  {
    var trackers := new nat[n](_ => 0);
    for j := 0 to |ws|
      invariant forall i :: 0 <= i < n ==> trackers[i] == Count(ws[..j], i + 1)
      invariant InOrder(ws[..j])
    {
      OneMoreWord(ws, j);
      var writer := ws[j] / 0x100_0000;
      var num := ws[j] - writer * 0x100_0000;
      assert writer == Writer(ws[j]) && num == Number(ws[j]) && 1 <= writer <= n;
      var expected := trackers[writer - 1];
      trackers[writer - 1] := expected + 1;
      if expected != num {
        NotInOrder(ws, j);
        return false;
      }
    }
    assert ws[..|ws|] == ws;
    return true;
  }

  lemma NotInOrder(ws: seq<nat>, j: nat)
    requires j < |ws| && Number(ws[j]) != Count(ws[..j], Writer(ws[j]))
    ensures !InOrder(ws)
  {
  }

  /** The reader of test1: one writer, plain numbers. */
  method CheckPlain(ws: seq<nat>) returns (success: bool)
    ensures success <==> ws == seq(|ws|, i => i)
  {
    success := true;
    for i := 0 to |ws|
      invariant success <==> forall j :: 0 <= j < i ==> ws[j] == j
    {
      success := success && i == ws[i];
    }
    if success {
      assert ws == seq(|ws|, i => i);
    }
  }

  // ---- Soundness and completeness ----

  /** The words of writer w, in the order of their arrival. */
  ghost function Project(ws: seq<nat>, w: nat): (r: seq<nat>)
    ensures |r| == Count(ws, w)
  {
    if |ws| == 0 then []
    else if Writer(ws[|ws| - 1]) == w then Project(ws[..|ws| - 1], w) + [ws[|ws| - 1]]
    else Project(ws[..|ws| - 1], w)
  }

  /** ws merges the sequences 0 .. l - 1 of writers 1 .. n, each kept in order. */
  ghost predicate Interleaving(ws: seq<nat>, n: nat, l: nat) {
    FromWriters(ws, n) && forall w :: 1 <= w <= n ==> Project(ws, w) == Words(w, l)
  }

  lemma {:induction false} OrderedProjection(ws: seq<nat>, w: nat)
    requires InOrder(ws)
    ensures Project(ws, w) == Words(w, Count(ws, w))
  {
    if |ws| != 0 {
      var ms, x := ws[..|ws| - 1], ws[|ws| - 1];
      assert ws == ms + [x];
      InOrderAppend(ms, x);
      OrderedProjection(ms, w);
      EncodeDecode(x);
    }
  }

  /** Where a word of writer w lands in that writer's projection. */
  lemma {:induction false} ProjectAt(ws: seq<nat>, j: nat)
    requires j < |ws|
    ensures Count(ws[..j], Writer(ws[j])) < Count(ws, Writer(ws[j]))
    ensures Project(ws, Writer(ws[j]))[Count(ws[..j], Writer(ws[j]))] == ws[j]
  {
    var n := |ws| - 1;
    if j == n {
    } else {
      assert ws[..n][..j] == ws[..j];
      ProjectAt(ws[..n], j);
    }
  }

  ghost function Counts(ws: seq<nat>, n: nat): (xs: seq<int>)
    ensures |xs| == n
    ensures forall i :: 0 <= i < n ==> xs[i] == Count(ws, i + 1)
  {
    seq(n, i requires 0 <= i < n => Count(ws, i + 1))
  }

  lemma {:induction false} CountsSum(ws: seq<nat>, n: nat)
    requires FromWriters(ws, n)
    ensures Sum(Counts(ws, n)) == |ws|
  {
    if |ws| == 0 {
      SumConstant(Counts(ws, n), 0);
    } else {
      var ms, x := ws[..|ws| - 1], ws[|ws| - 1];
      CountsSum(ms, n);
      var i := Writer(x) - 1;
      assert Counts(ws, n) == Counts(ms, n)[i := Counts(ms, n)[i] + 1];
      SumUpdate(Counts(ms, n), i, Counts(ms, n)[i] + 1);
    }
  }

  /** A writer none of whose numbers reaches l has sent at most l words. */
  lemma CountAtMost(ws: seq<nat>, w: nat, l: nat)
    requires InOrder(ws) && l <= NUMBERS
    requires forall j :: 0 <= j < |ws| ==> Number(ws[j]) < l
    ensures Count(ws, w) <= l
    decreases |ws|
  {
    if |ws| != 0 {
      var n := |ws| - 1;
      assert ws[..n + 1] == ws;
      OneMoreWord(ws, n);
      assert Number(ws[n]) < l;
      CountAtMost(ws[..n], w, l);
    }
  }

  /** Counts of at most l that add up to n * l are all l. */
  lemma AllFull(xs: seq<int>, l: int)
    requires forall i :: 0 <= i < |xs| ==> xs[i] <= l
    requires Sum(xs) == |xs| * l
    ensures forall i :: 0 <= i < |xs| ==> xs[i] == l
  {
    var full := seq(|xs|, _ => l);
    SumConstant(full, l);
    forall i | 0 <= i < |xs|
      ensures xs[i] == l
    {
      if xs[i] < l {
        SumStrict(xs, full, i);
      }
    }
  }

  /** test2's checker is sound and complete: it accepts n * l words, each some
      number below l from some writer, exactly when they interleave the writers'
      sequences. */
  lemma CheckerExact(ws: seq<nat>, n: nat, l: nat)
    requires l <= NUMBERS && |ws| == n * l && FromWriters(ws, n)
    requires forall j :: 0 <= j < |ws| ==> Number(ws[j]) < l
    ensures InOrder(ws) <==> Interleaving(ws, n, l)
  {
    if InOrder(ws) {
      CountsSum(ws, n);
      forall i | 0 <= i < n
        ensures Counts(ws, n)[i] <= l
      {
        CountAtMost(ws, i + 1, l);
      }
      AllFull(Counts(ws, n), l);
      forall w | 1 <= w <= n
        ensures Project(ws, w) == Words(w, l)
      {
        assert Counts(ws, n)[w - 1] == l;
        OrderedProjection(ws, w);
      }
    }
    if Interleaving(ws, n, l) {
      forall j | 0 <= j < |ws|
        ensures Number(ws[j]) == Count(ws[..j], Writer(ws[j]))
      {
        var w := Writer(ws[j]);
        ProjectAt(ws, j);
        assert Project(ws, w) == Words(w, l);
        DecodeEncode(w, Count(ws[..j], w));
      }
    }
  }

  // ---- Writers, FIFO and reader together ----

  /** sent[w - 1] words have been written by writer w; got is what was read. */
  datatype Pipe = Pipe(sent: seq<nat>, queue: seq<nat>, got: seq<nat>, trackers: seq<nat>, failed: bool)

  datatype Move = Write(w: nat) | Read

  ghost predicate Shape(s: Pipe, n: nat) {
    |s.sent| == n && |s.trackers| == n && FromWriters(s.queue, n)
  }

  /** A write waits for room, a read for a word; the reader stops when it has
      failed or has read n * l words. */
  ghost predicate Enabled(s: Pipe, n: nat, l: nat, m: Move)
    requires Shape(s, n)
  {
    match m
    case Write(w) => 1 <= w <= n && s.sent[w - 1] < l && |s.queue| < CAPACITY
    case Read => !s.failed && |s.got| < n * l && |s.queue| > 0
  }

  ghost function Next(s: Pipe, n: nat, l: nat, m: Move): (s': Pipe)
    requires l <= NUMBERS && Shape(s, n) && Enabled(s, n, l, m)
    ensures Shape(s', n)
  {
    match m
    case Write(w) =>
      var x := Encode(w, s.sent[w - 1]);
      DecodeEncode(w, s.sent[w - 1]);
      s.(sent := s.sent[w - 1 := s.sent[w - 1] + 1], queue := s.queue + [x])
    case Read =>
      var x := s.queue[0];
      var t := s.trackers[Writer(x) - 1];
      Pipe(s.sent, s.queue[1..], s.got + [x], s.trackers[Writer(x) - 1 := t + 1], t != Number(x))
  }

  ghost function Run(n: nat, l: nat, moves: seq<Move>): (r: Option<Pipe>)
    requires l <= NUMBERS
    ensures r.Some? ==> Shape(r.value, n)
  {
    if |moves| == 0 then Some(Pipe(seq(n, _ => 0), [], [], seq(n, _ => 0), false))
    else
      var r := Run(n, l, moves[..|moves| - 1]);
      if r.Some? && Enabled(r.value, n, l, moves[|moves| - 1])
      then Some(Next(r.value, n, l, moves[|moves| - 1])) else None
  }

  /** All that was ever written, in order: what was read, then what is queued. */
  ghost function Stream(s: Pipe): seq<nat> {
    s.got + s.queue
  }

  ghost predicate Inv(s: Pipe, n: nat, l: nat) {
    && Shape(s, n)
    && !s.failed
    && FromWriters(Stream(s), n)
    && InOrder(Stream(s))
    && (forall w :: 1 <= w <= n ==> s.sent[w - 1] == Count(Stream(s), w) && s.sent[w - 1] <= l)
    && (forall w :: 1 <= w <= n ==> s.trackers[w - 1] == Count(s.got, w))
    && |s.queue| <= CAPACITY
  }

  lemma WriteStream(s: Pipe, n: nat, l: nat, w: nat)
    requires l <= NUMBERS && Inv(s, n, l) && Enabled(s, n, l, Write(w))
    ensures var ws := Stream(Next(s, n, l, Write(w)));
            ws == Stream(s) + [Encode(w, s.sent[w - 1])] && FromWriters(ws, n) && InOrder(ws)
  {
    var x := Encode(w, s.sent[w - 1]);
    DecodeEncode(w, s.sent[w - 1]);
    assert Stream(Next(s, n, l, Write(w))) == Stream(s) + [x];
    InOrderAppend(Stream(s), x);
  }

  lemma WriteInv(s: Pipe, n: nat, l: nat, w: nat)
    requires l <= NUMBERS && Inv(s, n, l) && Enabled(s, n, l, Write(w))
    ensures Inv(Next(s, n, l, Write(w)), n, l)
  {
    var s' := Next(s, n, l, Write(w));
    var x := Encode(w, s.sent[w - 1]);
    DecodeEncode(w, s.sent[w - 1]);
    WriteStream(s, n, l, w);
    forall v | 1 <= v <= n
      ensures s'.sent[v - 1] == Count(Stream(s'), v) && s'.sent[v - 1] <= l
    {
      CountAppend(Stream(s), x, v);
      assert s.sent[v - 1] == Count(Stream(s), v);
    }
  }

  lemma ReadInv(s: Pipe, n: nat, l: nat)
    requires l <= NUMBERS && Inv(s, n, l) && Enabled(s, n, l, Read)
    ensures Inv(Next(s, n, l, Read), n, l)
  {
    var s' := Next(s, n, l, Read);
    var x := s.queue[0];
    var j := |s.got|;
    assert Stream(s)[j] == x && Stream(s)[..j] == s.got;
    assert Number(Stream(s)[j]) == Count(Stream(s)[..j], Writer(Stream(s)[j]));
    assert Stream(s') == Stream(s);
    forall v | 1 <= v <= n
      ensures s'.trackers[v - 1] == Count(s'.got, v)
    {
      CountAppend(s.got, x, v);
    }
  }

  lemma {:induction false} RunInv(n: nat, l: nat, moves: seq<Move>)
    requires l <= NUMBERS && Run(n, l, moves).Some?
    ensures Inv(Run(n, l, moves).value, n, l)
  {
    if |moves| != 0 {
      RunInv(n, l, moves[..|moves| - 1]);
      var s := Run(n, l, moves[..|moves| - 1]).value;
      match moves[|moves| - 1]
      case Write(w) => WriteInv(s, n, l, w);
      case Read => ReadInv(s, n, l);
    }
  }

  lemma CountsBound(s: Pipe, n: nat, l: nat)
    requires Inv(s, n, l)
    ensures |Stream(s)| <= n * l
    ensures |Stream(s)| == n * l ==> forall i :: 0 <= i < n ==> s.sent[i] == l
  {
    var xs := Counts(Stream(s), n);
    var full := seq(n, _ => l);
    CountsSum(Stream(s), n);
    SumConstant(full, l);
    SumMonotone(xs, full);
    if |Stream(s)| == n * l {
      AllFull(xs, l);
      forall i | 0 <= i < n
        ensures s.sent[i] == l
      {
        assert xs[i] == l && s.sent[(i + 1) - 1] == Count(Stream(s), i + 1);
      }
    }
  }

  lemma AllSent(s: Pipe, n: nat, l: nat)
    requires Inv(s, n, l) && |s.queue| == 0
    requires forall i :: 0 <= i < n ==> s.sent[i] == l
    ensures |s.got| == n * l
  {
    CountsSum(Stream(s), n);
    forall i | 0 <= i < n
      ensures Counts(Stream(s), n)[i] == l
    {
      assert s.sent[(i + 1) - 1] == Count(Stream(s), i + 1);
    }
    SumConstant(Counts(Stream(s), n), l);
    assert Stream(s) == s.got;
  }

  lemma Complete(s: Pipe, n: nat, l: nat)
    requires l <= NUMBERS && Inv(s, n, l) && |s.got| == n * l
    ensures Interleaving(s.got, n, l)
  {
    CountsBound(s, n, l);
    assert |s.queue| == 0 && Stream(s) == s.got;
    forall w | 1 <= w <= n
      ensures Project(s.got, w) == Words(w, l)
    {
      assert s.sent[w - 1] == l;
      OrderedProjection(s.got, w);
    }
  }

  lemma Quiescent(s: Pipe, n: nat, l: nat)
    requires l <= NUMBERS && Inv(s, n, l)
    requires forall m :: !Enabled(s, n, l, m)
    ensures |s.got| == n * l
  {
    CountsBound(s, n, l);
    assert !Enabled(s, n, l, Read);
    if |s.queue| == 0 {
      forall i | 0 <= i < n
        ensures s.sent[i] == l
      {
        assert !Enabled(s, n, l, Write(i + 1));
        assert s.sent[(i + 1) - 1] == Count(Stream(s), i + 1);
      }
      AllSent(s, n, l);
    }
  }

  /** No interleaving of the writers and the reader makes the test fail. */
  lemma Test2NeverFails(n: nat, l: nat, moves: seq<Move>)
    requires l <= NUMBERS && Run(n, l, moves).Some?
    ensures !Run(n, l, moves).value.failed
    ensures forall w :: 1 <= w <= n ==> Run(n, l, moves).value.trackers[w - 1] == Count(Run(n, l, moves).value.got, w)
  {
    RunInv(n, l, moves);
  }

  /** Nobody is blocked for ever: as long as some word is still to be read, the
      reader or some writer can go on. */
  lemma Test2NeverBlocks(n: nat, l: nat, moves: seq<Move>)
    requires l <= NUMBERS && Run(n, l, moves).Some?
    requires |Run(n, l, moves).value.got| != n * l
    ensures exists m :: Enabled(Run(n, l, moves).value, n, l, m)
  {
    RunInv(n, l, moves);
    var s := Run(n, l, moves).value;
    if forall m :: !Enabled(s, n, l, m) {
      Quiescent(s, n, l);
    }
  }

  /** Every complete run ends in success: the reader has accepted n * l words,
      and they are an interleaving of the writers' sequences. */
  lemma Test2Succeeds(n: nat, l: nat, moves: seq<Move>)
    requires l <= NUMBERS && Run(n, l, moves).Some?
    requires |Run(n, l, moves).value.got| == n * l
    ensures !Run(n, l, moves).value.failed
    ensures Interleaving(Run(n, l, moves).value.got, n, l)
  {
    RunInv(n, l, moves);
    Complete(Run(n, l, moves).value, n, l);
  }

  lemma ReadTracks(s: Pipe, n: nat, l: nat, w: nat)
    requires l <= NUMBERS && Shape(s, n) && Enabled(s, n, l, Read) && 1 <= w <= n
    requires s.trackers[w - 1] == Count(s.got, w)
    ensures Next(s, n, l, Read).trackers[w - 1] == Count(s.got + [s.queue[0]], w)
  {
    CountAppend(s.got, s.queue[0], w);
  }

  /** The reader's check, whatever the queue holds: it fails exactly at a word
      that is out of order. */
  lemma ReadChecks(s: Pipe, n: nat, l: nat)
    requires l <= NUMBERS && Shape(s, n) && Enabled(s, n, l, Read) && InOrder(s.got)
    requires forall w :: 1 <= w <= n ==> s.trackers[w - 1] == Count(s.got, w)
    ensures var s' := Next(s, n, l, Read);
            && s'.got == s.got + [s.queue[0]] && s'.queue == s.queue[1..] && s'.sent == s.sent
            && (s'.failed <==> !InOrder(s'.got))
            && forall w :: 1 <= w <= n ==> s'.trackers[w - 1] == Count(s'.got, w)
  {
    var x := s.queue[0];
    InOrderAppend(s.got, x);
    assert s.trackers[Writer(x) - 1] == Count(s.got, Writer(x));
    forall w | 1 <= w <= n
      ensures Next(s, n, l, Read).trackers[w - 1] == Count(s.got + [x], w)
    {
      ReadTracks(s, n, l, w);
    }
  }

  /** The reader stops at the first failure and after n * l words, and only then;
      until then it waits for nothing but a word. */
  lemma ReaderStops(s: Pipe, n: nat, l: nat)
    requires l <= NUMBERS && Shape(s, n) && |s.queue| > 0
    ensures (s.failed || |s.got| >= n * l) <==>
              forall m :: Enabled(s, n, l, m) ==> Next(s, n, l, m).got == s.got
  {
    if !s.failed && |s.got| < n * l {
      assert Enabled(s, n, l, Read);
      assert |Next(s, n, l, Read).got| == |s.got| + 1;
    }
  }

  // ---- How full the FIFO gets ----

  /** Somebody has a word left to write. */
  lemma SomeoneWrites(s: Pipe, n: nat, l: nat) returns (w: nat)
    requires Inv(s, n, l) && |s.got| + |s.queue| < n * l
    ensures 1 <= w <= n && s.sent[w - 1] < l
  {
    var xs := Counts(Stream(s), n);
    if forall i :: 0 <= i < n ==> xs[i] == l {
      CountsSum(Stream(s), n);
      SumConstant(xs, l);
    }
    var i :| 0 <= i < n && xs[i] != l;
    w := i + 1;
    assert s.sent[w - 1] == Count(Stream(s), w);
  }

  lemma {:induction false} Fill(n: nat, l: nat, k: nat) returns (moves: seq<Move>)
    requires l <= NUMBERS && k <= n * l && k <= CAPACITY
    ensures Run(n, l, moves).Some? && |Run(n, l, moves).value.queue| == k && Run(n, l, moves).value.got == []
  {
    moves := [];
    if k != 0 {
      moves := Fill(n, l, k - 1);
      RunInv(n, l, moves);
      var w := SomeoneWrites(Run(n, l, moves).value, n, l);
      RunOn(n, l, moves, Write(w));
      moves := moves + [Write(w)];
    }
  }

  /** Writers can run ahead of the reader by k words if and only if there are so
      many, and they fit into the buffer of 4096. */
  lemma FullIff(n: nat, l: nat, k: nat)
    requires l <= NUMBERS
    ensures (exists moves :: Run(n, l, moves).Some? && |Run(n, l, moves).value.queue| == k) <==> k <= n * l && k <= 4096
  {
    if k <= n * l && k <= 4096 {
      var moves := Fill(n, l, k);
    }
    forall moves | Run(n, l, moves).Some?
      ensures |Run(n, l, moves).value.queue| <= n * l && |Run(n, l, moves).value.queue| <= 4096
    {
      RunInv(n, l, moves);
      CountsBound(Run(n, l, moves).value, n, l);
    }
  }

  // ---- Every run can be completed ----

  lemma RunOn(n: nat, l: nat, moves: seq<Move>, m: Move)
    requires l <= NUMBERS && Run(n, l, moves).Some? && Enabled(Run(n, l, moves).value, n, l, m)
    ensures Run(n, l, moves + [m]) == Some(Next(Run(n, l, moves).value, n, l, m))
  {
    assert (moves + [m])[..|moves + [m]| - 1] == moves;
  }

  /** Words still to be written, and words still to be read. */
  ghost function Remaining(s: Pipe, n: nat, l: nat): int {
    2 * (n * l) - |s.got| - |Stream(s)|
  }

  lemma MoveProgress(s: Pipe, n: nat, l: nat, m: Move)
    requires l <= NUMBERS && Inv(s, n, l) && Enabled(s, n, l, m)
    ensures Remaining(Next(s, n, l, m), n, l) == Remaining(s, n, l) - 1
  {
  }

  lemma SomeMove(s: Pipe, n: nat, l: nat) returns (m: Move)
    requires l <= NUMBERS && Inv(s, n, l) && |s.got| != n * l
    ensures Enabled(s, n, l, m)
    ensures Remaining(Next(s, n, l, m), n, l) == Remaining(s, n, l) - 1
    ensures Remaining(s, n, l) >= 0
  {
    CountsBound(s, n, l);
    if forall m :: !Enabled(s, n, l, m) {
      Quiescent(s, n, l);
    }
    m :| Enabled(s, n, l, m);
    MoveProgress(s, n, l, m);
  }

  lemma {:induction false} Continue(n: nat, l: nat, moves: seq<Move>, left: int) returns (all: seq<Move>)
    requires l <= NUMBERS && Run(n, l, moves).Some? && left == Remaining(Run(n, l, moves).value, n, l)
    ensures moves <= all
    ensures Run(n, l, all).Some?
    ensures |Run(n, l, all).value.got| == n * l
    decreases left
  {
    all := moves;
    RunInv(n, l, moves);
    if |Run(n, l, moves).value.got| != n * l {
      var m := SomeMove(Run(n, l, moves).value, n, l);
      RunOn(n, l, moves, m);
      all := Continue(n, l, moves + [m], left - 1);
    }
  }

  /** Every run has a continuation in which all n * l words are read. */
  lemma Test2CanComplete(n: nat, l: nat, moves: seq<Move>)
    requires l <= NUMBERS && Run(n, l, moves).Some?
    ensures exists all :: moves <= all && Run(n, l, all).Some? && |Run(n, l, all).value.got| == n * l
  {
    var all := Continue(n, l, moves, Remaining(Run(n, l, moves).value, n, l));
  }
}
