/** The process network of the prime sieve: a generator, a chain of filters that grows by
    one whenever a prime is found, and the process at its end that prints the primes.
    Pipes are FIFO queues of bounded capacity; any enabled process may act next. */
module PrimeSieve {
  import opened Primes
  import opened Totals

  /* A pipe by its history: what was written to it, and how much of that was read. */
  datatype Pipe = Pipe(sent: seq<int>, got: nat)

  /* A filter reads pipe `j` and writes pipe `j + 1`; `pending` is a number it has read
     and is about to write, if any. */
  datatype Filter = Filter(prime: int, pending: seq<int>, done: bool)

  datatype Head = Reading | Printing(p: int) | Forking(p: int) | Exited

  datatype State = State(
    next: int, genDone: bool, pipes: seq<Pipe>, filters: seq<Filter>, head: Head, printed: seq<int>)

  datatype Action =
    | Generate | GenExit
    | FilterRead(j: nat) | FilterWrite(j: nat) | FilterExit(j: nat)
    | HeadRead | HeadExit | Print | Fork

  const INIT := State(2, false, [Pipe([], 0)], [], Reading, [])

  predicate Shape(s: State) {
    |s.pipes| == |s.filters| + 1
  }

  /* The only process that could still write to pipe `j` has exited. */
  predicate WriterDone(s: State, j: nat)
    requires Shape(s) && j < |s.pipes|
  {
    if j == 0 then s.genDone else s.filters[j - 1].done
  }

  predicate CanRead(s: State, j: nat)
    requires Shape(s) && j < |s.pipes|
  {
    s.pipes[j].got < |s.pipes[j].sent|
  }

  /* A read returns 0: the pipe is empty and closed. */
  predicate AtEof(s: State, j: nat)
    requires Shape(s) && j < |s.pipes|
  {
    s.pipes[j].got >= |s.pipes[j].sent| && WriterDone(s, j)
  }

  predicate HasRoom(cap: nat, s: State, j: nat)
    requires Shape(s) && j < |s.pipes|
  {
    |s.pipes[j].sent| - s.pipes[j].got < cap
  }

  /* Action `a` can be taken, with pipes that hold `cap` numbers. */
  predicate Enabled(cap: nat, m: int, s: State, a: Action) {
    && Shape(s)
    && var k := |s.filters|;
       match a
       case Generate => !s.genDone && s.next <= m && HasRoom(cap, s, 0)
       case GenExit => !s.genDone && s.next > m
       case FilterRead(j) => j < k && !s.filters[j].done && s.filters[j].pending == [] && CanRead(s, j)
                             && s.filters[j].prime != 0
       case FilterWrite(j) => j < k && !s.filters[j].done && s.filters[j].pending != [] && HasRoom(cap, s, j + 1)
       case FilterExit(j) => j < k && !s.filters[j].done && s.filters[j].pending == [] && AtEof(s, j)
       case HeadRead => s.head == Reading && CanRead(s, k)
       case HeadExit => s.head == Reading && AtEof(s, k)
       case Print => s.head.Printing?
       case Fork => s.head.Forking?
  }

  function Send(p: Pipe, x: int): (q: Pipe) { Pipe(p.sent + [x], p.got) }
  function Receive(p: Pipe): (q: Pipe) { Pipe(p.sent, p.got + 1) }

  function After(cap: nat, m: int, s: State, a: Action): (t: State)
    requires Enabled(cap, m, s, a)
  {
    var k := |s.filters|;
    match a
    case Generate => s.(next := s.next + 1, pipes := s.pipes[0 := Send(s.pipes[0], s.next)])
    case GenExit => s.(genDone := true)
    case FilterRead(j) =>
      var x := s.pipes[j].sent[s.pipes[j].got];
      var f := s.filters[j];
      s.(pipes := s.pipes[j := Receive(s.pipes[j])],
         filters := s.filters[j := f.(pending := if x % f.prime != 0 then [x] else [])])
    case FilterWrite(j) =>
      var f := s.filters[j];
      s.(pipes := s.pipes[j + 1 := Send(s.pipes[j + 1], f.pending[0])],
         filters := s.filters[j := f.(pending := f.pending[1..])])
    case FilterExit(j) => s.(filters := s.filters[j := s.filters[j].(done := true)])
    case HeadRead =>
      s.(head := Printing(s.pipes[k].sent[s.pipes[k].got]), pipes := s.pipes[k := Receive(s.pipes[k])])
    case HeadExit => s.(head := Exited)
    case Print => s.(head := Forking(s.head.p), printed := s.printed + [s.head.p])
    case Fork =>
      s.(head := Reading, filters := s.filters + [Filter(s.head.p, [], false)], pipes := s.pipes + [Pipe([], 0)])
  }

  ghost predicate Next(cap: nat, m: int, s: State, t: State) {
    exists a :: Enabled(cap, m, s, a) && t == After(cap, m, s, a)
  }

  ghost predicate StepAt(cap: nat, m: int, run: seq<State>, k: nat)
    requires 0 < k < |run|
  {
    Next(cap, m, run[k - 1], run[k])
  }

  ghost predicate IsRun(cap: nat, m: int, run: seq<State>) {
    && |run| > 0 && run[0] == INIT
    && forall k :: 0 < k < |run| ==> StepAt(cap, m, run, k)
  }

  predicate Finished(s: State) {
    s.genDone && s.head == Exited && forall j :: 0 <= j < |s.filters| ==> s.filters[j].done
  }

  // ----- the invariant

  ghost predicate PipeOk(m: int, s: State, j: nat)
    requires Shape(s) && j < |s.pipes|
  {
    && s.pipes[j].got <= |s.pipes[j].sent|
    && s.pipes[j].sent <= Stream(m, j)
    && (WriterDone(s, j) ==> s.pipes[j].sent == Stream(m, j))
  }

  /* What a filter has written and is about to write is what it has let through so far. */
  ghost predicate FilterOk(s: State, j: nat)
    requires Shape(s) && j < |s.filters|
  {
    var f, p, q := s.filters[j], s.pipes[j], s.pipes[j + 1];
    && 1 <= p.got <= |p.sent| && f.prime == p.sent[0] && f.prime != 0
    && |f.pending| <= 1
    && q.sent + f.pending == Sift(p.sent[1..p.got], f.prime)
    && (f.done ==> f.pending == [] && p.got == |p.sent| && WriterDone(s, j))
  }

  ghost predicate GenOk(m: int, s: State)
    requires Shape(s)
  {
    && s.pipes[0].sent == UpTo(s.next - 1) && s.next >= 2
    && (s.next == 2 || s.next <= m + 1)
    && (s.genDone ==> s.next > m)
  }

  ghost predicate HeadOk(s: State)
    requires Shape(s)
  {
    var k := |s.filters|;
    var p := s.pipes[k];
    && |s.printed| == k + (if s.head.Forking? then 1 else 0)
    && (forall j :: 0 <= j < k ==> s.printed[j] == s.filters[j].prime)
    && match s.head
       case Reading => p.got == 0
       case Printing(x) => p.got == 1 && p.sent != [] && x == p.sent[0]
       case Forking(x) => p.got == 1 && p.sent != [] && x == p.sent[0] && s.printed[k] == x
       case Exited => p.got == 0 && p.sent == [] && WriterDone(s, k)
  }

  ghost predicate Inv(m: int, s: State) {
    && Shape(s) && GenOk(m, s) && HeadOk(s)
    && (forall j :: 0 <= j < |s.pipes| ==> PipeOk(m, s, j))
    && (forall j :: 0 <= j < |s.filters| ==> FilterOk(s, j))
  }

  /* A filter that has been fed a part of its stream has produced a part of the next. */
  lemma FilterOutput(m: int, s: State, j: nat)
    requires Shape(s) && j < |s.filters| && PipeOk(m, s, j) && FilterOk(s, j)
    ensures Stream(m, j) != [] && Stream(m, j)[0] == s.filters[j].prime
    ensures s.pipes[j + 1].sent + s.filters[j].pending <= Stream(m, j + 1)
    ensures s.pipes[j].got == |s.pipes[j].sent| && WriterDone(s, j) ==>
      s.pipes[j + 1].sent + s.filters[j].pending == Stream(m, j + 1)
  {
    var p, st := s.pipes[j], Stream(m, j);
    assert st[0] in st;
    assert p.sent[1..p.got] <= st[1..];
    if p.got == |p.sent| && WriterDone(s, j) {
      assert p.sent[1..p.got] == st[1..];
    }
    SiftPrefix(p.sent[1..p.got], st[1..], st[0]);
  }

  lemma {:induction false} UpToPrefix(a: int, b: int)
    requires a <= b
    ensures UpTo(a) <= UpTo(b)
    decreases b - a
  {
    if a == b {
    } else {
      UpToPrefix(a, b - 1);
    }
  }

  lemma ReadPartStays(xs: seq<int>, x: int, g: nat)
    requires 1 <= g <= |xs|
    ensures (xs + [x])[1..g] == xs[1..g]
  {
  }

  lemma GeneratedPipesOk(cap: nat, m: int, s: State, a: Action, j: nat)
    requires Inv(m, s) && (a == Generate || a == GenExit) && Enabled(cap, m, s, a) && j < |s.pipes|
    ensures PipeOk(m, After(cap, m, s, a), j)
  {
    assert PipeOk(m, s, j);
    if j == 0 {
      if a == GenExit {
        GeneratedAll(m, s);
      } else {
        UpToPrefix(s.next, m);
      }
    }
  }

  lemma GeneratorKeepsInv(cap: nat, m: int, s: State, a: Action)
    requires Inv(m, s) && (a == Generate || a == GenExit) && Enabled(cap, m, s, a)
    ensures Inv(m, After(cap, m, s, a))
  {
    var t := After(cap, m, s, a);
    forall j | 0 <= j < |t.pipes| ensures PipeOk(m, t, j) {
      GeneratedPipesOk(cap, m, s, a, j);
    }
    forall j | 0 <= j < |t.filters| ensures FilterOk(t, j) {
      assert FilterOk(s, j);
      if j == 0 {
        ReadPartStays(s.pipes[0].sent, s.next, s.pipes[0].got);
      }
    }
  }

  lemma GeneratedAll(m: int, s: State)
    requires Shape(s) && GenOk(m, s) && s.next > m
    ensures s.pipes[0].sent == Stream(m, 0)
  {
  }

  lemma ReaderStaysOk(cap: nat, m: int, s: State, i: nat)
    requires Shape(s) && i < |s.filters| && FilterOk(s, i) && Enabled(cap, m, s, FilterRead(i))
    ensures FilterOk(After(cap, m, s, FilterRead(i)), i)
  {
    var p, f := s.pipes[i], s.filters[i];
    assert p.sent[1..p.got + 1] == p.sent[1..p.got] + [p.sent[p.got]];
    SiftAppend(p.sent[1..p.got], p.sent[p.got], f.prime);
  }

  /* What a filter does concerns neither the generator nor the process that prints. */
  lemma FilterLeavesEnds(cap: nat, m: int, s: State, a: Action)
    requires (a.FilterRead? || a.FilterWrite? || a.FilterExit?) && Enabled(cap, m, s, a) && GenOk(m, s) && HeadOk(s)
    ensures Shape(After(cap, m, s, a)) && GenOk(m, After(cap, m, s, a)) && HeadOk(After(cap, m, s, a))
  {
  }

  lemma ReadPipeOk(cap: nat, m: int, s: State, i: nat, j: nat)
    requires Shape(s) && j < |s.pipes| && PipeOk(m, s, j) && Enabled(cap, m, s, FilterRead(i))
    ensures PipeOk(m, After(cap, m, s, FilterRead(i)), j)
  {
  }

  lemma ReadFilterOk(cap: nat, m: int, s: State, i: nat, j: nat)
    requires Shape(s) && j < |s.filters| && FilterOk(s, j) && Enabled(cap, m, s, FilterRead(i))
    ensures FilterOk(After(cap, m, s, FilterRead(i)), j)
  {
    if j == i {
      ReaderStaysOk(cap, m, s, i);
    }
  }

  lemma FilterReadKeepsInv(cap: nat, m: int, s: State, i: nat)
    requires Inv(m, s) && Enabled(cap, m, s, FilterRead(i))
    ensures Inv(m, After(cap, m, s, FilterRead(i)))
  {
    var t := After(cap, m, s, FilterRead(i));
    FilterLeavesEnds(cap, m, s, FilterRead(i));
    assert FilterOk(s, i);
    forall j | 0 <= j < |t.pipes| ensures PipeOk(m, t, j) {
      ReadPipeOk(cap, m, s, i, j);
    }
    forall j | 0 <= j < |t.filters| ensures FilterOk(t, j) {
      ReadFilterOk(cap, m, s, i, j);
    }
  }

  lemma WriterStaysOk(cap: nat, m: int, s: State, i: nat)
    requires Shape(s) && i < |s.filters| && FilterOk(s, i) && Enabled(cap, m, s, FilterWrite(i))
    ensures FilterOk(After(cap, m, s, FilterWrite(i)), i)
  {
  }

  /* The filter downstream of a write has not read the new number yet. */
  lemma NextReaderStaysOk(cap: nat, m: int, s: State, i: nat)
    requires Shape(s) && i + 1 < |s.filters| && FilterOk(s, i + 1) && Enabled(cap, m, s, FilterWrite(i))
    ensures FilterOk(After(cap, m, s, FilterWrite(i)), i + 1)
  {
    var p := s.pipes[i + 1];
    ReadPartStays(p.sent, s.filters[i].pending[0], p.got);
  }

  lemma WrittenPipeOk(cap: nat, m: int, s: State, i: nat, j: nat)
    requires Shape(s) && i < |s.filters| && PipeOk(m, s, i) && FilterOk(s, i)
    requires j < |s.pipes| && PipeOk(m, s, j) && Enabled(cap, m, s, FilterWrite(i))
    ensures PipeOk(m, After(cap, m, s, FilterWrite(i)), j)
  {
    if j == i + 1 {
      FilterOutput(m, s, i);
      var t := After(cap, m, s, FilterWrite(i));
      assert s.filters[i].pending == [s.filters[i].pending[0]];
      assert t.pipes[j].sent == s.pipes[j].sent + s.filters[i].pending && !WriterDone(t, j);
    }
  }

  lemma WrittenFilterOk(cap: nat, m: int, s: State, i: nat, j: nat)
    requires Shape(s) && j < |s.filters| && FilterOk(s, j) && Enabled(cap, m, s, FilterWrite(i))
    ensures FilterOk(After(cap, m, s, FilterWrite(i)), j)
  {
    if j == i {
      WriterStaysOk(cap, m, s, i);
    } else if j == i + 1 {
      NextReaderStaysOk(cap, m, s, i);
    }
  }

  lemma FilterWriteKeepsInv(cap: nat, m: int, s: State, i: nat)
    requires Inv(m, s) && Enabled(cap, m, s, FilterWrite(i))
    ensures Inv(m, After(cap, m, s, FilterWrite(i)))
  {
    var t := After(cap, m, s, FilterWrite(i));
    FilterLeavesEnds(cap, m, s, FilterWrite(i));
    assert FilterOk(s, i) && PipeOk(m, s, i);
    forall j | 0 <= j < |t.pipes| ensures PipeOk(m, t, j) {
      WrittenPipeOk(cap, m, s, i, j);
    }
    forall j | 0 <= j < |t.filters| ensures FilterOk(t, j) {
      WrittenFilterOk(cap, m, s, i, j);
    }
  }

  lemma ExitPipeOk(cap: nat, m: int, s: State, i: nat, j: nat)
    requires Shape(s) && i < |s.filters| && PipeOk(m, s, i) && FilterOk(s, i)
    requires j < |s.pipes| && PipeOk(m, s, j) && Enabled(cap, m, s, FilterExit(i))
    ensures PipeOk(m, After(cap, m, s, FilterExit(i)), j)
  {
    if j == i + 1 {
      FilterOutput(m, s, i);
    }
  }

  lemma ExitFilterOk(cap: nat, m: int, s: State, i: nat, j: nat)
    requires Shape(s) && j < |s.filters| && FilterOk(s, j) && Enabled(cap, m, s, FilterExit(i))
    ensures FilterOk(After(cap, m, s, FilterExit(i)), j)
  {
  }

  lemma FilterExitKeepsInv(cap: nat, m: int, s: State, i: nat)
    requires Inv(m, s) && Enabled(cap, m, s, FilterExit(i))
    ensures Inv(m, After(cap, m, s, FilterExit(i)))
  {
    var t := After(cap, m, s, FilterExit(i));
    FilterLeavesEnds(cap, m, s, FilterExit(i));
    assert PipeOk(m, s, i) && FilterOk(s, i);
    forall j | 0 <= j < |t.pipes| ensures PipeOk(m, t, j) {
      ExitPipeOk(cap, m, s, i, j);
    }
    forall j | 0 <= j < |t.filters| ensures FilterOk(t, j) {
      ExitFilterOk(cap, m, s, i, j);
    }
  }

  lemma HeadKeepsInv(cap: nat, m: int, s: State, a: Action)
    requires Inv(m, s) && (a == HeadRead || a == HeadExit || a == Print) && Enabled(cap, m, s, a)
    ensures Inv(m, After(cap, m, s, a))
  {
    var t := After(cap, m, s, a);
    forall j | 0 <= j < |t.pipes| ensures PipeOk(m, t, j) {
      assert PipeOk(m, s, j);
    }
    forall j | 0 <= j < |t.filters| ensures FilterOk(t, j) {
      assert FilterOk(s, j);
    }
  }

  lemma ForkKeepsInv(cap: nat, m: int, s: State)
    requires Inv(m, s) && Enabled(cap, m, s, Fork)
    ensures Inv(m, After(cap, m, s, Fork))
  {
    var t, k := After(cap, m, s, Fork), |s.filters|;
    assert PipeOk(m, s, k);
    assert Stream(m, k)[0] in Stream(m, k);
    forall j | 0 <= j < |t.pipes| ensures PipeOk(m, t, j) {
      if j <= k { assert PipeOk(m, s, j); }
    }
    forall j | 0 <= j < |t.filters| ensures FilterOk(t, j) {
      if j < k { assert FilterOk(s, j); }
    }
  }

  lemma StepKeepsInv(cap: nat, m: int, s: State, a: Action)
    requires Inv(m, s) && Enabled(cap, m, s, a)
    ensures Inv(m, After(cap, m, s, a))
  {
    match a
    case Generate => GeneratorKeepsInv(cap, m, s, a);
    case GenExit => GeneratorKeepsInv(cap, m, s, a);
    case FilterRead(i) => FilterReadKeepsInv(cap, m, s, i);
    case FilterWrite(i) => FilterWriteKeepsInv(cap, m, s, i);
    case FilterExit(i) => FilterExitKeepsInv(cap, m, s, i);
    case Fork => ForkKeepsInv(cap, m, s);
    case _ => HeadKeepsInv(cap, m, s, a);
  }

  lemma {:induction false} RunKeepsInv(cap: nat, m: int, run: seq<State>, k: nat)
    requires IsRun(cap, m, run) && k < |run|
    ensures Inv(m, run[k])
  {
    if k == 0 {
    } else {
      RunKeepsInv(cap, m, run, k - 1);
      assert StepAt(cap, m, run, k);
      var a :| Enabled(cap, m, run[k - 1], a) && run[k] == After(cap, m, run[k - 1], a);
      StepKeepsInv(cap, m, run[k - 1], a);
    }
  }

  // ----- what is printed

  lemma PrintedIsHead(m: int, s: State, i: nat)
    requires Inv(m, s) && i < |s.printed|
    ensures IsHead(m, i, s.printed[i])
  {
    assert PipeOk(m, s, i);
    if i < |s.filters| {
      assert FilterOk(s, i);
    }
  }

  lemma PrintedAreHeads(m: int, s: State, j: nat)
    requires Inv(m, s) && j <= |s.printed|
    ensures Heads(m, j) == s.printed[..j]
  {
    forall i: nat | i < j ensures IsHead(m, i, s.printed[i]) {
      PrintedIsHead(m, s, i);
    }
    HeadsFrom(m, s.printed, j);
  }

  /* In every interleaving, at every moment, the program has printed the first few primes
     in increasing order; and once the printing process has exited it has printed exactly
     the primes up to the limit and forked one filter for each. */
  lemma PrintsThePrimes(cap: nat, m: int, run: seq<State>, k: nat)
    requires IsRun(cap, m, run) && k < |run|
    ensures run[k].printed <= PrimesUpTo(m)
    ensures run[k].head == Exited ==> run[k].printed == PrimesUpTo(m) && |run[k].filters| == |PrimesUpTo(m)|
    ensures |run[k].filters| <= |run[k].printed| <= |run[k].filters| + 1
  {
    var s := run[k];
    RunKeepsInv(cap, m, run, k);
    var n := |s.printed|;
    PrintedAreHeads(m, s, n);
    assert s.printed[..n] == s.printed;
    HeadsArePrimes(m, n);
    FrontierInRange(m, n);
    PrimesPrefix(Frontier(m, n), m);
    assert PipeOk(m, s, |s.filters|);
  }

  lemma FrontierInRange(m: int, j: nat)
    ensures Frontier(m, j) <= m
  {
    if Stream(m, j) != [] {
      assert Stream(m, j)[0] in Stream(m, j);
    }
  }

  // ----- pipes are bounded, and nothing but they make a process wait

  ghost predicate WithinCap(cap: nat, s: State) {
    Shape(s) && forall j :: 0 <= j < |s.pipes| ==> s.pipes[j].got <= |s.pipes[j].sent| <= s.pipes[j].got + cap
  }

  lemma StepStaysWithinCap(cap: nat, m: int, s: State, a: Action)
    requires WithinCap(cap, s) && Enabled(cap, m, s, a)
    ensures WithinCap(cap, After(cap, m, s, a))
  {
  }

  /* No pipe ever holds more than its capacity. */
  lemma {:induction false} PipesStayWithinCap(cap: nat, m: int, run: seq<State>, k: nat)
    requires IsRun(cap, m, run) && k < |run|
    ensures WithinCap(cap, run[k])
    ensures forall j :: 0 <= j < |run[k].pipes| ==> 0 <= |run[k].pipes[j].sent| - run[k].pipes[j].got <= cap
  {
    if k == 0 {
    } else {
      PipesStayWithinCap(cap, m, run, k - 1);
      assert StepAt(cap, m, run, k);
      var a :| Enabled(cap, m, run[k - 1], a) && run[k] == After(cap, m, run[k - 1], a);
      StepStaysWithinCap(cap, m, run[k - 1], a);
    }
  }

  /* The generator, while it lives, can act unless it has a number to write to a full pipe. */
  lemma GeneratorBlocked(cap: nat, m: int, s: State)
    requires Shape(s)
    ensures Enabled(cap, m, s, Generate) || Enabled(cap, m, s, GenExit) <==>
      !s.genDone && !(s.next <= m && |s.pipes[0].sent| - s.pipes[0].got >= cap)
  {
  }

  /* A filter that lives can act unless it has a number to write to a full pipe, or none
     and the pipe it reads is empty and its writer alive. */
  lemma FilterBlocked(cap: nat, m: int, run: seq<State>, k: nat, j: nat)
    requires IsRun(cap, m, run) && k < |run| && j < |run[k].filters|
    ensures Shape(run[k])
    ensures var s, p, q := run[k], run[k].pipes[j], run[k].pipes[j + 1];
      Enabled(cap, m, s, FilterRead(j)) || Enabled(cap, m, s, FilterWrite(j)) || Enabled(cap, m, s, FilterExit(j)) <==>
        && !s.filters[j].done
        && !(s.filters[j].pending != [] && |q.sent| - q.got >= cap)
        && !(s.filters[j].pending == [] && |p.sent| == p.got && !WriterDone(s, j))
  {
    RunKeepsInv(cap, m, run, k);
    assert FilterOk(run[k], j) && PipeOk(m, run[k], j);
  }

  /* The process that prints can act unless it is to read an empty pipe whose writer is
     alive, or has exited. */
  lemma HeadBlocked(cap: nat, m: int, run: seq<State>, k: nat)
    requires IsRun(cap, m, run) && k < |run|
    ensures Shape(run[k])
    ensures var s, n := run[k], |run[k].filters|;
      (forall a :: a == HeadRead || a == HeadExit || a == Print || a == Fork ==> !Enabled(cap, m, s, a)) <==>
        s.head == Exited || (s.head == Reading && |s.pipes[n].sent| == s.pipes[n].got && !WriterDone(s, n))
  {
    var s, n := run[k], |run[k].filters|;
    RunKeepsInv(cap, m, run, k);
    assert PipeOk(m, s, n);
    assert s.head.Printing? ==> Enabled(cap, m, s, Print);
    assert s.head.Forking? ==> Enabled(cap, m, s, Fork);
    assert s.head == Reading && CanRead(s, n) ==> Enabled(cap, m, s, HeadRead);
    assert s.head == Reading && AtEof(s, n) ==> Enabled(cap, m, s, HeadExit);
  }

  // ----- every run ends, and only where it should

  /* Upstream of an empty pipe whose writer is alive somebody can act. */
  lemma {:induction false} UpstreamCanAct(cap: nat, m: int, s: State, j: nat) returns (a: Action)
    requires cap >= 1 && Inv(m, s) && j < |s.pipes| && !WriterDone(s, j) && !CanRead(s, j)
    ensures Enabled(cap, m, s, a)
    decreases j
  {
    assert PipeOk(m, s, j);
    if j == 0 {
      a := if s.next <= m then Generate else GenExit;
    } else {
      var i := j - 1;
      assert PipeOk(m, s, i) && FilterOk(s, i);
      if s.filters[i].pending != [] {
        a := FilterWrite(i);
      } else if CanRead(s, i) {
        a := FilterRead(i);
      } else if WriterDone(s, i) {
        a := FilterExit(i);
      } else {
        a := UpstreamCanAct(cap, m, s, i);
      }
    }
  }

  lemma {:induction false} UpstreamDone(m: int, s: State, j: nat)
    requires Inv(m, s) && j < |s.pipes| && WriterDone(s, j)
    ensures s.genDone && forall i :: 0 <= i < j ==> s.filters[i].done
    decreases j
  {
    if j == 0 {
    } else {
      assert FilterOk(s, j - 1);
      UpstreamDone(m, s, j - 1);
    }
  }

  /* With pipes of any positive capacity, some process can act until all have exited. */
  lemma NoDeadlock(cap: nat, m: int, run: seq<State>, k: nat) returns (a: Action)
    requires cap >= 1 && IsRun(cap, m, run) && k < |run| && !Finished(run[k])
    ensures Enabled(cap, m, run[k], a)
  {
    var s := run[k];
    RunKeepsInv(cap, m, run, k);
    var n := |s.filters|;
    match s.head
    case Printing(_) => a := Print;
    case Forking(_) => a := Fork;
    case Exited =>
      UpstreamDone(m, s, n);
      assert false;
    case Reading =>
      if CanRead(s, n) {
        a := HeadRead;
      } else if WriterDone(s, n) {
        a := HeadExit;
      } else {
        a := UpstreamCanAct(cap, m, s, n);
      }
  }

  /* How often a pipe was written to or read from. */
  function Traffic(p: Pipe): (n: nat) { |p.sent| + p.got }

  function Exits(f: Filter): (n: nat) { B(f.done) }

  /* The number of steps a state has behind it. */
  function Age(s: State): (n: nat) {
    Total(Traffic, s.pipes) + Total(Exits, s.filters) + B(s.genDone) + B(s.head == Exited) + |s.printed| + |s.filters|
  }

  lemma StepAges(cap: nat, m: int, s: State, a: Action)
    requires Enabled(cap, m, s, a)
    ensures Age(After(cap, m, s, a)) == Age(s) + 1
  {
    var t, k := After(cap, m, s, a), |s.filters|;
    match a
    case Generate => TotalUpdate(Traffic, s.pipes, 0, t.pipes[0]);
    case GenExit =>
    case FilterRead(j) =>
      TotalUpdate(Traffic, s.pipes, j, t.pipes[j]);
      TotalUpdate(Exits, s.filters, j, t.filters[j]);
    case FilterWrite(j) =>
      TotalUpdate(Traffic, s.pipes, j + 1, t.pipes[j + 1]);
      TotalUpdate(Exits, s.filters, j, t.filters[j]);
    case FilterExit(j) => TotalUpdate(Exits, s.filters, j, t.filters[j]);
    case HeadRead => TotalUpdate(Traffic, s.pipes, k, t.pipes[k]);
    case HeadExit =>
    case Print =>
    case Fork =>
      TotalAppend(Traffic, s.pipes, Pipe([], 0));
      TotalAppend(Exits, s.filters, t.filters[k]);
  }

  lemma {:induction false} RunAge(cap: nat, m: int, run: seq<State>, k: nat)
    requires IsRun(cap, m, run) && k < |run|
    ensures Age(run[k]) == k
  {
    if k == 0 {
    } else {
      RunAge(cap, m, run, k - 1);
      assert StepAt(cap, m, run, k);
      var a :| Enabled(cap, m, run[k - 1], a) && run[k] == After(cap, m, run[k - 1], a);
      StepAges(cap, m, run[k - 1], a);
    }
  }

  /* Every run is finite: with `q` primes up to the limit it has at most this many steps. */
  function MaxSteps(m: int): (n: nat) {
    (2 * |UpTo(m)|) * (|PrimesUpTo(m)| + 1) + 3 * |PrimesUpTo(m)| + 2
  }

  lemma RunsEnd(cap: nat, m: int, run: seq<State>)
    requires IsRun(cap, m, run)
    ensures |run| - 1 <= MaxSteps(m)
  {
    var k := |run| - 1;
    RunKeepsInv(cap, m, run, k);
    RunAge(cap, m, run, k);
    PrintsThePrimes(cap, m, run, k);
    AgeBound(m, run[k]);
    MorePipes(2 * |UpTo(m)|, |run[k].pipes|, |PrimesUpTo(m)| + 1);
  }

  lemma AgeBound(m: int, s: State)
    requires Inv(m, s)
    ensures Age(s) <= (2 * |UpTo(m)|) * |s.pipes| + 2 * |s.filters| + |s.printed| + 2
  {
    forall j | 0 <= j < |s.pipes| ensures Traffic(s.pipes[j]) <= 2 * |UpTo(m)| {
      assert PipeOk(m, s, j);
      StreamIncreases(m, j);
    }
    TotalBound(Traffic, s.pipes, 2 * |UpTo(m)|);
    TotalBound(Exits, s.filters, 1);
  }

  lemma MorePipes(b: nat, x: nat, y: nat)
    requires x <= y
    ensures b * x <= b * y
  {
  }

  ghost predicate Stuck(cap: nat, m: int, s: State) {
    forall a :: !Enabled(cap, m, s, a)
  }

  /* A run that cannot go on has printed all the primes, and all its processes have exited. */
  lemma MaximalRunIsComplete(cap: nat, m: int, run: seq<State>)
    requires cap >= 1 && IsRun(cap, m, run)
    ensures Stuck(cap, m, run[|run| - 1]) <==> Finished(run[|run| - 1])
    ensures Finished(run[|run| - 1]) ==> run[|run| - 1].printed == PrimesUpTo(m)
  {
    var k := |run| - 1;
    PrintsThePrimes(cap, m, run, k);
    if !Finished(run[k]) {
      var a := NoDeadlock(cap, m, run, k);
    }
  }
}
