/** The dining philosophers with a footman: a semaphore that admits all but one of them.
    Each step of the model is one semaphore operation of one philosopher, and the steps
    interleave arbitrarily. */
module Philosophers {
  import opened Totals

  /* What a philosopher does next. The footman is posted before the forks are. */
  datatype Phase =
    | Think        // wait for the footman
    | WantRight    // wait for the right fork
    | WantLeft     // wait for the left fork
    | Eat          // post the footman
    | PutRight     // post the right fork
    | PutLeft      // post the left fork

  datatype State = State(footman: int, forks: seq<int>, pc: seq<Phase>)

  function Left(n: nat, i: nat): (l: nat)
    requires i < n
    ensures l < n
  {
    if i == 0 then n - 1 else i - 1
  }

  /* The philosopher whose left fork is `i`. */
  function RightNeighbour(n: nat, i: nat): (r: nat)
    requires i < n
    ensures r < n && Left(n, r) == i
  {
    if i == n - 1 then 0 else i + 1
  }

  predicate Init(n: nat, s: State) {
    s == State(n - 1, seq(n, _ => 1), seq(n, _ => Think))
  }

  predicate Shape(n: nat, s: State) {
    |s.forks| == n && |s.pc| == n
  }

  /* Philosopher `i` is not blocked on a semaphore. */
  predicate Enabled(n: nat, s: State, i: nat)
    requires Shape(n, s) && i < n
  {
    match s.pc[i]
    case Think => s.footman > 0
    case WantRight => s.forks[i] > 0
    case WantLeft => s.forks[Left(n, i)] > 0
    case _ => true
  }

  function After(n: nat, s: State, i: nat): (t: State)
    requires Shape(n, s) && i < n && Enabled(n, s, i)
    ensures Shape(n, t)
  {
    var l := Left(n, i);
    match s.pc[i]
    case Think => State(s.footman - 1, s.forks, s.pc[i := WantRight])
    case WantRight => State(s.footman, s.forks[i := s.forks[i] - 1], s.pc[i := WantLeft])
    case WantLeft => State(s.footman, s.forks[l := s.forks[l] - 1], s.pc[i := Eat])
    case Eat => State(s.footman + 1, s.forks, s.pc[i := PutRight])
    case PutRight => State(s.footman, s.forks[i := s.forks[i] + 1], s.pc[i := PutLeft])
    case PutLeft => State(s.footman, s.forks[l := s.forks[l] + 1], s.pc[i := Think])
  }

  ghost predicate Next(n: nat, s: State, t: State) {
    Shape(n, s) && exists i :: 0 <= i < n && Enabled(n, s, i) && t == After(n, s, i)
  }

  ghost predicate IsRun(n: nat, run: seq<State>) {
    && |run| > 0 && Init(n, run[0])
    && forall k :: 0 < k < |run| ==> StepAt(n, run, k)
  }

  ghost predicate StepAt(n: nat, run: seq<State>, k: nat)
    requires 0 < k < |run|
  {
    Next(n, run[k - 1], run[k])
  }

  // ----- the invariant

  predicate HoldsRight(p: Phase) { p == WantLeft || p == Eat || p == PutRight }

  predicate HoldsLeft(p: Phase) { p == Eat || p == PutRight || p == PutLeft }

  /* 1 between the wait for the footman and its post. */
  function Admitted(p: Phase): (k: nat) {
    if p == WantRight || p == WantLeft || p == Eat then 1 else 0
  }

  function Holders(n: nat, s: State, f: nat): (k: nat)
    requires Shape(n, s) && f < n
  {
    (if HoldsRight(s.pc[f]) then 1 else 0) + (if HoldsLeft(s.pc[RightNeighbour(n, f)]) then 1 else 0)
  }

  /* Each fork is on the table or held by one philosopher; the footman has counted those
     he admitted; and some philosopher holds no fork. */
  ghost predicate Inv(n: nat, s: State) {
    && n >= 2 && Shape(n, s)
    && (forall f :: 0 <= f < n ==> s.forks[f] >= 0 && s.forks[f] + Holders(n, s, f) == 1)
    && s.footman >= 0 && s.footman + Total(Admitted, s.pc) == n - 1
    && exists i :: 0 <= i < n && !HoldsRight(s.pc[i]) && !HoldsLeft(s.pc[i])
  }

  lemma {:induction false} AllThink(pc: seq<Phase>)
    requires forall i :: 0 <= i < |pc| ==> pc[i] == Think
    ensures Total(Admitted, pc) == 0
  {
    if pc == [] {
    } else {
      AllThink(pc[1..]);
    }
  }

  lemma InitInv(n: nat, s: State)
    requires n >= 2 && Init(n, s)
    ensures Inv(n, s)
  {
    AllThink(s.pc);
    assert s.pc[0] == Think;
  }

  lemma StepKeepsForks(n: nat, s: State, i: nat, f: nat)
    requires Inv(n, s) && i < n && Enabled(n, s, i) && f < n
    ensures var t := After(n, s, i); t.forks[f] >= 0 && t.forks[f] + Holders(n, t, f) == 1
  {
    assert RightNeighbour(n, Left(n, i)) == i;
    assert s.forks[f] + Holders(n, s, f) == 1;
  }

  // ----- some philosopher holds no fork

  ghost predicate ForksOk(n: nat, s: State) {
    Shape(n, s) && forall f :: 0 <= f < n ==> s.forks[f] >= 0 && s.forks[f] + Holders(n, s, f) == 1
  }

  ghost predicate AllHold(n: nat, s: State) {
    Shape(n, s) && forall i :: 0 <= i < n ==> HoldsRight(s.pc[i]) || HoldsLeft(s.pc[i])
  }

  /* When everyone holds a fork, whoever holds a left fork passes that on to the left. */
  lemma {:induction false} LeftForksDownwards(n: nat, s: State, j: nat, i: nat)
    requires n >= 2 && ForksOk(n, s) && AllHold(n, s) && i <= j < n && HoldsLeft(s.pc[j])
    ensures HoldsLeft(s.pc[i])
    decreases j - i
  {
    if i >= j {
    } else {
      assert s.forks[j - 1] + Holders(n, s, j - 1) == 1;
      LeftForksDownwards(n, s, j - 1, i);
    }
  }

  /* All around the ring, everyone then holds just the left fork, or everyone just the
     right one. */
  lemma AllHoldAlike(n: nat, s: State)
    requires n >= 2 && ForksOk(n, s) && AllHold(n, s)
    ensures (forall i :: 0 <= i < n ==> s.pc[i] == PutLeft) || (forall i :: 0 <= i < n ==> s.pc[i] == WantLeft)
  {
    if j :| 0 <= j < n && HoldsLeft(s.pc[j]) {
      LeftForksDownwards(n, s, j, 0);
      assert s.forks[n - 1] + Holders(n, s, n - 1) == 1;
      forall i | 0 <= i < n ensures s.pc[i] == PutLeft {
        LeftForksDownwards(n, s, n - 1, i);
        LeftForksDownwards(n, s, n - 1, RightNeighbour(n, i));
        assert s.forks[i] + Holders(n, s, i) == 1;
      }
    }
  }

  lemma StepLeavesOneIdle(n: nat, s: State, i: nat)
    requires Inv(n, s) && i < n && Enabled(n, s, i)
    requires var t := After(n, s, i); ForksOk(n, t) && Total(Admitted, t.pc) < n
    ensures var t := After(n, s, i); exists j :: 0 <= j < n && !HoldsRight(t.pc[j]) && !HoldsLeft(t.pc[j])
  {
    var t := After(n, s, i);
    TotalBelow(Admitted, t.pc);
    var j :| 0 <= j < n && Admitted(t.pc[j]) == 0;
    assert t.pc[j] != WantLeft;
    assert t.pc[i] == PutLeft ==> s.pc[i] == PutRight;
    var r := RightNeighbour(n, i);
    assert r != i && t.pc[r] == s.pc[r];
    assert s.forks[i] + Holders(n, s, i) == 1;
    if AllHold(n, t) {
      AllHoldAlike(n, t);
      assert false;
    }
  }

  lemma StepKeepsInv(n: nat, s: State, i: nat)
    requires Inv(n, s) && i < n && Enabled(n, s, i)
    ensures Inv(n, After(n, s, i))
  {
    var t := After(n, s, i);
    TotalUpdate(Admitted, s.pc, i, t.pc[i]);
    forall f | 0 <= f < n ensures t.forks[f] >= 0 && t.forks[f] + Holders(n, t, f) == 1 {
      StepKeepsForks(n, s, i, f);
    }
    StepLeavesOneIdle(n, s, i);
  }

  lemma {:induction false} RunKeepsInv(n: nat, run: seq<State>, k: nat)
    requires n >= 2 && IsRun(n, run) && k < |run|
    ensures Inv(n, run[k])
  {
    if k == 0 {
      InitInv(n, run[0]);
    } else {
      RunKeepsInv(n, run, k - 1);
      assert StepAt(n, run, k);
      var i :| 0 <= i < n && Enabled(n, run[k - 1], i) && run[k] == After(n, run[k - 1], i);
      StepKeepsInv(n, run[k - 1], i);
    }
  }

  // ----- the main results, over every run

  /* A fork is on the table or held once: two neighbours never eat at the same time, nor
     hold their common fork together. */
  lemma NeighboursExclude(n: nat, run: seq<State>, k: nat, i: nat)
    requires n >= 2 && IsRun(n, run) && k < |run| && i < n
    ensures Shape(n, run[k]) && run[k].forks[i] >= 0 && run[k].forks[i] + Holders(n, run[k], i) == 1
    ensures !(HoldsRight(run[k].pc[i]) && HoldsLeft(run[k].pc[RightNeighbour(n, i)]))
    ensures !(run[k].pc[i] == Eat && run[k].pc[RightNeighbour(n, i)] == Eat)
  {
    RunKeepsInv(n, run, k);
    assert run[k].forks[i] + Holders(n, run[k], i) == 1;
  }

  /* At most n - 1 philosophers are between the footman's wait and his post, and although
     he is posted before the forks are, never do all of them hold a fork. */
  lemma FootmanAdmitsAllButOne(n: nat, run: seq<State>, k: nat)
    requires n >= 2 && IsRun(n, run) && k < |run|
    ensures 0 <= run[k].footman == n - 1 - Total(Admitted, run[k].pc) && !AllHold(n, run[k])
  {
    RunKeepsInv(n, run, k);
  }

  /* In every reachable state some philosopher can go on. */
  lemma NoDeadlock(n: nat, run: seq<State>, k: nat)
    requires n >= 2 && IsRun(n, run) && k < |run|
    ensures Shape(n, run[k]) && exists i :: 0 <= i < n && Enabled(n, run[k], i)
  {
    RunKeepsInv(n, run, k);
    var i := CanGoOn(n, run[k]);
  }

  lemma CanGoOn(n: nat, s: State) returns (i: nat)
    requires Inv(n, s)
    ensures i < n && Enabled(n, s, i)
  {
    if j :| 0 <= j < n && (s.pc[j] == Eat || s.pc[j] == PutRight || s.pc[j] == PutLeft) {
      i := j;
    } else if j :| 0 <= j < n && s.pc[j] == WantRight {
      i := j;
      assert s.forks[i] + Holders(n, s, i) == 1;
    } else {
      i :| 0 <= i < n && s.pc[i] == Think;
      if s.footman == 0 {
        var r := RightNeighbour(n, i);
        assert s.forks[i] + Holders(n, s, i) == 1;
        if s.pc[r] == Think {
          TotalBelowByTwo(Admitted, s.pc, if i < r then i else r, if i < r then r else i);
        }
        i := r;
      }
    }
  }

  /* A philosopher is blocked only by those who have what he waits for: at the footman when
     all others but one are admitted, at a fork when his neighbour holds it. */
  lemma BlockedByHoldersOnly(n: nat, run: seq<State>, k: nat, i: nat)
    requires n >= 2 && IsRun(n, run) && k < |run| && i < n
    ensures Shape(n, run[k])
    ensures var pc := run[k].pc;
      var r, l := pc[if i == n - 1 then 0 else i + 1], pc[if i == 0 then n - 1 else i - 1];
      !Enabled(n, run[k], i) <==>
        || (pc[i] == Think && Total(Admitted, pc) == n - 1)
        || (pc[i] == WantRight && (r == Eat || r == PutRight || r == PutLeft))
        || (pc[i] == WantLeft && (l == WantLeft || l == Eat || l == PutRight))
  {
    RunKeepsInv(n, run, k);
    assert run[k].forks[i] + Holders(n, run[k], i) == 1;
    assert run[k].forks[Left(n, i)] + Holders(n, run[k], Left(n, i)) == 1;
  }

  /* The semaphore operations of one philosopher, in their order. */
  lemma Operations(n: nat, s: State, i: nat)
    requires Shape(n, s) && i < n && Enabled(n, s, i)
    ensures var t, l := After(n, s, i), if i == 0 then n - 1 else i - 1;
      && t.pc == s.pc[i := match s.pc[i]
           case Think => WantRight case WantRight => WantLeft case WantLeft => Eat
           case Eat => PutRight case PutRight => PutLeft case PutLeft => Think]
      && t.footman == s.footman + (if s.pc[i] == Think then -1 else if s.pc[i] == Eat then 1 else 0)
      && forall f :: 0 <= f < n ==>
           t.forks[f] == s.forks[f]
           - (if (s.pc[i] == WantRight && f == i) || (s.pc[i] == WantLeft && f == l) then 1 else 0)
           + (if (s.pc[i] == PutRight && f == i) || (s.pc[i] == PutLeft && f == l) then 1 else 0)
  {
  }

  /* Left alone, a philosopher who is admitted and whose forks are on the table is eating
     after three steps of his own, ... */
  lemma SitsDownAlone(n: nat, s: State, i: nat) returns (run: seq<State>)
    requires n >= 2 && Shape(n, s) && i < n && s.pc[i] == Think && s.footman > 0
    requires s.forks[i] > 0 && s.forks[if i == 0 then n - 1 else i - 1] > 0
    ensures |run| == 4 && run[0] == s && Shape(n, run[3]) && run[3].pc == s.pc[i := Eat]
    ensures forall k :: 0 <= k < 3 ==> Shape(n, run[k]) && Enabled(n, run[k], i) && run[k + 1] == After(n, run[k], i)
  {
    var s1 := After(n, s, i);
    var s2 := After(n, s1, i);
    var s3 := After(n, s2, i);
    run := [s, s1, s2, s3];
  }

  /* ... and one who eats is thinking again after three more. */
  lemma GetsUpAlone(n: nat, s: State, i: nat) returns (run: seq<State>)
    requires Shape(n, s) && i < n && s.pc[i] == Eat
    ensures |run| == 4 && run[0] == s && Shape(n, run[3]) && run[3].pc == s.pc[i := Think]
    ensures forall k :: 0 <= k < 3 ==> Shape(n, run[k]) && Enabled(n, run[k], i) && run[k + 1] == After(n, run[k], i)
  {
    var s1 := After(n, s, i);
    var s2 := After(n, s1, i);
    var s3 := After(n, s2, i);
    run := [s, s1, s2, s3];
  }

  /* With a single philosopher the footman admits nobody: the condition n >= 2 is exact. */
  lemma OneAloneIsStuck(s: State)
    requires Init(1, s)
    ensures Shape(1, s) && !Enabled(1, s, 0)
  {
  }

  // ----- someone eats again and again

  /* How many steps of its own a philosopher is away from eating. */
  function Distance(p: Phase): (d: nat) {
    match p
    case WantLeft => 0
    case WantRight => 1
    case Think => 2
    case PutLeft => 3
    case PutRight => 4
    case Eat => 5
  }

  /* In step `k` of the run some philosopher takes his second fork. */
  ghost predicate SitsDown(n: nat, run: seq<State>, k: nat) {
    && 0 < k < |run| && Shape(n, run[k - 1]) && Shape(n, run[k])
    && exists i :: 0 <= i < n && run[k - 1].pc[i] == WantLeft && run[k].pc[i] == Eat
  }

  /* A step that does not start a meal brings a philosopher nearer to one. */
  lemma StepComesNearer(n: nat, s: State, i: nat, t: State)
    requires Shape(n, s) && i < n && Enabled(n, s, i) && t == After(n, s, i)
    requires !(s.pc[i] == WantLeft && t.pc[i] == Eat)
    ensures Total(Distance, t.pc) + 1 <= Total(Distance, s.pc)
  {
    TotalUpdate(Distance, s.pc, i, t.pc[i]);
  }

  lemma {:induction false} NobodySatDown(n: nat, run: seq<State>, a: nat, m: nat)
    requires n >= 2 && IsRun(n, run) && a + m < |run|
    requires forall k :: a < k <= a + m ==> !SitsDown(n, run, k)
    ensures Total(Distance, run[a + m].pc) + m <= Total(Distance, run[a].pc)
  {
    if m == 0 {
    } else {
      NobodySatDown(n, run, a, m - 1);
      var s, t := run[a + m - 1], run[a + m];
      RunKeepsInv(n, run, a + m - 1);
      assert StepAt(n, run, a + m) && !SitsDown(n, run, a + m);
      var i :| 0 <= i < n && Enabled(n, s, i) && t == After(n, s, i);
      StepComesNearer(n, s, i, t);
    }
  }

  /* Among any 5n + 1 consecutive steps of any run, some philosopher starts to eat. */
  lemma SomeoneEats(n: nat, run: seq<State>, a: nat)
    requires n >= 2 && IsRun(n, run) && a + 5 * n + 1 < |run|
    ensures exists k :: a < k <= a + 5 * n + 1 && SitsDown(n, run, k)
  {
    if forall k :: a < k <= a + (5 * n + 1) ==> !SitsDown(n, run, k) {
      NobodySatDown(n, run, a, 5 * n + 1);
      RunKeepsInv(n, run, a);
      TotalBound(Distance, run[a].pc, 5);
      assert false;
    }
  }
}
