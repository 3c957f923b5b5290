/** The fork-join sort: calls on large ranges run in child processes that share the table.
    The state of all processes is a tree of calls; one step is one action of one process,
    and the steps of processes that run at the same time interleave arbitrarily. */
module ForkSort {
  import opened SortSpec
  import opened HybridSort
  import opened Totals

  const FORKSORT_MIN := 262144

  datatype Task =
    /* QuickSort(l, r) is about to run; in a new process if the range is large */
    | Call(l: nat, r: nat)
    /* InsertionSort is about to insert the element at `p` */
    | Insert(l: nat, r: nat, p: nat)
    /* Partition around the value `pv` of the element at `idx` has come to `lo` and `hi` */
    | Part(l: nat, r: nat, lo: nat, hi: nat, pv: int, idx: nat)
    /* two calls on the parts; `reaped` children have been waited for */
    | Both(l: nat, m: nat, r: nat, a: Task, b: Task, reaped: nat)
    /* returned, or exited if it was a process of its own */
    | Done(l: nat, r: nat)

  /* A call forks exactly when its range is large. */
  predicate Forks(t: Task) {
    t.r - t.l > FORKSORT_MIN
  }

  /* The caller of `t` goes on: at once if it forked, else when the call has returned. */
  predicate Returned(t: Task) {
    t.Done? || Forks(t)
  }

  /* How many children a call has forked for its parts, and how many have exited. */
  function Children(a: Task, b: Task): (n: nat) {
    B(Forks(a)) + B(Forks(b))
  }

  function ExitedChildren(a: Task, b: Task): (n: nat) {
    B(Forks(a) && a.Done?) + B(Forks(b) && b.Done?)
  }

  /* The next state of a call that has partitioned its range around `pv`. */
  function Split(t: Task): (u: Task)
    requires t.Part? && t.l <= t.lo
  {
    if t.lo == t.l then Both(t.l, t.l + 1, t.r, Done(t.l, t.l), Call(t.l + 1, t.r), 0)
    else Both(t.l, t.lo, t.r, Call(t.l, t.lo - 1), Call(t.lo, t.r), 0)
  }

  ghost predicate Started(s: seq<int>, t: Task, u: Task)
    requires t.Call?
  {
    if t.l >= t.r then u == Done(t.l, t.r)
    else if t.r - t.l <= INSERTSORT_MAX then u == Insert(t.l, t.r, t.l + 1)
    else u.Part? && t.l <= u.idx <= t.r && u.idx < |s| && u == Part(t.l, t.r, t.l, t.r, s[u.idx], u.idx)
  }

  ghost predicate PartStep(s: seq<int>, t: Task, s': seq<int>, u: Task)
    requires t.Part?
  {
    && t.l <= t.lo <= t.hi < |s| && t.idx < |s|
    && if t.lo == t.hi then
         u == Split(t) && s' == if t.lo == t.l then Swap(s, t.l, t.idx) else s
       else if s[t.lo] < t.pv then s' == s && u == t.(lo := t.lo + 1)
       else if s[t.hi] >= t.pv then s' == s && u == t.(hi := t.hi - 1)
       else s' == Swap(s, t.lo, t.hi) && u == t
  }

  /* One action of one of the processes in the tree `t`, on the shared table `s`. */
  ghost predicate Step(s: seq<int>, t: Task, s': seq<int>, u: Task)
    decreases t
  {
    match t
    case Call(_, _) => s' == s && Started(s, t, u)
    case Insert(l, r, p) =>
      if p > r then s' == s && u == Done(l, r)
      else l <= p < |s| && s' == Inserted(s, l, p) && u == Insert(l, r, p + 1)
    case Part(_, _, _, _, _, _) => PartStep(s, t, s', u)
    case Both(l, m, r, a, b, reaped) =>
      || (u.Both? && u == t.(a := u.a) && Step(s, a, s', u.a))
      || (u.Both? && u == t.(b := u.b) && Returned(a) && Step(s, b, s', u.b))
      || (Reaps(t) && s' == s && u == t.(reaped := reaped + 1))
      || (Returned(a) && Returned(b) && reaped == Children(a, b) && s' == s && u == Done(l, r))
    case Done(_, _) => false
  }

  /* A waitpid for any child returns: some child has exited and was not waited for. */
  predicate Reaps(t: Task)
    requires t.Both?
  {
    && Returned(t.a) && Returned(t.b)
    && t.reaped < Children(t.a, t.b) && t.reaped < ExitedChildren(t.a, t.b)
  }

  // ----- the invariant

  ghost predicate Ok(s: seq<int>, t: Task)
    decreases t
  {
    && t.l <= t.r < |s|
    && match t
       case Call(l, r) => true
       case Insert(l, r, p) => l < p <= r + 1 && Sorted(s, l, p)
       case Part(l, r, lo, hi, pv, idx) =>
         && l < r && idx <= r && Partitioning(s, l, r, lo, hi, pv) && PivotKept(s, l, lo, pv, idx)
       case Both(l, m, r, a, b, reaped) =>
         && l < m <= r && a.l == l && a.r == m - 1 && b.l == m && b.r == r
         && Ok(s, a) && Ok(s, b) && Ordered(s, l, m, r + 1)
         && reaped <= ExitedChildren(a, b)
       case Done(l, r) => Sorted(s, l, r + 1)
  }

  /* The invariant of a call looks only at its own range of the table. */
  lemma {:induction false} OkLocal(s: seq<int>, s': seq<int>, t: Task)
    requires Ok(s, t) && |s'| == |s| && forall i :: t.l <= i <= t.r ==> s'[i] == s[i]
    ensures Ok(s', t)
    decreases t
  {
    match t
    case Call(_, _) =>
    case Insert(l, r, p) => SortedKept(s, s', l, p);
    case Part(l, r, lo, hi, pv, idx) =>
      var w :| lo <= w <= hi && s[w] >= pv;
      assert s'[w] >= pv;
    case Both(l, m, r, a, b, reaped) =>
      OkLocal(s, s', a);
      OkLocal(s, s', b);
      OrderedSame(s, s', l, m, r + 1);
    case Done(l, r) => SortedKept(s, s', l, r + 1);
  }

  /* A step keeps the invariant and only reorders the range of its call. */
  ghost predicate Good(s: seq<int>, t: Task, s': seq<int>, u: Task)
    requires t.l <= t.r < |s|
  {
    Ok(s', u) && u.l == t.l && u.r == t.r && Permuted(s, s', t.l, t.r + 1)
  }

  lemma CallGood(s: seq<int>, t: Task, s': seq<int>, u: Task)
    requires Ok(s, t) && t.Call? && Step(s, t, s', u)
    ensures Good(s, t, s', u)
  {
  }

  lemma InsertGood(s: seq<int>, t: Task, s': seq<int>, u: Task)
    requires Ok(s, t) && t.Insert? && t.p <= t.r && Step(s, t, s', u)
    ensures Good(s, t, s', u)
  {
    InsertedInRange(s, t.l, t.p, t.r + 1);
  }

  lemma InsertedAllGood(s: seq<int>, t: Task, s': seq<int>, u: Task)
    requires Ok(s, t) && t.Insert? && t.p > t.r && Step(s, t, s', u)
    ensures Good(s, t, s', u)
  {
    PermutedRefl(s, t.l, t.r + 1);
  }

  lemma BothOk(s: seq<int>, t: Task)
    requires t.Both? && t.l < t.m <= t.r < |s| && Ordered(s, t.l, t.m, t.r + 1)
    requires t.a.l == t.l && t.a.r == t.m - 1 && t.b.l == t.m && t.b.r == t.r && Ok(s, t.a) && Ok(s, t.b)
    requires t.reaped <= ExitedChildren(t.a, t.b)
    ensures Ok(s, t)
  {
  }

  lemma SplitOffGood(s: seq<int>, t: Task)
    requires Ok(s, t) && t.Part? && t.l == t.lo == t.hi
    ensures Good(s, t, Swap(s, t.l, t.idx), Split(t))
  {
    var s' := Swap(s, t.l, t.idx);
    LeastToFront(s, t.l, t.r, t.pv, t.idx);
    assert Sorted(s', t.l, t.l + 1);
    BothOk(s', Split(t));
  }

  lemma SplitInTwoGood(s: seq<int>, t: Task)
    requires Ok(s, t) && t.Part? && t.l < t.lo == t.hi
    ensures Good(s, t, s, Split(t))
  {
    PartitionEnds(s, t.l, t.r, t.lo, t.pv);
    PermutedRefl(s, t.l, t.r + 1);
  }

  lemma ScanGood(s: seq<int>, t: Task, s': seq<int>, u: Task)
    requires Ok(s, t) && t.Part? && t.lo < t.hi && (s[t.lo] < t.pv || s[t.hi] >= t.pv) && Step(s, t, s', u)
    ensures Good(s, t, s', u)
  {
  }

  lemma SwapGood(s: seq<int>, t: Task, s': seq<int>, u: Task)
    requires Ok(s, t) && t.Part? && t.lo < t.hi && s[t.lo] >= t.pv && s[t.hi] < t.pv && Step(s, t, s', u)
    ensures Good(s, t, s', u)
  {
    assert s' == Swap(s, t.lo, t.hi) && u == t;
    PartitionSwap(s, t.l, t.r, t.lo, t.hi, t.pv);
  }

  /* What a step in one part means for the whole range. */
  lemma PartFrame(s: seq<int>, s': seq<int>, l: nat, m: nat, r: nat, lo: nat, hi: nat)
    requires l < m <= r < |s| && Ordered(s, l, m, r + 1) && Permuted(s, s', lo, hi)
    requires (lo == l && hi == m) || (lo == m && hi == r + 1)
    ensures Permuted(s, s', l, r + 1) && Ordered(s', l, m, r + 1)
  {
    PermutedWiden(s, s', lo, hi, l, r + 1);
    OrderedKept(s, s', l, m, r + 1);
  }

  /* The other part is not touched. */
  lemma SiblingOk(s: seq<int>, s': seq<int>, t: Task, lo: nat, hi: nat)
    requires Ok(s, t) && Permuted(s, s', lo, hi) && (hi <= t.l || t.r < lo)
    ensures Ok(s', t)
  {
    OkLocal(s, s', t);
  }

  lemma LeftGood(s: seq<int>, t: Task, s': seq<int>, a: Task)
    requires Ok(s, t) && t.Both? && Good(s, t.a, s', a)
    requires Forks(a) && t.a.Done? ==> a.Done?
    ensures Good(s, t, s', t.(a := a))
  {
    assert t.a.r + 1 == t.m;
    assert Permuted(s, s', t.l, t.r + 1) && Ordered(s', t.l, t.m, t.r + 1) by {
      PartFrame(s, s', t.l, t.m, t.r, t.l, t.m);
    }
    assert Ok(s', t.b) by {
      SiblingOk(s, s', t.b, t.l, t.m);
    }
    BothOk(s', t.(a := a));
  }

  lemma RightGood(s: seq<int>, t: Task, s': seq<int>, b: Task)
    requires Ok(s, t) && t.Both? && Good(s, t.b, s', b)
    requires Forks(b) && t.b.Done? ==> b.Done?
    ensures Good(s, t, s', t.(b := b))
  {
    PartFrame(s, s', t.l, t.m, t.r, t.m, t.r + 1);
    RightOk(s, t, s', b);
  }

  lemma RightOk(s: seq<int>, t: Task, s': seq<int>, b: Task)
    requires Ok(s, t) && t.Both? && Ok(s', b) && b.l == t.m && b.r == t.r
    requires Permuted(s, s', t.m, t.r + 1) && Ordered(s', t.l, t.m, t.r + 1)
    requires Forks(b) && t.b.Done? ==> b.Done?
    ensures Ok(s', t.(b := b))
  {
    SiblingOk(s, s', t.a, t.m, t.r + 1);
    BothOk(s', t.(b := b));
  }

  /* When all children have been waited for, all of them have exited. */
  lemma JoinGood(s: seq<int>, t: Task)
    requires Ok(s, t) && t.Both? && Returned(t.a) && Returned(t.b) && t.reaped == Children(t.a, t.b)
    ensures t.a.Done? && t.b.Done? && Sorted(s, t.l, t.r + 1)
  {
  }

  lemma {:induction false} StepGood(s: seq<int>, t: Task, s': seq<int>, u: Task)
    requires Ok(s, t) && Step(s, t, s', u)
    ensures Good(s, t, s', u)
    decreases t
  {
    match t
    case Call(_, _) => CallGood(s, t, s', u);
    case Insert(_, r, p) => if p > r { InsertedAllGood(s, t, s', u); } else { InsertGood(s, t, s', u); }
    case Part(_, _, lo, hi, pv, _) =>
      if t.l < lo == hi {
        SplitInTwoGood(s, t);
      } else if lo == hi {
        SplitOffGood(s, t);
      } else if s[lo] < pv || s[hi] >= pv {
        ScanGood(s, t, s', u);
      } else {
        SwapGood(s, t, s', u);
      }
    case Both(l, m, r, a, b, reaped) =>
      PermutedRefl(s, l, r + 1);
      if u.Both? && u == t.(a := u.a) && Step(s, a, s', u.a) {
        StepGood(s, a, s', u.a);
        LeftGood(s, t, s', u.a);
      } else if u.Both? && u == t.(b := u.b) && Returned(a) && Step(s, b, s', u.b) {
        StepGood(s, b, s', u.b);
        RightGood(s, t, s', u.b);
      } else if u.Done? {
        JoinGood(s, t);
      }
    case Done(_, _) => assert false;
  }

  /* A call that forked always reaches the exit at the end of the partition branch. */
  lemma ForkedCallPartitions(s: seq<int>, t: Task, s': seq<int>, u: Task)
    requires t.Call? && Forks(t) && Step(s, t, s', u)
    ensures u.Part?
  {
  }

  /* The children that the process running call `t` has forked, for its own parts and for
     those of the calls it runs inline. */
  function ForkedBy(t: Task): (ts: seq<Task>)
    decreases t
  {
    match t
    case Both(_, _, _, a, b, _) =>
      (if Forks(a) then [a] else ForkedBy(a)) + (if Forks(b) then [b] else ForkedBy(b))
    case _ => []
  }

  function ForkedParts(t: Task): (ts: seq<Task>)
    requires t.Both?
  {
    (if Forks(t.a) then [t.a] else []) + (if Forks(t.b) then [t.b] else [])
  }

  function Subtasks(t: Task): (ts: set<Task>)
    decreases t
  {
    {t} + if t.Both? then Subtasks(t.a) + Subtasks(t.b) else {}
  }

  lemma {:induction false} SubtaskOk(s: seq<int>, t: Task, u: Task)
    requires Ok(s, t) && u in Subtasks(t)
    ensures Ok(s, u)
    decreases t
  {
    if t == u {
    } else if u in Subtasks(t.a) {
      SubtaskOk(s, t.a, u);
    } else {
      SubtaskOk(s, t.b, u);
    }
  }

  /* A call that did not fork has no children, however deep it goes, and never waits. */
  lemma {:induction false} InlineCallsNeverWait(s: seq<int>, t: Task)
    requires Ok(s, t) && !Forks(t)
    ensures ForkedBy(t) == []
    ensures t.Both? ==> Children(t.a, t.b) == 0 && !Reaps(t)
    decreases t
  {
    if !t.Both? {
    } else {
      InlineCallsNeverWait(s, t.a);
      InlineCallsNeverWait(s, t.b);
    }
  }

  // ----- what a call may do, and what runs beside it

  /* Nothing is done on an empty or single range, insertion sort on up to 33 elements, and
     on more of them a partition around any element of the range. */
  lemma FirstAction(s: seq<int>, l: nat, r: nat, idx: nat)
    requires l <= r < |s| && l <= idx <= r
    ensures l == r ==> forall u :: Step(s, Call(l, r), s, u) <==> u == Done(l, r)
    ensures l < r && r - l + 1 <= 33 ==> forall u :: Step(s, Call(l, r), s, u) <==> u == Insert(l, r, l + 1)
    ensures r - l + 1 > 33 ==>
      && Step(s, Call(l, r), s, Part(l, r, l, r, s[idx], idx))
      && forall u :: Step(s, Call(l, r), s, u) ==> u.Part? && u.l == l && u.r == r
  {
  }

  /* A call forks exactly on more than 262145 elements, and then its caller goes on: the
     second part can act as soon as the first has returned or was forked, and not before. */
  lemma PartsOverlap(s: seq<int>, t: Task, s': seq<int>, b: Task)
    requires Ok(s, t) && t.Both? && Step(s, t.b, s', b) && b != t.b
    ensures Step(s, t, s', t.(b := b)) <==> t.a.Done? || t.a.r - t.a.l + 1 > 262145
  {
  }

  /* The first part is never held up. */
  lemma FirstPartRuns(s: seq<int>, t: Task, s': seq<int>, a: Task)
    requires t.Both? && Step(s, t.a, s', a)
    ensures Step(s, t, s', t.(a := a))
  {
  }

  /* A call returns, or its process exits, only when it has waited once for each part it
     forked, and no wait returns before a child that was not waited for has exited. */
  lemma ReturnsAfterWaits(s: seq<int>, t: Task, s': seq<int>, u: Task)
    requires Ok(s, t) && t.Both? && Step(s, t, s', u)
    ensures u.Done? ==>
      && t.a.Done? && t.b.Done? && s' == s
      && t.reaped == (if t.a.r - t.a.l + 1 > 262145 then 1 else 0) + (if t.b.r - t.b.l + 1 > 262145 then 1 else 0)
    ensures u.Both? && u.reaped != t.reaped ==>
      && u.reaped == t.reaped + 1
      && u.reaped <= (if t.a.r - t.a.l + 1 > 262145 && t.a.Done? then 1 else 0)
                   + (if t.b.r - t.b.l + 1 > 262145 && t.b.Done? then 1 else 0)
  {
  }

  // ----- somebody can always act

  lemma CallActs(s: seq<int>, t: Task) returns (u: Task)
    requires Ok(s, t) && t.Call?
    ensures Step(s, t, s, u)
  {
    if t.l >= t.r {
      u := Done(t.l, t.r);
    } else if t.r - t.l <= INSERTSORT_MAX {
      u := Insert(t.l, t.r, t.l + 1);
    } else {
      u := Part(t.l, t.r, t.l, t.r, s[t.l], t.l);
    }
  }

  lemma PartActs(s: seq<int>, t: Task) returns (s': seq<int>, u: Task)
    requires Ok(s, t) && t.Part?
    ensures Step(s, t, s', u)
  {
    if t.lo == t.hi {
      s', u := if t.lo == t.l then Swap(s, t.l, t.idx) else s, Split(t);
    } else if s[t.lo] < t.pv {
      s', u := s, t.(lo := t.lo + 1);
    } else if s[t.hi] >= t.pv {
      s', u := s, t.(hi := t.hi - 1);
    } else {
      s', u := Swap(s, t.lo, t.hi), t;
    }
  }

  lemma {:induction false} CanAct(s: seq<int>, t: Task) returns (s': seq<int>, u: Task)
    requires Ok(s, t) && !t.Done?
    ensures Step(s, t, s', u)
    decreases t
  {
    s' := s;
    match t
    case Call(_, _) => u := CallActs(s, t);
    case Insert(l, r, p) =>
      if p > r { u := Done(l, r); } else { s', u := Inserted(s, l, p), Insert(l, r, p + 1); }
    case Part(_, _, _, _, _, _) => s', u := PartActs(s, t);
    case Both(l, m, r, a, b, reaped) =>
      if !a.Done? {
        var a';
        s', a' := CanAct(s, a);
        u := t.(a := a');
      } else if !b.Done? {
        var b';
        s', b' := CanAct(s, b);
        u := t.(b := b');
      } else if reaped < Children(a, b) {
        u := t.(reaped := reaped + 1);
      } else {
        u := Done(l, r);
      }
  }

  // ----- every step makes progress

  function Squared(n: nat): (k: nat) {
    if n == 0 then 0 else Squared(n - 1) + 2 * n - 1
  }

  lemma {:induction false} SquaredIsSquare(n: nat)
    ensures Squared(n) == n * n
  {
    if n == 0 {
    } else {
      SquaredIsSquare(n - 1);
      assert (n - 1) * (n - 1) == n * n - 2 * n + 1;
    }
  }

  lemma {:induction false} SquaresOfParts(m: nat, n: nat)
    requires m >= 1 && n >= 1
    ensures Squared(m) + Squared(n) + 2 * (m + n - 1) <= Squared(m + n)
  {
    if n == 1 {
    } else {
      SquaresOfParts(m, n - 1);
    }
  }

  /* The part of the invariant that says nothing about the values in the table. */
  predicate Shaped(n: nat, t: Task)
    decreases t
  {
    && t.l <= t.r < n
    && match t
       case Insert(l, r, p) => l < p <= r + 1
       case Part(l, r, lo, hi, pv, idx) => l < r && l <= lo <= hi <= r
       case Both(l, m, r, a, b, reaped) =>
         && l < m <= r && a.l == l && a.r == m - 1 && b.l == m && b.r == r
         && Shaped(n, a) && Shaped(n, b) && reaped <= 2
       case _ => true
  }

  lemma {:induction false} OkShaped(s: seq<int>, t: Task)
    requires Ok(s, t)
    ensures Shaped(|s|, t)
    decreases t
  {
    if !t.Both? {
    } else {
      OkShaped(s, t.a);
      OkShaped(s, t.b);
    }
  }

  /* What a call on a range from `l` to `l + n` takes once it has been partitioned. */
  function SplitWork(n: nat): (w: nat)
    requires n >= 1
  {
    SquaresOfParts(1, n);
    2 * Squared(n + 1) - 4 * n + 4
  }

  /* A bound on the steps a call still takes, whatever the pivots. */
  function Work(s: seq<int>, t: Task): (w: nat)
    requires Shaped(|s|, t)
    decreases t
  {
    match t
    case Call(l, r) => 2 * Squared(r - l + 1)
    case Insert(l, r, p) => r + 2 - p
    case Part(l, r, lo, hi, pv, idx) =>
      3 * (hi - lo) + B(s[lo] >= pv && s[hi] < pv) + SplitWork(r - l)
    case Both(l, m, r, a, b, reaped) => Work(s, a) + Work(s, b) + 3 - reaped
    case Done(l, r) => 0
  }

  lemma {:induction false} WorkLocal(s: seq<int>, s': seq<int>, t: Task)
    requires Shaped(|s|, t) && |s'| == |s| && forall i :: t.l <= i <= t.r ==> s'[i] == s[i]
    ensures Work(s', t) == Work(s, t)
    decreases t
  {
    if !t.Both? {
    } else {
      WorkLocal(s, s', t.a);
      WorkLocal(s, s', t.b);
    }
  }

  lemma CallProgress(s: seq<int>, t: Task, s': seq<int>, u: Task)
    requires Shaped(|s|, t) && t.Call? && Step(s, t, s', u)
    ensures Shaped(|s'|, u) && Work(s', u) < Work(s, t)
  {
  }

  lemma ScanProgress(s: seq<int>, t: Task, s': seq<int>, u: Task)
    requires Shaped(|s|, t) && t.Part? && t.lo < t.hi && Step(s, t, s', u)
    ensures Shaped(|s'|, u) && Work(s', u) < Work(s, t)
  {
  }

  /* The two parts of a range take less work than partitioning it leaves over. */
  lemma PartsTakeLess(m: nat, k: nat, n: nat)
    requires m >= 1 && k >= 1 && m + k == n + 1
    ensures 2 * Squared(m) + 2 * Squared(k) + 3 < SplitWork(n)
  {
    SquaresOfParts(m, k);
  }

  lemma SplitInTwo(s: seq<int>, s': seq<int>, t: Task)
    requires Shaped(|s|, t) && |s'| == |s| && t.Part? && t.l < t.lo == t.hi
    ensures Shaped(|s'|, Split(t)) && Work(s', Split(t)) < Work(s, t)
  {
    PartsTakeLess(t.lo - t.l, t.r - t.lo + 1, t.r - t.l);
    var a, b := Call(t.l, t.lo - 1), Call(t.lo, t.r);
    assert Split(t) == Both(t.l, t.lo, t.r, a, b, 0);
    assert Work(s', a) == 2 * Squared(t.lo - t.l) && Work(s', b) == 2 * Squared(t.r - t.lo + 1);
  }

  lemma SplitOffOne(s: seq<int>, s': seq<int>, t: Task)
    requires Shaped(|s|, t) && |s'| == |s| && t.Part? && t.l == t.lo == t.hi
    ensures Shaped(|s'|, Split(t)) && Work(s', Split(t)) < Work(s, t)
  {
  }

  lemma PartProgress(s: seq<int>, t: Task, s': seq<int>, u: Task)
    requires Shaped(|s|, t) && t.Part? && Step(s, t, s', u)
    ensures Shaped(|s'|, u) && Work(s', u) < Work(s, t)
  {
    if t.lo < t.hi {
      ScanProgress(s, t, s', u);
    } else {
      assert |s'| == |s| && u == Split(t);
      if t.l < t.lo {
        SplitInTwo(s, s', t);
      } else {
        SplitOffOne(s, s', t);
      }
    }
  }

  lemma LeftProgress(s: seq<int>, t: Task, s': seq<int>, a: Task)
    requires Shaped(|s|, t) && t.Both? && Good(s, t.a, s', a)
    requires Shaped(|s'|, a) && Work(s', a) < Work(s, t.a)
    ensures Shaped(|s'|, t.(a := a)) && Work(s', t.(a := a)) < Work(s, t)
  {
    WorkLocal(s, s', t.b);
  }

  lemma RightProgress(s: seq<int>, t: Task, s': seq<int>, b: Task)
    requires Shaped(|s|, t) && t.Both? && Good(s, t.b, s', b)
    requires Shaped(|s'|, b) && Work(s', b) < Work(s, t.b)
    ensures Shaped(|s'|, t.(b := b)) && Work(s', t.(b := b)) < Work(s, t)
  {
    WorkLocal(s, s', t.a);
  }

  /* Every step of every process leaves less work. */
  lemma {:induction false} StepProgress(s: seq<int>, t: Task, s': seq<int>, u: Task)
    requires Ok(s, t) && Step(s, t, s', u)
    ensures Shaped(|s|, t) && Shaped(|s'|, u) && Work(s', u) < Work(s, t)
    decreases t
  {
    OkShaped(s, t);
    match t
    case Call(_, _) => CallProgress(s, t, s', u);
    case Insert(_, _, _) =>
    case Part(_, _, _, _, _, _) => PartProgress(s, t, s', u);
    case Both(l, m, r, a, b, reaped) =>
      if u.Both? && u == t.(a := u.a) && Step(s, a, s', u.a) {
        StepGood(s, a, s', u.a);
        StepProgress(s, a, s', u.a);
        LeftProgress(s, t, s', u.a);
      } else if u.Both? && u == t.(b := u.b) && Returned(a) && Step(s, b, s', u.b) {
        StepGood(s, b, s', u.b);
        StepProgress(s, b, s', u.b);
        RightProgress(s, t, s', u.b);
      }
    case Done(_, _) => assert false;
  }

  // ----- whole runs

  /* The table, all processes, and whether main has waited for the one it may have forked. */
  datatype State = State(table: seq<int>, root: Task, waited: bool)

  ghost predicate Init(table: seq<int>, st: State) {
    table != [] && st == State(table, Call(0, |table| - 1), false)
  }

  ghost predicate Next(st: State, st': State) {
    || (st'.waited == st.waited && Step(st.table, st.root, st'.table, st'.root))
    || (Forks(st.root) && st.root.Done? && !st.waited && st' == st.(waited := true))
  }

  /* The call in main has returned, and so has the wait if there was one. */
  predicate MainGoesOn(st: State) {
    if Forks(st.root) then st.waited else st.root.Done?
  }

  ghost predicate StepAt(run: seq<State>, k: nat)
    requires 0 < k < |run|
  {
    Next(run[k - 1], run[k])
  }

  ghost predicate IsRun(table: seq<int>, run: seq<State>) {
    |run| > 0 && Init(table, run[0]) && forall k :: 0 < k < |run| ==> StepAt(run, k)
  }

  ghost predicate RunOk(table: seq<int>, st: State) {
    && table != [] && Ok(st.table, st.root) && st.root.l == 0 && st.root.r == |table| - 1
    && Permuted(table, st.table, 0, |table|)
    && (st.waited ==> Forks(st.root) && st.root.Done?)
  }

  function Remaining(st: State): (n: nat)
    requires Shaped(|st.table|, st.root)
  {
    Work(st.table, st.root) + B(!st.waited)
  }

  lemma NextKeepsRunOk(table: seq<int>, p: State, q: State)
    requires RunOk(table, p) && Next(p, q)
    ensures Shaped(|p.table|, p.root) && Shaped(|q.table|, q.root)
    ensures RunOk(table, q) && Remaining(q) < Remaining(p)
  {
    OkShaped(p.table, p.root);
    if q.waited == p.waited && Step(p.table, p.root, q.table, q.root) {
      StepGood(p.table, p.root, q.table, q.root);
      StepProgress(p.table, p.root, q.table, q.root);
      PermutedTrans(table, p.table, q.table, 0, |table|);
    }
  }

  lemma {:induction false} RunKeepsOk(table: seq<int>, run: seq<State>, k: nat)
    requires IsRun(table, run) && k < |run|
    ensures RunOk(table, run[k]) && Shaped(|run[k].table|, run[k].root)
    ensures Remaining(run[k]) + k <= 2 * Squared(|table|) + 1
  {
    if k == 0 {
      PermutedRefl(table, 0, |table|);
    } else {
      RunKeepsOk(table, run, k - 1);
      assert StepAt(run, k);
      NextKeepsRunOk(table, run[k - 1], run[k]);
    }
  }

  /* For every choice of pivots and every interleaving: when main goes on, the table is
     sorted and a permutation of its input. */
  lemma SortsTheTable(table: seq<int>, run: seq<State>, k: nat)
    requires IsRun(table, run) && k < |run| && MainGoesOn(run[k])
    ensures Sorted(run[k].table, 0, |run[k].table|) && multiset(run[k].table) == multiset(table)
    ensures forall i, j :: 0 <= i < j < |run[k].table| ==> run[k].table[i] <= run[k].table[j]
    // a large table is sorted by a child, and main has waited for it
    ensures |table| > 262145 ==> run[k].waited
  {
    RunKeepsOk(table, run, k);
    var t := run[k].table;
    SortedMeans(t, 0, |t|);
    assert table[0..|table|] == table && t[0..|t|] == t;
  }

  /* So it does not depend on the pivots or the interleaving. */
  lemma ResultIsUnique(table: seq<int>, run: seq<State>, k: nat, run': seq<State>, k': nat)
    requires IsRun(table, run) && k < |run| && MainGoesOn(run[k])
    requires IsRun(table, run') && k' < |run'| && MainGoesOn(run'[k'])
    ensures run[k].table == run'[k'].table
  {
    SortsTheTable(table, run, k);
    SortsTheTable(table, run', k');
    SortedIsUnique(run[k].table, run'[k'].table);
  }

  /* In every run, at every moment: the children of the process that runs a call are
     exactly those forked for the call's own parts, none of them for a call run inline. So
     a wait for any child, made by the call, is for one of its own. */
  lemma WaitsForItsOwnParts(table: seq<int>, run: seq<State>, k: nat, t: Task)
    requires IsRun(table, run) && k < |run| && t in Subtasks(run[k].root) && t.Both?
    ensures ForkedBy(t) == ForkedParts(t) && |ForkedBy(t)| == Children(t.a, t.b)
    ensures !Forks(t) ==> ForkedBy(t) == [] && !Reaps(t)
  {
    RunKeepsOk(table, run, k);
    SubtaskOk(run[k].table, run[k].root, t);
    if !Forks(t.a) { InlineCallsNeverWait(run[k].table, t.a); }
    if !Forks(t.b) { InlineCallsNeverWait(run[k].table, t.b); }
  }

  /* No run deadlocks before main goes on, and none is longer than this. */
  lemma NoDeadlock(table: seq<int>, run: seq<State>, k: nat) returns (st: State)
    requires IsRun(table, run) && k < |run| && !MainGoesOn(run[k])
    ensures Next(run[k], st)
  {
    RunKeepsOk(table, run, k);
    var p := run[k];
    if p.root.Done? {
      st := p.(waited := true);
    } else {
      var s', u := CanAct(p.table, p.root);
      st := State(s', u, p.waited);
    }
  }

  lemma RunsEnd(table: seq<int>, run: seq<State>)
    requires IsRun(table, run)
    ensures |run| - 1 <= 2 * (|table| * |table|) + 1
  {
    RunKeepsOk(table, run, |run| - 1);
    SquaredIsSquare(|table|);
  }
}
