/** A counting semaphore made of a mutex and a condition variable. A step is one action
    of one thread; signals wake at least one sleeper if there is any, and sleepers may
    also wake up for no reason (System Interfaces volume of POSIX.1-2017, chapter 3,
    pthread_cond_wait and pthread_cond_signal). */
module Semaphore {
  import opened Totals

  datatype Phase =
    | Idle
    | WaitLock    // wait: lock the mutex
    | Check       // wait: test the value for the first time
    | Asleep      // blocked on the condition variable
    | Woken       // to lock the mutex again
    | Recheck     // test the value again
    | Take        // decrement the value
    | WaitUnlock
    | PostLock    // post: lock the mutex
    | Increment
    | Signal
    | PostUnlock

  datatype State = State(value: int, locked: bool, pc: seq<Phase>)

  datatype InitResult = Ready(s: State) | Exit

  /* init: a negative value ends the program. */
  function Init(n: nat, val: int): (r: InitResult) {
    if val < 0 then Exit else Ready(State(val, false, seq(n, _ => Idle)))
  }

  /* The phases in which a thread holds the mutex. */
  function Inside(p: Phase): (k: nat) {
    match p
    case Check => 1 case Recheck => 1 case Take => 1 case WaitUnlock => 1
    case Increment => 1 case Signal => 1 case PostUnlock => 1
    case _ => 0
  }

  ghost predicate WakesSome(pc: seq<Phase>, pc': seq<Phase>) {
    && |pc'| == |pc|
    && (forall j :: 0 <= j < |pc| ==> pc'[j] == pc[j] || (pc[j] == Asleep && pc'[j] == Woken))
    && (Asleep in pc ==> exists j :: 0 <= j < |pc| && pc[j] == Asleep && pc'[j] == Woken)
  }

  /* One action of thread `i`. */
  ghost predicate Step(s: State, t: State, i: nat) {
    && i < |s.pc|
    && match s.pc[i]
       case Idle => t == s.(pc := s.pc[i := WaitLock]) || t == s.(pc := s.pc[i := PostLock])
       case WaitLock => !s.locked && t == s.(locked := true, pc := s.pc[i := Check])
       case Check =>
         if s.value == 0 then t == s.(locked := false, pc := s.pc[i := Asleep])
         else t == s.(pc := s.pc[i := Take])
       case Asleep => t == s.(pc := s.pc[i := Woken])
       case Woken => !s.locked && t == s.(locked := true, pc := s.pc[i := Recheck])
       case Recheck =>
         if s.value == 0 then t == s.(locked := false, pc := s.pc[i := Asleep])
         else t == s.(pc := s.pc[i := Take])
       case Take => t == s.(value := s.value - 1, pc := s.pc[i := WaitUnlock])
       case WaitUnlock => t == s.(locked := false, pc := s.pc[i := Idle])
       case PostLock => !s.locked && t == s.(locked := true, pc := s.pc[i := Increment])
       case Increment => t == s.(value := s.value + 1, pc := s.pc[i := Signal])
       case Signal =>
         WakesSome(s.pc[i := PostUnlock], t.pc) && t == s.(pc := t.pc)
       case PostUnlock => t == s.(locked := false, pc := s.pc[i := Idle])
  }

  ghost predicate Next(s: State, t: State) {
    exists i :: Step(s, t, i)
  }

  ghost predicate StepAt(run: seq<State>, k: nat)
    requires 0 < k < |run|
  {
    Next(run[k - 1], run[k])
  }

  ghost predicate IsRun(n: nat, val: int, run: seq<State>) {
    && |run| > 0 && Init(n, val) == Ready(run[0])
    && forall k :: 0 < k < |run| ==> StepAt(run, k)
  }

  /* Threads that will yet look at the value or lower it, and posts yet to be signalled. */
  function Alert(p: Phase): (k: nat) {
    match p
    case Woken => 1 case Recheck => 1 case Take => 1 case Signal => 1
    case _ => 0
  }

  function Awakened(p: Phase): (k: nat) {
    if p == Woken then 1 else 0
  }

  /* `i` is the thread that holds the mutex. */
  ghost predicate Owner(s: State, i: nat) {
    && i < |s.pc| && Inside(s.pc[i]) == 1
    && forall j :: 0 <= j < |s.pc| && j != i ==> Inside(s.pc[j]) == 0
  }

  ghost predicate MutexOk(s: State) {
    if s.locked then exists i :: Owner(s, i) else forall j :: 0 <= j < |s.pc| ==> Inside(s.pc[j]) == 0
  }

  ghost predicate Inv(s: State) {
    && MutexOk(s) && s.value >= 0
    && (Take in s.pc ==> s.value > 0)
    && (Asleep in s.pc ==> s.value <= Total(Alert, s.pc))
  }

  lemma StepKeepsMutex(s: State, t: State, i: nat)
    requires MutexOk(s) && Step(s, t, i)
    ensures MutexOk(t)
    ensures Inside(s.pc[i]) == 1 ==> Owner(s, i)
  {
    if s.locked {
      var o :| Owner(s, o);
      if t.locked { assert Owner(t, o); }
    } else if t.locked {
      assert Owner(t, i);
    }
  }

  lemma StepKeepsCount(s: State, t: State, i: nat)
    requires Step(s, t, i) && s.pc[i] != Signal
    ensures Total(Alert, t.pc) + Alert(s.pc[i]) == Total(Alert, s.pc) + Alert(t.pc[i])
  {
    TotalUpdate(Alert, s.pc, i, t.pc[i]);
  }

  /* A signal replaces itself by a woken thread whenever there is a sleeper. */
  lemma SignalKeepsCount(s: State, t: State, i: nat)
    requires Step(s, t, i) && s.pc[i] == Signal && Asleep in s.pc
    ensures Total(Alert, t.pc) >= Total(Alert, s.pc)
  {
    var pc := s.pc[i := PostUnlock];
    TotalUpdate(Alert, s.pc, i, PostUnlock);
    var a :| 0 <= a < |s.pc| && s.pc[a] == Asleep;
    assert pc[a] == Asleep;
    var j :| 0 <= j < |pc| && pc[j] == Asleep && t.pc[j] == Woken;
    TotalRises(Alert, pc, t.pc, j);
  }

  lemma StepKeepsInv(s: State, t: State, i: nat)
    requires Inv(s) && Step(s, t, i)
    ensures Inv(t)
  {
    StepKeepsMutex(s, t, i);
    if s.pc[i] != Signal {
      StepKeepsCount(s, t, i);
    } else if Asleep in s.pc {
      SignalKeepsCount(s, t, i);
    }
  }

  lemma {:induction false} RunKeepsInv(n: nat, val: int, run: seq<State>, k: nat)
    requires IsRun(n, val, run) && k < |run|
    ensures Inv(run[k])
  {
    if k == 0 {
    } else {
      RunKeepsInv(n, val, run, k - 1);
      assert StepAt(run, k);
      var i :| Step(run[k - 1], run[k], i);
      StepKeepsInv(run[k - 1], run[k], i);
    }
  }

  // ----- the main results, over every run

  /* At most one thread is inside a critical section. */
  lemma MutualExclusion(n: nat, val: int, run: seq<State>, k: nat, i: nat, j: nat)
    requires IsRun(n, val, run) && k < |run| && i < j < |run[k].pc|
    ensures Inside(run[k].pc[i]) == 0 || Inside(run[k].pc[j]) == 0
  {
    RunKeepsInv(n, val, run, k);
    if run[k].locked {
      var o :| Owner(run[k], o);
    }
  }

  /* No wakeup is lost: while a thread sleeps and the mutex is free, every unit of the
     value is awaited by a woken thread that has yet to look at it. */
  lemma NoLostWakeup(n: nat, val: int, run: seq<State>, k: nat)
    requires IsRun(n, val, run) && k < |run| && !run[k].locked && Asleep in run[k].pc
    ensures run[k].value <= Total(Awakened, run[k].pc)
  {
    RunKeepsInv(n, val, run, k);
    forall j | 0 <= j < |run[k].pc| ensures Alert(run[k].pc[j]) <= Awakened(run[k].pc[j]) {
      assert Inside(run[k].pc[j]) == 0;
    }
    TotalCompare(Alert, Awakened, run[k].pc);
  }

  /* A sleeper never waits beside a token in vain: some thread that is neither idle nor
     asleep can act. */
  lemma TokenMeansProgress(n: nat, val: int, run: seq<State>, k: nat) returns (i: nat, t: State)
    requires IsRun(n, val, run) && k < |run| && Asleep in run[k].pc && run[k].value > 0
    ensures Step(run[k], t, i) && run[k].pc[i] != Idle && run[k].pc[i] != Asleep
  {
    var s := run[k];
    RunKeepsInv(n, val, run, k);
    if s.locked {
      i :| Owner(s, i);
      t := ThreadCanStep(s, i);
    } else {
      NoLostWakeup(n, val, run, k);
      i := TotalPositive(Awakened, s.pc);
      t := s.(locked := true, pc := s.pc[i := Recheck]);
    }
  }

  // ----- what one call does

  /* The order in which a thread goes through its phases. */
  predicate Goes(p: Phase, q: Phase) {
    match p
    case Idle => q == WaitLock || q == PostLock
    case WaitLock => q == Check
    case Check => q == Asleep || q == Take
    case Asleep => q == Woken
    case Woken => q == Recheck
    case Recheck => q == Asleep || q == Take
    case Take => q == WaitUnlock
    case WaitUnlock => q == Idle
    case PostLock => q == Increment
    case Increment => q == Signal
    case Signal => q == PostUnlock
    case PostUnlock => q == Idle
  }

  ghost predicate Moves(s: State, t: State, i: nat, p: Phase, q: Phase) {
    i < |s.pc| && i < |t.pc| && s.pc[i] == p && t.pc[i] == q
  }

  /* How often thread `i` has gone from `p` to `q` in the first `k` steps. */
  ghost function Times(run: seq<State>, k: nat, i: nat, p: Phase, q: Phase): (m: nat)
    requires k < |run|
  {
    if k == 0 then 0
    else Times(run, k - 1, i, p, q) + if Moves(run[k - 1], run[k], i, p, q) then 1 else 0
  }

  /* The P operations of thread `i`, and its V operations. */
  ghost function Ps(run: seq<State>, k: nat, i: nat): (m: nat)
    requires k < |run|
  {
    Times(run, k, i, Take, WaitUnlock)
  }

  ghost function Vs(run: seq<State>, k: nat, i: nat): (m: nat)
    requires k < |run|
  {
    Times(run, k, i, Increment, Signal)
  }

  /* Threads that have done their P and are about to return from wait. */
  function Taken(p: Phase): (k: nat) {
    if p == WaitUnlock then 1 else 0
  }

  /* Threads that have done their V and are about to return from post. */
  function Posted(p: Phase): (k: nat) {
    if p == Signal || p == PostUnlock then 1 else 0
  }

  lemma StepGoes(s: State, t: State, i: nat, j: nat)
    requires Step(s, t, i) && j < |s.pc|
    ensures |t.pc| == |s.pc| && (t.pc[j] == s.pc[j] || Goes(s.pc[j], t.pc[j]))
  {
  }

  lemma {:induction false} RunGoes(n: nat, val: int, run: seq<State>, k: nat, j: nat)
    requires IsRun(n, val, run) && k < |run| && j < n
    ensures |run[k].pc| == n
    ensures k > 0 ==> |run[k - 1].pc| == n && (run[k].pc[j] == run[k - 1].pc[j] || Goes(run[k - 1].pc[j], run[k].pc[j]))
  {
    if k == 0 {
    } else {
      RunGoes(n, val, run, k - 1, j);
      assert StepAt(run, k);
      var i :| Step(run[k - 1], run[k], i);
      StepGoes(run[k - 1], run[k], i, j);
    }
  }

  /* A call of thread `i` that starts in phase `first` is begun by step `a` and returns by
     step `b`. */
  ghost predicate CallAt(run: seq<State>, i: nat, first: Phase, a: nat, b: nat) {
    && 0 < a < b < |run| && (first == WaitLock || first == PostLock)
    && Moves(run[a - 1], run[a], i, Idle, first) && i < |run[b].pc| && run[b].pc[i] == Idle
    && forall c :: a <= c < b ==> i < |run[c].pc| && run[c].pc[i] != Idle
  }

  predicate InCall(first: Phase, p: Phase) {
    match p
    case PostLock => first == PostLock
    case Increment => first == PostLock
    case Signal => first == PostLock
    case PostUnlock => first == PostLock
    case Idle => false
    case _ => first == WaitLock
  }

  lemma {:induction false} CallSoFar(n: nat, val: int, run: seq<State>, i: nat, first: Phase, a: nat, b: nat, c: nat)
    requires IsRun(n, val, run) && i < n && CallAt(run, i, first, a, b) && a <= c < b
    ensures i < |run[c].pc| && InCall(first, run[c].pc[i])
    ensures Ps(run, c, i) == Ps(run, a - 1, i) + Taken(run[c].pc[i])
    ensures Vs(run, c, i) == Vs(run, a - 1, i) + Posted(run[c].pc[i])
    decreases c
  {
    if c == a {
    } else {
      CallSoFar(n, val, run, i, first, a, b, c - 1);
      RunGoes(n, val, run, c, i);
    }
  }

  /* A completed wait contains exactly one P of its thread and no V, a completed post
     exactly one V and no P. */
  lemma CallActsOnce(n: nat, val: int, run: seq<State>, i: nat, first: Phase, a: nat, b: nat)
    requires IsRun(n, val, run) && i < n && CallAt(run, i, first, a, b)
    ensures Ps(run, b, i) == Ps(run, a - 1, i) + if first == WaitLock then 1 else 0
    ensures Vs(run, b, i) == Vs(run, a - 1, i) + if first == PostLock then 1 else 0
  {
    CallSoFar(n, val, run, i, first, a, b, b - 1);
    RunGoes(n, val, run, b, i);
  }

  // ----- refinement: what the clients see is an atomic counter

  ghost predicate SomeMoves(s: State, t: State, p: Phase, q: Phase) {
    exists i :: Moves(s, t, i, p, q)
  }

  /* How many of the first `k` steps took some thread from `p` to `q`. */
  ghost function Count(run: seq<State>, k: nat, p: Phase, q: Phase): (m: nat)
    requires k < |run|
  {
    if k == 0 then 0 else Count(run, k - 1, p, q) + if SomeMoves(run[k - 1], run[k], p, q) then 1 else 0
  }

  /* The calls that have returned. */
  ghost function WaitsDone(run: seq<State>, k: nat): (m: nat)
    requires k < |run|
  {
    Count(run, k, WaitUnlock, Idle)
  }

  ghost function PostsDone(run: seq<State>, k: nat): (m: nat)
    requires k < |run|
  {
    Count(run, k, PostUnlock, Idle)
  }

  /* P waits for a positive counter and lowers it; V raises it; other steps are silent. */
  predicate AtomicStep(value: int, value': int) {
    value' == value || value' == value + 1 || (value > 0 && value' == value - 1)
  }

  lemma StepIsAtomic(s: State, t: State, i: nat)
    requires Inv(s) && Step(s, t, i)
    ensures AtomicStep(s.value, t.value)
    ensures SomeMoves(s, t, Take, WaitUnlock) <==> s.pc[i] == Take
    ensures SomeMoves(s, t, Increment, Signal) <==> s.pc[i] == Increment
    ensures SomeMoves(s, t, WaitUnlock, Idle) <==> s.pc[i] == WaitUnlock
    ensures SomeMoves(s, t, PostUnlock, Idle) <==> s.pc[i] == PostUnlock
  {
    assert s.pc[i] != Signal ==> Moves(s, t, i, s.pc[i], t.pc[i]);
  }

  /* Every step is a P of a thread inside wait, on a positive value, a V of a thread inside
     post, or silent. */
  lemma RefinesAtomicCounter(n: nat, val: int, run: seq<State>, k: nat)
    requires IsRun(n, val, run) && 0 < k < |run|
    ensures AtomicStep(run[k - 1].value, run[k].value)
    ensures run[k].value == run[k - 1].value - 1 <==> SomeMoves(run[k - 1], run[k], Take, WaitUnlock)
    ensures run[k].value == run[k - 1].value + 1 <==> SomeMoves(run[k - 1], run[k], Increment, Signal)
  {
    RunKeepsInv(n, val, run, k - 1);
    assert StepAt(run, k);
    var i :| Step(run[k - 1], run[k], i);
    StepIsAtomic(run[k - 1], run[k], i);
  }

  /* A step changes a total over the threads only by the thread that acts, if waking up
     changes no weight. */
  lemma StepTotal(w: Phase -> nat, s: State, t: State, i: nat)
    requires Step(s, t, i) && w(Asleep) == w(Woken)
    ensures Total(w, t.pc) + w(s.pc[i]) == Total(w, s.pc) + w(t.pc[i])
  {
    var pc := s.pc[i := t.pc[i]];
    TotalUpdate(w, s.pc, i, t.pc[i]);
    TotalRises(w, pc, t.pc, |pc|);
    TotalRises(w, t.pc, pc, |pc|);
  }

  lemma StepKeepsTotals(s: State, t: State, i: nat)
    requires Step(s, t, i)
    ensures t.value - Total(Posted, t.pc) + Total(Taken, t.pc)
         == s.value - Total(Posted, s.pc) + Total(Taken, s.pc)
            + (if s.pc[i] == PostUnlock then 1 else 0) - (if s.pc[i] == WaitUnlock then 1 else 0)
  {
    StepTotal(Posted, s, t, i);
    StepTotal(Taken, s, t, i);
  }

  /* The value is the initial one plus the posts minus the waits, where a call counts when
     it has returned or has only to unlock the mutex; and it is never negative: no more
     waits return than there are tokens. */
  lemma {:induction false} ValueIsConserved(n: nat, val: int, run: seq<State>, k: nat)
    requires IsRun(n, val, run) && k < |run|
    ensures 0 <= run[k].value
    ensures run[k].value
         == val + PostsDone(run, k) + Total(Posted, run[k].pc) - WaitsDone(run, k) - Total(Taken, run[k].pc)
  {
    RunKeepsInv(n, val, run, k);
    if k == 0 {
      TotalZero(Posted, run[0].pc);
      TotalZero(Taken, run[0].pc);
    } else {
      ValueIsConserved(n, val, run, k - 1);
      RunKeepsInv(n, val, run, k - 1);
      assert StepAt(run, k);
      var i :| Step(run[k - 1], run[k], i);
      StepIsAtomic(run[k - 1], run[k], i);
      StepKeepsTotals(run[k - 1], run[k], i);
    }
  }

  /* When all threads are idle or asleep, the value is the initial one plus the posts that
     have returned minus the waits that have; and beside a sleeper it is 0. */
  lemma QuiescentMeansEmpty(n: nat, val: int, run: seq<State>, k: nat)
    requires IsRun(n, val, run) && k < |run|
    requires forall j :: 0 <= j < |run[k].pc| ==> run[k].pc[j] == Idle || run[k].pc[j] == Asleep
    ensures run[k].value == val + PostsDone(run, k) - WaitsDone(run, k)
    ensures Asleep in run[k].pc ==> run[k].value == 0
  {
    ValueIsConserved(n, val, run, k);
    RunKeepsInv(n, val, run, k);
    TotalZero(Alert, run[k].pc);
    TotalZero(Posted, run[k].pc);
    TotalZero(Taken, run[k].pc);
  }

  // ----- nobody but the holder of the mutex stands in the way

  /* The threads that are about to lock the mutex. */
  predicate WantsLock(p: Phase) {
    p == WaitLock || p == Woken || p == PostLock
  }

  /* One thing thread `i` can do next, if it does not need a mutex that is held. */
  lemma ThreadCanStep(s: State, i: nat) returns (t: State)
    requires i < |s.pc| && !(s.locked && WantsLock(s.pc[i]))
    ensures Step(s, t, i)
  {
    match s.pc[i]
    case Idle => t := s.(pc := s.pc[i := WaitLock]);
    case WaitLock => t := s.(locked := true, pc := s.pc[i := Check]);
    case Asleep => t := s.(pc := s.pc[i := Woken]);
    case Woken => t := s.(locked := true, pc := s.pc[i := Recheck]);
    case PostLock => t := s.(locked := true, pc := s.pc[i := Increment]);
    case Check =>
      t := if s.value == 0 then s.(locked := false, pc := s.pc[i := Asleep]) else s.(pc := s.pc[i := Take]);
    case Recheck =>
      t := if s.value == 0 then s.(locked := false, pc := s.pc[i := Asleep]) else s.(pc := s.pc[i := Take]);
    case Take => t := s.(value := s.value - 1, pc := s.pc[i := WaitUnlock]);
    case WaitUnlock => t := s.(locked := false, pc := s.pc[i := Idle]);
    case Increment => t := s.(value := s.value + 1, pc := s.pc[i := Signal]);
    case Signal =>
      var pc := s.pc[i := PostUnlock];
      if j :| 0 <= j < |pc| && pc[j] == Asleep {
        t := s.(pc := pc[j := Woken]);
      } else {
        t := s.(pc := pc);
      }
    case PostUnlock => t := s.(locked := false, pc := s.pc[i := Idle]);
  }

  /* A thread is blocked exactly when it is about to lock a mutex that is held; so with
     the mutex free everybody can act, and otherwise its holder can. */
  lemma BlockedByMutexOnly(s: State, i: nat)
    requires i < |s.pc|
    ensures (exists t :: Step(s, t, i)) <==>
      !(s.locked && (s.pc[i] == WaitLock || s.pc[i] == Woken || s.pc[i] == PostLock))
  {
    if !(s.locked && WantsLock(s.pc[i])) {
      var t := ThreadCanStep(s, i);
    }
  }

  /* In every run, whoever is blocked waits for another thread, which can act. */
  lemma BlockedBehindHolder(n: nat, val: int, run: seq<State>, k: nat, i: nat) returns (o: nat, t: State)
    requires IsRun(n, val, run) && k < |run| && i < |run[k].pc| && forall u :: !Step(run[k], u, i)
    ensures run[k].locked && Owner(run[k], o) && o != i && Step(run[k], t, o)
  {
    BlockedByMutexOnly(run[k], i);
    RunKeepsInv(n, val, run, k);
    o :| Owner(run[k], o);
    t := ThreadCanStep(run[k], o);
  }

  /* Both calls can be begun by any idle thread at any time. */
  lemma CallsCanBegin(s: State, i: nat)
    requires i < |s.pc| && s.pc[i] == Idle
    ensures Step(s, s.(pc := s.pc[i := WaitLock]), i) && Step(s, s.(pc := s.pc[i := PostLock]), i)
  {
  }

  /* How many more actions the holder takes before it gives the mutex up. */
  function HoldsFor(p: Phase): (k: nat) {
    match p
    case Check => 3 case Recheck => 3 case Take => 2 case WaitUnlock => 1
    case Increment => 3 case Signal => 2 case PostUnlock => 1
    case _ => 0
  }

  /* The holder keeps it for at most three actions of its own, whatever the others do. */
  lemma HolderLetsGo(s: State, t: State, i: nat)
    requires Owner(s, i) && s.locked && Step(s, t, i)
    ensures 1 <= HoldsFor(s.pc[i]) <= 3
    ensures if t.locked then Owner(t, i) && HoldsFor(t.pc[i]) < HoldsFor(s.pc[i]) else Inside(t.pc[i]) == 0
  {
  }

  lemma OthersLeaveHolder(s: State, t: State, i: nat, j: nat)
    requires Owner(s, i) && s.locked && Step(s, t, j) && j != i
    ensures t.locked && Owner(t, i) && t.pc[i] == s.pc[i]
  {
  }

  /* Left alone with the mutex free, a thread that calls post is back after five actions,
     and the value has risen by one. */
  lemma PostReturns(s: State, i: nat) returns (run: seq<State>)
    requires i < |s.pc| && s.pc[i] == Idle && !s.locked
    ensures |run| == 6 && run[0] == s && forall k :: 0 <= k < 5 ==> Step(run[k], run[k + 1], i)
    ensures i < |run[1].pc| && run[1].pc[i] == PostLock
    ensures i < |run[5].pc| && run[5].pc[i] == Idle && !run[5].locked && run[5].value == s.value + 1
  {
    var s1 := s.(pc := s.pc[i := PostLock]);
    var s2 := ThreadCanStep(s1, i);
    var s3 := ThreadCanStep(s2, i);
    var s4 := ThreadCanStep(s3, i);
    var s5 := ThreadCanStep(s4, i);
    run := [s, s1, s2, s3, s4, s5];
  }

  /* With the mutex free and a positive value, a thread that calls wait is back after five
     actions, and the value has fallen by one. */
  lemma WaitReturns(s: State, i: nat) returns (run: seq<State>)
    requires i < |s.pc| && s.pc[i] == Idle && !s.locked && s.value > 0
    ensures |run| == 6 && run[0] == s && forall k :: 0 <= k < 5 ==> Step(run[k], run[k + 1], i)
    ensures i < |run[1].pc| && run[1].pc[i] == WaitLock
    ensures i < |run[5].pc| && run[5].pc[i] == Idle && !run[5].locked && run[5].value == s.value - 1
  {
    var s1 := s.(pc := s.pc[i := WaitLock]);
    var s2 := ThreadCanStep(s1, i);
    var s3 := ThreadCanStep(s2, i);
    var s4 := ThreadCanStep(s3, i);
    var s5 := ThreadCanStep(s4, i);
    run := [s, s1, s2, s3, s4, s5];
  }

  /* The program starts for exactly the values that are not negative, 0 included. */
  lemma StartsFor(n: nat, val: int)
    ensures (exists run :: IsRun(n, val, run)) <==> val >= 0
    ensures forall run: seq<State> :: IsRun(n, val, run) ==>
      run[0].value == val && !run[0].locked && |run[0].pc| == n && forall i :: 0 <= i < n ==> run[0].pc[i] == Idle
  {
    if val >= 0 {
      assert IsRun(n, val, [State(val, false, seq(n, _ => Idle))]);
    }
  }
}
