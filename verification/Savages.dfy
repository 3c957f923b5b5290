/** Savages eat from a pot; whoever finds it empty wakes the cook, waits for the refill
    while holding the mutex, and eats. A step is one action of one participant. */
module Savages {

  datatype Phase =
    | Hungry   // wait for the mutex
    | Look     // is the pot empty?
    | Order    // wake the cook
    | Await    // wait until the pot is full
    | Eat      // take a meal
    | Leave    // post the mutex
    | Digest

  datatype Cook = Sleep | Fill | Serve

  datatype State = State(
    meals: int, mutex: int, empty: int, full: int, cook: Cook, pc: seq<Phase>,
    eaten: nat, refills: nat)

  predicate Init(n: nat, s: State) {
    s == State(0, 1, 0, 0, Sleep, seq(n, _ => Hungry), 0, 0)
  }

  /* One action of savage `i`. */
  predicate SavageStep(s: State, t: State, i: nat) {
    && i < |s.pc|
    && match s.pc[i]
       case Hungry => s.mutex > 0 && t == s.(mutex := s.mutex - 1, pc := s.pc[i := Look])
       case Look => t == s.(pc := s.pc[i := if s.meals == 0 then Order else Eat])
       case Order => t == s.(empty := s.empty + 1, pc := s.pc[i := Await])
       case Await => s.full > 0 && t == s.(full := s.full - 1, pc := s.pc[i := Eat])
       case Eat => t == s.(meals := s.meals - 1, eaten := s.eaten + 1, pc := s.pc[i := Leave])
       case Leave => t == s.(mutex := s.mutex + 1, pc := s.pc[i := Digest])
       case Digest => t == s.(pc := s.pc[i := Hungry])
  }

  predicate CookStep(m: nat, s: State, t: State) {
    match s.cook
    case Sleep => s.empty > 0 && t == s.(empty := s.empty - 1, cook := Fill)
    case Fill => t == s.(meals := m, refills := s.refills + 1, cook := Serve)
    case Serve => t == s.(full := s.full + 1, cook := Sleep)
  }

  ghost predicate Next(m: nat, s: State, t: State) {
    CookStep(m, s, t) || exists i :: SavageStep(s, t, i)
  }

  ghost predicate StepAt(m: nat, run: seq<State>, k: nat)
    requires 0 < k < |run|
  {
    Next(m, run[k - 1], run[k])
  }

  ghost predicate IsRun(n: nat, m: nat, run: seq<State>) {
    && |run| > 0 && Init(n, run[0])
    && forall k :: 0 < k < |run| ==> StepAt(m, run, k)
  }

  // ----- the invariant

  predicate Holds(p: Phase) {
    p == Look || p == Order || p == Await || p == Eat || p == Leave
  }

  ghost predicate Alone(s: State, i: int) {
    && 0 <= i < |s.pc| && Holds(s.pc[i])
    && forall j :: 0 <= j < |s.pc| && j != i ==> !Holds(s.pc[j])
  }

  /* The handshake is idle unless the holder of the mutex awaits the refill; then exactly
     one token goes around: the order, the cook, or the served pot. */
  ghost predicate HandshakeOk(m: nat, s: State, awaited: bool) {
    && s.empty >= 0 && s.full >= 0
    && s.empty + s.full + (if s.cook == Sleep then 0 else 1) == (if awaited then 1 else 0)
    && (awaited ==> s.meals == if s.empty == 1 || s.cook == Fill then 0 else m)
  }

  ghost predicate HolderOk(m: nat, s: State, p: Phase) {
    && HandshakeOk(m, s, p == Await)
    && (p == Order ==> s.meals == 0)
    && (p == Eat ==> s.meals > 0)
  }

  ghost predicate Inv(m: nat, s: State) {
    && m >= 1 && 0 <= s.meals <= m
    && s.eaten + s.meals == m * s.refills
    && if s.mutex == 0 then exists i :: Alone(s, i) && HolderOk(m, s, s.pc[i])
       else s.mutex == 1 && (forall j :: 0 <= j < |s.pc| ==> !Holds(s.pc[j])) && HandshakeOk(m, s, false)
  }

  lemma SavageKeepsInv(m: nat, s: State, t: State, i: nat)
    requires Inv(m, s) && SavageStep(s, t, i)
    ensures Inv(m, t)
  {
    if s.mutex == 0 {
      var o :| Alone(s, o) && HolderOk(m, s, s.pc[o]);
      if t.mutex == 0 {
        assert Alone(t, o) && HolderOk(m, t, t.pc[o]);
      }
    } else if t.mutex == 0 {
      assert Alone(t, i) && HolderOk(m, t, t.pc[i]);
    }
  }

  lemma CookKeepsInv(m: nat, s: State, t: State)
    requires Inv(m, s) && CookStep(m, s, t)
    ensures Inv(m, t)
  {
  }

  lemma {:induction false} RunKeepsInv(n: nat, m: nat, run: seq<State>, k: nat)
    requires m >= 1 && IsRun(n, m, run) && k < |run|
    ensures Inv(m, run[k]) && |run[k].pc| == n
  {
    if k == 0 {
    } else {
      RunKeepsInv(n, m, run, k - 1);
      assert StepAt(m, run, k);
      if CookStep(m, run[k - 1], run[k]) {
        CookKeepsInv(m, run[k - 1], run[k]);
      } else {
        var i :| SavageStep(run[k - 1], run[k], i);
        SavageKeepsInv(m, run[k - 1], run[k], i);
      }
    }
  }

  // ----- the main results, over every run

  /* The pot never holds a negative number of meals or more than M, and no meal is lost. */
  lemma MealsAreConserved(n: nat, m: nat, run: seq<State>, k: nat)
    requires m >= 1 && IsRun(n, m, run) && k < |run|
    ensures 0 <= run[k].meals <= m && run[k].eaten + run[k].meals == m * run[k].refills
  {
    RunKeepsInv(n, m, run, k);
  }

  /* The cook overwrites the count only when it is zero and a savage holds the mutex. */
  lemma RefillsOnlyEmptyPot(n: nat, m: nat, run: seq<State>, k: nat)
    requires m >= 1 && IsRun(n, m, run) && k < |run| && run[k].cook == Fill
    ensures run[k].meals == 0 && run[k].mutex == 0 && exists i :: Alone(run[k], i) && run[k].pc[i] == Await
  {
    RunKeepsInv(n, m, run, k);
    var o :| Alone(run[k], o) && HolderOk(m, run[k], run[k].pc[o]);
  }

  /* Some participant can always go on. */
  lemma NoDeadlock(n: nat, m: nat, run: seq<State>, k: nat) returns (t: State)
    requires n >= 1 && m >= 1 && IsRun(n, m, run) && k < |run|
    ensures Next(m, run[k], t)
  {
    var s := run[k];
    RunKeepsInv(n, m, run, k);
    if s.cook == Fill {
      t := s.(meals := m, refills := s.refills + 1, cook := Serve);
    } else if s.cook == Serve {
      t := s.(full := s.full + 1, cook := Sleep);
    } else if s.empty > 0 {
      t := s.(empty := s.empty - 1, cook := Fill);
    } else {
      var i := SomeSavage(m, s);
      t := SavageGoesOn(s, i);
      assert SavageStep(s, t, i);
    }
  }

  lemma SomeSavage(m: nat, s: State) returns (i: nat)
    requires Inv(m, s) && |s.pc| >= 1 && s.cook == Sleep && s.empty == 0
    ensures i < |s.pc| && (s.pc[i] == Hungry ==> s.mutex > 0) && (s.pc[i] == Await ==> s.full > 0)
  {
    if s.mutex == 0 {
      i :| Alone(s, i) && HolderOk(m, s, s.pc[i]);
    } else {
      i := 0;
    }
  }

  lemma SavageGoesOn(s: State, i: nat) returns (t: State)
    requires i < |s.pc| && (s.pc[i] == Hungry ==> s.mutex > 0) && (s.pc[i] == Await ==> s.full > 0)
    ensures SavageStep(s, t, i)
  {
    match s.pc[i]
    case Hungry => t := s.(mutex := s.mutex - 1, pc := s.pc[i := Look]);
    case Look => t := s.(pc := s.pc[i := if s.meals == 0 then Order else Eat]);
    case Order => t := s.(empty := s.empty + 1, pc := s.pc[i := Await]);
    case Await => t := s.(full := s.full - 1, pc := s.pc[i := Eat]);
    case Eat => t := s.(meals := s.meals - 1, eaten := s.eaten + 1, pc := s.pc[i := Leave]);
    case Leave => t := s.(mutex := s.mutex + 1, pc := s.pc[i := Digest]);
    case Digest => t := s.(pc := s.pc[i := Hungry]);
  }

  /* A savage is blocked only while another one holds the mutex, or while he awaits a refill
     that has not been served; the cook only while no order has been placed. */
  lemma BlockedByHandshakeOnly(n: nat, m: nat, run: seq<State>, k: nat, i: nat)
    requires m >= 1 && IsRun(n, m, run) && k < |run| && i < n
    ensures |run[k].pc| == n
    ensures (exists t :: SavageStep(run[k], t, i)) <==>
      && (run[k].pc[i] == Hungry ==> forall j :: 0 <= j < n ==> run[k].pc[j] == Hungry || run[k].pc[j] == Digest)
      && (run[k].pc[i] == Await ==> run[k].full == 1)
    ensures (exists t :: CookStep(m, run[k], t)) <==> run[k].cook != Sleep || run[k].empty == 1
    ensures run[k].pc[i] == Await ==> run[k].full == 1 || run[k].empty == 1 || run[k].cook != Sleep
  {
    var s := run[k];
    RunKeepsInv(n, m, run, k);
    if s.mutex == 0 {
      var o :| Alone(s, o) && HolderOk(m, s, s.pc[o]);
    }
    if (s.pc[i] == Hungry ==> s.mutex > 0) && (s.pc[i] == Await ==> s.full > 0) {
      var t := SavageGoesOn(s, i);
    }
    assert CookStep(m, s, match s.cook
      case Sleep => s.(empty := s.empty - 1, cook := Fill)
      case Fill => s.(meals := m, refills := s.refills + 1, cook := Serve)
      case Serve => s.(full := s.full + 1, cook := Sleep)) || (s.cook == Sleep && s.empty == 0);
  }

  /* A savage who eats takes one meal from a pot that is not empty; the order is placed
     exactly when it is empty, and the cook then fills it with M meals. */
  lemma MealsAndOrders(n: nat, m: nat, run: seq<State>, k: nat, i: nat, t: State)
    requires m >= 1 && IsRun(n, m, run) && k < |run| && i < |run[k].pc| && SavageStep(run[k], t, i)
    ensures |t.pc| == |run[k].pc|
    ensures run[k].pc[i] == Eat ==> run[k].meals > 0 && t.meals == run[k].meals - 1 && t.eaten == run[k].eaten + 1
    ensures run[k].pc[i] != Eat ==> t.meals == run[k].meals && t.eaten == run[k].eaten
    ensures run[k].pc[i] == Look ==> (t.pc[i] == Order <==> run[k].meals == 0) && (t.pc[i] == Eat <==> run[k].meals > 0)
    ensures run[k].pc[i] == Await ==> run[k].meals == m
  {
    RunKeepsInv(n, m, run, k);
    if run[k].mutex == 0 {
      var o :| Alone(run[k], o) && HolderOk(m, run[k], run[k].pc[o]);
    }
  }

  /* With M == 0 the count does become negative: the condition M >= 1 is exact. */
  lemma EmptyRefillOverdraws(n: nat) returns (run: seq<State>)
    requires n >= 1
    ensures IsRun(n, 0, run) && run[|run| - 1].meals < 0
  {
    var z := seq(n, _ => Hungry);
    var s0 := State(0, 1, 0, 0, Sleep, z, 0, 0);
    var s1 := s0.(mutex := 0, pc := z[0 := Look]);
    var s2 := s1.(pc := s1.pc[0 := Order]);
    var s3 := s2.(empty := 1, pc := s2.pc[0 := Await]);
    var s4 := s3.(empty := 0, cook := Fill);
    var s5 := s4.(refills := 1, cook := Serve);
    var s6 := s5.(full := 1, cook := Sleep);
    var s7 := s6.(full := 0, pc := s6.pc[0 := Eat]);
    var s8 := s7.(meals := -1, eaten := 1, pc := s7.pc[0 := Leave]);
    assert SavageStep(s0, s1, 0) && SavageStep(s1, s2, 0) && SavageStep(s2, s3, 0);
    assert CookStep(0, s3, s4) && CookStep(0, s4, s5) && CookStep(0, s5, s6);
    assert SavageStep(s6, s7, 0) && SavageStep(s7, s8, 0);
    run := [s0, s1, s2, s3, s4, s5, s6, s7, s8];
  }
}
