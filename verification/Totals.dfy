/** Sums of weights over the members of a system. */
module Totals {

  /* A condition as a number. */
  function B(b: bool): (n: nat) { if b then 1 else 0 }

  function Total<T>(w: T -> nat, pc: seq<T>): (t: nat) {
    if pc == [] then 0 else w(pc[0]) + Total(w, pc[1..])
  }

  lemma {:induction false} TotalUpdate<T>(w: T -> nat, pc: seq<T>, i: nat, p: T)
    requires i < |pc|
    ensures Total(w, pc[i := p]) + w(pc[i]) == Total(w, pc) + w(p)
  {
    if i == 0 {
      assert pc[0 := p][1..] == pc[1..];
    } else {
      TotalUpdate(w, pc[1..], i - 1, p);
      assert pc[i := p][1..] == pc[1..][i - 1 := p];
    }
  }

  lemma {:induction false} TotalAppend<T>(w: T -> nat, pc: seq<T>, p: T)
    ensures Total(w, pc + [p]) == Total(w, pc) + w(p)
  {
    if pc == [] {
      assert ([] + [p])[1..] == [];
    } else {
      TotalAppend(w, pc[1..], p);
      assert (pc + [p])[1..] == pc[1..] + [p];
    }
  }

  lemma {:induction false} TotalBound<T>(w: T -> nat, pc: seq<T>, m: nat)
    requires forall j :: 0 <= j < |pc| ==> w(pc[j]) <= m
    ensures Total(w, pc) <= m * |pc|
  {
    if pc == [] {
    } else {
      TotalBound(w, pc[1..], m);
    }
  }

  /* A member of weight 0 among members of weight at most 1. */
  lemma {:induction false} TotalBelow<T(!new)>(w: T -> nat, pc: seq<T>)
    requires (forall p :: w(p) <= 1) && Total(w, pc) < |pc|
    ensures exists i :: 0 <= i < |pc| && w(pc[i]) == 0
  {
    if w(pc[0]) == 0 {
    } else {
      TotalBelow(w, pc[1..]);
      var i :| 0 <= i < |pc[1..]| && w(pc[1..][i]) == 0;
      assert w(pc[i + 1]) == 0;
    }
  }

  lemma {:induction false} TotalBelowByTwo<T(!new)>(w: T -> nat, pc: seq<T>, i: nat, j: nat)
    requires (forall p :: w(p) <= 1) && i < j < |pc| && w(pc[i]) == 0 && w(pc[j]) == 0
    ensures Total(w, pc) <= |pc| - 2
  {
    TotalUpdate(w, pc, i, pc[i]);
    TotalBound(w, pc[1..], 1);
    if i > 0 {
      TotalBelowByTwo(w, pc[1..], i - 1, j - 1);
    } else {
      TotalBelowByOne(w, pc[1..], j - 1);
    }
  }

  lemma {:induction false} TotalBelowByOne<T(!new)>(w: T -> nat, pc: seq<T>, i: nat)
    requires (forall p :: w(p) <= 1) && i < |pc| && w(pc[i]) == 0
    ensures Total(w, pc) <= |pc| - 1
  {
    TotalBound(w, pc[1..], 1);
    if i == 0 {
    } else {
      TotalBelowByOne(w, pc[1..], i - 1);
    }
  }

  /* Weights that do not fall anywhere, and rise at `i`. */
  lemma {:induction false} TotalRises<T>(w: T -> nat, pc: seq<T>, pc': seq<T>, i: nat)
    requires |pc| == |pc'| && i <= |pc| && forall j :: 0 <= j < |pc| ==> w(pc[j]) <= w(pc'[j])
    ensures Total(w, pc) <= Total(w, pc')
    ensures i < |pc| && w(pc[i]) < w(pc'[i]) ==> Total(w, pc) < Total(w, pc')
  {
    if pc == [] {
    } else {
      TotalRises(w, pc[1..], pc'[1..], if i == 0 then |pc| - 1 else i - 1);
    }
  }

  lemma {:induction false} TotalZero<T>(w: T -> nat, pc: seq<T>)
    requires forall j :: 0 <= j < |pc| ==> w(pc[j]) == 0
    ensures Total(w, pc) == 0
  {
    if pc == [] {
    } else {
      TotalZero(w, pc[1..]);
    }
  }

  lemma {:induction false} TotalPositive<T>(w: T -> nat, pc: seq<T>) returns (i: nat)
    requires Total(w, pc) > 0
    ensures i < |pc| && w(pc[i]) > 0
  {
    if w(pc[0]) > 0 {
      i := 0;
    } else {
      var j := TotalPositive(w, pc[1..]);
      i := j + 1;
    }
  }

  lemma {:induction false} TotalCompare<T>(w: T -> nat, v: T -> nat, pc: seq<T>)
    requires forall j :: 0 <= j < |pc| ==> w(pc[j]) <= v(pc[j])
    ensures Total(w, pc) <= Total(v, pc)
  {
    if pc == [] {
    } else {
      TotalCompare(w, v, pc[1..]);
    }
  }
}
