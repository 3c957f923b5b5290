/** Sorting in place, on sequences: what swaps and insertions do to a range of a table. */
module SortSpec {

  predicate InOrder(s: seq<int>, i: int, j: int)
    requires 0 <= i < |s| && 0 <= j < |s|
  {
    s[i] <= s[j]
  }

  /* s[lo..hi] is in order. */
  predicate Sorted(s: seq<int>, lo: nat, hi: nat)
    requires hi <= |s|
  {
    forall i, j :: lo <= i < j < hi ==> InOrder(s, i, j)
  }

  /* Only s[lo..hi] was changed, and only its order. */
  ghost predicate Permuted(s: seq<int>, t: seq<int>, lo: nat, hi: nat) {
    && lo <= hi <= |s| == |t|
    && (forall i :: 0 <= i < |s| && !(lo <= i < hi) ==> t[i] == s[i])
    && multiset(s[lo..hi]) == multiset(t[lo..hi])
  }

  /* What the two predicates say of the whole table. */
  lemma SortedMeans(s: seq<int>, lo: nat, hi: nat)
    requires hi <= |s|
    ensures Sorted(s, lo, hi) <==> forall i, j :: lo <= i < j < hi ==> s[i] <= s[j]
  {
    if forall i, j :: lo <= i < j < hi ==> s[i] <= s[j] {
      forall i, j | lo <= i < j < hi ensures InOrder(s, i, j) {
      }
    }
    if Sorted(s, lo, hi) {
      forall i, j | lo <= i < j < hi ensures s[i] <= s[j] {
        assert InOrder(s, i, j);
      }
    }
  }

  lemma PermutedMeans(s: seq<int>, t: seq<int>, lo: nat, hi: nat)
    requires Permuted(s, t, lo, hi)
    ensures multiset(t) == multiset(s) && t[..lo] == s[..lo] && t[hi..] == s[hi..]
  {
    assert t[..lo] == s[..lo];
    assert t[hi..] == s[hi..];
    MultisetOfParts(s, lo, hi);
    MultisetOfParts(t, lo, hi);
  }

  lemma MultisetOfParts(s: seq<int>, lo: nat, hi: nat)
    requires lo <= hi <= |s|
    ensures multiset(s) == multiset(s[..lo]) + multiset(s[lo..hi]) + multiset(s[hi..])
  {
    assert s == s[..lo] + s[lo..hi] + s[hi..];
  }

  function Swap(s: seq<int>, i: nat, j: nat): (t: seq<int>)
    requires i < |s| && j < |s|
  {
    s[i := s[j]][j := s[i]]
  }

  lemma PermutedRefl(s: seq<int>, lo: nat, hi: nat)
    requires lo <= hi <= |s|
    ensures Permuted(s, s, lo, hi)
  {
  }

  lemma PermutedTrans(s: seq<int>, t: seq<int>, u: seq<int>, lo: nat, hi: nat)
    requires Permuted(s, t, lo, hi) && Permuted(t, u, lo, hi)
    ensures Permuted(s, u, lo, hi)
  {
  }

  lemma PermutedWiden(s: seq<int>, t: seq<int>, lo: nat, hi: nat, lo': nat, hi': nat)
    requires Permuted(s, t, lo, hi) && lo' <= lo && hi <= hi' <= |s|
    ensures Permuted(s, t, lo', hi')
  {
    assert s[lo'..hi'] == s[lo'..lo] + s[lo..hi] + s[hi..hi'];
    assert t[lo'..hi'] == t[lo'..lo] + t[lo..hi] + t[hi..hi'];
    assert s[lo'..lo] == t[lo'..lo] && s[hi..hi'] == t[hi..hi'];
  }

  /* A property of all members of a range survives a permutation of it. */
  lemma PermutedMember(s: seq<int>, t: seq<int>, lo: nat, hi: nat, i: nat) returns (j: nat)
    requires Permuted(s, t, lo, hi) && lo <= i < hi
    ensures lo <= j < hi && s[j] == t[i]
  {
    assert t[lo..hi][i - lo] in multiset(t[lo..hi]);
    assert t[i] in s[lo..hi];
    var k :| 0 <= k < |s[lo..hi]| && s[lo..hi][k] == t[i];
    j := lo + k;
  }

  lemma SwapPermutes(s: seq<int>, i: nat, j: nat, lo: nat, hi: nat)
    requires lo <= i < hi && lo <= j < hi && hi <= |s|
    ensures Permuted(s, Swap(s, i, j), lo, hi)
  {
  }

  // ----- one insertion

  /* Where the element at `p` goes: before the first one that is not smaller. */
  function InsertPos(s: seq<int>, i: nat, p: nat): (k: nat)
    requires i <= p < |s|
    ensures i <= k <= p && (forall j :: i <= j < k ==> s[j] < s[p]) && (k < p ==> s[k] >= s[p])
    decreases p - i
  {
    if i < p && s[i] < s[p] then InsertPos(s, i + 1, p) else i
  }

  function Inserted(s: seq<int>, lo: nat, p: nat): (t: seq<int>)
    requires lo <= p < |s|
    ensures |t| == |s|
  {
    var k := InsertPos(s, lo, p);
    s[..k] + [s[p]] + s[k..p] + s[p + 1..]
  }

  /* Shifting the elements from the insertion point on is that insertion. */
  lemma ShiftInserts(s: seq<int>, lo: nat, p: nat, t: seq<int>)
    requires lo <= p < |s| == |t|
    requires var k := InsertPos(s, lo, p);
      && (forall i :: 0 <= i < |s| && !(k <= i <= p) ==> t[i] == s[i])
      && t[k] == s[p] && (forall i :: k < i <= p ==> t[i] == s[i - 1])
    ensures t == Inserted(s, lo, p)
  {
  }

  lemma InsertedPermutes(s: seq<int>, lo: nat, p: nat)
    requires lo <= p < |s|
    ensures Permuted(s, Inserted(s, lo, p), lo, p + 1)
  {
    MovedPermutes(s, lo, InsertPos(s, lo, p), p);
  }

  lemma MovedPermutes(s: seq<int>, lo: nat, k: nat, p: nat)
    requires lo <= k <= p < |s|
    ensures Permuted(s, s[..k] + [s[p]] + s[k..p] + s[p + 1..], lo, p + 1)
  {
    var t := s[..k] + [s[p]] + s[k..p] + s[p + 1..];
    assert s[lo..p + 1] == s[lo..k] + s[k..p] + [s[p]];
    assert t[lo..p + 1] == s[lo..k] + [s[p]] + s[k..p];
  }

  lemma InsertedSorts(s: seq<int>, lo: nat, p: nat)
    requires lo <= p < |s| && Sorted(s, lo, p)
    ensures Sorted(Inserted(s, lo, p), lo, p + 1)
  {
    var k, t := InsertPos(s, lo, p), Inserted(s, lo, p);
    forall i, j | lo <= i < j < p + 1 ensures InOrder(t, i, j) {
      var i' := if i < k then i else if i == k then p else i - 1;
      var j' := if j < k then j else if j == k then p else j - 1;
      assert t[i] == s[i'] && t[j] == s[j'];
      assert i' < j' < p ==> InOrder(s, i', j');
      assert k < j' < p ==> InOrder(s, k, j');
    }
  }

  lemma InsertedInRange(s: seq<int>, lo: nat, p: nat, hi: nat)
    requires lo <= p < hi <= |s| && Sorted(s, lo, p)
    ensures Permuted(s, Inserted(s, lo, p), lo, hi) && Sorted(Inserted(s, lo, p), lo, p + 1)
  {
    InsertedSorts(s, lo, p);
    InsertedPermutes(s, lo, p);
    PermutedWiden(s, Inserted(s, lo, p), lo, p + 1, lo, hi);
  }

  // ----- the partition

  /* Everything in s[lo..mid] is at most everything in s[mid..hi]. */
  predicate Ordered(s: seq<int>, lo: nat, mid: nat, hi: nat)
    requires hi <= |s|
  {
    forall i, j :: lo <= i < mid <= j < hi ==> InOrder(s, i, j)
  }

  lemma OrderedKept(s: seq<int>, t: seq<int>, lo: nat, mid: nat, hi: nat)
    requires lo <= mid <= hi <= |s| && Ordered(s, lo, mid, hi)
    requires Permuted(s, t, lo, mid) || Permuted(s, t, mid, hi)
    ensures Ordered(t, lo, mid, hi)
  {
    forall i, j | lo <= i < mid <= j < hi ensures InOrder(t, i, j) {
      if Permuted(s, t, lo, mid) {
        var a := PermutedMember(s, t, lo, mid, i);
        assert InOrder(s, a, j);
      } else {
        var b := PermutedMember(s, t, mid, hi, j);
        assert InOrder(s, i, b);
      }
    }
  }

  lemma OrderedSame(s: seq<int>, t: seq<int>, lo: nat, mid: nat, hi: nat)
    requires hi <= |s| == |t| && Ordered(s, lo, mid, hi) && forall i :: lo <= i < hi ==> t[i] == s[i]
    ensures Ordered(t, lo, mid, hi)
  {
    forall i, j | lo <= i < mid <= j < hi ensures InOrder(t, i, j) {
      assert InOrder(s, i, j);
    }
  }

  lemma SortedJoin(s: seq<int>, lo: nat, mid: nat, hi: nat)
    requires lo <= mid <= hi <= |s| && Sorted(s, lo, mid) && Sorted(s, mid, hi) && Ordered(s, lo, mid, hi)
    ensures Sorted(s, lo, hi)
  {
    forall i, j | lo <= i < j < hi ensures InOrder(s, i, j) {
    }
  }

  lemma SortedKept(s: seq<int>, t: seq<int>, lo: nat, hi: nat)
    requires hi <= |s| == |t| && Sorted(s, lo, hi) && forall i :: lo <= i < hi ==> t[i] == s[i]
    ensures Sorted(t, lo, hi)
  {
    forall i, j | lo <= i < j < hi ensures InOrder(t, i, j) {
      assert InOrder(s, i, j);
    }
  }

  lemma LastIsGreatest(s: seq<int>, t: seq<int>)
    requires multiset(s) == multiset(t) && Sorted(t, 0, |t|) && s != []
    ensures t != [] && s[|s| - 1] <= t[|t| - 1]
  {
    assert s[|s| - 1] in multiset(s);
    assert s[|s| - 1] in t;
    var i :| 0 <= i < |t| && t[i] == s[|s| - 1];
    assert i < |t| - 1 ==> InOrder(t, i, |t| - 1);
  }

  lemma DropLast(s: seq<int>)
    requires s != []
    ensures multiset(s[..|s| - 1]) == multiset(s) - multiset{s[|s| - 1]}
  {
    assert s == s[..|s| - 1] + [s[|s| - 1]];
  }

  lemma SortedFront(s: seq<int>)
    requires s != [] && Sorted(s, 0, |s|)
    ensures Sorted(s[..|s| - 1], 0, |s| - 1)
  {
    var front := s[..|s| - 1];
    forall i, j | 0 <= i < j < |s| - 1 ensures InOrder(front, i, j) {
      assert InOrder(s, i, j);
    }
  }

  /* A table has one sorted permutation. */
  lemma {:induction false} SortedIsUnique(s: seq<int>, t: seq<int>)
    requires multiset(s) == multiset(t) && Sorted(s, 0, |s|) && Sorted(t, 0, |t|)
    ensures s == t
    decreases |s|
  {
    if s == [] {
      assert |multiset(t)| == 0;
    } else {
      LastIsGreatest(s, t);
      LastIsGreatest(t, s);
      DropLast(s);
      DropLast(t);
      SortedFront(s);
      SortedFront(t);
      SortedIsUnique(s[..|s| - 1], t[..|t| - 1]);
      assert s == s[..|s| - 1] + [s[|s| - 1]];
      assert t == t[..|t| - 1] + [t[|t| - 1]];
    }
  }

  /* The state of the partition loop: smaller elements below `lo`, others above `hi`, and
     an element that is not smaller in between. */
  ghost predicate Partitioning(s: seq<int>, l: nat, r: nat, lo: nat, hi: nat, pv: int) {
    && l <= lo <= hi <= r < |s|
    && (forall i :: l <= i < lo ==> s[i] < pv)
    && (forall i :: hi < i <= r ==> s[i] >= pv)
    && (exists i :: lo <= i <= hi && s[i] >= pv)
  }

  /* As long as nothing smaller has been met at the left end, nothing has been moved. */
  ghost predicate PivotKept(s: seq<int>, l: nat, lo: nat, pv: int, idx: nat) {
    l <= idx < |s| && (lo == l < |s| && s[l] >= pv ==> s[idx] == pv)
  }

  lemma PartitionSwap(s: seq<int>, l: nat, r: nat, lo: nat, hi: nat, pv: int)
    requires Partitioning(s, l, r, lo, hi, pv) && lo < hi && s[lo] >= pv && s[hi] < pv
    ensures Partitioning(Swap(s, lo, hi), l, r, lo, hi, pv) && Permuted(s, Swap(s, lo, hi), l, r + 1)
  {
    SwapPermutes(s, lo, hi, l, r + 1);
    assert Swap(s, lo, hi)[hi] >= pv;
  }

  lemma PartitionMove(s: seq<int>, l: nat, r: nat, lo: nat, hi: nat, pv: int)
    requires Partitioning(s, l, r, lo, hi, pv) && lo < hi
    ensures s[lo] < pv ==> Partitioning(s, l, r, lo + 1, hi, pv)
    ensures s[lo] >= pv && s[hi] >= pv ==> Partitioning(s, l, r, lo, hi - 1, pv)
  {
  }

  /* Where the loop ends, the two parts are in order. */
  lemma PartitionEnds(s: seq<int>, l: nat, r: nat, lo: nat, pv: int)
    requires Partitioning(s, l, r, lo, lo, pv)
    ensures (forall i :: l <= i < lo ==> s[i] < pv) && (forall i :: lo <= i <= r ==> s[i] >= pv)
    ensures Ordered(s, l, lo, r + 1)
  {
  }

  /* With nothing smaller than the pivot, swapping it to the front leaves a least element
     there. */
  lemma LeastToFront(s: seq<int>, l: nat, r: nat, pv: int, idx: nat)
    requires l <= idx <= r < |s| && Partitioning(s, l, r, l, l, pv) && s[idx] == pv
    ensures Ordered(Swap(s, l, idx), l, l + 1, r + 1) && Permuted(s, Swap(s, l, idx), l, r + 1)
  {
  }
}
