/** The sorting routines in place on an array, as one process runs them. */
module HybridSort {
  import opened SortSpec

  const INSERTSORT_MAX := 32

  method InsertionSort(table: array<int>, left: nat, right: nat)
    requires left <= right < table.Length
    modifies table
    ensures Permuted(old(table[..]), table[..], left, right + 1) && Sorted(table[..], left, right + 1)
  {
    ghost var s := table[..];
    var pivot := left + 1;
    while pivot <= right
      invariant left < pivot <= right + 1
      invariant Permuted(s, table[..], left, right + 1) && Sorted(table[..], left, pivot)
    {
      ghost var t := table[..];
      InsertStep(table, left, pivot, right);
      PermutedTrans(s, t, table[..], left, right + 1);
      pivot := pivot + 1;
    }
  }

  method InsertStep(table: array<int>, left: nat, pivot: nat, right: nat)
    requires left <= pivot <= right < table.Length && Sorted(table[..], left, pivot)
    modifies table
    ensures Permuted(old(table[..]), table[..], left, right + 1) && Sorted(table[..], left, pivot + 1)
  {
    InsertedInRange(table[..], left, pivot, right + 1);
    InsertOne(table, left, pivot);
  }

  /* One turn of the outer loop: find the place, shift, store. */
  method InsertOne(table: array<int>, left: nat, pivot: nat)
    requires left <= pivot < table.Length
    modifies table
    ensures table[..] == Inserted(old(table[..]), left, pivot)
  {
    ghost var s := table[..];
    var insert := left;
    while insert < pivot && table[insert] < table[pivot]
      invariant left <= insert <= pivot
      invariant InsertPos(s, left, pivot) == InsertPos(s, insert, pivot)
    {
      insert := insert + 1;
    }
    if insert < pivot {
      var tmp := table[pivot];
      forall i | insert < i <= pivot {
        table[i] := table[i - 1];
      }
      table[insert] := tmp;
    }
    ShiftInserts(s, left, pivot, table[..]);
  }

  method SwapElem(table: array<int>, i: nat, j: nat)
    requires i < table.Length && j < table.Length
    modifies table
    ensures table[..] == Swap(old(table[..]), i, j)
  {
    var tmp := table[i];
    table[i] := table[j];
    table[j] := tmp;
  }

  /* The two inner loops of Partition: skip what already is on its side. */
  method SkipSorted(table: array<int>, begin: nat, end: nat, l0: nat, r0: nat, pivot: int, ghost idx: nat)
    returns (left: nat, right: nat)
    requires Partitioning(table[..], begin, end, l0, r0, pivot) && PivotKept(table[..], begin, l0, pivot, idx)
    ensures l0 <= left <= right <= r0
    ensures Partitioning(table[..], begin, end, left, right, pivot) && PivotKept(table[..], begin, left, pivot, idx)
    ensures left < right ==> table[left] >= pivot && table[right] < pivot
    ensures l0 < r0 && table[l0] < pivot ==> l0 < left
  {
    left, right := l0, r0;
    while left < right && table[left] < pivot
      invariant l0 <= left <= right && right == r0
      invariant Partitioning(table[..], begin, end, left, right, pivot) && PivotKept(table[..], begin, left, pivot, idx)
    {
      PartitionMove(table[..], begin, end, left, right, pivot);
      left := left + 1;
    }
    while left < right && table[right] >= pivot
      invariant left <= right <= r0 && (left < right ==> table[left] >= pivot)
      invariant Partitioning(table[..], begin, end, left, right, pivot)
    {
      PartitionMove(table[..], begin, end, left, right, pivot);
      right := right - 1;
    }
  }

  /* The exchange at the end of a turn of the outer loop. */
  method Exchange(table: array<int>, begin: nat, end: nat, left: nat, right: nat, pivot: int)
    requires Partitioning(table[..], begin, end, left, right, pivot)
    requires left < right && table[left] >= pivot && table[right] < pivot
    modifies table
    ensures Partitioning(table[..], begin, end, left, right, pivot)
    ensures Permuted(old(table[..]), table[..], begin, end + 1) && table[left] < pivot
  {
    PartitionSwap(table[..], begin, end, left, right, pivot);
    SwapElem(table, left, right);
  }

  /* One turn of the outer loop of Partition. */
  method PartitionTurn(table: array<int>, begin: nat, end: nat, l0: nat, r0: nat, pivot: int, ghost idx: nat)
    returns (left: nat, right: nat)
    requires Partitioning(table[..], begin, end, l0, r0, pivot) && PivotKept(table[..], begin, l0, pivot, idx)
    modifies table
    ensures l0 <= left <= right <= r0
    ensures Partitioning(table[..], begin, end, left, right, pivot) && PivotKept(table[..], begin, left, pivot, idx)
    ensures Permuted(old(table[..]), table[..], begin, end + 1)
    ensures left < right ==> table[left] < pivot
    ensures l0 < r0 && old(table[l0]) < pivot ==> l0 < left
  {
    PermutedRefl(table[..], begin, end + 1);
    left, right := SkipSorted(table, begin, end, l0, r0, pivot, idx);
    if left < right {
      Exchange(table, begin, end, left, right, pivot);
    }
  }

  /* The pivot is some element of the range. Below the result everything is smaller than
     the pivot, from there on nothing is; when the result is `begin`, nothing was moved. */
  method Partition(table: array<int>, begin: nat, end: nat, pivot: int, ghost idx: nat) returns (split: nat)
    requires begin <= idx <= end < table.Length && table[idx] == pivot
    modifies table
    ensures Permuted(old(table[..]), table[..], begin, end + 1)
    ensures Partitioning(table[..], begin, end, split, split, pivot)
    ensures split == begin ==> table[idx] == pivot
  {
    ghost var s := table[..];
    var left: nat, right: nat := begin, end;
    assert Partitioning(s, begin, end, begin, end, pivot);
    while left < right
      invariant Permuted(s, table[..], begin, end + 1)
      invariant Partitioning(table[..], begin, end, left, right, pivot)
      invariant PivotKept(table[..], begin, left, pivot, idx)
      decreases right - left, if left < right && table[left] >= pivot then 1 else 0
    {
      ghost var t := table[..];
      left, right := PartitionTurn(table, begin, end, left, right, pivot, idx);
      PermutedTrans(s, t, table[..], begin, end + 1);
    }
    split := left;
    PartitionEnds(table[..], begin, end, split, pivot);
  }

  /* Partition around the element at `pivot`, so that both parts are not empty. When
     nothing is smaller than the pivot, it becomes the left part alone. */
  method SplitRange(table: array<int>, left: nat, right: nat, pivot: nat) returns (split: nat, alone: bool)
    requires left <= pivot <= right < table.Length && left < right
    modifies table
    ensures left < split <= right && (alone ==> split == left + 1)
    ensures Permuted(old(table[..]), table[..], left, right + 1) && Ordered(table[..], left, split, right + 1)
  {
    split := Partition(table, left, right, table[pivot], pivot);
    alone := left == split;
    if alone {
      ghost var t := table[..];
      BringForward(table, left, right, pivot);
      PermutedTrans(old(table[..]), t, table[..], left, right + 1);
      split := split + 1;
    } else {
      PartitionEnds(table[..], left, right, split, old(table[pivot]));
    }
  }

  /* Nothing is smaller than the pivot: it goes to the front of the range. */
  method BringForward(table: array<int>, left: nat, right: nat, pivot: nat)
    requires left <= pivot <= right < table.Length
    requires Partitioning(table[..], left, right, left, left, table[pivot])
    modifies table
    ensures Permuted(old(table[..]), table[..], left, right + 1) && Ordered(table[..], left, left + 1, right + 1)
  {
    LeastToFront(table[..], left, right, table[pivot], pivot);
    SwapElem(table, left, pivot);
  }

  /* QuickSort, as run by a process without children, for any choice of pivots. */
  method QuickSort(table: array<int>, left: nat, right: nat)
    requires left <= right < table.Length
    modifies table
    ensures Permuted(old(table[..]), table[..], left, right + 1) && Sorted(table[..], left, right + 1)
    decreases right - left
  {
    if left < right {
      if right - left <= INSERTSORT_MAX {
        InsertionSort(table, left, right);
      } else {
        ghost var s := table[..];
        var pivot: nat :| left <= pivot <= right;
        var split, alone := SplitRange(table, left, right, pivot);
        ghost var t := table[..];
        PermutedRefl(t, left, split);
        if !alone {
          QuickSort(table, left, split - 1);
        }
        LeftSorted(s, t, table[..], left, split, right);
        ghost var u := table[..];
        QuickSort(table, split, right);
        RightSorted(s, u, table[..], left, split, right);
      }
    }
  }

  /* Reordering a part of a range reorders the range. */
  lemma PartPermuted(s: seq<int>, t: seq<int>, u: seq<int>, l: nat, r: nat, lo: nat, hi: nat)
    requires Permuted(s, t, l, r + 1) && Permuted(t, u, lo, hi) && l <= lo && hi <= r + 1
    ensures Permuted(s, u, l, r + 1)
  {
    PermutedWiden(t, u, lo, hi, l, r + 1);
    PermutedTrans(s, t, u, l, r + 1);
  }

  /* Sorting the left part keeps the parts in order. */
  lemma LeftSorted(s: seq<int>, t: seq<int>, u: seq<int>, l: nat, m: nat, r: nat)
    requires l < m <= r < |s| && Permuted(s, t, l, r + 1) && Ordered(t, l, m, r + 1)
    requires Permuted(t, u, l, m)
    ensures Permuted(s, u, l, r + 1) && Ordered(u, l, m, r + 1)
  {
    PartPermuted(s, t, u, l, r, l, m);
    OrderedKept(t, u, l, m, r + 1);
  }

  /* Then sorting the right part sorts the whole range. */
  lemma RightSorted(s: seq<int>, t: seq<int>, u: seq<int>, l: nat, m: nat, r: nat)
    requires l < m <= r < |s| && Permuted(s, t, l, r + 1) && Ordered(t, l, m, r + 1) && Sorted(t, l, m)
    requires Permuted(t, u, m, r + 1) && Sorted(u, m, r + 1)
    ensures Permuted(s, u, l, r + 1) && Sorted(u, l, r + 1)
  {
    PartPermuted(s, t, u, l, r, m, r + 1);
    PartsSorted(t, u, l, m, r);
  }

  lemma PartsSorted(t: seq<int>, u: seq<int>, l: nat, m: nat, r: nat)
    requires l < m <= r < |t| && Ordered(t, l, m, r + 1) && Sorted(t, l, m)
    requires Permuted(t, u, m, r + 1) && Sorted(u, m, r + 1)
    ensures Sorted(u, l, r + 1)
  {
    OrderedKept(t, u, l, m, r + 1);
    SortedKept(t, u, l, m);
    SortedJoin(u, l, m, r + 1);
  }

  /* What main asks for and then checks, on a table small enough that nothing forks. */
  method SortTable(table: array<int>)
    requires table.Length > 0
    modifies table
    ensures forall i, j :: 0 <= i < j < table.Length ==> table[i] <= table[j]
    ensures multiset(table[..]) == multiset(old(table[..]))
  {
    QuickSort(table, 0, table.Length - 1);
    SortedMeans(table[..], 0, table.Length);
    PermutedMeans(old(table[..]), table[..], 0, table.Length);
    forall i, j | 0 <= i < j < table.Length ensures table[i] <= table[j] {
      assert table[..][i] <= table[..][j];
    }
  }
}
