/** The three-level bitmap: a region of `64 * n` bytes with one bit per item, one of
    `8 * n` bytes with one bit per byte of the first, and one of `n` bytes with one bit
    per byte of the second. A summary bit says that its byte is full. */
module SummaryBitmap {
  import opened BitString

  /* Level 2 comes first, then level 1, then the bitmap itself. */
  function Level1Offset(n: nat): (o: nat) { n }
  function BitmapOffset(n: nat): (o: nat) { 9 * n }
  function Bytes(n: nat): (b: nat) { 73 * n }
  function Items(n: nat): (i: nat) { 512 * n }

  /* Bit `i` of the summary at `up` says whether byte `i` at `down` is full. */
  ghost predicate Summarises(s: seq<bv8>, up: nat, down: nat, n: nat)
    requires up + n <= |s| && down + 8 * n <= |s|
  {
    forall i: nat {:trigger BitAt(s, up, i)} :: i < 8 * n ==> (BitAt(s, up, i) <==> s[down + i] == 0xff)
  }

  ghost predicate Consistent(s: seq<bv8>, n: nat) {
    && Bytes(n) <= |s|
    && Summarises(s, 0, Level1Offset(n), n)
    && Summarises(s, Level1Offset(n), BitmapOffset(n), 8 * n)
  }

  /* The three levels represent `used`. */
  ghost predicate Represents(s: seq<bv8>, n: nat, used: set<nat>) {
    && Consistent(s, n)
    && Holds(s, BitmapOffset(n), 64 * n, used)
  }

  // ----- my_bit_set and my_bit_clear as updates of one level at a time

  function WithBit(s: seq<bv8>, off: nat, i: nat): (t: seq<bv8>)
    requires off + i / 8 < |s|
  {
    s[off + i / 8 := SetBit(s[off + i / 8], i % 8)]
  }

  function WithoutBit(s: seq<bv8>, off: nat, i: nat): (t: seq<bv8>)
    requires off + i / 8 < |s|
  {
    s[off + i / 8 := ClearBit(s[off + i / 8], i % 8)]
  }

  lemma WithBitAt(s: seq<bv8>, off: nat, i: nat, j: nat)
    requires off + i / 8 < |s| && off + j / 8 < |s|
    ensures BitAt(WithBit(s, off, i), off, j) <==> j == i || BitAt(s, off, j)
  {
  }

  lemma WithoutBitAt(s: seq<bv8>, off: nat, i: nat, j: nat)
    requires off + i / 8 < |s| && off + j / 8 < |s|
    ensures BitAt(WithoutBit(s, off, i), off, j) <==> j != i && BitAt(s, off, j)
  {
  }

  /* Every summary bit but number `x` is right. */
  ghost predicate SummarisesBut(s: seq<bv8>, up: nat, down: nat, n: nat, x: nat)
    requires up + n <= |s| && down + 8 * n <= |s|
  {
    forall i: nat {:trigger BitAt(s, up, i)} :: i < 8 * n && i != x ==> (BitAt(s, up, i) <==> s[down + i] == 0xff)
  }

  /* Changing byte `x` of the lower region leaves the other summary bits right. */
  lemma ByteChanged(s: seq<bv8>, up: nat, down: nat, n: nat, x: nat, b: bv8)
    requires up + n <= down && down + 8 * n <= |s| && x < 8 * n && SummarisesBut(s, up, down, n, x)
    ensures SummarisesBut(s[down + x := b], up, down, n, x)
  {
    var t := s[down + x := b];
    forall i: nat | i < 8 * n && i != x ensures BitAt(t, up, i) <==> t[down + i] == 0xff {
      assert BitAt(s, up, i) <==> s[down + i] == 0xff;
    }
  }

  /* Correcting the one summary bit restores the level. */
  lemma SummaryCorrected(s: seq<bv8>, up: nat, down: nat, n: nat, x: nat)
    requires up + n <= down && down + 8 * n <= |s| && x < 8 * n && SummarisesBut(s, up, down, n, x)
    ensures s[down + x] == 0xff ==> Summarises(WithBit(s, up, x), up, down, n)
    ensures s[down + x] != 0xff ==> Summarises(WithoutBit(s, up, x), up, down, n)
    ensures (BitAt(s, up, x) <==> s[down + x] == 0xff) ==> Summarises(s, up, down, n)
  {
    forall i: nat | i < 8 * n
      ensures BitAt(WithBit(s, up, x), up, i) <==> i == x || BitAt(s, up, i)
      ensures BitAt(WithoutBit(s, up, x), up, i) <==> i != x && BitAt(s, up, i)
    {
      WithBitAt(s, up, x, i);
      WithoutBitAt(s, up, x, i);
    }
  }

  /* A region is not touched by a change above it. */
  lemma ElsewhereChanged(s: seq<bv8>, up: nat, down: nat, n: nat, at: nat, b: bv8)
    requires up + n <= |s| && down + 8 * n <= |s| && at < |s|
    requires Summarises(s, up, down, n)
    requires !(up <= at < up + n) && !(down <= at < down + 8 * n)
    ensures Summarises(s[at := b], up, down, n)
  {
    var t := s[at := b];
    forall i: nat | i < 8 * n ensures BitAt(t, up, i) <==> t[down + i] == 0xff {
      assert BitAt(s, up, i) <==> s[down + i] == 0xff;
    }
  }

  lemma HoldsElsewhere(s: seq<bv8>, off: nat, n: nat, used: set<nat>, at: nat, b: bv8)
    requires Holds(s, off, n, used) && at < off
    ensures Holds(s[at := b], off, n, used)
  {
    var t := s[at := b];
    forall i: nat | i < 8 * n ensures BitAt(t, off, i) <==> i in used {
      assert BitAt(s, off, i) <==> i in used;
    }
  }

  // ----- the two operations

  function SetAll(s: seq<bv8>, n: nat, bit: nat): (t: seq<bv8>)
    requires Bytes(n) <= |s| && bit < Items(n)
    ensures |t| == |s|
  {
    var b1, b2 := bit / 8, bit / 8 / 8;
    var s1 := WithBit(s, BitmapOffset(n), bit);
    if s1[BitmapOffset(n) + b1] != 0xff then s1 else
      var s2 := WithBit(s1, Level1Offset(n), b1);
      if s2[Level1Offset(n) + b2] != 0xff then s2 else WithBit(s2, 0, b2)
  }

  function ClearAll(s: seq<bv8>, n: nat, bit: nat): (t: seq<bv8>)
    requires Bytes(n) <= |s| && bit < Items(n)
    ensures |t| == |s|
  {
    var b1, b2 := bit / 8, bit / 8 / 8;
    var s1 := WithoutBit(s, BitmapOffset(n), bit);
    if s1[Level1Offset(n) + b2] == 0 || s1[BitmapOffset(n) + b1] == 0xff then s1 else
      var s2 := WithoutBit(s1, Level1Offset(n), b1);
      if s2[b2 / 8] == 0 || s2[Level1Offset(n) + b2] == 0xff then s2 else WithoutBit(s2, 0, b2)
  }

  /* The bitmap level after a change of one of its bytes: level 1 is right but for the
     bit of that byte, level 2 is right. */
  ghost predicate Level1Pending(s: seq<bv8>, n: nat, used: set<nat>, b1: nat) {
    && Bytes(n) <= |s| && b1 < 64 * n && Holds(s, BitmapOffset(n), 64 * n, used)
    && SummarisesBut(s, Level1Offset(n), BitmapOffset(n), 8 * n, b1)
    && Summarises(s, 0, Level1Offset(n), n)
  }

  /* Level 1 is right; level 2 is right but for bit `b2`. */
  ghost predicate Level2Pending(s: seq<bv8>, n: nat, used: set<nat>, b2: nat) {
    && Bytes(n) <= |s| && b2 < 8 * n && Holds(s, BitmapOffset(n), 64 * n, used)
    && Summarises(s, Level1Offset(n), BitmapOffset(n), 8 * n)
    && SummarisesBut(s, 0, Level1Offset(n), n, b2)
  }

  /* A bit was set and its byte is still not full: the summary stays right. */
  lemma NotFullYet(s: seq<bv8>, up: nat, down: nat, n: nat, i: nat)
    requires up + n <= down && down + 8 * n <= |s| && i / 8 < 8 * n && Summarises(s, up, down, n)
    requires SetBit(s[down + i / 8], i % 8) != 0xff
    ensures Summarises(WithBit(s, down, i), up, down, n)
  {
    var b := SetBit(s[down + i / 8], i % 8);
    SetBitFull(s[down + i / 8], i % 8);
    ByteChanged(s, up, down, n, i / 8, b);
    assert BitAt(s, up, i / 8) <==> s[down + i / 8] == 0xff;
    SummaryCorrected(WithBit(s, down, i), up, down, n, i / 8);
  }

  lemma ByteSet(s: seq<bv8>, n: nat, used: set<nat>, bit: nat)
    requires Represents(s, n, used) && bit < Items(n)
    ensures var t := WithBit(s, BitmapOffset(n), bit);
      && Level1Pending(t, n, used + {bit}, bit / 8)
      && (t[BitmapOffset(n) + bit / 8] != 0xff ==> Represents(t, n, used + {bit}))
  {
    var at := BitmapOffset(n) + bit / 8;
    var b := SetBit(s[at], bit % 8);
    SetHolds(s, BitmapOffset(n), 64 * n, used, bit);
    ByteChanged(s, Level1Offset(n), BitmapOffset(n), 8 * n, bit / 8, b);
    ElsewhereChanged(s, 0, Level1Offset(n), n, at, b);
    if b != 0xff {
      NotFullYet(s, Level1Offset(n), BitmapOffset(n), 8 * n, bit);
    }
  }

  lemma ByteCleared(s: seq<bv8>, n: nat, used: set<nat>, bit: nat)
    requires Represents(s, n, used) && bit < Items(n)
    ensures var t := WithoutBit(s, BitmapOffset(n), bit);
      Level1Pending(t, n, used - {bit}, bit / 8) && t[BitmapOffset(n) + bit / 8] != 0xff
  {
    var at := BitmapOffset(n) + bit / 8;
    var b := ClearBit(s[at], bit % 8);
    ClearHolds(s, BitmapOffset(n), 64 * n, used, bit);
    ByteChanged(s, Level1Offset(n), BitmapOffset(n), 8 * n, bit / 8, b);
    ElsewhereChanged(s, 0, Level1Offset(n), n, at, b);
    SetBitFull(s[at], bit % 8);
  }

  lemma Level1Set(s: seq<bv8>, n: nat, used: set<nat>, b1: nat)
    requires Level1Pending(s, n, used, b1) && s[BitmapOffset(n) + b1] == 0xff
    ensures var t := WithBit(s, Level1Offset(n), b1);
      Level2Pending(t, n, used, b1 / 8) && (t[Level1Offset(n) + b1 / 8] != 0xff ==> Represents(t, n, used))
  {
    var at := Level1Offset(n) + b1 / 8;
    var b := SetBit(s[at], b1 % 8);
    SummaryCorrected(s, Level1Offset(n), BitmapOffset(n), 8 * n, b1);
    HoldsElsewhere(s, BitmapOffset(n), 64 * n, used, at, b);
    ByteChanged(s, 0, Level1Offset(n), n, b1 / 8, b);
    if b != 0xff {
      NotFullYet(s, 0, Level1Offset(n), n, b1);
    }
  }

  lemma Level1Cleared(s: seq<bv8>, n: nat, used: set<nat>, b1: nat)
    requires Level1Pending(s, n, used, b1) && s[BitmapOffset(n) + b1] != 0xff
    ensures var t := WithoutBit(s, Level1Offset(n), b1);
      Level2Pending(t, n, used, b1 / 8) && t[Level1Offset(n) + b1 / 8] != 0xff
    ensures s[Level1Offset(n) + b1 / 8] == 0 ==> Represents(s, n, used)
  {
    var at := Level1Offset(n) + b1 / 8;
    var b := ClearBit(s[at], b1 % 8);
    SummaryCorrected(s, Level1Offset(n), BitmapOffset(n), 8 * n, b1);
    HoldsElsewhere(s, BitmapOffset(n), 64 * n, used, at, b);
    ByteChanged(s, 0, Level1Offset(n), n, b1 / 8, b);
    SetBitFull(s[at], b1 % 8);
  }

  lemma Level2Corrected(s: seq<bv8>, n: nat, used: set<nat>, b2: nat)
    requires Level2Pending(s, n, used, b2)
    ensures s[Level1Offset(n) + b2] == 0xff ==> Represents(WithBit(s, 0, b2), n, used)
    ensures s[Level1Offset(n) + b2] != 0xff ==> Represents(WithoutBit(s, 0, b2), n, used)
    ensures s[Level1Offset(n) + b2] != 0xff && s[b2 / 8] == 0 ==> Represents(s, n, used)
  {
    var up, down := SetBit(s[b2 / 8], b2 % 8), ClearBit(s[b2 / 8], b2 % 8);
    SummaryCorrected(s, 0, Level1Offset(n), n, b2);
    HoldsElsewhere(s, BitmapOffset(n), 64 * n, used, b2 / 8, up);
    HoldsElsewhere(s, BitmapOffset(n), 64 * n, used, b2 / 8, down);
    ElsewhereChanged(s, Level1Offset(n), BitmapOffset(n), 8 * n, b2 / 8, up);
    ElsewhereChanged(s, Level1Offset(n), BitmapOffset(n), 8 * n, b2 / 8, down);
    SetBitFull(s[b2 / 8], b2 % 8);
  }

  /* Setting and clearing a bit keep all three levels in agreement. */
  lemma SetAllRepresents(s: seq<bv8>, n: nat, used: set<nat>, bit: nat)
    requires Represents(s, n, used) && bit < Items(n)
    ensures Represents(SetAll(s, n, bit), n, used + {bit})
  {
    ByteSet(s, n, used, bit);
    var s1 := WithBit(s, BitmapOffset(n), bit);
    if s1[BitmapOffset(n) + bit / 8] == 0xff {
      Level1Set(s1, n, used + {bit}, bit / 8);
      Level2Corrected(WithBit(s1, Level1Offset(n), bit / 8), n, used + {bit}, bit / 8 / 8);
    }
  }

  lemma ClearAllRepresents(s: seq<bv8>, n: nat, used: set<nat>, bit: nat)
    requires Represents(s, n, used) && bit < Items(n)
    ensures Represents(ClearAll(s, n, bit), n, used - {bit})
  {
    ByteCleared(s, n, used, bit);
    var s1 := WithoutBit(s, BitmapOffset(n), bit);
    Level1Cleared(s1, n, used - {bit}, bit / 8);
    if s1[Level1Offset(n) + bit / 8 / 8] != 0 {
      Level2Corrected(WithoutBit(s1, Level1Offset(n), bit / 8), n, used - {bit}, bit / 8 / 8);
    }
  }

  // ----- the search

  predicate Full(s: seq<bv8>, off: nat, a: nat)
    requires off + a < |s|
  {
    s[off + a] == 0xff
  }

  /* Bit `x` of the `m` bytes at `off` is the first one that is clear. */
  ghost predicate FirstClear(s: seq<bv8>, off: nat, m: nat, x: nat) {
    && off + m <= |s| && x < 8 * m && !BitAt(s, off, x)
    && forall j: nat :: j < x ==> BitAt(s, off, j)
  }

  lemma ByteHasFirstClear(s: seq<bv8>, off: nat, m: nat, b: nat)
    requires off + m <= |s| && b < m && s[off + b] != 0xff
    requires forall a: nat :: a < b ==> Full(s, off, a)
    ensures FirstClear(s, off, m, 8 * b + TrailingOnes(s[off + b]))
  {
    var x := 8 * b + TrailingOnes(s[off + b]);
    forall j: nat | j < x ensures BitAt(s, off, j) {
      if j < 8 * b {
        assert Full(s, off, j / 8);
        FullByte(s[off + j / 8]);
      }
    }
  }

  /* From the first clear summary bit to the first clear bit of the level below. */
  lemma Descend(s: seq<bv8>, up: nat, down: nat, n: nat, x: nat)
    requires up + n <= |s| && down + 8 * n <= |s| && Summarises(s, up, down, n) && FirstClear(s, up, n, x)
    ensures s[down + x] != 0xff && FirstClear(s, down, 8 * n, 8 * x + TrailingOnes(s[down + x]))
  {
    forall a: nat | a < x ensures Full(s, down, a) {
      assert BitAt(s, up, a);
    }
    ByteHasFirstClear(s, down, 8 * n, x);
  }

  /* Going up: a byte that is not full has a byte that is not full above it. */
  lemma Ascend(s: seq<bv8>, up: nat, down: nat, n: nat, i: nat)
    requires up + n <= |s| && down + 8 * n <= |s| && Summarises(s, up, down, n)
    requires i < 8 * n && s[down + i] != 0xff
    ensures s[up + i / 8] != 0xff
  {
    FullByte(s[up + i / 8]);
    assert !BitAt(s, up, i);
  }

  lemma Level2HasRoom(s: seq<bv8>, n: nat, used: set<nat>, i: nat)
    requires Represents(s, n, used) && i < Items(n) && i !in used
    ensures i / 512 < n && s[i / 512] != 0xff
  {
    ByteOf(s, BitmapOffset(n), 64 * n, used, i / 8);
    Ascend(s, Level1Offset(n), BitmapOffset(n), 8 * n, i / 8);
    Ascend(s, 0, Level1Offset(n), n, i / 64);
  }

  lemma FirstClearIsLeast(s: seq<bv8>, off: nat, m: nat, used: set<nat>, x: nat)
    requires Holds(s, off, m, used) && FirstClear(s, off, m, x)
    ensures LeastClear(used, x)
  {
    forall j: nat | j < x ensures j in used {
      assert BitAt(s, off, j) <==> j in used;
    }
    assert BitAt(s, off, x) <==> x in used;
  }

  /* From the first clear bit of level 1 to the least clear index. */
  lemma LastLevel(s: seq<bv8>, n: nat, used: set<nat>, x: nat)
    requires Represents(s, n, used) && FirstClear(s, Level1Offset(n), 8 * n, x)
    ensures s[BitmapOffset(n) + x] != 0xff && LeastClear(used, 8 * x + TrailingOnes(s[BitmapOffset(n) + x]))
  {
    Descend(s, Level1Offset(n), BitmapOffset(n), 8 * n, x);
    FirstClearIsLeast(s, BitmapOffset(n), 64 * n, used, 8 * x + TrailingOnes(s[BitmapOffset(n) + x]));
  }

  /* From the first byte of level 2 that is not full, two steps down lead to the least
     clear index, and never leave the regions. */
  lemma ThreeLevels(s: seq<bv8>, n: nat, used: set<nat>, b: nat)
    requires Represents(s, n, used) && b < n && s[b] != 0xff
    requires forall a: nat :: a < b ==> Full(s, 0, a)
    ensures var x2 := 8 * b + TrailingOnes(s[b]);
      x2 < 8 * n && s[Level1Offset(n) + x2] != 0xff &&
      var x1 := 8 * x2 + TrailingOnes(s[Level1Offset(n) + x2]);
      x1 < 64 * n && s[BitmapOffset(n) + x1] != 0xff &&
      LeastClear(used, 8 * x1 + TrailingOnes(s[BitmapOffset(n) + x1]))
  {
    ByteHasFirstClear(s, 0, n, b);
    var x2 := 8 * b + TrailingOnes(s[b]);
    Descend(s, 0, Level1Offset(n), n, x2);
    LastLevel(s, n, used, 8 * x2 + TrailingOnes(s[Level1Offset(n) + x2]));
  }

  /* my_bit_ffc: down the three levels; `i` is some index that is not used. */
  method FindFirstClear(bitmap: array<bv8>, n: nat, ghost used: set<nat>, ghost i: nat) returns (index: nat)
    requires Represents(bitmap[..], n, used) && i < Items(n) && i !in used
    ensures index < Items(n) && LeastClear(used, index)
    ensures index !in used && forall j: nat :: j < index ==> j in used
  {
    ghost var s := bitmap[..];
    Level2HasRoom(s, n, used, i);
    var level2 := 0;
    while bitmap[level2] == 0xff
      invariant level2 <= i / 512
      invariant forall a: nat :: a < level2 ==> Full(s, 0, a)
      decreases n - level2
    {
      level2 := level2 + 1;
    }
    ThreeLevels(s, n, used, level2);
    var level1 := 8 * level2 + TrailingOnes(bitmap[level2]);
    var byte := 8 * level1 + TrailingOnes(bitmap[Level1Offset(n) + level1]);
    index := 8 * byte + TrailingOnes(bitmap[BitmapOffset(n) + byte]);
  }

  /* The scan of the plain bitmap. */
  method FlatFirstClear(bitmap: array<bv8>, n: nat, ghost used: set<nat>, ghost i: nat) returns (index: nat)
    requires Holds(bitmap[..], 0, n, used) && i < 8 * n && i !in used
    ensures index < 8 * n && LeastClear(used, index)
    ensures index !in used && forall j: nat :: j < index ==> j in used
  {
    ghost var s := bitmap[..];
    ByteOf(s, 0, n, used, i / 8);
    var b := 0;
    while bitmap[b] == 0xff
      invariant b <= i / 8
      invariant forall a: nat :: a < b ==> Full(s, 0, a)
      decreases n - b
    {
      b := b + 1;
    }
    ByteHasFirstClear(s, 0, n, b);
    index := 8 * b + TrailingOnes(bitmap[b]);
    FirstClearIsLeast(s, 0, n, used, index);
  }

  method MyBitSet(bitmap: array<bv8>, n: nat, bit: nat, ghost used: set<nat>)
    requires Represents(bitmap[..], n, used) && bit < Items(n)
    modifies bitmap
    ensures Represents(bitmap[..], n, used + {bit})
  {
    ghost var s := bitmap[..];
    var b1, b2 := bit / 8, bit / 8 / 8;
    var at := BitmapOffset(n) + bit / 8;
    bitmap[at] := SetBit(bitmap[at], bit % 8);
    assert bitmap[..] == WithBit(s, BitmapOffset(n), bit);
    if bitmap[at] == 0xff {
      ghost var s1 := bitmap[..];
      bitmap[Level1Offset(n) + b1 / 8] := SetBit(bitmap[Level1Offset(n) + b1 / 8], b1 % 8);
      assert bitmap[..] == WithBit(s1, Level1Offset(n), b1);
      if bitmap[Level1Offset(n) + b1 / 8] == 0xff {
        bitmap[b2 / 8] := SetBit(bitmap[b2 / 8], b2 % 8);
      }
    }
    assert bitmap[..] == SetAll(s, n, bit);
    SetAllRepresents(s, n, used, bit);
  }

  method MyBitClear(bitmap: array<bv8>, n: nat, bit: nat, ghost used: set<nat>)
    requires Represents(bitmap[..], n, used) && bit < Items(n)
    modifies bitmap
    ensures Represents(bitmap[..], n, used - {bit})
  {
    ghost var s := bitmap[..];
    ClearAllRepresents(s, n, used, bit);
    var b1, b2 := bit / 8, bit / 8 / 8;
    var at := BitmapOffset(n) + bit / 8;
    bitmap[at] := ClearBit(bitmap[at], bit % 8);
    ghost var s1 := bitmap[..];
    assert s1 == WithoutBit(s, BitmapOffset(n), bit);
    if bitmap[Level1Offset(n) + b1 / 8] != 0 && bitmap[at] != 0xff {
      bitmap[Level1Offset(n) + b1 / 8] := ClearBit(bitmap[Level1Offset(n) + b1 / 8], b1 % 8);
      ghost var s2 := bitmap[..];
      assert s2 == WithoutBit(s1, Level1Offset(n), b1);
      if bitmap[b2 / 8] != 0 && bitmap[Level1Offset(n) + b1 / 8] != 0xff {
        bitmap[b2 / 8] := ClearBit(bitmap[b2 / 8], b2 % 8);
        assert bitmap[..] == WithoutBit(s2, 0, b2);
      }
    }
    assert bitmap[..] == ClearAll(s, n, bit);
  }

  // ----- whole runs

  datatype BitOp = Set(i: nat) | Clear(i: nat)

  ghost function UsedAfter(ops: seq<BitOp>): (used: set<nat>) {
    if ops == [] then {} else
      var u := UsedAfter(ops[..|ops| - 1]);
      match ops[|ops| - 1]
      case Set(i) => u + {i}
      case Clear(i) => u - {i}
  }

  /* The three-level bitmap of `n` bytes at the top after the operations, from all zeros. */
  function LayersAfter(n: nat, ops: seq<BitOp>): (s: seq<bv8>)
    requires forall o :: o in ops ==> o.i < Items(n)
    ensures |s| == Bytes(n)
  {
    if ops == [] then seq(Bytes(n), _ => 0 as bv8) else
      var s, o := LayersAfter(n, ops[..|ops| - 1]), ops[|ops| - 1];
      assert o.i < Items(n);
      match o
      case Set(i) => SetAll(s, n, i)
      case Clear(i) => ClearAll(s, n, i)
  }

  function FlatAfter(n: nat, ops: seq<BitOp>): (s: seq<bv8>)
    requires forall o :: o in ops ==> o.i < Items(n)
    ensures |s| == 64 * n
  {
    if ops == [] then seq(64 * n, _ => 0 as bv8) else
      var s, o := FlatAfter(n, ops[..|ops| - 1]), ops[|ops| - 1];
      assert o.i < Items(n);
      match o
      case Set(i) => WithBit(s, 0, i)
      case Clear(i) => WithoutBit(s, 0, i)
  }

  lemma ZeroesRepresent(s: seq<bv8>, n: nat)
    requires |s| == Bytes(n) && forall i :: 0 <= i < |s| ==> s[i] == 0
    ensures Represents(s, n, {})
  {
  }

  /* After any sequence of operations a level-1 bit is set exactly when its bitmap byte is
     full, a level-2 bit exactly when its level-1 byte is, and the bits are those set last. */
  lemma {:induction false} LayersStayConsistent(n: nat, ops: seq<BitOp>)
    requires forall o :: o in ops ==> o.i < Items(n)
    ensures Represents(LayersAfter(n, ops), n, UsedAfter(ops))
  {
    if ops == [] {
      ZeroesRepresent(LayersAfter(n, ops), n);
    } else {
      var before, o := ops[..|ops| - 1], ops[|ops| - 1];
      LayersStayConsistent(n, before);
      SetAllRepresents(LayersAfter(n, before), n, UsedAfter(before), o.i);
      ClearAllRepresents(LayersAfter(n, before), n, UsedAfter(before), o.i);
    }
  }

  lemma {:induction false} FlatHolds(n: nat, ops: seq<BitOp>)
    requires forall o :: o in ops ==> o.i < Items(n)
    ensures Holds(FlatAfter(n, ops), 0, 64 * n, UsedAfter(ops))
  {
    if ops == [] {
      var s := FlatAfter(n, ops);
      forall i: nat | i < 512 * n ensures !BitAt(s, 0, i) {
        SetBitFull(s[i / 8], i % 8);
      }
    } else {
      var before, o := ops[..|ops| - 1], ops[|ops| - 1];
      FlatHolds(n, before);
      SetHolds(FlatAfter(n, before), 0, 64 * n, UsedAfter(before), o.i);
      ClearHolds(FlatAfter(n, before), 0, 64 * n, UsedAfter(before), o.i);
    }
  }

  /* In every run both builds have the same first clear bit. */
  lemma BuildsAgree(n: nat, ops: seq<BitOp>, x: nat)
    requires forall o :: o in ops ==> o.i < Items(n)
    ensures FirstClear(LayersAfter(n, ops), BitmapOffset(n), 64 * n, x) <==> FirstClear(FlatAfter(n, ops), 0, 64 * n, x)
  {
    LayersStayConsistent(n, ops);
    FlatHolds(n, ops);
    var s, t := LayersAfter(n, ops), FlatAfter(n, ops);
    forall i: nat | i < 512 * n ensures BitAt(s, BitmapOffset(n), i) <==> BitAt(t, 0, i) {
      assert BitAt(s, BitmapOffset(n), i) <==> i in UsedAfter(ops);
    }
  }

  /* Hence so do their searches: my_bit_ffc on the three levels and the scan of the plain
     bitmap return the same index, the least one that is free. */
  method SearchBoth(layers: array<bv8>, flat: array<bv8>, n: nat, ghost ops: seq<BitOp>, ghost room: nat)
    returns (x: nat, y: nat)
    requires forall o :: o in ops ==> o.i < Items(n)
    requires layers[..] == LayersAfter(n, ops) && flat[..] == FlatAfter(n, ops)
    requires room < Items(n) && room !in UsedAfter(ops)
    ensures x == y < Items(n) && LeastClear(UsedAfter(ops), x)
    ensures x !in UsedAfter(ops) && forall j: nat :: j < x ==> j in UsedAfter(ops)
  {
    LayersStayConsistent(n, ops);
    FlatHolds(n, ops);
    x := FindFirstClear(layers, n, UsedAfter(ops), room);
    y := FlatFirstClear(flat, 64 * n, UsedAfter(ops), room);
  }
}
