/** Bits of bytes and of byte strings, and the scan for the first clear bit. */
module BitString {

  /* The byte with just bit `k` set. */
  function Mask(k: nat): (m: bv8)
    requires k < 8
  {
    if k == 0 then 1 else if k == 1 then 2 else if k == 2 then 4 else if k == 3 then 8
    else if k == 4 then 16 else if k == 5 then 32 else if k == 6 then 64 else 128
  }

  lemma MaskIsShift(k: nat)
    requires k < 8
    ensures Mask(k) == (1 as bv8) << k
  {
  }

  predicate Bit(b: bv8, k: nat)
    requires k < 8
  {
    b & Mask(k) != 0
  }

  function SetBit(b: bv8, k: nat): (r: bv8)
    requires k < 8
  {
    b | Mask(k)
  }

  function ClearBit(b: bv8, k: nat): (r: bv8)
    requires k < 8
  {
    b & !Mask(k)
  }

  lemma SetBitAt(b: bv8, k: nat, j: nat)
    requires k < 8 && j < 8
    ensures Bit(SetBit(b, k), j) <==> j == k || Bit(b, j)
  {
  }

  lemma ClearBitAt(b: bv8, k: nat, j: nat)
    requires k < 8 && j < 8
    ensures Bit(ClearBit(b, k), j) <==> j != k && Bit(b, j)
  {
  }

  /* tzcnt of the complement: the number of trailing ones. */
  function TrailingOnes(b: bv8): (k: nat)
    requires b != 0xff
    ensures k < 8 && !Bit(b, k) && forall j :: 0 <= j < k ==> Bit(b, j)
  {
    if b & 1 == 0 then 0 else if b & 2 == 0 then 1 else if b & 4 == 0 then 2 else if b & 8 == 0 then 3
    else if b & 16 == 0 then 4 else if b & 32 == 0 then 5 else if b & 64 == 0 then 6 else 7
  }

  lemma FullByte(b: bv8)
    ensures b == 0xff <==> forall k :: 0 <= k < 8 ==> Bit(b, k)
  {
    if b != 0xff {
      assert !Bit(b, TrailingOnes(b));
    } else {
      forall k | 0 <= k < 8 ensures Bit(b, k) {}
    }
  }

  // ----- byte strings

  /* Bit `i` of the string that starts at byte `off`. */
  predicate BitAt(s: seq<bv8>, off: nat, i: nat)
    requires off + i / 8 < |s|
  {
    Bit(s[off + i / 8], i % 8)
  }

  /* The `n` bytes from `off` on hold the set `used`. */
  ghost predicate Holds(s: seq<bv8>, off: nat, n: nat, used: set<nat>) {
    && off + n <= |s|
    && (forall i :: i in used ==> i < 8 * n)
    && (forall i: nat {:trigger BitAt(s, off, i)} :: i < 8 * n ==> (BitAt(s, off, i) <==> i in used))
  }

  lemma SetHolds(s: seq<bv8>, off: nat, n: nat, used: set<nat>, i: nat)
    requires Holds(s, off, n, used) && i < 8 * n
    ensures Holds(s[off + i / 8 := SetBit(s[off + i / 8], i % 8)], off, n, used + {i})
  {
    var t := s[off + i / 8 := SetBit(s[off + i / 8], i % 8)];
    forall j: nat | j < 8 * n ensures BitAt(t, off, j) <==> j in used + {i} {
      SetBitAt(s[off + i / 8], i % 8, j % 8);
      assert BitAt(s, off, j) <==> j in used;
    }
  }

  lemma ClearHolds(s: seq<bv8>, off: nat, n: nat, used: set<nat>, i: nat)
    requires Holds(s, off, n, used) && i < 8 * n
    ensures Holds(s[off + i / 8 := ClearBit(s[off + i / 8], i % 8)], off, n, used - {i})
  {
    var t := s[off + i / 8 := ClearBit(s[off + i / 8], i % 8)];
    forall j: nat | j < 8 * n ensures BitAt(t, off, j) <==> j in used - {i} {
      ClearBitAt(s[off + i / 8], i % 8, j % 8);
      assert BitAt(s, off, j) <==> j in used;
    }
  }

  /* `i` is the least index that is not in `used`. */
  ghost predicate LeastClear(used: set<nat>, i: nat) {
    i !in used && forall j: nat :: j < i ==> j in used
  }

  /* A full byte is eight used indices; the first byte that is not full holds the least
     clear index. */
  lemma ByteOf(s: seq<bv8>, off: nat, n: nat, used: set<nat>, b: nat)
    requires Holds(s, off, n, used) && b < n
    ensures s[off + b] == 0xff <==> forall i: nat :: 8 * b <= i < 8 * b + 8 ==> i in used
    ensures s[off + b] != 0xff ==>
      8 * b + TrailingOnes(s[off + b]) !in used &&
      forall i: nat :: 8 * b <= i < 8 * b + TrailingOnes(s[off + b]) ==> i in used
  {
    FullByte(s[off + b]);
    forall i: nat | 8 * b <= i < 8 * b + 8 ensures i in used <==> Bit(s[off + b], i - 8 * b) {
      assert BitAt(s, off, i) <==> i in used;
    }
    if s[off + b] != 0xff {
      var i := 8 * b + TrailingOnes(s[off + b]);
      assert BitAt(s, off, i) <==> i in used;
    }
  }

  lemma SetBitFull(b: bv8, k: nat)
    requires k < 8
    ensures b == 0xff ==> SetBit(b, k) == 0xff
    ensures ClearBit(b, k) != 0xff
    ensures b == 0 ==> !Bit(b, k)
  {
  }
}
