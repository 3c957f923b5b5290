/** The on-disk table of the key database as a value: fixed-size entries probed along a
    bounded chain that starts at the hash of the key. */
module HashTable {
  import opened CStrings

  type Entry = seq<Byte>
  type Table = seq<Entry>
  type Hash = seq<Byte> -> nat

  /* The length of a probe chain grows with the table. */
  function ChainLen(size: nat): (n: nat) {
    var n := size / 16384 - 1;
    if n > 3 then n else 3
  }

  /* A chain has at least three slots, and one for every full 16384 of the table but one. */
  lemma ChainLenIs(size: nat, c: nat)
    ensures c < ChainLen(size) <==> c < 3 || 16384 * (c + 2) <= size
  {
  }

  function Slot(h: nat, c: nat, size: nat): (i: nat)
    requires size > 0
    ensures i < size
  {
    (h + c) % size
  }

  predicate PowerOf2(n: nat) {
    n == 1 || (n > 1 && n % 2 == 0 && PowerOf2(n / 2))
  }

  predicate Used(e: Entry) {
    |e| > 0 && e[0] != 0
  }

  ghost predicate EntriesOk(t: Table) {
    |t| > 0 && forall i :: 0 <= i < |t| ==> |t[i]| == ENT_LENGTH
  }

  ghost function Keys(t: Table): (s: set<seq<Byte>>) {
    set i | 0 <= i < |t| && Used(t[i]) :: Key(t[i])
  }

  /* A key lies on its own chain, behind slots in use that hold other keys. */
  ghost predicate PlacedAt(t: Table, hash: Hash, k: seq<Byte>, c: nat)
    requires |t| > 0
  {
    && c < ChainLen(|t|)
    && Used(t[Slot(hash(k), c, |t|)]) && Key(t[Slot(hash(k), c, |t|)]) == k
    && forall d :: 0 <= d < c ==> Used(t[Slot(hash(k), d, |t|)]) && Key(t[Slot(hash(k), d, |t|)]) != k
  }

  ghost predicate InPlace(t: Table, hash: Hash, i: nat)
    requires i < |t|
  {
    exists c :: PlacedAt(t, hash, Key(t[i]), c) && Slot(hash(Key(t[i])), c, |t|) == i
  }

  ghost predicate TableOk(t: Table, hash: Hash) {
    EntriesOk(t) && forall i :: 0 <= i < |t| && Used(t[i]) ==> InPlace(t, hash, i)
  }

  // ----- what the invariant gives

  /* Each key occupies exactly one slot. */
  lemma OneSlotPerKey(t: Table, hash: Hash, i: nat, j: nat)
    requires TableOk(t, hash) && i < |t| && j < |t| && Used(t[i]) && Used(t[j]) && Key(t[i]) == Key(t[j])
    ensures i == j
  {
  }

  lemma DistinctSlotsDistinctKeys(t: Table, hash: Hash, i: nat, j: nat)
    requires TableOk(t, hash) && i < |t| && j < |t| && Used(t[i]) && Used(t[j]) && i != j
    ensures Key(t[i]) != Key(t[j])
  {
  }

  /* A stored key is met on its chain, before any slot that is not in use. */
  lemma StoredKeyIsOnChain(t: Table, hash: Hash, k: seq<Byte>) returns (c: nat)
    requires TableOk(t, hash) && k in Keys(t)
    ensures PlacedAt(t, hash, k, c)
  {
    var i :| 0 <= i < |t| && Used(t[i]) && Key(t[i]) == k;
    assert InPlace(t, hash, i);
    c :| PlacedAt(t, hash, k, c) && Slot(hash(k), c, |t|) == i;
  }

  /* Storing a new key at the first free slot of its chain. */
  lemma StoreKeepsTableOk(t: Table, hash: Hash, k: seq<Byte>, c: nat)
    requires TableOk(t, hash) && IsKey(k) && k != [] && k !in Keys(t)
    requires c < ChainLen(|t|) && !Used(t[Slot(hash(k), c, |t|)])
    requires forall d :: 0 <= d < c ==> Used(t[Slot(hash(k), d, |t|)])
    ensures var t' := t[Slot(hash(k), c, |t|) := Pad(k)]; TableOk(t', hash) && Keys(t') == Keys(t) + {k}
  {
    var n := Slot(hash(k), c, |t|);
    var t' := t[n := Pad(k)];
    KeyOfPad(k);
    assert Used(t'[n]) && Key(t'[n]) == k;
    forall i | 0 <= i < |t'| && Used(t'[i]) ensures InPlace(t', hash, i) {
      if i == n {
        forall d | 0 <= d < c ensures Used(t'[Slot(hash(k), d, |t|)]) && Key(t'[Slot(hash(k), d, |t|)]) != k {
          assert Key(t[Slot(hash(k), d, |t|)]) in Keys(t);
        }
        assert PlacedAt(t', hash, k, c);
      } else {
        assert InPlace(t, hash, i);
        var e :| PlacedAt(t, hash, Key(t[i]), e) && Slot(hash(Key(t[i])), e, |t|) == i;
        assert PlacedAt(t', hash, Key(t'[i]), e);
      }
    }
    StoreAddsKey(t, k, n);
  }

  lemma StoreAddsKey(t: Table, k: seq<Byte>, n: nat)
    requires n < |t| && !Used(t[n]) && IsKey(k) && k != []
    ensures Keys(t[n := Pad(k)]) == Keys(t) + {k}
  {
    var t' := t[n := Pad(k)];
    KeyOfPad(k);
    assert Used(t'[n]) && Key(t'[n]) == k;
    forall x | x in Keys(t) ensures x in Keys(t') {
      var i :| 0 <= i < |t| && Used(t[i]) && Key(t[i]) == x;
      assert Used(t'[i]) && Key(t'[i]) == x;
    }
  }

  // ----- the pigeonhole argument

  ghost function ChainSlots(h: nat, n: nat, size: nat): (s: set<nat>)
    requires size > 0
  {
    set c: nat | c < n :: Slot(h, c, size)
  }

  lemma SlotsDistinct(h: nat, c: nat, d: nat, size: nat)
    requires c < d < c + size
    ensures Slot(h, c, size) != Slot(h, d, size)
  {
    var q := (h + d) / size - (h + c) / size;
    assert d - c == q * size + ((h + d) % size - (h + c) % size);
    assert q <= 0 ==> q * size <= 0;
    assert q >= 1 ==> q * size >= size;
  }

  lemma {:induction false} ChainSlotsCount(h: nat, n: nat, size: nat)
    requires 0 < size && n <= size
    ensures |ChainSlots(h, n, size)| == n
  {
    if n == 0 {
      assert ChainSlots(h, n, size) == {};
    } else {
      ChainSlotsCount(h, n - 1, size);
      assert ChainSlots(h, n, size) == ChainSlots(h, n - 1, size) + {Slot(h, n - 1, size)};
      forall c: nat | c < n - 1 ensures Slot(h, c, size) != Slot(h, n - 1, size) {
        SlotsDistinct(h, c, n - 1, size);
      }
    }
  }

  ghost function KeysIn(t: Table, slots: set<nat>): (s: set<seq<Byte>>)
    requires forall i :: i in slots ==> i < |t|
  {
    set i | i in slots :: Key(t[i])
  }

  lemma {:induction false} KeysInCount(t: Table, hash: Hash, slots: set<nat>)
    requires TableOk(t, hash) && forall i :: i in slots ==> i < |t| && Used(t[i])
    ensures |KeysIn(t, slots)| == |slots|
    decreases |slots|
  {
    if slots == {} {
    } else {
      var i :| i in slots;
      KeysInCount(t, hash, slots - {i});
      assert KeysIn(t, slots) == KeysIn(t, slots - {i}) + {Key(t[i])};
      forall j | j in slots - {i} ensures Key(t[j]) != Key(t[i]) {
        DistinctSlotsDistinctKeys(t, hash, i, j);
      }
    }
  }

  lemma SubsetCount<T>(a: set<T>, b: set<T>)
    requires a <= b
    ensures |a| <= |b|
  {
    assert |b| == |a| + |b - a| by { assert b == a + (b - a); }
  }

  /* A chain longer than the number of stored keys has a free slot. */
  lemma LongChainHasRoom(t: Table, hash: Hash, h: nat, n: nat) returns (c: nat)
    requires TableOk(t, hash) && |Keys(t)| < n <= |t|
    ensures c < n && !Used(t[Slot(h, c, |t|)])
  {
    if forall d: nat :: d < n ==> Used(t[Slot(h, d, |t|)]) {
      ChainSlotsCount(h, n, |t|);
      var s := ChainSlots(h, n, |t|);
      KeysInCount(t, hash, s);
      SubsetCount(KeysIn(t, s), Keys(t));
      assert false;
    }
    c :| c < n && !Used(t[Slot(h, c, |t|)]);
  }

  /* From this size on the chains are longer than `n`. */
  function EnoughFor(n: nat): (size: nat) {
    16384 * (n + 2)
  }

  lemma EnoughRoom(t: Table, hash: Hash, h: nat)
    requires TableOk(t, hash) && |t| >= EnoughFor(|Keys(t)|)
    ensures exists c :: 0 <= c < ChainLen(|t|) && !Used(t[Slot(h, c, |t|)])
  {
    var n := |Keys(t)| + 1;
    assert |t| / 16384 >= n + 1;
    var c := LongChainHasRoom(t, hash, h, n);
  }

  // ----- 32-bit probe numbers

  function Pow2(k: nat): (p: nat)
    ensures p > 0
  {
    if k == 0 then 1 else 2 * Pow2(k - 1)
  }

  lemma {:induction false} PowerOf2Divides(n: nat, k: nat) returns (m: nat)
    requires PowerOf2(n) && n <= Pow2(k)
    ensures Pow2(k) == m * n
  {
    if n == 1 {
      m := Pow2(k);
    } else {
      m := PowerOf2Divides(n / 2, k - 1);
      assert 2 * (m * (n / 2)) == m * (2 * (n / 2));
    }
  }

  lemma ModMod(x: nat, m: nat, n: nat)
    requires n > 0 && m > 0
    ensures m * n > 0 && (x % (m * n)) % n == x % n
  {
    assert m * n >= n;
    var q, r := x / (m * n), x % (m * n);
    assert x == (m * n) * q + r;
    assert (m * n) * q == (m * q) * n;
    SameRemainder(r, m * q, n);
  }

  lemma SameRemainder(r: nat, q: nat, n: nat)
    requires n > 0
    ensures (q * n + r) % n == r % n
  {
    var a, b := (q * n + r) / n, r / n;
    assert (a - b - q) * n == r % n - (q * n + r) % n;
    assert a - b - q >= 1 ==> (a - b - q) * n >= n;
    assert a - b - q <= -1 ==> (a - b - q) * n + n <= 0;
  }

  /* The program adds the probe number to a 32-bit hash before reducing it. For a table
     size that is a power of two up to 2^32 the wrap-around changes no probe. */
  lemma ProbeWrapHarmless(h: nat, c: nat, size: nat)
    requires PowerOf2(size) && size <= Pow2(32)
    ensures ((h + c) % Pow2(32)) % size == Slot(h, c, size)
  {
    var m := PowerOf2Divides(size, 32);
    ModMod(h + c, m, size);
  }
}
