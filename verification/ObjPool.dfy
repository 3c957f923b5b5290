/** The pool of fixed-size objects: arenas with a bitmap of the items in use and a count
    of the free ones. Both builds of the program are modelled: one keeps the plain bitmap
    and scans it, the other keeps the three-level bitmap. */
module ObjPool {
  import opened ArenaList
  import opened BitString
  import opened SummaryBitmap

  /* link, item count, free count and item pointer */
  const ARENA_HEADER := 32
  const OBJECT_SIZE := 32
  const BITMAP_SIZE := ((ARENA_SIZE - ARENA_HEADER) / OBJECT_SIZE + 7) / 8
  const LEVEL1_SIZE := BITMAP_SIZE / 8
  const LEVEL2_SIZE := LEVEL1_SIZE / 8
  const ALL_LEVELS := BITMAP_SIZE + LEVEL1_SIZE + LEVEL2_SIZE
  const NITEMS := (ARENA_SIZE - ARENA_HEADER - ALL_LEVELS) / OBJECT_SIZE
  /* offset of the first item: the items end where the arena ends */
  const ITEMS := ARENA_SIZE - NITEMS * OBJECT_SIZE

  /* The regions of the three levels are as large as the search assumes, they hold a bit
     for every item, and the items begin past them. */
  lemma LayoutFits()
    ensures Bytes(LEVEL2_SIZE) == ALL_LEVELS && BITMAP_SIZE == 64 * LEVEL2_SIZE
    ensures NITEMS <= Items(LEVEL2_SIZE) == 8 * BITMAP_SIZE
    ensures ARENA_HEADER + ALL_LEVELS <= ITEMS && ITEMS % OBJECT_SIZE == 0
    // the items fill what is left of the arena: one more would not fit
    ensures ITEMS + NITEMS * OBJECT_SIZE == ARENA_SIZE
    ensures ARENA_HEADER + ALL_LEVELS + (NITEMS + 1) * OBJECT_SIZE > ARENA_SIZE
  {
  }

  function ItemAddress(base: int, index: int): (p: int) {
    base + ITEMS + OBJECT_SIZE * index
  }

  // ----- counting

  ghost function Below(n: nat): (s: set<nat>)
    ensures forall i: nat :: i in s <==> i < n
  {
    if n == 0 then {} else Below(n - 1) + {n - 1}
  }

  lemma {:induction false} BelowCount(n: nat)
    ensures |Below(n)| == n
  {
    if n == 0 {
    } else {
      BelowCount(n - 1);
      assert n - 1 !in Below(n - 1);
    }
  }

  lemma SubsetSize(a: set<nat>, n: nat)
    requires a <= Below(n)
    ensures |a| <= n && |Below(n) - a| == n - |a|
  {
    BelowCount(n);
    assert Below(n) == a + (Below(n) - a);
  }

  /* With a free item left, the least clear bit is an item. */
  lemma RoomBelow(used: set<nat>, n: nat) returns (i: nat)
    requires used <= Below(n) && |used| < n
    ensures i < n && i !in used
  {
    SubsetSize(used, n);
    assert Below(n) - used != {};
    i :| i in Below(n) - used;
  }

  lemma LeastIsLower(used: set<nat>, i: nat, x: nat)
    requires i !in used && LeastClear(used, x)
    ensures x <= i
  {
  }

  class Arena {
    const base: int
    const layered: bool
    const bitmap: array<bv8>
    var nfree: nat
    ghost var used: set<nat>

    ghost predicate BitmapOk(u: set<nat>)
      reads bitmap
    {
      && bitmap.Length == ALL_LEVELS
      && if layered then Represents(bitmap[..], LEVEL2_SIZE, u) else Holds(bitmap[..], 0, BITMAP_SIZE, u)
    }

    ghost predicate Valid()
      reads this, bitmap
    {
      BitmapOk(used) && used <= Below(NITEMS) && nfree + |used| == NITEMS
    }

    ghost predicate CountsAgree()
      reads this
    {
      CountBelow(used, NITEMS) == NITEMS - nfree
    }

    /* init_arena, on a fresh zeroed region. */
    constructor (base: int, layered: bool)
      ensures Valid() && used == {} && fresh(bitmap)
      ensures this.base == base && this.layered == layered
    {
      this.base := base;
      this.layered := layered;
      bitmap := new bv8[ALL_LEVELS](_ => 0);
      nfree := NITEMS;
      used := {};
      new;
      if layered {
        ZeroesRepresent(bitmap[..], LEVEL2_SIZE);
      } else {
        ZeroesHold(bitmap[..], BITMAP_SIZE);
      }
    }

    method BitTest(bit: nat) returns (r: bool)
      requires BitmapOk(used) && bit < 8 * BITMAP_SIZE
      ensures r <==> bit in used
    {
      var off := if layered then BitmapOffset(LEVEL2_SIZE) else 0;
      r := Bit(bitmap[off + bit / 8], bit % 8);
      assert BitAt(bitmap[..], off, bit) <==> bit in used;
    }

    /* The search for a free item, in either build. */
    method FindFree() returns (i: nat)
      requires Valid() && nfree > 0
      ensures i < NITEMS && LeastClear(used, i)
      ensures i !in used && forall j: nat :: j < i ==> j in used
    {
      ghost var room := RoomBelow(used, NITEMS);
      if layered {
        i := FindFirstClear(bitmap, LEVEL2_SIZE, used, room);
      } else {
        i := FlatFirstClear(bitmap, BITMAP_SIZE, used, room);
      }
      LeastIsLower(used, room, i);
    }

    /* my_bit_set, in either build. */
    method BitSet(i: nat)
      requires BitmapOk(used) && i < 8 * BITMAP_SIZE
      modifies `used, bitmap
      ensures used == old(used) + {i} && BitmapOk(used)
    {
      if layered {
        MyBitSet(bitmap, LEVEL2_SIZE, i, used);
      } else {
        FlatSet(bitmap, i, used);
      }
      used := used + {i};
    }

    /* my_bit_clear, in either build. */
    method BitClear(i: nat)
      requires BitmapOk(used) && i < 8 * BITMAP_SIZE
      modifies `used, bitmap
      ensures used == old(used) - {i} && BitmapOk(used)
    {
      if layered {
        MyBitClear(bitmap, LEVEL2_SIZE, i, used);
      } else {
        FlatClear(bitmap, i, used);
      }
      used := used - {i};
    }

    /* alloc_block: the first free item. */
    method AllocBlock() returns (p: int, ghost index: nat)
      requires Valid() && nfree > 0
      modifies `nfree, `used, bitmap
      ensures Valid() && index < NITEMS && LeastClear(old(used), index)
      ensures used == old(used) + {index} && nfree == old(nfree) - 1 && p == ItemAddress(base, index)
    {
      var i := FindFree();
      BitSet(i);
      nfree := nfree - 1;
      return ItemAddress(base, i), i;
    }

    /* free_block: the item that `p` points into, if it is in use. */
    method FreeBlock(p: int) returns (ghost index: nat)
      requires Valid() && base + ITEMS <= p < base + ARENA_SIZE
      modifies `nfree, `used, bitmap
      ensures Valid() && index < NITEMS && ItemAddress(base, index) <= p < ItemAddress(base, index + 1)
      ensures used == old(used) - {index}
    {
      var i: nat := (p - (base + ITEMS)) / OBJECT_SIZE;
      var inUse := BitTest(i);
      if inUse {
        BitClear(i);
        nfree := nfree + 1;
      }
      index := i;
    }
  }

  lemma ZeroesHold(s: seq<bv8>, n: nat)
    requires n <= |s| && forall i :: 0 <= i < |s| ==> s[i] == 0
    ensures Holds(s, 0, n, {})
  {
  }

  method FlatSet(bitmap: array<bv8>, bit: nat, ghost used: set<nat>)
    requires Holds(bitmap[..], 0, BITMAP_SIZE, used) && bit < 8 * BITMAP_SIZE
    modifies bitmap
    ensures Holds(bitmap[..], 0, BITMAP_SIZE, used + {bit})
  {
    ghost var s := bitmap[..];
    SetHolds(s, 0, BITMAP_SIZE, used, bit);
    bitmap[bit / 8] := SetBit(bitmap[bit / 8], bit % 8);
    assert bitmap[..] == s[bit / 8 := SetBit(s[bit / 8], bit % 8)];
  }

  method FlatClear(bitmap: array<bv8>, bit: nat, ghost used: set<nat>)
    requires Holds(bitmap[..], 0, BITMAP_SIZE, used) && bit < 8 * BITMAP_SIZE
    modifies bitmap
    ensures Holds(bitmap[..], 0, BITMAP_SIZE, used - {bit})
  {
    ghost var s := bitmap[..];
    ClearHolds(s, 0, BITMAP_SIZE, used, bit);
    bitmap[bit / 8] := ClearBit(bitmap[bit / 8], bit % 8);
    assert bitmap[..] == s[bit / 8 := ClearBit(s[bit / 8], bit % 8)];
  }

  // ----- the pool as a value: the items in use, arena by arena

  type Heap = map<int, set<nat>>

  ghost predicate HeapOk(h: Heap) {
    && (forall b :: b in h ==> b > NULL && h[b] <= Below(NITEMS))
    && (forall b, c :: b in h && c in h && b != c ==> Apart(b, c))
  }

  /* The addresses of the objects in use. */
  ghost function Objects(h: Heap): (s: set<int>) {
    set b, i | b in h && i in h[b] :: ItemAddress(b, i)
  }

  /* Objects lie inside the item area of their arena, past its bitmaps, and every address
     of one tells which arena and which item it is. */
  lemma ObjectInArena(h: Heap, b: int, i: nat, p: int)
    requires HeapOk(h) && b in h && i < NITEMS && ItemAddress(b, i) <= p < ItemAddress(b, i) + OBJECT_SIZE
    ensures b + ARENA_HEADER + ALL_LEVELS <= p < b + ARENA_SIZE && (p - (b + ITEMS)) / OBJECT_SIZE == i
    ensures forall c :: c in h && c != b ==> !InArena(c, p)
  {
  }

  /* Two objects in use share no byte. */
  lemma ObjectsDisjoint(h: Heap, p: int, q: int)
    requires HeapOk(h) && p in Objects(h) && q in Objects(h) && p < q
    ensures p + OBJECT_SIZE <= q
  {
  }

  lemma ObjectTaken(h: Heap, b: int, i: nat)
    requires HeapOk(h) && b in h && i < NITEMS && i !in h[b]
    ensures HeapOk(h[b := h[b] + {i}]) && ItemAddress(b, i) !in Objects(h)
    ensures Objects(h[b := h[b] + {i}]) == Objects(h) + {ItemAddress(b, i)}
  {
  }

  lemma ObjectReleased(h: Heap, b: int, i: nat)
    requires HeapOk(h) && b in h && i < NITEMS
    ensures HeapOk(h[b := h[b] - {i}])
    ensures Objects(h[b := h[b] - {i}]) == Objects(h) - {ItemAddress(b, i)}
  {
  }

  lemma ArenaAdded(h: Heap, b: int)
    requires HeapOk(h) && b > NULL && forall c :: c in h ==> Apart(b, c)
    ensures b !in h && HeapOk(h[b := {}]) && Objects(h[b := {}]) == Objects(h)
  {
  }

  ghost predicate Distinct(a: Arena, b: Arena) {
    a.base != b.base && a.bitmap != b.bitmap
  }

  class Pool {
    const layered: bool
    var arenas: seq<Arena>
    ghost var heap: Heap

    ghost var Repr: set<object>

    /* The arena is valid and holds its part of the heap. */
    ghost predicate InPlace(a: Arena)
      reads `heap, `Repr, Repr
    {
      && a in Repr && a.bitmap in Repr && a.Valid() && a.layered == layered
      && a.base in heap && a.used == heap[a.base]
    }

    /* The list of arenas represents the heap. */
    ghost predicate Shape()
      reads `arenas, `heap, `Repr, Repr
    {
      && this !in Repr
      && (forall a {:trigger InPlace(a)} :: a in arenas ==> InPlace(a))
      && (forall a, b {:trigger Distinct(a, b)} :: a in arenas && b in arenas && a != b ==> Distinct(a, b))
      && (forall b :: b in heap ==> exists a :: a in arenas && a.base == b)
    }

    ghost predicate Valid()
      reads this, Repr
    {
      Shape() && HeapOk(heap)
    }

    constructor (layered: bool)
      ensures Valid() && fresh(Repr) && arenas == [] && Objects(heap) == {} && this.layered == layered
    {
      this.layered := layered;
      arenas, heap, Repr := [], map[], {};
    }

    method AddArena(base: int)
      requires Valid() && base > NULL && base !in heap
      modifies `arenas, `heap, `Repr
      ensures Shape() && |arenas| == |old(arenas)| + 1 && arenas[..|old(arenas)|] == old(arenas)
      ensures fresh(Repr - old(Repr))
      ensures var a := arenas[|old(arenas)|];
        && fresh(a) && fresh(a.bitmap) && a.base == base && a.used == {} && heap == old(heap)[base := {}]
    {
      var a := new Arena(base, layered);
      forall c | c in arenas ensures Distinct(a, c) && Distinct(c, a) {
        assert old(InPlace(c));
      }
      heap := heap[base := {}];
      ghost var was := arenas;
      arenas := arenas + [a];
      assert forall c :: c in arenas <==> c in was || c == a;
      Repr := Repr + {a, a.bitmap};
      forall c | c in arenas ensures InPlace(c) {
        assert c in was ==> old(InPlace(c));
      }
    }

    method TakeFrom(a: Arena) returns (p: int, ghost index: nat)
      requires Valid() && a in arenas && InPlace(a) && a.nfree > 0
      modifies `heap, a, a.bitmap
      ensures Valid() && index < NITEMS && LeastClear(old(heap)[a.base], index)
      ensures p == ItemAddress(a.base, index) && p !in Objects(old(heap))
      ensures heap == old(heap)[a.base := old(heap)[a.base] + {index}]
      ensures Objects(heap) == Objects(old(heap)) + {p}
    {
      p, index := a.AllocBlock();
      ObjectTaken(heap, a.base, index);
      heap := heap[a.base := heap[a.base] + {index}];
      forall c | c in arenas ensures InPlace(c) {
        assert old(InPlace(c)) && (c != a ==> Distinct(a, c));
      }
    }

    /* The first arena with a free item; |arenas| if there is none. */
    method FindRoom() returns (i: nat)
      requires Valid()
      ensures i <= |arenas| && (i < |arenas| ==> arenas[i].nfree > 0)
      ensures forall j :: 0 <= j < i ==> arenas[j].used == Below(NITEMS)
    {
      i := 0;
      while i < |arenas| && arenas[i].nfree == 0
        invariant i <= |arenas| && forall j :: 0 <= j < i ==> arenas[j].used == Below(NITEMS)
      {
        assert InPlace(arenas[i]);
        FullArena(arenas[i].used);
        i := i + 1;
      }
    }

    /* objalloc: the least free item of the first arena that has one, and the first item
       of a new arena when none has. */
    method ObjAlloc(newBase: int) returns (p: int, ghost at: nat, ghost index: nat)
      requires Valid()
      requires newBase > NULL && forall b :: b in heap ==> Apart(newBase, b)
      modifies this, Repr
      ensures Valid() && fresh(Repr - old(Repr))
      ensures p !in Objects(old(heap)) && Objects(heap) == Objects(old(heap)) + {p}
      ensures at < |arenas| && p == ItemAddress(arenas[at].base, index) && index < NITEMS
      ensures forall j :: 0 <= j < at && j < |old(arenas)| ==> old(arenas[j].used) == Below(NITEMS)
      ensures at < |old(arenas)| ==>
        index !in old(arenas[at].used) && forall j: nat :: j < index ==> j in old(arenas[at].used)
      ensures if at < |old(arenas)|
        then arenas == old(arenas) && LeastClear(old(arenas[at].used), index)
        else at == |old(arenas)| && arenas[..at] == old(arenas) && arenas[at].base == newBase && index == 0
             && fresh(arenas[at]) && fresh(arenas[at].bitmap)
    {
      var i := FindRoom();
      at := i;
      if i < |arenas| {
        assert InPlace(arenas[i]);
        p, index := TakeFrom(arenas[i]);
      } else {
        ArenaAdded(heap, newBase);
        AddArena(newBase);
        assert InPlace(arenas[i]);
        p, index := TakeFrom(arenas[i]);
        LeastIsLower({}, 0, index);
      }
    }

    /* objfree. The pointer is NULL or points into the item area of an arena; the item it
       points into is in use no longer, whether or not it was before. */
    method ObjFree(p: int, ghost b: int) returns (ghost index: nat)
      requires Valid() && (p == NULL || (b in heap && b + ITEMS <= p < b + ARENA_SIZE))
      modifies `heap, Repr
      ensures Valid() && arenas == old(arenas) && heap.Keys == old(heap).Keys
      ensures p == NULL ==> heap == old(heap)
      ensures p != NULL ==> index < NITEMS && ItemAddress(b, index) <= p < ItemAddress(b, index + 1)
      ensures p != NULL ==> Objects(heap) == Objects(old(heap)) - {ItemAddress(b, index)}
    {
      index := 0;
      if p == NULL {
        return;
      }
      var i := FindPtrArena(Bases(arenas, (a: Arena) => a.base), p);
      assert InArena(b, p);
      assert i < |arenas| ==> InPlace(arenas[i]);
      assert i < |arenas| && arenas[i].base == b;
      index := Release(arenas[i], p);
    }

    method Release(a: Arena, p: int) returns (ghost index: nat)
      requires Valid() && a in arenas && a.base + ITEMS <= p < a.base + ARENA_SIZE
      modifies `heap, a, a.bitmap
      ensures Valid() && heap.Keys == old(heap).Keys
      ensures index < NITEMS && ItemAddress(a.base, index) <= p < ItemAddress(a.base, index + 1)
      ensures Objects(heap) == Objects(old(heap)) - {ItemAddress(a.base, index)}
    {
      assert InPlace(a);
      index := a.FreeBlock(p);
      ObjectReleased(heap, a.base, index);
      heap := heap[a.base := heap[a.base] - {index}];
      forall c | c in arenas ensures InPlace(c) {
        assert old(InPlace(c)) && (c != a ==> Distinct(a, c));
      }
    }

    /* objmemcheck: in every arena the number of set bits below the item count is what the
       free count says. */
    method ObjMemCheck() returns (ok: bool)
      requires forall a :: a in arenas ==> a.BitmapOk(a.used)
      ensures ok <==> forall i :: 0 <= i < |arenas| ==> arenas[i].CountsAgree()
    {
      for i := 0 to |arenas|
        invariant forall j :: 0 <= j < i ==> arenas[j].CountsAgree()
      {
        var n := CountUsed(arenas[i], NITEMS);
        if n != NITEMS - arenas[i].nfree {
          return false;
        }
      }
      ok := true;
    }

    lemma ValidPassesMemCheck()
      requires Valid()
      ensures forall i :: 0 <= i < |arenas| ==> arenas[i].CountsAgree()
    {
      forall i | 0 <= i < |arenas| ensures arenas[i].CountsAgree() {
        assert InPlace(arenas[i]);
        var u := arenas[i].used;
        CountIsSize(u, NITEMS);
        assert UsedBelow(u, NITEMS) == u;
      }
    }
  }

  /* How many of the first `n` items are in use. */
  ghost function CountBelow(used: set<nat>, n: nat): (c: nat) {
    if n == 0 then 0 else CountBelow(used, n - 1) + if n - 1 in used then 1 else 0
  }

  ghost function UsedBelow(used: set<nat>, n: nat): (u: set<nat>) {
    set i | i in used && i < n
  }

  lemma OneMoreItem(used: set<nat>, n: nat)
    requires n > 0
    ensures |UsedBelow(used, n)| == |UsedBelow(used, n - 1)| + (if n - 1 in used then 1 else 0)
  {
    var a, b := UsedBelow(used, n - 1), UsedBelow(used, n);
    assert b == if n - 1 in used then a + {n - 1} else a;
  }

  lemma {:induction false} CountIsSize(used: set<nat>, n: nat)
    ensures CountBelow(used, n) == |UsedBelow(used, n)|
  {
    if n == 0 {
      assert UsedBelow(used, 0) == {};
    } else {
      CountIsSize(used, n - 1);
      OneMoreItem(used, n);
    }
  }

  /* The loop of objmemcheck over the items of one arena. */
  method CountUsed(a: Arena, nitems: nat) returns (n: nat)
    requires a.BitmapOk(a.used) && nitems <= NITEMS
    ensures n == CountBelow(a.used, nitems)
  {
    n := 0;
    for i := 0 to nitems
      invariant n == CountBelow(a.used, i)
    {
      var b := a.BitTest(i);
      n := n + if b then 1 else 0;
    }
  }

  lemma FullArena(used: set<nat>)
    requires used <= Below(NITEMS) && |used| == NITEMS
    ensures used == Below(NITEMS)
  {
    SubsetSize(used, NITEMS);
  }
}
