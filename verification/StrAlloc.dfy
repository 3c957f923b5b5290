/** The next-fit string allocator: arenas of 64 KiB whose one-byte block headers live
    between the payloads handed out to the client. Addresses are integers; the kernel's
    choice of an address for a new arena is a parameter. */
module StrAlloc {
  import opened ArenaLayout
  import opened ArenaList
  import opened StrHeap

  class Arena {
    const base: int
    const data: array<Byte>
    ghost var kind: Layout

    ghost function View(): (r: Region)
      reads this, data
    {
      Region(data[..], kind)
    }

    ghost predicate Valid()
      reads this, data
    {
      data.Length == ARENA_SIZE && View().Ok()
    }

    /* Mapping a fresh zeroed region and laying out its free blocks (init_chunk). */
    constructor (base: int)
      ensures this.base == base && fresh(data) && Valid()
      ensures ARENA_HEADER in kind && data[ARENA_HEADER] == -MAX_BLKSZ
      ensures forall o :: o in kind ==> kind[o] == Free
    {
      this.base := base;
      data := new Byte[ARENA_SIZE](_ => 0);
      kind := map[];
      new;
      var offset := ARENA_HEADER;
      ghost var n := 0;
      while offset + MAX_BLKSZ < ARENA_SIZE
        invariant offset == ARENA_HEADER + n * MAX_BLKSZ < ARENA_SIZE
        invariant Filled(data[..], kind, offset)
      {
        ghost var d: seq<Byte> := data[..];
        FilledExtends(d, kind, offset);
        data[offset] := -MAX_BLKSZ;
        assert data[..] == d[offset := -MAX_BLKSZ];
        kind := kind[offset := Free];
        offset := offset + MAX_BLKSZ;
        n := n + 1;
      }
      ghost var d: seq<Byte> := data[..];
      FilledCloses(d, kind, offset);
      data[offset] := -(ARENA_SIZE - 1 - offset);
      data[ARENA_SIZE - 1] := 0;
      assert data[..] == d[offset := -(LAST - offset)][LAST := 0];
      kind := kind[offset := Free];
    }
  }

  ghost predicate Distinct(a: Arena, b: Arena) {
    a.base != b.base && a.data != b.data
  }

  /* No two arenas share an address or a buffer, and none is listed twice. */
  ghost predicate Separate(arenas: seq<Arena>) {
    && (forall a, b {:trigger Distinct(a, b)} :: a in arenas && b in arenas && a != b ==> Distinct(a, b))
    && (forall i, j :: 0 <= i < j < |arenas| ==> arenas[i] != arenas[j])
  }

  /* The addresses of the arenas, in the order of the list. */
  function Addresses(arenas: seq<Arena>): (bs: seq<int>)
    ensures |bs| == |arenas| && forall i :: 0 <= i < |bs| ==> bs[i] == arenas[i].base
  {
    Bases(arenas, (a: Arena) => a.base)
  }

  ghost predicate Covers(bases: seq<int>, addresses: set<int>) {
    && (forall b :: b in addresses ==> b in bases)
    && (forall i :: 0 <= i < |bases| ==> bases[i] in addresses)
  }

  function Inserted<A>(s: seq<A>, at: nat, x: A): (t: seq<A>)
    requires at <= |s|
    ensures |t| == |s| + 1
    ensures forall i :: 0 <= i < |t| ==> t[i] == if i < at then s[i] else if i == at then x else s[i - 1]
  {
    s[..at] + [x] + s[at..]
  }

  lemma InsertedMembers<A>(s: seq<A>, at: nat, x: A)
    requires at <= |s|
    ensures forall y :: y in Inserted(s, at, x) <==> y in s || y == x
  {
    assert s == s[..at] + s[at..];
  }

  lemma ScanStep(r: Region, from: int, o: nat, len: nat)
    requires r.Ok() && Boundary(r.kind, o) && r.bytes[o] != 0 && len <= MAX_BLKSZ
    requires r.NoFit(from, o, len)
    ensures o in r.kind && o < Next(r.bytes, o) < ARENA_SIZE && Boundary(r.kind, Next(r.bytes, o))
    ensures r.bytes[o] < 0 && Size(r.bytes[o]) < len ==> r.bytes[Next(r.bytes, o)] >= 0
    ensures !r.Fits(o, len) ==> r.NoFit(from, Next(r.bytes, o), len)
  {
  }

  // ----- the effect of an allocation

  /* Block `o` of the arena at `b` was given to a request for `len` bytes. */
  ghost predicate Placed(s: Snapshot, t: Snapshot, b: int, o: nat, len: nat) {
    && b in s.heap && s.heap[b].Ok() && s.heap[b].Fits(o, len + 1) && len > 0 && Next(s.heap[b].bytes, o) < ARENA_SIZE
    && t == Snapshot(s.heap[b := Taken(s.heap[b], o, len + 1)], s.live[PointerTo(b, o) := Grant(b, o, len)])
  }

  /* A pointer to `len` bytes that nobody held before. */
  predicate Issued(s: Snapshot, t: Snapshot, p: int, len: nat) {
    p != NULL && p !in s.live && p in t.live && t.live[p].len == len
  }

  // ----- the cyclic walk over the arenas

  /* Position `j` is met before `to` on a cyclic walk that starts at `from`. */
  predicate Before(j: nat, from: nat, to: nat) {
    if from <= to then from <= j < to else from <= j || j < to
  }

  /* The next position on a cyclic walk over `n` arenas. */
  function Successor(i: nat, n: nat): (j: nat)
    requires i < n
  {
    if i + 1 == n then 0 else i + 1
  }

  /* A search of the arenas at `bases` for a block of `len` bytes, header included, which
     starts at offset `off` of arena `from`. */
  datatype Search = Search(bases: seq<int>, heap: Heap, from: nat, off: nat, len: nat) {
    /* In the arena of the cursor only the blocks from the cursor on are looked at. */
    function First(j: nat): (o: nat) {
      if j == from then off else ARENA_HEADER
    }

    ghost predicate Holds(j: nat) {
      j < |bases| && bases[j] in heap && heap[bases[j]].Ok()
    }

    /* Arena `j` has no fit. */
    ghost predicate NoFitIn(j: nat) {
      Holds(j) && heap[bases[j]].NoFit(First(j), LAST, len)
    }

    /* The walk met no fit before arena `i`. */
    ghost predicate Passed(i: nat) {
      forall j :: 0 <= j < |bases| && Before(j, from, i) ==> NoFitIn(j)
    }

    /* The whole walk meets no fit. */
    ghost predicate Exhausted() {
      forall j :: 0 <= j < |bases| ==> NoFitIn(j)
    }

    /* Block `o` is the first fit of arena `i`. */
    ghost predicate FirstFit(i: nat, o: nat) {
      Holds(i) && First(i) <= o && heap[bases[i]].Fits(o, len) && heap[bases[i]].NoFit(First(i), o, len)
    }

    /* Block `o` of arena `i` is the first fit that the walk meets. */
    ghost predicate Found(i: nat, o: nat) {
      Passed(i) && FirstFit(i, o)
    }

    /* The request was given the first fit of arena `i`, block `o`. */
    ghost predicate Given(i: nat, o: nat, p: int, was: Snapshot, now: Snapshot) {
      FirstFit(i, o) && p == PointerTo(bases[i], o) && len > 0 && Placed(was, now, bases[i], o, len - 1)
    }

    /* The request was given the first fit that the walk meets. */
    ghost predicate Served(i: nat, o: nat, p: int, was: Snapshot, now: Snapshot) {
      Passed(i) && Given(i, o, p, was, now)
    }

    /* Every arena can be searched from its first block on. */
    ghost predicate Ready() {
      && from < |bases|
      && forall i :: 0 <= i < |bases| ==> Holds(i) && bases[i] > NULL && ARENA_HEADER in heap[bases[i]].kind
    }
  }

  /* How many arenas are left on the walk. */
  function Remaining(i: nat, from: nat, n: nat): (k: nat)
    requires i < n && from < n
  {
    if i >= from then n - i + from else from - i
  }

  /* One more arena searched in vain: either the walk goes on or it has met all arenas. */
  lemma PassedOne(s: Search, i: nat)
    requires s.from < |s.bases| && s.Passed(i) && s.NoFitIn(i)
    ensures var n := Successor(i, |s.bases|);
      if n == s.from then s.Exhausted()
      else s.Passed(n) && Remaining(n, s.from, |s.bases|) < Remaining(i, s.from, |s.bases|)
  {
  }

  lemma CanSearch(s: Search, live: Pointers)
    requires s.from < |s.bases| && HeapOk(s.heap, live) && Covers(s.bases, s.heap.Keys)
    ensures s.Ready()
  {
  }

  /* A search has one outcome: it does not both find a fit and meet none, and it does not
     find two. */
  lemma FoundIsNotExhausted(s: Search, i: nat, o: nat)
    requires s.Found(i, o)
    ensures !s.Exhausted()
  {
    assert o < LAST;
    assert s.Exhausted() ==> s.NoFitIn(i);
  }

  lemma FoundOnce(s: Search, i: nat, o: nat, i': nat, o': nat)
    requires s.from < |s.bases| && s.Found(i, o) && s.Found(i', o')
    ensures i == i' && o == o'
  {
    assert o < LAST && o' < LAST;
    assert Before(i, s.from, i') ==> s.NoFitIn(i);
    assert Before(i', s.from, i) ==> s.NoFitIn(i');
  }

  /* The first block of a new arena at `b` was given to the request. */
  ghost predicate FirstOfNew(s: Snapshot, t: Snapshot, b: int, len: nat) {
    exists r :: NewRegion(r) && Placed(s.(heap := s.heap[b := r]), t, b, ARENA_HEADER, len)
  }

  /* A new arena at address `newBase` is linked at position `at`. */
  ghost predicate Grown(was: seq<Arena>, now: seq<Arena>, at: nat, newBase: int) {
    && at <= |was| && |now| == |was| + 1 && now == was[..at] + [now[at]] + was[at..]
    && now[at].base == newBase
  }

  /* Pointer `p` was given back. */
  ghost predicate Freed(s: Snapshot, t: Snapshot, p: int) {
    && p in s.live
    && var g := s.live[p];
      && g.base in s.heap && 0 <= g.off < |s.heap[g.base].bytes| && s.heap[g.base].bytes[g.off] != -128
      && t == Snapshot(s.heap[g.base := Released(s.heap[g.base], g.off)], s.live - {p})
  }

  /* Byte `i` of the payload at `p` is now `x`. */
  ghost predicate Stored(s: Snapshot, t: Snapshot, p: int, i: nat, x: Byte) {
    && p in s.live
    && var g := s.live[p];
      && g.base in s.heap && 0 <= g.off && g.off + 1 + i < |s.heap[g.base].bytes|
      && t == s.(heap := s.heap[g.base := Written(s.heap[g.base], g.off + 1 + i, x)])
  }

  /* Linking an arena keeps the list in order. */
  lemma ListGrows(arenas: seq<Arena>, at: nat, a: Arena, addresses: set<int>)
    requires at <= |arenas| && Separate(arenas) && a.base in addresses
    requires Covers(Addresses(arenas), addresses - {a.base})
    requires forall c :: c in arenas ==> c.base != a.base && c.data != a.data
    ensures Separate(Inserted(arenas, at, a)) && Covers(Addresses(Inserted(arenas, at, a)), addresses)
    ensures forall c :: c in Inserted(arenas, at, a) <==> c in arenas || c == a
  {
    InsertedMembers(arenas, at, a);
    InsertedMembers(Addresses(arenas), at, a.base);
    assert Addresses(Inserted(arenas, at, a)) == Inserted(Addresses(arenas), at, a.base);
  }

  /* find_ptr_arena leads from a live pointer to its own arena. */
  lemma FoundByAddress(h: Heap, g: Grant, bases: seq<int>, i: nat)
    requires RegionsOk(h) && Backed(h, g) && Covers(bases, h.Keys) && i <= |bases|
    requires i < |bases| ==> InArena(bases[i], g.Address())
    requires forall j :: 0 <= j < i ==> !InArena(bases[j], g.Address())
    ensures i < |bases| && bases[i] == g.base
  {
    OwnedRange(h, g);
    assert g.base in bases;
  }

  lemma PlacedKeepsHeapOk(s: Snapshot, t: Snapshot, b: int, o: nat, len: nat)
    requires HeapOk(s.heap, s.live) && Placed(s, t, b, o, len)
    ensures HeapOk(t.heap, t.live) && b in t.heap && o in t.heap[b].kind && Issued(s, t, PointerTo(b, o), len)
  {
    TakeKeepsHeapOk(s.heap, s.live, b, o, len);
  }

  lemma FirstOfNewKeepsHeapOk(s: Snapshot, t: Snapshot, b: int, len: nat)
    requires HeapOk(s.heap, s.live) && b > NULL && (forall c :: c in s.heap ==> Apart(b, c)) && FirstOfNew(s, t, b, len)
    ensures HeapOk(t.heap, t.live) && b in t.heap && ARENA_HEADER in t.heap[b].kind
    ensures Issued(s, t, PointerTo(b, ARENA_HEADER), len)
  {
    var r :| NewRegion(r) && Placed(s.(heap := s.heap[b := r]), t, b, ARENA_HEADER, len);
    InsertKeepsHeapOk(s.heap, s.live, b, r);
    PlacedKeepsHeapOk(s.(heap := s.heap[b := r]), t, b, ARENA_HEADER, len);
  }

  // ----- what the operations do, byte by byte

  /* The block of an allocation was free, gets its size as a positive header, and what is
     left over gets a positive header too; the pointer leads past the header. */
  lemma PlacedBytes(s: Snapshot, t: Snapshot, b: int, o: nat, len: nat)
    requires HeapOk(s.heap, s.live) && Placed(s, t, b, o, len)
    ensures b in t.heap && o < ARENA_SIZE && t.live == s.live[b + o + 1 := Grant(b, o, len)]
    ensures var d, d' := s.heap[b].bytes, t.heap[b].bytes;
      && d[o] <= -(len + 1)
      && d' == (if d[o] == -(len + 1) then d[o := len + 1]
                else d[o := len + 1][o + len + 1 := -d[o] - (len + 1)])
    ensures t.heap.Keys == s.heap.Keys && forall c :: c in s.heap && c != b ==> t.heap[c] == s.heap[c]
  {
    assert Boundary(s.heap[b].kind, Next(s.heap[b].bytes, o));
  }

  /* Freeing a pointer negates the header of its block, which can then serve a request of
     the same length again. */
  lemma FreedBytes(s: Snapshot, t: Snapshot, p: int)
    requires HeapOk(s.heap, s.live) && Freed(s, t, p)
    ensures t.live == s.live - {p}
    ensures var g := s.live[p];
      && g.base in t.heap && 0 <= g.off < ARENA_SIZE && t.heap[g.base].Ok()
      && t.heap[g.base].bytes == s.heap[g.base].bytes[g.off := -(g.len + 1)]
      && t.heap[g.base].Fits(g.off, g.len + 1)
    ensures t.heap.Keys == s.heap.Keys && forall c :: c in s.heap && c != s.live[p].base ==> t.heap[c] == s.heap[c]
  {
    ReleaseKeepsHeapOk(s.heap, s.live, p);
  }

  /* A client write changes one byte of the payload and nothing else. */
  lemma StoredBytes(s: Snapshot, t: Snapshot, p: int, i: nat, x: Byte)
    requires HeapOk(s.heap, s.live) && Stored(s, t, p, i, x) && i < s.live[p].len
    ensures t.live == s.live
    ensures var g := s.live[p];
      && g.base in t.heap && 0 <= g.off && g.off + 1 + g.len <= LAST
      && t.heap[g.base].bytes == s.heap[g.base].bytes[g.off + 1 + i := x]
      && t.heap[g.base].kind == s.heap[g.base].kind
      && Payload(t.heap, g) == Payload(s.heap, g)[i := x]
    ensures t.heap.Keys == s.heap.Keys && forall c :: c in s.heap && c != s.live[p].base ==> t.heap[c] == s.heap[c]
  {
    OwnedRange(s.heap, s.live[p]);
  }

  /* The walk of a search that was served passed no free block that is large enough: none
     from the cursor on in the arena it started in, none in the arenas between, and none
     before the block it handed out. */
  lemma ServedPassed(s: Search, i: nat, o: nat, p: int, was: Snapshot, now: Snapshot, j: nat, x: int)
    requires s.from < |s.bases| && s.len > 0 && was.heap == s.heap && s.Served(i, o, p, was, now)
    requires j < |s.bases| && if s.from <= i then s.from <= j <= i else s.from <= j || j <= i
    requires (j == s.from ==> s.off <= x) && (j == i ==> x < o)
    ensures i < |s.bases| && p == s.bases[i] + o + 1 && (i == s.from ==> s.off <= o)
    ensures s.bases[j] in s.heap && s.heap[s.bases[j]].Ok()
    ensures x in s.heap[s.bases[j]].kind && s.heap[s.bases[j]].bytes[x] < 0 ==> -s.heap[s.bases[j]].bytes[x] < s.len
  {
    if j != i {
      assert s.NoFitIn(j);
    }
  }

  lemma ServedPassedAll(s: Search, i: nat, o: nat, p: int, was: Snapshot, now: Snapshot)
    requires s.from < |s.bases| && s.len > 0 && was.heap == s.heap && s.Served(i, o, p, was, now)
    ensures i < |s.bases| && p == s.bases[i] + o + 1 && (i == s.from ==> s.off <= o)
    ensures forall j, x ::
      && 0 <= j < |s.bases| && (if s.from <= i then s.from <= j <= i else s.from <= j || j <= i)
      && (j == s.from ==> s.off <= x) && (j == i ==> x < o)
      && s.bases[j] in s.heap && 0 <= x < |s.heap[s.bases[j]].bytes|
      && x in s.heap[s.bases[j]].kind && s.heap[s.bases[j]].bytes[x] < 0
      ==> -s.heap[s.bases[j]].bytes[x] < s.len
  {
    assert s.First(i) <= o;
    forall j, x | && 0 <= j < |s.bases| && (if s.from <= i then s.from <= j <= i else s.from <= j || j <= i)
      && (j == s.from ==> s.off <= x) && (j == i ==> x < o)
      && s.bases[j] in s.heap && 0 <= x < |s.heap[s.bases[j]].bytes|
      && x in s.heap[s.bases[j]].kind && s.heap[s.bases[j]].bytes[x] < 0
      ensures -s.heap[s.bases[j]].bytes[x] < s.len
    {
      ServedPassed(s, i, o, p, was, now, j, x);
    }
  }

  /* A walk that met no fit passed no such block at all. */
  lemma ExhaustedPassedAll(s: Search)
    requires s.Exhausted()
    ensures forall j, x ::
      && 0 <= j < |s.bases| && (j == s.from ==> s.off <= x)
      && s.bases[j] in s.heap && 0 <= x < |s.heap[s.bases[j]].bytes|
      && x in s.heap[s.bases[j]].kind && s.heap[s.bases[j]].bytes[x] < 0
      ==> -s.heap[s.bases[j]].bytes[x] < s.len
  {
    forall j, x | && 0 <= j < |s.bases| && (j == s.from ==> s.off <= x)
      && s.bases[j] in s.heap && 0 <= x < |s.heap[s.bases[j]].bytes|
      && x in s.heap[s.bases[j]].kind && s.heap[s.bases[j]].bytes[x] < 0
      ensures -s.heap[s.bases[j]].bytes[x] < s.len
    {
      assert s.NoFitIn(j);
    }
  }

  // ----- what the operations do is what runs of the heap consist of

  lemma PlacedFollows(s: Snapshot, t: Snapshot, b: int, o: nat, len: nat)
    requires HeapOk(s.heap, s.live) && Placed(s, t, b, o, len)
    ensures Follows(s, t)
  {
    assert t == After(s, Event.Take(b, o, len));
  }

  lemma FirstOfNewFollows(s: Snapshot, t: Snapshot, b: int, len: nat) returns (mapped: Snapshot)
    requires HeapOk(s.heap, s.live) && b > NULL && (forall c :: c in s.heap ==> Apart(b, c)) && FirstOfNew(s, t, b, len)
    ensures Follows(s, mapped) && HeapOk(mapped.heap, mapped.live) && Follows(mapped, t)
  {
    var r :| NewRegion(r) && Placed(s.(heap := s.heap[b := r]), t, b, ARENA_HEADER, len);
    mapped := After(s, Event.Map(b, r));
    PlacedFollows(mapped, t, b, ARENA_HEADER, len);
  }

  lemma FreedFollows(s: Snapshot, t: Snapshot, p: int)
    requires HeapOk(s.heap, s.live) && Freed(s, t, p)
    ensures Follows(s, t)
  {
    assert t == After(s, Event.Release(p));
  }

  lemma StoredFollows(s: Snapshot, t: Snapshot, p: int, i: nat, x: Byte)
    requires HeapOk(s.heap, s.live) && Stored(s, t, p, i, x) && i < s.live[p].len
    ensures Follows(s, t)
  {
    assert t == After(s, Event.Store(p, i, x));
  }

  class Allocator {
    var arenas: seq<Arena>
    /* index of cur_arena; meaningless while there are no arenas */
    var cur: nat
    var curOffset: nat
    /* the contents of the arenas, and the pointers the client holds */
    ghost var state: Snapshot
    ghost var Repr: set<object>

    /* The search that a request for `len` bytes starts at the cursor. */
    ghost function SearchFor(len: nat): (s: Search)
      reads `arenas, `cur, `curOffset, `state
    {
      Search(Addresses(arenas), state.heap, cur, curOffset, len + 1)
    }

    /* `s` is a search of the arenas as they are for a request of `len` bytes. */
    ghost predicate Matches(s: Search, len: nat)
      reads `arenas, `state
    {
      s.bases == Addresses(arenas) && s.heap == state.heap && s.len == len + 1 && 1 <= len <= MAX_LENGTH
    }

    /* The arena holds its part of the heap. */
    ghost predicate InPlace(a: Arena)
      reads `state, `Repr, Repr
    {
      a in Repr && a.data in Repr && a.base in state.heap && a.View() == state.heap[a.base]
    }

    /* The list of arenas represents the heap. */
    ghost predicate Shape()
      reads `arenas, `state, `Repr, Repr
    {
      && this !in Repr && Separate(arenas) && Covers(Addresses(arenas), state.heap.Keys)
      && forall a {:trigger InPlace(a)} :: a in arenas ==> InPlace(a)
    }

    ghost predicate Valid()
      reads this, Repr
    {
      && Shape() && HeapOk(state.heap, state.live)
      && (arenas != [] ==>
        cur < |arenas| && InPlace(arenas[cur]) && Boundary(state.heap[arenas[cur].base].kind, curOffset))
    }

    /* After a search has served a request its arena can become the current one. */
    lemma ServedIsValid(s: Search, was: Snapshot, p: int)
      requires Shape() && s.bases == Addresses(arenas) && HeapOk(was.heap, was.live)
      requires s.Served(cur, curOffset, p, was, state)
      ensures Valid() && Issued(was, state, p, s.len - 1)
    {
      assert InPlace(arenas[cur]);
      PlacedKeepsHeapOk(was, state, s.bases[cur], curOffset, s.len - 1);
    }

    constructor ()
      ensures Valid() && fresh(Repr) && arenas == [] && state == Snapshot(map[], map[])
    {
      arenas, cur, curOffset, state, Repr := [], 0, 0, Snapshot(map[], map[]), {};
    }

    /* Take the free block at the cursor, splitting it if it is too large. */
    method TakeBlock(ar: Arena, len: nat)
      requires ar.Valid() && 2 <= len && ar.View().Fits(curOffset, len)
      modifies ar`kind, ar.data
      ensures ar.Valid() && Next(old(ar.data[..]), curOffset) < ARENA_SIZE
      ensures ar.View() == Taken(old(ar.View()), curOffset, len)
      ensures curOffset + len <= ar.data.Length == ARENA_SIZE && -128 <= -old(ar.data[curOffset]) - len < 128
      ensures ar.data[..] ==
        if -old(ar.data[curOffset]) == len then old(ar.data[..])[curOffset := len]
        else old(ar.data[..])[curOffset := len][curOffset + len := -old(ar.data[curOffset]) - len]
    {
      ghost var d: seq<Byte> := ar.data[..];
      TakeKeepsWellFormed(d, ar.kind, curOffset, len);
      var bigBlock := -ar.data[curOffset];
      ar.data[curOffset] := len;
      if bigBlock > len {
        ar.data[curOffset + len] := bigBlock - len;
      }
      assert ar.data[..] == TakenBytes(d, curOffset, len);
      ar.kind := TakenLayout(ar.kind, curOffset, bigBlock, len);
    }

    /* Scan one arena from the cursor. NULL is 0; otherwise the result is the offset of
       the payload in the arena. */
    method AllocBlock(ar: Arena, len: nat) returns (r: nat)
      requires ar.Valid() && Boundary(ar.kind, curOffset) && 2 <= len <= MAX_BLKSZ
      modifies this`curOffset, ar`kind, ar.data
      ensures ar.Valid() && old(curOffset) <= curOffset && old(ar.View()).NoFit(old(curOffset), curOffset, len)
      ensures r == 0 ==> curOffset == LAST && ar.View() == old(ar.View())
      ensures r != 0 ==>
        && r == curOffset + 1 && old(ar.View()).Fits(curOffset, len)
        && Next(old(ar.data[..]), curOffset) < ARENA_SIZE
        && ar.View() == Taken(old(ar.View()), curOffset, len)
    {
      ghost var v := ar.View();
      while ar.data[curOffset] != 0
        invariant ar.View() == v && Boundary(v.kind, curOffset) && old(curOffset) <= curOffset
        invariant v.NoFit(old(curOffset), curOffset, len)
        decreases LAST - curOffset
      {
        var h := ar.data[curOffset];
        ScanStep(v, old(curOffset), curOffset, len);
        if h > 0 {
          curOffset := curOffset + h;
        } else if -h >= len {
          // an exact fit, or a block to split
          TakeBlock(ar, len);
          return curOffset + 1;
        } else if ar.data[curOffset - h] >= 0 {
          curOffset := curOffset - h;
        } else {
          // both branches that merge two free blocks
          assert false;
        }
      }
      r := 0;
    }

    /* Try to serve the request from arena `i`, as the walk of search `s` does. */
    method TryArena(ghost s: Search, i: nat, len: nat) returns (p: int)
      requires Shape() && Matches(s, len)
      requires s.Holds(i) && s.bases[i] > NULL
      requires curOffset == s.First(i) && Boundary(s.heap[s.bases[i]].kind, curOffset)
      modifies `curOffset, `state, arenas[i], arenas[i].data
      ensures Shape()
      ensures if p == NULL then state == old(state) && s.NoFitIn(i) else s.Given(i, curOffset, p, old(state), state)
    {
      assert InPlace(arenas[i]);
      var ar := arenas[i];
      var r := AllocBlock(ar, len + 1);
      p := if r == 0 then NULL else ar.base + r;
      if r != 0 {
        state := Snapshot(state.heap[ar.base := Taken(state.heap[ar.base], curOffset, len + 1)],
                          state.live[p := Grant(ar.base, curOffset, len)]);
      }
      forall c | c in arenas ensures InPlace(c) {
        assert old(InPlace(c)) && (c != arenas[i] ==> Distinct(arenas[i], c));
      }
    }

    /* Map a new arena at the address the kernel picked and link it at position `at`. */
    method AddArena(at: nat, base: int)
      requires Shape() && at <= |arenas| && base !in state.heap
      modifies `arenas, `state, `Repr
      ensures Shape() && Grown(old(arenas), arenas, at, base)
      ensures fresh(Repr - old(Repr)) && fresh(arenas[at]) && fresh(arenas[at].data)
      ensures base in state.heap && NewRegion(state.heap[base])
      ensures state == old(state).(heap := old(state).heap[base := state.heap[base]])
    {
      var a := new Arena(base);
      state := state.(heap := state.heap[base := a.View()]);
      forall c | c in arenas ensures c.base != base && c.data != a.data {
        assert old(InPlace(c));
      }
      ListGrows(arenas, at, a, state.heap.Keys);
      arenas := Inserted(arenas, at, a);
      Repr := Repr + {a, a.data};
      forall c | c in arenas ensures InPlace(c) {
        assert c in old(arenas) ==> old(InPlace(c));
      }
    }

    /* The cyclic walk over the arenas, which starts at the cursor and ends where a block
       is found or when the current arena would come next again. */
    method SearchArenas(ghost s: Search, len: nat) returns (i: nat, p: int)
      requires Shape() && s == SearchFor(len) && s.Ready() && 1 <= len <= MAX_LENGTH
      requires Boundary(s.heap[s.bases[cur]].kind, curOffset)
      modifies `curOffset, `state, Repr
      ensures Shape() && unchanged(`arenas, `cur, `Repr)
      ensures if p == NULL then state == old(state) && s.Exhausted() else s.Served(i, curOffset, p, old(state), state)
    {
      i := cur;
      assert InPlace(arenas[i]);
      p := TryArena(s, i, len);
      while p == NULL && Successor(i, |arenas|) != cur
        invariant Shape() && unchanged(`arenas, `cur, `Repr) && i < |arenas| && s.Passed(i)
        invariant if p == NULL then state == old(state) && s.NoFitIn(i) else s.Given(i, curOffset, p, old(state), state)
        decreases p == NULL, Remaining(i, cur, |arenas|)
      {
        PassedOne(s, i);
        i := Successor(i, |arenas|);
        p := SearchNext(s, i, len);
      }
      if p == NULL {
        PassedOne(s, i);
      }
    }

    /* One more arena of the walk, from its first block on. */
    method SearchNext(ghost s: Search, i: nat, len: nat) returns (p: int)
      requires Shape() && Matches(s, len)
      requires s.Ready() && i < |arenas| && i != s.from
      modifies `curOffset, `state, Repr
      ensures Shape() && unchanged(`arenas, `cur, `Repr)
      ensures if p == NULL then state == old(state) && s.NoFitIn(i) else s.Given(i, curOffset, p, old(state), state)
    {
      curOffset := ARENA_HEADER;
      assert InPlace(arenas[i]);
      p := TryArena(s, i, len);
    }

    /* Link a new arena at position `at` and serve the request from it. */
    method GrowAndPlace(at: nat, len: nat, newBase: int) returns (p: int)
      requires Shape() && at <= |arenas| && 1 <= len <= MAX_LENGTH
      requires newBase > NULL && newBase !in state.heap
      modifies `arenas, `state, `curOffset, `Repr
      ensures Shape() && Grown(old(arenas), arenas, at, newBase)
      ensures fresh(Repr - old(Repr)) && fresh(arenas[at]) && fresh(arenas[at].data)
      ensures p == PointerTo(newBase, ARENA_HEADER) && curOffset == ARENA_HEADER
      ensures FirstOfNew(old(state), state, newBase, len)
    {
      AddArena(at, newBase);
      curOffset := ARENA_HEADER;
      ghost var s := Search(Addresses(arenas), state.heap, at, ARENA_HEADER, len + 1);
      FreshFits(s);
      p := TryArena(s, at, len);
    }

    /* Serve the request from the arenas there are, if the walk meets a fit. */
    method ServeOld(ghost s: Search, len: nat) returns (p: int)
      requires Valid() && arenas != [] && 1 <= len <= MAX_LENGTH && s == SearchFor(len)
      modifies `cur, `curOffset, `state, Repr
      ensures unchanged(`arenas, `Repr)
      ensures p == NULL ==> Shape() && state == old(state) && cur == old(cur) && s.Exhausted()
      ensures p != NULL ==>
        Valid() && s.Served(cur, curOffset, p, old(state), state) && Issued(old(state), state, p, len)
    {
      CanSearch(s, state.live);
      var i;
      i, p := SearchArenas(s, len);
      if p != NULL {
        cur := i;
        ServedIsValid(s, old(state), p);
      }
    }

    /* Serve the request from a new arena at position `at`. */
    method ServeNew(at: nat, len: nat, newBase: int) returns (p: int)
      requires Shape() && HeapOk(state.heap, state.live) && at <= |arenas| && 1 <= len <= MAX_LENGTH
      requires newBase > NULL && forall b :: b in state.heap ==> Apart(newBase, b)
      modifies this
      ensures Valid() && cur == at && Grown(old(arenas), arenas, at, newBase)
      ensures fresh(Repr - old(Repr)) && fresh(arenas[at]) && fresh(arenas[at].data)
      ensures curOffset == ARENA_HEADER && p == PointerTo(newBase, ARENA_HEADER)
      ensures FirstOfNew(old(state), state, newBase, len) && Issued(old(state), state, p, len)
    {
      assert newBase in state.heap ==> Apart(newBase, newBase);
      p := GrowAndPlace(at, len, newBase);
      FirstOfNewKeepsHeapOk(old(state), state, newBase, len);
      cur := at;
    }

    /* Serve a request that is not for 0 bytes: by the first fitting block that the walk
       from the cursor meets, or else by a new arena linked after the current one. */
    method Serve(ghost s: Search, len: nat, newBase: int) returns (p: int, ghost grew: bool)
      requires Valid() && 1 <= len <= MAX_LENGTH && s == SearchFor(len)
      requires newBase > NULL && forall b :: b in state.heap ==> Apart(newBase, b)
      modifies this, Repr
      ensures Valid() && fresh(Repr - old(Repr)) && Issued(old(state), state, p, len)
      ensures grew <==> s.Exhausted()
      ensures !grew ==> arenas == old(arenas) && s.Served(cur, curOffset, p, old(state), state)
      ensures grew ==>
        && cur == (if old(arenas) == [] then 0 else old(cur) + 1) && Grown(old(arenas), arenas, cur, newBase)
        && fresh(arenas[cur]) && fresh(arenas[cur].data)
        && curOffset == ARENA_HEADER && p == PointerTo(newBase, ARENA_HEADER)
        && FirstOfNew(old(state), state, newBase, len)
    {
      grew := false;
      var at := 0;
      if arenas != [] {
        p := ServeOld(s, len);
        if p != NULL {
          FoundIsNotExhausted(s, cur, curOffset);
          return;
        }
        at := cur + 1;
      }
      p := ServeNew(at, len, newBase);
      grew := true;
    }

    /* stralloc. A request within the limit is always served: by the first fitting block
       that the cyclic walk from the cursor meets, and by the first block of a new arena,
       linked after the current one, exactly when that walk meets none. */
    method StrAlloc(len: nat, newBase: int) returns (p: int, ghost grew: bool)
      requires Valid() && len <= MAX_LENGTH
      requires newBase > NULL && forall b :: b in state.heap ==> Apart(newBase, b)
      modifies this, Repr
      ensures Valid() && fresh(Repr - old(Repr))
      ensures len == 0 ==> p == NULL && state == old(state) && cur == old(cur) && curOffset == old(curOffset)
      ensures len > 0 ==> Issued(old(state), state, p, len)
      ensures grew <==> len > 0 && old(SearchFor(len)).Exhausted()
      ensures !grew ==> arenas == old(arenas)
      ensures len > 0 && !grew ==> old(SearchFor(len)).Served(cur, curOffset, p, old(state), state)
      // the cursor only moves on, around the list of arenas ...
      ensures len > 0 && !grew ==> cur < |arenas| && p == arenas[cur].base + curOffset + 1
      ensures len > 0 && !grew && cur == old(cur) ==> old(curOffset) <= curOffset
      // ... and passes no free block that is large enough
      ensures len > 0 && !grew ==> forall j, x ::
        && 0 <= j < |arenas| && (if old(cur) <= cur then old(cur) <= j <= cur else old(cur) <= j || j <= cur)
        && (j == old(cur) ==> old(curOffset) <= x) && (j == cur ==> x < curOffset)
        && arenas[j].base in old(state).heap && 0 <= x < |old(state).heap[arenas[j].base].bytes|
        && x in old(state).heap[arenas[j].base].kind && old(state).heap[arenas[j].base].bytes[x] < 0
        ==> -old(state).heap[arenas[j].base].bytes[x] <= len
      ensures grew ==>
        && cur == (if old(arenas) == [] then 0 else old(cur) + 1) && Grown(old(arenas), arenas, cur, newBase)
        && fresh(arenas[cur]) && fresh(arenas[cur].data)
        && curOffset == ARENA_HEADER && p == PointerTo(newBase, ARENA_HEADER)
        && FirstOfNew(old(state), state, newBase, len)
      ensures grew ==> forall j, x ::
        && 0 <= j < |old(arenas)| && (j == old(cur) ==> old(curOffset) <= x)
        && old(arenas)[j].base in old(state).heap && 0 <= x < |old(state).heap[old(arenas)[j].base].bytes|
        && x in old(state).heap[old(arenas)[j].base].kind && old(state).heap[old(arenas)[j].base].bytes[x] < 0
        ==> -old(state).heap[old(arenas)[j].base].bytes[x] <= len
    {
      if len == 0 {
        return NULL, false;
      }
      ghost var s := SearchFor(len);
      p, grew := Serve(s, len, newBase);
      if !grew {
        ServedPassedAll(s, cur, curOffset, p, old(state), state);
      } else {
        ExhaustedPassedAll(s);
      }
    }

    /* strfree. Its checks cannot fail on a live pointer, and it changes one byte. */
    method StrFree(p: int)
      requires Valid() && (p == NULL || p in state.live)
      modifies `state, Repr
      ensures Valid()
      ensures p == NULL ==> state == old(state)
      ensures p != NULL ==> Freed(old(state), state, p) && p !in state.live
      // the header says that the block is free, which can serve a request of that length again
      ensures p != NULL ==>
        && var g, h := old(state).live[p], old(state).heap;
           && g.base in h && 0 <= g.off < |h[g.base].bytes|
           && g.base in state.heap && state.heap[g.base].bytes == h[g.base].bytes[g.off := -(g.len + 1)]
           && state.heap[g.base].Ok() && state.heap[g.base].Fits(g.off, g.len + 1)
    {
      if p == NULL {
        return;
      }
      FreeLive(p);
      FreedBytes(old(state), state, p);
    }

    /* Find the arena of a live pointer and release its block. */
    method FreeLive(p: int)
      requires Valid() && p in state.live
      modifies `state, Repr
      ensures Valid() && Freed(old(state), state, p)
    {
      ReleaseKeepsHeapOk(state.heap, state.live, p);
      var i := FindPtrArena(Addresses(arenas), p);
      FoundByAddress(state.heap, state.live[p], Addresses(arenas), i);
      assert InPlace(arenas[i]);
      Release(i, p);
    }

    /* The checks of strfree on the arena found, and the flip of the header's sign. */
    method Release(i: nat, p: int)
      requires Shape() && p in state.live && i < |arenas| && InPlace(arenas[i]) && arenas[i].base == state.live[p].base
      requires state.heap[arenas[i].base].Ok() && state.heap[arenas[i].base].IsLive(state.live[p].off)
      requires p == state.live[p].Address()
      modifies `state, arenas[i], arenas[i].data
      ensures Shape() && Freed(old(state), state, p)
    {
      var ar := arenas[i];
      var target := p - ar.base - 1;
      assert ar.data[target] > 0;
      var o := WalkTo(ar, target);
      assert ar.data[o] != 0;
      Flip(ar, o);
      state := Snapshot(state.heap[ar.base := Released(state.heap[ar.base], o)], state.live - {p});
      forall c | c in arenas ensures InPlace(c) {
        assert old(InPlace(c)) && (c != arenas[i] ==> Distinct(arenas[i], c));
      }
    }

    /* The client stores a byte in memory it was given. */
    method WriteByte(p: int, i: nat, x: Byte)
      requires Valid() && p in state.live && i < state.live[p].len
      modifies `state, Repr
      ensures Valid() && Stored(old(state), state, p, i, x)
      // one byte of the payload changes and nothing else
      ensures state.live == old(state).live
      ensures var g, h := state.live[p], old(state).heap;
        && g.base in h && 0 <= g.off && g.off + 1 + i < |h[g.base].bytes|
        && g.base in state.heap && state.heap[g.base].bytes == h[g.base].bytes[g.off + 1 + i := x]
    {
      OwnedRange(state.heap, state.live[p]);
      WriteKeepsHeapOk(state.heap, state.live, p, i, x);
      var a := FindPtrArena(Addresses(arenas), p);
      FoundByAddress(state.heap, state.live[p], Addresses(arenas), a);
      assert InPlace(arenas[a]);
      Poke(a, p, i, x);
      StoredBytes(old(state), state, p, i, x);
    }

    method Poke(a: nat, p: int, i: nat, x: Byte)
      requires Shape() && p in state.live && a < |arenas| && InPlace(arenas[a]) && arenas[a].base == state.live[p].base
      requires p == state.live[p].Address()
      requires 0 <= state.live[p].off && state.live[p].off + 1 + i < arenas[a].data.Length
      modifies `state, arenas[a].data
      ensures Shape() && Stored(old(state), state, p, i, x)
    {
      var ar, at := arenas[a], p + i - arenas[a].base;
      ghost var d: seq<Byte> := ar.data[..];
      ar.data[at] := x;
      assert ar.data[..] == d[at := x];
      state := state.(heap := state.heap[ar.base := Written(state.heap[ar.base], at, x)]);
      forall c | c in arenas ensures InPlace(c) {
        assert old(InPlace(c)) && (c != arenas[a] ==> Distinct(arenas[a], c));
      }
    }

    /* strmemcheck: true when none of its assertions fails, in any state whatsoever. */
    method StrMemCheck() returns (ok: bool)
      requires forall a :: a in arenas ==> a.data.Length == ARENA_SIZE
      ensures ok <==> forall i :: 0 <= i < |arenas| ==> Tiles(arenas[i].data[..], ARENA_HEADER)
    {
      for i := 0 to |arenas|
        invariant forall j :: 0 <= j < i ==> Tiles(arenas[j].data[..], ARENA_HEADER)
      {
        ok := CheckArena(arenas[i]);
        if !ok {
          return;
        }
      }
      ok := true;
    }

    /* Hence it accepts every reachable state. */
    lemma ValidPassesMemCheck()
      requires Valid()
      ensures forall i :: 0 <= i < |arenas| ==> Tiles(arenas[i].data[..], ARENA_HEADER)
    {
      forall i | 0 <= i < |arenas| ensures Tiles(arenas[i].data[..], ARENA_HEADER) {
        assert InPlace(arenas[i]);
        HeapOkTiles(state.heap, state.live, arenas[i].base);
      }
    }

    /* The bytes of the heap are those of the arrays. */
    lemma ArraysHoldHeap()
      requires Valid()
      ensures forall a :: a in arenas ==> a.base in state.heap && a.data[..] == state.heap[a.base].bytes
      ensures forall b :: b in state.heap ==> exists i :: 0 <= i < |arenas| && arenas[i].base == b
    {
      forall a | a in arenas ensures a.base in state.heap && a.data[..] == state.heap[a.base].bytes {
        assert InPlace(a);
      }
      forall b | b in state.heap ensures exists i :: 0 <= i < |arenas| && arenas[i].base == b {
        var i :| 0 <= i < |arenas| && Addresses(arenas)[i] == b;
        assert arenas[i].base == b;
      }
    }
  }

  method CheckArena(ar: Arena) returns (ok: bool)
    requires ar.data.Length == ARENA_SIZE
    ensures ok <==> Tiles(ar.data[..], ARENA_HEADER)
  {
    var offset := ARENA_HEADER;
    while offset != LAST
      invariant Tiles(ar.data[..], ARENA_HEADER) == Tiles(ar.data[..], offset)
      decreases ARENA_SIZE - offset
    {
      if offset >= ARENA_SIZE || ar.data[offset] == 0 {
        return false;
      }
      offset := offset + Size(ar.data[offset]);
    }
    return ar.data[offset] == 0;
  }

  /* Follow the headers from the start of the arena; for a block of the layout the walk
     stops exactly at its header. */
  method WalkTo(ar: Arena, target: int) returns (o: nat)
    requires ar.Valid() && target in ar.kind
    ensures o == target
  {
    o := ARENA_HEADER;
    ghost var v := ar.View();
    while o < target
      invariant o in v.kind && o <= target
      decreases target - o
    {
      assert ar.data[o] != 0;
      assert Boundary(v.kind, Next(v.bytes, o));
      o := o + Size(ar.data[o]);
    }
  }

  /* Mark a live block free. */
  method Flip(ar: Arena, o: nat)
    requires ar.Valid() && ar.View().IsLive(o)
    modifies ar`kind, ar.data
    ensures ar.Valid() && ar.View() == Released(old(ar.View()), o)
    ensures 0 <= o < ar.data.Length && ar.data[..] == old(ar.data[..])[o := -old(ar.data[o])]
  {
    ReleaseKeepsWellFormed(ar.data[..], ar.kind, o);
    ghost var d: seq<Byte> := ar.data[..];
    ar.data[o] := -ar.data[o];
    assert ar.data[..] == d[o := -d[o]];
    ar.kind := ar.kind[o := Free];
  }

  ghost predicate NewRegion(r: Region) {
    && r.Ok() && ARENA_HEADER in r.kind && r.bytes[ARENA_HEADER] == -MAX_BLKSZ
    && forall o :: o in r.kind ==> r.kind[o] == Free
  }

  /* In a fresh arena every request is served by the first block. */
  lemma FreshFits(s: Search)
    requires s.Holds(s.from) && s.off == ARENA_HEADER && NewRegion(s.heap[s.bases[s.from]]) && 2 <= s.len <= MAX_BLKSZ
    ensures !s.NoFitIn(s.from)
    ensures forall o :: s.FirstFit(s.from, o) ==> o == ARENA_HEADER
  {
    assert s.heap[s.bases[s.from]].Fits(ARENA_HEADER, s.len);
  }
}
