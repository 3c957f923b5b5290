/** The string heap as a value: arenas keyed by their addresses and the pointers the
    client holds. Every operation of the allocator is one of the four updates that are
    proved here to keep the heap invariant. */
module StrHeap {
  import opened ArenaLayout
  import opened ArenaList

  datatype Region = Region(bytes: seq<Byte>, kind: Layout) {
    ghost predicate Ok() { WellFormed(bytes, kind) }

    /* Block `o` is free and large enough for `len` bytes, header included. */
    ghost predicate Fits(o: int, len: nat)
      requires Ok()
    {
      o in kind && kind[o] == Free && len <= Size(bytes[o])
    }

    ghost predicate NoFit(from: int, to: int, len: nat)
      requires Ok()
    {
      forall o :: o in kind && from <= o < to ==> !Fits(o, len)
    }

    ghost predicate IsLive(o: int) { o in kind && kind[o] == Live }
  }

  type Heap = map<int, Region>

  /* The address of the payload of block `o` of the arena at address `b`. */
  function PointerTo(b: int, o: int): (p: int) { b + o + 1 }

  /* What a pointer stands for: `len` payload bytes after the header at offset `off`
     of the arena at address `base`. */
  datatype Grant = Grant(base: int, off: int, len: nat) {
    function Address(): (p: int) { PointerTo(base, off) }
  }

  /* The pointers handed out and not yet freed. */
  type Pointers = map<int, Grant>

  ghost predicate RegionsOk(h: Heap) {
    && (forall b :: b in h ==> b > NULL && h[b].Ok())
    && (forall b, c :: b in h && c in h && b != c ==> Apart(b, c))
  }

  /* Grant `g` is a live block of its arena whose header counts itself and the payload. */
  ghost predicate Backed(h: Heap, g: Grant)
    requires RegionsOk(h)
  {
    g.base in h && h[g.base].IsLive(g.off) && h[g.base].bytes[g.off] == g.len + 1
  }

  /* The client holds exactly the live blocks. */
  ghost predicate PointersOk(h: Heap, live: Pointers)
    requires RegionsOk(h)
  {
    && (forall p :: p in live ==> p == live[p].Address() && Backed(h, live[p]))
    && (forall b, o {:trigger PointerTo(b, o)} :: b in h && h[b].IsLive(o) ==> PointerTo(b, o) in live)
  }

  ghost predicate HeapOk(h: Heap, live: Pointers) {
    RegionsOk(h) && PointersOk(h, live)
  }

  // ----- what a live pointer owns

  /* Its bytes lie inside its arena and inside no other one. */
  lemma OwnedRange(h: Heap, g: Grant)
    requires RegionsOk(h) && Backed(h, g)
    ensures g.base + ARENA_HEADER < g.Address() && g.Address() + g.len <= g.base + LAST
    ensures forall b :: b in h && b != g.base ==> !InArena(b, g.Address())
  {
    assert Boundary(h[g.base].kind, Next(h[g.base].bytes, g.off));
    assert forall b :: b in h && b != g.base ==> Apart(b, g.base);
  }

  /* They hold no header of any arena. */
  lemma OwnedBytesAreNoHeaders(h: Heap, g: Grant, b: int, o: int)
    requires RegionsOk(h) && Backed(h, g) && b in h && o in h[b].kind
    ensures !(g.Address() <= b + o < g.Address() + g.len)
  {
    OwnedRange(h, g);
    if b == g.base {
      if g.off < o { assert Next(h[b].bytes, g.off) <= o; }
    } else {
      assert Apart(b, g.base);
    }
  }

  /* Two live pointers never share a byte. */
  lemma LivePointersDisjoint(h: Heap, live: Pointers, p: int, q: int)
    requires HeapOk(h, live) && p in live && q in live && p < q
    ensures p + live[p].len < q
  {
    var g, f := live[p], live[q];
    OwnedRange(h, g);
    OwnedRange(h, f);
    if g.base == f.base {
      assert Next(h[g.base].bytes, g.off) <= f.off;
    } else {
      assert Apart(g.base, f.base);
    }
  }

  /* The pointer to a live block stands for that block. */
  lemma LiveBlockIsHeld(h: Heap, live: Pointers, b: int, o: int)
    requires HeapOk(h, live) && b in h && h[b].IsLive(o)
    ensures PointerTo(b, o) in live && live[PointerTo(b, o)].base == b && live[PointerTo(b, o)].off == o
  {
  }

  // ----- the four updates

  /* Replacing one arena: the pointers into the others stay as they were. */
  lemma ReplaceKeepsHeapOk(h: Heap, live: Pointers, b: int, r: Region, live': Pointers)
    requires HeapOk(h, live) && b in h && r.Ok()
    requires forall p :: p in live' ==> p == live'[p].Address()
    requires forall p :: p in live' ==>
      if live'[p].base == b then r.IsLive(live'[p].off) && r.bytes[live'[p].off] == live'[p].len + 1
      else p in live && live'[p] == live[p]
    requires forall p :: p in live && live[p].base != b ==> p in live'
    requires forall o {:trigger PointerTo(b, o)} :: r.IsLive(o) ==> PointerTo(b, o) in live'
    ensures HeapOk(h[b := r], live')
  {
    var h' := h[b := r];
    assert RegionsOk(h');
    forall p | p in live' ensures Backed(h', live'[p]) {
      if live'[p].base != b { assert Backed(h, live[p]); }
    }
    forall c, o | c in h' && h'[c].IsLive(o) ensures PointerTo(c, o) in live' {
      if c != b { LiveBlockIsHeld(h, live, c, o); }
    }
  }

  function Taken(r: Region, o: nat, len: nat): (r': Region)
    requires |r.bytes| == ARENA_SIZE && o < ARENA_SIZE && 2 <= len <= Size(r.bytes[o]) <= MAX_BLKSZ
    requires Next(r.bytes, o) < ARENA_SIZE
  {
    Region(TakenBytes(r.bytes, o, len), TakenLayout(r.kind, o, Size(r.bytes[o]), len))
  }

  lemma TakenRegion(r: Region, o: nat, len: nat)
    requires r.Ok() && 2 <= len && r.Fits(o, len)
    ensures Next(r.bytes, o) < ARENA_SIZE && Taken(r, o, len).Ok() && Taken(r, o, len).bytes[o] == len
    ensures forall p :: Taken(r, o, len).IsLive(p) <==> r.IsLive(p) || p == o
    ensures forall p :: r.IsLive(p) ==> Taken(r, o, len).bytes[p] == r.bytes[p]
  {
    TakeKeepsWellFormed(r.bytes, r.kind, o, len);
    if len < Size(r.bytes[o]) { SplitNexts(r.bytes, r.kind, o, len); }
  }

  /* Nobody holds a pointer to a free block. */
  lemma FreeBlockIsNotHeld(h: Heap, live: Pointers, b: int, o: nat)
    requires HeapOk(h, live) && b in h && o in h[b].kind && h[b].kind[o] == Free
    ensures PointerTo(b, o) !in live
  {
    if PointerTo(b, o) in live {
      OwnedRange(h, live[PointerTo(b, o)]);
    }
  }

  lemma TakeKeepsHeapOk(h: Heap, live: Pointers, b: int, o: nat, len: nat)
    requires HeapOk(h, live) && b in h && 1 <= len && h[b].Fits(o, len + 1)
    ensures Next(h[b].bytes, o) < ARENA_SIZE && PointerTo(b, o) !in live
    ensures HeapOk(h[b := Taken(h[b], o, len + 1)], live[PointerTo(b, o) := Grant(b, o, len)])
  {
    TakenRegion(h[b], o, len + 1);
    FreeBlockIsNotHeld(h, live, b, o);
    ReplaceKeepsHeapOk(h, live, b, Taken(h[b], o, len + 1), live[PointerTo(b, o) := Grant(b, o, len)]);
  }

  function Released(r: Region, o: nat): (r': Region)
    requires o < |r.bytes| && r.bytes[o] != -128
  {
    Region(r.bytes[o := -r.bytes[o]], r.kind[o := Free])
  }

  lemma ReleaseKeepsHeapOk(h: Heap, live: Pointers, p: int)
    requires HeapOk(h, live) && p in live
    ensures 0 <= live[p].off < ARENA_SIZE
    ensures HeapOk(h[live[p].base := Released(h[live[p].base], live[p].off)], live - {p})
  {
    var g := live[p];
    ReleaseKeepsWellFormed(h[g.base].bytes, h[g.base].kind, g.off);
    ReplaceKeepsHeapOk(h, live, g.base, Released(h[g.base], g.off), live - {p});
  }

  function Written(r: Region, at: nat, x: Byte): (r': Region)
    requires at < |r.bytes|
  {
    Region(r.bytes[at := x], r.kind)
  }

  lemma WriteKeepsHeapOk(h: Heap, live: Pointers, p: int, i: nat, x: Byte)
    requires HeapOk(h, live) && p in live && i < live[p].len
    ensures 0 <= live[p].off + 1 + i < LAST
    ensures HeapOk(h[live[p].base := Written(h[live[p].base], live[p].off + 1 + i, x)], live)
  {
    var g := live[p];
    PayloadWriteKeepsWellFormed(h[g.base].bytes, h[g.base].kind, g.off, i + 1, x);
    ReplaceKeepsHeapOk(h, live, g.base, Written(h[g.base], g.off + 1 + i, x), live);
  }

  lemma InsertKeepsHeapOk(h: Heap, live: Pointers, b: int, r: Region)
    requires HeapOk(h, live) && b > NULL && r.Ok()
    requires forall c :: c in h ==> Apart(b, c)
    requires forall o :: o in r.kind ==> r.kind[o] == Free
    ensures b !in h && HeapOk(h[b := r], live)
  {
  }

  // ----- what the client stored stays there

  /* The payload a pointer stands for. */
  function Payload(h: Heap, g: Grant): (s: seq<Byte>)
    requires g.base in h && 0 <= g.off && g.off + 1 + g.len <= |h[g.base].bytes|
  {
    h[g.base].bytes[g.off + 1..g.off + 1 + g.len]
  }

  lemma TakeKeepsPayloads(h: Heap, live: Pointers, b: int, o: nat, len: nat, q: int)
    requires HeapOk(h, live) && b in h && 1 <= len && h[b].Fits(o, len + 1) && q in live
    ensures 0 <= live[q].off && live[q].off + 1 + live[q].len <= LAST && Next(h[b].bytes, o) < ARENA_SIZE
    ensures Payload(h[b := Taken(h[b], o, len + 1)], live[q]) == Payload(h, live[q])
  {
    var g := live[q];
    OwnedRange(h, g);
    TakenRegion(h[b], o, len + 1);
    if g.base == b {
      var d := h[b].bytes;
      assert Next(d, g.off) <= o || Next(d, o) <= g.off by {
        assert g.off < o ==> Next(d, g.off) <= o;
        assert o < g.off ==> Next(d, o) <= g.off;
      }
    }
  }

  lemma ReleaseKeepsPayloads(h: Heap, live: Pointers, p: int, q: int)
    requires HeapOk(h, live) && p in live && q in live
    ensures 0 <= live[q].off && live[q].off + 1 + live[q].len <= LAST && 0 <= live[p].off < ARENA_SIZE
    ensures Payload(h[live[p].base := Released(h[live[p].base], live[p].off)], live[q]) == Payload(h, live[q])
  {
    OwnedRange(h, live[q]);
    OwnedRange(h, live[p]);
    OwnedBytesAreNoHeaders(h, live[q], live[p].base, live[p].off);
  }

  lemma WriteKeepsOtherPayloads(h: Heap, live: Pointers, p: int, i: nat, x: Byte, q: int)
    requires HeapOk(h, live) && p in live && q in live && i < live[p].len && p != q
    ensures 0 <= live[q].off && live[q].off + 1 + live[q].len <= LAST && 0 <= live[p].off + 1 + i < ARENA_SIZE
    ensures Payload(h[live[p].base := Written(h[live[p].base], live[p].off + 1 + i, x)], live[q]) == Payload(h, live[q])
  {
    OwnedRange(h, live[q]);
    OwnedRange(h, live[p]);
    if p < q { LivePointersDisjoint(h, live, p, q); } else { LivePointersDisjoint(h, live, q, p); }
  }

  /* strmemcheck accepts every arena of a heap that meets the invariant. */
  lemma HeapOkTiles(h: Heap, live: Pointers, b: int)
    requires HeapOk(h, live) && b in h
    ensures Tiles(h[b].bytes, ARENA_HEADER)
  {
    LayoutIsTiling(h[b].bytes, h[b].kind, ARENA_HEADER);
  }

  // ----- whole runs

  datatype Snapshot = Snapshot(heap: Heap, live: Pointers)

  datatype Event =
    | Take(base: int, off: nat, len: nat)
    | Map(base: int, region: Region)
    | Release(p: int)
    | Store(p: int, i: nat, x: Byte)

  /* What the allocator and its client may do next: only live pointers are freed, and
     the client writes only inside its own payloads. */
  ghost predicate Enabled(s: Snapshot, e: Event)
    requires HeapOk(s.heap, s.live)
  {
    match e
    case Take(b, o, len) => b in s.heap && 1 <= len && s.heap[b].Fits(o, len + 1)
    case Map(b, r) =>
      && b > NULL && r.Ok() && (forall c :: c in s.heap ==> Apart(b, c))
      && (forall o :: o in r.kind ==> r.kind[o] == Free)
    case Release(p) => p in s.live
    case Store(p, i, x) => p in s.live && i < s.live[p].len
  }

  ghost function After(s: Snapshot, e: Event): (t: Snapshot)
    requires HeapOk(s.heap, s.live) && Enabled(s, e)
    ensures HeapOk(t.heap, t.live)
  {
    match e
    case Take(b, o, len) =>
      TakeKeepsHeapOk(s.heap, s.live, b, o, len);
      Snapshot(s.heap[b := Taken(s.heap[b], o, len + 1)], s.live[PointerTo(b, o) := Grant(b, o, len)])
    case Map(b, r) =>
      InsertKeepsHeapOk(s.heap, s.live, b, r);
      Snapshot(s.heap[b := r], s.live)
    case Release(p) =>
      ReleaseKeepsHeapOk(s.heap, s.live, p);
      var g := s.live[p];
      Snapshot(s.heap[g.base := Released(s.heap[g.base], g.off)], s.live - {p})
    case Store(p, i, x) =>
      WriteKeepsHeapOk(s.heap, s.live, p, i, x);
      var g := s.live[p];
      Snapshot(s.heap[g.base := Written(s.heap[g.base], g.off + 1 + i, x)], s.live)
  }

  ghost predicate Follows(s: Snapshot, t: Snapshot)
    requires HeapOk(s.heap, s.live)
  {
    exists e :: Enabled(s, e) && t == After(s, e)
  }

  ghost predicate StepAt(run: seq<Snapshot>, k: nat)
    requires 0 < k < |run|
  {
    HeapOk(run[k - 1].heap, run[k - 1].live) ==> Follows(run[k - 1], run[k])
  }

  ghost predicate IsRun(run: seq<Snapshot>) {
    && |run| > 0 && run[0] == Snapshot(map[], map[])
    && forall k :: 0 < k < |run| ==> StepAt(run, k)
  }

  lemma {:induction false} RunKeepsHeapOk(run: seq<Snapshot>, k: nat)
    requires IsRun(run) && k < |run|
    ensures HeapOk(run[k].heap, run[k].live)
  {
    if k == 0 {
    } else {
      RunKeepsHeapOk(run, k - 1);
      assert StepAt(run, k);
    }
  }

  /* In every run, at every moment, every arena passes strmemcheck and no request of
     any size would reach a merge branch from any block boundary. */
  lemma RunsNeverMerge(run: seq<Snapshot>, i: nat, b: int, o: nat, len: nat)
    requires IsRun(run) && i < |run| && b in run[i].heap && len <= MAX_BLKSZ
    ensures HeapOk(run[i].heap, run[i].live) && Tiles(run[i].heap[b].bytes, ARENA_HEADER)
    ensures o == LAST || o in Walk(run[i].heap[b].bytes, ARENA_HEADER) ==>
      o < ARENA_SIZE && var br := BranchAt(run[i].heap[b].bytes, o, len); !br.MergeOnly? && !br.MergeSplit?
    ensures o == LAST || o in Walk(run[i].heap[b].bytes, ARENA_HEADER) ==>
      && o < ARENA_SIZE
      && var d := run[i].heap[b].bytes;
         d[o] < 0 && -d[o] < len ==> o - d[o] < ARENA_SIZE && d[o - d[o]] >= 0
  {
    RunKeepsHeapOk(run, i);
    var r := run[i].heap[b];
    LayoutIsTiling(r.bytes, r.kind, ARENA_HEADER);
    if o == LAST || o in Walk(r.bytes, ARENA_HEADER) {
      MergeNeverTaken(r.bytes, r.kind, o, len);
    }
  }
}
