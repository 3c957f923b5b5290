/** The byte layout of one string-allocator arena: one-byte signed headers stored
    in the same buffer as the payloads the client writes to. */
module ArenaLayout {
  import opened ArenaList

  /* size of the link word at the start of every arena */
  const ARENA_HEADER := 8
  /* offset of the zero byte that ends the chain of blocks */
  const LAST := ARENA_SIZE - 1
  const MAX_LENGTH := 126
  const MAX_BLKSZ := MAX_LENGTH + 1

  /* An int8_t. */
  type Byte = x: int | -128 <= x < 128

  /* What the headers alone cannot tell: a positive header is either an allocation
     that its owner may free, or the remainder of a split, which nobody ever frees. */
  datatype Kind = Live | Free | Leaked

  /* The kind of the block whose header is at a given offset. */
  type Layout = map<int, Kind>

  function Size(h: int): (s: nat) {
    if h < 0 then -h else h
  }

  /* Where the block with its header at `o` ends. */
  function Next(d: seq<Byte>, o: int): (n: int)
    requires 0 <= o < |d|
  {
    o + Size(d[o])
  }

  // ----- the invariant of one arena

  ghost predicate Boundary(k: Layout, o: int) {
    o in k || o == LAST
  }

  /* Blocks are chained by their sizes: each ends where the next header (or the
     end marker) is, and no header lies inside another block. */
  ghost predicate Chained(d: seq<Byte>, k: Layout)
    requires |d| == ARENA_SIZE
  {
    && ARENA_HEADER in k
    && d[LAST] == 0
    && (forall o :: o in k ==> ARENA_HEADER <= o < LAST)
    && (forall o :: o in k ==> 1 <= Size(d[o]) <= MAX_BLKSZ)
    && (forall o {:trigger Next(d, o)} :: o in k ==> Boundary(k, Next(d, o)))
    && (forall o, p {:trigger Next(d, o), p in k} :: o in k && p in k && o < p ==> Next(d, o) <= p)
  }

  ghost predicate SignsAgree(d: seq<Byte>, k: Layout)
    requires |d| == ARENA_SIZE && Chained(d, k)
  {
    forall o :: o in k ==> (d[o] < 0 <==> k[o] == Free)
  }

  /* A block shorter than MAX_BLKSZ that is in circulation (live or free) is followed
     by a leaked remainder or by the end marker. */
  ghost predicate ShortsGuarded(d: seq<Byte>, k: Layout)
    requires |d| == ARENA_SIZE && Chained(d, k)
  {
    forall o {:trigger Next(d, o)} :: o in k && k[o] != Leaked && Size(d[o]) < MAX_BLKSZ
      ==> Next(d, o) == LAST || (Next(d, o) in k && k[Next(d, o)] == Leaked)
  }

  ghost predicate WellFormed(d: seq<Byte>, k: Layout) {
    |d| == ARENA_SIZE && Chained(d, k) && SignsAgree(d, k) && ShortsGuarded(d, k)
  }

  // ----- reference definition: what strmemcheck accepts

  /* The headers from `off` on lead exactly to the zero byte at the end of the arena. */
  predicate Tiles(d: seq<Byte>, off: nat)
    decreases ARENA_SIZE - off
  {
    |d| == ARENA_SIZE && off < ARENA_SIZE &&
    if off == LAST then d[off] == 0
    else d[off] != 0 && Tiles(d, Next(d, off))
  }

  /* The headers of `d` at the offsets `path`, from the first on, are a chain: each is not
     zero and leads to the next by its magnitude, and the last is the zero byte. */
  ghost predicate IsChain(d: seq<Byte>, path: seq<nat>) {
    && |d| == ARENA_SIZE && |path| > 0
    && path[|path| - 1] == ARENA_SIZE - 1 && d[ARENA_SIZE - 1] == 0
    && forall k :: 0 <= k < |path| - 1 ==>
      && path[k] < ARENA_SIZE - 1 && d[path[k]] != 0
      && path[k + 1] == if d[path[k]] < 0 then path[k] - d[path[k]] else path[k] + d[path[k]]
  }

  /* The recursive check accepts exactly the arenas that have such a chain. */
  lemma {:induction false} TilesHasChain(d: seq<Byte>, off: nat) returns (path: seq<nat>)
    requires Tiles(d, off)
    ensures IsChain(d, path) && path[0] == off
    decreases ARENA_SIZE - off
  {
    if off == LAST {
      path := [off];
    } else {
      var rest := TilesHasChain(d, Next(d, off));
      path := [off] + rest;
    }
  }

  lemma {:induction false} ChainTiles(d: seq<Byte>, path: seq<nat>)
    requires IsChain(d, path)
    ensures Tiles(d, path[0])
  {
    if |path| == 1 {
    } else {
      var rest := path[1..];
      forall k | 0 <= k < |rest| - 1
        ensures rest[k] < ARENA_SIZE - 1 && d[rest[k]] != 0 && rest[k + 1] == rest[k] + Size(d[rest[k]])
      {
        assert rest[k] == path[k + 1] && rest[k + 1] == path[k + 2];
      }
      ChainTiles(d, rest);
    }
  }

  /* The offsets of the headers met on the walk from `off`. */
  function Walk(d: seq<Byte>, off: nat): (s: set<int>)
    requires Tiles(d, off)
    ensures forall o :: o in s ==> off <= o < LAST
    decreases ARENA_SIZE - off
  {
    if off == LAST then {} else {off} + Walk(d, Next(d, off))
  }

  /* From every block boundary the walk visits exactly the headers of the layout
     from there on, and reaches the end marker. */
  lemma {:induction false} LayoutIsTiling(d: seq<Byte>, k: Layout, o: nat)
    requires WellFormed(d, k) && Boundary(k, o)
    ensures Tiles(d, o)
    ensures forall p :: p in Walk(d, o) <==> p in k && o <= p
    decreases ARENA_SIZE - o
  {
    if o == LAST {
    } else {
      var n := Next(d, o);
      LayoutIsTiling(d, k, n);
      assert forall p :: p in k && o < p ==> n <= p;
    }
  }

  /* Two free blocks are never adjacent unless the first has the maximal size. */
  lemma ShortFreeNeverBeforeFree(d: seq<Byte>, k: Layout, o: nat)
    requires WellFormed(d, k) && o in k && d[o] < 0 && Size(d[o]) < MAX_BLKSZ
    ensures Next(d, o) < ARENA_SIZE && d[Next(d, o)] >= 0
  {
  }

  // ----- the branches of alloc_block

  datatype Branch = EndOfChunk | SkipUsed | TakeExact | TakeSplit | SkipBeforeUsed | MergeOnly | MergeSplit

  /* The branch alloc_block takes at `off`, on any bytes whatsoever; a successor
     header outside the buffer counts as not free. */
  function BranchAt(d: seq<Byte>, off: nat, len: nat): (b: Branch)
    requires |d| == ARENA_SIZE && off < ARENA_SIZE
  {
    var s := Size(d[off]);
    if d[off] == 0 then EndOfChunk
    else if d[off] > 0 then SkipUsed
    else if s == len then TakeExact
    else if s > len then TakeSplit
    else if off + s >= ARENA_SIZE || d[off + s] >= 0 then SkipBeforeUsed
    else if Size(d[off + s]) <= len - s then MergeOnly
    else MergeSplit
  }

  /* In a well-formed arena neither merge branch is taken, whatever the request: a free
     block that is too small is followed by a header that is not free. */
  lemma MergeNeverTaken(d: seq<Byte>, k: Layout, o: nat, len: nat)
    requires WellFormed(d, k) && Boundary(k, o) && len <= MAX_BLKSZ
    ensures !BranchAt(d, o, len).MergeOnly? && !BranchAt(d, o, len).MergeSplit?
    ensures d[o] < 0 && -d[o] < len ==> o - d[o] < ARENA_SIZE && d[o - d[o]] >= 0
  {
    if o in k && d[o] < 0 && Size(d[o]) < len {
      ShortFreeNeverBeforeFree(d, k, o);
    }
  }

  /* What the merge line would do to the headers: it adds the magnitude of the second
     header to the negative first one. */
  function MergeLine(d: seq<Byte>, o: nat): (r: seq<Byte>)
    requires |d| == ARENA_SIZE && o < ARENA_SIZE && d[o] < 0 && Next(d, o) < ARENA_SIZE
  {
    d[o := d[o] + Size(d[Next(d, o)])]
  }

  /* The walk from `x` on does not see the bytes before `x`. */
  lemma {:induction false} WriteBehindKeepsTiles(d: seq<Byte>, o: nat, v: Byte, x: nat)
    requires |d| == ARENA_SIZE && o < x && o < ARENA_SIZE
    ensures Tiles(d[o := v], x) == Tiles(d, x)
    decreases ARENA_SIZE - x
  {
    if x >= LAST || d[x] == 0 {
    } else {
      WriteBehindKeepsTiles(d, o, v, Next(d, x));
    }
  }

  /* Why it matters that they are never taken. The merge line makes the first block, of
     size `s`, as long as the difference between the two sizes and not as their sum. So the
     arena still passes strmemcheck exactly when the sizes differ and the bytes at that
     distance happen to look like a chain of blocks. */
  lemma {:induction false} MergeTilesExactly(d: seq<Byte>, start: nat, o: nat)
    requires Tiles(d, start) && o in Walk(d, start) && d[o] < 0 && Next(d, o) < LAST
    ensures var s, t := Size(d[o]), Size(d[Next(d, o)]);
      Tiles(MergeLine(d, o), start) <==> s != t && Tiles(d, o + Size(t - s))
    decreases ARENA_SIZE - start
  {
    var d' := MergeLine(d, o);
    if start == o {
      if d'[o] != 0 {
        WriteBehindKeepsTiles(d, o, d'[o], Next(d', o));
      }
    } else {
      MergeTilesExactly(d, Next(d, start), o);
    }
  }

  /* In particular two blocks of equal size leave a zero header, which ends the chain. */
  lemma MergeOfEqualsBreaksTiling(d: seq<Byte>, start: nat, o: nat)
    requires Tiles(d, start) && o in Walk(d, start) && d[o] < 0 && Next(d, o) < LAST
    requires Size(d[Next(d, o)]) == Size(d[o])
    ensures !Tiles(MergeLine(d, o), start)
  {
    MergeTilesExactly(d, start, o);
  }

  // ----- the two ways a block is taken, and the way it is given back

  /* The layout after the block at `o` of size `s` is taken for a request of `len`. */
  function TakenLayout(k: Layout, o: int, s: nat, len: nat): (r: Layout) {
    if s == len then k[o := Live] else k[o := Live][o + len := Leaked]
  }

  function TakenBytes(d: seq<Byte>, o: nat, len: nat): (r: seq<Byte>)
    requires |d| == ARENA_SIZE && o < ARENA_SIZE && 2 <= len <= Size(d[o]) <= MAX_BLKSZ
    requires Next(d, o) < ARENA_SIZE
  {
    if Size(d[o]) == len then d[o := len]
    else d[o := len][o + len := Size(d[o]) - len]
  }

  /* Rewriting bytes so that every header keeps its size keeps the chain. */
  lemma SameSizesSameChain(d: seq<Byte>, d': seq<Byte>, k: Layout, k': Layout)
    requires |d| == |d'| == ARENA_SIZE && Chained(d, k) && k.Keys == k'.Keys && d'[LAST] == 0
    requires forall o :: o in k ==> Size(d'[o]) == Size(d[o])
    ensures Chained(d', k')
    ensures forall o {:trigger Next(d', o)} :: o in k ==> Next(d', o) == Next(d, o)
  {
    forall o | o in k ensures Next(d', o) == Next(d, o) && Boundary(k', Next(d', o)) {
      assert Boundary(k, Next(d, o));
    }
  }

  /* Where blocks end after the block at `o` is split. */
  lemma SplitNexts(d: seq<Byte>, k: Layout, o: nat, len: nat)
    requires WellFormed(d, k) && o in k && k[o] == Free
    requires 2 <= len < Size(d[o])
    ensures Next(d, o) < ARENA_SIZE && o + len !in k
    ensures var d' := TakenBytes(d, o, len);
      && Next(d', o) == o + len && Next(d', o + len) == Next(d, o)
      && forall p {:trigger Next(d', p)} :: p in k && p != o ==> Next(d', p) == Next(d, p)
  {
  }

  lemma SplitKeepsOrder(d: seq<Byte>, k: Layout, o: nat, len: nat, p: int, q: int)
    requires WellFormed(d, k) && o in k && k[o] == Free && 2 <= len < Size(d[o])
    requires (p in k || p == o + len) && (q in k || q == o + len) && p < q
    ensures Next(d, o) < ARENA_SIZE && 0 <= p < ARENA_SIZE
    ensures Next(TakenBytes(d, o, len), p) <= q
  {
    SplitNexts(d, k, o, len);
    if q != o + len {
      assert p in k ==> Next(d, p) <= q;
      assert o < q ==> Next(d, o) <= q;
    } else if p != o {
      assert p < o ==> Next(d, p) <= o;
    }
  }

  lemma SplitKeepsBoundaries(d: seq<Byte>, k: Layout, o: nat, len: nat, p: int)
    requires WellFormed(d, k) && o in k && k[o] == Free && 2 <= len < Size(d[o])
    requires p in k || p == o + len
    ensures Next(d, o) < ARENA_SIZE && ARENA_HEADER <= p < LAST
    ensures 1 <= Size(TakenBytes(d, o, len)[p]) <= MAX_BLKSZ
    ensures Boundary(TakenLayout(k, o, Size(d[o]), len), Next(TakenBytes(d, o, len), p))
  {
    SplitNexts(d, k, o, len);
    assert Boundary(k, Next(d, o));
    assert p in k ==> Boundary(k, Next(d, p));
  }

  lemma SplitKeepsChain(d: seq<Byte>, k: Layout, o: nat, len: nat)
    requires WellFormed(d, k) && o in k && k[o] == Free && 2 <= len < Size(d[o])
    ensures Next(d, o) < ARENA_SIZE
    ensures Chained(TakenBytes(d, o, len), TakenLayout(k, o, Size(d[o]), len))
  {
    assert Boundary(k, Next(d, o));
    var d', k' := TakenBytes(d, o, len), TakenLayout(k, o, Size(d[o]), len);
    forall p | p in k'
      ensures ARENA_HEADER <= p < LAST && 1 <= Size(d'[p]) <= MAX_BLKSZ && Boundary(k', Next(d', p))
    {
      SplitKeepsBoundaries(d, k, o, len, p);
    }
    forall p, q {:trigger Next(d', p), q in k'} | p in k' && q in k' && p < q ensures Next(d', p) <= q {
      SplitKeepsOrder(d, k, o, len, p, q);
    }
  }

  /* After a split a short block in circulation is still followed by a leaked remainder or
     by the end marker. */
  lemma SplitKeepsGuard(d: seq<Byte>, k: Layout, o: nat, len: nat, p: int)
    requires WellFormed(d, k) && o in k && k[o] == Free && 2 <= len < Size(d[o])
    requires p == o || (p in k && k[p] != Leaked && Size(d[p]) < MAX_BLKSZ)
    ensures Next(d, o) < ARENA_SIZE && 0 <= p < LAST
    ensures var n := Next(TakenBytes(d, o, len), p);
      var k' := TakenLayout(k, o, Size(d[o]), len);
      n == LAST || (n in k' && k'[n] == Leaked)
  {
    SplitNexts(d, k, o, len);
    assert p != o ==> Next(TakenBytes(d, o, len), p) == Next(d, p);
  }

  lemma SplitKeepsWellFormed(d: seq<Byte>, k: Layout, o: nat, len: nat)
    requires WellFormed(d, k) && o in k && k[o] == Free && 2 <= len < Size(d[o])
    ensures Next(d, o) < ARENA_SIZE
    ensures WellFormed(TakenBytes(d, o, len), TakenLayout(k, o, Size(d[o]), len))
  {
    SplitKeepsChain(d, k, o, len);
    var d', k' := TakenBytes(d, o, len), TakenLayout(k, o, Size(d[o]), len);
    forall p {:trigger Next(d', p)} | p in k' && k'[p] != Leaked && Size(d'[p]) < MAX_BLKSZ
      ensures Next(d', p) == LAST || (Next(d', p) in k' && k'[Next(d', p)] == Leaked)
    {
      SplitKeepsGuard(d, k, o, len, p);
    }
  }

  lemma TakeKeepsWellFormed(d: seq<Byte>, k: Layout, o: nat, len: nat)
    requires WellFormed(d, k) && o in k && k[o] == Free
    requires 2 <= len <= Size(d[o])
    ensures Next(d, o) < ARENA_SIZE
    ensures WellFormed(TakenBytes(d, o, len), TakenLayout(k, o, Size(d[o]), len))
    ensures forall p :: p in k ==> p in TakenLayout(k, o, Size(d[o]), len)
  {
    assert Boundary(k, Next(d, o));
    var d', k' := TakenBytes(d, o, len), TakenLayout(k, o, Size(d[o]), len);
    if Size(d[o]) == len {
      SameSizesSameChain(d, d', k, k');
    } else {
      SplitKeepsWellFormed(d, k, o, len);
    }
  }

  lemma ReleaseKeepsWellFormed(d: seq<Byte>, k: Layout, o: nat)
    requires WellFormed(d, k) && o in k && k[o] == Live
    ensures WellFormed(d[o := -d[o]], k[o := Free])
  {
    SameSizesSameChain(d, d[o := -d[o]], k, k[o := Free]);
  }

  /* Payload bytes are not headers, so the client may store anything there. */
  lemma PayloadWriteKeepsWellFormed(d: seq<Byte>, k: Layout, o: nat, i: nat, v: Byte)
    requires WellFormed(d, k) && o in k && 1 <= i < Size(d[o])
    ensures o + i < LAST && o + i !in k
    ensures WellFormed(d[o + i := v], k)
  {
    assert Boundary(k, Next(d, o));
    SameSizesSameChain(d, d[o + i := v], k, k);
  }

  // ----- init_chunk: free blocks of the maximal size, laid out left to right

  /* The bytes before `offset` are tiled by free blocks of size MAX_BLKSZ. */
  ghost predicate Filled(d: seq<Byte>, k: Layout, offset: nat) {
    && |d| == ARENA_SIZE && ARENA_HEADER <= offset < ARENA_SIZE
    && (ARENA_HEADER in k || (offset == ARENA_HEADER && k == map[]))
    && (forall o :: o in k ==> ARENA_HEADER <= o <= offset - MAX_BLKSZ)
    && (forall o :: o in k ==> k[o] == Free && d[o] == -MAX_BLKSZ)
    && (forall o {:trigger Next(d, o)} :: o in k ==> Next(d, o) == offset || Next(d, o) in k)
    && (forall o, p {:trigger Next(d, o), p in k} :: o in k && p in k && o < p ==> Next(d, o) <= p)
  }

  lemma FilledExtends(d: seq<Byte>, k: Layout, offset: nat)
    requires Filled(d, k, offset) && offset + MAX_BLKSZ < ARENA_SIZE
    ensures Filled(d[offset := -MAX_BLKSZ], k[offset := Free], offset + MAX_BLKSZ)
  {
    var d' := d[offset := -MAX_BLKSZ];
    assert forall o {:trigger Next(d', o)} :: o in k ==> Next(d', o) == Next(d, o);
  }

  lemma FilledCloses(d: seq<Byte>, k: Layout, offset: nat)
    requires Filled(d, k, offset) && 1 <= LAST - offset < MAX_BLKSZ && offset > ARENA_HEADER
    ensures WellFormed(d[offset := -(LAST - offset)][LAST := 0], k[offset := Free])
  {
    var d', k' := d[offset := -(LAST - offset)][LAST := 0], k[offset := Free];
    assert forall o {:trigger Next(d', o)} :: o in k ==> Next(d', o) == Next(d, o);
    assert Next(d', offset) == LAST;
    assert Chained(d', k');
  }
}
