/** The list of arenas both allocators keep: which arena an address lies in. */
module ArenaList {

  const NULL := 0
  const ARENA_SIZE := 65536

  /* The comparison find_ptr_arena makes for the arena at address `base`. */
  predicate InArena(base: int, p: int) {
    base < p < base + ARENA_SIZE
  }

  /* Arenas at these addresses share no byte. */
  predicate Apart(a: int, b: int) {
    a + ARENA_SIZE <= b || b + ARENA_SIZE <= a
  }

  /* The addresses of the arenas, in the order of the list. */
  function Bases<A>(arenas: seq<A>, base: A -> int): (bs: seq<int>)
    ensures |bs| == |arenas| && forall i :: 0 <= i < |bs| ==> bs[i] == base(arenas[i])
  {
    seq(|arenas|, i requires 0 <= i < |arenas| => base(arenas[i]))
  }

  /* find_ptr_arena, as an index into the list; |bases| is its NULL. */
  method FindPtrArena(bases: seq<int>, p: int) returns (i: nat)
    ensures i <= |bases|
    ensures i < |bases| ==> InArena(bases[i], p) && bases[i] < p < bases[i] + 65536
    ensures forall j :: 0 <= j < i ==> !InArena(bases[j], p) && !(bases[j] < p < bases[j] + 65536)
  {
    i := 0;
    while i < |bases| && !InArena(bases[i], p)
      invariant i <= |bases|
      invariant forall j :: 0 <= j < i ==> !InArena(bases[j], p)
    {
      i := i + 1;
    }
  }
}
