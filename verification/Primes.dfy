/** The sieve as streams of numbers, and why its heads are the primes. */
module Primes {

  predicate IsPrime(n: int) {
    n >= 2 && forall d {:trigger n % d} :: 2 <= d < n ==> n % d != 0
  }

  /* The primes up to `m`, in increasing order. */
  function PrimesUpTo(m: int): (ps: seq<int>)
    decreases m
  {
    if m < 2 then [] else PrimesUpTo(m - 1) + if IsPrime(m) then [m] else []
  }

  /* The numbers from 2 to `m`. */
  function UpTo(m: int): (s: seq<int>)
    ensures forall x :: x in s <==> 2 <= x <= m
    decreases m
  {
    if m < 2 then [] else UpTo(m - 1) + [m]
  }

  /* What a filter lets through. */
  function Sift(s: seq<int>, p: int): (r: seq<int>)
    requires p != 0
    ensures forall x :: x in r <==> x in s && x % p != 0
    ensures |r| <= |s|
  {
    if s == [] then [] else
      var last := s[|s| - 1];
      Sift(s[..|s| - 1], p) + if last % p != 0 then [last] else []
  }

  ghost predicate Increasing(s: seq<int>) {
    forall i, j :: 0 <= i < j < |s| ==> s[i] < s[j]
  }

  lemma {:induction false} UpToIncreases(m: int)
    ensures Increasing(UpTo(m)) && (m >= 2 ==> UpTo(m)[0] == 2) && (m >= 1 ==> |UpTo(m)| == m - 1)
    decreases m
  {
    if m < 2 {
    } else {
      UpToIncreases(m - 1);
      var s := UpTo(m - 1);
      assert forall i :: 0 <= i < |s| ==> s[i] in s;
    }
  }

  lemma {:induction false} SiftIncreases(s: seq<int>, p: int)
    requires p != 0 && Increasing(s)
    ensures Increasing(Sift(s, p))
  {
    if s == [] {
    } else {
      var front := Sift(s[..|s| - 1], p);
      SiftIncreases(s[..|s| - 1], p);
      assert forall i :: 0 <= i < |front| ==> front[i] in s[..|s| - 1];
    }
  }

  lemma SiftAppend(s: seq<int>, x: int, p: int)
    requires p != 0
    ensures Sift(s + [x], p) == Sift(s, p) + if x % p != 0 then [x] else []
  {
  }

  lemma {:induction false} SiftPrefix(s: seq<int>, t: seq<int>, p: int)
    requires p != 0 && s <= t
    ensures Sift(s, p) <= Sift(t, p)
  {
    if s == t {
    } else {
      SiftPrefix(s, t[..|t| - 1], p);
    }
  }

  lemma {:induction false} SiftMultiple(x: int, s: seq<int>, p: int)
    requires p != 0 && x % p == 0
    ensures Sift([x] + s, p) == Sift(s, p)
  {
    if s == [] {
    } else {
      var front, last := s[..|s| - 1], s[|s| - 1];
      SiftMultiple(x, front, p);
      assert [x] + s == [x] + front + [last];
      SiftAppend([x] + front, last, p);
    }
  }

  /* The first number is dropped by the next filter anyway. */
  lemma SiftTail(s: seq<int>)
    requires s != [] && s[0] != 0
    ensures Sift(s[1..], s[0]) == Sift(s, s[0])
  {
    SiftMultiple(s[0], s[1..], s[0]);
    assert s == [s[0]] + s[1..];
  }

  /* Everything that ever flows through pipe `j`. */
  function Stream(m: int, j: nat): (s: seq<int>)
    ensures forall x :: x in s ==> 2 <= x <= m
  {
    if j == 0 then UpTo(m) else
      var s := Stream(m, j - 1);
      if s == [] then [] else
        assert s[0] in s && forall x :: x in s[1..] ==> x in s;
        Sift(s[1..], s[0])
  }

  /* The first numbers of the first `j` streams. */
  function Heads(m: int, j: nat): (ps: seq<int>) {
    if j == 0 then [] else
      Heads(m, j - 1) + if Stream(m, j - 1) == [] then [] else [Stream(m, j - 1)[0]]
  }

  ghost predicate IsHead(m: int, i: nat, p: int) {
    Stream(m, i) != [] && Stream(m, i)[0] == p
  }

  lemma {:induction false} HeadsFrom(m: int, ps: seq<int>, j: nat)
    requires j <= |ps| && forall i: nat {:trigger IsHead(m, i, ps[i])} :: i < j ==> IsHead(m, i, ps[i])
    ensures Heads(m, j) == ps[..j]
  {
    if j == 0 {
    } else {
      HeadsFrom(m, ps, j - 1);
      assert IsHead(m, j - 1, ps[j - 1]);
      assert ps[..j] == ps[..j - 1] + [ps[j - 1]];
    }
  }

  /* No member of `ps` divides `x`. */
  predicate Survives(x: int, ps: seq<int>)
    requires 0 !in ps
  {
    forall p :: p in ps ==> x % p != 0
  }

  lemma SurvivesOneMore(x: int, ps: seq<int>, p: int)
    requires 0 !in ps && p != 0
    ensures 0 !in ps + [p] && (Survives(x, ps + [p]) <==> Survives(x, ps) && x % p != 0)
  {
    assert p in ps + [p];
    assert forall q :: q in ps ==> q in ps + [p];
  }

  lemma {:induction false} StreamIncreases(m: int, j: nat)
    ensures Increasing(Stream(m, j)) && |Stream(m, j)| <= |UpTo(m)|
    ensures forall p :: p in Heads(m, j) ==> 2 <= p
  {
    if j == 0 {
      UpToIncreases(m);
    } else {
      StreamIncreases(m, j - 1);
      var s := Stream(m, j - 1);
      if s != [] {
        assert s[0] in s;
        SiftIncreases(s[1..], s[0]);
      }
    }
  }

  /* What one more filter does to the streams. */
  lemma StreamOneMore(m: int, j: nat, x: int)
    requires j > 0 && Stream(m, j - 1) != []
    ensures var p := Stream(m, j - 1)[0];
      && 2 <= p && Heads(m, j) == Heads(m, j - 1) + [p]
      && (x in Stream(m, j) <==> x in Stream(m, j - 1) && x % p != 0)
  {
    var s := Stream(m, j - 1);
    assert s[0] in s;
    SiftTail(s);
  }

  /* Stream `j` holds, in order, the numbers that none of the first `j` heads divides. */
  lemma {:induction false} StreamContents(m: int, j: nat, x: int)
    ensures Increasing(Stream(m, j)) && (forall p :: p in Heads(m, j) ==> 2 <= p)
    ensures x in Stream(m, j) <==> 2 <= x <= m && Survives(x, Heads(m, j))
  {
    StreamIncreases(m, j);
    if j == 0 {
    } else {
      StreamContents(m, j - 1, x);
      if Stream(m, j - 1) == [] {
        assert Heads(m, j) == Heads(m, j - 1);
      } else {
        StreamOneMore(m, j, x);
        SurvivesOneMore(x, Heads(m, j - 1), Stream(m, j - 1)[0]);
      }
    }
  }

  lemma DividesThrough(q: int, d: int, p: int)
    requires p >= 1 && d >= 1 && q % d == 0 && d % p == 0
    ensures q % p == 0
  {
    var a, b := q / d, d / p;
    assert q == (a * b) * p by {
      assert q == a * d && d == b * p;
      assert a * (b * p) == (a * b) * p;
    }
    MultipleHasNoRemainder(a * b, p);
  }

  lemma MultipleHasNoRemainder(k: int, p: int)
    requires p >= 1
    ensures (k * p) % p == 0
  {
    var q, r := (k * p) / p, (k * p) % p;
    assert (k - q) * p == r;
    assert k - q >= 1 ==> (k - q) * p >= p;
    assert k - q <= -1 ==> (k - q) * p <= -p;
  }

  /* In an increasing sequence nothing is below the first member. */
  lemma HeadIsLeast(s: seq<int>, x: int)
    requires Increasing(s) && x in s
    ensures s[0] <= x
  {
  }

  /* The head of a stream is prime: a divisor would have come through before it. */
  lemma HeadIsPrime(m: int, j: nat)
    requires Stream(m, j) != []
    ensures IsPrime(Stream(m, j)[0])
  {
    var s := Stream(m, j);
    var q := s[0];
    assert q in s;
    StreamContents(m, j, q);
    forall d {:trigger q % d} | 2 <= d < q ensures q % d != 0 {
      StreamContents(m, j, d);
      if d in s {
        HeadIsLeast(s, d);
      } else if q % d == 0 {
        var p :| p in Heads(m, j) && d % p == 0;
        DividesThrough(q, d, p);
      }
    }
  }

  /* A number that a smaller head divides is not prime. */
  lemma SiftedIsComposite(m: int, j: nat, r: int, b: int)
    requires 2 <= r <= m && r !in Stream(m, j) && b < r
    requires forall p :: p in Heads(m, j) ==> p <= b
    ensures !IsPrime(r)
  {
    StreamContents(m, j, r);
    var p :| p in Heads(m, j) && r % p == 0;
  }

  lemma {:induction false} NoPrimesBetween(a: int, b: int)
    requires a <= b && forall r :: a < r <= b ==> !IsPrime(r)
    ensures PrimesUpTo(b) == PrimesUpTo(a)
    decreases b - a
  {
    if a == b {
    } else {
      NoPrimesBetween(a, b - 1);
    }
  }

  lemma {:induction false} PrimesPrefix(a: int, b: int)
    requires a <= b
    ensures PrimesUpTo(a) <= PrimesUpTo(b)
    decreases b - a
  {
    if a == b {
    } else {
      PrimesPrefix(a, b - 1);
    }
  }

  /* The list of primes has each number from 2 to `m` that no smaller one but 1 divides,
     once, in increasing order. */
  lemma {:induction false} PrimesUpToIs(m: int, x: int)
    ensures x in PrimesUpTo(m) <==> 2 <= x <= m && forall d {:trigger x % d} :: 2 <= d < x ==> x % d != 0
    ensures forall i, j :: 0 <= i < j < |PrimesUpTo(m)| ==> PrimesUpTo(m)[i] < PrimesUpTo(m)[j]
    decreases m
  {
    if m < 2 {
    } else {
      PrimesUpToIs(m - 1, x);
      PrimesInRange(m - 1);
      var ps := PrimesUpTo(m - 1);
      assert forall i :: 0 <= i < |ps| ==> ps[i] in ps;
    }
  }

  lemma {:induction false} PrimesInRange(m: int)
    ensures forall p :: p in PrimesUpTo(m) ==> 2 <= p <= m
    ensures m >= 0 ==> |PrimesUpTo(m)| <= m
    decreases m
  {
    if m < 2 {
    } else {
      PrimesInRange(m - 1);
    }
  }

  /* The largest number known to have been sifted when stream `j` begins. */
  function Frontier(m: int, j: nat): (b: int) {
    if Stream(m, j) == [] then m else Stream(m, j)[0] - 1
  }

  lemma FrontierMoves(m: int, j: nat)
    requires j > 0 && Stream(m, j - 1) != []
    ensures Stream(m, j - 1)[0] <= Frontier(m, j) <= m
  {
    var s := Stream(m, j - 1);
    StreamIncreases(m, j - 1);
    assert s[0] in s;
    if Stream(m, j) != [] {
      var x := Stream(m, j)[0];
      assert x in Stream(m, j);
      assert x in s[1..];
    }
  }

  /* Between a head and the frontier of the next stream there is no prime. */
  lemma NoPrimesSkipped(m: int, j: nat, q: int, r: int)
    requires q < r <= Frontier(m, j) <= m && q >= 1
    requires forall p :: p in Heads(m, j) ==> p <= q
    ensures !IsPrime(r)
  {
    StreamIncreases(m, j);
    assert r !in Stream(m, j) by { if r in Stream(m, j) { HeadIsLeast(Stream(m, j), r); } }
    SiftedIsComposite(m, j, r, q);
  }

  /* The head of one stream is the next prime after the heads before it. */
  lemma OneMorePrime(m: int, j: nat)
    requires Stream(m, j) != [] && Heads(m, j) == PrimesUpTo(Frontier(m, j))
    ensures Heads(m, j + 1) == PrimesUpTo(Frontier(m, j + 1))
  {
    var q, f := Stream(m, j)[0], Frontier(m, j + 1);
    HeadIsPrime(m, j);
    PrimesInRange(q - 1);
    assert Heads(m, j + 1) == PrimesUpTo(q);
    FrontierMoves(m, j + 1);
    forall r | q < r <= f ensures !IsPrime(r) {
      NoPrimesSkipped(m, j + 1, q, r);
    }
    NoPrimesBetween(q, f);
  }

  /* The heads are the primes: all of those below the head of the next stream, and all up
     to `m` when the next stream is empty. */
  lemma {:induction false} HeadsArePrimes(m: int, j: nat)
    ensures Heads(m, j) == PrimesUpTo(Frontier(m, j))
  {
    if j == 0 {
      UpToIncreases(m);
    } else {
      HeadsArePrimes(m, j - 1);
      if Stream(m, j - 1) != [] {
        OneMorePrime(m, j - 1);
      }
    }
  }
}
