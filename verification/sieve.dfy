/** The sieve of the benchmark, in 32-bit arithmetic: every `int32` expression below is
  * checked not to overflow.
  */
module Sieve {

  newtype int32 = x: int | -0x8000_0000 <= x < 0x8000_0000

  const INT_MAX: int := 0x7fff_ffff

  // ---------------------------------------------------------------------
  // Primes
  // ---------------------------------------------------------------------

  function Times(k: int, d: int): int {
    k * d
  }

  ghost predicate Divides(d: int, n: int) {
    exists k :: Times(k, d) == n
  }

  ghost predicate IsPrime(n: int) {
    n >= 2 && forall d :: 2 <= d < n ==> !Divides(d, n)
  }

  /** No divisor below `bound` is at most the root. */
  ghost predicate Free(n: int, bound: int) {
    n >= 2 && forall d :: 2 <= d < bound && Square(d) <= n ==> !Divides(d, n)
  }

  function Square(d: int): int {
    d * d
  }

  ghost function PrimesBelow(n: nat): nat {
    if n == 0 then 0 else PrimesBelow(n - 1) + if IsPrime(n - 1) then 1 else 0
  }

  lemma DividesThrough(d: int, p: int, n: int)
    requires Divides(d, p) && Divides(p, n)
    ensures Divides(d, n)
  {
    var a :| Times(a, d) == p;
    var b :| Times(b, p) == n;
    assert b * (a * d) == (b * a) * d;
    assert Times(b * a, d) == n;
  }

  lemma SquareGrows(a: int, b: int)
    requires 0 <= a <= b
    ensures Square(a) <= Square(b)
  {
    assert a * a <= a * b;
    assert a * b <= b * b;
  }

  lemma SquareExceeds(d: int)
    requires 2 <= d
    ensures d < Square(d)
  {
    assert d * d >= 2 * d;
  }

  lemma RootBelow(a: int, b: int)
    requires 0 <= a && 0 <= b && Square(a) < Square(b)
    ensures a < b
  {
    if b <= a { SquareGrows(b, a); }
  }

  /** Of two numbers with a product, the smaller one is at most its root. */
  lemma SmallDivisor(n: int, d: int) returns (small: int)
    requires 2 <= d < n && Divides(d, n)
    ensures 2 <= small && Square(small) <= n && Divides(small, n)
  {
    var k :| Times(k, d) == n;
    Cofactor(k, d, n);
    assert Times(d, k) == n;
    if d <= k {
      small := d;
      assert d * d <= k * d;
    } else {
      small := k;
      assert k * k <= k * d;
    }
  }

  lemma Cofactor(k: int, d: int, n: int)
    requires Times(k, d) == n && 2 <= d < n
    ensures 2 <= k
  {
    assert k <= 1 ==> k * d <= d;
  }

  /** Trying the divisors up to the root is enough. */
  lemma FreeIsPrime(n: int, bound: int)
    requires n >= 2 && bound >= 2 && Square(bound) > n
    ensures Free(n, bound) <==> IsPrime(n)
  {
    if !IsPrime(n) {
      var d :| 2 <= d < n && Divides(d, n);
      var small := SmallDivisor(n, d);
      RootBelow(small, bound);
    }
    if !Free(n, bound) {
      var d :| 2 <= d < bound && Square(d) <= n && Divides(d, n);
      SquareExceeds(d);
    }
  }

  /** Marking from `p * p` on, and only for primes, leaves nothing out. */
  lemma FreeNext(n: int, p: int, prime: bool)
    requires n >= 2 && p >= 2 && (prime <==> Free(p, p))
    ensures Free(n, p + 1) <==> Free(n, p) && !(prime && Divides(p, n) && Square(p) <= n)
  {
    if !prime && Divides(p, n) && Square(p) <= n {
      var d :| 2 <= d < p && Square(d) <= p && Divides(d, p);
      DividesThrough(d, p, n);
      SquareGrows(d, p);
    }
  }

  // ---------------------------------------------------------------------
  // The sieve
  // ---------------------------------------------------------------------

  /** The largest limit is one less. */
  const TOO_FAR: int := 46340 * 46340

  /** After the divisors below `p`. */
  ghost predicate Sifted(s: seq<bool>, limit: int, p: int) {
    0 <= limit < |s| && forall n :: 0 <= n <= limit ==> (s[n] <==> Free(n, p))
  }

  /** Struck out by the loop over the multiples of `p`, up to one of them. */
  ghost predicate Struck(p: int, n: int, limit: int, upTo: int) {
    Square(p) <= n < upTo && n <= limit && Divides(p, n)
  }

  lemma StruckNext(p: int, k: int, n: int, limit: int)
    requires 0 < p <= k && Times(k, p) <= limit
    ensures Struck(p, n, limit, Times(k, p) + p) <==> Struck(p, n, limit, Times(k, p)) || n == Times(k, p)
  {
    if Times(k, p) < n < Times(k, p) + p { BetweenMultiples(p, k, n); }
    assert p * p <= k * p;
  }

  lemma BetweenMultiples(p: int, k: int, n: int)
    requires p > 0 && Times(k, p) < n < Times(k, p) + p
    ensures !Divides(p, n)
  {
    if m :| Times(m, p) == n { NoMultipleBetween(p, k, m); }
  }

  lemma NoMultipleBetween(p: int, k: int, m: int)
    requires p > 0
    ensures m <= k ==> Times(m, p) <= Times(k, p)
    ensures m >= k + 1 ==> Times(m, p) >= Times(k, p) + p
  {
    if m <= k { assert m * p <= k * p; }
    if m >= k + 1 {
      assert m * p >= (k + 1) * p;
      assert (k + 1) * p == k * p + p;
    }
  }

  method Mark(isPrime: array<bool>, limit: int32, p: int32)
    requires 1 <= limit as int < isPrime.Length && limit as int < TOO_FAR
    requires 2 <= p <= limit && Square(p as int) <= limit as int
    requires Sifted(isPrime[..], limit as int, p as int) && isPrime[p]
    modifies isPrime
    ensures Sifted(isPrime[..], limit as int, p as int + 1)
    ensures isPrime[limit as int + 1..] == old(isPrime[limit as int + 1..])
  {
    ghost var before := isPrime[..];
    ghost var q, far := p as int, limit as int;
    ghost var k := q;
    RootFits(q, far);
    var multiple := p * p;
    while multiple <= limit
      invariant multiple as int == Times(k, q) && k >= q && multiple as int <= far + q
      invariant forall n :: 0 <= n < isPrime.Length ==> (isPrime[n] <==> before[n] && !Struck(q, n, far, multiple as int))
      decreases far - multiple as int
    {
      ghost var at, next := multiple as int, multiple as int + q;
      forall n | 0 <= n < isPrime.Length
        ensures Struck(q, n, far, next) <==> Struck(q, n, far, at) || n == at
      {
        StruckNext(q, k, n, far);
      }
      assert Times(k + 1, q) == Times(k, q) + q;
      isPrime[multiple] := false;
      multiple := multiple + p;
      k := k + 1;
    }
    assert before[q];
    forall n | 0 <= n <= far ensures isPrime[n] <==> Free(n, q + 1) {
      assert before[n] <==> Free(n, q);
      if n >= 2 { FreeNext(n, q, true); }
    }
    assert forall n :: far < n < isPrime.Length ==> isPrime[n] == before[n];
  }

  lemma RootFits(p: int, limit: int)
    requires 2 <= p && Square(p) <= limit < TOO_FAR
    ensures p < 46340 && Square(p + 1) <= TOO_FAR && p <= Square(p) && limit + p <= INT_MAX
  {
    RootBelow(p, 46340);
    SquareGrows(p + 1, 46340);
    SquareExceeds(p);
  }

  /** For every limit below the square of 46340, the buffer ends with the primes marked,
    * and their number is returned.
    */
  method SieveCount(isPrime: array<bool>, limit: int32) returns (count: int32)
    requires 1 <= limit as int < isPrime.Length && limit as int < TOO_FAR
    modifies isPrime
    ensures forall n :: 0 <= n <= limit as int ==> (isPrime[n] <==> IsPrime(n))
    ensures count as int == PrimesBelow(limit as int + 1)
    ensures isPrime[limit as int + 1..] == old(isPrime[limit as int + 1..])
  {
    var i: int32 := 0;
    while i <= limit
      invariant 0 <= i as int <= limit as int + 1
      invariant forall n :: 0 <= n < i as int ==> isPrime[n]
      invariant isPrime[limit as int + 1..] == old(isPrime[limit as int + 1..])
    {
      isPrime[i] := true;
      i := i + 1;
    }
    isPrime[0] := false;
    isPrime[1] := false;
    var p: int32 := 2;
    while p * p <= limit
      invariant 2 <= p as int <= 46340 && Square(p as int) <= TOO_FAR
      invariant Sifted(isPrime[..], limit as int, p as int)
      invariant isPrime[limit as int + 1..] == old(isPrime[limit as int + 1..])
      decreases 46340 - p as int
    {
      RootFits(p as int, limit as int);
      assert isPrime[..][p as int] == isPrime[p];
      if isPrime[p] {
        Mark(isPrime, limit, p);
      } else {
        forall n | 0 <= n <= limit as int ensures isPrime[..][n] <==> Free(n, p as int + 1) {
          if n >= 2 { FreeNext(n, p as int, false); }
        }
      }
      p := p + 1;
    }
    forall n | 0 <= n <= limit as int ensures isPrime[n] <==> IsPrime(n) {
      assert isPrime[n] == isPrime[..][n];
      if n >= 2 { FreeIsPrime(n, p as int); }
    }
    count := 0;
    var n: int32 := 0;
    while n <= limit
      invariant 0 <= n as int <= limit as int + 1
      invariant count as int == PrimesBelow(n as int) && 0 <= count <= n
    {
      if isPrime[n] { count := count + 1; }
      n := n + 1;
    }
  }

  // ---------------------------------------------------------------------
  // How far it goes
  // ---------------------------------------------------------------------

  /** The loop tries the square of each number one past a root of the limit. */
  ghost predicate Tries(limit: int, p: int) {
    p == 2 || (p > 2 && Square(p - 1) <= limit)
  }

  /** A square the loop tries does not fit an `int` exactly from 46340 squared on. */
  lemma OverflowsIff(limit: int)
    requires 1 <= limit <= INT_MAX
    ensures (exists p :: Tries(limit, p) && Square(p) > INT_MAX) <==> limit >= TOO_FAR
  {
    if limit >= TOO_FAR {
      assert Tries(limit, 46341) && Square(46341) > INT_MAX;
    }
    if p :| Tries(limit, p) && Square(p) > INT_MAX {
      RootBelow(46340, p);
      SquareGrows(46340, p - 1);
    }
  }
}
