/** The random number generator of the disk test setups: the Park-Miller "minimal
    standard" Lehmer generator, multiplier 16807 and modulus 2^31 - 1, whose state is
    seeded from the MPI rank so that every architecture draws the same sequence. The
    product 16807 * state is below 2^53, so the source's fmod on doubles is exact and
    is integer arithmetic here. */
module ParkMiller {

  const A: int := 16807
  const M: int := 2147483647
  /** INT_MAX of the 32-bit `int` that holds the state. */
  const IntMax: int := 2147483647

  /** The first state of the generator on MPI rank `prank`. */
  function Seed(prank: int): int
  {
    13763 + 2417 * prank
  }

  /** fmod on integral doubles: the remainder of a / b with the quotient truncated toward
      zero, so it has the sign of `a` (Dafny's % is Euclidean and never negative). */
  function FMod(a: int, b: int): (r: int)
    requires b > 0
    ensures a >= 0 ==> 0 <= r < b
    ensures a < 0 ==> -b < r <= 0
    ensures a >= 0 ==> r == a % b
  {
    if a >= 0 then a % b else -((-a) % b)
  }

  /** fmod is odd in its first argument: negating the dividend negates the remainder. */
  lemma FModOdd(a: int, b: int)
    requires b > 0
    ensures FMod(-a, b) == -FMod(a, b)
  {
  }

  /** The state after one draw. */
  function Next(s: int): int
  {
    FMod(A * s, M)
  }

  /** The state after `n` draws from state `s`. */
  function Iterate(s: int, n: nat): int
  {
    if n == 0 then s else Next(Iterate(s, n - 1))
  }

  /** The number a draw returns for the new state `q`: q / m. */
  function Value(q: int): real
  {
    q as real / M as real
  }

  /** Every state after a draw is in [0, m). */
  lemma {:induction false} IterateInRange(s: int, n: nat)
    requires s >= 0 && n >= 1
    ensures 0 <= Iterate(s, n) < M
  {
    if n > 1 {
      IterateInRange(s, n - 1);
    }
  }

  /** A state in [0, m) gives a number in [0, 1). */
  lemma ValueInUnit(q: int)
    requires 0 <= q < M
    ensures 0.0 <= Value(q) < 1.0
  {
  }

  /** Drawing m numbers and then n more is drawing m + n numbers: the sequence depends
      only on the seed and on how many numbers were drawn. */
  lemma {:induction false} IterateAdd(s: int, m: nat, n: nat)
    ensures Iterate(Iterate(s, m), n) == Iterate(s, m + n)
  {
    if n > 0 {
      IterateAdd(s, m, n - 1);
    }
  }

  /** Every rank whose seed fits the 32-bit state starts in (0, m): the seed is a valid,
      non-zero state of the generator. */
  lemma SeedInRange(prank: int)
    requires 0 <= prank && Seed(prank) <= IntMax
    ensures 0 < Seed(prank) < M
  {
  }

  /** The static state `in0` of randm, initialised at the first call. */
  class Generator {
    var in0: int
    /** The seed and the number of draws since. */
    ghost const seed: int
    ghost var draws: nat

    ghost predicate Valid()
      reads this
    {
      in0 == Iterate(seed, draws) && in0 >= 0
    }

    /** The state of rank `prank`, whose seed must not overflow the 32-bit state. */
    constructor (prank: int)
      requires 0 <= prank && Seed(prank) <= IntMax
      ensures Valid() && seed == Seed(prank) && draws == 0 && in0 == Seed(prank)
    {
      seed := Seed(prank);
      draws := 0;
      in0 := Seed(prank);
    }

    /** randm: advances the state by one Lehmer step and returns the new state divided
        by m, a number in [0, 1). */
    method Randm() returns (r: real)
      requires Valid()
      modifies this
      ensures Valid() && draws == old(draws) + 1
      ensures in0 == Next(old(in0)) && 0 <= in0 < M
      ensures r == Value(in0) && 0.0 <= r < 1.0
    {
      var q := FMod(A * in0, M);
      in0 := q;
      draws := draws + 1;
      r := q as real / M as real;
    }
  }
}
