/**
Bounded random integers by rejection, in 32-bit two's-complement arithmetic.  The stream of
31-bit draws is a parameter; the theorems count, for every bound, which draws give which result.
*/
module JavaRandom {
  import opened Wrappers
  import opened DivMod
  import opened Bits
  import opened MachineIntegers

  const RANGE: nat := 0x8000_0000  // draws are 0 .. 2^31 - 1

  predicate IsDraw(u: int) {
    0 <= u < RANGE
  }

  /** The bound test of the loop: the start of u's block plus bound - 1 must not wrap around. */
  predicate Accepted(u: int, bound: int)
    requires IsDraw(u) && bound > 0
  {
    Wrap32(u - u % bound + (bound - 1)) >= 0
  }

  predicate Scaled(bound: int)
    requires bound > 0
  {
    And(bound, bound - 1) == 0
  }

  /** The result of a draw, if the draw is not rejected. */
  function Result(u: int, bound: int): Option<int>
    requires IsDraw(u) && bound > 0
  {
    if Scaled(bound) then Some(bound * u / RANGE)
    else if Accepted(u, bound) then Some(u % bound)
    else None
  }

  /** A supply of draws and how many of them are used up. */
  class Source {
    const draws: seq<int>
    var used: nat

    ghost predicate Valid()
      reads this
    {
      used <= |draws| && forall i | 0 <= i < |draws| :: IsDraw(draws[i])
    }

    constructor (draws: seq<int>)
      requires forall i | 0 <= i < |draws| :: IsDraw(draws[i])
      ensures Valid() && this.draws == draws && used == 0
    {
      this.draws := draws;
      used := 0;
    }

    /** None when the supply has run out before a draw was accepted. */
    method NextIntWithBounds(bound: Int32) returns (r: Option<int>)
      requires Valid()
      modifies this
      ensures Valid() && used >= old(used)
      ensures bound <= 0 ==> r == Some(0) && used == old(used)
      ensures bound > 0 && r.Some? ==> used > old(used) && r == Result(draws[used - 1], bound)
      ensures bound > 0 ==> forall i | old(used) <= i < (if r.Some? then used - 1 else |draws|) ::
                Result(draws[i], bound).None?
      ensures bound > 0 && r.None? ==> used == |draws|
      ensures bound > 0 && r.Some? ==> Places(draws[used - 1], bound, r.value)
      ensures bound > 0 ==> forall i | old(used) <= i < (if r.Some? then used - 1 else |draws|) ::
                !IsPow2(bound) && draws[i] >= bound * (RANGE / bound)
    {
      if bound <= 0 {
        return Some(0);
      }
      if used == |draws| {
        return None;
      }
      var u := draws[used];
      used := used + 1;
      var m := bound - 1;
      if And(bound, m) == 0 {
        ResultPlaces(u, bound);
        return Some(bound * u / RANGE);
      }
      var s := u % bound;
      while Wrap32(u - s + m) < 0
        invariant Valid() && old(used) < used && u == draws[used - 1] && s == u % bound
        invariant forall i | old(used) <= i < used - 1 :: Result(draws[i], bound).None?
        invariant forall i | old(used) <= i < used - 1 :: !IsPow2(bound) && draws[i] >= bound * (RANGE / bound)
        decreases |draws| - used
      {
        ResultPlaces(u, bound);
        if used == |draws| {
          return None;
        }
        u := draws[used];
        used := used + 1;
        s := u % bound;
      }
      ResultPlaces(u, bound);
      return Some(s);
    }
  }

  /**
  The place of the draw u: for a power of two, u lies in the r-th of bound equal parts of the
  range; otherwise it lies r places into one of the complete blocks of bound draws.
  */
  ghost predicate Places(u: int, bound: int, r: int)
    requires bound > 0
  {
    && 0 <= r < bound
    && if IsPow2(bound) then r * (RANGE / bound) <= u < (r + 1) * (RANGE / bound)
       else u < bound * (RANGE / bound) && exists q: nat :: u == Block(q, bound) + r
  }

  function Block(q: nat, bound: int): int {
    q * bound
  }

  /** A draw is rejected exactly when it lies past the complete blocks, and its result is its place. */
  lemma ResultPlaces(u: int, bound: Int32)
    requires IsDraw(u) && bound > 0
    ensures Result(u, bound).None? <==> !IsPow2(bound) && u >= bound * (RANGE / bound)
    ensures Result(u, bound).Some? ==> Places(u, bound, Result(u, bound).value)
  {
    AndPredecessor(bound);
    if Scaled(bound) {
      ScaledPlaces(u, bound);
    } else {
      AcceptedIff(u, bound);
      DivModEquation(u, bound);
      BlockQuotient(u, bound);
      var q: nat := u / bound;
      assert u == Block(q, bound) + u % bound;
    }
  }

  lemma BlockQuotient(u: int, bound: int)
    requires u >= 0 && bound > 0
    ensures u / bound >= 0
  {}

  lemma ScaledPlaces(u: int, bound: Int32)
    requires IsDraw(u) && bound > 0 && IsPow2(bound)
    ensures var r := bound * u / RANGE;
            0 <= r < bound && r * (RANGE / bound) <= u < (r + 1) * (RANGE / bound)
  {
    var k: nat :| bound == Pow2(k);
    PowerDivides(k);
    var n := RANGE / bound;
    ScaledBlock(bound, n, u);
    BlockIndex(u, n, u / n);
    ScaledInRange(u, bound);
  }

  lemma ScaledInRange(u: int, bound: int)
    requires IsDraw(u) && bound > 0
    ensures 0 <= bound * u / RANGE < bound
  {
    MulMonotone(0, bound, u);
    MulMonotone(u + 1, RANGE, bound);
    assert (u + 1) * bound == bound * u + bound;
  }

  // ---------------------------------------------------------------------------------------
  // Which draws are accepted
  // ---------------------------------------------------------------------------------------

  lemma WrapsAround(x: int)
    requires 0 <= x < 0x1_0000_0000
    ensures Wrap32(x) >= 0 <==> x < RANGE
  {}

  /** The block of u lies within the range exactly when u lies in a complete block. */
  lemma BlockFits(u: nat, bound: int, range: nat)
    requires bound > 0
    ensures u - u % bound + bound <= range <==> u < bound * (range / bound)
  {
    var q, r, n := u / bound, u % bound, range / bound;
    DivModEquation(u, bound);
    DivModEquation(range, bound);
    assert (q + 1) * bound == q * bound + bound;
    if q + 1 <= n {
      MulMonotone(q + 1, n, bound);
    } else {
      MulMonotone(n, q, bound);
      assert (n + 1) * bound == n * bound + bound;
    }
  }

  lemma BlockStart(u: nat, bound: int)
    requires bound > 0
    ensures 0 <= u - u % bound <= u
  {
    DivModEquation(u, bound);
    MulNonNegative(u / bound, bound);
  }

  /** Exactly the draws of the complete blocks of bound are accepted. */
  lemma AcceptedIff(u: int, bound: Int32)
    requires IsDraw(u) && bound > 0
    ensures Accepted(u, bound) <==> u < bound * (RANGE / bound)
  {
    var start := u - u % bound;
    BlockStart(u, bound);
    WrapsAround(start + (bound - 1));
    BlockFits(u, bound, RANGE);
  }

  function Interval(lo: int, hi: int): (r: set<int>)
    requires lo <= hi
    ensures |r| == hi - lo
    ensures forall u :: u in r <==> lo <= u < hi
    decreases hi - lo
  {
    if lo == hi then {} else Interval(lo, hi - 1) + {hi - 1}
  }

  ghost function AcceptedDraws(bound: Int32): set<int>
    requires bound > 0
  {
    set u | 0 <= u < RANGE && Result(u, bound).Some?
  }

  lemma CompleteBlocks(bound: int, range: int)
    requires 0 < bound <= range
    ensures range / 2 < bound * (range / bound) <= range
  {
    var n := range / bound;
    DivModEquation(range, bound);
    if n >= 2 {
      MulMonotone(2, n, bound);
    } else if n <= 0 {
      MulMonotone(n, 0, bound);
    }
  }

  lemma AcceptedDrawsAre(bound: Int32, limit: int)
    requires bound > 0
    requires limit == if Scaled(bound) then RANGE else bound * (RANGE / bound)
    requires 0 <= limit <= RANGE
    ensures AcceptedDraws(bound) == Interval(0, limit)
  {
    forall u | 0 <= u < RANGE ensures Result(u, bound).Some? <==> u < limit {
      AcceptedIff(u, bound);
    }
  }

  /** More than half of all draws are accepted, so the loop is expected to end within two. */
  lemma MostAccepted(bound: Int32)
    requires bound > 0
    ensures 2 * |AcceptedDraws(bound)| > RANGE
  {
    CompleteBlocks(bound, RANGE);
    AcceptedDrawsAre(bound, if Scaled(bound) then RANGE else bound * (RANGE / bound));
  }

  // ---------------------------------------------------------------------------------------
  // Uniformity
  // ---------------------------------------------------------------------------------------

  /** The draws that give the result r. */
  ghost function Preimages(bound: Int32, r: int): set<int>
    requires bound > 0
  {
    set u | 0 <= u < RANGE && Result(u, bound) == Some(r)
  }

  ghost function Residues(bound: int, blocks: nat, r: int): set<int>
    requires bound > 0
  {
    set u | 0 <= u < bound * blocks && u % bound == r
  }

  lemma {:induction false} ResiduesSize(bound: int, blocks: nat, r: int)
    requires 0 <= r < bound
    ensures |Residues(bound, blocks, r)| == blocks
  {
    if blocks == 0 {
      assert Residues(bound, 0, r) == {};
    } else {
      ResiduesSize(bound, blocks - 1, r);
      LastBlock(bound, blocks, r);
      assert (blocks - 1) * bound + r !in Residues(bound, blocks - 1, r);
    }
  }

  lemma LastBlock(bound: int, blocks: nat, r: int)
    requires 0 <= r < bound && blocks > 0
    ensures Residues(bound, blocks, r) == Residues(bound, blocks - 1, r) + {(blocks - 1) * bound + r}
    ensures bound * (blocks - 1) <= (blocks - 1) * bound + r
  {
    var first := (blocks - 1) * bound;
    MulNonNegative(blocks - 1, bound);
    assert bound * blocks == first + bound && bound * (blocks - 1) == first;
    ModUnique(first + r, bound, blocks - 1, r);
    forall u | first <= u < first + bound && u % bound == r ensures u == first + r {
      ModUnique(u, bound, blocks - 1, u - first);
    }
  }

  /** Every result is equally likely: each has exactly floor(2^31 / bound) draws. */
  lemma Uniform(bound: Int32, r: int)
    requires 0 <= r < bound
    ensures |Preimages(bound, r)| == RANGE / bound
  {
    if Scaled(bound) {
      UniformScaled(bound, r);
    } else {
      var n := RANGE / bound;
      DivModEquation(RANGE, bound);
      forall u | 0 <= u < RANGE ensures Accepted(u, bound) <==> u < bound * n {
        AcceptedIff(u, bound);
      }
      assert Preimages(bound, r) == Residues(bound, n, r);
      ResiduesSize(bound, n, r);
    }
  }

  /** On powers of two the high bits of the draw are the result. */
  lemma UniformScaled(bound: Int32, r: int)
    requires 0 <= r < bound && Scaled(bound)
    ensures |Preimages(bound, r)| == RANGE / bound
  {
    AndPredecessor(bound);
    var k: nat :| bound == Pow2(k);
    PowerDivides(k);
    var n := RANGE / bound;
    var lo, hi := r * n, (r + 1) * n;
    assert hi == lo + n;
    forall u | 0 <= u < RANGE ensures Result(u, bound) == Some(r) <==> lo <= u < hi {
      ScaledBlock(bound, n, u);
      BlockIndex(u, n, r);
    }
    MulNonNegative(r, n);
    MulMonotone(r + 1, bound, n);
    assert Preimages(bound, r) == Interval(lo, hi);
  }

  lemma PowerDivides(k: nat)
    requires Pow2(k) < RANGE
    ensures Pow2(k) * (RANGE / Pow2(k)) == RANGE && RANGE / Pow2(k) > 0
  {
    Pow2Is31();
    if k > 31 {
      Pow2Monotone(31, k);
    }
    Pow2Adds(k, 31 - k);
    Quotient(RANGE, Pow2(k), Pow2(31 - k));
  }

  lemma Quotient(a: nat, d: nat, q: nat)
    requires d > 0 && a == d * q
    ensures a / d == q
  {
    ModUnique(a, d, q, 0);
  }

  lemma Pow2Is31()
    ensures Pow2(31) == RANGE
  {
    assert Pow2(8) == 256;
    Pow2Adds(8, 8);
    Pow2Adds(16, 8);
    assert Pow2(7) == 128;
    Pow2Adds(24, 7);
  }

  lemma ScaledBlock(bound: int, n: int, u: int)
    requires bound > 0 && n > 0 && bound * n == RANGE && u >= 0
    ensures bound * u / RANGE == u / n
  {
    var q, s := u / n, u % n;
    DivModEquation(u, n);
    calc {
      bound * u;
      bound * (q * n + s);
      bound * (q * n) + bound * s;
      { assert bound * (q * n) == q * (bound * n); }
      q * RANGE + bound * s;
    }
    MulNonNegative(bound, s);
    MulMonotone(s, n - 1, bound);
    assert (n - 1) * bound == RANGE - bound;
    ModUnique(bound * u, RANGE, q, bound * s);
  }

  lemma BlockIndex(u: int, n: int, r: int)
    requires n > 0
    ensures u / n == r <==> r * n <= u < (r + 1) * n
  {
    DivModEquation(u, n);
    assert (r + 1) * n == r * n + n;
    if r * n <= u < (r + 1) * n {
      ModUnique(u, n, r, u - r * n);
    }
  }
}
