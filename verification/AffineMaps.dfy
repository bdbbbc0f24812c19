/**
Repeated affine maps x -> (a * x + c) mod d.  Any number of repetitions is again one affine
map, and for d a power of two, c odd and a = 1 mod 4 the repetitions run through all residues.
*/
module AffineMaps {
  import opened DivMod
  import opened Bits

  lemma ModPlus(a: int, k: int, d: int)
    requires d > 0
    ensures (a + k * d) % d == a % d
  {
    DivModEquation(a, d);
    assert (a / d + k) * d == (a / d) * d + k * d;
    ModUnique(a + k * d, d, a / d + k, a % d);
  }

  function Affine(a: int, c: int, d: int, x: int): (r: nat)
    requires d > 0
    ensures r < d
  {
    (a * x + c) % d
  }

  /** Reducing the argument first changes nothing. */
  lemma AffineReduces(a: int, c: int, d: int, x: int)
    requires d > 0
    ensures Affine(a, c, d, x % d) == Affine(a, c, d, x)
  {
    DivModEquation(x, d);
    var q, r := x / d, x % d;
    assert a * x + c == (a * r + c) + (a * q) * d by {
      assert a * (q * d + r) == (a * q) * d + a * r;
    }
    ModPlus(a * r + c, a * q, d);
  }

  lemma AffineCongruent(a: int, c: int, d: int, x: int, y: int)
    requires d > 0 && x % d == y % d
    ensures Affine(a, c, d, x) == Affine(a, c, d, y)
  {
    AffineReduces(a, c, d, x);
    AffineReduces(a, c, d, y);
  }

  lemma AffineCompose(a: int, c: int, b: int, e: int, d: int, x: int)
    requires d > 0
    ensures Affine(a, c, d, Affine(b, e, d, x)) == Affine(a * b, a * e + c, d, x)
  {
    var y := b * x + e;
    AffineReduces(a, c, d, y);
    Distribute(a, b, x, e, c);
    SameValue(a, c, y, a * b, a * e + c, x, d);
  }

  lemma SameValue(a: int, c: int, x: int, a': int, c': int, x': int, d: int)
    requires d > 0 && a * x + c == a' * x' + c'
    ensures Affine(a, c, d, x) == Affine(a', c', d, x')
  {}

  lemma Distribute(a: int, b: int, x: int, e: int, c: int)
    ensures a * (b * x + e) + c == (a * b) * x + (a * e + c)
  {
    assert a * (b * x + e) == a * (b * x) + a * e;
    assert a * (b * x) == (a * b) * x;
  }

  /** The coefficients matter only modulo d. */
  lemma AffineCoefficients(a: int, c: int, a': int, c': int, d: int, x: int)
    requires d > 0 && a % d == a' % d && c % d == c' % d
    ensures Affine(a, c, d, x) == Affine(a', c', d, x)
  {
    assert a * x + c == x * a + c && a' * x + c == x * a' + c;
    AffineCongruent(x, c, d, a, a');
    AffineCongruent(1, a' * x, d, c, c');
  }

  // ---------------------------------------------------------------------------------------
  // Repetition
  // ---------------------------------------------------------------------------------------

  function Repeat(n: nat, a: int, c: int, d: int, x: int): int
    requires d > 0
    decreases n
  {
    if n == 0 then x else Affine(a, c, d, Repeat(n - 1, a, c, d, x))
  }

  function Factor(n: nat, a: int): int {
    if n == 0 then 1 else a * Factor(n - 1, a)
  }

  function Offset(n: nat, a: int, c: int): int {
    if n == 0 then 0 else a * Offset(n - 1, a, c) + c
  }

  lemma OneStep(a: int, c: int)
    ensures Factor(1, a) == a && Offset(1, a, c) == c
  {
    assert Factor(0, a) == 1 && Offset(0, a, c) == 0;
  }

  /** n repetitions are one affine map. */
  lemma {:induction false} RepeatIsAffine(n: nat, a: int, c: int, d: int, x: int)
    requires d > 0 && (n > 0 || 0 <= x < d)
    ensures Repeat(n, a, c, d, x) == Affine(Factor(n, a), Offset(n, a, c), d, x)
    decreases n
  {
    if n == 0 {
      ModUnique(x, d, 0, x);
    } else if n == 1 {
      OneStep(a, c);
    } else {
      RepeatIsAffine(n - 1, a, c, d, x);
      AffineCompose(a, c, Factor(n - 1, a), Offset(n - 1, a, c), d, x);
    }
  }

  lemma {:induction false} RepeatAdds(m: nat, n: nat, a: int, c: int, d: int, x: int)
    requires d > 0
    ensures Repeat(m + n, a, c, d, x) == Repeat(m, a, c, d, Repeat(n, a, c, d, x))
    decreases m
  {
    if m > 0 {
      RepeatAdds(m - 1, n, a, c, d, x);
    }
  }

  lemma RepeatRange(n: nat, a: int, c: int, d: int, x: int)
    requires 0 <= x < d
    ensures 0 <= Repeat(n, a, c, d, x) < d
  {}

  lemma {:induction false} FactorDoubles(m: nat, n: nat, a: int, c: int)
    ensures Factor(m + n, a) == Factor(m, a) * Factor(n, a)
    ensures Offset(m + n, a, c) == Factor(m, a) * Offset(n, a, c) + Offset(m, a, c)
    decreases m
  {
    if m > 0 {
      FactorDoubles(m - 1, n, a, c);
      Distribute(a, Factor(m - 1, a), Factor(n, a), 0, 0);
      Distribute(a, Factor(m - 1, a), Offset(n, a, c), Offset(m - 1, a, c), c);
    }
  }

  // ---------------------------------------------------------------------------------------
  // Full period modulo a power of two
  // ---------------------------------------------------------------------------------------

  ghost predicate Generates(a: int, c: int) {
    a % 4 == 1 && c % 2 == 1
  }

  /** 2^k repetitions add 2^k times an odd number, up to a multiple of 2^(k + 2). */
  lemma {:induction false} PowerOfTwoSteps(k: nat, a: int, c: int) returns (t: int, odd: int)
    requires Generates(a, c)
    ensures Factor(Pow2(k), a) == 1 + Pow2(k + 2) * t
    ensures Offset(Pow2(k), a, c) == Pow2(k) * odd && odd % 2 == 1
  {
    if k == 0 {
      OneStep(a, c);
      t, odd := a / 4, c;
    } else {
      var t0, odd0 := PowerOfTwoSteps(k - 1, a, c);
      var p := Pow2(k - 1);
      assert Pow2(k) == p + p && Pow2(k + 1) == 4 * p && Pow2(k + 2) == 8 * p;
      FactorDoubles(p, p, a, c);
      t, odd := Doubled(p, t0, odd0);
    }
  }

  /** Squaring 1 + 4pt and adding up p * odd twice keeps both forms, with p doubled. */
  lemma Doubled(p: int, t0: int, odd0: int) returns (t: int, odd: int)
    requires odd0 % 2 == 1
    ensures (1 + (4 * p) * t0) * (1 + (4 * p) * t0) == 1 + (8 * p) * t
    ensures (1 + (4 * p) * t0) * (p * odd0) + p * odd0 == (2 * p) * odd
    ensures odd % 2 == 1
  {
    t := t0 + 2 * (p * t0 * t0);
    odd := odd0 + 2 * (p * t0 * odd0);
    SquareForm(p, t0, p * t0);
    SumForm(p, odd0, p * t0);
  }

  lemma SquareForm(p: int, t: int, u: int)
    requires u == p * t
    ensures (1 + (4 * p) * t) * (1 + (4 * p) * t) == 1 + (8 * p) * (t + 2 * (u * t))
  {
    assert (4 * p) * t == 4 * u;
    assert p * (u * t) == u * u;
    assert (8 * p) * (t + 2 * (u * t)) == 8 * u + 16 * (p * (u * t));
  }

  lemma SumForm(p: int, o: int, u: int)
    ensures (1 + 4 * u) * (p * o) + p * o == (2 * p) * (o + 2 * (u * o))
  {
    assert p * (u * o) == u * (p * o);
    assert (2 * p) * (o + 2 * (u * o)) == 2 * (p * o) + 4 * (p * (u * o));
  }

  lemma ModMultiple(x: int, m: int, p: int)
    requires m > 0 && p > 0 && m * p > 0
    ensures (x % (m * p)) % p == x % p
  {
    var q, r := x / (m * p), x % (m * p);
    DivModEquation(x, m * p);
    Distribute(q, m, p, 0, 0);
    ModPlus(r, q * m, p);
  }

  /** Reducing modulo a power of two first does not disturb a smaller power. */
  lemma ModSmaller(x: int, k: nat, kk: nat)
    requires k <= kk
    ensures (x % Pow2(kk)) % Pow2(k) == x % Pow2(k)
  {
    Pow2Adds(kk - k, k);
    ModMultiple(x, Pow2(kk - k), Pow2(k));
  }

  /** 2^k steps move every residue by 2^k, modulo 2^(k + 1). */
  lemma BlockOfSteps(k: nat, bits: nat, a: int, c: int, x: int)
    requires Generates(a, c) && k < bits && 0 <= x < Pow2(bits)
    ensures Repeat(Pow2(k), a, c, Pow2(bits), x) % Pow2(k + 1) == (x + Pow2(k)) % Pow2(k + 1)
  {
    var d, p := Pow2(bits), Pow2(k);
    var t, odd := PowerOfTwoSteps(k, a, c);
    RepeatIsAffine(p, a, c, d, x);
    ModSmaller(Factor(p, a) * x + Offset(p, a, c), k + 1, bits);
    assert Pow2(k + 1) == 2 * p && Pow2(k + 2) == 4 * p;
    BlockForm(p, t, odd, x);
    ModPlus(x + p, 2 * t * x + odd / 2, 2 * p);
  }

  lemma BlockForm(p: int, t: int, odd: int, x: int)
    requires odd % 2 == 1
    ensures (1 + (4 * p) * t) * x + p * odd == (x + p) + (2 * t * x + odd / 2) * (2 * p)
  {
    var h := odd / 2;
    assert p * odd == p + 2 * (p * h);
    assert (4 * p) * t * x == 4 * (p * (t * x));
    assert (2 * t * x + h) * (2 * p) == 4 * (p * (t * x)) + 2 * (p * h);
  }

  lemma {:induction false} ManyBlocks(q: nat, k: nat, bits: nat, a: int, c: int, x: int)
    requires Generates(a, c) && k < bits && 0 <= x < Pow2(bits)
    ensures Repeat(q * Pow2(k), a, c, Pow2(bits), x) % Pow2(k + 1) == (x + q * Pow2(k)) % Pow2(k + 1)
    decreases q
  {
    if q > 0 {
      var d, p := Pow2(bits), Pow2(k);
      var m: nat := (q - 1) * p;
      assert q * p == p + m;
      ManyBlocks(q - 1, k, bits, a, c, x);
      OneMoreBlock(m, k, bits, a, c, x);
      AddCongruent(Repeat(m, a, c, d, x), x + m, p, Pow2(k + 1));
    }
  }

  lemma OneMoreBlock(m: nat, k: nat, bits: nat, a: int, c: int, x: int)
    requires Generates(a, c) && k < bits && 0 <= x < Pow2(bits)
    ensures Repeat(Pow2(k) + m, a, c, Pow2(bits), x) % Pow2(k + 1)
         == (Repeat(m, a, c, Pow2(bits), x) + Pow2(k)) % Pow2(k + 1)
  {
    var y := Repeat(m, a, c, Pow2(bits), x);
    RepeatAdds(Pow2(k), m, a, c, Pow2(bits), x);
    RepeatRange(m, a, c, Pow2(bits), x);
    BlockOfSteps(k, bits, a, c, y);
  }

  lemma AddCongruent(x: int, y: int, z: int, d: int)
    requires d > 0 && x % d == y % d
    ensures (x + z) % d == (y + z) % d
  {
    AffineCongruent(1, z, d, x, y);
  }

  lemma SplitBlocks(x: int, q: nat, p: int) returns (h: int)
    ensures x + q * p == (if q % 2 == 0 then x else x + p) + h * (2 * p)
  {
    h := q / 2;
    var r := q % 2;
    assert (2 * h + r) * p == 2 * (h * p) + r * p;
    assert h * (2 * p) == 2 * (h * p);
  }

  lemma EvenBlocks(x: int, q: nat, p: int)
    requires p > 0
    ensures (x + q * p) % (2 * p) == x % (2 * p) <==> q % 2 == 0
  {
    var h := SplitBlocks(x, q, p);
    ModPlus(if q % 2 == 0 then x else x + p, h, 2 * p);
    HalfTurnMoves(x, p);
  }

  lemma HalfTurnMoves(x: int, p: int)
    requires p > 0
    ensures (x + p) % (2 * p) != x % (2 * p)
  {
    HalfTurn(x, p);
  }

  lemma HalfTurn(x: int, p: int)
    requires p > 0
    ensures (x + p) % (2 * p) == if x % (2 * p) < p then x % (2 * p) + p else x % (2 * p) - p
  {
    var q, r := x / (2 * p), x % (2 * p);
    DivModEquation(x, 2 * p);
    if r < p {
      ModUnique(x + p, 2 * p, q, r + p);
    } else {
      assert (q + 1) * (2 * p) == q * (2 * p) + 2 * p;
      ModUnique(x + p, 2 * p, q + 1, r - p);
    }
  }

  /** Modulo 2^k a run is back where it started after the multiples of 2^k steps, and only then. */
  lemma {:induction false} PeriodModulo(n: nat, k: nat, bits: nat, a: int, c: int, x: int)
    requires Generates(a, c) && k <= bits && 0 <= x < Pow2(bits)
    ensures Repeat(n, a, c, Pow2(bits), x) % Pow2(k) == x % Pow2(k) <==> n % Pow2(k) == 0
    decreases k
  {
    if k == 0 {
      assert Pow2(0) == 1;
    } else {
      var p := Pow2(k - 1);
      var y := Repeat(n, a, c, Pow2(bits), x);
      PeriodModulo(n, k - 1, bits, a, c, x);
      ModSmaller(y, k - 1, k);
      ModSmaller(x, k - 1, k);
      ModSmaller(n, k - 1, k);
      assert p == Pow2(k - 1) && 2 * p == Pow2(k);
      if n % p == 0 {
        var q := n / p;
        DivModEquation(n, p);
        ManyBlocks(q, k - 1, bits, a, c, x);
        EvenBlocks(x, q, p);
        EvenBlocks(0, q, p);
        ModUnique(0, 2 * p, 0, 0);
      } else {
        ModUnique(0, p, 0, 0);
      }
    }
  }

  /** Every run comes back to its start for the first time after exactly 2^bits steps. */
  lemma FullPeriod(n: nat, bits: nat, a: int, c: int, x: int)
    requires Generates(a, c) && 0 <= x < Pow2(bits)
    ensures Repeat(n, a, c, Pow2(bits), x) == x <==> n % Pow2(bits) == 0
  {
    var y := Repeat(n, a, c, Pow2(bits), x);
    PeriodModulo(n, bits, bits, a, c, x);
    RepeatRange(n, a, c, Pow2(bits), x);
    ModUnique(x, Pow2(bits), 0, x);
    ModUnique(y, Pow2(bits), 0, y);
  }

  lemma {:induction false} ReachModulo(k: nat, bits: nat, a: int, c: int, x: int, y: int) returns (n: nat)
    requires Generates(a, c) && k <= bits && 0 <= x < Pow2(bits)
    ensures n < Pow2(k) && Repeat(n, a, c, Pow2(bits), x) % Pow2(k) == y % Pow2(k)
    decreases k
  {
    if k == 0 {
      n := 0;
      assert Pow2(0) == 1;
    } else {
      var p := Pow2(k - 1);
      n := ReachModulo(k - 1, bits, a, c, x, y);
      var z := Repeat(n, a, c, Pow2(bits), x);
      assert 2 * p == Pow2(k);
      if z % (2 * p) != y % (2 * p) {
        RepeatRange(n, a, c, Pow2(bits), x);
        RepeatAdds(p, n, a, c, Pow2(bits), x);
        BlockOfSteps(k - 1, bits, a, c, z);
        OtherHalf(z, y, k - 1);
        n := p + n;
      }
    }
  }

  lemma OtherHalf(z: int, y: int, k: nat)
    ensures z % Pow2(k) == y % Pow2(k) ==>
              z % Pow2(k + 1) == y % Pow2(k + 1) || (z + Pow2(k)) % Pow2(k + 1) == y % Pow2(k + 1)
  {
    var p := Pow2(k);
    ModSmaller(z, k, k + 1);
    ModSmaller(y, k, k + 1);
    HalfTurn(z, p);
    HalfRemainder(z % (2 * p), p);
    HalfRemainder(y % (2 * p), p);
  }

  lemma HalfRemainder(r: int, p: int)
    requires 0 <= r < 2 * p
    ensures r % p == if r < p then r else r - p
  {
    if r < p {
      ModUnique(r, p, 0, r);
    } else {
      ModUnique(r, p, 1, r - p);
    }
  }

  /** Within one period, every residue is met. */
  lemma ReachesAll(bits: nat, a: int, c: int, x: int, y: int) returns (n: nat)
    requires Generates(a, c) && 0 <= x < Pow2(bits) && 0 <= y < Pow2(bits)
    ensures n < Pow2(bits) && Repeat(n, a, c, Pow2(bits), x) == y
  {
    n := ReachModulo(bits, bits, a, c, x, y);
    RepeatRange(n, a, c, Pow2(bits), x);
    ModUnique(y, Pow2(bits), 0, y);
    ModUnique(Repeat(n, a, c, Pow2(bits), x), Pow2(bits), 0, Repeat(n, a, c, Pow2(bits), x));
  }
}
