/** Powers of two and the bitwise and of naturals, as C defines it on unsigned integers. */
module Bits {
  import opened DivMod

  function Pow2(k: nat): (p: nat)
    ensures p > 0
  {
    if k == 0 then 1 else 2 * Pow2(k - 1)
  }

  function And(a: nat, b: nat): nat {
    if a == 0 || b == 0 then 0 else 2 * And(a / 2, b / 2) + (if a % 2 == 1 && b % 2 == 1 then 1 else 0)
  }

  ghost predicate IsPow2(n: nat) {
    exists k: nat :: n == Pow2(k)
  }

  lemma {:induction false} Pow2Adds(a: nat, b: nat)
    ensures Pow2(a + b) == Pow2(a) * Pow2(b)
    decreases a
  {
    if a > 0 {
      calc {
        Pow2(a + b);
        2 * Pow2(a - 1 + b);
        { Pow2Adds(a - 1, b); }
        2 * (Pow2(a - 1) * Pow2(b));
        { Reassociate(2, Pow2(a - 1), Pow2(b)); }
        (2 * Pow2(a - 1)) * Pow2(b);
        Pow2(a) * Pow2(b);
      }
    }
  }

  lemma Reassociate(x: nat, y: nat, z: nat)
    ensures x * (y * z) == (x * y) * z
  {}

  lemma {:induction false} Pow2Monotone(a: nat, b: nat)
    requires a <= b
    ensures Pow2(a) <= Pow2(b)
    decreases b
  {
    if a < b {
      Pow2Monotone(a, b - 1);
    }
  }

  lemma HalvedModulus(a: nat, p: nat)
    requires p > 0
    ensures a % (2 * p) == 2 * ((a / 2) % p) + a % 2
  {
    var q, r := (a / 2) / p, (a / 2) % p;
    DivModEquation(a / 2, p);
    assert q * (2 * p) == 2 * (q * p);
    ModUnique(a, 2 * p, q, 2 * r + a % 2);
  }

  lemma AndOdd(a: nat, m: nat, b: nat)
    requires m == 2 * b + 1
    ensures And(a, m) == 2 * And(a / 2, b) + a % 2
  {
    assert m / 2 == b && m % 2 == 1;
  }

  lemma OneMoreBit(a: nat, p: nat, r: int)
    requires p > 0 && r == (a / 2) % p
    ensures 2 * r + a % 2 == a % (2 * p)
  {
    HalvedModulus(a, p);
  }

  /** Masking with k ones is reduction modulo 2^k. */
  lemma {:induction false} AndMask(a: nat, k: nat)
    ensures And(a, Pow2(k) - 1) == a % Pow2(k)
    decreases k
  {
    if k == 0 {
      assert a % 1 == 0;
    } else {
      AndMask(a / 2, k - 1);
      AndOdd(a, Pow2(k) - 1, Pow2(k - 1) - 1);
      OneMoreBit(a, Pow2(k - 1), And(a / 2, Pow2(k - 1) - 1));
    }
  }

  /** The test n & (n - 1) == 0 recognises the powers of two. */
  lemma {:induction false} AndPredecessor(n: nat)
    requires n > 0
    ensures And(n, n - 1) == 0 <==> IsPow2(n)
  {
    if n == 1 {
      assert Pow2(0) == 1;
    } else if n % 2 == 1 {
      assert (n - 1) / 2 == n / 2;
      AndSelf(n / 2);
      forall k: nat ensures n != Pow2(k) {}
    } else {
      assert (n - 1) / 2 == n / 2 - 1 && (n - 1) % 2 == 1;
      AndPredecessor(n / 2);
      if IsPow2(n / 2) {
        var k: nat :| n / 2 == Pow2(k);
        assert n == Pow2(k + 1);
      }
      if IsPow2(n) {
        var k: nat :| n == Pow2(k);
        assert n / 2 == Pow2(k - 1);
      }
    }
  }

  lemma {:induction false} AndSelf(n: nat)
    ensures And(n, n) == n
  {
    if n > 0 {
      AndSelf(n / 2);
    }
  }
}
