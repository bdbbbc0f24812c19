/**
Numbers written in a base, most significant digit first: the value of a digit sequence and the
canonical digits of a value.
*/
module Radix {
  import opened DivMod

  function Pow(base: nat, n: nat): nat {
    if n == 0 then 1 else Pow(base, n - 1) * base
  }

  function Value(digits: seq<nat>, base: nat): nat {
    if digits == [] then 0
    else Value(digits[..|digits| - 1], base) * base + digits[|digits| - 1]
  }

  /** The digits of n without leading zeros; none for zero. */
  function Digits(n: nat, base: nat): (d: seq<nat>)
    requires base >= 2
    ensures forall i | 0 <= i < |d| :: d[i] < base
    ensures n > 0 ==> d != [] && d[0] != 0
    ensures n == 0 ==> d == []
  {
    if n == 0 then [] else
      DivShrinks(n, base);
      Digits(n / base, base) + [n % base]
  }

  lemma DivShrinks(n: nat, base: nat)
    requires n > 0 && base >= 2
    ensures 0 <= n / base < n
    ensures n / base == 0 <==> n < base
    ensures n < base ==> n % base == n
  {
    DivModEquation(n, base);
    var q := n / base;
    if q < 0 {
      MulMonotone(q, -1, base);
    } else if q >= n {
      MulMonotone(n, q, base);
      MulMonotone(2, base, n);
    }
    if n < base {
      ModUnique(n, base, 0, n);
    }
  }

  ghost predicate AreDigits(digits: seq<nat>, base: nat) {
    forall i | 0 <= i < |digits| :: digits[i] < base
  }

  lemma {:induction false} PowPositive(base: nat, n: nat)
    requires base > 0
    ensures Pow(base, n) > 0
  {
    if n > 0 {
      PowPositive(base, n - 1);
      MulMonotone(1, Pow(base, n - 1), base);
    }
  }

  lemma {:induction false} PowAdds(base: nat, m: nat, n: nat)
    ensures Pow(base, m + n) == Pow(base, m) * Pow(base, n)
    decreases n
  {
    if n > 0 {
      PowAdds(base, m, n - 1);
      MulAssociates(Pow(base, m), Pow(base, n - 1), base);
    }
  }

  lemma MulAssociates(x: int, y: int, z: int)
    ensures (x * y) * z == x * (y * z)
  {}

  lemma {:induction false} PowMonotone(base: nat, m: nat, n: nat)
    requires base > 0 && m <= n
    ensures Pow(base, m) <= Pow(base, n)
    decreases n
  {
    if m < n {
      PowMonotone(base, m, n - 1);
      PowPositive(base, n - 1);
      MulMonotone(1, base, Pow(base, n - 1));
    }
  }

  lemma {:induction false} ValueOfDigits(n: nat, base: nat)
    requires base >= 2
    ensures Value(Digits(n, base), base) == n
  {
    if n > 0 {
      DivShrinks(n, base);
      ValueOfDigits(n / base, base);
      DivModEquation(n, base);
      assert Digits(n, base)[..|Digits(n, base)| - 1] == Digits(n / base, base);
    }
  }

  /** Digits without a leading zero are the canonical digits of their value. */
  lemma {:induction false} DigitsOfValue(digits: seq<nat>, base: nat)
    requires base >= 2 && AreDigits(digits, base)
    requires digits != [] ==> digits[0] != 0
    ensures Digits(Value(digits, base), base) == digits
  {
    if digits != [] {
      var front, last := digits[..|digits| - 1], digits[|digits| - 1];
      DigitsOfValue(front, base);
      var v := Value(front, base);
      ModUnique(v * base + last, base, v, last);
      if front == [] {
        assert digits == [last];
      } else {
        assert front[0] == digits[0];
        MulMonotone(1, v, base);
      }
    }
  }

  lemma {:induction false} ValueAppend(a: seq<nat>, b: seq<nat>, base: nat)
    ensures Value(a + b, base) == Value(a, base) * Pow(base, |b|) + Value(b, base)
    decreases |b|
  {
    if b == [] {
      assert a + b == a;
    } else {
      var front, last := b[..|b| - 1], b[|b| - 1];
      assert (a + b)[..|a + b| - 1] == a + front;
      ValueAppend(a, front, base);
      AppendStep(Value(a, base), Pow(base, |front|), Value(front, base), base);
    }
  }

  lemma AppendStep(v: int, p: int, w: int, base: int)
    ensures (v * p + w) * base == v * (p * base) + w * base
  {
    MulAssociates(v, p, base);
  }

  lemma ValuePrepend(d: nat, b: seq<nat>, base: nat)
    ensures Value([d] + b, base) == d * Pow(base, |b|) + Value(b, base)
  {
    ValueAppend([d], b, base);
    assert [d][..0] == [];
    assert Value([d], base) == Value([], base) * base + d;
  }

  lemma {:induction false} ValueBound(digits: seq<nat>, base: nat)
    requires base >= 2 && AreDigits(digits, base)
    ensures Value(digits, base) < Pow(base, |digits|)
  {
    if digits != [] {
      var front := digits[..|digits| - 1];
      ValueBound(front, base);
      BoundStep(Value(front, base), Pow(base, |front|), base, digits[|digits| - 1]);
    }
  }

  lemma BoundStep(v: int, p: int, base: int, d: int)
    requires v < p && d < base && base >= 0
    ensures v * base + d < p * base
  {
    MulMonotone(v + 1, p, base);
  }

  function Zeros(n: nat): (z: seq<nat>)
    ensures |z| == n && forall i | 0 <= i < n :: z[i] == 0
  {
    seq(n, _ => 0)
  }

  lemma {:induction false} ValueOfZeros(n: nat, base: nat)
    ensures Value(Zeros(n), base) == 0
  {
    if n > 0 {
      assert Zeros(n)[..n - 1] == Zeros(n - 1);
      ValueOfZeros(n - 1, base);
    }
  }

  lemma LeadingZeros(n: nat, digits: seq<nat>, base: nat)
    ensures Value(Zeros(n) + digits, base) == Value(digits, base)
  {
    ValueAppend(Zeros(n), digits, base);
    ValueOfZeros(n, base);
  }

  lemma ValueLowerBound(digits: seq<nat>, base: nat)
    requires base >= 2 && digits != [] && digits[0] != 0
    ensures Value(digits, base) >= Pow(base, |digits| - 1)
  {
    assert digits == [digits[0]] + digits[1..];
    ValuePrepend(digits[0], digits[1..], base);
    MulMonotone(1, digits[0], Pow(base, |digits| - 1));
  }

  /** A value has at most k digits exactly when it is below base^k. */
  lemma DigitCount(n: nat, k: nat, base: nat)
    requires base >= 2
    ensures |Digits(n, base)| <= k <==> n < Pow(base, k)
  {
    var d := Digits(n, base);
    ValueOfDigits(n, base);
    ValueBound(d, base);
    if |d| <= k {
      PowMonotone(base, |d|, k);
    } else {
      ValueLowerBound(d, base);
      PowMonotone(base, k, |d| - 1);
    }
  }

  /** Digit sequences of one length are determined by their value. */
  lemma {:induction false} SameLengthInjective(a: seq<nat>, b: seq<nat>, base: nat)
    requires base >= 2 && AreDigits(a, base) && AreDigits(b, base)
    requires |a| == |b| && Value(a, base) == Value(b, base)
    ensures a == b
    decreases |a|
  {
    if a != [] {
      var u, v := Value(a[..|a| - 1], base), Value(b[..|b| - 1], base);
      ModUnique(Value(a, base), base, u, a[|a| - 1]);
      ModUnique(Value(b, base), base, v, b[|b| - 1]);
      SameLengthInjective(a[..|a| - 1], b[..|b| - 1], base);
      assert a == a[..|a| - 1] + [a[|a| - 1]] && b == b[..|b| - 1] + [b[|b| - 1]];
    }
  }
}
