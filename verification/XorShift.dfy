/**
The two xorshift steps, on 32 and on 64 bits: each is a bijection with an explicit inverse, so
every run is a cycle, and zero is on no cycle but its own.
*/
module XorShift {
  import opened Orbits

  function Left13(s: bv32): bv32 { s ^ (s << 13) }
  function Right17(s: bv32): bv32 { s ^ (s >> 17) }
  function Left15(s: bv32): bv32 { s ^ (s << 15) }

  function Xorshift(seed: bv32): bv32 {
    Left15(Right17(Left13(seed)))
  }

  function Xorshift32Inverse(y: bv32): bv32 {
    UnLeft13(Right17(UnLeft15(y)))
  }

  function UnLeft13(y: bv32): bv32 { y ^ (y << 13) ^ (y << 26) }
  function UnLeft15(y: bv32): bv32 { y ^ (y << 15) ^ (y << 30) }

  lemma RawInverse32(s: bv32)
    ensures UnLeft13(s ^ (s << 13)) == s
    ensures Right17(s ^ (s >> 17)) == s
    ensures UnLeft15(s ^ (s << 15)) == s
    ensures Left13(s ^ (s << 13) ^ (s << 26)) == s
    ensures Left15(s ^ (s << 15) ^ (s << 30)) == s
  {}

  lemma Inverse32(s: bv32)
    ensures UnLeft13(Left13(s)) == s && Left13(UnLeft13(s)) == s
    ensures Right17(Right17(s)) == s
    ensures UnLeft15(Left15(s)) == s && Left15(UnLeft15(s)) == s
  {
    RawInverse32(s);
  }

  lemma Left13InNumbers(s: bv32, y: bv32)
    requires y == s ^ (s << 13)
    ensures Left13(s) == y
  {}

  lemma Right17InNumbers(s: bv32, y: bv32)
    requires y == s ^ (s >> 17)
    ensures Right17(s) == y
  {}

  lemma Left15InNumbers(s: bv32, y: bv32)
    requires y == s ^ (s << 15)
    ensures Left15(s) == y
  {}

  /** The three shifts of a step, in their order. */
  lemma XorshiftInNumbers(s: bv32, t: bv32, u: bv32, y: bv32)
    requires t == s ^ (s << 13)
    requires u == t ^ (t >> 17)
    requires y == u ^ (u << 15)
    ensures Xorshift(s) == y
  {
    Left13InNumbers(s, t);
    Right17InNumbers(t, u);
    Left15InNumbers(u, y);
  }

  lemma Xorshift32Bijective(s: bv32)
    ensures Xorshift32Inverse(Xorshift(s)) == s
    ensures Xorshift(Xorshift32Inverse(s)) == s
  {
    Inverse32(s);
    Inverse32(Left13(s));
    Inverse32(Right17(Left13(s)));
    Inverse32(UnLeft15(s));
    Inverse32(Right17(UnLeft15(s)));
  }

  function LeftThirteen(s: bv64): bv64 { s ^ (s << 13) }
  function RightSeven(s: bv64): bv64 { s ^ (s >> 7) }
  function LeftSeventeen(s: bv64): bv64 { s ^ (s << 17) }

  function Xorshift64(seed: bv64): bv64 {
    LeftSeventeen(RightSeven(LeftThirteen(seed)))
  }

  function UnLeftThirteen(y: bv64): bv64 {
    y ^ (y << 13) ^ (y << 26) ^ (y << 39) ^ (y << 52)
  }

  function UnRightSeven(y: bv64): bv64 {
    y ^ (y >> 7) ^ (y >> 14) ^ (y >> 21) ^ (y >> 28) ^ (y >> 35) ^ (y >> 42) ^ (y >> 49) ^ (y >> 56) ^ (y >> 63)
  }

  function UnLeftSeventeen(y: bv64): bv64 {
    y ^ (y << 17) ^ (y << 34) ^ (y << 51)
  }

  function Xorshift64Inverse(y: bv64): bv64 {
    UnLeftThirteen(UnRightSeven(UnLeftSeventeen(y)))
  }

  lemma RawInverse64(s: bv64)
    ensures UnLeftThirteen(s ^ (s << 13)) == s
    ensures UnRightSeven(s ^ (s >> 7)) == s
    ensures UnLeftSeventeen(s ^ (s << 17)) == s
  {}

  lemma RawInverse64Back(y: bv64)
    ensures LeftThirteen(y ^ (y << 13) ^ (y << 26) ^ (y << 39) ^ (y << 52)) == y
    ensures RightSeven(y ^ (y >> 7) ^ (y >> 14) ^ (y >> 21) ^ (y >> 28) ^ (y >> 35) ^ (y >> 42) ^ (y >> 49)
                       ^ (y >> 56) ^ (y >> 63)) == y
    ensures LeftSeventeen(y ^ (y << 17) ^ (y << 34) ^ (y << 51)) == y
  {}

  lemma Inverse64(s: bv64)
    ensures UnLeftThirteen(LeftThirteen(s)) == s && LeftThirteen(UnLeftThirteen(s)) == s
    ensures UnRightSeven(RightSeven(s)) == s && RightSeven(UnRightSeven(s)) == s
    ensures UnLeftSeventeen(LeftSeventeen(s)) == s && LeftSeventeen(UnLeftSeventeen(s)) == s
  {
    RawInverse64(s);
    RawInverse64Back(s);
  }

  lemma LeftThirteenInNumbers(s: bv64, y: bv64)
    requires y == s ^ (s << 13)
    ensures LeftThirteen(s) == y
  {}

  lemma RightSevenInNumbers(s: bv64, y: bv64)
    requires y == s ^ (s >> 7)
    ensures RightSeven(s) == y
  {}

  lemma LeftSeventeenInNumbers(s: bv64, y: bv64)
    requires y == s ^ (s << 17)
    ensures LeftSeventeen(s) == y
  {}

  lemma Xorshift64InNumbers(s: bv64, t: bv64, u: bv64, y: bv64)
    requires t == s ^ (s << 13)
    requires u == t ^ (t >> 7)
    requires y == u ^ (u << 17)
    ensures Xorshift64(s) == y
  {
    LeftThirteenInNumbers(s, t);
    RightSevenInNumbers(t, u);
    LeftSeventeenInNumbers(u, y);
  }

  lemma Xorshift64Bijective(s: bv64)
    ensures Xorshift64Inverse(Xorshift64(s)) == s
    ensures Xorshift64(Xorshift64Inverse(s)) == s
  {
    Inverse64(s);
    Inverse64(LeftThirteen(s));
    Inverse64(RightSeven(LeftThirteen(s)));
    Inverse64(UnLeftSeventeen(s));
    Inverse64(UnRightSeven(UnLeftSeventeen(s)));
  }

  // ---------------------------------------------------------------------------------------
  // Runs
  // ---------------------------------------------------------------------------------------

  lemma ZeroIsFixed()
    ensures Xorshift(0) == 0 && Xorshift64(0) == 0
  {}

  lemma XorshiftInjective()
    ensures Injective(Xorshift) && Injective(Xorshift64)
  {
    forall x, y | Xorshift(x) == Xorshift(y) ensures x == y {
      Xorshift32Bijective(x);
      Xorshift32Bijective(y);
    }
    forall x, y | Xorshift64(x) == Xorshift64(y) ensures x == y {
      Xorshift64Bijective(x);
      Xorshift64Bijective(y);
    }
  }

  /** A run is zero somewhere exactly when it is zero at the start. */
  lemma {:induction false} ZeroOnlyFromZero(n: nat, s: bv32, t: bv64)
    ensures Iterate(Xorshift, n, s) == 0 <==> s == 0
    ensures Iterate(Xorshift64, n, t) == 0 <==> t == 0
    decreases n
  {
    if n > 0 {
      ZeroOnlyFromZero(n - 1, s, t);
      ZeroIsFixed();
      XorshiftInjective();
      assert Xorshift(Iterate(Xorshift, n - 1, s)) == Xorshift(0) ==> Iterate(Xorshift, n - 1, s) == 0;
      assert Xorshift64(Iterate(Xorshift64, n - 1, t)) == Xorshift64(0) ==> Iterate(Xorshift64, n - 1, t) == 0;
    }
  }

  function Value32(s: bv32): nat { s as nat }
  function Value64(s: bv64): nat { s as nat }

  lemma SameValue32(x: bv32, y: bv32)
    requires Value32(x) == Value32(y)
    ensures x == y
  {
    assert (x as nat) as bv32 == (y as nat) as bv32;
  }

  lemma SameValue64(x: bv64, y: bv64)
    requires Value64(x) == Value64(y)
    ensures x == y
  {
    assert (x as nat) as bv64 == (y as nat) as bv64;
  }

  lemma NonZero32(s: bv32)
    requires s != 0
    ensures 0 < Value32(s) <= 0xFFFF_FFFF
  {
    if Value32(s) == Value32(0) {
      SameValue32(s, 0);
    }
  }

  lemma NonZero64(s: bv64)
    requires s != 0
    ensures 0 < Value64(s) <= 0xFFFF_FFFF_FFFF_FFFF
  {
    if Value64(s) == Value64(0) {
      SameValue64(s, 0);
    }
  }

  lemma ValuesInjective()
    ensures Injective(Value32) && Injective(Value64)
  {
    forall x, y | Value32(x) == Value32(y) ensures x == y {
      SameValue32(x, y);
    }
    forall x, y | Value64(x) == Value64(y) ensures x == y {
      SameValue64(x, y);
    }
  }

  /** Every 32-bit run comes back to its seed, within 2^32 - 1 steps. */
  lemma Xorshift32Cycles(s: bv32) returns (period: nat)
    ensures 0 < period <= 0xFFFF_FFFF && Iterate(Xorshift, period, s) == s
  {
    if s == 0 {
      ZeroOnlyFromZero(1, s, 0);
      period := 1;
    } else {
      forall i ensures 0 < Value32(Iterate(Xorshift, i, s)) <= 0xFFFF_FFFF {
        ZeroOnlyFromZero(i, s, 0);
        NonZero32(Iterate(Xorshift, i, s));
      }
      XorshiftInjective();
      ValuesInjective();
      period := Returns(Xorshift, Value32, 0xFFFF_FFFF, s);
    }
  }

  /** Every 64-bit run comes back to its seed, within 2^64 - 1 steps. */
  lemma Xorshift64Cycles(s: bv64) returns (period: nat)
    ensures 0 < period <= 0xFFFF_FFFF_FFFF_FFFF && Iterate(Xorshift64, period, s) == s
  {
    if s == 0 {
      ZeroOnlyFromZero(1, 0, s);
      period := 1;
    } else {
      forall i ensures 0 < Value64(Iterate(Xorshift64, i, s)) <= 0xFFFF_FFFF_FFFF_FFFF {
        ZeroOnlyFromZero(i, 0, s);
        NonZero64(Iterate(Xorshift64, i, s));
      }
      XorshiftInjective();
      ValuesInjective();
      period := Returns(Xorshift64, Value64, 0xFFFF_FFFF_FFFF_FFFF, s);
    }
  }
}
