/**
The 48-bit linear congruential generator of java.util.Random: its step and inverse step in
64-bit machine arithmetic, and the jump constants.
*/
module Lcg {
  import opened DivMod
  import opened Bits
  import opened AffineMaps
  import opened MachineIntegers

  const MULTIPLIER: nat := 0x5DEECE66D
  const ADDEND: nat := 0xB
  const INVERSE_MULTIPLIER: nat := 0xDFE05BCB1365
  const DOUBLE_MULTIPLIER: nat := 0xBB20B4600A69
  const DOUBLE_ADDEND: nat := 0x0040942DE6BA
  const DOUBLE_INVERSE_MULTIPLIER: nat := 0xE7A191A625D9
  const TRIPLE_MULTIPLIER: nat := 0xD498BD0AC4B5
  const TRIPLE_ADDEND: nat := 0x0AA8544E593D
  const TRIPLE_INVERSE_MULTIPLIER: nat := 0x13A1F16F099D
  const MASK: nat := 0xFFFF_FFFF_FFFF
  const STATES: nat := 0x1_0000_0000_0000  // 2^48

  /** The unsigned 64-bit value to which C converts an operand or reduces a result. */
  function U64(x: int): nat {
    x % 0x1_0000_0000_0000_0000
  }

  /** The low 48 bits. */
  function Masked(x: int): (r: nat)
    ensures r == x % STATES
  {
    MaskedResidue(x);
    And(U64(x), MASK)
  }

  lemma MaskedResidue(x: int)
    ensures And(U64(x), MASK) == x % STATES
  {
    Pow2Is48();
    AndMask(U64(x), 48);
    U64Residue(x);
  }

  lemma Pow2Is48()
    ensures Pow2(48) == STATES
  {
    assert Pow2(8) == 256;
    Pow2Adds(8, 8);
    Pow2Adds(16, 16);
    Pow2Adds(32, 16);
  }

  lemma U64Residue(x: int)
    ensures U64(x) % STATES == x % STATES
  {
    DivModEquation(x, 0x1_0000_0000_0000_0000);
    var q := x / 0x1_0000_0000_0000_0000;
    ModPlus(U64(x), q * 0x1_0000, STATES);
  }

  function Step(seed: Int64): Int64 {
    Masked(U64(seed) * MULTIPLIER + ADDEND)
  }

  function StepBack(seed: Int64): Int64 {
    Masked(U64(U64(seed) - ADDEND) * INVERSE_MULTIPLIER)
  }

  /** One step is multiplication and addition modulo 2^48, whatever the seed's upper bits. */
  lemma StepIsAffine(seed: Int64)
    ensures Step(seed) == Affine(MULTIPLIER, ADDEND, STATES, seed)
  {
    U64Residue(seed);
    AffineCongruent(MULTIPLIER, ADDEND, STATES, U64(seed), seed);
  }

  lemma StepInNumbers(seed: Int64)
    ensures Step(seed) == (0x5_DEEC_E66D * seed + 0xB) % 0x1_0000_0000_0000
    ensures StepBack(Step(seed)) == seed % 0x1_0000_0000_0000
  {
    StepIsAffine(seed);
    StepThenBack(seed);
  }

  function BackAddend(): int {
    -(INVERSE_MULTIPLIER * ADDEND)
  }

  lemma StepBackIsAffine(seed: Int64)
    ensures StepBack(seed) == Affine(INVERSE_MULTIPLIER, BackAddend(), STATES, seed)
  {
    var x := U64(seed) - ADDEND;
    U64Residue(x);
    AffineCongruent(INVERSE_MULTIPLIER, 0, STATES, U64(x), x);
    SameValue(INVERSE_MULTIPLIER, 0, x, INVERSE_MULTIPLIER, BackAddend(), U64(seed), STATES);
    U64Residue(seed);
    AffineCongruent(INVERSE_MULTIPLIER, BackAddend(), STATES, U64(seed), seed);
  }

  lemma StepThenBack(seed: Int64)
    ensures StepBack(Step(seed)) == seed % STATES
    ensures Step(StepBack(seed)) == seed % STATES
  {
    StepIsAffine(seed);
    StepBackIsAffine(Step(seed));
    InversePair(seed);
    StepBackIsAffine(seed);
    StepIsAffine(StepBack(seed));
  }

  /** A map whose coefficients reduce to 1 and 0 is the identity on residues. */
  lemma InversePair(x: int)
    ensures Affine(INVERSE_MULTIPLIER, BackAddend(), STATES, Affine(MULTIPLIER, ADDEND, STATES, x)) == x % STATES
    ensures Affine(MULTIPLIER, ADDEND, STATES, Affine(INVERSE_MULTIPLIER, BackAddend(), STATES, x)) == x % STATES
  {
    Composition(INVERSE_MULTIPLIER, BackAddend(), MULTIPLIER, ADDEND, 1, 0, x);
    Composition(MULTIPLIER, ADDEND, INVERSE_MULTIPLIER, BackAddend(), 1, 0, x);
    SameValue(1, 0, x, 0, x, 0, STATES);
  }

  /** Two maps one after the other are the map with the combined coefficients modulo 2^48. */
  lemma Composition(a: int, c: int, b: int, e: int, ab: int, ae: int, x: int)
    requires (a * b) % STATES == ab % STATES && (a * e + c) % STATES == ae % STATES
    ensures Affine(a, c, STATES, Affine(b, e, STATES, x)) == Affine(ab, ae, STATES, x)
  {
    AffineCompose(a, c, b, e, STATES, x);
    AffineCoefficients(a * b, a * e + c, ab, ae, STATES, x);
  }

  // ---------------------------------------------------------------------------------------
  // Many steps
  // ---------------------------------------------------------------------------------------

  function Steps(n: nat, seed: Int64): Int64
    decreases n
  {
    if n == 0 then seed else Step(Steps(n - 1, seed))
  }

  function StepsBack(n: nat, seed: Int64): Int64
    decreases n
  {
    if n == 0 then seed else StepBack(StepsBack(n - 1, seed))
  }

  lemma {:induction false} StepsAreRepeats(n: nat, seed: Int64)
    ensures Steps(n, seed) == Repeat(n, MULTIPLIER, ADDEND, STATES, seed)
    decreases n
  {
    if n > 0 {
      StepsAreRepeats(n - 1, seed);
      StepIsAffine(Steps(n - 1, seed));
    }
  }

  lemma {:induction false} StepsBackAreRepeats(n: nat, seed: Int64)
    ensures StepsBack(n, seed) == Repeat(n, INVERSE_MULTIPLIER, BackAddend(), STATES, seed)
    decreases n
  {
    if n > 0 {
      StepsBackAreRepeats(n - 1, seed);
      StepBackIsAffine(StepsBack(n - 1, seed));
    }
  }

  /** The low bits of a run do not depend on the upper bits of its seed. */
  lemma {:induction false} RepeatReduces(n: nat, a: int, c: int, x: int)
    ensures Repeat(n, a, c, STATES, x % STATES) % STATES == Repeat(n, a, c, STATES, x) % STATES
    decreases n
  {
    if n > 0 {
      RepeatReduces(n - 1, a, c, x);
      AffineCongruent(a, c, STATES, Repeat(n - 1, a, c, STATES, x % STATES), Repeat(n - 1, a, c, STATES, x));
    }
  }

  lemma {:induction false} RepeatsCancel(n: nat, x: int)
    ensures var (m, a, i, b) := (MULTIPLIER, ADDEND, INVERSE_MULTIPLIER, BackAddend());
            && Repeat(n, i, b, STATES, Repeat(n, m, a, STATES, x)) % STATES == x % STATES
            && Repeat(n, m, a, STATES, Repeat(n, i, b, STATES, x)) % STATES == x % STATES
    decreases n
  {
    if n > 0 {
      var (m, a, i, b) := (MULTIPLIER, ADDEND, INVERSE_MULTIPLIER, BackAddend());
      var y, z := Repeat(n - 1, m, a, STATES, x), Repeat(n - 1, i, b, STATES, x);
      InversePair(y);
      RepeatAdds(n - 1, 1, i, b, STATES, Affine(m, a, STATES, y));
      RepeatReduces(n - 1, i, b, y);
      RepeatsCancel(n - 1, x);
      InversePair(z);
      RepeatAdds(n - 1, 1, m, a, STATES, Affine(i, b, STATES, z));
      RepeatReduces(n - 1, m, a, z);
    }
  }

  /** n steps back undo n steps, and the other way round, for every 64-bit seed. */
  lemma StepsThenBack(n: nat, seed: Int64)
    ensures StepsBack(n, Steps(n, seed)) % STATES == seed % STATES
    ensures Steps(n, StepsBack(n, seed)) % STATES == seed % STATES
  {
    StepsAreRepeats(n, seed);
    StepsBackAreRepeats(n, seed);
    StepsBackAreRepeats(n, Steps(n, seed));
    StepsAreRepeats(n, StepsBack(n, seed));
    RepeatsCancel(n, seed);
  }

  /** n steps are one multiplication and one addition; from the first step on nothing else is left. */
  lemma StepsCollapse(n: nat, seed: Int64)
    ensures Steps(n, seed) % STATES == Affine(Factor(n, MULTIPLIER), Offset(n, MULTIPLIER, ADDEND), STATES, seed)
    ensures n > 0 ==> 0 <= Steps(n, seed) < STATES
  {
    StepsAreRepeats(n, seed);
    if n == 0 {
      SameValue(1, 0, seed, 0, seed, 0, STATES);
    } else {
      RepeatIsAffine(n, MULTIPLIER, ADDEND, STATES, seed);
      ModUnique(Steps(n, seed), STATES, 0, Steps(n, seed));
    }
  }

  function BackOffset(inverse: int, addend: int): int {
    -(inverse * addend)
  }

  /** The DOUBLE and TRIPLE constants jump two and three steps at once. */
  lemma JumpForward(seed: Int64)
    ensures Steps(2, seed) == Affine(DOUBLE_MULTIPLIER, DOUBLE_ADDEND, STATES, seed)
    ensures Steps(3, seed) == Affine(TRIPLE_MULTIPLIER, TRIPLE_ADDEND, STATES, seed)
  {
    StepsAreRepeats(2, seed);
    StepsAreRepeats(3, seed);
    RepeatForward(seed);
  }

  lemma RepeatForward(x: int)
    ensures Repeat(2, MULTIPLIER, ADDEND, STATES, x) == Affine(DOUBLE_MULTIPLIER, DOUBLE_ADDEND, STATES, x)
    ensures Repeat(3, MULTIPLIER, ADDEND, STATES, x) == Affine(TRIPLE_MULTIPLIER, TRIPLE_ADDEND, STATES, x)
  {
    RepeatTwiceThrice(MULTIPLIER, ADDEND, x);
    ForwardResidues();
    Composition(MULTIPLIER, ADDEND, MULTIPLIER, ADDEND, DOUBLE_MULTIPLIER, DOUBLE_ADDEND, x);
    Composition(MULTIPLIER, ADDEND, DOUBLE_MULTIPLIER, DOUBLE_ADDEND, TRIPLE_MULTIPLIER, TRIPLE_ADDEND, x);
  }

  lemma ForwardResidues()
    ensures (MULTIPLIER * MULTIPLIER) % STATES == DOUBLE_MULTIPLIER % STATES
    ensures (MULTIPLIER * ADDEND + ADDEND) % STATES == DOUBLE_ADDEND % STATES
    ensures (MULTIPLIER * DOUBLE_MULTIPLIER) % STATES == TRIPLE_MULTIPLIER % STATES
    ensures (MULTIPLIER * DOUBLE_ADDEND + ADDEND) % STATES == TRIPLE_ADDEND % STATES
  {}

  /** Their inverse constants jump two and three steps back. */
  lemma JumpBack(seed: Int64)
    ensures StepsBack(2, seed)
         == Affine(DOUBLE_INVERSE_MULTIPLIER, BackOffset(DOUBLE_INVERSE_MULTIPLIER, DOUBLE_ADDEND), STATES, seed)
    ensures StepsBack(3, seed)
         == Affine(TRIPLE_INVERSE_MULTIPLIER, BackOffset(TRIPLE_INVERSE_MULTIPLIER, TRIPLE_ADDEND), STATES, seed)
  {
    StepsBackAreRepeats(2, seed);
    StepsBackAreRepeats(3, seed);
    RepeatBack(seed);
  }

  lemma RepeatBack(x: int)
    ensures Repeat(2, INVERSE_MULTIPLIER, BackAddend(), STATES, x)
         == Affine(DOUBLE_INVERSE_MULTIPLIER, BackOffset(DOUBLE_INVERSE_MULTIPLIER, DOUBLE_ADDEND), STATES, x)
    ensures Repeat(3, INVERSE_MULTIPLIER, BackAddend(), STATES, x)
         == Affine(TRIPLE_INVERSE_MULTIPLIER, BackOffset(TRIPLE_INVERSE_MULTIPLIER, TRIPLE_ADDEND), STATES, x)
  {
    var i2, b2 := DOUBLE_INVERSE_MULTIPLIER, BackOffset(DOUBLE_INVERSE_MULTIPLIER, DOUBLE_ADDEND);
    var i3, b3 := TRIPLE_INVERSE_MULTIPLIER, BackOffset(TRIPLE_INVERSE_MULTIPLIER, TRIPLE_ADDEND);
    RepeatTwiceThrice(INVERSE_MULTIPLIER, BackAddend(), x);
    BackResidues();
    Composition(INVERSE_MULTIPLIER, BackAddend(), INVERSE_MULTIPLIER, BackAddend(), i2, b2, x);
    Composition(INVERSE_MULTIPLIER, BackAddend(), i2, b2, i3, b3, x);
  }

  lemma BackResidues()
    ensures (INVERSE_MULTIPLIER * INVERSE_MULTIPLIER) % STATES == DOUBLE_INVERSE_MULTIPLIER % STATES
    ensures (INVERSE_MULTIPLIER * BackAddend() + BackAddend()) % STATES
         == BackOffset(DOUBLE_INVERSE_MULTIPLIER, DOUBLE_ADDEND) % STATES
    ensures (INVERSE_MULTIPLIER * DOUBLE_INVERSE_MULTIPLIER) % STATES == TRIPLE_INVERSE_MULTIPLIER % STATES
    ensures (INVERSE_MULTIPLIER * BackOffset(DOUBLE_INVERSE_MULTIPLIER, DOUBLE_ADDEND) + BackAddend()) % STATES
         == BackOffset(TRIPLE_INVERSE_MULTIPLIER, TRIPLE_ADDEND) % STATES
  {
    BackFactors();
    BackOffsetOfTwo();
    BackOffsetOfThree();
  }

  lemma BackFactors()
    ensures (INVERSE_MULTIPLIER * INVERSE_MULTIPLIER) % STATES == DOUBLE_INVERSE_MULTIPLIER % STATES
    ensures (INVERSE_MULTIPLIER * DOUBLE_INVERSE_MULTIPLIER) % STATES == TRIPLE_INVERSE_MULTIPLIER % STATES
  {}

  lemma BackOffsetOfTwo()
    ensures (INVERSE_MULTIPLIER * BackAddend() + BackAddend()) % STATES
         == BackOffset(DOUBLE_INVERSE_MULTIPLIER, DOUBLE_ADDEND) % STATES
  {}

  lemma BackOffsetOfThree()
    ensures (INVERSE_MULTIPLIER * BackOffset(DOUBLE_INVERSE_MULTIPLIER, DOUBLE_ADDEND) + BackAddend()) % STATES
         == BackOffset(TRIPLE_INVERSE_MULTIPLIER, TRIPLE_ADDEND) % STATES
  {}

  lemma RepeatTwiceThrice(a: int, c: int, x: int)
    ensures Repeat(2, a, c, STATES, x) == Affine(a, c, STATES, Affine(a, c, STATES, x))
    ensures Repeat(3, a, c, STATES, x) == Affine(a, c, STATES, Repeat(2, a, c, STATES, x))
  {
    assert Repeat(1, a, c, STATES, x) == Affine(a, c, STATES, x);
  }

  // ---------------------------------------------------------------------------------------
  // Period
  // ---------------------------------------------------------------------------------------

  /** From any 48-bit state the generator returns after exactly 2^48 steps, not before. */
  lemma PeriodIs48Bits(n: nat, seed: Int64)
    requires 0 <= seed < STATES
    ensures Steps(n, seed) == seed <==> n % STATES == 0
  {
    StepsAreRepeats(n, seed);
    LcgFullPeriod(n, seed);
  }

  lemma LcgFullPeriod(n: nat, x: int)
    requires 0 <= x < STATES
    ensures Repeat(n, MULTIPLIER, ADDEND, STATES, x) == x <==> n % STATES == 0
  {
    Pow2Is48();
    FullPeriod(n, 48, MULTIPLIER, ADDEND, x);
  }

  /** In one period it meets every 48-bit state. */
  lemma VisitsEveryState(seed: Int64, target: nat) returns (n: nat)
    requires 0 <= seed < STATES && target < STATES
    ensures n < STATES && Steps(n, seed) == target
  {
    Pow2Is48();
    n := ReachesAll(48, MULTIPLIER, ADDEND, seed, target);
    StepsAreRepeats(n, seed);
  }
}
