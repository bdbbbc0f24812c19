/** initialScramble: how java.util.Random turns a seed into a 48-bit state. */
module Scramble {

  function Low48(x: bv64): bv64 { x & 0xFFFF_FFFF_FFFF }

  function InitialScramble(seed: bv64): bv64 { Low48(seed ^ 0x5_DEEC_E66D) }

  lemma RawTwice(seed: bv64)
    ensures (((seed ^ 0x5_DEEC_E66D) & 0xFFFF_FFFF_FFFF) ^ 0x5_DEEC_E66D) & 0xFFFF_FFFF_FFFF
         == seed & 0xFFFF_FFFF_FFFF
  {}

  lemma RawLow(seed: bv64)
    ensures ((seed & 0xFFFF_FFFF_FFFF) ^ 0x5_DEEC_E66D) & 0xFFFF_FFFF_FFFF
         == (seed ^ 0x5_DEEC_E66D) & 0xFFFF_FFFF_FFFF
  {}

  /** Scrambling twice leaves the low 48 bits: on states it undoes itself. */
  lemma ScrambleTwice(seed: bv64)
    ensures InitialScramble(InitialScramble(seed)) == Low48(seed)
  {
    RawTwice(seed);
  }

  /** Two seeds start the same sequence exactly when they agree in their low 48 bits. */
  lemma SameStateIff(s: bv64, t: bv64)
    ensures InitialScramble(s) == InitialScramble(t) <==> Low48(s) == Low48(t)
  {
    ScrambleTwice(s);
    ScrambleTwice(t);
    RawLow(s);
    RawLow(t);
    assert InitialScramble(Low48(s)) == InitialScramble(s);
    assert InitialScramble(Low48(t)) == InitialScramble(t);
  }

  lemma RawDifference(s: bv64, t: bv64)
    ensures ((s ^ t) ^ 0x5_DEEC_E66D) & 0xFFFF_FFFF_FFFF
         == ((s ^ 0x5_DEEC_E66D) & 0xFFFF_FFFF_FFFF) ^ (t & 0xFFFF_FFFF_FFFF)
  {}

  /** Differences are kept, and the seed zero gives the multiplier itself; this fixes the whole map. */
  lemma ScrambleDifference(s: bv64, t: bv64)
    ensures InitialScramble(0) == 0x5_DEEC_E66D
    ensures InitialScramble(s ^ t) == InitialScramble(s) ^ Low48(t)
  {
    RawDifference(s, t);
  }
}
