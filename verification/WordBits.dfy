/** Single bits of 64-bit words. */
module WordBits {

  type Word = bv64

  function Narrow(a: nat): bv7
    requires a < 64
  {
    a as bv7
  }

  function Wide(s: bv7): nat { s as nat }

  lemma NarrowWide(a: nat)
    requires a < 64
    ensures Wide(Narrow(a)) == a && Narrow(a) < 64
  {}

  /** The shift amount that a bit index stands for: its low six bits. */
  function Shift(k: nat): (s: bv7)
    ensures s < 64
  {
    NarrowWide(k % 64);
    Narrow(k % 64)
  }

  function Bit(s: bv7): Word
    requires s < 64
  {
    1 << s
  }

  function Or(w: Word, m: Word): Word { w | m }

  predicate Meets(w: Word, m: Word) { w & m != 0 }

  predicate HasBit(w: Word, k: nat) {
    Meets(w, Bit(Shift(k)))
  }

  function SetBit(w: Word, k: nat): Word {
    Or(w, Bit(Shift(k)))
  }

  lemma RawSetBit(w: Word, i: bv7, j: bv7)
    requires i < 64 && j < 64
    ensures Meets(w | (1 << i), 1 << j) <==> i == j || Meets(w, 1 << j)
  {
    RawMask(w, i, j);
  }

  lemma RawMask(w: Word, i: bv7, j: bv7)
    requires i < 64 && j < 64
    ensures ((w | (1 << i)) & (1 << j) != 0) <==> i == j || w & (1 << j) != 0
  {}

  lemma RawOr(w: Word, i: bv7)
    requires i < 64
    ensures Or(w, 1 << i) == w | (1 << i)
  {}

  lemma SetBitAt(w: Word, i: bv7, j: bv7)
    requires i < 64 && j < 64
    ensures Meets(Or(w, Bit(i)), Bit(j)) <==> i == j || Meets(w, Bit(j))
  {
    RawOr(w, i);
    RawSetBit(w, i, j);
  }

  lemma ShiftInjective(i: nat, j: nat)
    ensures Shift(i) == Shift(j) <==> i % 64 == j % 64
  {
    NarrowWide(i % 64);
    NarrowWide(j % 64);
  }

  lemma RawMeets(w: Word, i: bv7)
    requires i < 64
    ensures Meets(w, 1 << i) <==> (w >> i) & 1 == 1
  {}

  /** Bit k of a word is the lowest one after a shift to the right by k modulo 64. */
  lemma HasBitIs(w: Word, k: nat)
    ensures HasBit(w, k) <==> (w >> Shift(k)) & 1 == 1
    ensures Wide(Shift(k)) == k % 64
  {
    NarrowWide(k % 64);
    RawMeets(w, Shift(k));
  }

  /** Setting bit i changes bit i only. */
  lemma SetBitSetsOne(w: Word, i: nat, j: nat)
    ensures HasBit(SetBit(w, i), j) <==> i % 64 == j % 64 || HasBit(w, j)
  {
    ShiftInjective(i, j);
    SetBitAt(w, Shift(i), Shift(j));
  }

  lemma ZeroMeetsNothing(m: Word)
    ensures !Meets(0, m)
  {}

  lemma ZeroHasNoBit(k: nat)
    ensures !HasBit(0, k)
  {
    ZeroMeetsNothing(Bit(Shift(k)));
  }

  lemma SetBitNonZero(w: Word, k: nat)
    ensures SetBit(w, k) != 0
  {
    SetBitSetsOne(w, k, k);
    ZeroHasNoBit(k);
  }
}
