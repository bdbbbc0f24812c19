/**
The words of the 64-bit Mersenne Twister: the twist that mixes two neighbouring words of the
table, and the tempering of an output word.  Both are linear over exclusive or, the tempering
is a bijection and the twist loses none of the bits it reads.

Lemmas named Raw... spell one argument out in machine operations, so that the solver can
rewrite it; the lemma after each of them lifts the fact to the named functions.
*/
module TwisterWords {

  type Word = bv64

  function Xor(a: Word, b: Word): Word {
    a ^ b
  }

  // Most significant 33 bits and least significant 31 bits.
  function Upper(a: Word): Word { a & 0xFFFFFFFF80000000 }
  function Lower(a: Word): Word { a & 0x7FFFFFFF }

  function Join(a: Word, b: Word): Word {
    Upper(a) | Lower(b)
  }

  function Mag01(x: Word): Word {
    if x & 1 == 0 then 0 else 0xB5026F5AA96619E9
  }

  function Half(x: Word): Word { x >> 1 }

  function Fold(x: Word): Word {
    Xor(Half(x), Mag01(x))
  }

  function Twist(a: Word, b: Word): Word {
    Fold(Join(a, b))
  }

  function Temper1(x: Word): Word { x ^ ((x >> 29) & 0x5555555555555555) }
  function Temper2(x: Word): Word { x ^ ((x << 17) & 0x71D67FFFEDA60000) }
  function Temper3(x: Word): Word { x ^ ((x << 37) & 0xFFF7EEE000000000) }
  function Temper4(x: Word): Word { x ^ (x >> 43) }

  function Temper(x: Word): Word {
    Temper4(Temper3(Temper2(Temper1(x))))
  }

  function Untemper1(y: Word): Word {
    y ^ (((y ^ ((y >> 29) & 0x5555555555555555)) >> 29) & 0x5555555555555555)
  }

  function Untemper2(y: Word): Word {
    y ^ (((y ^ (((y ^ ((y << 17) & 0x71D67FFFEDA60000)) << 17) & 0x71D67FFFEDA60000)) << 17) & 0x71D67FFFEDA60000)
  }

  /** The inverse of Temper; the last two steps are their own inverses. */
  function Untemper(y: Word): Word {
    Untemper1(Untemper2(Temper3(Temper4(y))))
  }

  // ---------------------------------------------------------------------------------------
  // Exclusive or
  // ---------------------------------------------------------------------------------------

  lemma XorCancel(a: Word, b: Word)
    ensures Xor(Xor(a, b), b) == a
  {
    RawXorCancel(a, b);
  }

  lemma RawXorCancel(a: Word, b: Word)
    ensures Xor(a ^ b, b) == a
  {}

  lemma XorExchange(a: Word, b: Word, c: Word, d: Word)
    ensures Xor(Xor(a, b), Xor(c, d)) == Xor(Xor(a, c), Xor(b, d))
  {
    RawXorExchange(a, b, c, d);
  }

  lemma RawXorExchange(a: Word, b: Word, c: Word, d: Word)
    ensures Xor(a ^ b, c ^ d) == Xor(a ^ c, b ^ d)
  {}

  // ---------------------------------------------------------------------------------------
  // Tempering
  // ---------------------------------------------------------------------------------------

  lemma RawInverse(x: Word)
    ensures Untemper1(x ^ ((x >> 29) & 0x5555555555555555)) == x
    ensures Untemper2(x ^ ((x << 17) & 0x71D67FFFEDA60000)) == x
    ensures Temper3(x ^ ((x << 37) & 0xFFF7EEE000000000)) == x
    ensures Temper4(x ^ (x >> 43)) == x
  {}

  lemma RawInverse1(y: Word)
    ensures Temper1(y ^ (((y ^ ((y >> 29) & 0x5555555555555555)) >> 29) & 0x5555555555555555)) == y
  {}

  lemma RawInverse2(y: Word)
    ensures Temper2(y ^ (((y ^ (((y ^ ((y << 17) & 0x71D67FFFEDA60000)) << 17)
                                & 0x71D67FFFEDA60000)) << 17) & 0x71D67FFFEDA60000)) == y
  {}

  lemma StepInverse(x: Word)
    ensures Untemper1(Temper1(x)) == x && Temper1(Untemper1(x)) == x
    ensures Untemper2(Temper2(x)) == x && Temper2(Untemper2(x)) == x
    ensures Temper3(Temper3(x)) == x
    ensures Temper4(Temper4(x)) == x
  {
    RawInverse(x);
    RawInverse1(x);
    RawInverse2(x);
  }

  /** Tempering is a bijection on 64-bit words. */
  lemma TemperBijective(x: Word)
    ensures Untemper(Temper(x)) == x
    ensures Temper(Untemper(x)) == x
  {
    StepInverse(x);
    StepInverse(Temper1(x));
    StepInverse(Temper2(Temper1(x)));
    StepInverse(Temper3(Temper2(Temper1(x))));
    StepInverse(Temper4(x));
    StepInverse(Temper3(Temper4(x)));
    StepInverse(Untemper2(Temper3(Temper4(x))));
  }

  lemma RawLinear(x: Word, y: Word)
    ensures Temper1(x ^ y) == Xor(x ^ ((x >> 29) & 0x5555555555555555), y ^ ((y >> 29) & 0x5555555555555555))
    ensures Temper2(x ^ y) == Xor(x ^ ((x << 17) & 0x71D67FFFEDA60000), y ^ ((y << 17) & 0x71D67FFFEDA60000))
    ensures Temper3(x ^ y) == Xor(x ^ ((x << 37) & 0xFFF7EEE000000000), y ^ ((y << 37) & 0xFFF7EEE000000000))
    ensures Temper4(x ^ y) == Xor(x ^ (x >> 43), y ^ (y >> 43))
  {}

  lemma StepLinear(x: Word, y: Word)
    ensures Temper1(Xor(x, y)) == Xor(Temper1(x), Temper1(y))
    ensures Temper2(Xor(x, y)) == Xor(Temper2(x), Temper2(y))
    ensures Temper3(Xor(x, y)) == Xor(Temper3(x), Temper3(y))
    ensures Temper4(Xor(x, y)) == Xor(Temper4(x), Temper4(y))
  {
    RawLinear(x, y);
  }

  lemma TemperLinear(x: Word, y: Word)
    ensures Temper(Xor(x, y)) == Xor(Temper(x), Temper(y))
  {
    StepLinear(x, y);
    StepLinear(Temper1(x), Temper1(y));
    StepLinear(Temper2(Temper1(x)), Temper2(Temper1(y)));
    StepLinear(Temper3(Temper2(Temper1(x))), Temper3(Temper2(Temper1(y))));
  }

  // ---------------------------------------------------------------------------------------
  // Twisting
  // ---------------------------------------------------------------------------------------

  lemma RawFoldLinear(x: Word, y: Word)
    ensures Half(x ^ y) == Xor(x >> 1, y >> 1)
    ensures Mag01(x ^ y) == Xor(Mag01(x), Mag01(y))
  {}

  lemma FoldLinear(x: Word, y: Word)
    ensures Fold(Xor(x, y)) == Xor(Fold(x), Fold(y))
  {
    RawFoldLinear(x, y);
    XorExchange(Half(x), Mag01(x), Half(y), Mag01(y));
  }

  lemma RawJoinLinear(a: Word, b: Word, c: Word, d: Word)
    ensures ((a ^ c) & 0xFFFFFFFF80000000) | ((b ^ d) & 0x7FFFFFFF)
         == ((a & 0xFFFFFFFF80000000) | (b & 0x7FFFFFFF)) ^ ((c & 0xFFFFFFFF80000000) | (d & 0x7FFFFFFF))
  {}

  lemma XorIs(a: Word, b: Word)
    ensures Xor(a, b) == a ^ b
  {}

  lemma JoinIs(a: Word, b: Word)
    ensures Join(a, b) == (a & 0xFFFFFFFF80000000) | (b & 0x7FFFFFFF)
  {}

  /** The same about named words, so that no definition is left to unfold. */
  lemma NamedJoinLinear(a: Word, b: Word, c: Word, d: Word, ac: Word, bd: Word, ab: Word, cd: Word)
    ensures && ac == a ^ c && bd == b ^ d
            && ab == (a & 0xFFFFFFFF80000000) | (b & 0x7FFFFFFF)
            && cd == (c & 0xFFFFFFFF80000000) | (d & 0x7FFFFFFF)
            ==> Join(ac, bd) == Xor(ab, cd)
  {
    RawJoinLinear(a, b, c, d);
  }

  lemma RawJoinParts(a: Word, b: Word)
    ensures Upper((a & 0xFFFFFFFF80000000) | (b & 0x7FFFFFFF)) == Upper(a)
    ensures Lower((a & 0xFFFFFFFF80000000) | (b & 0x7FFFFFFF)) == Lower(b)
  {}

  lemma JoinLinear(a: Word, b: Word, c: Word, d: Word)
    ensures Join(Xor(a, c), Xor(b, d)) == Xor(Join(a, b), Join(c, d))
  {
    XorIs(a, c);
    XorIs(b, d);
    JoinIs(a, b);
    JoinIs(c, d);
    NamedJoinLinear(a, b, c, d, Xor(a, c), Xor(b, d), Join(a, b), Join(c, d));
  }

  lemma TwistLinear(a: Word, b: Word, c: Word, d: Word)
    ensures Twist(Xor(a, c), Xor(b, d)) == Xor(Twist(a, b), Twist(c, d))
  {
    JoinLinear(a, b, c, d);
    FoldLinear(Join(a, b), Join(c, d));
  }

  lemma FoldInjective(x: Word, y: Word)
    requires Fold(x) == Fold(y)
    ensures x == y
  {}

  lemma JoinParts(a: Word, b: Word)
    ensures Upper(Join(a, b)) == Upper(a)
    ensures Lower(Join(a, b)) == Lower(b)
  {
    RawJoinParts(a, b);
  }

  /** The twist loses nothing: it determines the upper and the lower bits it was fed. */
  lemma TwistInjective(a: Word, b: Word, c: Word, d: Word)
    requires Twist(a, b) == Twist(c, d)
    ensures Upper(a) == Upper(c) && Lower(b) == Lower(d)
  {
    FoldInjective(Join(a, b), Join(c, d));
    JoinParts(a, b);
    JoinParts(c, d);
  }

  lemma TwistReadsUpper(a: Word, b: Word, c: Word)
    requires Upper(a) == Upper(b)
    ensures Twist(a, c) == Twist(b, c)
  {}

  lemma SplitWord(a: Word, b: Word)
    ensures a == b <==> Upper(a) == Upper(b) && Lower(a) == Lower(b)
  {}
}
