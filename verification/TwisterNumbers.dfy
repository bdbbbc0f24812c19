/**
The generator in numbers: the recurrence, the tempering and the seeding written out with the
constants and shifts, and what a single word of the table contributes to the first new word.
*/
module TwisterNumbers {
  import opened TwisterWords
  import opened LaggedRecurrence
  import opened TablePasses
  import opened PassTheorems
  import opened MersenneTwister

  /** The matrix word, for odd words only. */
  function Selected(y: Word): Word {
    if y & 1 == 0 then 0 else 0xB5026F5AA96619E9
  }

  lemma TwistInNumbers(b: Word, c: Word, y: Word)
    requires y == (b & 0xFFFFFFFF80000000) | (c & 0x7FFFFFFF)
    ensures Twist(b, c) == Xor(y >> 1, Selected(y))
  {
    JoinIs(b, c);
    FoldInNumbers(y);
  }

  lemma FoldInNumbers(y: Word)
    ensures Fold(y) == Xor(y >> 1, Selected(y))
  {
    assert Mag01(y) == Selected(y);
  }

  /** Word k + 312 from the words k + 156, k and k + 1. */
  lemma RecurrenceInNumbers(s: Table, k: nat, y: Word)
    requires y == (X(Next, s, k) & 0xFFFFFFFF80000000) | (X(Next, s, k + 1) & 0x7FFFFFFF)
    ensures X(Next, s, k + 312) == Xor(X(Next, s, k + 156), Xor(y >> 1, Selected(y)))
  {
    TwistInNumbers(X(Next, s, k), X(Next, s, k + 1), y);
    var m := k + NN;
    assert X(Next, s, m) == Next(X(Next, s, m - NN + MM), X(Next, s, m - NN), X(Next, s, m - NN + 1));
  }

  // ---------------------------------------------------------------------------------------
  // Single words
  // ---------------------------------------------------------------------------------------

  /** The table that is zero except for one word. */
  function Single(w: Word, k: nat): (t: Table)
    requires k < 312
    ensures forall i | 0 <= i < 312 :: t[i] == if i == k then w else 0
  {
    seq(NN, i requires 0 <= i < NN => if i == k then w else 0)
  }

  lemma RawHigh(w: Word)
    ensures (((w & 0xFFFFFFFF80000000) | (0 & 0x7FFFFFFF)) >> 1) == (w & 0xFFFFFFFF80000000) >> 1
    ensures Selected((w & 0xFFFFFFFF80000000) | (0 & 0x7FFFFFFF)) == 0
  {}

  lemma RawLow(w: Word)
    ensures (((0 & 0xFFFFFFFF80000000) | (w & 0x7FFFFFFF)) >> 1) == (w & 0x7FFFFFFF) >> 1
  {}

  lemma RawLowest(w: Word)
    ensures Selected((0 & 0xFFFFFFFF80000000) | (w & 0x7FFFFFFF)) == Selected(w)
  {}

  lemma ZeroIsNeutral(w: Word)
    ensures Xor(w, 0) == w && Xor(0, w) == w
  {}

  lemma TwistOfHigh(w: Word)
    ensures Twist(w, 0) == (w & 0xFFFFFFFF80000000) >> 1
  {
    TwistInNumbers(w, 0, (w & 0xFFFFFFFF80000000) | (0 & 0x7FFFFFFF));
    RawHigh(w);
    ZeroIsNeutral((w & 0xFFFFFFFF80000000) >> 1);
  }

  lemma TwistOfLow(w: Word)
    ensures Twist(0, w) == Xor((w & 0x7FFFFFFF) >> 1, Selected(w))
  {
    TwistInNumbers(0, w, (0 & 0xFFFFFFFF80000000) | (w & 0x7FFFFFFF));
    RawLow(w);
    RawLowest(w);
  }

  lemma TwistOfZero()
    ensures Twist(0, 0) == 0
  {}

  /** Word 156 goes into the first new word as it is, words 0 and 1 through the twist, no other one at all. */
  lemma SingleWordResponse(w: Word, k: nat)
    requires k < 312
    ensures X(Next, Single(w, k), 312)
         == if k == 156 then w
            else if k == 0 then (w & 0xFFFFFFFF80000000) >> 1
            else if k == 1 then Xor((w & 0x7FFFFFFF) >> 1, if w & 1 == 0 then 0 else 0xB5026F5AA96619E9)
            else 0
  {
    assert Selected(w) == if w & 1 == 0 then 0 else 0xB5026F5AA96619E9;
    var t := Single(w, k);
    assert X(Next, t, 312) == Xor(t[156], Twist(t[0], t[1]));
    TwistOfHigh(w);
    TwistOfLow(w);
    TwistOfZero();
    ZeroIsNeutral(w);
    ZeroIsNeutral(Twist(t[0], t[1]));
  }

  // ---------------------------------------------------------------------------------------
  // Outputs
  // ---------------------------------------------------------------------------------------

  lemma FirstStep(x: Word, y: Word)
    requires y == x ^ ((x >> 29) & 0x5555555555555555)
    ensures Temper1(x) == y
  {}

  lemma SecondStep(y: Word, z: Word)
    requires z == y ^ ((y << 17) & 0x71D67FFFEDA60000)
    ensures Temper2(y) == z
  {}

  lemma ThirdStep(z: Word, u: Word)
    requires u == z ^ ((z << 37) & 0xFFF7EEE000000000)
    ensures Temper3(z) == u
  {}

  lemma FourthStep(u: Word, v: Word)
    requires v == u ^ (u >> 43)
    ensures Temper4(u) == v
  {}

  lemma FourSteps(x: Word, y: Word, z: Word, u: Word, v: Word)
    requires Temper1(x) == y && Temper2(y) == z && Temper3(z) == u && Temper4(u) == v
    ensures Temper(x) == v
  {}

  /** An output v, from the recurrence word x behind it, by the four tempering steps. */
  lemma DrawInNumbers(st: State<Word>, n: nat, x: Word, y: Word, z: Word, u: Word, v: Word)
    requires st.Valid() && x == X(Next, st.mt, st.mti + n)
    requires y == x ^ ((x >> 29) & 0x5555555555555555)
    requires z == y ^ ((y << 17) & 0x71D67FFFEDA60000)
    requires u == z ^ ((z << 37) & 0xFFF7EEE000000000)
    requires v == u ^ (u >> 43)
    ensures Draw(st, n) == v
  {
    FirstStep(x, y);
    SecondStep(y, z);
    ThirdStep(z, u);
    FourthStep(u, v);
    FourSteps(x, y, z, u, v);
    DrawIsRecurrence(st, n);
  }

  // ---------------------------------------------------------------------------------------
  // Seeding
  // ---------------------------------------------------------------------------------------

  lemma SeedFoldInNumbers(t: Word, f: Word)
    requires f == t ^ (t >> 62)
    ensures SeedFold(t) == f
  {}

  lemma SeedScaleInNumbers(f: Word, v: Word)
    requires v == 6364136223846793005 * f + 1
    ensures SeedScale(f) == v
  {}

  /** The seed is word 0, and every word t makes the next, v. */
  lemma SeedInNumbers(seed: Word, i: nat, t: Word, f: Word, v: Word)
    requires i + 1 < 312 && t == SeedTable(seed)[i]
    requires f == t ^ (t >> 62) && v == 6364136223846793005 * f + 1
    ensures SeedTable(seed)[0] == seed && SeedTable(seed)[i + 1] == v
  {
    SeedFoldInNumbers(t, f);
    SeedScaleInNumbers(f, v);
    assert SeedTable(seed)[i + 1] == SeedNext(t);
  }

  lemma KeyStirInNumbers(p: Word, f: Word)
    requires f == (p ^ (p >> 62)) * 3935559000370003845
    ensures KeyStir(p) == f
  {}

  lemma IndexStirInNumbers(p: Word, f: Word)
    requires f == (p ^ (p >> 62)) * 2862933555777941757
    ensures IndexStir(p) == f
  {}

  lemma XorInNumbers(a: Word, b: Word, x: Word)
    requires x == a ^ b
    ensures Xor(a, b) == x
  {}

  lemma SumInNumbers(x: Word, key: Word, c: Word, v: Word)
    requires v == x + key + c
    ensures Sum(x, key, c) == v
  {}

  lemma TakeIndexInNumbers(was: Word, f: Word, c: Word, v: Word)
    requires v == (was ^ f) - c
    ensures TakeIndex(was, f, c) == v
  {}

  /** A step of the first pass. */
  lemma KeyMixInNumbers(was: Word, p: Word, key: Word, j: nat, f: Word, x: Word, c: Word, v: Word)
    requires c == (j % 0x1_0000_0000) as Word
    requires f == (p ^ (p >> 62)) * 3935559000370003845
    requires x == was ^ f && v == x + key + c
    ensures KeyMix(was, p, key, j) == v
  {
    KeyStirInNumbers(p, f);
    XorInNumbers(was, f, x);
    SumInNumbers(x, key, c, v);
  }

  /** A step of the second pass. */
  lemma IndexMixInNumbers(was: Word, p: Word, i: nat, f: Word, c: Word, v: Word)
    requires c == (i % 0x1_0000_0000) as Word
    requires f == (p ^ (p >> 62)) * 2862933555777941757
    requires v == (was ^ f) - c
    ensures IndexMix(was, p, i) == v
  {
    IndexStirInNumbers(p, f);
    TakeIndexInNumbers(was, f, c, v);
  }

  /** Both passes start from the table of seed 19650218, and word 0 ends with its top bit alone. */
  lemma KeyTableInNumbers(key: seq<Word>)
    requires key != []
    ensures KeyedPass(key) == KeyPass(KeyMix, SeedTable(19650218), key, 1, 0, if |key| > 312 then |key| else 312)
    ensures KeyTable(key)[0] == 0x8000000000000000
    ensures forall m | 0 < m < 312 ::
              KeyTable(key)[m] == IndexPass(IndexMix, KeyedPass(key).0, KeyedPass(key).1, 311)[m]
  {}
}
