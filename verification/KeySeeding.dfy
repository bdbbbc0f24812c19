/**
What seeding keeps apart.  Two seeds never start the same stream.  Two keys of one length never do
exactly when that length is at most 310: the first pass takes 312 steps over 311 words, which lets
longer keys make up for a change.
*/
module KeySeeding {
  import opened TwisterWords
  import opened LaggedRecurrence
  import opened TablePasses
  import opened PassTheorems
  import opened MersenneTwister

  lemma TablesDiffer(s: Table, t: Table, i: nat)
    requires 0 < i < NN && s[i] != t[i]
    ensures Draws(State(s, NN), 0) != Draws(State(t, NN), 0)
  {
    StreamsEqualIff(s, t, NN);
    assert s[1..][i - 1] != t[1..][i - 1];
  }

  // ---------------------------------------------------------------------------------------
  // Seeds
  // ---------------------------------------------------------------------------------------

  function Unscaled(y: Word): Word { (y - 1) * 13877824140714322085 }

  lemma RawUnscaled(x: Word)
    ensures Unscaled(6364136223846793005 * x + 1) == x
  {}

  lemma RawUnfolded(p: Word)
    ensures SeedFold(p ^ (p >> 62)) == p
  {}

  /** A seeding step can be undone. */
  lemma SeedStepInverse(p: Word)
    ensures SeedFold(Unscaled(SeedNext(p))) == p
  {
    ScaleInverse(SeedFold(p));
    FoldInverse(p);
  }

  lemma ScaleInverse(x: Word)
    ensures Unscaled(SeedScale(x)) == x
  {
    RawUnscaled(x);
  }

  lemma FoldInverse(p: Word)
    ensures SeedFold(SeedFold(p)) == p
  {
    RawUnfolded(p);
  }

  /** Different seeds start different streams, and 312 draws show it. */
  lemma SeedsDiffer(s: Word, t: Word)
    requires s != t
    ensures Draws(State(SeedTable(s), NN), 0) != Draws(State(SeedTable(t), NN), 0)
  {
    SeedStepInverse(s);
    SeedStepInverse(t);
    assert SeedTable(s)[1] == SeedNext(SeedTable(s)[0]) && SeedTable(t)[1] == SeedNext(SeedTable(t)[0]);
    TablesDiffer(SeedTable(s), SeedTable(t), 1);
  }

  // ---------------------------------------------------------------------------------------
  // What a step of either pass keeps
  // ---------------------------------------------------------------------------------------

  function GiveIndex(w: Word, f: Word, c: Word): Word { (w + c) ^ f }

  lemma RawGiveIndex(w: Word, f: Word, c: Word)
    ensures GiveIndex((w ^ f) - c, f, c) == w
  {}

  lemma IndexInverse(w: Word, f: Word, c: Word)
    ensures GiveIndex(TakeIndex(w, f, c), f, c) == w
  {
    RawGiveIndex(w, f, c);
  }

  lemma IndexMixUndone()
    ensures Undone(IndexMix)
  {
    forall w, w', p, i: nat | IndexMix(w, p, i) == IndexMix(w', p, i) ensures w == w' {
      IndexInverse(w, IndexStir(p), IndexWord(i));
      IndexInverse(w', IndexStir(p), IndexWord(i));
    }
  }

  function KeyOf(out: Word, x: Word, c: Word): Word { (out - x) - c }

  lemma RawKeyOf(x: Word, k: Word, c: Word)
    ensures KeyOf(x + k + c, x, c) == k
    ensures Sum(x, (k - x) - c, c) == k
  {}

  lemma KeyInverse(x: Word, k: Word, c: Word)
    ensures KeyOf(Sum(x, k, c), x, c) == k
    ensures Sum(x, KeyOf(k, x, c), c) == k
  {
    RawKeyOf(x, k, c);
  }

  lemma KeyMixShows()
    ensures KeyShows(KeyMix)
  {
    forall w, p, k, k', j: nat | KeyMix(w, p, k, j) == KeyMix(w, p, k', j) ensures k == k' {
      KeyInverse(Xor(w, KeyStir(p)), k, IndexWord(j));
      KeyInverse(Xor(w, KeyStir(p)), k', IndexWord(j));
    }
  }

  function Solution(w: Word, p: Word, out: Word, j: nat): Word {
    KeyOf(out, Xor(w, KeyStir(p)), IndexWord(j))
  }

  lemma KeyMixSolves()
    ensures Solves(KeyMix, Solution)
  {
    forall w, p, out, j: nat ensures KeyMix(w, p, Solution(w, p, out, j), j) == out {
      KeyInverse(Xor(w, KeyStir(p)), out, IndexWord(j));
    }
  }

  // ---------------------------------------------------------------------------------------
  // Short keys
  // ---------------------------------------------------------------------------------------

  /** Tables that start the same stream are the same, but for word 0. */
  lemma SameStreamSameWords(s: Table, t: Table)
    ensures Draws(State(s, NN), 0) == Draws(State(t, NN), 0) ==> SameWords(s, t)
  {
    StreamsEqualIff(s, t, NN);
    if SameEntropy(s, t) {
      forall m | 0 < m < NN ensures s[m] == t[m] {
        assert s[1..][m - 1] == t[1..][m - 1];
      }
    }
  }

  lemma TopBitIsAlone(key: seq<Word>, p: (Table, nat))
    requires key != [] && 0 < p.1 < NN
    ensures p == KeyedPass(key) ==> SameWords(KeyTable(key), IndexPass(IndexMix, p.0, p.1, NN - 1))
  {}

  /** Different keys of one length of at most 310 words start different streams. */
  lemma ShortKeysDiffer(a: seq<Word>, b: seq<Word>)
    requires 0 < |a| == |b| <= NN - 2 && a != b
    ensures Draws(State(KeyTable(a), NN), 0) != Draws(State(KeyTable(b), NN), 0)
  {
    if Draws(State(KeyTable(a), NN), 0) == Draws(State(KeyTable(b), NN), 0) {
      SameStreamSameWords(KeyTable(a), KeyTable(b));
      TopBitIsAlone(a, KeyedPass(a));
      TopBitIsAlone(b, KeyedPass(b));
      IndexMixUndone();
      KeyMixShows();
      ShortPass(KeyMix, SeedTable(KEY_SEED), a);
      ShortPass(KeyMix, SeedTable(KEY_SEED), b);
      AgainStays(KeyMix, IndexMix, SeedTable(KEY_SEED), a, b, NN - 1);
    }
  }

  // ---------------------------------------------------------------------------------------
  // Long keys
  // ---------------------------------------------------------------------------------------

  function Turned(k: Word): Word { k + 0x8000000000000000 }

  lemma RawTurnedXor(w: Word, f: Word)
    ensures Xor(w + 0x8000000000000000, f) == (w ^ f) + 0x8000000000000000
    ensures w + 0x8000000000000000 != w
  {}

  lemma RawTurnedSum(x: Word, k: Word, c: Word)
    ensures Sum(x, k + 0x8000000000000000, c) == (x + k + c) + 0x8000000000000000
    ensures Sum(x + 0x8000000000000000, k + 0x8000000000000000, c) == x + k + c
  {}

  lemma TurnedXor(w: Word, f: Word)
    ensures Xor(Turned(w), f) == Turned(Xor(w, f)) && Turned(w) != w
  {
    RawTurnedXor(w, f);
  }

  lemma TurnedSum(x: Word, k: Word, c: Word)
    ensures Sum(x, Turned(k), c) == Turned(Sum(x, k, c))
    ensures Sum(Turned(x), Turned(k), c) == Sum(x, k, c)
  {
    RawTurnedSum(x, k, c);
  }

  /** Turning the top bit of the key turns that of the word, and turning both cancels out. */
  lemma TopBitTurns(w: Word, p: Word, k: Word, j: nat)
    ensures KeyMix(w, p, Turned(k), j) == Turned(KeyMix(w, p, k, j))
    ensures KeyMix(Turned(w), p, Turned(k), j) == KeyMix(w, p, k, j)
    ensures Turned(k) != k
  {
    TurnedXor(w, KeyStir(p));
    TurnedXor(k, 0);
    TurnedSum(Xor(w, KeyStir(p)), k, IndexWord(j));
  }

  /** A key of 311 words whose first two words differ and whose table does not. */
  function TurnedKey(s: Table, a: seq<Word>): (b: seq<Word>)
    requires |a| == NN - 1
    ensures |b| == |a| && b[0] == Turned(a[0])
  {
    a[0 := Turned(a[0])][1 := Solution(s[2], Turned(Round(KeyMix, s, a, 1)), Round(KeyMix, s, a, 2), 1)]
  }

  lemma TurnedKeyRounds(s: Table, a: seq<Word>)
    requires |a| == NN - 1
    ensures Round(KeyMix, s, TurnedKey(s, a), 1) == Turned(Round(KeyMix, s, a, 1))
    ensures Round(KeyMix, s, TurnedKey(s, a), 2) == Round(KeyMix, s, a, 2)
  {
    var b := TurnedKey(s, a);
    assert KeyAt(0, NN - 1) == 0;
    KeyAtStart(1, NN - 1);
    TopBitTurns(s[1], s[0], a[0], 0);
    assert Round(KeyMix, s, b, 1) == KeyMix(s[1], s[0], b[0], 0);
    assert Round(KeyMix, s, a, 1) == KeyMix(s[1], s[0], a[0], 0);
    KeyMixSolves();
    assert Round(KeyMix, s, b, 2) == KeyMix(s[2], Round(KeyMix, s, b, 1), b[1], 1);
  }

  lemma TurnedKeyAgain(s: Table, a: seq<Word>)
    requires |a| == NN - 1
    ensures Again(KeyMix, s, TurnedKey(s, a)) == Again(KeyMix, s, a)
  {
    var b := TurnedKey(s, a);
    TurnedKeyRounds(s, a);
    var last := |a|;
    RoundsAgree(KeyMix, s, a, b, last);
    KeyAtStart(last, last);
    TopBitTurns(Round(KeyMix, s, a, 1), Round(KeyMix, s, a, last), a[0], 0);
    AgainFirst(KeyMix, s, a, last);
    AgainFirst(KeyMix, s, b, last);
    AgainAgrees(KeyMix, s, a, b);
  }

  lemma TurnedKeyCollides(a: seq<Word>) returns (b: seq<Word>)
    requires |a| == NN - 1
    ensures |b| == |a| && b != a && KeyedPass(b) == KeyedPass(a)
  {
    var s := SeedTable(KEY_SEED);
    b := TurnedKey(s, a);
    TopBitTurns(0, 0, a[0], 0);
    TurnedKeyAgain(s, a);
    SameAgain(KeyMix, s, a, b);
  }

  lemma OtherKeyCollides(a: seq<Word>) returns (b: seq<Word>)
    requires NN <= |a| <= 0x1_0000_0000
    ensures |b| == |a| && b != a && KeyedPass(b) == KeyedPass(a)
  {
    var s := SeedTable(KEY_SEED);
    b := OtherKey(KeyMix, Solution, s, a, Turned(a[0]));
    TopBitTurns(0, 0, a[0], 0);
    KeyMixSolves();
    OtherKeyAgain(KeyMix, Solution, s, a, Turned(a[0]));
    SameAgain(KeyMix, s, a, b);
  }

  lemma OneTurned(a: seq<Word>, n: nat) returns (b: seq<Word>)
    requires n < |a|
    ensures |b| == |a| && b != a && forall m | 0 <= m < |a| && m != n :: b[m] == a[m]
  {
    b := a[n := Turned(a[n])];
    TopBitTurns(0, 0, a[n], 0);
    assert b[n] != a[n];
  }

  /** The index into the key never gets past 2^32 - 1. */
  lemma HugeKeyCollides(a: seq<Word>) returns (b: seq<Word>)
    requires |a| > 0x1_0000_0000
    ensures |b| == |a| && b != a && KeyedPass(b) == KeyedPass(a)
  {
    b := OneTurned(a, 0x1_0000_0000);
    UnreadWords(KeyMix, SeedTable(KEY_SEED), a, b, 1, 0, Longer(NN, |a|));
  }

  /** For every longer key there is another one of its length that gives the same table. */
  lemma LongKeyCollides(a: seq<Word>) returns (b: seq<Word>)
    requires |a| >= NN - 1
    ensures |b| == |a| && b != a && KeyTable(b) == KeyTable(a)
  {
    if |a| == NN - 1 {
      b := TurnedKeyCollides(a);
    } else if |a| <= 0x1_0000_0000 {
      b := OtherKeyCollides(a);
    } else {
      b := HugeKeyCollides(a);
    }
  }

  /** Keys of length n start different streams exactly when n is at most 310. */
  lemma KeysDifferIff(n: nat)
    requires n > 0
    ensures (forall a: seq<Word>, b: seq<Word> | |a| == |b| == n && a != b ::
               Draws(State(KeyTable(a), NN), 0) != Draws(State(KeyTable(b), NN), 0))
            <==> n <= NN - 2
  {
    if n <= NN - 2 {
      forall a: seq<Word>, b: seq<Word> | |a| == |b| == n && a != b
        ensures Draws(State(KeyTable(a), NN), 0) != Draws(State(KeyTable(b), NN), 0)
      {
        ShortKeysDiffer(a, b);
      }
    } else {
      var a: seq<Word> := seq(n, _ => 0);
      var b := LongKeyCollides(a);
      assert Draws(State(KeyTable(a), NN), 0) == Draws(State(KeyTable(b), NN), 0);
    }
  }
}
