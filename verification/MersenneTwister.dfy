/**
The 64-bit Mersenne Twister as a state machine on values: which stream it produces, how much
of the stream determines the rest, and when the stream is stuck at zero.  Every theorem is
about all states and any number of draws.
*/
module MersenneTwister {
  import opened TwisterWords
  import opened LaggedRecurrence
  import opened TablePasses

  type Table = s: seq<Word> | |s| == NN witness seq(NN, _ => 0)

  const DEFAULT_SEED: Word := 5489

  function Next(a: Word, b: Word, c: Word): Word {
    Xor(a, Twist(b, c))
  }

  /** Output n of a generator in state st. */
  function Draw(st: State<Word>, n: nat): Word
    requires st.Valid()
  {
    Temper(Read(Next, Run(Next, st, n)))
  }

  /** 312 consecutive outputs. */
  function Draws(st: State<Word>, from: nat): (w: Table)
    requires st.Valid()
    ensures forall i | 0 <= i < NN :: w[i] == Draw(st, from + i)
  {
    seq(NN, i requires 0 <= i < NN => Draw(st, from + i))
  }

  /** Draw n from any state is the tempered word of the recurrence n places further on. */
  lemma DrawIsRecurrence(st: State<Word>, n: nat)
    requires st.Valid()
    ensures Draw(st, n) == Temper(X(Next, st.mt, st.mti + n))
  {
    ReadIsRecurrence(Next, st, n);
  }

  // ---------------------------------------------------------------------------------------
  // How much of the output determines the rest
  // ---------------------------------------------------------------------------------------

  /** The table rebuilt from 312 consecutive outputs. */
  function Recover(outputs: Table): Table {
    seq(NN, i requires 0 <= i < NN => Untemper(outputs[i]))
  }

  lemma RecoverIsWindow(st: State<Word>, from: nat)
    requires st.Valid()
    ensures Recover(Draws(st, from)) == Window(Next, st.mt, st.mti + from)
  {
    var w := Window(Next, st.mt, st.mti + from);
    forall i | 0 <= i < NN
      ensures Untemper(Draw(st, from + i)) == w[i]
    {
      DrawIsRecurrence(st, from + i);
      TemperBijective(w[i]);
    }
  }

  /** Any 312 consecutive outputs, aligned to a block or not, determine all later ones. */
  lemma OutputsDetermineRest(st: State<Word>, from: nat, k: nat)
    requires st.Valid()
    ensures Draw(State(Recover(Draws(st, from)), NN), k) == Draw(st, from + NN + k)
  {
    RecoverIsWindow(st, from);
    Restart(Next, st, from, k);
  }

  lemma CancelXor(a: Word, b: Word, c: Word)
    requires Xor(a, b) == Xor(a, c)
    ensures b == c
  {
    XorCancel(b, a);
    XorCancel(c, a);
  }

  /** Sequences that agree from word m on agree all the way back, but for the low bits of word 0. */
  lemma {:induction false} AgreeBackwards(s: Table, t: Table, m: nat, j: nat)
    requires j < m
    requires forall k | k >= m :: X(Next, s, k) == X(Next, t, k)
    ensures Upper(X(Next, s, j)) == Upper(X(Next, t, j))
    ensures forall k | k > j :: X(Next, s, k) == X(Next, t, k)
    decreases m - j
  {
    if j + 1 < m {
      AgreeBackwards(s, t, m, j + 1);
    }
    var a, b := X(Next, s, j), X(Next, s, j + 1);
    var c, d := X(Next, t, j), X(Next, t, j + 1);
    assert X(Next, s, j + NN) == X(Next, t, j + NN) && X(Next, s, j + MM) == X(Next, t, j + MM);
    CancelXor(X(Next, s, j + MM), Twist(a, b), Twist(c, d));
    TwistInjective(a, b, c, d);
    SplitWord(b, d);
  }

  /** All that a table contributes to the stream that follows it. */
  ghost predicate SameEntropy(s: Table, t: Table) {
    Upper(s[0]) == Upper(t[0]) && s[1..] == t[1..]
  }

  lemma {:induction false} SameEntropySameWords(s: Table, t: Table, k: nat)
    requires SameEntropy(s, t) && k > 0
    ensures X(Next, s, k) == X(Next, t, k)
  {
    if k < NN {
      assert s[k] == s[1..][k - 1] && t[k] == t[1..][k - 1];
    } else {
      if k == NN {
        TwistReadsUpper(s[0], t[0], X(Next, s, 1));
      } else {
        SameEntropySameWords(s, t, k - NN);
      }
      SameEntropySameWords(s, t, k - NN + 1);
      SameEntropySameWords(s, t, k - NN + MM);
    }
  }

  lemma EqualWindows(s: Table, t: Table, m: nat)
    requires 0 < m && Window(Next, s, m) == Window(Next, t, m)
    ensures SameEntropy(s, t)
  {
    forall k | k >= m ensures X(Next, s, k) == X(Next, t, k) {
      WindowShift(Next, s, m, k - m);
      WindowShift(Next, t, m, k - m);
    }
    AgreeBackwards(s, t, m, 0);
    forall i | 0 < i < NN ensures s[i] == t[i] {
      assert X(Next, s, i) == X(Next, t, i);
    }
  }

  /**
  From a used-up table (or one with at least one word read), two streams are equal exactly when
  the tables agree apart from the low 31 bits of word 0; 312 equal outputs already decide it.
  */
  lemma StreamsEqualIff(s: Table, t: Table, m: nat)
    requires 0 < m <= NN
    ensures SameEntropy(s, t) ==> forall n: nat :: Draw(State(s, m), n) == Draw(State(t, m), n)
    ensures Draws(State(s, m), 0) == Draws(State(t, m), 0) ==> SameEntropy(s, t)
  {
    if SameEntropy(s, t) {
      forall n: nat ensures Draw(State(s, m), n) == Draw(State(t, m), n) {
        ReadIsRecurrence(Next, State(s, m), n);
        ReadIsRecurrence(Next, State(t, m), n);
        SameEntropySameWords(s, t, m + n);
      }
    }
    if Draws(State(s, m), 0) == Draws(State(t, m), 0) {
      RecoverIsWindow(State(s, m), 0);
      RecoverIsWindow(State(t, m), 0);
      EqualWindows(s, t, m);
    }
  }

  // ---------------------------------------------------------------------------------------
  // Linearity
  // ---------------------------------------------------------------------------------------

  function XorTables(s: Table, t: Table): Table {
    seq(NN, i requires 0 <= i < NN => Xor(s[i], t[i]))
  }

  lemma {:induction false} WordsLinear(s: Table, t: Table, k: nat)
    ensures X(Next, XorTables(s, t), k) == Xor(X(Next, s, k), X(Next, t, k))
  {
    if k >= NN {
      WordsLinear(s, t, k - NN);
      WordsLinear(s, t, k - NN + 1);
      WordsLinear(s, t, k - NN + MM);
      var a, b := X(Next, s, k - NN), X(Next, s, k - NN + 1);
      var c, d := X(Next, t, k - NN), X(Next, t, k - NN + 1);
      TwistLinear(a, b, c, d);
      XorExchange(X(Next, s, k - NN + MM), X(Next, t, k - NN + MM), Twist(a, b), Twist(c, d));
    }
  }

  lemma ReadsLinear(s: Table, t: Table, m: nat, n: nat)
    requires m <= NN
    ensures Read(Next, Run(Next, State(XorTables(s, t), m), n))
         == Xor(Read(Next, Run(Next, State(s, m), n)), Read(Next, Run(Next, State(t, m), n)))
  {
    ReadIsRecurrence(Next, State(XorTables(s, t), m), n);
    ReadIsRecurrence(Next, State(s, m), n);
    ReadIsRecurrence(Next, State(t, m), n);
    WordsLinear(s, t, m + n);
  }

  /** Every output is linear over exclusive or in the table. */
  lemma DrawsLinear(s: Table, t: Table, m: nat, n: nat)
    requires m <= NN
    ensures Draw(State(XorTables(s, t), m), n) == Xor(Draw(State(s, m), n), Draw(State(t, m), n))
  {
    ReadsLinear(s, t, m, n);
    TemperLinear(Read(Next, Run(Next, State(s, m), n)), Read(Next, Run(Next, State(t, m), n)));
  }

  // ---------------------------------------------------------------------------------------
  // When the stream is stuck at zero
  // ---------------------------------------------------------------------------------------

  function ZeroTable(): (z: Table)
    ensures forall i | 0 <= i < NN :: z[i] == 0
  {
    seq(NN, _ => 0)
  }

  lemma {:induction false} ZeroWords(k: nat)
    ensures X(Next, ZeroTable(), k) == 0
  {
    if k >= NN {
      ZeroWords(k - NN);
      ZeroWords(k - NN + 1);
      ZeroWords(k - NN + MM);
    }
  }

  lemma TemperZero()
    ensures Temper(0) == 0 && Untemper(0) == 0
  {}

  lemma StuckTable(s: Table, m: nat, from: nat)
    requires 0 < m <= NN
    requires Draws(State(s, m), from) == ZeroTable()
    ensures SameEntropy(s, ZeroTable())
  {
    RecoverIsWindow(State(s, m), from);
    var w, z := Window(Next, s, m + from), Window(Next, ZeroTable(), m + from);
    forall i | 0 <= i < NN ensures w[i] == z[i] {
      ZeroWords(m + from + i);
      TemperZero();
    }
    EqualWindows(s, ZeroTable(), m + from);
  }

  /** The stream shows 312 zeros in a row, anywhere, exactly when the table holds nothing else. */
  lemma StuckIff(s: Table, m: nat, from: nat)
    requires 0 < m <= NN
    ensures Draws(State(s, m), from) == ZeroTable() <==> SameEntropy(s, ZeroTable())
  {
    if Draws(State(s, m), from) == ZeroTable() {
      StuckTable(s, m, from);
    }
    if SameEntropy(s, ZeroTable()) {
      forall i | 0 <= i < NN ensures Draws(State(s, m), from)[i] == 0 {
        ReadIsRecurrence(Next, State(s, m), from + i);
        SameEntropySameWords(s, ZeroTable(), m + from + i);
        ZeroWords(m + from + i);
        TemperZero();
      }
    }
  }

  // ---------------------------------------------------------------------------------------
  // Seeding
  // ---------------------------------------------------------------------------------------

  function SeedFold(p: Word): Word { p ^ (p >> 62) }

  function SeedScale(x: Word): Word { 6364136223846793005 * x + 1 }

  function SeedNext(p: Word): Word {
    SeedScale(SeedFold(p))
  }

  function SeedTable(seed: Word): (t: Table) {
    Chain(SeedNext, seed)
  }

  lemma SeedNextOfZero()
    ensures SeedNext(0) == 1
  {}

  /** No seed leaves the generator stuck at zero. */
  lemma SeededNeverStuck(seed: Word, from: nat)
    ensures Draws(State(SeedTable(seed), NN), from) != ZeroTable()
  {
    var t := SeedTable(seed);
    StuckIff(t, NN, from);
    SeedNextOfZero();
    if t[1] == 0 {
      assert t[2] == SeedNext(t[1]);
      assert t[1..][1] == t[2] != ZeroTable()[1..][1];
    } else {
      assert t[1..][0] == t[1] != ZeroTable()[1..][0];
    }
  }

  // Seeding with a key: two passes over the table.  An index is added as a 32-bit number.

  function KeyStir(previous: Word): Word {
    (previous ^ (previous >> 62)) * 3935559000370003845
  }

  function IndexStir(previous: Word): Word {
    (previous ^ (previous >> 62)) * 2862933555777941757
  }

  function IndexWord(i: nat): Word {
    (i % 0x1_0000_0000) as Word
  }

  function Sum(x: Word, key: Word, index: Word): Word { x + key + index }

  function AddKey(was: Word, stirred: Word, key: Word, index: Word): Word {
    Sum(Xor(was, stirred), key, index)
  }

  function TakeIndex(was: Word, stirred: Word, index: Word): Word {
    (was ^ stirred) - index
  }

  function KeyMix(was: Word, previous: Word, key: Word, j: nat): Word {
    AddKey(was, KeyStir(previous), key, IndexWord(j))
  }

  function IndexMix(was: Word, previous: Word, i: nat): Word {
    TakeIndex(was, IndexStir(previous), IndexWord(i))
  }

  const KEY_SEED: Word := 19650218
  const TOP_BIT: Word := 0x8000000000000000

  /** The table after the first pass, and where the second one goes on. */
  function KeyedPass(key: seq<Word>): (r: (Table, nat))
    requires key != []
    ensures 0 < r.1 < NN
  {
    KeyPass(KeyMix, SeedTable(KEY_SEED), key, 1, 0, Longer(NN, |key|))
  }

  function KeyTable(key: seq<Word>): Table
    requires key != []
  {
    var (t, i) := KeyedPass(key);
    IndexPass(IndexMix, t, i, NN - 1)[0 := TOP_BIT]
  }

  lemma TopBitIsUpper()
    ensures Upper(TOP_BIT) != Upper(0)
  {}

  /** Setting the top bit of word 0 keeps every key from leaving the generator stuck at zero. */
  lemma KeyedNeverStuck(key: seq<Word>, from: nat)
    requires key != []
    ensures Draws(State(KeyTable(key), NN), from) != ZeroTable()
  {
    StuckIff(KeyTable(key), NN, from);
    TopBitIsUpper();
  }
}
