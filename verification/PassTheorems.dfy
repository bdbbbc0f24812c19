/**
What the two passes over a table keep apart, for any mixing of words that can be undone, and the
words that the first round of the first pass leaves.
*/
module PassTheorems {
  import opened LaggedRecurrence
  import opened TablePasses

  /** All words but word 0, which takes a copy of the last one. */
  ghost predicate SameWords<W(!new)>(t: seq<W>, u: seq<W>)
    requires |t| == |u| == NN
  {
    forall m | 0 < m < NN :: t[m] == u[m]
  }

  /** After a wrap, word 0 is a copy of the last word. */
  ghost predicate Wrapped<W>(t: seq<W>, i: nat)
    requires |t| == NN
  {
    i == 1 ==> t[0] == t[NN - 1]
  }

  lemma PutWraps<W>(t: seq<W>, i: nat, w: W)
    requires |t| == NN && 0 < i < NN
    ensures Wrapped(Put(t, i, w).0, Put(t, i, w).1)
    ensures forall m | 0 < m < NN :: Put(t, i, w).0[m] == if m == i then w else t[m]
  {}

  // ---------------------------------------------------------------------------------------
  // The second pass
  // ---------------------------------------------------------------------------------------

  /** A step can be undone from the word before it. */
  ghost predicate Undone<W(!new)>(mix: (W, W, nat) -> W) {
    forall w, w', p, i: nat :: mix(w, p, i) == mix(w', p, i) ==> w == w'
  }

  lemma StepBack<W(!new)>(mix: (W, W, nat) -> W, t: seq<W>, u: seq<W>, i: nat)
    requires Undone(mix) && |t| == |u| == NN && 0 < i < NN && Wrapped(t, i) && Wrapped(u, i)
    requires SameWords(Put(t, i, mix(t[i], t[i - 1], i)).0, Put(u, i, mix(u[i], u[i - 1], i)).0)
    ensures SameWords(t, u)
  {
    var p, q := Put(t, i, mix(t[i], t[i - 1], i)).0, Put(u, i, mix(u[i], u[i - 1], i)).0;
    PutWraps(t, i, mix(t[i], t[i - 1], i));
    PutWraps(u, i, mix(u[i], u[i - 1], i));
    forall m | 0 < m < NN && m != i ensures t[m] == u[m] {
      assert p[m] == q[m];
    }
    assert t[i - 1] == u[i - 1];
    assert p[i] == q[i];
  }

  /** The second pass loses nothing: equal tables after it come from equal tables before it. */
  lemma {:induction false} IndexPassInjective<W(!new)>(mix: (W, W, nat) -> W, t: seq<W>, u: seq<W>, i: nat, k: nat)
    requires Undone(mix) && |t| == |u| == NN && 0 < i < NN && Wrapped(t, i) && Wrapped(u, i)
    requires SameWords(IndexPass(mix, t, i, k), IndexPass(mix, u, i, k))
    ensures SameWords(t, u)
    decreases k
  {
    if k > 0 {
      var p, q := Put(t, i, mix(t[i], t[i - 1], i)), Put(u, i, mix(u[i], u[i - 1], i));
      PutWraps(t, i, mix(t[i], t[i - 1], i));
      PutWraps(u, i, mix(u[i], u[i - 1], i));
      IndexPassInjective(mix, p.0, q.0, p.1, k - 1);
      StepBack(mix, t, u, i);
    }
  }

  // ---------------------------------------------------------------------------------------
  // The first pass
  // ---------------------------------------------------------------------------------------

  /** The key index after m steps. */
  function KeyAt(m: nat, n: nat): (j: nat)
    ensures j == 0 || j < n
    ensures j < 0x1_0000_0000
  {
    if m == 0 then 0 else NextKey(KeyAt(m - 1, n), n)
  }

  /** The index runs up to the last word of the key and starts again. */
  lemma {:induction false} KeyAtStart(m: nat, n: nat)
    requires 0 < n <= 0x1_0000_0000
    ensures m < n ==> KeyAt(m, n) == m
    ensures m == n ==> KeyAt(m, n) == 0
  {
    if m > 0 {
      KeyAtStart(m - 1, n);
    }
  }

  /** The m-th word of the first round. */
  function Round<W>(mix: (W, W, W, nat) -> W, s: seq<W>, key: seq<W>, m: nat): W
    requires |s| == NN && m < NN && key != []
  {
    if m == 0 then s[0]
    else mix(s[m], Round(mix, s, key, m - 1), key[KeyAt(m - 1, |key|)], KeyAt(m - 1, |key|))
  }

  /** The table when m words of the first round are done. */
  function Begun<W>(mix: (W, W, W, nat) -> W, s: seq<W>, key: seq<W>, m: nat): (t: seq<W>)
    requires |s| == NN && m < NN && key != []
    ensures |t| == NN
    ensures forall i | 0 <= i < NN :: t[i] == if i <= m then Round(mix, s, key, i) else s[i]
  {
    seq(NN, i requires 0 <= i < NN => if i <= m then Round(mix, s, key, i) else s[i])
  }

  lemma {:induction false} FirstRound<W>(mix: (W, W, W, nat) -> W, s: seq<W>, key: seq<W>, m: nat, rest: nat)
    requires |s| == NN && m < NN - 1 && key != []
    ensures KeyPass(mix, s, key, 1, 0, m + rest)
         == KeyPass(mix, Begun(mix, s, key, m), key, m + 1, KeyAt(m, |key|), rest)
    decreases m
  {
    if m == 0 {
      assert Begun(mix, s, key, 0) == s;
    } else {
      FirstRound(mix, s, key, m - 1, rest + 1);
      var t, j := Begun(mix, s, key, m - 1), KeyAt(m - 1, |key|);
      assert Begun(mix, s, key, m) == t[m := mix(t[m], t[m - 1], key[j], j)];
    }
  }

  /** The table after a full round and one step more: word 0 has wrapped, and word 1 is mixed again. */
  function Again<W>(mix: (W, W, W, nat) -> W, s: seq<W>, key: seq<W>): (t: seq<W>)
    requires |s| == NN && key != []
    ensures |t| == NN
  {
    var t, j := Begun(mix, s, key, NN - 1), KeyAt(NN - 1, |key|);
    t[0 := t[NN - 1]][1 := mix(t[1], t[NN - 1], key[j], j)]
  }

  lemma AgainFirst<W>(mix: (W, W, W, nat) -> W, s: seq<W>, key: seq<W>, m: nat)
    requires |s| == NN && key != [] && m == NN - 1
    ensures var j := KeyAt(m, |key|);
            Again(mix, s, key)[1] == mix(Round(mix, s, key, 1), Round(mix, s, key, m), key[j], j)
  {}

  /** The whole first pass: those 312 steps, and for a longer key the remaining ones. */
  lemma WholePass<W>(mix: (W, W, W, nat) -> W, s: seq<W>, key: seq<W>, rest: nat)
    requires |s| == NN && key != []
    ensures KeyPass(mix, s, key, 1, 0, NN + rest)
         == KeyPass(mix, Again(mix, s, key), key, 2, KeyAt(NN, |key|), rest)
  {
    FirstRound(mix, s, key, NN - 2, rest + 2);
    var t, j := Begun(mix, s, key, NN - 2), KeyAt(NN - 2, |key|);
    var full := Begun(mix, s, key, NN - 1);
    assert full == t[NN - 1 := mix(t[NN - 1], t[NN - 2], key[j], j)];
    assert Put(t, NN - 1, full[NN - 1]) == (full[0 := full[NN - 1]], 1);
  }

  lemma ShortPass<W>(mix: (W, W, W, nat) -> W, s: seq<W>, key: seq<W>)
    requires |s| == NN && 0 < |key| <= NN
    ensures KeyPass(mix, s, key, 1, 0, Longer(NN, |key|)) == (Again(mix, s, key), 2)
  {
    WholePass(mix, s, key, 0);
  }

  // ---------------------------------------------------------------------------------------
  // Which keys the first pass keeps apart
  // ---------------------------------------------------------------------------------------

  /** A step shows the word of the key that went in. */
  ghost predicate KeyShows<W(!new)>(mix: (W, W, W, nat) -> W) {
    forall w, p, k, k', j: nat :: mix(w, p, k, j) == mix(w, p, k', j) ==> k == k'
  }

  lemma OneWordShows<W(!new)>(mix: (W, W, W, nat) -> W, s: seq<W>, a: seq<W>, b: seq<W>, m: nat)
    requires KeyShows(mix) && |s| == NN && a != [] && |a| == |b| && 0 < m < NN
    requires Round(mix, s, a, m - 1) == Round(mix, s, b, m - 1)
    requires Round(mix, s, a, m) == Round(mix, s, b, m)
    ensures a[KeyAt(m - 1, |a|)] == b[KeyAt(m - 1, |a|)]
  {}

  /** Of a key of up to 310 words, every word leaves its mark. */
  lemma ShortKeyShows<W(!new)>(mix: (W, W, W, nat) -> W, s: seq<W>, a: seq<W>, b: seq<W>)
    requires KeyShows(mix) && |s| == NN && 0 < |a| == |b| <= NN - 2
    requires SameWords(Again(mix, s, a), Again(mix, s, b))
    ensures a == b
  {
    var n := |a|;
    forall m | 2 <= m < NN ensures Round(mix, s, a, m) == Round(mix, s, b, m) {
      assert Again(mix, s, a)[m] == Again(mix, s, b)[m];
    }
    forall j | 2 <= j < NN - 1 ensures a[KeyAt(j, n)] == b[KeyAt(j, n)] {
      OneWordShows(mix, s, a, b, j + 1);
    }
    forall j | 2 <= j < n ensures a[j] == b[j] {
      KeyAtStart(j, n);
      assert a[KeyAt(j, n)] == b[KeyAt(j, n)];
    }
    KeyAtStart(n, n);
    assert a[0] == b[0] by {
      assert a[KeyAt(if n == 1 then 2 else n, n)] == b[KeyAt(if n == 1 then 2 else n, n)];
    }
    if n > 1 {
      assert Round(mix, s, a, 1) == Round(mix, s, b, 1);
      KeyAtStart(1, n);
      OneWordShows(mix, s, a, b, 2);
    }
  }

  /** Nor does the second pass lose it, however long it is. */
  lemma AgainStays<W(!new)>(mix: (W, W, W, nat) -> W, mix': (W, W, nat) -> W, s: seq<W>, a: seq<W>, b: seq<W>, k: nat)
    requires KeyShows(mix) && Undone(mix') && |s| == NN && 0 < |a| == |b| <= NN - 2
    requires SameWords(IndexPass(mix', Again(mix, s, a), 2, k), IndexPass(mix', Again(mix, s, b), 2, k))
    ensures a == b
  {
    IndexPassInjective(mix', Again(mix, s, a), Again(mix, s, b), 2, k);
    ShortKeyShows(mix, s, a, b);
  }

  /** From word 2 on the rounds of two keys agree if word 2 and the words of the keys do. */
  lemma {:induction false} RoundsAgree<W>(mix: (W, W, W, nat) -> W, s: seq<W>, a: seq<W>, b: seq<W>, m: nat)
    requires |s| == NN && NN - 1 <= |a| == |b| <= 0x1_0000_0000 && 2 <= m < NN
    requires Round(mix, s, a, 2) == Round(mix, s, b, 2)
    requires forall j | 2 <= j < NN - 1 :: a[j] == b[j]
    ensures Round(mix, s, a, m) == Round(mix, s, b, m)
  {
    if m > 2 {
      RoundsAgree(mix, s, a, b, m - 1);
      KeyAtStart(m - 1, |a|);
    }
  }

  lemma AgainAgrees<W>(mix: (W, W, W, nat) -> W, s: seq<W>, a: seq<W>, b: seq<W>)
    requires |s| == NN && NN - 1 <= |a| == |b| <= 0x1_0000_0000
    requires Round(mix, s, a, 2) == Round(mix, s, b, 2)
    requires forall j | 2 <= j < NN - 1 :: a[j] == b[j]
    requires Again(mix, s, a)[1] == Again(mix, s, b)[1]
    ensures Again(mix, s, a) == Again(mix, s, b)
  {
    forall m | 2 <= m < NN ensures Round(mix, s, a, m) == Round(mix, s, b, m) {
      RoundsAgree(mix, s, a, b, m);
    }
    assert forall m | 0 <= m < NN :: Again(mix, s, a)[m] == Again(mix, s, b)[m];
  }

  /** The rest of the pass is the same for keys that agree from the index on. */
  lemma {:induction false} SameLater<W>(mix: (W, W, W, nat) -> W, t: seq<W>, a: seq<W>, b: seq<W>,
                                        i: nat, j: nat, k: nat)
    requires |t| == NN && 0 < i < NN && j < |a| == |b| <= 0x1_0000_0000 && j + k <= |a|
    requires forall m | j <= m < |a| :: a[m] == b[m]
    ensures KeyPass(mix, t, a, i, j, k) == KeyPass(mix, t, b, i, j, k)
    decreases k
  {
    if k > 1 {
      var p := Put(t, i, mix(t[i], t[i - 1], a[j], j));
      SameLater(mix, p.0, a, b, p.1, j + 1, k - 1);
    }
  }

  /** Words of the key past the range of the index are never read. */
  lemma {:induction false} UnreadWords<W>(mix: (W, W, W, nat) -> W, t: seq<W>, a: seq<W>, b: seq<W>,
                                          i: nat, j: nat, k: nat)
    requires |t| == NN && 0 < i < NN && j < |a| == |b| && j < 0x1_0000_0000
    requires forall m | 0 <= m < |a| && m < 0x1_0000_0000 :: a[m] == b[m]
    ensures KeyPass(mix, t, a, i, j, k) == KeyPass(mix, t, b, i, j, k)
    decreases k
  {
    if k > 0 {
      var p := Put(t, i, mix(t[i], t[i - 1], a[j], j));
      UnreadWords(mix, p.0, a, b, p.1, NextKey(j, |a|), k - 1);
    }
  }

  /** The word of the key with which a step gives the wanted result. */
  ghost predicate Solves<W(!new)>(mix: (W, W, W, nat) -> W, solve: (W, W, W, nat) -> W) {
    forall w, p, out, j: nat :: mix(w, p, solve(w, p, out, j), j) == out
  }

  /** With 312 words and more, a change of word 0 is made up for by words 1 and 311. */
  function OtherKey<W>(mix: (W, W, W, nat) -> W, solve: (W, W, W, nat) -> W, s: seq<W>, a: seq<W>, x: W): (b: seq<W>)
    requires |s| == NN && NN <= |a|
    ensures |b| == |a| && b[0] == x
    ensures forall m | 1 < m < |a| && m != NN - 1 :: b[m] == a[m]
  {
    var first := mix(s[1], s[0], x, 0);
    var second := solve(s[2], first, Round(mix, s, a, 2), 1);
    var last := solve(first, Round(mix, s, a, NN - 1), Again(mix, s, a)[1], NN - 1);
    a[0 := x][1 := second][NN - 1 := last]
  }

  lemma OtherKeyRounds<W(!new)>(mix: (W, W, W, nat) -> W, solve: (W, W, W, nat) -> W, s: seq<W>, a: seq<W>, x: W)
    requires Solves(mix, solve) && |s| == NN && NN <= |a| <= 0x1_0000_0000
    ensures var b := OtherKey(mix, solve, s, a, x);
            && Round(mix, s, b, 1) == mix(s[1], s[0], x, 0)
            && Round(mix, s, b, 2) == Round(mix, s, a, 2)
  {
    var b := OtherKey(mix, solve, s, a, x);
    assert KeyAt(0, |a|) == 0;
    KeyAtStart(1, |a|);
    assert Round(mix, s, b, 1) == mix(s[1], Round(mix, s, b, 0), b[0], 0);
    assert Round(mix, s, b, 2) == mix(s[2], Round(mix, s, b, 1), b[1], 1);
  }

  lemma OtherKeyAgain<W(!new)>(mix: (W, W, W, nat) -> W, solve: (W, W, W, nat) -> W, s: seq<W>, a: seq<W>, x: W)
    requires Solves(mix, solve) && |s| == NN && NN <= |a| <= 0x1_0000_0000
    ensures Again(mix, s, a) == Again(mix, s, OtherKey(mix, solve, s, a, x))
  {
    var b := OtherKey(mix, solve, s, a, x);
    OtherKeyRounds(mix, solve, s, a, x);
    RoundsAgree(mix, s, a, b, NN - 1);
    KeyAtStart(NN - 1, |a|);
    assert Again(mix, s, b)[1] == mix(Round(mix, s, b, 1), Round(mix, s, b, NN - 1), b[NN - 1], NN - 1);
    AgainAgrees(mix, s, a, b);
  }

  /** Keys of one length that agree after 312 steps and in the words from there on end up the same. */
  lemma SameAgain<W>(mix: (W, W, W, nat) -> W, s: seq<W>, a: seq<W>, b: seq<W>)
    requires |s| == NN && NN - 1 <= |a| == |b| <= 0x1_0000_0000
    requires Again(mix, s, a) == Again(mix, s, b) && (forall m | NN <= m < |a| :: a[m] == b[m])
    ensures KeyPass(mix, s, a, 1, 0, Longer(NN, |a|)) == KeyPass(mix, s, b, 1, 0, Longer(NN, |a|))
  {
    var n := |a|;
    var rest: nat := Longer(NN, n) - NN;
    WholePass(mix, s, a, rest);
    WholePass(mix, s, b, rest);
    if rest > 0 {
      KeyAtStart(NN, n);
      SameLater(mix, Again(mix, s, a), a, b, 2, NN, rest);
    }
  }
}
