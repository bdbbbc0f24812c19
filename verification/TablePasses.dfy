/**
How a table is seeded, over any mixing of words: a chain in which each word makes the next, and
the two passes with which init_by_array64 stirs it.
*/
module TablePasses {
  import opened LaggedRecurrence

  function Iterated<W>(next: W -> W, seed: W, i: nat): W {
    if i == 0 then seed else next(Iterated(next, seed, i - 1))
  }

  /** The table whose every word makes the next one, from the seed on. */
  function Chain<W>(next: W -> W, seed: W): (t: seq<W>)
    ensures |t| == NN
  {
    seq(NN, i requires 0 <= i < NN => Iterated(next, seed, i))
  }

  method FillChain<W>(next: W -> W, t: array<W>, seed: W) returns (mti: nat)
    requires t.Length == NN
    modifies t
    ensures mti == NN && t[..] == Chain(next, seed)
  {
    t[0] := seed;
    mti := 1;
    while mti < NN
      invariant 1 <= mti <= NN
      invariant forall k | 0 <= k < mti :: t[k] == Iterated(next, seed, k)
    {
      t[mti] := next(t[mti - 1]);
      mti := mti + 1;
    }
  }

  /** Stores w at i and moves on; past the end, word 0 takes the last word's place in the chain. */
  function Put<W>(t: seq<W>, i: nat, w: W): (r: (seq<W>, nat))
    requires |t| == NN && 0 < i < NN
    ensures |r.0| == NN && 0 < r.1 < NN
  {
    var u := t[i := w];
    if i + 1 >= NN then (u[0 := u[NN - 1]], 1) else (u, i + 1)
  }

  /** The key index is a 32-bit counter. */
  function NextKey(j: nat, length: nat): (r: nat)
    ensures r == 0 || r < length
    ensures r < 0x1_0000_0000 || j >= 0x1_0000_0000
  {
    var n := if j + 1 == 0x1_0000_0000 then 0 else j + 1;
    if n >= length then 0 else n
  }

  /** The table and index after k more steps of the first pass. */
  function KeyPass<W>(mix: (W, W, W, nat) -> W, t: seq<W>, key: seq<W>, i: nat, j: nat, k: nat): (r: (seq<W>, nat))
    requires |t| == NN && 0 < i < NN && j < |key|
    ensures |r.0| == NN && 0 < r.1 < NN
    decreases k
  {
    if k == 0 then (t, i)
    else
      var p := Put(t, i, mix(t[i], t[i - 1], key[j], j));
      KeyPass(mix, p.0, key, p.1, NextKey(j, |key|), k - 1)
  }

  /** The table after k more steps of the second pass. */
  function IndexPass<W>(mix: (W, W, nat) -> W, t: seq<W>, i: nat, k: nat): (r: seq<W>)
    requires |t| == NN && 0 < i < NN
    ensures |r| == NN
    decreases k
  {
    if k == 0 then t
    else
      var p := Put(t, i, mix(t[i], t[i - 1], i));
      IndexPass(mix, p.0, p.1, k - 1)
  }

  method Store<W>(t: array<W>, i: nat, w: W) returns (next: nat)
    requires t.Length == NN && 0 < i < NN
    modifies t
    ensures (t[..], next) == Put(old(t[..]), i, w)
  {
    t[i] := w;
    next := i + 1;
    if next >= NN {
      t[0] := t[NN - 1];
      next := 1;
    }
  }

  function Longer(m: nat, n: nat): nat {
    if m > n then m else n
  }

  /** The words of the key that the first pass reads: even of an empty key it reads the first one. */
  function ReadKey<W>(s: seq<W>, keyLength: nat): (key: seq<W>)
    requires s != [] && keyLength <= |s|
    ensures key != []
  {
    if keyLength == 0 then s[..1] else s[..keyLength]
  }

  method MixKey<W>(mix: (W, W, W, nat) -> W, t: array<W>, initKey: array<W>, keyLength: nat) returns (i: nat)
    requires t.Length == NN && initKey != t && initKey.Length > 0 && keyLength <= initKey.Length
    modifies t
    ensures 0 < i < NN
    ensures var key := ReadKey(initKey[..], keyLength);
            (t[..], i) == KeyPass(mix, old(t[..]), key, 1, 0, Longer(NN, |key|))
  {
    ghost var key := ReadKey(initKey[..], keyLength);
    i := 1;
    var j: nat := 0;
    var k: nat := Longer(NN, keyLength);
    ghost var pass := KeyPass(mix, t[..], key, i, j, k);
    while k > 0
      invariant 0 < i < NN && j < |key|
      invariant KeyPass(mix, t[..], key, i, j, k) == pass
    {
      var word := initKey[j];
      assert word == key[j] && NextKey(j, keyLength) == NextKey(j, |key|);
      i := Store(t, i, mix(t[i], t[i - 1], word, j));
      j := NextKey(j, keyLength);
      k := k - 1;
    }
  }

  method MixIndex<W>(mix: (W, W, nat) -> W, t: array<W>, start: nat)
    requires t.Length == NN && 0 < start < NN
    modifies t
    ensures t[..] == IndexPass(mix, old(t[..]), start, NN - 1)
  {
    var i, k: nat := start, NN - 1;
    ghost var pass := IndexPass(mix, t[..], i, k);
    while k > 0
      invariant 0 < i < NN
      invariant IndexPass(mix, t[..], i, k) == pass
    {
      i := Store(t, i, mix(t[i], t[i - 1], i));
      k := k - 1;
    }
  }
}
