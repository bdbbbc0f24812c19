/**
A word generator that keeps a table of NN words and replaces it, when used up, by the next NN
words of a recurrence.  Nothing here depends on what a word is or how three words make a new
one; both are parameters.
*/
module LaggedRecurrence {

  const NN: nat := 312
  const MM: nat := 156

  /** How words k + MM, k and k + 1 make word k + NN. */
  type Rule<!W> = (W, W, W) -> W

  /** Word k of the infinite sequence that starts with the words of s. */
  function X<W>(next: Rule<W>, s: seq<W>, k: nat): W
    requires |s| == NN
  {
    if k < NN then s[k]
    else next(X(next, s, k - NN + MM), X(next, s, k - NN), X(next, s, k - NN + 1))
  }

  /** The table holding words n, n + 1, ..., n + NN - 1 of the sequence. */
  function Window<W>(next: Rule<W>, s: seq<W>, n: nat): (w: seq<W>)
    requires |s| == NN
    ensures |w| == NN
    ensures forall i | 0 <= i < NN :: w[i] == X(next, s, n + i)
  {
    seq(NN, i requires 0 <= i < NN => X(next, s, n + i))
  }

  /** The sequence may be restarted from any of its windows. */
  lemma {:induction false} WindowShift<W>(next: Rule<W>, s: seq<W>, n: nat, k: nat)
    requires |s| == NN
    ensures X(next, Window(next, s, n), k) == X(next, s, n + k)
  {
    if k >= NN {
      WindowShift(next, s, n, k - NN);
      WindowShift(next, s, n, k - NN + 1);
      WindowShift(next, s, n, k - NN + MM);
    }
  }

  /** A table and the position of the next word to read; NN means that the table is used up. */
  datatype State<W> = State(mt: seq<W>, mti: nat) {
    ghost predicate Valid() {
      |mt| == NN && mti <= NN
    }
  }

  /** The state from which the next word is read. */
  function Ready<W>(next: Rule<W>, st: State<W>): (r: State<W>)
    requires st.Valid()
    ensures r.Valid() && r.mti < NN
  {
    if st.mti < NN then st else State(Window(next, st.mt, NN), 0)
  }

  function Read<W>(next: Rule<W>, st: State<W>): W
    requires st.Valid()
  {
    Ready(next, st).mt[Ready(next, st).mti]
  }

  function Step<W>(next: Rule<W>, st: State<W>): (r: State<W>)
    requires st.Valid()
    ensures r.Valid()
  {
    Ready(next, st).(mti := Ready(next, st).mti + 1)
  }

  function Run<W>(next: Rule<W>, st: State<W>, n: nat): (r: State<W>)
    requires st.Valid()
    ensures r.Valid()
    decreases n
  {
    if n == 0 then st else Run(next, Step(next, st), n - 1)
  }

  lemma StepAdvances<W>(next: Rule<W>, st: State<W>, k: nat)
    requires st.Valid()
    ensures X(next, Step(next, st).mt, Step(next, st).mti + k) == X(next, st.mt, st.mti + 1 + k)
  {
    if st.mti == NN {
      WindowShift(next, st.mt, NN, 1 + k);
    }
  }

  /** However often the table is replaced, the n-th word read is n places on in the sequence. */
  lemma {:induction false} ReadIsRecurrence<W>(next: Rule<W>, st: State<W>, n: nat)
    requires st.Valid()
    ensures Read(next, Run(next, st, n)) == X(next, st.mt, st.mti + n)
    decreases n
  {
    if n > 0 {
      ReadIsRecurrence(next, Step(next, st), n - 1);
      StepAdvances(next, st, n - 1);
    }
  }

  /** A generator restarted from the NN words read at some point reads on as the original does. */
  lemma Restart<W>(next: Rule<W>, st: State<W>, from: nat, k: nat)
    requires st.Valid()
    ensures Read(next, Run(next, State(Window(next, st.mt, st.mti + from), NN), k))
         == Read(next, Run(next, st, from + NN + k))
  {
    ReadIsRecurrence(next, State(Window(next, st.mt, st.mti + from), NN), k);
    WindowShift(next, st.mt, st.mti + from, NN + k);
    ReadIsRecurrence(next, st, from + NN + k);
  }

  /** The first i words are those of the next table, the others still those of s. */
  ghost predicate Rewritten<W>(next: Rule<W>, s: seq<W>, t: seq<W>, i: nat)
    requires |s| == |t| == NN
  {
    forall k | 0 <= k < NN :: t[k] == X(next, s, if k < i then NN + k else k)
  }

  /**
  Regenerates the table in place, in three segments.  The second and third read, at i + MM - NN
  and at 0, words that this call has already overwritten.
  */
  method Regenerate<W>(next: Rule<W>, mt: array<W>)
    requires mt.Length == NN
    modifies mt
    ensures mt[..] == Window(next, old(mt[..]), NN)
  {
    ghost var s := mt[..];
    var i := 0;
    while i < NN - MM
      invariant 0 <= i <= NN - MM
      invariant Rewritten(next, s, mt[..], i)
    {
      mt[i] := next(mt[i + MM], mt[i], mt[i + 1]);
      i := i + 1;
    }
    while i < NN - 1
      invariant NN - MM <= i <= NN - 1
      invariant Rewritten(next, s, mt[..], i)
    {
      mt[i] := next(mt[i + MM - NN], mt[i], mt[i + 1]);
      i := i + 1;
    }
    mt[NN - 1] := next(mt[MM - 1], mt[NN - 1], mt[0]);
    assert Rewritten(next, s, mt[..], NN);
  }
}
