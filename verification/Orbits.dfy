/** Runs of an injective map on a finite set of states: they are cycles. */
module Orbits {

  ghost predicate Injective<T(!new), U>(f: T -> U) {
    forall x, y :: f(x) == f(y) ==> x == y
  }

  function Iterate<T>(f: T -> T, n: nat, x: T): T
    decreases n
  {
    if n == 0 then x else f(Iterate(f, n - 1, x))
  }

  lemma {:induction false} IterateAdds<T>(f: T -> T, m: nat, n: nat, x: T)
    ensures Iterate(f, m + n, x) == Iterate(f, m, Iterate(f, n, x))
    decreases m
  {
    if m > 0 {
      IterateAdds(f, m - 1, n, x);
    }
  }

  lemma {:induction false} CancelSteps<T(!new)>(f: T -> T, i: nat, j: nat, x: T)
    requires Injective(f) && i <= j && Iterate(f, i, x) == Iterate(f, j, x)
    ensures Iterate(f, j - i, x) == x
    decreases i
  {
    if i > 0 {
      CancelSteps(f, i - 1, j - 1, x);
    }
  }

  function Below(n: nat): (r: set<int>)
    ensures |r| == n
    ensures forall u :: u in r <==> 0 <= u < n
  {
    if n == 0 then {} else Below(n - 1) + {n - 1}
  }

  function Elements(s: seq<int>): (r: set<int>)
    ensures forall x :: x in r <==> x in s
  {
    if s == [] then {} else Elements(s[..|s| - 1]) + {s[|s| - 1]}
  }

  lemma {:induction false} SubsetSize<T>(a: set<T>, b: set<T>)
    requires a <= b
    ensures |a| <= |b|
  {
    if a != {} {
      var x :| x in a;
      SubsetSize(a - {x}, b - {x});
    }
  }

  lemma {:induction false} DistinctSize(s: seq<int>)
    requires forall i, j | 0 <= i < j < |s| :: s[i] != s[j]
    ensures |Elements(s)| == |s|
  {
    if s != [] {
      DistinctSize(s[..|s| - 1]);
    }
  }

  lemma Pigeonhole(s: seq<int>, n: nat) returns (i: nat, j: nat)
    requires |s| > n && forall k | 0 <= k < |s| :: 0 <= s[k] < n
    ensures i < j < |s| && s[i] == s[j]
  {
    if forall i, j | 0 <= i < j < |s| :: s[i] != s[j] {
      DistinctSize(s);
      SubsetSize(Elements(s), Below(n));
    }
    i, j :| 0 <= i < j < |s| && s[i] == s[j];
  }

  /** A run over states with values 1 to n is back at its start after at most n steps. */
  lemma Returns<T(!new)>(f: T -> T, value: T -> nat, n: nat, x: T) returns (period: nat)
    requires Injective(f) && Injective(value)
    requires forall i :: 0 < value(Iterate(f, i, x)) <= n
    ensures 0 < period <= n && Iterate(f, period, x) == x
  {
    var s := seq(n + 1, i requires 0 <= i <= n => value(Iterate(f, i, x)) - 1);
    var i, j := Pigeonhole(s, n);
    CancelSteps(f, i, j, x);
    period := j - i;
  }
}
