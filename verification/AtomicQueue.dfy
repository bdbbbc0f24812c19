/**
The queue that callers are promised: each call takes effect in a single step, somewhere between
its start and its return.  What a caller sees of a step is its label.
*/
module AtomicQueue {

  /** Where a thread's call stands. Pushing and Popping have not taken effect yet. */
  datatype Call<T> = NoCall | Pushing(data: T) | Pushed | Popping | Popped(out: T)

  /** The calls of all threads, and the items in the order in which they entered and left. */
  datatype Atomic<T> = Atomic(calls: seq<Call<T>>, entered: seq<T>, left: seq<T>)

  datatype Label<T> =
    | Hidden
    | StartPush(t: nat, data: T)
    | EndPush(t: nat)
    | StartPop(t: nat)
    | EndPop(t: nat, out: T)
    | Refuse(t: nat)

  predicate At<T(==)>(a: Atomic<T>, t: nat, c: Call<T>) {
    t < |a.calls| && a.calls[t] == c
  }

  /** An item enters at the end; the first one that has not left yet leaves. */
  ghost predicate TakesEffect<T>(a: Atomic<T>, t: nat, b: Atomic<T>) {
    && t < |a.calls|
    && match a.calls[t]
       case Pushing(data) => b == a.(calls := a.calls[t := Pushed], entered := a.entered + [data])
       case Popping =>
         && |a.left| < |a.entered|
         && var out := a.entered[|a.left|];
            b == a.(calls := a.calls[t := Popped(out)], left := a.left + [out])
       case _ => false
  }

  /** The items that have entered and not left. */
  function Waiting<T>(a: Atomic<T>): seq<T>
    requires |a.left| <= |a.entered|
  {
    a.entered[|a.left|..]
  }

  /** On these items an effect is what one call of the linked queue does to its contents. */
  lemma EffectOnWaiting<T>(a: Atomic<T>, t: nat, b: Atomic<T>)
    requires |a.left| <= |a.entered| && TakesEffect(a, t, b)
    ensures |b.left| <= |b.entered|
    ensures a.calls[t].Pushing? ==> Waiting(b) == Waiting(a) + [a.calls[t].data]
    ensures a.calls[t].Popping? ==> b.calls[t].Popped? && Waiting(a) == [b.calls[t].out] + Waiting(b)
  {}

  /** No step of the promised queue refuses an item. */
  ghost predicate Step<T(!new)>(a: Atomic<T>, l: Label<T>, b: Atomic<T>) {
    match l
    case Hidden => a == b || exists t: nat :: TakesEffect(a, t, b)
    case StartPush(t, data) => At(a, t, NoCall) && b == a.(calls := a.calls[t := Pushing(data)])
    case EndPush(t) => At(a, t, Pushed) && b == a.(calls := a.calls[t := NoCall])
    case StartPop(t) => At(a, t, NoCall) && b == a.(calls := a.calls[t := Popping])
    case EndPop(t, out) => At(a, t, Popped(out)) && b == a.(calls := a.calls[t := NoCall])
    case Refuse(_) => false
  }

  /** The promised queue has a run from a to b with these labels. */
  ghost predicate Explains<T(!new)>(a: Atomic<T>, labels: seq<Label<T>>, b: Atomic<T>)
    decreases |labels|
  {
    if labels == [] then a == b
    else exists m :: Step(a, labels[0], m) && Explains(m, labels[1..], b)
  }

  /** What is left of the labels when the inner steps are passed over. */
  function Visible<T>(labels: seq<Label<T>>): seq<Label<T>> {
    if labels == [] then []
    else (if labels[0].Hidden? then [] else [labels[0]]) + Visible(labels[1..])
  }

  lemma Regroup<T>(x: seq<T>, y: seq<T>, z: seq<T>)
    ensures x + (y + z) == (x + y) + z
  {}

  lemma {:induction false} VisibleAppends<T>(a: seq<Label<T>>, b: seq<Label<T>>)
    ensures Visible(a + b) == Visible(a) + Visible(b)
  {
    if a == [] {
      assert a + b == b;
    } else {
      VisibleAppends(a[1..], b);
      var first := if a[0].Hidden? then [] else [a[0]];
      assert (a + b)[1..] == a[1..] + b && (a + b)[0] == a[0];
      Regroup(first, Visible(a[1..]), Visible(b));
    }
  }

  // ---------------------------------------------------------------------------------------
  // What every explained run keeps
  // ---------------------------------------------------------------------------------------

  function GivenBy<T>(l: Label<T>): multiset<T> {
    if l.StartPush? then multiset{l.data} else multiset{}
  }

  function ReturnedBy<T>(l: Label<T>): multiset<T> {
    if l.EndPop? then multiset{l.out} else multiset{}
  }

  /** The items that pushes were called with, and those that pops returned. */
  function Given<T>(labels: seq<Label<T>>): multiset<T> {
    if labels == [] then multiset{} else GivenBy(labels[0]) + Given(labels[1..])
  }

  function Returned<T>(labels: seq<Label<T>>): multiset<T> {
    if labels == [] then multiset{} else ReturnedBy(labels[0]) + Returned(labels[1..])
  }

  function ToEnter<T>(c: Call<T>): multiset<T> {
    if c.Pushing? then multiset{c.data} else multiset{}
  }

  function ToReturn<T>(c: Call<T>): multiset<T> {
    if c.Popped? then multiset{c.out} else multiset{}
  }

  /** The items of all calls together. */
  function Gathered<T>(calls: seq<Call<T>>, items: Call<T> -> multiset<T>): multiset<T> {
    if calls == [] then multiset{} else items(calls[0]) + Gathered(calls[1..], items)
  }

  lemma {:induction false} GatheredUpdate<T>(calls: seq<Call<T>>, t: nat, c: Call<T>, items: Call<T> -> multiset<T>)
    requires t < |calls|
    ensures Gathered(calls[t := c], items) + items(calls[t]) == Gathered(calls, items) + items(c)
  {
    var r := calls[t := c];
    if t == 0 {
      assert r[1..] == calls[1..];
    } else {
      assert r[1..] == calls[1..][t - 1 := c];
      GatheredUpdate(calls[1..], t - 1, c, items);
      Exchange(items(calls[0]), Gathered(r[1..], items), items(calls[t]), Gathered(calls[1..], items), items(c));
    }
  }

  lemma Exchange<T>(x: multiset<T>, a: multiset<T>, b: multiset<T>, c: multiset<T>, d: multiset<T>)
    requires a + b == c + d
    ensures (x + a) + b == (x + c) + d
  {
    assert (x + a) + b == x + (a + b);
    assert (x + c) + d == x + (c + d);
  }

  /** given and returned account for what has entered, left, and is still under way. */
  ghost predicate Conserved<T>(a: Atomic<T>, given: multiset<T>, returned: multiset<T>) {
    && a.left <= a.entered
    && given == multiset(a.entered) + Gathered(a.calls, ToEnter)
    && multiset(a.left) == returned + Gathered(a.calls, ToReturn)
  }

  lemma EntryConserves<T>(a: Atomic<T>, t: nat, b: Atomic<T>, given: multiset<T>, returned: multiset<T>)
    requires Conserved(a, given, returned) && TakesEffect(a, t, b) && a.calls[t].Pushing?
    ensures Conserved(b, given, returned)
  {
    var x := a.calls[t].data;
    GatheredUpdate(a.calls, t, Pushed, ToEnter);
    GatheredUpdate(a.calls, t, Pushed, ToReturn);
    assert b.entered == a.entered + [x];
    EntryBalance(multiset(a.entered), multiset{x}, Gathered(a.calls, ToEnter), Gathered(b.calls, ToEnter));
    assert Gathered(b.calls, ToReturn) == Gathered(a.calls, ToReturn) by {
      Cancel(Gathered(b.calls, ToReturn), Gathered(a.calls, ToReturn), multiset{});
    }
  }

  lemma EntryBalance<T>(e: multiset<T>, x: multiset<T>, g: multiset<T>, g': multiset<T>)
    requires g' + x == g + multiset{}
    ensures e + g == (e + x) + g'
  {
    assert (e + x) + g' == e + (g' + x);
  }

  lemma ExitConserves<T>(a: Atomic<T>, t: nat, b: Atomic<T>, given: multiset<T>, returned: multiset<T>)
    requires Conserved(a, given, returned) && TakesEffect(a, t, b) && a.calls[t].Popping?
    ensures Conserved(b, given, returned)
  {
    var out := a.entered[|a.left|];
    GatheredUpdate(a.calls, t, Popped(out), ToEnter);
    GatheredUpdate(a.calls, t, Popped(out), ToReturn);
    assert b.left == a.left + [out] == a.entered[..|b.left|];
    ExitBalance(multiset(a.left), multiset{out}, returned, Gathered(a.calls, ToReturn), Gathered(b.calls, ToReturn));
    assert Gathered(b.calls, ToEnter) == Gathered(a.calls, ToEnter) by {
      Cancel(Gathered(b.calls, ToEnter), Gathered(a.calls, ToEnter), multiset{});
    }
  }

  lemma ExitBalance<T>(l: multiset<T>, x: multiset<T>, r: multiset<T>, g: multiset<T>, g': multiset<T>)
    requires l == r + g && g' + multiset{} == g + x
    ensures l + x == r + g'
  {
    assert (r + g) + x == r + (g + x);
  }

  /** What a call that starts or ends brings and takes is what its thread has under way. */
  lemma BorderShape<T(!new)>(a: Atomic<T>, l: Label<T>, b: Atomic<T>)
    requires Step(a, l, b) && !l.Hidden?
    ensures l.t < |a.calls| == |b.calls| && b == a.(calls := a.calls[l.t := b.calls[l.t]])
    ensures ToEnter(b.calls[l.t]) == ToEnter(a.calls[l.t]) + GivenBy(l)
    ensures ToReturn(a.calls[l.t]) == ToReturn(b.calls[l.t]) + ReturnedBy(l)
  {}

  lemma BorderConserves<T(!new)>(a: Atomic<T>, l: Label<T>, b: Atomic<T>, given: multiset<T>, returned: multiset<T>)
    requires Conserved(a, given, returned) && Step(a, l, b) && !l.Hidden?
    ensures Conserved(b, given + GivenBy(l), returned + ReturnedBy(l))
  {
    BorderShape(a, l, b);
    var (c, d) := (a.calls[l.t], b.calls[l.t]);
    GatheredUpdate(a.calls, l.t, d, ToEnter);
    GatheredUpdate(a.calls, l.t, d, ToReturn);
    EnterBalance(multiset(a.entered), given, GivenBy(l), Gathered(a.calls, ToEnter), Gathered(b.calls, ToEnter),
                 ToEnter(c));
    ReturnBalance(multiset(a.left), returned, ReturnedBy(l), Gathered(a.calls, ToReturn), Gathered(b.calls, ToReturn),
                  ToReturn(d));
  }

  lemma EnterBalance<T>(e: multiset<T>, given: multiset<T>, more: multiset<T>, g: multiset<T>, g': multiset<T>,
                        x: multiset<T>)
    requires given == e + g && g' + x == g + (x + more)
    ensures given + more == e + g'
  {
    assert g' + x == (g + more) + x;
    Cancel(g', g + more, x);
  }

  lemma ReturnBalance<T>(l: multiset<T>, r: multiset<T>, more: multiset<T>, g: multiset<T>, g': multiset<T>,
                         y: multiset<T>)
    requires l == r + g && g' + (y + more) == g + y
    ensures l == (r + more) + g'
  {
    assert (g' + more) + y == g + y;
    Cancel(g' + more, g, y);
  }

  lemma Cancel<T>(a: multiset<T>, b: multiset<T>, x: multiset<T>)
    requires a + x == b + x
    ensures a == b
  {
    assert a == (a + x) - x && b == (b + x) - x;
  }

  lemma StepConserves<T(!new)>(a: Atomic<T>, l: Label<T>, b: Atomic<T>, given: multiset<T>, returned: multiset<T>)
    requires Conserved(a, given, returned) && Step(a, l, b)
    ensures Conserved(b, given + GivenBy(l), returned + ReturnedBy(l))
  {
    if !l.Hidden? {
      BorderConserves(a, l, b, given, returned);
    } else {
      assert given + GivenBy(l) == given && returned + ReturnedBy(l) == returned;
      if a != b {
        var t: nat :| TakesEffect(a, t, b);
        if a.calls[t].Pushing? {
          EntryConserves(a, t, b, given, returned);
        } else {
          ExitConserves(a, t, b, given, returned);
        }
      }
    }
  }

  /** Over a whole run nothing is lost, doubled or made up, and items leave in the order they came. */
  lemma {:induction false} ExplainedConserves<T(!new)>(a: Atomic<T>, labels: seq<Label<T>>, b: Atomic<T>,
                                                       given: multiset<T>, returned: multiset<T>)
    requires Conserved(a, given, returned) && Explains(a, labels, b)
    ensures Conserved(b, given + Given(labels), returned + Returned(labels))
    decreases |labels|
  {
    if labels == [] {
      assert given + Given(labels) == given && returned + Returned(labels) == returned;
    } else {
      var l, rest := labels[0], labels[1..];
      var m :| Step(a, l, m) && Explains(m, rest, b);
      StepConserves(a, l, m, given, returned);
      ExplainedConserves(m, rest, b, given + GivenBy(l), returned + ReturnedBy(l));
      assert given + Given(labels) == (given + GivenBy(l)) + Given(rest);
      assert returned + Returned(labels) == (returned + ReturnedBy(l)) + Returned(rest);
    }
  }
}
