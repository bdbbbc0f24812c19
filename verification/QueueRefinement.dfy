/**
The threaded queue keeps the promise of the atomic one: whatever the interleaving, what the
callers hand in and get back is explained by a run in which every call takes effect at once.
*/
module QueueRefinement {
  import opened Wrappers
  import opened ThreadedQueue
  import opened ThreadedQueueProofs
  import opened ThreadedQueueTheorems
  import A = AtomicQueue

  // ---------------------------------------------------------------------------------------
  // What the callers see
  // ---------------------------------------------------------------------------------------

  /** A push hands in its argument when it starts, a pop hands out its result when it returns. */
  function Label(s: State, e: Event): A.Label<Data> {
    match e
    case CallPush(t, data, _) => A.StartPush(t, data)
    case CallPop(t) => A.StartPop(t)
    case Spurious(_) => A.Hidden
    case Advance(t, _) =>
      if t >= |s.pc| then A.Hidden
      else match s.pc[t]
           case PushReturn => A.EndPush(t)
           case PopReturn(out) => A.EndPop(t, out)
           case PopRefuse => A.Refuse(t)
           case _ => A.Hidden
  }

  ghost function Labels(s: State, events: seq<Event>): (labels: seq<A.Label<Data>>)
    decreases |events|
  {
    if events == [] || !Apply(s, events[0]).Ok? then []
    else [Label(s, events[0])] + Labels(Apply(s, events[0]).s, events[1..])
  }

  // ---------------------------------------------------------------------------------------
  // The atomic state behind a state of the threads
  // ---------------------------------------------------------------------------------------

  function DataAt(m: Memory, a: Addr): Data {
    if a in m.cells then m.cells[a].data else 0
  }

  /** A push takes effect when it links its node, a pop when it unlinks one. */
  function CallOf(p: PC, m: Memory): A.Call<Data> {
    match p
    case Idle => A.NoCall
    case PushLock(n) => A.Pushing(DataAt(m, n))
    case PushLink(n) => A.Pushing(DataAt(m, n))
    case PushTail(_) => A.Pushed
    case PushSignal => A.Pushed
    case PushUnlock => A.Pushed
    case PushReturn => A.Pushed
    case PopFix(_, out) => A.Popped(out)
    case PopFree(_, out) => A.Popped(out)
    case PopUnlock(out) => A.Popped(out)
    case PopReturn(out) => A.Popped(out)
    case _ => A.Popping
  }

  function Calls(pc: seq<PC>, m: Memory): (c: seq<A.Call<Data>>)
    ensures |c| == |pc| && forall t | 0 <= t < |pc| :: c[t] == CallOf(pc[t], m)
  {
    seq(|pc|, t requires 0 <= t < |pc| => CallOf(pc[t], m))
  }

  function Abs(s: State): A.Atomic<Data> {
    A.Atomic(Calls(s.pc, s.mem), s.mem.pushed, s.mem.popped)
  }

  /** The nodes of the pushes under way keep their data. */
  ghost predicate KeepsOthers(s: State, t: nat, m: Memory) {
    forall u | 0 <= u < |s.pc| && u != t && (s.pc[u].PushLock? || s.pc[u].PushLink?) ::
      s.pc[u].node in m.cells && m.cells[s.pc[u].node].data == DataAt(s.mem, s.pc[u].node)
  }

  lemma AbsUpdate(s: State, t: nat, r: State)
    requires t < |s.pc| == |r.pc| && r.pc == s.pc[t := r.pc[t]]
    requires KeepsOthers(s, t, r.mem)
    ensures Abs(r) == A.Atomic(Abs(s).calls[t := CallOf(r.pc[t], r.mem)], r.mem.pushed, r.mem.popped)
  {
    var (c, d) := (Abs(s).calls, Abs(r).calls);
    forall u | 0 <= u < |s.pc| ensures d[u] == (if u == t then CallOf(r.pc[t], r.mem) else c[u]) {
      assert u != t ==> r.pc[u] == s.pc[u];
    }
    assert d == c[t := CallOf(r.pc[t], r.mem)];
  }

  /** The nodes that other threads are about to link are neither linked nor freed by this one. */
  lemma OthersKept(s: State, t: nat, m: Memory)
    requires Sound(s) && t < |s.pc|
    requires forall a | a in Loose(s.mem) - Private(s.pc[t]) :: a in m.cells && m.cells[a] == s.mem.cells[a]
    ensures KeepsOthers(s, t, m)
  {
    forall u | 0 <= u < |s.pc| && u != t && (s.pc[u].PushLock? || s.pc[u].PushLink?)
      ensures s.pc[u].node in m.cells && m.cells[s.pc[u].node].data == DataAt(s.mem, s.pc[u].node)
    {
      assert s.pc[u].node in Private(s.pc[u]);
      assert Private(s.pc[u]) !! Private(s.pc[t]);
    }
  }

  // ---------------------------------------------------------------------------------------
  // Every step
  // ---------------------------------------------------------------------------------------

  lemma PushLinkRefines(s: State, t: nat)
    requires Inv(s) && t < |s.pc| && s.pc[t].PushLink?
    ensures Statement(s, t).Ok? && A.TakesEffect(Abs(s), t, Abs(Statement(s, t).s))
  {
    var n := s.pc[t].node;
    assert n in Private(s.pc[t]) && Inside(s.pc[t]);
    LinkNodeKeeps(s.mem, n);
    var r := Statement(s, t).s;
    OthersKept(s, t, r.mem);
    AbsUpdate(s, t, r);
  }

  lemma PopTakeRefines(s: State, t: nat)
    requires Inv(s) && t < |s.pc| && s.pc[t].PopTake?
    ensures Statement(s, t).Ok? && A.TakesEffect(Abs(s), t, Abs(Statement(s, t).s))
  {
    assert Inside(s.pc[t]);
    TakeFirstKeeps(s.mem);
    var r := Statement(s, t).s;
    OthersKept(s, t, r.mem);
    AbsUpdate(s, t, r);
    FirstWaiting(s.mem);
  }

  /** The first item in the memory is the first that has entered and not left. */
  lemma FirstWaiting(m: Memory)
    requires Fifo(m) && m.chain != []
    ensures |m.popped| < |m.pushed| && m.pushed[|m.popped|] == m.cells[m.chain[0]].data
  {
    assert m.pushed[|m.popped|] == Contents(m)[0];
  }

  /** What the memory holds is what has entered and not left. */
  lemma HoldsWhatWaits(s: State)
    requires Inv(s)
    ensures A.Waiting(Abs(s)) == Contents(s.mem)
  {}

  predicate TakesEffectAt(p: PC) {
    p.PushLink? || p.PopTake?
  }

  /** The other statements change no queue item; they start, end or continue the call. */
  lemma QuietShape(s: State, t: nat)
    requires t < |s.pc| && !TakesEffectAt(s.pc[t]) && Statement(s, t).Ok?
    ensures var r := Statement(s, t).s;
            && |r.pc| == |s.pc| && r.pc == s.pc[t := r.pc[t]]
            && r.mem.pushed == s.mem.pushed && r.mem.popped == s.mem.popped
            && (forall a | a in Loose(s.mem) - Private(s.pc[t]) ::
                  a in r.mem.cells && r.mem.cells[a] == s.mem.cells[a])
            && (s.pc[t].PushLock? ==> r.mem == s.mem)
  {}

  /** How a quiet statement moves its thread's call. */
  lemma QuietCall(s: State, t: nat)
    requires t < |s.pc| && !TakesEffectAt(s.pc[t]) && !s.pc[t].PopRefuse? && Statement(s, t).Ok?
    ensures var (l, r) := (Label(s, Advance(t, {})), Statement(s, t).s);
            && |r.pc| == |s.pc|
            && var (c, d) := (CallOf(s.pc[t], s.mem), CallOf(r.pc[t], r.mem));
               || (l == A.Hidden && d == c)
               || (l == A.EndPush(t) && c == A.Pushed && d == A.NoCall)
               || (c.Popped? && l == A.EndPop(t, c.out) && d == A.NoCall)
  {}

  lemma QuietRefines(s: State, t: nat)
    requires Inv(s) && t < |s.pc| && !TakesEffectAt(s.pc[t]) && Statement(s, t).Ok?
    ensures A.Step(Abs(s), Label(s, Advance(t, {})), Abs(Statement(s, t).s))
    ensures Label(s, Advance(t, {})).Hidden? ==> Abs(Statement(s, t).s) == Abs(s)
  {
    var r := Statement(s, t).s;
    QuietShape(s, t);
    QuietCall(s, t);
    OthersKept(s, t, r.mem);
    AbsUpdate(s, t, r);
    assert Abs(s).calls[t := Abs(s).calls[t]] == Abs(s).calls;
  }

  lemma StatementRefines(s: State, t: nat)
    requires Inv(s) && t < |s.pc| && Statement(s, t).Ok?
    ensures A.Step(Abs(s), Label(s, Advance(t, {})), Abs(Statement(s, t).s))
  {
    if s.pc[t].PushLink? {
      PushLinkRefines(s, t);
    } else if s.pc[t].PopTake? {
      PopTakeRefines(s, t);
    } else {
      QuietRefines(s, t);
    }
  }

  lemma SignalRefines(s: State, t: nat, woken: set<nat>)
    requires t < |s.pc| && s.pc[t].PushSignal? && MayWake(s.pc, woken)
    ensures Abs(Apply(s, Advance(t, woken)).s) == Abs(s)
  {
    var r := Apply(s, Advance(t, woken)).s;
    forall u | 0 <= u < |s.pc| ensures CallOf(r.pc[u], r.mem) == CallOf(s.pc[u], s.mem) {
      assert u in woken ==> s.pc[u].PopWait?;
    }
    assert Abs(r).calls == Abs(s).calls;
  }

  lemma CallPushRefines(s: State, t: nat, data: Data, addr: Addr)
    requires Inv(s) && Apply(s, CallPush(t, data, addr)).Ok?
    ensures A.Step(Abs(s), A.StartPush(t, data), Abs(Apply(s, CallPush(t, data, addr)).s))
  {
    var r := Apply(s, CallPush(t, data, addr)).s;
    OthersKept(s, t, r.mem);
    AbsUpdate(s, t, r);
  }

  lemma GotoAbs(s: State, t: nat, p: PC)
    requires Sound(s) && t < |s.pc|
    ensures Abs(Goto(s, t, p)) == Abs(s).(calls := Abs(s).calls[t := CallOf(p, s.mem)])
  {
    OthersKept(s, t, s.mem);
    AbsUpdate(s, t, Goto(s, t, p));
  }

  lemma CallPopRefines(s: State, t: nat)
    requires Sound(s) && t < |s.pc| && s.pc[t].Idle?
    ensures A.Step(Abs(s), A.StartPop(t), Abs(Goto(s, t, PopLock)))
  {
    GotoAbs(s, t, PopLock);
  }

  lemma SpuriousRefines(s: State, t: nat)
    requires Sound(s) && t < |s.pc| && s.pc[t].PopWait?
    ensures Abs(Goto(s, t, PopWoken)) == Abs(s)
  {
    GotoAbs(s, t, PopWoken);
    assert Abs(s).calls[t := Abs(s).calls[t]] == Abs(s).calls;
  }

  /** Every event of the threads is a step of the atomic queue with the same label. */
  lemma StepRefines(s: State, e: Event)
    requires Inv(s) && Apply(s, e).Ok?
    ensures A.Step(Abs(s), Label(s, e), Abs(Apply(s, e).s))
  {
    match e
    case CallPush(t, data, addr) => CallPushRefines(s, t, data, addr);
    case CallPop(t) => CallPopRefines(s, t);
    case Spurious(t) => SpuriousRefines(s, t);
    case Advance(t, woken) =>
      if s.pc[t].PushSignal? {
        SignalRefines(s, t, woken);
      } else {
        StatementRefines(s, t);
      }
  }

  // ---------------------------------------------------------------------------------------
  // Every run
  // ---------------------------------------------------------------------------------------

  lemma {:induction false} RunRefines(s: State, events: seq<Event>)
    requires Inv(s) && Run(s, events).Ok?
    ensures A.Explains(Abs(s), Labels(s, events), Abs(Run(s, events).s))
    decreases |events|
  {
    if events != [] {
      var next := Apply(s, events[0]).s;
      StepRefines(s, events[0]);
      InvKept(s, events[0]);
      RunRefines(next, events[1..]);
      var labels := Labels(s, events);
      assert labels[0] == Label(s, events[0]) && labels[1..] == Labels(next, events[1..]);
      assert A.Step(Abs(s), labels[0], Abs(next)) && A.Explains(Abs(next), labels[1..], Abs(Run(s, events).s));
    }
  }

  function NoCalls(threads: nat): A.Atomic<Data> {
    A.Atomic(seq(threads, _ => A.NoCall), [], [])
  }

  lemma StartsEmpty(threads: nat)
    ensures Abs(Start(threads)) == NoCalls(threads)
  {
    assert Abs(Start(threads)).calls == NoCalls(threads).calls;
  }

  /**
  For any number of threads, the calls of every run are explained by the atomic queue: each push
  enters the very item it was called with, each pop returns the very item that left for it, both
  at one moment between start and return, and items leave in the order in which they entered.
  */
  lemma RunIsLinearizable(threads: nat, events: seq<Event>)
    requires Run(Start(threads), events).Ok?
    ensures A.Explains(NoCalls(threads), Labels(Start(threads), events), Abs(Run(Start(threads), events).s))
  {
    StartInv(threads);
    StartsEmpty(threads);
    RunRefines(Start(threads), events);
  }

  lemma {:induction false} NothingGathered(calls: seq<A.Call<Data>>, items: A.Call<Data> -> multiset<Data>)
    requires items(A.NoCall) == multiset{} && forall t | 0 <= t < |calls| :: calls[t] == A.NoCall
    ensures A.Gathered(calls, items) == multiset{}
  {
    if calls != [] {
      NothingGathered(calls[1..], items);
    }
  }

  /**
  The items given to queue_push are those linked and those in nodes still to be linked; the items
  taken are those returned by queue_pop and those about to be.
  */
  lemma RunConservesItems(threads: nat, events: seq<Event>)
    requires Run(Start(threads), events).Ok?
    ensures var (s, labels) := (Run(Start(threads), events).s, Labels(Start(threads), events));
            && A.Given(labels) == multiset(s.mem.pushed) + A.Gathered(Calls(s.pc, s.mem), A.ToEnter)
            && multiset(s.mem.popped) == A.Returned(labels) + A.Gathered(Calls(s.pc, s.mem), A.ToReturn)
            && Linked(s.mem) && s.mem.pushed == s.mem.popped + Contents(s.mem)
  {
    var (s, labels) := (Run(Start(threads), events).s, Labels(Start(threads), events));
    StartInv(threads);
    RunKeepsInv(Start(threads), events);
    RunIsLinearizable(threads, events);
    NothingGathered(NoCalls(threads).calls, A.ToEnter);
    NothingGathered(NoCalls(threads).calls, A.ToReturn);
    A.ExplainedConserves(NoCalls(threads), labels, Abs(s), multiset{}, multiset{});
  }

  /** Once every call has returned, what was given and not returned is what the queue holds. */
  lemma IdleHoldsTheRest(threads: nat, events: seq<Event>)
    requires Run(Start(threads), events).Ok?
    requires forall t | 0 <= t < |Run(Start(threads), events).s.pc| :: Run(Start(threads), events).s.pc[t].Idle?
    ensures var (s, labels) := (Run(Start(threads), events).s, Labels(Start(threads), events));
            Linked(s.mem) && A.Given(labels) == A.Returned(labels) + multiset(Contents(s.mem))
  {
    var (s, labels) := (Run(Start(threads), events).s, Labels(Start(threads), events));
    RunConservesItems(threads, events);
    NothingGathered(Calls(s.pc, s.mem), A.ToEnter);
    NothingGathered(Calls(s.pc, s.mem), A.ToReturn);
    assert multiset(s.mem.pushed) == multiset(s.mem.popped) + multiset(Contents(s.mem));
  }
}
