/**
What holds over whole runs of the threaded queue, for any number of threads, any interleaving,
spurious wakeups included.
*/
module ThreadedQueueTheorems {
  import opened Wrappers
  import opened ThreadedQueue
  import opened ThreadedQueueProofs

  lemma {:induction false} RunKeepsInv(s: State, events: seq<Event>)
    requires Inv(s)
    ensures !Run(s, events).Fault?
    ensures Run(s, events).Ok? ==> Inv(Run(s, events).s)
    decreases |events|
  {
    if events != [] {
      InvKept(s, events[0]);
      if Apply(s, events[0]).Ok? {
        RunKeepsInv(Apply(s, events[0]).s, events[1..]);
      }
    }
  }

  /** Items leave in the order they came, none lost or doubled; pointers and ends stay right. */
  lemma RunIsFifo(threads: nat, events: seq<Event>)
    ensures !Run(Start(threads), events).Fault?
    ensures Run(Start(threads), events).Ok? ==>
              var s := Run(Start(threads), events).s;
              && Fifo(s.mem)
              && (s.owner.None? ==> (s.mem.head.None? <==> s.mem.tail.None?))
              && (forall t | 0 <= t < |s.pc| :: !s.pc[t].PopRefuse?)
              && (forall a | a in s.mem.cells :: a in s.mem.chain || Known(s.pc, a))
  {
    StartInv(threads);
    RunKeepsInv(Start(threads), events);
  }

  /** Between critical sections, waiters and untaken items need a woken consumer per item. */
  lemma RunLosesNoWakeup(threads: nat, events: seq<Event>)
    requires Run(Start(threads), events).Ok?
    ensures var s := Run(Start(threads), events).s;
            s.owner.None? && Total(s.pc, IsWaiting) > 0 ==> |s.mem.chain| <= Total(s.pc, IsWoken)
  {
    StartInv(threads);
    RunKeepsInv(Start(threads), events);
    var s := Run(Start(threads), events).s;
    if s.owner.None? {
      NobodyOwes(s);
    }
  }

  lemma NobodyOwes(s: State)
    requires MutualExclusion(s) && s.owner.None?
    ensures Total(s.pc, OwesSignal) == 0
  {
    forall t | 0 <= t < |s.pc| ensures OwesSignal(s.pc[t]) == 0 {
      assert !Inside(s.pc[t]);
    }
    TotalZero(s.pc, OwesSignal);
  }

  // ---------------------------------------------------------------------------------------
  // Started calls finish or wait for an item
  // ---------------------------------------------------------------------------------------

  function PushWork(p: PC): nat {
    match p
    case PushLock(_) => 6
    case PushLink(_) => 5
    case PushTail(_) => 4
    case PushSignal => 3
    case PushUnlock => 2
    case PushReturn => 1
    case _ => 0
  }

  function PopWork(p: PC): nat {
    match p
    case PopLock => 7
    case PopWoken => 7
    case PopTest(_) => 6
    case PopTake(_) => 5
    case PopFix(_, _) => 4
    case PopFree(_, _) => 3
    case PopUnlock(_) => 2
    case PopReturn(_) => 1
    case PopRefuse => 1
    case _ => 0
  }

  /** An upper bound on the statements left before every thread is idle or waiting. */
  function WorkLeft(s: State): nat {
    (7 * |s.pc| + 1) * Total(s.pc, PushWork) + Total(s.pc, PopWork)
  }

  lemma {:induction false} TotalBounded(pc: seq<PC>, pc': seq<PC>, weight: PC -> nat, k: nat)
    requires |pc'| == |pc|
    requires forall t | 0 <= t < |pc| :: weight(pc'[t]) <= weight(pc[t]) + k
    ensures Total(pc', weight) <= Total(pc, weight) + k * |pc|
  {
    if pc != [] {
      assert forall t | 0 <= t < |pc[1..]| :: pc[1..][t] == pc[t + 1] && pc'[1..][t] == pc'[t + 1];
      TotalBounded(pc[1..], pc'[1..], weight, k);
      assert k * |pc| == k + k * |pc[1..]|;
    }
  }

  lemma Lexicographic(width: nat, high: nat, low: nat, high': nat, low': nat)
    requires high' < high && low' <= low + width
    ensures (width + 1) * high' + low' < (width + 1) * high + low
  {
    assert (width + 1) * high >= (width + 1) * (high' + 1) == (width + 1) * high' + width + 1;
  }

  lemma SignalDecreases(s: State, t: nat, woken: set<nat>)
    requires t < |s.pc| && s.pc[t].PushSignal?
    requires Apply(s, Advance(t, woken)).Ok?
    ensures WorkLeft(Apply(s, Advance(t, woken)).s) < WorkLeft(s)
  {
    var r := Apply(s, Advance(t, woken)).s;
    var w := Wake(s.pc, woken);
    TotalBounded(s.pc, w, PopWork, 7);
    TotalMonotone(w, s.pc, PushWork);
    TotalUpdate(w, t, PushUnlock, PushWork);
    TotalUpdate(w, t, PushUnlock, PopWork);
    Lexicographic(7 * |s.pc|, Total(s.pc, PushWork), Total(s.pc, PopWork),
                  Total(r.pc, PushWork), Total(r.pc, PopWork));
  }

  lemma StatementDecreases(s: State, t: nat)
    requires t < |s.pc| && Statement(s, t).Ok?
    ensures WorkLeft(Statement(s, t).s) < WorkLeft(s)
  {
    var r := Statement(s, t).s;
    if Pushes(s.pc[t]) {
      PushStatementWork(s, t);
    } else {
      PopStatementWork(s, t);
    }
    TotalUpdate(s.pc, t, r.pc[t], PushWork);
    TotalUpdate(s.pc, t, r.pc[t], PopWork);
    if Total(r.pc, PushWork) < Total(s.pc, PushWork) {
      Lexicographic(7 * |s.pc|, Total(s.pc, PushWork), Total(s.pc, PopWork),
                    Total(r.pc, PushWork), Total(r.pc, PopWork));
    }
  }

  /** Every statement brings the running calls nearer to their end. */
  lemma AdvanceDecreases(s: State, t: nat, woken: set<nat>)
    requires Apply(s, Advance(t, woken)).Ok?
    ensures WorkLeft(Apply(s, Advance(t, woken)).s) < WorkLeft(s)
  {
    if s.pc[t].PushSignal? {
      SignalDecreases(s, t, woken);
    } else {
      StatementDecreases(s, t);
    }
  }

  ghost predicate DoesWork(s: State, t: nat, r: State)
    requires t < |s.pc|
  {
    && |r.pc| == |s.pc| && r.pc == s.pc[t := r.pc[t]]
    && PushWork(r.pc[t]) <= PushWork(s.pc[t]) && PopWork(r.pc[t]) <= PopWork(s.pc[t])
    && PushWork(r.pc[t]) + PopWork(r.pc[t]) < PushWork(s.pc[t]) + PopWork(s.pc[t])
  }

  lemma PushStatementWork(s: State, t: nat)
    requires t < |s.pc| && Pushes(s.pc[t]) && Statement(s, t).Ok?
    ensures DoesWork(s, t, Statement(s, t).s)
  {}

  lemma PopStatementWork(s: State, t: nat)
    requires t < |s.pc| && !Pushes(s.pc[t]) && Statement(s, t).Ok?
    ensures DoesWork(s, t, Statement(s, t).s)
  {}

  ghost predicate AllAdvance(events: seq<Event>) {
    forall i | 0 <= i < |events| :: events[i].Advance?
  }

  /** Without new calls and spurious wakeups, no schedule runs longer than the work left. */
  lemma {:induction false} RunsAreBounded(s: State, events: seq<Event>)
    requires AllAdvance(events) && Run(s, events).Ok?
    ensures |events| <= WorkLeft(s)
    decreases |events|
  {
    if events != [] {
      var e := events[0];
      AdvanceDecreases(s, e.t, e.woken);
      RunsAreBounded(Apply(s, e).s, events[1..]);
    }
  }

  ghost predicate CanAdvance(s: State) {
    exists t, woken :: Apply(s, Advance(t, woken)).Ok?
  }

  ghost predicate Quiescent(s: State) {
    forall t | 0 <= t < |s.pc| :: s.pc[t].Idle? || s.pc[t].PopWait?
  }

  function Waiters(pc: seq<PC>): (w: set<nat>) {
    set i | 0 <= i < |pc| && pc[i].PopWait?
  }

  lemma WakeAll(pc: seq<PC>)
    ensures MayWake(pc, Waiters(pc))
  {
    if i :| 0 <= i < |pc| && pc[i].PopWait? {
      assert i in Waiters(pc);
    }
  }

  /** A thread inside the mutex, or any active thread while the mutex is free, can go on. */
  lemma CanGoOn(s: State, t: nat)
    requires Inv(s) && t < |s.pc| && !s.pc[t].Idle? && !s.pc[t].PopWait?
    requires s.owner == Some(t) || s.owner.None?
    ensures CanAdvance(s)
  {
    if s.pc[t].PushSignal? {
      WakeAll(s.pc);
      assert Apply(s, Advance(t, Waiters(s.pc))).Ok?;
    } else {
      StatementKeepsSound(s, t);
      assert Apply(s, Advance(t, {})).Ok?;
    }
  }

  /** The threads stop exactly when each is idle or waiting; there is no deadlock. */
  lemma StopsIffQuiescent(s: State)
    requires Inv(s)
    ensures CanAdvance(s) <==> !Quiescent(s)
  {
    if !Quiescent(s) {
      var t :| 0 <= t < |s.pc| && !s.pc[t].Idle? && !s.pc[t].PopWait?;
      CanGoOn(s, if s.owner.Some? then s.owner.value else t);
    }
  }

  ghost predicate SomeoneWaits(s: State) {
    exists t :: 0 <= t < |s.pc| && s.pc[t].PopWait?
  }

  /** Once the threads stop, nobody waits while there is an item to take. */
  lemma StoppedMeansServed(s: State)
    requires Inv(s) && Quiescent(s)
    ensures s.owner.None? && (SomeoneWaits(s) ==> s.mem.chain == [])
  {
    assert s.owner.Some? ==> !Inside(s.pc[s.owner.value]);
    NobodyOwes(s);
    TotalZero(s.pc, IsWoken);
    if t :| 0 <= t < |s.pc| && s.pc[t].PopWait? {
      TotalAtLeast(s.pc, t, IsWaiting);
    }
  }

  /** A run of statements alone after which the threads have stopped and every waiter is served. */
  ghost predicate Settles(s: State, events: seq<Event>) {
    && AllAdvance(events)
    && Run(s, events).Ok?
    && Quiescent(Run(s, events).s)
    && (SomeoneWaits(Run(s, events).s) ==> Run(s, events).s.mem.chain == [])
  }

  lemma SettlesNow(s: State)
    requires Inv(s) && Quiescent(s)
    ensures Settles(s, [])
  {
    StoppedMeansServed(s);
  }

  lemma SettlesLater(s: State, e: Event, rest: seq<Event>)
    requires e.Advance? && Apply(s, e).Ok? && Settles(Apply(s, e).s, rest)
    ensures Settles(s, [e] + rest)
  {
    assert ([e] + rest)[1..] == rest;
  }

  /** From every reachable state the running calls can be driven to the end, serving the waiters. */
  lemma {:induction false} Settle(s: State) returns (events: seq<Event>)
    requires Inv(s)
    ensures Settles(s, events)
    decreases WorkLeft(s)
  {
    StopsIffQuiescent(s);
    if Quiescent(s) {
      SettlesNow(s);
      events := [];
    } else {
      var t, woken :| Apply(s, Advance(t, woken)).Ok?;
      var e := Advance(t, woken);
      InvKept(s, e);
      AdvanceDecreases(s, t, woken);
      var rest := Settle(Apply(s, e).s);
      SettlesLater(s, e, rest);
      events := [e] + rest;
    }
  }

  /** And every schedule that stops, whichever it was, has served the waiters. */
  lemma EveryStopServes(threads: nat, events: seq<Event>)
    requires Run(Start(threads), events).Ok? && !CanAdvance(Run(Start(threads), events).s)
    ensures var s := Run(Start(threads), events).s;
            Quiescent(s) && (SomeoneWaits(s) ==> s.mem.chain == [])
  {
    StartInv(threads);
    RunKeepsInv(Start(threads), events);
    StopsIffQuiescent(Run(Start(threads), events).s);
    StoppedMeansServed(Run(Start(threads), events).s);
  }
}
