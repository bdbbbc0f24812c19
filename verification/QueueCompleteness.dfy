/**
The threads can do all that the atomic queue promises: every run of the atomic queue is what the
callers see of some run of the threads.  With QueueRefinement, the two show the callers the same.
*/
module QueueCompleteness {
  import opened Wrappers
  import opened ThreadedQueue
  import opened ThreadedQueueProofs
  import opened ThreadedQueueTheorems
  import opened QueueRefinement
  import A = AtomicQueue

  // ---------------------------------------------------------------------------------------
  // Which events are possible
  // ---------------------------------------------------------------------------------------

  /** A call is possible whenever its thread is not in one already, whatever the queue holds. */
  lemma CallsAreFree(s: State, t: nat, data: Data, addr: Addr)
    ensures Apply(s, CallPop(t)).Ok? <==> t < |s.pc| && s.pc[t].Idle?
    ensures Apply(s, CallPush(t, data, addr)).Ok? <==> t < |s.pc| && s.pc[t].Idle? && addr !in s.mem.cells
  {}

  /** A waiter may wake for no reason, and a signal may wake any waiters as long as it wakes one. */
  lemma WakeupsAreFree(s: State, t: nat, woken: set<nat>)
    requires t < |s.pc|
    ensures Apply(s, Spurious(t)).Ok? <==> s.pc[t].PopWait?
    ensures s.pc[t].PushSignal? ==>
              (Apply(s, Advance(t, woken)).Ok? <==>
                 woken <= Waiters(s.pc) && (woken == {} ==> Waiters(s.pc) == {}))
  {
    if i :| 0 <= i < |s.pc| && s.pc[i].PopWait? {
      assert i in Waiters(s.pc);
    }
    assert woken <= Waiters(s.pc) <==> forall i | i in woken :: i < |s.pc| && s.pc[i].PopWait?;
  }

  /** Every other statement is possible exactly when it does not have to wait for the mutex. */
  lemma StatementsAreFree(s: State, t: nat)
    requires Inv(s) && t < |s.pc| && !s.pc[t].PushSignal?
    ensures Apply(s, Advance(t, {})).Ok? <==>
              match s.pc[t]
              case Idle => false
              case PopWait => false
              case PushLock(_) => s.owner.None?
              case PopLock => s.owner.None?
              case PopWoken => s.owner.None?
              case _ => true
  {
    if !s.pc[t].PopWait? {
      StatementKeepsSound(s, t);
    }
  }

  /** A consumer that finds the queue empty waits, and gives the mutex back; otherwise it goes on. */
  lemma WaitsIffEmpty(s: State, t: nat)
    requires Inv(s) && t < |s.pc| && s.pc[t].PopTest?
    ensures Statement(s, t).Ok?
    ensures var r := Statement(s, t).s;
            && (s.mem.chain == [] ==> r == s.(pc := s.pc[t := PopWait], owner := None))
            && (s.mem.chain != [] ==> r == s.(pc := s.pc[t := PopTake(s.pc[t].woken)]))
  {}

  // ---------------------------------------------------------------------------------------
  // Pieces of runs
  // ---------------------------------------------------------------------------------------

  /** The events lead from s to r, and the callers see these labels. */
  ghost predicate Leads(s: State, events: seq<Event>, r: State, seen: seq<A.Label<Data>>) {
    Run(s, events) == Ok(r) && Inv(r) && A.Visible(Labels(s, events)) == seen
  }

  lemma {:induction false} RunAppends(s: State, a: seq<Event>, b: seq<Event>)
    requires Run(s, a).Ok?
    ensures Run(s, a + b) == Run(Run(s, a).s, b)
    ensures Labels(s, a + b) == Labels(s, a) + Labels(Run(s, a).s, b)
    decreases |a|
  {
    if a == [] {
      assert a + b == b;
    } else {
      assert (a + b)[1..] == a[1..] + b;
      RunAppends(Apply(s, a[0]).s, a[1..], b);
    }
  }

  lemma LeadsOn(s: State, a: seq<Event>, m: State, x: seq<A.Label<Data>>,
                b: seq<Event>, r: State, y: seq<A.Label<Data>>)
    requires Leads(s, a, m, x) && Leads(m, b, r, y)
    ensures Leads(s, a + b, r, x + y)
  {
    RunAppends(s, a, b);
    A.VisibleAppends(Labels(s, a), Labels(m, b));
  }

  lemma LeadsNowhere(s: State)
    requires Inv(s)
    ensures Leads(s, [], s, [])
  {}

  lemma OneEvent(s: State, e: Event)
    requires Inv(s) && Apply(s, e).Ok?
    ensures Leads(s, [e], Apply(s, e).s, if Label(s, e).Hidden? then [] else [Label(s, e)])
  {
    InvKept(s, e);
    var next := Apply(s, e).s;
    assert [e][1..] == [] && Run(next, []) == Ok(next);
    assert Labels(s, [e]) == [Label(s, e)] + Labels(next, []) == [Label(s, e)];
    assert A.Visible([Label(s, e)][1..]) == [];
  }

  // ---------------------------------------------------------------------------------------
  // One call takes effect
  // ---------------------------------------------------------------------------------------

  /** The statements between a call's effect and its giving back the mutex. */
  predicate Past(p: PC) {
    p.PushTail? || p.PushSignal? || p.PushUnlock? || p.PopFix? || p.PopFree? || p.PopUnlock?
  }

  lemma PastShape(s: State, t: nat)
    requires t < |s.pc| && Past(s.pc[t]) && !s.pc[t].PushSignal? && s.owner == Some(t) && Statement(s, t).Ok?
    ensures var r := Statement(s, t).s;
            && t < |r.pc| && Label(s, Advance(t, {})).Hidden? && !TakesEffectAt(s.pc[t])
            && ((Past(r.pc[t]) && r.owner == Some(t)) || r.owner.None?)
  {}

  /** Whoever is past its effect can give back the mutex, and nothing changes for the callers. */
  lemma {:induction false} Finish(s: State, t: nat) returns (events: seq<Event>, r: State)
    requires Inv(s) && t < |s.pc| && s.owner == Some(t) && Past(s.pc[t])
    ensures Leads(s, events, r, []) && r.owner.None? && Abs(r) == Abs(s)
    decreases WorkLeft(s)
  {
    var woken := if s.pc[t].PushSignal? then Waiters(s.pc) else {};
    var e := Advance(t, woken);
    if s.pc[t].PushSignal? {
      WakeAll(s.pc);
      SignalRefines(s, t, woken);
    } else {
      StatementsAreFree(s, t);
      PastShape(s, t);
      QuietRefines(s, t);
    }
    var next := Apply(s, e).s;
    OneEvent(s, e);
    AdvanceDecreases(s, t, woken);
    events, r := [e], next;
    if next.owner.Some? {
      var rest;
      rest, r := Finish(next, t);
      LeadsOn(s, [e], next, [], rest, r, []);
      events := [e] + rest;
    }
  }

  lemma EffectShape(s: State, t: nat)
    requires Inv(s) && t < |s.pc| && TakesEffectAt(s.pc[t])
    ensures Statement(s, t).Ok? && Label(s, Advance(t, {})).Hidden?
    ensures var r := Statement(s, t).s;
            t < |r.pc| && Past(r.pc[t]) && r.owner == Some(t)
  {
    assert Inside(s.pc[t]);
    StatementKeepsSound(s, t);
  }

  /** From the statement at which a call takes effect to the end of its critical section. */
  lemma EffectAndFinish(s: State, t: nat) returns (events: seq<Event>, r: State)
    requires Inv(s) && t < |s.pc| && TakesEffectAt(s.pc[t])
    ensures Leads(s, events, r, []) && r.owner.None? && A.TakesEffect(Abs(s), t, Abs(r))
  {
    var e := Advance(t, {});
    EffectShape(s, t);
    if s.pc[t].PushLink? {
      PushLinkRefines(s, t);
    } else {
      PopTakeRefines(s, t);
    }
    OneEvent(s, e);
    var done := Statement(s, t).s;
    events, r := Finish(done, t);
    LeadsOn(s, [e], done, [], events, r, []);
    events := [e] + events;
  }

  lemma LockShape(s: State, t: nat)
    requires Inv(s) && s.owner.None? && t < |s.pc| && (s.pc[t].PushLock? || s.pc[t].PopLock? || s.pc[t].PopWoken?)
    ensures Statement(s, t).Ok? && Label(s, Advance(t, {})).Hidden?
    ensures var r := Statement(s, t).s;
            && t < |r.pc| && r.mem == s.mem && Abs(r) == Abs(s)
            && (if s.pc[t].PushLock? then r.pc[t].PushLink? else r.pc[t].PopTest?)
  {
    QuietRefines(s, t);
  }

  lemma PushEffect(s: State, t: nat) returns (events: seq<Event>, r: State)
    requires Inv(s) && s.owner.None? && t < |s.pc| && s.pc[t].PushLock?
    ensures Leads(s, events, r, []) && r.owner.None? && A.TakesEffect(Abs(s), t, Abs(r))
  {
    var e := Advance(t, {});
    LockShape(s, t);
    OneEvent(s, e);
    var locked := Statement(s, t).s;
    events, r := EffectAndFinish(locked, t);
    LeadsOn(s, [e], locked, [], events, r, []);
    events := [e] + events;
  }

  lemma TestEffect(s: State, t: nat) returns (events: seq<Event>, r: State)
    requires Inv(s) && s.mem.chain != [] && t < |s.pc| && s.pc[t].PopTest?
    ensures Leads(s, events, r, []) && r.owner.None? && A.TakesEffect(Abs(s), t, Abs(r))
  {
    var e := Advance(t, {});
    WaitsIffEmpty(s, t);
    OneEvent(s, e);
    QuietRefines(s, t);
    var tested := Statement(s, t).s;
    events, r := EffectAndFinish(tested, t);
    LeadsOn(s, [e], tested, [], events, r, []);
    events := [e] + events;
  }

  lemma PopEffect(s: State, t: nat) returns (events: seq<Event>, r: State)
    requires Inv(s) && s.owner.None? && s.mem.chain != []
    requires t < |s.pc| && (s.pc[t].PopLock? || s.pc[t].PopWoken?)
    ensures Leads(s, events, r, []) && r.owner.None? && A.TakesEffect(Abs(s), t, Abs(r))
  {
    var e := Advance(t, {});
    LockShape(s, t);
    OneEvent(s, e);
    var locked := Statement(s, t).s;
    events, r := TestEffect(locked, t);
    LeadsOn(s, [e], locked, [], events, r, []);
    events := [e] + events;
  }

  /** A waiter wakes by itself first. */
  lemma WaiterEffect(s: State, t: nat) returns (events: seq<Event>, r: State)
    requires Inv(s) && s.owner.None? && s.mem.chain != [] && t < |s.pc| && s.pc[t].PopWait?
    ensures Leads(s, events, r, []) && r.owner.None? && A.TakesEffect(Abs(s), t, Abs(r))
  {
    var e := Spurious(t);
    var awake := Apply(s, e).s;
    OneEvent(s, e);
    SpuriousRefines(s, t);
    events, r := PopEffect(awake, t);
    LeadsOn(s, [e], awake, [], events, r, []);
    events := [e] + events;
  }

  /** Where a thread stands while nobody holds the mutex, by what the callers see of it. */
  lemma StandsOutside(s: State, t: nat)
    requires Inv(s) && s.owner.None? && t < |s.pc|
    ensures match Abs(s).calls[t]
            case NoCall => s.pc[t].Idle?
            case Pushing(_) => s.pc[t].PushLock?
            case Pushed => s.pc[t].PushReturn?
            case Popping => s.pc[t].PopLock? || s.pc[t].PopWait? || s.pc[t].PopWoken?
            case Popped(out) => s.pc[t] == PopReturn(out)
  {
    assert !Inside(s.pc[t]);
  }

  lemma EffectHappens(s: State, t: nat, b: A.Atomic<Data>) returns (events: seq<Event>, r: State)
    requires Inv(s) && s.owner.None? && A.TakesEffect(Abs(s), t, b)
    ensures Leads(s, events, r, []) && r.owner.None? && Abs(r) == b
  {
    StandsOutside(s, t);
    if s.pc[t].PushLock? {
      events, r := PushEffect(s, t);
    } else {
      HoldsWhatWaits(s);
      if s.pc[t].PopWait? {
        events, r := WaiterEffect(s, t);
      } else {
        events, r := PopEffect(s, t);
      }
    }
  }

  // ---------------------------------------------------------------------------------------
  // Every step and every run of the atomic queue
  // ---------------------------------------------------------------------------------------

  lemma {:induction false} AddressAbove(used: set<Addr>) returns (a: Addr)
    ensures forall u | u in used :: u < a
  {
    a := 0;
    if used != {} {
      var u :| u in used;
      var b := AddressAbove(used - {u});
      a := if u < b then b else u + 1;
      assert used == (used - {u}) + {u};
    }
  }

  lemma StartHappens(s: State, t: nat, l: A.Label<Data>, b: A.Atomic<Data>) returns (e: Event)
    requires Inv(s) && s.owner.None? && A.Step(Abs(s), l, b)
    requires l.StartPush? || l.StartPop?
    ensures Apply(s, e).Ok? && Label(s, e) == l && Apply(s, e).s.owner.None? && Abs(Apply(s, e).s) == b
  {
    StandsOutside(s, l.t);
    if l.StartPush? {
      var a := AddressAbove(s.mem.cells.Keys);
      e := CallPush(l.t, l.data, a);
      CallsAreFree(s, l.t, l.data, a);
    } else {
      e := CallPop(l.t);
      CallsAreFree(s, l.t, 0, 0);
    }
    StepRefines(s, e);
  }

  lemma EndHappens(s: State, l: A.Label<Data>, b: A.Atomic<Data>)
    requires Inv(s) && s.owner.None? && A.Step(Abs(s), l, b)
    requires l.EndPush? || l.EndPop?
    ensures var e := Advance(l.t, {});
            Apply(s, e).Ok? && Label(s, e) == l && Apply(s, e).s.owner.None? && Abs(Apply(s, e).s) == b
  {
    StandsOutside(s, l.t);
    StepRefines(s, Advance(l.t, {}));
  }

  /** Every step of the atomic queue is made by some events of the threads, between critical sections. */
  lemma StepHappens(s: State, l: A.Label<Data>, b: A.Atomic<Data>) returns (events: seq<Event>, r: State)
    requires Inv(s) && s.owner.None? && A.Step(Abs(s), l, b)
    ensures Leads(s, events, r, if l.Hidden? then [] else [l]) && r.owner.None? && Abs(r) == b
  {
    if l.Hidden? {
      if Abs(s) == b {
        LeadsNowhere(s);
        events, r := [], s;
      } else {
        var t: nat :| A.TakesEffect(Abs(s), t, b);
        events, r := EffectHappens(s, t, b);
      }
    } else {
      var e: Event;
      if l.StartPush? || l.StartPop? {
        e := StartHappens(s, l.t, l, b);
      } else {
        EndHappens(s, l, b);
        e := Advance(l.t, {});
      }
      OneEvent(s, e);
      events, r := [e], Apply(s, e).s;
    }
  }

  lemma {:induction false} RunHappens(s: State, labels: seq<A.Label<Data>>, b: A.Atomic<Data>)
    returns (events: seq<Event>, r: State)
    requires Inv(s) && s.owner.None? && A.Explains(Abs(s), labels, b)
    ensures Leads(s, events, r, A.Visible(labels)) && r.owner.None? && Abs(r) == b
    decreases |labels|
  {
    if labels == [] {
      LeadsNowhere(s);
      events, r := [], s;
    } else {
      var m :| A.Step(Abs(s), labels[0], m) && A.Explains(m, labels[1..], b);
      var first, next := StepHappens(s, labels[0], m);
      events, r := RunHappens(next, labels[1..], b);
      LeadsOn(s, first, next, if labels[0].Hidden? then [] else [labels[0]], events, r, A.Visible(labels[1..]));
      events := first + events;
    }
  }

  ghost predicate Shows(threads: nat, events: seq<Event>, seen: seq<A.Label<Data>>) {
    Run(Start(threads), events).Ok? && A.Visible(Labels(Start(threads), events)) == seen
  }

  ghost predicate Promised(threads: nat, labels: seq<A.Label<Data>>, seen: seq<A.Label<Data>>) {
    (exists b :: A.Explains(NoCalls(threads), labels, b)) && A.Visible(labels) == seen
  }

  /** The callers can see exactly what the atomic queue promises: no more, and no less. */
  lemma SeenIffPromised(threads: nat, seen: seq<A.Label<Data>>)
    ensures (exists events :: Shows(threads, events, seen)) <==> (exists labels :: Promised(threads, labels, seen))
  {
    if events :| Shows(threads, events, seen) {
      RunIsLinearizable(threads, events);
      assert Promised(threads, Labels(Start(threads), events), seen);
    }
    if labels :| Promised(threads, labels, seen) {
      var b :| A.Explains(NoCalls(threads), labels, b);
      StartInv(threads);
      StartsEmpty(threads);
      var events, r := RunHappens(Start(threads), labels, b);
      assert Shows(threads, events, seen);
    }
  }
}
