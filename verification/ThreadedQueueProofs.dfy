/** Every step of the threaded queue keeps its invariants. */
module ThreadedQueueProofs {
  import opened Wrappers
  import opened ThreadedQueue

  // ---------------------------------------------------------------------------------------
  // Memory
  // ---------------------------------------------------------------------------------------

  lemma AllocateKeeps(m: Memory, a: Addr, data: Data)
    requires Fifo(m) && a !in m.cells
    ensures var r := Allocate(m, a, data); Fifo(r) && Loose(r) == Loose(m) + {a}
  {
    var r := Allocate(m, a, data);
    assert Contents(r) == Contents(m);
    assert a !in m.chain;
  }

  lemma LinkNodeKeeps(m: Memory, n: Addr)
    requires Fifo(m) && TailFits(m, PushLink(n)) && n in Loose(m) && m.cells[n].next.None?
    ensures LinkNode(m, n).Some?
    ensures var r := LinkNode(m, n).value;
            && Fifo(r) && Loose(r) == Loose(m) - {n}
            && TailFits(r, if m.tail.None? then PushSignal else PushTail(n))
            && (forall a | a in Loose(m) :: a in r.cells && r.cells[a] == m.cells[a])
  {
    var r := LinkNode(m, n).value;
    assert Contents(r) == Contents(m) + [m.cells[n].data];
  }

  lemma TakeFirstShape(m: Memory)
    requires Linked(m) && m.chain != []
    ensures TakeFirst(m).Some? && m.head == Some(m.chain[0])
    ensures Linked(TakeFirst(m).value)
  {
    var r := TakeFirst(m).value;
    assert r.chain == m.chain[1..] && r.cells == m.cells;
    forall i | 0 <= i < |r.chain|
      ensures r.cells[r.chain[i]].next == Follower(r.chain, i)
    {
      assert r.chain[i] == m.chain[i + 1] && Follower(m.chain, i + 1) == Follower(r.chain, i);
    }
    assert Follower(m.chain, 0) == First(r.chain);
  }

  lemma TakeFirstTail(m: Memory, out: Data)
    requires Linked(m) && m.chain != [] && m.tail == Last(m.chain)
    ensures TakeFirst(m).Some? && TailFits(TakeFirst(m).value, PopFix(m.chain[0], out))
  {}

  lemma TakeFirstKeeps(m: Memory)
    requires Fifo(m) && m.chain != [] && m.tail == Last(m.chain)
    ensures TakeFirst(m).Some? && m.head.Some? && m.head.value in m.cells
    ensures var (r, a) := (TakeFirst(m).value, m.head.value);
            && Fifo(r) && Loose(r) == Loose(m) + {a} && a !in Loose(m)
            && TailFits(r, PopFix(a, m.cells[a].data))
            && r.popped == m.popped + [m.cells[a].data]
  {
    TakeFirstShape(m);
    TakeFirstTail(m, m.cells[m.chain[0]].data);
    var r := TakeFirst(m).value;
    assert Contents(m) == [m.cells[m.chain[0]].data] + Contents(r);
    assert m.chain == [m.chain[0]] + r.chain;
    assert m.chain[0] !in r.chain;
    forall a ensures a in m.chain <==> a == m.chain[0] || a in r.chain {}
  }

  lemma TailStepsKeep(m: Memory, n: Addr, a: Addr, out: Data)
    requires Fifo(m)
    ensures TailFits(m, PushTail(n)) ==> TailFits(SetTail(m, n), PushSignal)
    ensures TailFits(m, PopFix(a, out)) ==> TailFits(FixTail(m), PopFree(a, out))
    ensures Fifo(SetTail(m, n)) && Fifo(FixTail(m))
    ensures Loose(SetTail(m, n)) == Loose(m) == Loose(FixTail(m))
  {
    assert Contents(SetTail(m, n)) == Contents(m) == Contents(FixTail(m));
  }

  lemma FreeKeeps(m: Memory, a: Addr)
    requires Fifo(m) && a in Loose(m)
    ensures Free(m, a).Some?
    ensures var r := Free(m, a).value; Fifo(r) && Loose(r) == Loose(m) - {a} && r.tail == m.tail
  {
    var r := Free(m, a).value;
    assert Contents(r) == Contents(m);
  }

  // ---------------------------------------------------------------------------------------
  // Threads
  // ---------------------------------------------------------------------------------------

  lemma AccountedAfter(pc: seq<PC>, loose: set<Addr>, t: nat, p: PC, loose': set<Addr>)
    requires Accounted(pc, loose) && t < |pc|
    requires loose' == (loose - Private(pc[t])) + Private(p)
    requires Private(p) !! (loose - Private(pc[t]))
    ensures Accounted(pc[t := p], loose')
  {
    var r := pc[t := p];
    forall a | a in loose' ensures Known(r, a) {
      if a in Private(p) {
        assert a in Private(r[t]);
      } else {
        assert Known(pc, a);
        var u :| 0 <= u < |pc| && a in Private(pc[u]);
        assert a in Private(r[u]);
      }
    }
  }

  lemma AccountedWake(pc: seq<PC>, loose: set<Addr>, woken: set<nat>)
    requires Accounted(pc, loose) && MayWake(pc, woken)
    ensures Accounted(Wake(pc, woken), loose)
  {
    var r := Wake(pc, woken);
    assert forall t | 0 <= t < |pc| :: Private(r[t]) == Private(pc[t]);
    forall a | a in loose ensures Known(r, a) {
      assert Known(pc, a);
      var u :| 0 <= u < |pc| && a in Private(pc[u]);
      assert a in Private(r[u]);
    }
  }

  // ---------------------------------------------------------------------------------------
  // Totals over the threads
  // ---------------------------------------------------------------------------------------

  lemma {:induction false} TotalUpdate(pc: seq<PC>, t: nat, p: PC, weight: PC -> nat)
    requires t < |pc|
    ensures Total(pc[t := p], weight) == Total(pc, weight) - weight(pc[t]) + weight(p)
  {
    if t == 0 {
      assert pc[t := p][1..] == pc[1..];
    } else {
      assert pc[t := p][1..] == pc[1..][t - 1 := p];
      TotalUpdate(pc[1..], t - 1, p, weight);
    }
  }

  lemma {:induction false} TotalAtLeast(pc: seq<PC>, t: nat, weight: PC -> nat)
    requires t < |pc|
    ensures Total(pc, weight) >= weight(pc[t])
  {
    if t > 0 {
      TotalAtLeast(pc[1..], t - 1, weight);
    }
  }

  lemma {:induction false} TotalZero(pc: seq<PC>, weight: PC -> nat)
    requires forall t | 0 <= t < |pc| :: weight(pc[t]) == 0
    ensures Total(pc, weight) == 0
  {
    if pc != [] {
      assert forall t | 0 <= t < |pc[1..]| :: pc[1..][t] == pc[t + 1];
      TotalZero(pc[1..], weight);
    }
  }

  lemma {:induction false} TotalPositive(pc: seq<PC>, weight: PC -> nat)
    requires Total(pc, weight) > 0
    ensures exists t :: 0 <= t < |pc| && weight(pc[t]) > 0
  {
    if forall t | 0 <= t < |pc| :: weight(pc[t]) == 0 {
      TotalZero(pc, weight);
    }
  }

  lemma {:induction false} TotalMonotone(pc: seq<PC>, pc': seq<PC>, weight: PC -> nat)
    requires |pc'| == |pc|
    requires forall t | 0 <= t < |pc| :: weight(pc[t]) <= weight(pc'[t])
    ensures Total(pc, weight) <= Total(pc', weight)
  {
    if pc != [] {
      assert forall t | 0 <= t < |pc[1..]| :: pc[1..][t] == pc[t + 1] && pc'[1..][t] == pc'[t + 1];
      TotalMonotone(pc[1..], pc'[1..], weight);
    }
  }

  lemma {:induction false} TotalWoken(pc: seq<PC>, woken: set<nat>)
    requires MayWake(pc, woken)
    ensures Total(pc, IsWaiting) > 0 ==> Total(Wake(pc, woken), IsWoken) >= Total(pc, IsWoken) + 1
    ensures Total(Wake(pc, woken), IsWaiting) <= Total(pc, IsWaiting)
  {
    var r := Wake(pc, woken);
    if Total(pc, IsWaiting) > 0 {
      TotalPositive(pc, IsWaiting);
      var w :| w in woken;
      TotalUpdate(pc, w, PopWoken, IsWoken);
      TotalMonotone(pc[w := PopWoken], r, IsWoken);
    }
    TotalMonotone(r, pc, IsWaiting);
  }

  // ---------------------------------------------------------------------------------------
  // Steps
  // ---------------------------------------------------------------------------------------

  predicate Pushes(p: PC) {
    p.PushLock? || p.PushLink? || p.PushTail? || p.PushSignal? || p.PushUnlock? || p.PushReturn?
  }

  /** A return is the one statement that does not need the mutex. */
  predicate Returns(p: PC) {
    p.PushReturn? || p.PopReturn?
  }

  /** A statement moves its own thread only, and only to and from the mutex. */
  ghost predicate MovesOwner(s: State, t: nat, r: State)
    requires t < |s.pc|
  {
    && |r.pc| == |s.pc| && r.pc == s.pc[t := r.pc[t]]
    && (Inside(s.pc[t]) || s.owner.None? || Returns(s.pc[t]))
    && r.owner == (if Inside(r.pc[t]) then Some(t) else if Returns(s.pc[t]) then s.owner else None)
    && (Returns(s.pc[t]) ==> r.pc[t].Idle?)
  }

  lemma PushMovesOwner(s: State, t: nat)
    requires t < |s.pc| && Statement(s, t).Ok? && Pushes(s.pc[t])
    requires Inside(s.pc[t]) <==> s.owner == Some(t)
    ensures MovesOwner(s, t, Statement(s, t).s)
  {}

  lemma PopMovesOwner(s: State, t: nat)
    requires t < |s.pc| && Statement(s, t).Ok? && !Pushes(s.pc[t])
    requires Inside(s.pc[t]) <==> s.owner == Some(t)
    ensures MovesOwner(s, t, Statement(s, t).s)
  {}

  lemma StatementMovesOwner(s: State, t: nat)
    requires t < |s.pc| && Statement(s, t).Ok?
    requires Inside(s.pc[t]) <==> s.owner == Some(t)
    ensures MovesOwner(s, t, Statement(s, t).s)
  {
    if Pushes(s.pc[t]) {
      PushMovesOwner(s, t);
    } else {
      PopMovesOwner(s, t);
    }
  }

  lemma SignalKeepsMutualExclusion(s: State, t: nat, woken: set<nat>)
    requires MutualExclusion(s) && t < |s.pc| && s.pc[t].PushSignal? && MayWake(s.pc, woken)
    ensures MutualExclusion(Apply(s, Advance(t, woken)).s)
  {
    var r := Apply(s, Advance(t, woken)).s;
    forall u | 0 <= u < |s.pc| ensures Inside(r.pc[u]) <==> Inside(s.pc[u]) {
      assert u in woken ==> s.pc[u].PopWait?;
    }
  }

  lemma MutualExclusionKept(s: State, e: Event)
    requires MutualExclusion(s) && Apply(s, e).Ok?
    ensures MutualExclusion(Apply(s, e).s)
  {
    var r := Apply(s, e).s;
    if !e.Advance? {
      assert Inside(r.pc[e.t]) == Inside(s.pc[e.t]) && r.owner == s.owner;
    } else if s.pc[e.t].PushSignal? {
      SignalKeepsMutualExclusion(s, e.t, e.woken);
    } else {
      StatementMovesOwner(s, e.t);
      assert forall u | 0 <= u < |s.pc| && u != e.t :: r.pc[u] == s.pc[u];
    }
  }

  /** At these statements tail need not point at the last node. */
  predicate BetweenEnds(p: PC) {
    p.PushTail? || p.PopFix?
  }

  /** Steps that only move a thread or the mutex leave the queue sound. */
  lemma ControlKeepsSound(s: State, t: nat, p: PC, owner: Option<nat>)
    requires Sound(s) && t < |s.pc|
    requires Private(p) == Private(s.pc[t])
    requires p.PushLock? || p.PushLink? ==> (s.pc[t].PushLock? || s.pc[t].PushLink?) && p.node == s.pc[t].node
    requires var r := s.(pc := s.pc[t := p], owner := owner);
             OwnerPC(r) == OwnerPC(s) || (!BetweenEnds(OwnerPC(r)) && !BetweenEnds(OwnerPC(s)))
    ensures Sound(s.(pc := s.pc[t := p], owner := owner))
  {
    AccountedAfter(s.pc, Loose(s.mem), t, p, Loose(s.mem));
  }

  predicate TouchesMemory(p: PC) {
    p.PushLink? || p.PushTail? || p.PopTake? || p.PopFix? || p.PopFree?
  }

  lemma ControlShape(s: State, t: nat)
    requires MutualExclusion(s) && t < |s.pc| && Statement(s, t).Ok?
    requires !TouchesMemory(s.pc[t]) && !Returns(s.pc[t])
    ensures var r := Statement(s, t).s;
            && r == s.(pc := s.pc[t := r.pc[t]], owner := r.owner)
            && Private(r.pc[t]) == Private(s.pc[t])
            && !BetweenEnds(r.pc[t]) && !r.pc[t].PushLock?
            && (r.pc[t].PushLink? ==> s.pc[t] == PushLock(r.pc[t].node))
            && (r.owner == Some(t) || r.owner.None?)
  {}

  lemma ControlStatementKeepsSound(s: State, t: nat)
    requires MutualExclusion(s) && Sound(s)
    requires t < |s.pc| && !TouchesMemory(s.pc[t]) && !Returns(s.pc[t]) && Statement(s, t).Ok?
    ensures Sound(Statement(s, t).s)
  {
    var r := Statement(s, t).s;
    ControlShape(s, t);
    assert !BetweenEnds(OwnerPC(s)) by {
      OwnerKept(s, t);
    }
    ControlKeepsSound(s, t, r.pc[t], r.owner);
  }

  /** A statement runs either inside the mutex or while nobody holds it. */
  lemma OwnerKept(s: State, t: nat)
    requires MutualExclusion(s) && t < |s.pc| && !Returns(s.pc[t]) && Statement(s, t).Ok?
    ensures s.owner.None? || s.owner == Some(t)
  {
    StatementMovesOwner(s, t);
  }

  lemma PushLinkShape(s: State, t: nat)
    requires MutualExclusion(s) && Sound(s) && t < |s.pc| && s.pc[t].PushLink?
    ensures Statement(s, t).Ok?
    ensures var (n, r) := (s.pc[t].node, Statement(s, t).s);
            && r == s.(pc := s.pc[t := r.pc[t]], mem := LinkNode(s.mem, n).value)
            && Fifo(r.mem) && TailFits(r.mem, r.pc[t]) && Loose(r.mem) == Loose(s.mem) - {n}
            && Private(r.pc[t]) == {} && !r.pc[t].PushLink? && !r.pc[t].PushLock?
            && (forall a | a in Loose(s.mem) :: a in r.mem.cells && r.mem.cells[a] == s.mem.cells[a])
  {
    assert s.pc[t].node in Private(s.pc[t]) && Inside(s.pc[t]);
    LinkNodeKeeps(s.mem, s.pc[t].node);
  }

  lemma PushLinkKeepsSound(s: State, t: nat)
    requires MutualExclusion(s) && Sound(s) && t < |s.pc| && s.pc[t].PushLink?
    ensures Statement(s, t).Ok? && Sound(Statement(s, t).s)
  {
    PushLinkShape(s, t);
    var r := Statement(s, t).s;
    assert OwnerPC(r) == r.pc[t] by {
      assert Inside(s.pc[t]);
    }
    AccountedAfter(s.pc, Loose(s.mem), t, r.pc[t], Loose(r.mem));
    UnlinkedKept(s, t, r);
  }

  lemma PushTailKeepsSound(s: State, t: nat)
    requires MutualExclusion(s) && Sound(s) && t < |s.pc| && s.pc[t].PushTail?
    ensures Statement(s, t).Ok? && Sound(Statement(s, t).s)
  {
    assert Inside(s.pc[t]);
    TailStepsKeep(s.mem, s.pc[t].node, 0, 0);
    var r := Statement(s, t).s;
    AccountedAfter(s.pc, Loose(s.mem), t, r.pc[t], Loose(r.mem));
    UnlinkedKept(s, t, r);
  }

  lemma PopTakeKeepsSound(s: State, t: nat)
    requires MutualExclusion(s) && Sound(s) && t < |s.pc| && s.pc[t].PopTake? && s.mem.chain != []
    ensures Statement(s, t).Ok? && Sound(Statement(s, t).s)
  {
    assert Inside(s.pc[t]);
    TakeFirstKeeps(s.mem);
    var r := Statement(s, t).s;
    AccountedAfter(s.pc, Loose(s.mem), t, r.pc[t], Loose(r.mem));
    UnlinkedKept(s, t, r);
  }

  lemma PopFixShape(s: State, t: nat)
    requires MutualExclusion(s) && Sound(s) && t < |s.pc| && s.pc[t].PopFix?
    ensures Statement(s, t) == Ok(s.(pc := s.pc[t := PopFree(s.pc[t].temp, s.pc[t].out)], mem := FixTail(s.mem)))
    ensures var m := FixTail(s.mem);
            Fifo(m) && TailFits(m, PopFree(s.pc[t].temp, s.pc[t].out)) && Loose(m) == Loose(s.mem)
  {
    assert Inside(s.pc[t]);
    TailStepsKeep(s.mem, 0, s.pc[t].temp, s.pc[t].out);
  }

  lemma PopFixKeepsSound(s: State, t: nat)
    requires MutualExclusion(s) && Sound(s) && t < |s.pc| && s.pc[t].PopFix?
    ensures Statement(s, t).Ok? && Sound(Statement(s, t).s)
  {
    PopFixShape(s, t);
    var r := Statement(s, t).s;
    assert OwnerPC(r) == r.pc[t] by {
      assert Inside(s.pc[t]);
    }
    AccountedAfter(s.pc, Loose(s.mem), t, r.pc[t], Loose(r.mem));
    UnlinkedKept(s, t, r);
  }

  lemma PopFreeShape(s: State, t: nat)
    requires MutualExclusion(s) && Sound(s) && t < |s.pc| && s.pc[t].PopFree?
    ensures Free(s.mem, s.pc[t].temp).Some?
    ensures var m := Free(s.mem, s.pc[t].temp).value;
            && Statement(s, t) == Ok(s.(pc := s.pc[t := PopUnlock(s.pc[t].out)], mem := m))
            && Fifo(m) && TailFits(m, PopUnlock(s.pc[t].out)) && Loose(m) == Loose(s.mem) - {s.pc[t].temp}
            && (forall a | a in Loose(s.mem) - {s.pc[t].temp} :: a in m.cells && m.cells[a] == s.mem.cells[a])
  {
    assert s.pc[t].temp in Private(s.pc[t]) && Inside(s.pc[t]);
    FreeKeeps(s.mem, s.pc[t].temp);
  }

  lemma PopFreeKeepsSound(s: State, t: nat)
    requires MutualExclusion(s) && Sound(s) && t < |s.pc| && s.pc[t].PopFree?
    ensures Statement(s, t).Ok? && Sound(Statement(s, t).s)
  {
    PopFreeShape(s, t);
    var r := Statement(s, t).s;
    assert OwnerPC(r) == r.pc[t] by {
      assert Inside(s.pc[t]);
    }
    AccountedAfter(s.pc, Loose(s.mem), t, r.pc[t], Loose(r.mem));
    UnlinkedKept(s, t, r);
  }

  lemma UnlinkedKept(s: State, t: nat, r: State)
    requires Sound(s) && t < |s.pc| == |r.pc| && r.pc == s.pc[t := r.pc[t]]
    requires !r.pc[t].PushLock? && !r.pc[t].PushLink?
    requires forall a | a in Loose(s.mem) - Private(s.pc[t]) :: a in r.mem.cells && r.mem.cells[a] == s.mem.cells[a]
    ensures Unlinked(r.pc, r.mem)
  {
    forall u | 0 <= u < |r.pc| && (r.pc[u].PushLock? || r.pc[u].PushLink?)
      ensures r.pc[u].node in r.mem.cells && r.mem.cells[r.pc[u].node].next.None?
    {
      assert s.pc[u] == r.pc[u] && r.pc[u].node in Private(s.pc[u]);
    }
  }

  lemma StatementKeepsSound(s: State, t: nat)
    requires MutualExclusion(s) && Sound(s) && t < |s.pc|
    requires s.pc[t].PopTake? ==> s.mem.chain != []
    ensures !Statement(s, t).Fault?
    ensures Statement(s, t).Ok? ==> Sound(Statement(s, t).s)
  {
    match s.pc[t]
    case PushLink(_) => PushLinkKeepsSound(s, t);
    case PushTail(_) => PushTailKeepsSound(s, t);
    case PopTake(_) => PopTakeKeepsSound(s, t);
    case PopFix(_, _) => PopFixKeepsSound(s, t);
    case PopFree(_, _) => PopFreeKeepsSound(s, t);
    case PushReturn => CallerKeepsSound(s, t, Idle);
    case PopReturn(_) => CallerKeepsSound(s, t, Idle);
    case _ =>
      if Statement(s, t).Ok? {
        ControlStatementKeepsSound(s, t);
      }
  }

  lemma SignalKeepsSound(s: State, t: nat, woken: set<nat>)
    requires MutualExclusion(s) && Sound(s)
    requires t < |s.pc| && s.pc[t].PushSignal? && MayWake(s.pc, woken)
    ensures Sound(Apply(s, Advance(t, woken)).s)
  {
    var w := s.(pc := Wake(s.pc, woken));
    AccountedWake(s.pc, Loose(s.mem), woken);
    assert Sound(w);
    ControlKeepsSound(w, t, PushUnlock, w.owner);
  }

  lemma CallPushKeepsSound(s: State, t: nat, data: Data, addr: Addr)
    requires MutualExclusion(s) && Sound(s)
    requires t < |s.pc| && s.pc[t].Idle? && addr !in s.mem.cells
    ensures Sound(Apply(s, CallPush(t, data, addr)).s)
  {
    var r := Apply(s, CallPush(t, data, addr)).s;
    AllocateKeeps(s.mem, addr, data);
    AccountedAfter(s.pc, Loose(s.mem), t, PushLock(addr), Loose(r.mem));
    assert OwnerPC(r) == OwnerPC(s);
  }

  /** No step follows a null or dangling pointer or frees twice, and the queue stays sound. */
  lemma SoundKept(s: State, e: Event)
    requires MutualExclusion(s) && Sound(s) && NeverRefuses(s)
    ensures !Apply(s, e).Fault?
    ensures Apply(s, e).Ok? ==> Sound(Apply(s, e).s)
  {
    if Apply(s, e).Disabled? {
      return;
    }
    match e
    case CallPush(t, data, addr) => CallPushKeepsSound(s, t, data, addr);
    case CallPop(t) => CallerKeepsSound(s, t, PopLock);
    case Spurious(t) => CallerKeepsSound(s, t, PopWoken);
    case Advance(t, woken) =>
      if s.pc[t].PushSignal? {
        SignalKeepsSound(s, t, woken);
      } else {
        StatementKeepsSound(s, t);
      }
  }

  lemma CallerKeepsSound(s: State, t: nat, p: PC)
    requires MutualExclusion(s) && Sound(s)
    requires t < |s.pc| && (s.pc[t].Idle? || s.pc[t].PopWait? || Returns(s.pc[t]))
    requires p.PopLock? || p.PopWoken? || p.Idle?
    ensures Sound(Goto(s, t, p))
  {
    ControlKeepsSound(s, t, p, s.owner);
  }

  lemma NeverRefusesKept(s: State, e: Event)
    requires MutualExclusion(s) && Sound(s) && NeverRefuses(s) && Apply(s, e).Ok?
    ensures NeverRefuses(Apply(s, e).s)
  {
    if e.Advance? && !s.pc[e.t].PushSignal? {
      StatementNeverRefuses(s, e.t);
    }
  }

  /** The mover neither refuses nor takes from an empty queue, and only inside the mutex are items taken. */
  ghost predicate MovesOn(s: State, t: nat, r: State)
    requires t < |s.pc|
  {
    && |r.pc| == |s.pc| && r.pc == s.pc[t := r.pc[t]] && !r.shutdown
    && !r.pc[t].PopRefuse? && (r.pc[t].PopTake? ==> r.mem.chain != [])
    && (r.mem.chain == [] && s.mem.chain != [] ==> Inside(s.pc[t]))
  }

  lemma PushMovesOn(s: State, t: nat)
    requires NeverRefuses(s) && t < |s.pc| && Pushes(s.pc[t]) && Statement(s, t).Ok?
    ensures MovesOn(s, t, Statement(s, t).s)
  {}

  lemma PopMovesOn(s: State, t: nat)
    requires NeverRefuses(s) && s.mem.head == First(s.mem.chain)
    requires t < |s.pc| && !Pushes(s.pc[t]) && Statement(s, t).Ok?
    ensures MovesOn(s, t, Statement(s, t).s)
  {}

  lemma StatementNeverRefuses(s: State, t: nat)
    requires MutualExclusion(s) && Sound(s) && NeverRefuses(s)
    requires t < |s.pc| && Statement(s, t).Ok?
    ensures NeverRefuses(Statement(s, t).s)
  {
    if Pushes(s.pc[t]) {
      PushMovesOn(s, t);
    } else {
      PopMovesOn(s, t);
    }
    var r := Statement(s, t).s;
    forall u | 0 <= u < |r.pc| && u != t ensures r.pc[u] == s.pc[u] && (r.pc[u].PopTake? ==> !Inside(s.pc[t])) {}
  }

  /** Unless the queue is empty, nobody starts to wait and new items come with a debt to signal. */
  ghost predicate Balanced(s: State, t: nat, r: State)
    requires t < |s.pc|
  {
    && |r.pc| == |s.pc| && r.pc == s.pc[t := r.pc[t]]
    && var (p, p') := (s.pc[t], r.pc[t]);
       || r.mem.chain == []
       || (&& IsWaiting(p') <= IsWaiting(p)
           && |r.mem.chain| + IsWoken(p) + OwesSignal(p) <= |s.mem.chain| + IsWoken(p') + OwesSignal(p'))
  }

  lemma PushBalance(s: State, t: nat)
    requires t < |s.pc| && Pushes(s.pc[t]) && Statement(s, t).Ok?
    ensures Balanced(s, t, Statement(s, t).s)
  {}

  lemma PopBalance(s: State, t: nat)
    requires s.mem.head == First(s.mem.chain) && t < |s.pc| && !Pushes(s.pc[t]) && Statement(s, t).Ok?
    ensures Balanced(s, t, Statement(s, t).s)
  {}

  lemma StatementKeepsWakeups(s: State, t: nat)
    requires NoLostWakeup(s) && s.mem.head == First(s.mem.chain) && t < |s.pc| && Statement(s, t).Ok?
    ensures NoLostWakeup(Statement(s, t).s)
  {
    var r := Statement(s, t).s;
    if Pushes(s.pc[t]) {
      PushBalance(s, t);
    } else {
      PopBalance(s, t);
    }
    TotalUpdate(s.pc, t, r.pc[t], IsWaiting);
    TotalUpdate(s.pc, t, r.pc[t], IsWoken);
    TotalUpdate(s.pc, t, r.pc[t], OwesSignal);
  }

  lemma SignalKeepsWakeups(s: State, t: nat, woken: set<nat>)
    requires NoLostWakeup(s) && t < |s.pc| && s.pc[t].PushSignal? && MayWake(s.pc, woken)
    ensures NoLostWakeup(Apply(s, Advance(t, woken)).s)
  {
    var w := Wake(s.pc, woken);
    TotalWoken(s.pc, woken);
    TotalMonotone(s.pc, w, OwesSignal);
    assert w[t] == PushSignal;
    TotalUpdate(w, t, PushUnlock, IsWaiting);
    TotalUpdate(w, t, PushUnlock, IsWoken);
    TotalUpdate(w, t, PushUnlock, OwesSignal);
  }

  lemma NoLostWakeupKept(s: State, e: Event)
    requires Inv(s) && Apply(s, e).Ok?
    ensures NoLostWakeup(Apply(s, e).s)
  {
    if e.Advance? {
      if s.pc[e.t].PushSignal? {
        SignalKeepsWakeups(s, e.t, e.woken);
      } else {
        StatementKeepsWakeups(s, e.t);
      }
    } else {
      var p := Apply(s, e).s.pc[e.t];
      TotalUpdate(s.pc, e.t, p, IsWaiting);
      TotalUpdate(s.pc, e.t, p, IsWoken);
      TotalUpdate(s.pc, e.t, p, OwesSignal);
    }
  }

  lemma InvKept(s: State, e: Event)
    requires Inv(s)
    ensures !Apply(s, e).Fault?
    ensures Apply(s, e).Ok? ==> Inv(Apply(s, e).s)
  {
    SoundKept(s, e);
    if Apply(s, e).Ok? {
      MutualExclusionKept(s, e);
      NeverRefusesKept(s, e);
      NoLostWakeupKept(s, e);
    }
  }

  lemma StartInv(threads: nat)
    ensures Inv(Start(threads))
  {
    TotalZero(Start(threads).pc, IsWaiting);
  }
}
