/**
The blocking queue as a transition system: any number of threads, one mutex, one condition
variable, and the queue's nodes in a shared memory.  One event is one statement of one thread.
A signal wakes at least one waiter and may wake more; a waiter may also wake for no reason.
*/
module ThreadedQueue {
  import opened Wrappers

  type Addr = nat
  type Data = int  // the untyped pointers that the queue carries

  datatype Cell = Cell(data: Data, next: Option<Addr>)

  /**
  The nodes and the two ends of the queue.  The last three fields are history, read by no step:
  the addresses from head to the end, the data in the order it was linked and in the order it
  was taken.
  */
  datatype Memory = Memory(
    cells: map<Addr, Cell>,
    head: Option<Addr>,
    tail: Option<Addr>,
    chain: seq<Addr>,
    pushed: seq<Data>,
    popped: seq<Data>)

  /** Where a thread stands: the statement it executes next. */
  datatype PC =
    | Idle
    // queue_push
    | PushLock(node: Addr)
    | PushLink(node: Addr)
    | PushTail(node: Addr)
    | PushSignal
    | PushUnlock
    | PushReturn
    // queue_pop
    | PopLock
    | PopTest(woken: bool)
    | PopWait
    | PopWoken
    | PopTake(woken: bool)
    | PopFix(temp: Addr, out: Data)
    | PopFree(temp: Addr, out: Data)
    | PopUnlock(out: Data)
    | PopReturn(out: Data)
    | PopRefuse

  datatype State = State(pc: seq<PC>, owner: Option<nat>, shutdown: bool, mem: Memory)

  datatype Event =
    | CallPush(t: nat, data: Data, addr: Addr)
    | CallPop(t: nat)
    | Spurious(t: nat)
    | Advance(t: nat, woken: set<nat>)

  /** A step is not possible now, follows a pointer it must not, or leads to a state. */
  datatype Result = Disabled | Fault | Ok(s: State)

  function Start(threads: nat): State {
    State(seq(threads, _ => Idle), None, false, Memory(map[], None, None, [], [], []))
  }

  // ---------------------------------------------------------------------------------------
  // Statements that touch the memory
  // ---------------------------------------------------------------------------------------

  function Allocate(m: Memory, a: Addr, data: Data): Memory {
    m.(cells := m.cells[a := Cell(data, None)])
  }

  /** Makes n reachable: from the two ends of an empty queue, else from the node at tail. */
  function LinkNode(m: Memory, n: Addr): Option<Memory> {
    if n !in m.cells then None
    else
      var linked := m.(chain := m.chain + [n], pushed := m.pushed + [m.cells[n].data]);
      if m.tail.None? then Some(linked.(head := Some(n), tail := Some(n)))
      else if m.tail.value !in m.cells then None
      else Some(linked.(cells := m.cells[m.tail.value := m.cells[m.tail.value].(next := Some(n))]))
  }

  function SetTail(m: Memory, n: Addr): Memory {
    m.(tail := Some(n))
  }

  /** Reads the first node and moves head past it. */
  function TakeFirst(m: Memory): Option<Memory> {
    if m.head.None? || m.head.value !in m.cells then None
    else
      var first := m.cells[m.head.value];
      Some(m.(head := first.next,
              chain := if m.chain == [] then [] else m.chain[1..],
              popped := m.popped + [first.data]))
  }

  function FixTail(m: Memory): Memory {
    if m.head.None? then m.(tail := None) else m
  }

  function Free(m: Memory, a: Addr): Option<Memory> {
    if a !in m.cells then None else Some(m.(cells := m.cells - {a}))
  }

  // ---------------------------------------------------------------------------------------
  // Steps
  // ---------------------------------------------------------------------------------------

  function Goto(s: State, t: nat, p: PC): State
    requires t < |s.pc|
  {
    s.(pc := s.pc[t := p])
  }

  function Acquire(s: State, t: nat, p: PC): Result
    requires t < |s.pc|
  {
    if s.owner.None? then Ok(Goto(s, t, p).(owner := Some(t))) else Disabled
  }

  function Release(s: State, t: nat, p: PC): Result
    requires t < |s.pc|
  {
    Ok(Goto(s, t, p).(owner := None))
  }

  function Touch(s: State, t: nat, p: PC, m: Option<Memory>): Result
    requires t < |s.pc|
  {
    if m.None? then Fault else Ok(Goto(s, t, p).(mem := m.value))
  }

  function Wake(pc: seq<PC>, woken: set<nat>): (r: seq<PC>)
    ensures |r| == |pc|
  {
    seq(|pc|, i requires 0 <= i < |pc| => if i in woken then PopWoken else pc[i])
  }

  /** Who a signal may wake: waiters only, and at least one if there is one. */
  ghost predicate MayWake(pc: seq<PC>, woken: set<nat>) {
    && (forall i | i in woken :: i < |pc| && pc[i].PopWait?)
    && ((exists i :: 0 <= i < |pc| && pc[i].PopWait?) ==> woken != {})
  }

  /** One statement of thread t, other than the signal. */
  function Statement(s: State, t: nat): Result
    requires t < |s.pc|
  {
    match s.pc[t]
    case PushLock(n) => Acquire(s, t, PushLink(n))
    case PushLink(n) => Touch(s, t, if s.mem.tail.None? then PushSignal else PushTail(n), LinkNode(s.mem, n))
    case PushTail(n) => Touch(s, t, PushSignal, Some(SetTail(s.mem, n)))
    case PushUnlock => Release(s, t, PushReturn)
    case PushReturn => Ok(Goto(s, t, Idle))
    case PopLock => Acquire(s, t, PopTest(false))
    case PopWoken => Acquire(s, t, PopTest(true))
    case PopTest(woken) =>
      if s.mem.head.None? && !s.shutdown then Release(s, t, PopWait)
      else if s.mem.head.None? && s.shutdown then Ok(Goto(s, t, PopRefuse))
      else Ok(Goto(s, t, PopTake(woken)))
    case PopTake(_) =>
      if s.mem.head.None? || s.mem.head.value !in s.mem.cells then Fault
      else Touch(s, t, PopFix(s.mem.head.value, s.mem.cells[s.mem.head.value].data), TakeFirst(s.mem))
    case PopFix(a, out) => Touch(s, t, PopFree(a, out), Some(FixTail(s.mem)))
    case PopFree(a, out) => Touch(s, t, PopUnlock(out), Free(s.mem, a))
    case PopUnlock(out) => Release(s, t, PopReturn(out))
    case PopReturn(_) => Ok(Goto(s, t, Idle))
    case PopRefuse => Release(s, t, Idle)
    case _ => Disabled
  }

  ghost function Apply(s: State, e: Event): Result {
    if e.t >= |s.pc| then Disabled
    else match e
      case CallPush(t, data, addr) =>
        if s.pc[t].Idle? && addr !in s.mem.cells
        then Touch(s, t, PushLock(addr), Some(Allocate(s.mem, addr, data)))
        else Disabled
      case CallPop(t) => if s.pc[t].Idle? then Ok(Goto(s, t, PopLock)) else Disabled
      case Spurious(t) => if s.pc[t].PopWait? then Ok(Goto(s, t, PopWoken)) else Disabled
      case Advance(t, woken) =>
        if !s.pc[t].PushSignal? then (if woken == {} then Statement(s, t) else Disabled)
        else if MayWake(s.pc, woken) then Ok(s.(pc := Wake(s.pc, woken)[t := PushUnlock]))
        else Disabled
  }

  /** The outcome of a run, which ends early at an event that is not possible or that faults. */
  ghost function Run(s: State, events: seq<Event>): Result
    decreases |events|
  {
    if events == [] then Ok(s)
    else match Apply(s, events[0])
      case Ok(next) => Run(next, events[1..])
      case other => other
  }

  // ---------------------------------------------------------------------------------------
  // Invariants of the memory
  // ---------------------------------------------------------------------------------------

  function First(chain: seq<Addr>): Option<Addr> {
    if chain == [] then None else Some(chain[0])
  }

  function Last(chain: seq<Addr>): Option<Addr> {
    if chain == [] then None else Some(chain[|chain| - 1])
  }

  function Follower(chain: seq<Addr>, i: nat): Option<Addr> {
    if i + 1 < |chain| then Some(chain[i + 1]) else None
  }

  /** head leads through all of chain, without repetition, and stops at its last node. */
  ghost predicate Linked(m: Memory) {
    && m.head == First(m.chain)
    && (forall i | 0 <= i < |m.chain| :: m.chain[i] in m.cells)
    && (forall i, j | 0 <= i < j < |m.chain| :: m.chain[i] != m.chain[j])
    && (forall i | 0 <= i < |m.chain| ::
          m.cells[m.chain[i]].next == Follower(m.chain, i))
  }

  /** Where tail points while the owner of the mutex, if any, is at p. */
  ghost predicate TailFits(m: Memory, p: PC) {
    match p
    case PushTail(n) => |m.chain| >= 2 && Last(m.chain) == Some(n)
    case PopFix(a, _) => m.tail == if m.chain == [] then Some(a) else Last(m.chain)
    case _ => m.tail == Last(m.chain)
  }

  function Contents(m: Memory): seq<Data>
    requires forall i | 0 <= i < |m.chain| :: m.chain[i] in m.cells
  {
    seq(|m.chain|, i requires 0 <= i < |m.chain| => m.cells[m.chain[i]].data)
  }

  ghost predicate Fifo(m: Memory) {
    Linked(m) && m.pushed == m.popped + Contents(m)
  }

  /** The nodes that are allocated but not in the queue. */
  function Loose(m: Memory): set<Addr> {
    m.cells.Keys - set a | a in m.chain
  }

  // ---------------------------------------------------------------------------------------
  // Invariants of the threads
  // ---------------------------------------------------------------------------------------

  /** The statements between taking and giving back the mutex. */
  predicate Inside(p: PC) {
    p.PushLink? || p.PushTail? || p.PushSignal? || p.PushUnlock? || p.PopTest? || p.PopTake?
    || p.PopFix? || p.PopFree? || p.PopUnlock? || p.PopRefuse?
  }

  ghost predicate MutualExclusion(s: State) {
    && (s.owner.Some? ==> s.owner.value < |s.pc|)
    && forall t | 0 <= t < |s.pc| :: Inside(s.pc[t]) <==> s.owner == Some(t)
  }

  function OwnerPC(s: State): PC {
    if s.owner.Some? && s.owner.value < |s.pc| then s.pc[s.owner.value] else Idle
  }

  /** The node that only this thread knows: not linked yet, or unlinked already. */
  function Private(p: PC): set<Addr> {
    match p
    case PushLock(n) => {n}
    case PushLink(n) => {n}
    case PopFix(a, _) => {a}
    case PopFree(a, _) => {a}
    case _ => {}
  }

  /** No node is known to two threads, and every loose node is known to one: nothing leaks. */
  ghost predicate Accounted(pc: seq<PC>, loose: set<Addr>) {
    && (forall t, u | 0 <= t < u < |pc| :: Private(pc[t]) !! Private(pc[u]))
    && (forall t | 0 <= t < |pc| :: Private(pc[t]) <= loose)
    && (forall a | a in loose :: Known(pc, a))
  }

  ghost predicate Known(pc: seq<PC>, a: Addr) {
    exists t :: 0 <= t < |pc| && a in Private(pc[t])
  }

  ghost predicate Unlinked(pc: seq<PC>, m: Memory) {
    forall t | 0 <= t < |pc| && (pc[t].PushLock? || pc[t].PushLink?) ::
      pc[t].node in m.cells && m.cells[pc[t].node].next.None?
  }

  ghost predicate NeverRefuses(s: State) {
    && !s.shutdown
    && forall t | 0 <= t < |s.pc| :: !s.pc[t].PopRefuse? && (s.pc[t].PopTake? ==> s.mem.chain != [])
  }

  function Total(pc: seq<PC>, weight: PC -> nat): nat {
    if pc == [] then 0 else weight(pc[0]) + Total(pc[1..], weight)
  }

  function IsWaiting(p: PC): nat { if p.PopWait? then 1 else 0 }

  /** Consumers that were woken and have neither taken an item nor gone back to waiting. */
  function IsWoken(p: PC): nat {
    if p.PopWoken? || p == PopTest(true) || p == PopTake(true) then 1 else 0
  }

  /** Producers that have linked an item and not signalled yet. */
  function OwesSignal(p: PC): nat { if p.PushTail? || p.PushSignal? then 1 else 0 }

  ghost predicate NoLostWakeup(s: State) {
    Total(s.pc, IsWaiting) > 0 ==> |s.mem.chain| <= Total(s.pc, IsWoken) + Total(s.pc, OwesSignal)
  }

  /** The queue is in shape, and every node outside it has exactly one thread to look after it. */
  ghost predicate Sound(s: State) {
    && Fifo(s.mem)
    && TailFits(s.mem, OwnerPC(s))
    && Accounted(s.pc, Loose(s.mem))
    && Unlinked(s.pc, s.mem)
  }

  ghost predicate Inv(s: State) {
    && MutualExclusion(s)
    && Sound(s)
    && NeverRefuses(s)
    && NoLostWakeup(s)
  }
}
