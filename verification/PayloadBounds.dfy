/**
How far parseVersionMessage reads.  It takes the payload's length but never looks at it: it reads
whatever memory follows.  These are its reads on any memory that starts with the payload.
*/
module PayloadBounds {
  import opened Wrappers
  import opened Bytes
  import opened VarintCodec
  import opened Messages

  type Memory = nat -> Byte

  function At(mem: Memory, from: nat, n: nat): (b: seq<Byte>)
    ensures |b| == n && forall i | 0 <= i < n :: b[i] == mem(from + i)
  {
    seq(n, i requires 0 <= i < n => mem(from + i))
  }

  /** The integer at an address, and the address after it. */
  function ReadVarint(mem: Memory, at: nat): (r: (nat, nat))
    ensures r.1 > at
  {
    var n := 1 + Following(mem(at));
    (if n == 1 then mem(at) else FromBigEndian(At(mem, at + 1, n - 1)), at + n)
  }

  /** The address after count integers. */
  function ItemsEnd(mem: Memory, at: nat, count: nat): (end: nat)
    ensures end >= at
    decreases count
  {
    if count == 0 then at else ItemsEnd(mem, ReadVarint(mem, at).1, count - 1)
  }

  /** The address after a list, which starts with its length. */
  function ListEnd(mem: Memory, at: nat): (end: nat)
    ensures end > at
  {
    var (count, items) := ReadVarint(mem, at);
    ItemsEnd(mem, items, count)
  }

  /** The address after the user agent. */
  function AgentEnd(mem: Memory): (end: nat)
    ensures end > 80
  {
    var (length, agent) := ReadVarint(mem, 80);
    agent + length
  }

  /** The address after all that the parser reads. */
  function ReadsEnd(mem: Memory): (end: nat)
    ensures end > AgentEnd(mem)
  {
    ListEnd(mem, AgentEnd(mem))
  }

  ghost predicate Holds(mem: Memory, p: seq<Byte>) {
    forall i | 0 <= i < |p| :: mem(i) == p[i]
  }

  lemma ReadVarintIff(mem: Memory, p: seq<Byte>, at: nat)
    requires Holds(mem, p) && at <= |p|
    ensures var (value, next) := ReadVarint(mem, at);
            DecodeVarint(p[at..]) == if next <= |p| then Some((value, next - at)) else None
  {
    if at < |p| {
      var n := 1 + Following(p[at]);
      if at + n <= |p| {
        assert p[at..][1..n] == At(mem, at + 1, n - 1);
      }
    }
  }

  lemma Later(p: seq<Byte>, at: nat, next: nat)
    requires at <= next <= |p|
    ensures p[at..][next - at..] == p[next..]
  {}

  /** count integers follow one another from at, all within p. */
  predicate Fits(p: seq<Byte>, at: nat, count: nat)
    decreases count
  {
    && at <= |p|
    && (count == 0 ||
        var first := DecodeVarint(p[at..]);
        first.Some? && Fits(p, at + first.value.1, count - 1))
  }

  lemma FirstRead(p: seq<Byte>, at: nat, next: nat, count: nat, item: nat)
    requires at <= next <= |p| && DecodeVarint(p[at..]) == Some((item, next - at))
    ensures DecodeVarints(p[at..], count + 1).Some? <==> DecodeVarints(p[next..], count).Some?
  {
    Later(p, at, next);
    DecodeStep(p[at..], count, item, next - at);
  }

  lemma FitsFirst(p: seq<Byte>, at: nat, next: nat, count: nat, item: nat)
    requires at <= next <= |p| && DecodeVarint(p[at..]) == Some((item, next - at))
    ensures Fits(p, at, count + 1) <==> Fits(p, next, count)
  {}

  lemma {:induction false} FitsIff(p: seq<Byte>, at: nat, count: nat)
    requires at <= |p|
    ensures DecodeVarints(p[at..], count).Some? <==> Fits(p, at, count)
    decreases count
  {
    var first := DecodeVarint(p[at..]);
    if count > 0 && first.Some? {
      var next := at + first.value.1;
      FitsIff(p, next, count - 1);
      FirstRead(p, at, next, count - 1, first.value.0);
      FitsFirst(p, at, next, count - 1, first.value.0);
    }
  }

  lemma {:induction false} ItemsIff(mem: Memory, p: seq<Byte>, at: nat, count: nat)
    requires Holds(mem, p)
    ensures Fits(p, at, count) <==> ItemsEnd(mem, at, count) <= |p|
    decreases count
  {
    if count > 0 && at <= |p| {
      ReadVarintIff(mem, p, at);
      ItemsIff(mem, p, ReadVarint(mem, at).1, count - 1);
    }
  }

  lemma ListIff(mem: Memory, p: seq<Byte>, at: nat)
    requires Holds(mem, p) && at <= |p|
    ensures DecodeList(p[at..]).Some? <==> ListEnd(mem, at) <= |p|
  {
    var (count, items) := ReadVarint(mem, at);
    ReadVarintIff(mem, p, at);
    ItemsIff(mem, p, items, count);
    if items <= |p| {
      Later(p, at, items);
      FitsIff(p, items, count);
    }
  }

  lemma AgentIff(mem: Memory, p: seq<Byte>)
    requires Holds(mem, p) && |p| >= 80
    ensures var read := DecodeVarStr(p[80..]);
            && (read.Some? <==> AgentEnd(mem) <= |p|)
            && (read.Some? ==> read.value.1 == AgentEnd(mem) - 80)
  {
    ReadVarintIff(mem, p, 80);
  }

  lemma TailIff(mem: Memory, p: seq<Byte>)
    requires Holds(mem, p) && |p| >= 80
    ensures ParseTail(p[80..]).Some? <==> ReadsEnd(mem) <= |p|
  {
    AgentIff(mem, p);
    var list := AgentEnd(mem);
    if list <= |p| {
      Later(p, 80, list);
      ListIff(mem, p, list);
    }
  }

  /**
  The parser stays inside the payload exactly when it can be parsed, whatever bytes follow it in
  memory; so a caller can find out beforehand by following the lengths with zeros for those bytes.
  */
  lemma ParseStaysInsideIff(mem: Memory, p: seq<Byte>)
    requires Holds(mem, p)
    ensures ReadsEnd(mem) <= |p| <==> ParsePayload(p).Some?
  {
    if |p| >= 80 {
      TailIff(mem, p);
    }
  }

  function ThenZeros(p: seq<Byte>): Memory {
    (i: nat) => if i < |p| then p[i] else 0
  }

  /** The check made beforehand settles it for the memory that is really there. */
  lemma CheckBeforehand(mem: Memory, p: seq<Byte>)
    requires Holds(mem, p)
    ensures ReadsEnd(mem) <= |p| <==> ReadsEnd(ThenZeros(p)) <= |p|
  {
    ParseStaysInsideIff(mem, p);
    ParseStaysInsideIff(ThenZeros(p), p);
  }

  /** For instance a payload that ends after its fixed part is read past its end. */
  lemma ReadsPastExample(mem: Memory, p: seq<Byte>)
    requires |p| == 80
    ensures ReadsEnd(mem) > |p|
  {}
}
