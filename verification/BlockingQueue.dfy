/**
The queue as it lies in memory: a singly linked list with pointers to both ends.  Each method
is what one call does while it holds the mutex; waiting for the mutex and for an item is the
subject of ThreadedQueue.
*/
module BlockingQueue {
  import opened Wrappers

  class Node<T> {
    var data: T
    var next: Node?<T>

    constructor (data: T)
      ensures this.data == data && next == null
    {
      this.data := data;
      next := null;
    }
  }

  class Queue<T> {
    var head: Node?<T>
    var tail: Node?<T>
    var shutdown: bool
    ghost var nodes: seq<Node<T>>

    /** The nodes in order: next leads from each to the one after it, from head to tail. */
    ghost predicate Valid()
      reads this, nodes
    {
      && (forall i, j | 0 <= i < j < |nodes| :: nodes[i] != nodes[j])
      && (forall i | 0 <= i < |nodes| :: nodes[i].next == NodeAt(i + 1))
      && head == NodeAt(0)
      && tail == (if nodes == [] then null else nodes[|nodes| - 1])
    }

    ghost function NodeAt(i: nat): Node?<T>
      reads this
    {
      if i < |nodes| then nodes[i] else null
    }

    ghost function Contents(): (c: seq<T>)
      reads this, nodes
      ensures |c| == |nodes|
    {
      seq(|nodes|, i requires 0 <= i < |nodes| reads this, nodes => nodes[i].data)
    }

    constructor ()
      ensures Valid() && Contents() == [] && !shutdown
    {
      head, tail := null, null;
      shutdown := false;
      nodes := [];
    }

    method Push(data: T)
      requires Valid()
      modifies this, nodes
      ensures Valid() && shutdown == old(shutdown)
      ensures Contents() == old(Contents()) + [data]
      ensures |nodes| == old(|nodes|) + 1 && nodes[..old(|nodes|)] == old(nodes) && fresh(nodes[old(|nodes|)])
    {
      var node := new Node(data);
      if tail == null {
        head, tail := node, node;
      } else {
        tail.next := node;
        tail := node;
      }
      nodes := nodes + [node];
    }

    /** What queue_pop does once its wait loop has ended; None stands for the result false. */
    method PopReady() returns (out: Option<T>)
      requires Valid()
      requires head != null || shutdown
      modifies this
      ensures Valid() && shutdown == old(shutdown)
      ensures out.None? <==> old(Contents()) == []
      ensures out.None? ==> Contents() == [] && nodes == old(nodes)
      ensures out.Some? ==> old(Contents()) == [out.value] + Contents() && nodes == old(nodes)[1..]
    {
      if shutdown && head == null {
        return None;
      }
      var temp := head;
      out := Some(temp.data);
      head := head.next;
      if head == null {
        tail := null;
      }
      nodes := nodes[1..];
    }

    /** The test of the wait loop: an empty queue is one with neither end. */
    method IsEmpty() returns (empty: bool)
      requires Valid()
      ensures empty == (Contents() == [])
      ensures empty <==> tail == null
    {
      empty := head == null;
    }
  }
}
