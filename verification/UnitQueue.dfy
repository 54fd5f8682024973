/** The queue of waiting requests of a block (S5bd/src/tasknode.c): a singly linked list with head, tail and length. */
module UnitQueue {
  import opened SchedulerProtocol

  class UnitNode {
    const req: Req
    var next: UnitNode?

    constructor (r: Req)
      ensures req == r && next == null
    {
      req, next := r, null;
    }
  }

  ghost function At(nodes: seq<UnitNode>, i: nat): UnitNode? {
    if i < |nodes| then nodes[i] else null
  }

  class Queue {
    var head: UnitNode?
    var tail: UnitNode?
    var length: nat
    ghost var nodes: seq<UnitNode>

    /** When the queue is empty the tail is left over from earlier. */
    ghost predicate Valid()
      reads this, nodes
    {
      && length == |nodes|
      && (forall i, j :: 0 <= i < j < |nodes| ==> nodes[i] != nodes[j])
      && head == At(nodes, 0)
      && (nodes != [] ==> tail == nodes[|nodes| - 1])
      && (forall i :: 0 <= i < |nodes| ==> nodes[i].next == At(nodes, i + 1))
    }

    constructor ()
      ensures Valid() && nodes == []
    {
      head, tail, length, nodes := null, null, 0, [];
    }

    predicate Empty()
      requires Valid()
      reads this, nodes
      ensures Empty() <==> nodes == []
    {
      length == 0
    }

    method Enqueue(unode: UnitNode)
      requires Valid() && unode !in nodes
      modifies this, nodes, unode
      ensures Valid() && nodes == old(nodes) + [unode]
    {
      unode.next := null;
      if Empty() {
        tail := unode;
        head := tail;
      } else {
        tail.next := unode;
        tail := unode;
      }
      length := length + 1;
      nodes := nodes + [unode];
    }

    method Dequeue() returns (ret: UnitNode?)
      requires Valid()
      modifies this, nodes
      ensures Valid()
      ensures old(nodes) == [] ==> ret == null && nodes == []
      ensures old(nodes) != [] ==> ret == old(nodes)[0] && nodes == old(nodes)[1..]
    {
      if Empty() {
        return null;
      }
      ghost var was := nodes;
      ret := head;
      head := head.next;
      length := length - 1;
      ret.next := null;
      nodes := nodes[1..];
      forall i | 0 <= i < |nodes|
        ensures nodes[i].next == At(nodes, i + 1)
      {
        assert nodes[i] == was[i + 1] && was[i + 1] != was[0];
      }
    }
  }
}
