/**
  The two linked lists of a session (s5io_queue and subio_queue) and the cursor current_io
  that walks the second one (S5bd/src/s5session.c). What the code does to the pointers is
  what SessionProtocol does to sequences of I/O numbers.
 */
module SessionLists {
  import opened Machine
  import opened DList
  import opened SessionProtocol

  function Params(nodes: seq<Entry>): (s: seq<nat>)
    ensures |s| == |nodes| && forall i :: 0 <= i < |s| ==> s[i] == nodes[i].param
  {
    seq(|nodes|, i requires 0 <= i < |nodes| => nodes[i].param)
  }

  lemma ParamsConcat(a: seq<Entry>, b: seq<Entry>)
    ensures Params(a + b) == Params(a) + Params(b)
  {
  }

  /** The number after that of entry `p`, none at the end. */
  lemma {:induction false} NextInAt(q: seq<nat>, p: nat)
    requires p < |q| && forall k :: 0 <= k < p ==> q[k] != q[p]
    ensures NextIn(q, q[p]) == if p + 1 < |q| then Some(q[p + 1]) else None
    decreases |q|
  {
    if p > 0 {
      NextInAt(q[1..], p - 1);
    }
  }

  lemma {:induction false} WithoutAt(q: seq<nat>, p: nat)
    requires p < |q| && forall k :: 0 <= k < p ==> q[k] != q[p]
    ensures Without(q, q[p]) == q[..p] + q[p + 1..]
    decreases |q|
  {
    if p > 0 {
      WithoutAt(q[1..], p - 1);
      assert q[1..][..p - 1] == q[1..p] && q[1..][p..] == q[p + 1..];
      assert q[..p] == [q[0]] + q[1..p];
    }
  }

  class IoLists {
    const s5ioQueue: Head
    const subioQueue: Head
    var currentIo: Entry?
    /** The entry of each I/O: what the parent_io pointer of its sub-I/Os points to. */
    var entries: seq<Entry>
    /** The objects that the lists are made of. */
    ghost var repr: set<object>

    ghost function Waiting(): seq<nat>
      reads s5ioQueue
    {
      Params(s5ioQueue.nodes)
    }

    ghost function Queue(): seq<nat>
      reads subioQueue
    {
      Params(subioQueue.nodes)
    }

    ghost function Current(): Option<nat>
      reads this
    {
      if currentIo == null then None else Some(currentIo.param)
    }

    /** Every entry is the entry of its I/O. */
    ghost predicate Known(nodes: seq<Entry>)
      reads this
    {
      forall k :: 0 <= k < |nodes| ==> nodes[k].param < |entries| && entries[nodes[k].param] == nodes[k]
    }

    ghost predicate Owned(nodes: seq<Entry>)
      reads this
    {
      forall k :: 0 <= k < |nodes| ==> nodes[k] in repr
    }

    ghost predicate Valid()
      reads this, s5ioQueue, subioQueue, s5ioQueue.nodes, subioQueue.nodes
    {
      && s5ioQueue != subioQueue && s5ioQueue.Valid() && subioQueue.Valid()
      && Known(s5ioQueue.nodes) && Known(subioQueue.nodes)
      && {this, s5ioQueue, subioQueue} <= repr && Owned(s5ioQueue.nodes) && Owned(subioQueue.nodes)
      && (forall i :: 0 <= i < |entries| ==> entries[i].param == i)
      && (currentIo != null ==> currentIo in subioQueue.nodes)
    }

    constructor ()
      ensures Valid() && Waiting() == [] && Queue() == [] && Current() == None && entries == [] && fresh(repr)
    {
      s5ioQueue := new Head();
      subioQueue := new Head();
      currentIo, entries := null, [];
      repr := {this, s5ioQueue, subioQueue};
    }

    /** The push of push_s5io: a new entry at the tail of s5io_queue. */
    method Push()
      requires Valid()
      modifies repr
      ensures Valid() && fresh(repr - old(repr)) && old(repr) <= repr
      ensures Waiting() == old(Waiting()) + [|old(entries)|] && |entries| == |old(entries)| + 1
      ensures Queue() == old(Queue()) && Current() == old(Current())
    {
      hide Head.Valid, Params;
      var element := new Entry(|entries|);
      PushTailBeside(s5ioQueue, element, subioQueue);
      entries := entries + [element];
      repr := repr + {element};
    }

    /** take_io_from_s5io_queue: the entries move over, and the cursor goes to the first of them. */
    method Take() returns (count: int)
      requires Valid() && currentIo == null
      modifies repr
      ensures Valid() && repr == old(repr) && entries == old(entries)
      ensures count == |old(Waiting())| && Waiting() == [] && Queue() == old(Queue() + Waiting())
      ensures Current() == if old(Waiting()) == [] then None else Some(old(Waiting()[0]))
    {
      hide Head.Valid, Params;
      ghost var a, b := subioQueue.nodes, s5ioQueue.nodes;
      ParamsConcat(a, b);
      FirstOf(s5ioQueue);
      var list := s5ioQueue.list;
      count := Splice(s5ioQueue, subioQueue);
      if list != null {
        currentIo := list;
      }
    }

    /** The cursor moves to the next entry, or off the end when that is the head of the ring again. */
    method Advance()
      requires Valid() && currentIo != null
      modifies this
      ensures Valid() && repr == old(repr) && entries == old(entries)
      ensures Current() == NextIn(Queue(), old(currentIo.param))
    {
      hide Params;
      ghost var nodes := subioQueue.nodes;
      ghost var p :| 0 <= p < |nodes| && nodes[p] == currentIo;
      OneEach(nodes);
      NextInAt(Params(nodes), p);
      Seam(nodes, p);
      currentIo := if currentIo.next == subioQueue.list then null else currentIo.next;
    }

    /** complete_io takes the entry of an I/O out of subio_queue; the cursor is not there. */
    method Complete(io: nat)
      requires Valid() && io in Queue() && Current() != Some(io)
      modifies repr
      ensures Valid() && repr == old(repr) && entries == old(entries)
      ensures Queue() == Without(old(Queue()), io) && Waiting() == old(Waiting()) && Current() == old(Current())
    {
      hide Head.Valid, Params, Without, Distinct;
      FirstOf(subioQueue);
      ghost var nodes := subioQueue.nodes;
      ghost var p :| 0 <= p < |nodes| && nodes[p].param == io;
      OneEach(nodes);
      WithoutAt(Params(nodes), p);
      var entry := entries[io];
      RemoveBeside(subioQueue, entry, p, s5ioQueue);
      StillThere(nodes, p, currentIo);
    }

    /** Entries that are known by their numbers have different numbers. */
    lemma OneEach(nodes: seq<Entry>)
      requires Known(nodes) && Distinct(nodes)
      ensures forall i, j :: 0 <= i < j < |nodes| ==> Params(nodes)[i] != Params(nodes)[j]
    {
    }
  }

  lemma FirstOf(list: Head)
    requires list.Valid()
    ensures list.list == (if list.nodes == [] then null else list.nodes[0]) && Distinct(list.nodes)
  {
  }

  lemma StillThere(nodes: seq<Entry>, p: nat, e: Entry?)
    requires p < |nodes| && (e != null ==> e in nodes && e != nodes[p])
    ensures Params(nodes[..p] + nodes[p + 1..]) == Params(nodes)[..p] + Params(nodes)[p + 1..]
    ensures e != null ==> e in nodes[..p] + nodes[p + 1..]
  {
  }
}
