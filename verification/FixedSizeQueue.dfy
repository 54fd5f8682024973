/**
  The ring buffer of common/include/pf_fixed_size_queue.h. One slot of the array stays
  unused, so that head == tail means empty.
 */
module FixedSizeQueue {
  import opened Machine

  datatype Dequeued<T> = LogicError | Element(value: T)

  /** The successor of a ring position. */
  lemma Successor(i: int, n: int)
    requires 0 <= i < n
    ensures (i + 1) % n == if i + 1 == n then 0 else i + 1
  {
  }

  class Ring<T> {
    var tail: int
    var head: int
    const queueDepth: int
    const data: array<T>

    ghost predicate Valid()
      reads this
    {
      data.Length == queueDepth && 0 <= head < queueDepth && 0 <= tail < queueDepth
    }

    /** The queued elements, oldest first. */
    ghost function Contents(): seq<T>
      requires Valid()
      reads this, data
    {
      if head <= tail then data[head..tail] else data[head..] + data[..tail]
    }

    ghost function Capacity(): nat
      requires Valid()
      reads this
    {
      queueDepth - 1
    }

    constructor (depth: nat, zero: T)
      ensures Valid() && fresh(data) && Contents() == [] && Capacity() == depth
    {
      head, tail := 0, 0;
      queueDepth := depth + 1;
      data := new T[depth + 1](_ => zero);
    }

    function Space(): (n: int)
      requires Valid()
      reads this, data
      ensures n == Capacity() - |Contents()|
    {
      if head <= tail then queueDepth - tail + head - 1 else head - tail - 1
    }

    function Count(): (n: int)
      requires Valid()
      reads this, data
      ensures n == |Contents()|
    {
      if head <= tail then tail - head else queueDepth + tail - head
    }

    predicate IsEmpty()
      requires Valid()
      reads this, data
      ensures IsEmpty() <==> Contents() == []
    {
      tail == head
    }

    predicate IsFull()
      requires Valid()
      reads this, data
      ensures IsFull() <==> |Contents()| == Capacity()
    {
      Space() == 0
    }

    method Enqueue(element: T) returns (rc: int)
      requires Valid()
      modifies this`tail, data
      ensures Valid()
      ensures rc == if old(IsFull()) then EAGAIN else 0
      ensures Contents() == if rc == 0 then old(Contents()) + [element] else old(Contents())
      ensures rc != 0 ==> unchanged(this) && unchanged(data)
    {
      if IsFull() {
        return EAGAIN;
      }
      Successor(tail, queueDepth);
      data[tail] := element;
      tail := (tail + 1) % queueDepth;
      return 0;
    }

    method Dequeue() returns (r: Dequeued<T>)
      requires Valid()
      modifies this`head
      ensures Valid()
      ensures r == if old(Contents()) == [] then LogicError else Element(old(Contents())[0])
      ensures Contents() == if r.Element? then old(Contents())[1..] else []
    {
      if IsEmpty() {
        return LogicError;
      }
      Successor(head, queueDepth);
      r := Element(data[head]);
      head := (head + 1) % queueDepth;
    }
  }
}
