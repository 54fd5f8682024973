/**
  The id generator of S5bd/src/idgenerator.c: a linked free list over the array of
  entries, taken from the head and given back at the tail. Each call is one atomic step.
 */
module IdGenerator {

  const INVALID_ID: int := -1

  /** No next entry. */
  const NULL: int := -1

  ghost function At(free: seq<int>, i: nat): int {
    if i < |free| then free[i] else NULL
  }

  ghost function UpTo(sz: nat): (s: seq<int>)
    ensures |s| == sz + 1 && forall i :: 0 <= i <= sz ==> s[i] == i
  {
    seq(sz + 1, i => i)
  }

  class IdManager {
    const next: array<int>
    const sz: nat
    var head: int
    var tail: int
    ghost var free: seq<int>

    /** The entries from head to tail are the free ids; there is always at least one. */
    ghost predicate Valid()
      reads this, next
    {
      && next.Length == sz + 1 && free != []
      && (forall i :: 0 <= i < |free| ==> 0 <= free[i] <= sz)
      && (forall i, j :: 0 <= i < j < |free| ==> free[i] != free[j])
      && (forall i :: 0 <= i < |free| ==> next[free[i]] == At(free, i + 1))
      && head == free[0] && tail == free[|free| - 1]
    }

    constructor (size: nat)
      ensures Valid() && fresh(next) && sz == size && free == UpTo(size)
    {
      sz := size;
      next := new int[size + 1];
      head, tail := 0, size;
      free := UpTo(size);
      new;
      var i := 0;
      while i < size
        modifies next
        invariant i <= size && forall k :: 0 <= k < i ==> next[k] == k + 1
      {
        next[i] := i + 1;
        i := i + 1;
      }
      next[tail] := NULL;
    }

    /** The oldest free id, unless it is the last one left. */
    method AllocId() returns (id: int)
      requires Valid()
      modifies this`head, this`free
      ensures Valid()
      ensures |old(free)| == 1 ==> id == INVALID_ID && free == old(free)
      ensures |old(free)| > 1 ==> id == old(free)[0] && 0 <= id <= sz && free == old(free)[1..]
    {
      var p := head;
      var q := next[head];
      ghost var was := free;
      assert p == was[0];
      if q == NULL {
        return INVALID_ID;
      }
      head := q;
      free := free[1..];
      assert forall i :: 0 <= i < |free| ==> free[i] == was[i + 1];
      id := p;
    }

    method FreeId(id: int)
      requires Valid() && 0 <= id <= sz && id !in free
      modifies this, next
      ensures Valid() && free == old(free) + [id]
    {
      next[id] := NULL;
      // The walk from the tail to the end of the list: with calls one at a time the tail is the end.
      assert tail == free[|free| - 1] && next[tail] == NULL;
      next[tail] := id;
      tail := id;
      free := free + [id];
    }
  }
}
