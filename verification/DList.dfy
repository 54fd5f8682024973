/**
  The circular doubly linked list of common/src/pf_list.cpp, and the splice of
  take_io_from_s5io_queue (S5bd/src/s5session.c), which uses it under an older name.
 */
module DList {
  import opened Machine

  const API_FAILED: int := -22

  class Entry {
    var prev: Entry?
    var next: Entry?
    var head: Head?
    /** What the entry stands for, as a number. */
    const param: nat

    constructor (param: nat)
      ensures prev == null && next == null && head == null && this.param == param
    {
      prev, next, head := null, null, null;
      this.param := param;
    }
  }

  /** The entries point to each other in this order, both ways. */
  ghost predicate Chained(s: seq<Entry>)
    reads s
  {
    && (forall i {:trigger s[i].next} :: 0 <= i < |s| - 1 ==> s[i].next == s[i + 1])
    && (forall i {:trigger s[i].prev} :: 1 <= i < |s| ==> s[i].prev == s[i - 1])
  }

  /** ... and the ends to each other. */
  ghost predicate Ring(s: seq<Entry>)
    reads s
  {
    Chained(s) && (s != [] ==> s[|s| - 1].next == s[0] && s[0].prev == s[|s| - 1])
  }

  ghost predicate Home(s: seq<Entry>, head: Head)
    reads s
  {
    forall i :: 0 <= i < |s| ==> s[i].head == head
  }

  /** A ring may be read from any of its entries on. */
  lemma Rotate(s: seq<Entry>, p: nat)
    requires p <= |s| && Ring(s)
    ensures Ring(s[p..] + s[..p])
  {
    var r := s[p..] + s[..p];
    if 0 < p < |s| {
      forall i | 0 <= i < |r| - 1
        ensures r[i].next == r[i + 1]
      {
        var j := if i < |s| - p then p + i else i - (|s| - p);
        assert r[i] == s[j];
      }
      forall i | 1 <= i < |r|
        ensures r[i].prev == r[i - 1]
      {
        var j := if i < |s| - p then p + i else i - (|s| - p);
        assert r[i] == s[j];
      }
    } else {
      assert r == s;
    }
  }

  class Head {
    var list: Entry?
    var count: int
    /** The list as a sequence. */
    ghost var nodes: seq<Entry>

    ghost predicate Valid()
      reads this, nodes
    {
      && count == |nodes| && list == (if nodes == [] then null else nodes[0])
      && Distinct(nodes) && Ring(nodes) && Home(nodes, this)
    }

    constructor ()
      ensures Valid() && nodes == []
    {
      list, count, nodes := null, 0, [];
    }

    /** s5list_push_ulc */
    method Push(e: Entry) returns (rc: int)
      requires Valid() && (e.head == null ==> e !in nodes)
      modifies this, e, nodes
      ensures Valid()
      ensures rc == (if old(e.head) == null then 0 else API_FAILED)
      ensures nodes == if rc == 0 then [e] + old(nodes) else old(nodes)
    {
      if e.head != null {
        return API_FAILED;
      }
      if list == null {
        e.next := e;
        e.prev := e;
        assert Ring([e]);
      } else {
        AddAtSeam(e, list.prev, list, nodes);
        assert Home(nodes, this);
      }
      count := count + 1;
      list := e;
      e.head := this;
      nodes := [e] + nodes;
      return 0;
    }

    /** s5list_pushtail_ulc */
    method PushTail(e: Entry) returns (rc: int)
      requires Valid() && (e.head == null ==> e !in nodes)
      modifies this, e, nodes
      ensures Valid()
      ensures rc == (if old(e.head) == null then 0 else API_FAILED)
      ensures nodes == if rc == 0 then old(nodes) + [e] else old(nodes)
    {
      if e.head != null {
        return API_FAILED;
      }
      if list == null {
        e.next := e;
        e.prev := e;
        list := e;
        assert Ring([e]);
        assert nodes + [e] == [e];
      } else {
        AddAtSeam(e, list.prev, list, nodes);
        assert Home(nodes, this);
      }
      count := count + 1;
      e.head := this;
      nodes := nodes + [e];
      return 0;
    }

    /** __list_del_ of the entry at place `p`, wherever that is. */
    method Remove(e: Entry, ghost p: nat)
      requires Valid() && p < |nodes| && nodes[p] == e
      modifies this, nodes
      ensures Valid() && nodes == old(nodes[..p] + nodes[p + 1..]) && e !in nodes
      ensures e.head == null && e.next == null && e.prev == null
    {
      hide Ring, Home;
      ghost var rest := nodes[..p] + nodes[p + 1..];
      if e.next == e {
        OneEntry(nodes, p);
        list := null;
        assert rest == [];
        Forget(e);
        NoEntries(this);
      } else {
        Seam(nodes, p);
        if list == e {
          list := e.next;
        }
        TakeOut(e, nodes, p, this);
      }
      count := count - 1;
      nodes := rest;
    }

    /** The end of take_io_from_s5io_queue: a ring that already has this head goes to the end of the list. */
    method Attach(first: Entry, n: int, ghost b: seq<Entry>)
      requires Valid() && b != [] && Ring(b) && Home(b, this) && Distinct(nodes + b) && first == b[0] && n == |b|
      modifies this, nodes, b
      ensures Valid() && nodes == old(nodes) + b
    {
      hide Ring, Home, Distinct;
      if list == null {
        assert nodes + b == b;
        list, count := first, n;
      } else {
        JoinRings(list, first, nodes, b, this);
        count := count + n;
      }
      nodes := nodes + b;
    }

    /** s5list_pop_ulc */
    method Pop() returns (e: Entry?)
      requires Valid()
      modifies this, nodes
      ensures Valid()
      ensures old(nodes) == [] ==> e == null && nodes == []
      ensures old(nodes) != [] ==> e == old(nodes[0]) && nodes == old(nodes[1..]) && e.head == null
    {
      e := list;
      if e != null {
        Remove(e, 0);
      }
    }

    /** s5list_poptail_ulc */
    method PopTail() returns (e: Entry?)
      requires Valid()
      modifies this, nodes
      ensures Valid()
      ensures old(nodes) == [] ==> e == null && nodes == []
      ensures old(nodes) != [] ==> e == old(nodes[|nodes| - 1]) && nodes == old(nodes[..|nodes| - 1]) && e.head == null
    {
      if list == null {
        return null;
      }
      e := list.prev;
      Remove(e, |nodes| - 1);
    }
  }

  /** s5list_del_ulc */
  method Del(e: Entry, ghost p: nat) returns (rc: int)
    requires e.head != null ==> e.head.Valid() && p < |e.head.nodes| && e.head.nodes[p] == e
    modifies e.head, if e.head == null then [] else e.head.nodes
    ensures rc == if old(e.head) == null then API_FAILED else 0
    ensures old(e.head) != null ==>
              old(e.head).Valid() && old(e.head).nodes == old(e.head.nodes[..p] + e.head.nodes[p + 1..])
  {
    if e.head == null {
      return API_FAILED;
    }
    e.head.Remove(e, p);
    return 0;
  }

  /** Entries of different lists are different. */
  lemma Separate(a: Head, b: Head)
    requires a != b && a.Valid() && b.Valid()
    ensures forall k :: 0 <= k < |b.nodes| ==> b.nodes[k] !in a.nodes
  {
    hide Ring, Distinct;
  }

  /** Pushing to one list leaves another as it is. */
  method PushTailBeside(list: Head, e: Entry, ghost other: Head)
    requires list != other && list.Valid() && other.Valid() && e.head == null && e !in list.nodes && e !in other.nodes
    modifies list, e, list.nodes
    ensures list.Valid() && list.nodes == old(list.nodes) + [e] && other.Valid()
  {
    Separate(list, other);
    hide Head.Valid;
    var rc := list.PushTail(e);
    Undisturbed(other);
  }

  /** And so does removing. */
  method RemoveBeside(list: Head, e: Entry, ghost p: nat, ghost other: Head)
    requires list != other && list.Valid() && other.Valid() && p < |list.nodes| && list.nodes[p] == e
    modifies list, list.nodes
    ensures list.Valid() && list.nodes == old(list.nodes[..p] + list.nodes[p + 1..]) && other.Valid()
  {
    Separate(list, other);
    hide Head.Valid;
    list.Remove(e, p);
    Undisturbed(other);
  }

  /** A list of which no entry changed. */
  twostate lemma Undisturbed(list: Head)
    requires old(list.Valid()) && unchanged(list)
    requires forall k :: 0 <= k < |list.nodes| ==> unchanged(list.nodes[k])
    ensures list.Valid()
  {
  }

  /** An entry that follows itself is alone. */
  lemma OneEntry(s: seq<Entry>, p: nat)
    requires Ring(s) && Distinct(s) && p < |s| && s[p].next == s[p]
    ensures s == [s[p]]
  {
  }

  /** What follows an entry and what precedes it, around the ring. */
  lemma Seam(s: seq<Entry>, p: nat)
    requires Ring(s) && Distinct(s) && p < |s|
    ensures s[p].next == if p + 1 < |s| then s[p + 1] else s[0]
    ensures s[p].prev == if p > 0 then s[p - 1] else s[|s| - 1]
  {
  }

  method Forget(e: Entry)
    modifies e
    ensures e.next == null && e.prev == null && e.head == null
  {
    e.next, e.prev, e.head := null, null, null;
  }

  /** An entry leaves a ring of at least two. */
  method TakeOut(e: Entry, ghost s: seq<Entry>, ghost p: nat, ghost head: Head)
    requires Ring(s) && Distinct(s) && Home(s, head) && p < |s| && |s| >= 2 && s[p] == e
    modifies s
    ensures Ring(s[..p] + s[p + 1..]) && Home(s[..p] + s[p + 1..], head)
    ensures e.next == null && e.prev == null && e.head == null
  {
    Seam(s, p);
    Unlink(e.prev, e.next, s, p);
    ghost var rest := s[..p] + s[p + 1..];
    assert Home(rest, head) && e !in rest;
    Forget(e);
  }

  /** The two link updates of __list_del_. */
  method Unlink(prev: Entry, next: Entry, ghost s: seq<Entry>, ghost p: nat)
    requires Ring(s) && Distinct(s) && p < |s| && |s| >= 2
    requires next == (if p + 1 < |s| then s[p + 1] else s[0]) && prev == (if p > 0 then s[p - 1] else s[|s| - 1])
    modifies next`prev, prev`next
    ensures Ring(s[..p] + s[p + 1..])
  {
    ghost var r, n := s[p + 1..] + s[..p], |s| - 1;
    Rotate(s, p + 1);
    assert s[p + 1..] + s[..p + 1] == r + [s[p]];
    LastOff(r, s[p]);
    next.prev := prev;
    prev.next := next;
    assert Ring(r);
    Rotate(r, n - p);
    assert r[n - p..] + r[..n - p] == s[..p] + s[p + 1..];
  }

  lemma LastOff(r: seq<Entry>, e: Entry)
    requires r != [] && Ring(r + [e])
    ensures Chained(r)
  {
    var s := r + [e];
    assert forall i :: 0 <= i < |r| ==> r[i] == s[i];
  }

  /** __list_add_ between the last entry of a ring and its first. */
  method AddAtSeam(e: Entry, prev: Entry, next: Entry, ghost nodes: seq<Entry>)
    requires nodes != [] && Distinct(nodes) && Ring(nodes) && e !in nodes
    requires next == nodes[0] && prev == nodes[|nodes| - 1]
    modifies e`next, e`prev, next`prev, prev`next
    ensures Ring(nodes + [e]) && Ring([e] + nodes)
  {
    next.prev := e;
    e.next := next;
    e.prev := prev;
    prev.next := e;
    ghost var r := nodes + [e];
    assert Ring(r);
    Rotate(r, |nodes|);
    assert r[|nodes|..] + r[..|nodes|] == [e] + nodes;
  }

  /** The do-while loop that walks a ring once and gives every entry its new head. */
  method Rehome(first: Entry, head: Head, ghost s: seq<Entry>)
    requires s != [] && Ring(s) && Distinct(s) && first == s[0]
    modifies s`head
    ensures Ring(s) && Home(s, head)
  {
    var p: Entry := first;
    ghost var i := 0;
    while true
      invariant 0 <= i < |s| && p == s[i]
      invariant forall k :: 0 <= k < i ==> s[k].head == head
      decreases |s| - i
    {
      p.head := head;
      Seam(s, i);
      p := p.next;
      i := i + 1;
      if p == first {
        break;
      }
    }
  }

  /** The same beside a ring that already has that head. */
  method RehomeBeside(first: Entry, head: Head, ghost a: seq<Entry>, ghost b: seq<Entry>)
    requires b != [] && Ring(b) && Distinct(a + b) && first == b[0] && Ring(a) && Home(a, head)
    modifies b`head
    ensures Ring(a) && Home(a, head) && Ring(b) && Home(b, head)
  {
    Apart(a, b);
    Rehome(first, head, b);
  }

  /** Opening two rings and closing them to one. */
  method JoinRings(entryA: Entry, entry1: Entry, ghost a: seq<Entry>, ghost b: seq<Entry>, ghost head: Head)
    requires a != [] && b != [] && Ring(a) && Ring(b) && Distinct(a + b)
    requires entryA == a[0] && entry1 == b[0] && Home(a, head) && Home(b, head)
    modifies a[0], a[|a| - 1], b[0], b[|b| - 1]
    ensures Ring(a + b) && Home(a + b, head)
  {
    var entryB := entryA.prev;
    var entry2 := entry1.prev;
    Apart(a, b);
    entryA.prev := entry2;
    entryB.next := entry1;
    entry1.prev := entryB;
    entry2.next := entryA;
  }

  lemma Apart(a: seq<Entry>, b: seq<Entry>)
    requires Distinct(a + b)
    ensures Distinct(a) && Distinct(b)
    ensures forall i :: 0 <= i < |a| ==> a[i] !in b
  {
    var s := a + b;
    assert forall i :: 0 <= i < |a| ==> a[i] == s[i];
    assert forall j :: 0 <= j < |b| ==> b[j] == s[|a| + j];
  }

  lemma Together(a: seq<Entry>, b: seq<Entry>, ha: Head, hb: Head)
    requires Distinct(a) && Distinct(b) && Home(a, ha) && Home(b, hb) && ha != hb
    ensures Distinct(a + b)
  {
  }

  /**
    take_io_from_s5io_queue: all of `src` moves to the end of `dst`, counts add up, and every
    entry that moved belongs to `dst` now.
   */
  method Splice(src: Head, dst: Head) returns (count: int)
    requires src.Valid() && dst.Valid() && src != dst
    modifies src, dst, src.nodes, dst.nodes
    ensures src.Valid() && src.nodes == [] && count == |old(src.nodes)|
    ensures dst.Valid() && dst.nodes == old(dst.nodes + src.nodes)
  {
    hide Ring, Home, Distinct;
    var list := src.list;
    if list == null {
      assert dst.nodes + src.nodes == dst.nodes;
      return 0;
    }
    ghost var b := src.nodes;
    Together(dst.nodes, b, dst, src);
    count := src.count;
    src.list, src.count, src.nodes := null, 0, [];
    RehomeBeside(list, dst, dst.nodes, b);
    dst.Attach(list, count, b);
    NoEntries(src);
  }

  lemma NoEntries(head: Head)
    ensures Distinct<Entry>([]) && Ring([]) && Home([], head)
  {
  }
}
