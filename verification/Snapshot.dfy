/**
  The snapshot chain of a block (common/include/pf_lmt.h): entries linked through
  prev_snap from the newest snapshot sequence to the oldest, changed in place, and read by
  the lookup of PfClientStore::do_read (common/src/pf_client_store.cpp).
 */
module SnapshotOrder {
  import opened Machine

  /** Newest first, no sequence twice. */
  ghost predicate Descending(s: seq<nat>) {
    forall i, j :: 0 <= i < j < |s| ==> s[i] > s[j]
  }

  /** The after_entry argument of insertion: true of entries equal or newer, or, as the redo log has it, newer only. */
  datatype Rule = NotOlder | NewerOnly

  predicate After(rule: Rule, y: nat, x: nat) {
    match rule
    case NotOlder => y >= x
    case NewerOnly => y > x
  }

  /** Where insert_lmt_entry_list puts sequence `x` into a non-empty chain; None stands for EEXIST. */
  function Position(s: seq<nat>, x: nat, rule: Rule): (p: Option<nat>)
    requires s != []
    ensures p.Some? ==> p.value <= |s|
  {
    if s[0] == x then None else if !After(rule, s[0], x) then Some(0) else Walk(s, 0, x, rule)
  }

  function Walk(s: seq<nat>, i: nat, x: nat, rule: Rule): (p: Option<nat>)
    requires i < |s|
    ensures p.Some? ==> i < p.value <= |s|
    decreases |s| - i
  {
    if s[i] == x then None
    else if i + 1 == |s| then Some(|s|)
    else if After(rule, s[i + 1], x) then Walk(s, i + 1, x, rule)
    else Some(i + 1)
  }

  function InsertAt<T>(s: seq<T>, p: nat, x: T): (r: seq<T>)
    requires p <= |s|
  {
    s[..p] + [x] + s[p..]
  }

  /** What a caller of insertion wants: EEXIST for a sequence already there, and otherwise a chain still in order. */
  ghost predicate InsertsInOrder(s: seq<nat>, x: nat, rule: Rule)
    requires s != []
  {
    var p := Position(s, x, rule);
    if x in s then p == None else p.Some? && Descending(InsertAt(s, p.value, x))
  }

  /** From an entry newer than `x`, the walk finds `x` or stops in front of the first older entry. */
  lemma {:induction false} WalkPast(s: seq<nat>, i: nat, x: nat, rule: Rule)
    requires i < |s| && Descending(s) && s[i] >= x
    requires rule == NewerOnly ==> x !in s[i + 1..]
    ensures var p := Walk(s, i, x, rule);
            if x in s[i..] then p == None
            else p.Some? && (forall k :: 0 <= k < p.value ==> s[k] > x) && (forall k :: p.value <= k < |s| ==> s[k] < x)
    decreases |s| - i
  {
    assert s[i..] == [s[i]] + s[i + 1..];
    if s[i] > x && i + 1 < |s| {
      assert s[i + 1..] == [s[i + 1]] + s[i + 2..];
      if s[i + 1] >= x {
        WalkPast(s, i + 1, x, rule);
      } else {
        assert forall k :: i + 1 <= k < |s| ==> s[k] <= s[i + 1];
      }
    }
  }

  lemma BetweenNewerAndOlder(s: seq<nat>, p: nat, x: nat)
    requires p <= |s| && Descending(s)
    requires (forall k :: 0 <= k < p ==> s[k] > x) && (forall k :: p <= k < |s| ==> s[k] < x)
    ensures Descending(InsertAt(s, p, x)) && x !in s
  {
  }

  /** With the predicate that holds for equal or newer entries, insertion is always in order. */
  lemma InsertNotOlder(s: seq<nat>, x: nat)
    requires s != [] && Descending(s)
    ensures InsertsInOrder(s, x, NotOlder)
  {
    hide Walk;
    assert s[0..] == s;
    if s[0] > x {
      WalkPast(s, 0, x, NotOlder);
    }
    var p := Position(s, x, NotOlder);
    if p.Some? {
      BetweenNewerAndOlder(s, p.value, x);
    }
  }

  /**
    With the predicate of the redo log, insertion is in order exactly when the new
    sequence is not already there behind the head.
   */
  lemma InsertNewerOnly(s: seq<nat>, x: nat)
    requires s != [] && Descending(s)
    ensures InsertsInOrder(s, x, NewerOnly) <==> x !in s[1..]
  {
    hide Walk;
    assert s == [s[0]] + s[1..];
    if x in s[1..] {
      WalkMisses(s, 0, x);
    } else {
      if s[0] > x {
        assert s[0..] == s;
        WalkPast(s, 0, x, NewerOnly);
      }
      var p := Position(s, x, NewerOnly);
      if p.Some? {
        BetweenNewerAndOlder(s, p.value, x);
      }
    }
  }

  /** The walk stops just before the equal entry and inserts a second one. */
  lemma {:induction false} WalkMisses(s: seq<nat>, i: nat, x: nat)
    requires i < |s| && Descending(s) && x in s[i + 1..]
    ensures Walk(s, i, x, NewerOnly).Some?
    decreases |s| - i
  {
    assert s[i] > s[i + 1] >= x;
    if s[i + 1] > x {
      assert s[i + 1..] == [s[i + 1]] + s[i + 2..];
      WalkMisses(s, i + 1, x);
    }
  }

  /** One such chain: inserting 2 into 3, 2 gives 3, 2, 2 instead of EEXIST. */
  lemma DuplicateInserted()
    ensures Position([3, 2], 2, NewerOnly) == Some(1)
    ensures InsertAt([3, 2], 1, 2) == [3, 2, 2]
  {
  }

  /** The sequence a read at snapshot `snap` is served from. */
  function Lookup(s: seq<nat>, snap: nat): Option<nat> {
    if s == [] then None else if snap < s[0] then Lookup(s[1..], snap) else Some(s[0])
  }

  /** It is the largest one not above the requested snapshot. */
  lemma {:induction false} LookupIsLargest(s: seq<nat>, snap: nat)
    requires Descending(s)
    ensures match Lookup(s, snap)
            case None => forall y :: y in s ==> y > snap
            case Some(x) => x in s && x <= snap && forall y :: y in s && y <= snap ==> y <= x
  {
    if s != [] {
      assert s == [s[0]] + s[1..];
      if snap < s[0] {
        LookupIsLargest(s[1..], snap);
      } else {
        assert forall y :: y in s ==> y <= s[0];
      }
    }
  }

  /** A new entry serves exactly the snapshots from its own sequence up to the next newer entry. */
  lemma LookupAfterInsert(s: seq<nat>, p: nat, x: nat, snap: nat)
    requires p <= |s| && Descending(s) && Descending(InsertAt(s, p, x))
    ensures Lookup(InsertAt(s, p, x), snap)
         == if x <= snap && (Lookup(s, snap).None? || Lookup(s, snap).value < x) then Some(x) else Lookup(s, snap)
  {
    hide Lookup, InsertAt, Descending;
    var t := InsertAt(s, p, x);
    LookupIsLargest(s, snap);
    LookupIsLargest(t, snap);
    InsertMembers(s, p, x);
    assert x in t;
    var before := Lookup(s, snap);
    if before.Some? {
      assert before.value in t;
    }
  }

  lemma InsertMembers(s: seq<nat>, p: nat, x: nat)
    requires p <= |s|
    ensures forall y :: y in InsertAt(s, p, x) <==> y == x || y in s
  {
    assert InsertAt(s, p, x)[p] == x;
    assert s == s[..p] + s[p..];
  }

  /** The elements on which `test` answers `want`, in order. */
  function Select<T>(s: seq<T>, test: T -> bool, want: bool): seq<T> {
    if s == [] then []
    else if test(s[0]) == want then [s[0]] + Select(s[1..], test, want)
    else Select(s[1..], test, want)
  }

  lemma {:induction false} SelectMember<T>(s: seq<T>, test: T -> bool, want: bool, x: T)
    ensures x in Select(s, test, want) <==> x in s && test(x) == want
  {
    if s != [] {
      SelectMember(s[1..], test, want, x);
      assert s == [s[0]] + s[1..];
    }
  }

  lemma {:induction false} SelectAppend<T>(s: seq<T>, x: T, test: T -> bool, want: bool)
    ensures Select(s + [x], test, want) == Select(s, test, want) + if test(x) == want then [x] else []
  {
    if s == [] {
      assert [] + [x] == [x];
    } else {
      SelectAppend(s[1..], x, test, want);
      assert (s + [x])[1..] == s[1..] + [x];
    }
  }
}

module SnapshotChain {
  import opened Machine
  import opened SnapshotOrder

  const EEXIST: int := -17

  class LmtEntry {
    const offset: int
    const snapSeq: nat
    var prevSnap: LmtEntry?

    constructor (offset: int, snapSeq: nat)
      ensures this.offset == offset && this.snapSeq == snapSeq && prevSnap == null
    {
      this.offset, this.snapSeq, prevSnap := offset, snapSeq, null;
    }
  }

  /** The entries reached from `head` along prev_snap are exactly `nodes`, in that order. */
  ghost predicate IsChain(head: LmtEntry?, nodes: seq<LmtEntry>)
    reads nodes
  {
    && (forall i, j :: 0 <= i < j < |nodes| ==> nodes[i] != nodes[j])
    && head == At(nodes, 0)
    && forall i :: 0 <= i < |nodes| ==> nodes[i].prevSnap == At(nodes, i + 1)
  }

  ghost function At(nodes: seq<LmtEntry>, i: nat): LmtEntry? {
    if i < |nodes| then nodes[i] else null
  }

  ghost function Seqs(nodes: seq<LmtEntry>): (s: seq<nat>)
    ensures |s| == |nodes| && forall i :: 0 <= i < |s| ==> s[i] == nodes[i].snapSeq
  {
    seq(|nodes|, i requires 0 <= i < |nodes| => nodes[i].snapSeq)
  }

  method Insert(head: LmtEntry, entry: LmtEntry, rule: Rule, ghost nodes: seq<LmtEntry>)
    returns (rc: int, head': LmtEntry, ghost nodes': seq<LmtEntry>)
    requires nodes != [] && IsChain(head, nodes)
    requires entry !in nodes && entry.prevSnap == null
    modifies nodes, entry
    ensures IsChain(head', nodes')
    ensures match Position(Seqs(nodes), entry.snapSeq, rule)
            case None => rc == EEXIST && head' == head && nodes' == nodes && entry.prevSnap == null
            case Some(p) => rc == 0 && nodes' == InsertAt(nodes, p, entry)
  {
    ghost var s, x := Seqs(nodes), entry.snapSeq;
    head', nodes' := head, nodes;
    if head.snapSeq == entry.snapSeq {
      return EEXIST, head', nodes';
    }
    if !After(rule, head.snapSeq, entry.snapSeq) {
      entry.prevSnap := head;
      return 0, entry, InsertAt(nodes, 0, entry);
    }
    var cur: LmtEntry? := head;
    ghost var i := 0;
    while cur != null
      invariant i < |nodes| && cur == nodes[i]
      invariant IsChain(head, nodes) && entry.prevSnap == null
      invariant Position(s, x, rule) == Walk(s, i, x, rule)
      decreases |nodes| - i
    {
      if cur.snapSeq == entry.snapSeq {
        return EEXIST, head', nodes';
      }
      if cur.prevSnap == null {
        LinkAfter(head, nodes, cur, i, entry);
        return 0, head, InsertAt(nodes, |nodes|, entry);
      } else if After(rule, cur.prevSnap.snapSeq, entry.snapSeq) {
        cur := cur.prevSnap;
        i := i + 1;
      } else {
        entry.prevSnap := cur.prevSnap;
        LinkAfter(head, nodes, cur, i, entry);
        return 0, head, InsertAt(nodes, i + 1, entry);
      }
    }
  }

  /** The store that makes `entry` the successor of the `i`-th entry. */
  method LinkAfter(ghost head: LmtEntry, ghost nodes: seq<LmtEntry>, cur: LmtEntry, ghost i: nat, entry: LmtEntry)
    requires i < |nodes| && cur == nodes[i] && IsChain(head, nodes)
    requires entry !in nodes && entry.prevSnap == cur.prevSnap
    modifies cur
    ensures IsChain(head, InsertAt(nodes, i + 1, entry))
  {
    ghost var all := InsertAt(nodes, i + 1, entry);
    cur.prevSnap := entry;
    forall k | 0 <= k < |all|
      ensures all[k].prevSnap == At(all, k + 1)
    {
      assert all[k] == if k <= i then nodes[k] else if k == i + 1 then entry else nodes[k - 1];
    }
    assert forall j, k :: 0 <= j < k < |all| ==> all[j] != all[k];
  }

  /** Unlinks every matching entry; `freed` lists the calls of the free function. */
  method DeleteMatched(head: LmtEntry?, matches: LmtEntry -> bool, ghost nodes: seq<LmtEntry>)
    returns (head': LmtEntry?, freed: seq<LmtEntry>)
    requires IsChain(head, nodes)
    modifies nodes
    ensures IsChain(head', Select(nodes, matches, false))
    ensures freed == Select(nodes, matches, true)
  {
    hide IsChain, Select;
    head', freed := head, [];
    var temp := head;
    ghost var j := 0;
    NothingSelected(head, nodes, matches);
    while temp != null && matches(temp)
      invariant j <= |nodes| && temp == head' == At(nodes, j)
      invariant IsChain(head', [] + nodes[j..])
      invariant Select(nodes[..j], matches, false) == []
      invariant freed == Select(nodes[..j], matches, true)
      decreases |nodes| - j
    {
      DropHead(head', nodes, j);
      SelectNext(nodes, j, matches);
      head' := temp.prevSnap;
      freed := freed + [temp];
      temp := head';
      j := j + 1;
    }
    var prev: LmtEntry? := null;
    ghost var kept: seq<LmtEntry> := [];
    while temp != null
      invariant j <= |nodes| && temp == At(nodes, j)
      invariant IsChain(head', kept + nodes[j..])
      invariant kept == Select(nodes[..j], matches, false)
      invariant freed == Select(nodes[..j], matches, true)
      invariant if kept == [] then temp == null || !matches(temp) else prev == kept[|kept| - 1] && prev in nodes
      decreases |nodes| - j
    {
      while temp != null && !matches(temp)
        invariant j <= |nodes| && temp == At(nodes, j)
        invariant IsChain(head', kept + nodes[j..])
        invariant kept == Select(nodes[..j], matches, false)
        invariant freed == Select(nodes[..j], matches, true)
        invariant if kept == [] then temp != null && !matches(temp) else prev == kept[|kept| - 1] && prev in nodes
        decreases |nodes| - j
      {
        KeepOne(head', kept, nodes, j);
        SelectNext(nodes, j, matches);
        prev := temp;
        temp := temp.prevSnap;
        kept, j := kept + [prev], j + 1;
      }
      if temp == null {
        break;
      }
      SelectNext(nodes, j, matches);
      freed := freed + [temp];
      WithoutOne(kept, nodes, j);
      temp := Unlink(head', kept + nodes[j..], |kept|, prev, temp);
      j := j + 1;
    }
    AllSelected(nodes, j, kept);
    assert IsChain(head', kept);
    assert kept == Select(nodes, matches, false);
    assert freed == Select(nodes, matches, true);
  }

  /** prev->prev_snap = temp->prev_snap, and on to the entry after. */
  method Unlink(ghost head: LmtEntry?, ghost all: seq<LmtEntry>, ghost k: nat, prev: LmtEntry, temp: LmtEntry)
    returns (next: LmtEntry?)
    requires IsChain(head, all) && 1 <= k < |all| && prev == all[k - 1] && temp == all[k]
    modifies prev
    ensures IsChain(head, all[..k] + all[k + 1..]) && next == At(all, k + 1)
  {
    ghost var rest := all[..k] + all[k + 1..];
    prev.prevSnap := temp.prevSnap;
    next := prev.prevSnap;
    forall i | 0 <= i < |rest|
      ensures rest[i].prevSnap == At(rest, i + 1)
    {
      assert rest[i] == all[if i < k then i else i + 1];
    }
    assert forall i, j :: 0 <= i < j < |rest| ==> rest[i] != rest[j];
  }

  lemma WithoutOne(kept: seq<LmtEntry>, nodes: seq<LmtEntry>, j: nat)
    requires j < |nodes|
    ensures var all := kept + nodes[j..];
            |kept| < |all| && all[|kept|] == nodes[j] && (kept != [] ==> all[|kept| - 1] == kept[|kept| - 1])
            && all[..|kept|] + all[|kept| + 1..] == kept + nodes[j + 1..] && At(all, |kept| + 1) == At(nodes, j + 1)
  {
  }

  lemma NothingSelected(head: LmtEntry?, nodes: seq<LmtEntry>, matches: LmtEntry -> bool)
    requires IsChain(head, nodes)
    ensures IsChain(head, [] + nodes[0..]) && head == At(nodes, 0)
    ensures Select(nodes[..0], matches, false) == [] && Select(nodes[..0], matches, true) == []
  {
    assert [] + nodes[0..] == nodes;
  }

  lemma AllSelected(nodes: seq<LmtEntry>, j: nat, kept: seq<LmtEntry>)
    requires j <= |nodes| && At(nodes, j) == null
    ensures j == |nodes| && nodes[..j] == nodes && kept + nodes[j..] == kept
  {
  }

  lemma DropHead(head: LmtEntry?, nodes: seq<LmtEntry>, j: nat)
    requires j < |nodes| && IsChain(head, [] + nodes[j..])
    ensures nodes[j].prevSnap == At(nodes, j + 1) && IsChain(At(nodes, j + 1), [] + nodes[j + 1..])
  {
    var all := [] + nodes[j..];
    var rest := [] + nodes[j + 1..];
    assert all[0] == nodes[j] && forall i :: 0 <= i < |rest| ==> rest[i] == all[i + 1];
  }

  lemma KeepOne(head: LmtEntry?, kept: seq<LmtEntry>, nodes: seq<LmtEntry>, j: nat)
    requires j < |nodes| && IsChain(head, kept + nodes[j..])
    ensures nodes[j].prevSnap == At(nodes, j + 1) && kept + nodes[j..] == kept + [nodes[j]] + nodes[j + 1..]
  {
    assert (kept + nodes[j..])[|kept|] == nodes[j];
  }

  lemma SelectNext(nodes: seq<LmtEntry>, j: nat, matches: LmtEntry -> bool)
    requires j < |nodes|
    ensures Select(nodes[..j + 1], matches, true)
         == Select(nodes[..j], matches, true) + if matches(nodes[j]) then [nodes[j]] else []
    ensures Select(nodes[..j + 1], matches, false)
         == Select(nodes[..j], matches, false) + if matches(nodes[j]) then [] else [nodes[j]]
  {
    assert nodes[..j + 1] == nodes[..j] + [nodes[j]];
    SelectAppend(nodes[..j], nodes[j], matches, true);
    SelectAppend(nodes[..j], nodes[j], matches, false);
  }

  /** The walk of do_read: the entry a read at snapshot `snap` is served from, or none. */
  method FindForRead(head: LmtEntry?, snap: nat, ghost nodes: seq<LmtEntry>) returns (entry: LmtEntry?)
    requires IsChain(head, nodes) && Descending(Seqs(nodes))
    ensures entry == null ==> forall e :: e in nodes ==> e.snapSeq > snap
    ensures entry != null ==> entry in nodes && entry.snapSeq <= snap
                              && forall e :: e in nodes && e.snapSeq <= snap ==> e.snapSeq <= entry.snapSeq
    ensures Lookup(Seqs(nodes), snap) == if entry == null then None else Some(entry.snapSeq)
  {
    entry := head;
    ghost var i := 0;
    ghost var s := Seqs(nodes);
    assert s[0..] == s;
    while entry != null && snap < entry.snapSeq
      invariant i <= |nodes| && entry == At(nodes, i)
      invariant Lookup(s, snap) == Lookup(s[i..], snap)
      decreases |nodes| - i
    {
      assert s[i..][1..] == s[i + 1..];
      entry := entry.prevSnap;
      i := i + 1;
    }
    LookupIsLargest(s, snap);
    forall e | e in nodes
      ensures e.snapSeq in s
    {
      var k :| 0 <= k < |nodes| && nodes[k] == e;
      assert s[k] == e.snapSeq;
    }
  }

  /** Deleting entries keeps the order of the rest. */
  lemma {:induction false} SelectDescending(nodes: seq<LmtEntry>, test: LmtEntry -> bool, want: bool)
    requires Descending(Seqs(nodes))
    ensures Descending(Seqs(Select(nodes, test, want)))
  {
    if nodes != [] {
      assert Seqs(nodes[1..]) == Seqs(nodes)[1..];
      SelectDescending(nodes[1..], test, want);
      var rest := Select(nodes[1..], test, want);
      forall k | 0 <= k < |rest|
        ensures rest[k].snapSeq < nodes[0].snapSeq
      {
        SelectMember(nodes[1..], test, want, rest[k]);
        var i :| 0 <= i < |nodes[1..]| && nodes[1..][i] == rest[k];
        assert nodes[i + 1] == rest[k];
      }
    }
  }

  ghost function Without(nodes: seq<LmtEntry>, entry: LmtEntry): seq<LmtEntry> {
    if nodes == [] then [] else (if nodes[0] == entry then [] else [nodes[0]]) + Without(nodes[1..], entry)
  }

  /** Matching one entry by its address removes just that entry and frees it once. */
  lemma {:induction false} SelectOne(nodes: seq<LmtEntry>, entry: LmtEntry, test: LmtEntry -> bool)
    requires forall i, j :: 0 <= i < j < |nodes| ==> nodes[i] != nodes[j]
    requires forall e :: test(e) <==> e == entry
    ensures Select(nodes, test, true) == if entry in nodes then [entry] else []
    ensures Select(nodes, test, false) == Without(nodes, entry)
  {
    if nodes != [] {
      SelectOne(nodes[1..], entry, test);
      assert nodes == [nodes[0]] + nodes[1..];
    }
  }

  /**
    The index part of delete_obj: the entry leaves the chain of its block and is freed,
    a chain left empty leaves the index, and no other block changes.
   */
  method DeleteObj(objLmt: map<int, LmtEntry>, key: int, entry: LmtEntry, ghost nodes: seq<LmtEntry>)
    returns (objLmt': map<int, LmtEntry>, freed: seq<LmtEntry>)
    requires if key in objLmt then IsChain(objLmt[key], nodes) else nodes == []
    modifies nodes
    ensures objLmt' - {key} == objLmt - {key}
    ensures key in objLmt' <==> Without(nodes, entry) != []
    ensures key in objLmt' ==> IsChain(objLmt'[key], Without(nodes, entry))
    ensures freed == if entry in nodes then [entry] else []
  {
    if key !in objLmt {
      return objLmt, [];
    }
    var matches := (e: LmtEntry) => e == entry;
    SelectOne(nodes, entry, matches);
    var head;
    head, freed := DeleteMatched(objLmt[key], matches, nodes);
    objLmt' := if head == null then objLmt - {key} else objLmt[key := head];
  }
}
