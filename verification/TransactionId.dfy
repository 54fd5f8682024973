/**
  Transaction ids of sub-I/Os (S5bd/src/s5session.c): the slot in the upper 10 bits, a
  counter of sendings in the middle 14 and the id of the I/O in the lower 8. A reply counts
  only if its id is that of the last sending of the sub-I/O in its slot. The id is a signed
  number, so the slot is read from it by an arithmetic shift.
 */
module TransactionId {

  const COUNTER: bv32 := 0x3f_ff00

  /** The id of a sub-I/O put into a slot, for the first time or after a retry. */
  function InSlot(index: bv32, tid: bv32, counter: bv32): bv32 {
    (index << 22) | (tid & 0x3f_ffff) | (counter << 8)
  }

  /** The id of a sub-I/O that is sent again after a time-out. */
  function SentAgain(tid: bv32, counter: bv32): bv32 {
    (tid & 0xffc0_00ff) | (counter << 8)
  }

  /** get_tid_counter: what it returns and what it leaves behind. */
  function GetCounter(c: nat): (r: (nat, nat))
    requires c <= 0x3fff
    ensures r.0 == c && r.1 == (c + 1) % 0x4000
  {
    if c == 0x3fff then (0x3fff, 0) else (c, c + 1)
  }

  /** Neither way of making an id disturbs the ten bits of the slot and the eight of the I/O. */
  lemma SlotAndIoKept(index: bv32, tid: bv32, counter: bv32)
    requires index < 0x400 && counter < 0x4000
    ensures InSlot(index, tid, counter) >> 22 == index && SentAgain(tid, counter) >> 22 == tid >> 22
    ensures InSlot(index, tid, counter) & 0xff == SentAgain(tid, counter) & 0xff == tid & 0xff
  {
  }

  /** The lower 22 bits, counter and I/O. */
  function Low(tid: bv32, counter: bv32): bv32 {
    (tid & 0x3f_ffff) | (counter << 8)
  }

  /** As a number, an id is its slot times 2^22 and its lower bits, as far as 32 bits go. */
  lemma FieldsApart(index: bv32, tid: bv32, counter: bv32)
    requires counter < 0x4000
    ensures Low(tid, counter) < 0x40_0000 && InSlot(index, tid, counter) == (index << 22) + Low(tid, counter)
  {
    OrAssociates(index << 22, tid & 0x3f_ffff, counter << 8);
    LowFits(tid, counter);
    OrIsPlus(index, Low(tid, counter));
  }

  lemma OrAssociates(a: bv32, b: bv32, c: bv32)
    ensures a | b | c == a | (b | c)
  {
  }

  lemma LowFits(tid: bv32, counter: bv32)
    requires counter < 0x4000
    ensures Low(tid, counter) < 0x40_0000
  {
  }

  lemma OrIsPlus(index: bv32, low: bv32)
    requires low < 0x40_0000
    ensures (index << 22) | low == (index << 22) + low
  {
  }

  /** The cast to 32 bits, the highest of which is the sign. */
  function ToInt32(x: int): (r: int)
    ensures -0x8000_0000 <= r < 0x8000_0000
  {
    (x + 0x8000_0000) % 0x1_0000_0000 - 0x8000_0000
  }

  /** The id of a sub-I/O in slot `index`, as a number. */
  function IdIn(index: nat, low: nat): int
    requires low < 0x40_0000
  {
    ToInt32(index * 0x40_0000 + low)
  }

  /** SUBMIT_Q_INDEX: a shift to the right that keeps the sign. */
  function SubmitQIndex(tid: int): int {
    tid / 0x40_0000
  }

  /** What is read from an id: ten bits of its slot, the highest of them as the sign. */
  lemma ReadFromId(index: nat, low: nat)
    requires low < 0x40_0000
    ensures SubmitQIndex(IdIn(index, low)) == if index % 1024 < 512 then index % 1024 else index % 1024 - 1024
  {
    var q, r := index / 1024, index % 1024;
    assert index * 0x40_0000 + low == q * 0x1_0000_0000 + (r * 0x40_0000 + low);
    if r < 512 {
      assert IdIn(index, low) == r * 0x40_0000 + low;
    } else {
      assert IdIn(index, low) == (r - 1024) * 0x40_0000 + low;
    }
  }

  /** The ids of slot `index` lead back to it. */
  ghost predicate ReadsBack(index: nat) {
    forall low: nat :: low < 0x40_0000 ==> SubmitQIndex(IdIn(index, low)) == index
  }

  lemma ReadsBackIff(index: nat)
    ensures ReadsBack(index) <==> index < 512
  {
    hide SubmitQIndex, IdIn;
    forall low: nat | low < 0x40_0000
      ensures SubmitQIndex(IdIn(index, low)) == index <==> index < 512
    {
      ReadFromId(index, low);
    }
    ReadFromId(index, 0);
  }

  /** Slot 512 is read as -512, and slot 1024 as 0. */
  lemma Slot512(low: nat)
    requires low < 0x40_0000
    ensures SubmitQIndex(IdIn(512, low)) == -512 && SubmitQIndex(IdIn(1024, low)) == 0
  {
    ReadFromId(512, low);
    ReadFromId(1024, low);
  }

  /** After a time-out the reply to the sending before counts no more, if and only if the counter has another value. */
  lemma SentAgainIsNew(tid: bv32, counter: bv32)
    requires counter < 0x4000
    ensures SentAgain(tid, counter) != tid <==> counter << 8 != tid & COUNTER
  {
  }

  function Slot(tid: bv32): bv32 {
    tid >> 22
  }

  /** A slot number of 10 bits and a counter of 14. */
  predicate Fits(index: bv32, counter: bv32) {
    index < 0x400 && counter < 0x4000
  }

  /** All bits of `a` are in `b`. */
  predicate Within(a: bv32, b: bv32) {
    b | a == b
  }

  /** The counter has no bit that the id lacks. */
  predicate AddsNothing(counter: bv32, tid: bv32) {
    Within(counter << 8, tid)
  }

  /** The ids of one sub-I/O that is put into the same slot again and again, newest first. */
  function Ids(index: bv32, tid: bv32, counters: seq<bv32>): (ids: seq<bv32>)
    ensures |ids| == |counters|
  {
    if counters == [] then []
    else
      var before := Ids(index, tid, counters[1..]);
      [InSlot(index, if before == [] then tid else before[0], counters[0])] + before
  }

  ghost predicate AllFit(index: bv32, counters: seq<bv32>) {
    forall k :: 0 <= k < |counters| ==> Fits(index, counters[k])
  }

  lemma SlotOf(index: bv32, tid: bv32, counter: bv32)
    requires Fits(index, counter)
    ensures Slot(InSlot(index, tid, counter)) == index
  {
    SlotAndIoKept(index, tid, counter);
  }

  /** In the slot it was in before, an id only gains bits. */
  lemma OnlyGains(index: bv32, tid: bv32, counter: bv32)
    requires Slot(tid) == index
    ensures InSlot(index, tid, counter) == tid | (counter << 8)
  {
    assert ((tid >> 22) << 22) | (tid & 0x3f_ffff) == tid;
  }

  lemma OldBitsStay(index: bv32, tid: bv32, counter: bv32)
    requires Slot(tid) == index
    ensures Within(tid, InSlot(index, tid, counter))
  {
    hide *;
    OnlyGains(index, tid, counter);
    OrGains(tid, counter << 8);
  }

  lemma SameIdIff(index: bv32, tid: bv32, counter: bv32)
    requires Slot(tid) == index
    ensures InSlot(index, tid, counter) == tid <==> AddsNothing(counter, tid)
  {
    hide InSlot, Slot;
    OnlyGains(index, tid, counter);
  }

  lemma OrGains(a: bv32, b: bv32)
    ensures Within(a, a | b)
  {
  }

  lemma WithinBoth(a: bv32, b: bv32, c: bv32)
    requires Within(a, b) && Within(b, c)
    ensures Within(a, c) && (a == c ==> b == c)
  {
  }

  lemma WithinItself(a: bv32)
    ensures Within(a, a)
  {
  }

  lemma {:induction false} IdsGrow(index: bv32, tid: bv32, counters: seq<bv32>, i: nat)
    requires i < |counters| && AllFit(index, counters)
    ensures Within(Ids(index, tid, counters)[i], Ids(index, tid, counters)[0])
    ensures Slot(Ids(index, tid, counters)[0]) == index
  {
    hide InSlot, Within, Slot, Fits, AddsNothing;
    var ids, before := Ids(index, tid, counters), Ids(index, tid, counters[1..]);
    SlotOf(index, if before == [] then tid else before[0], counters[0]);
    if i > 0 {
      IdsGrow(index, tid, counters[1..], i - 1);
      OldBitsStay(index, before[0], counters[0]);
      WithinBoth(before[i - 1], before[0], ids[0]);
    } else {
      WithinItself(ids[0]);
    }
  }

  /**
    A retry does not clear the old counter. Its id is one that the sub-I/O had before in
    this slot if and only if the counter has no bit that the last id lacks.
   */
  lemma RetryRepeatsIff(index: bv32, tid: bv32, counters: seq<bv32>)
    requires |counters| >= 2 && AllFit(index, counters)
    ensures var ids := Ids(index, tid, counters);
            ids[0] in ids[1..] <==> AddsNothing(counters[0], ids[1])
  {
    hide InSlot, Within, Slot, Fits, AddsNothing;
    var ids, before := Ids(index, tid, counters), Ids(index, tid, counters[1..]);
    assert ids[1..] == before && ids[0] == InSlot(index, before[0], counters[0]);
    IdsGrow(index, tid, counters[1..], 0);
    OldBitsStay(index, before[0], counters[0]);
    SameIdIff(index, before[0], counters[0]);
    if ids[0] in before {
      var i :| 0 <= i < |before| && before[i] == ids[0];
      IdsGrow(index, tid, counters[1..], i);
      WithinBoth(before[i], before[0], ids[0]);
    }
  }

  /** The counters 1, 2 and 3 give the middle bits 1, 3 and 3. */
  lemma ThirdIsSecond(tid: bv32)
    requires tid < 0x100
    ensures Ids(0, tid, [3, 2, 1]) == [0x300 | tid, 0x300 | tid, 0x100 | tid]
  {
    hide InSlot;
    var one: seq<bv32>, two: seq<bv32>, three: seq<bv32> := [1], [2, 1], [3, 2, 1];
    assert three[1..] == two && two[1..] == one && one[1..] == [];
    OneTwoThree(tid);
    assert Ids(0, tid, one) == [0x100 | tid];
    assert Ids(0, tid, two) == [0x300 | tid, 0x100 | tid];
  }

  lemma OneTwoThree(tid: bv32)
    requires tid < 0x100
    ensures InSlot(0, tid, 1) == 0x100 | tid && InSlot(0, 0x100 | tid, 2) == 0x300 | tid
    ensures InSlot(0, 0x300 | tid, 3) == 0x300 | tid
  {
  }
}
