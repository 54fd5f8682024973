/**
  What the depth of a session means for the rest of it (S5bd/src/s5session.c): replies and
  time-outs find their slot by the transaction id, and sub-I/Os come from a pool.
 */
module SessionSlots {
  import opened Machine
  import opened SessionPieces
  import opened SessionProtocol
  import opened SessionSafety
  import TransactionId

  /** How many sub-I/Os are under way. */
  function LiveCount(s: State): nat {
    |s.retry| + |SlotPieces(s.slots)|
  }

  lemma {:induction false} RetryLength(r: seq<Sub>)
    ensures |RetryPieces(r)| == |r|
  {
    if r != [] {
      RetryLength(r[1..]);
    }
  }

  lemma LiveCounted(s: State)
    ensures |Live(s)| == LiveCount(s)
  {
    RetryLength(s.retry);
  }

  lemma {:induction false} SlotBound(slots: seq<Option<Sub>>)
    ensures |SlotPieces(slots)| <= |slots|
    ensures (forall k :: 0 <= k < |slots| ==> slots[k].Some?) ==> |SlotPieces(slots)| == |slots|
  {
    if slots != [] {
      SlotBound(slots[1..]);
    }
  }

  lemma PutCount(slots: seq<Option<Sub>>, i: nat, sub: Sub)
    requires i < |slots| && slots[i].None?
    ensures |SlotPieces(slots[i := Some(sub)])| == |SlotPieces(slots)| + 1 <= |slots|
  {
    PutSlot(slots, i, sub);
    SlotBound(slots[i := Some(sub)]);
    SameSize(SlotPieces(slots[i := Some(sub)]), SlotPieces(slots) + [sub.piece]);
  }

  lemma TakeCount(slots: seq<Option<Sub>>, i: nat)
    requires i < |slots| && slots[i].Some?
    ensures |SlotPieces(slots)| == |SlotPieces(slots[i := None])| + 1
  {
    TakeSlot(slots, i);
    SameSize(SlotPieces(slots), SlotPieces(slots[i := None]) + [slots[i].value.piece]);
  }

  lemma SameCount(slots: seq<Option<Sub>>, i: nat, sub: Sub)
    requires i < |slots| && slots[i].Some?
    ensures |SlotPieces(slots[i := Some(sub)])| == |SlotPieces(slots)|
  {
    TakeCount(slots, i);
    PutCount(slots[i := None], i, sub);
    assert slots[i := None][i := Some(sub)] == slots[i := Some(sub)];
  }

  lemma SameSize(a: seq<Piece>, b: seq<Piece>)
    requires multiset(a) == multiset(b)
    ensures |a| == |b|
  {
    assert |multiset(a)| == |a| && |multiset(b)| == |b|;
  }

  lemma DelayedCount(s: State, slot: nat)
    requires Occupied(s, slot)
    ensures LiveCount(Delayed(s, slot)) == LiveCount(s) && |Delayed(s, slot).slots| == |s.slots|
  {
    TakeCount(s.slots, slot);
  }

  lemma {:induction false} RetriedCount(s: State, i: nat)
    ensures LiveCount(RetriedFrom(s, i)) == LiveCount(s) && |RetriedFrom(s, i).slots| == |s.slots|
    decreases |s.slots| - i
  {
    hide SlotPieces;
    if i < |s.slots| {
      if Occupied(s, i) {
        DelayedCount(s, i);
      }
      RetriedCount(if Occupied(s, i) then Delayed(s, i) else s, i + 1);
    }
  }

  lemma SentCount(s: State)
    requires Sound(s) && Enabled(s, Send) && LiveCount(s) <= |s.slots|
    ensures LiveCount(Sent(s)) <= |Sent(s).slots| == |s.slots|
  {
    hide SlotPieces, Balanced, Listed, Cursor, Counted, NextIn;
    assert s.free[0] in s.free;
    PutCount(s.slots, s.free[0], if s.retry != [] then s.retry[0] else Sub(NextPiece(Ready(s)), 0, 0));
  }

  lemma RepliedCount(s: State, slot: nat, lbas: set<nat>, status: nat)
    requires Enabled(s, Reply(slot, lbas, status))
    ensures LiveCount(Replied(s, slot, lbas, status)) <= LiveCount(s)
    ensures |Replied(s, slot, lbas, status).slots| == |s.slots|
  {
    hide SlotPieces, Without;
    var sub := AfterReply(s.slots[slot].value, |lbas|, status);
    SameCount(s.slots, slot, sub);
    TakeCount(s.slots, slot);
    assert s.slots[slot := Some(sub)][slot := None] == s.slots[slot := None];
  }

  lemma StepWithin(s: State, step: Step)
    requires Sound(s) && Enabled(s, step) && LiveCount(s) <= |s.slots|
    ensures LiveCount(Next(s, step)) <= |Next(s, step).slots| == |s.slots|
  {
    hide Sound, LiveCount, Sent, Replied, Delayed, RetriedFrom;
    match step
    case Push(nlba, status) => PushedCount(s, nlba, status);
    case Send => SentCount(s);
    case Resend(slot) => OwedCount(s, s.owed[slot := Lbas(s.slots[slot].value.piece)]);
    case Reply(slot, lbas, status) => RepliedCount(s, slot, lbas, status);
    case DelayRetry(slot) => DelayedCount(s, slot);
    case Reconnect => RetriedCount(s, 0);
  }

  lemma PushedCount(s: State, nlba: nat, status: nat)
    requires s.max > 0
    ensures LiveCount(Pushed(s, nlba, status)) == LiveCount(s) && |Pushed(s, nlba, status).slots| == |s.slots|
  {
  }

  lemma OwedCount(s: State, owed: seq<set<nat>>)
    ensures LiveCount(s.(owed := owed)) == LiveCount(s)
  {
  }

  /** In every run there are never more sub-I/Os under way than slots: one is cut only when none waits for a retry. */
  lemma {:induction false} RunWithin(s: State, steps: seq<Step>)
    requires Sound(s) && LiveCount(s) <= |s.slots| && IsRun(s, steps)
    ensures LiveCount(After(s, steps)) <= |After(s, steps).slots| == |s.slots|
    decreases |steps|
  {
    hide Sound, Enabled, Next, LiveCount;
    if steps != [] {
      StepSound(s, steps[0]);
      StepWithin(s, steps[0]);
      RunWithin(Next(s, steps[0]), steps[1..]);
    }
  }

  lemma NeverMore(max: nat, depth: nat, steps: seq<Step>)
    requires max > 0 && IsRun(Init(max, depth), steps)
    ensures |Live(After(Init(max, depth), steps))| <= |After(Init(max, depth), steps).slots| == depth
  {
    hide IsRun, After;
    InitSound(max, depth);
    NoSlots(depth);
    RunWithin(Init(max, depth), steps);
    LiveCounted(After(Init(max, depth), steps));
  }

  // A run that fills slot after slot.

  /** One large I/O, of which the pieces before `from` are in the slots below `k`. */
  ghost predicate Filling(s: State, n: nat, from: nat, k: nat) {
    && Sound(s) && Shape(s) && s.sizes == [n] && from < n && s.retry == [] && k <= |s.slots|
    && s.free == UpFrom(k, |s.slots|) && (forall j :: 0 <= j < k ==> s.slots[j].Some?)
    && HasMore(s) && Ready(s).current == Some(0) && Ready(s).nextLba == from
  }

  lemma FillOne(s: State, n: nat, from: nat, k: nat)
    requires Filling(s, n, from, k) && k < |s.slots| && from + s.max < n
    ensures Enabled(s, Send) && Filling(Next(s, Send), n, from + s.max, k + 1)
    ensures Next(s, Send).max == s.max && |Next(s, Send).slots| == |s.slots|
  {
    hide Sound, Lbas, NextIn;
    assert s.free[0] == k && s.free[1..] == UpFrom(k + 1, |s.slots|);
    StepSound(s, Send);
    SoundShape(Next(s, Send));
  }

  /** LBAs enough for `m` sub-I/Os. */
  function Enough(m: nat, max: nat): nat {
    if m == 0 then 0 else max + Enough(m - 1, max)
  }

  lemma {:induction false} Fill(s: State, n: nat, from: nat, k: nat, m: nat) returns (steps: seq<Step>)
    requires Filling(s, n, from, k) && k <= m <= |s.slots| && from + Enough(m - k, s.max) < n
    ensures IsRun(s, steps) && |After(s, steps).slots| == |s.slots|
    ensures forall j :: 0 <= j < m ==> After(s, steps).slots[j].Some?
    decreases m - k
  {
    hide Enabled, Next, Sound, Shape;
    if k == m {
      steps := [];
    } else {
      FillOne(s, n, from, k);
      var rest := Fill(Next(s, Send), n, from + s.max, k + 1, m);
      steps := [Send] + rest;
      assert steps[1..] == rest;
    }
  }

  lemma BigIo(max: nat, depth: nat, n: nat)
    requires max > 0 && n > 0
    ensures Enabled(Init(max, depth), Push(n, 0))
    ensures var s := Next(Init(max, depth), Push(n, 0)); Filling(s, n, 0, 0) && s.max == max && |s.slots| == depth
  {
    var s0 := Init(max, depth);
    InitSound(max, depth);
    SoundShape(s0);
    hide Sound, Uncompleted;
    StepSound(s0, Push(n, 0));
    SoundShape(Next(s0, Push(n, 0)));
  }

  /** Any number of slots, up to all of them, can be in use at once. */
  lemma SlotsInUse(max: nat, depth: nat, m: nat) returns (steps: seq<Step>)
    requires max > 0 && m <= depth
    ensures IsRun(Init(max, depth), steps) && |After(Init(max, depth), steps).slots| == depth
    ensures forall j :: 0 <= j < m ==> After(Init(max, depth), steps).slots[j].Some?
  {
    hide Enabled, Next, Init, Filling;
    var n := Enough(m, max) + 1;
    BigIo(max, depth, n);
    var rest := Fill(Next(Init(max, depth), Push(n, 0)), n, 0, 0, m);
    steps := [Push(n, 0)] + rest;
    assert steps[1..] == rest;
  }

  // What the depth may be.

  /** In every run, every slot in use is the one that its ids lead to. */
  ghost predicate SlotsFound(max: nat, depth: nat) {
    forall steps: seq<Step>, k: nat ::
      IsRun(Init(max, depth), steps) && Occupied(After(Init(max, depth), steps), k) ==> TransactionId.ReadsBack(k)
  }

  /** Replies and time-outs find the slot they are for, in every run, if and only if there are at most 512 slots. */
  lemma SlotsFoundIff(max: nat, depth: nat)
    requires max > 0
    ensures SlotsFound(max, depth) <==> depth <= 512
  {
    hide IsRun, After, Init, TransactionId.ReadsBack;
    if depth <= 512 {
      forall steps: seq<Step>, k: nat | IsRun(Init(max, depth), steps) && Occupied(After(Init(max, depth), steps), k)
        ensures TransactionId.ReadsBack(k)
      {
        NeverMore(max, depth, steps);
        TransactionId.ReadsBackIff(k);
      }
    } else {
      var steps := SlotsInUse(max, depth, 513);
      assert Occupied(After(Init(max, depth), steps), 512);
      TransactionId.ReadsBackIff(512);
    }
  }

  /** A pool of `count` sub-I/Os is never exhausted. */
  ghost predicate PoolSuffices(max: nat, depth: nat, count: nat) {
    forall steps: seq<Step> :: IsRun(Init(max, depth), steps) ==> |Live(After(Init(max, depth), steps))| <= count
  }

  /** That is so, in every run, if and only if it has an entry for each slot. */
  lemma PoolSufficesIff(max: nat, depth: nat, count: nat)
    requires max > 0
    ensures PoolSuffices(max, depth, count) <==> depth <= count
  {
    hide IsRun, After, Init, SlotPieces, Live;
    if depth <= count {
      forall steps: seq<Step> | IsRun(Init(max, depth), steps)
        ensures |Live(After(Init(max, depth), steps))| <= count
      {
        NeverMore(max, depth, steps);
      }
    } else {
      var steps := SlotsInUse(max, depth, depth);
      var s := After(Init(max, depth), steps);
      SlotBound(s.slots);
      LiveCounted(s);
    }
  }
}
