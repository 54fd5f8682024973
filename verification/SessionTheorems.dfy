/**
  The promises of the sub-I/O engine over whole runs: nothing is lost or doubled, every
  I/O completes once and only on its last sub-I/O, and a session with nothing left to do
  has completed everything.
 */
module SessionTheorems {
  import opened Machine
  import opened SessionPieces
  import opened SessionProtocol
  import opened SessionSafety
  import opened SessionAnswers
  import opened SessionSlots

  /** In every run in which replies come to the slots they are for; `SessionSlots` says when they do. */
  lemma ReachableSound(max: nat, depth: nat, steps: seq<Step>)
    requires max > 0 && IsRun(Init(max, depth), steps)
    ensures Sound(After(Init(max, depth), steps))
  {
    InitSound(max, depth);
    RunSound(Init(max, depth), steps);
  }

  lemma Once(a: seq<Piece>, b: seq<Piece>, p: Piece)
    ensures multiset(a + b)[p] == multiset(a)[p] + multiset(b)[p]
    ensures p in a + b <==> p in a || p in b
    ensures p in a <==> multiset(a)[p] > 0
    ensures p in b <==> multiset(b)[p] > 0
  {
    assert multiset(a + b) == multiset(a) + multiset(b);
  }

  lemma CutStep(io: nat, n: nat, from: nat, max: nat)
    requires max > 0
    ensures Cut(io, n, from, max)
            == if from < n then [Piece(io, from, Min(max, n - from))] + Cut(io, n, from + Min(max, n - from), max)
               else []
  {
  }

  lemma {:induction false} CutDistinct(io: nat, n: nat, from: nat, max: nat, p: Piece)
    requires max > 0
    ensures multiset(Cut(io, n, from, max))[p] <= 1 && (p in Cut(io, n, from, max) ==> p.io == io && p.slba >= from)
    decreases n - from
  {
    hide Cut;
    CutStep(io, n, from, max);
    if from < n {
      var k := Min(max, n - from);
      CutDistinct(io, n, from + k, max, p);
      Once([Piece(io, from, k)], Cut(io, n, from + k, max), p);
    }
  }

  lemma {:induction false} PiecesDistinct(sizes: seq<nat>, m: nat, max: nat, p: Piece)
    requires max > 0 && m <= |sizes|
    ensures multiset(AllPieces(sizes, m, max))[p] <= 1 && (p in AllPieces(sizes, m, max) ==> p.io < m)
  {
    hide Pieces, AllPieces;
    AllStep(sizes, m, max);
    if m > 0 {
      PiecesDistinct(sizes, m - 1, max, p);
      OneIoDistinct(m - 1, sizes[m - 1], max, p);
      Once(AllPieces(sizes, m - 1, max), Pieces(m - 1, sizes[m - 1], max), p);
    }
  }

  lemma AllStep(sizes: seq<nat>, m: nat, max: nat)
    requires max > 0 && m <= |sizes|
    ensures AllPieces(sizes, m, max)
            == if m > 0 then AllPieces(sizes, m - 1, max) + Pieces(m - 1, sizes[m - 1], max) else []
  {
    hide Pieces;
  }

  lemma OneIoDistinct(io: nat, n: nat, max: nat, p: Piece)
    requires max > 0
    ensures multiset(Pieces(io, n, max))[p] <= 1 && (p in Pieces(io, n, max) ==> p.io == io)
  {
    hide Cut;
    CutDistinct(io, n, 0, max, p);
  }

  lemma GeneratedDistinct(s: State, p: Piece)
    requires Sound(s)
    ensures multiset(s.generated)[p] <= 1
  {
    hide Balanced, Slotted, Counted, Listed, AllPieces, Rest;
    match s.current
    case None =>
      PiecesDistinct(s.sizes, |s.sizes| - |s.waiting|, s.max, p);
    case Some(c) =>
      PiecesDistinct(s.sizes, c + 1, s.max, p);
      assert multiset(s.generated + Rest(s.sizes, s.max, c, s.nextLba))[p] >= multiset(s.generated)[p];
  }

  /** Conservation: each sub-I/O is in exactly one place, the retry queue, a slot, or among the finished. */
  lemma InOnePlace(s: State, p: Piece)
    requires Sound(s) && p in s.generated
    ensures multiset(RetryPieces(s.retry))[p] + multiset(SlotPieces(s.slots))[p] + multiset(s.finished)[p] == 1
  {
    hide Slotted, Counted, Listed, Cursor, RetryPieces, SlotPieces;
    GeneratedDistinct(s, p);
    assert multiset(s.generated)[p] > 0;
  }

  /** An I/O reaches the callback queue only by the reply that finishes its last sub-I/O. */
  lemma CompletesOnLastReply(s: State, step: Step, i: nat)
    requires Sound(s) && Enabled(s, step) && i < |s.sizes|
    requires i !in s.callbacks && i in Next(s, step).callbacks
    ensures step.Reply? && s.slots[step.slot].value.piece.io == i
    ensures Count(s.finished, i) + 1 == SubCount(s.sizes[i], s.max)
    ensures Next(s, step).callbacks == s.callbacks + [i]
  {
    hide Sound, Count, SubCount, Without, NextIn;
    if !step.Reply? {
      RetryKeepsCallbacks(s, 0);
    } else {
      StepSound(s, step);
      var p := s.slots[step.slot].value.piece;
      CountConcat(s.finished, [p], i);
      CountOne(p, i);
      CallbackMeansFinished(s, i);
      CallbackMeansFinished(Next(s, step), i);
    }
  }

  lemma CallbackMeansFinished(s: State, i: nat)
    requires Sound(s) && i < |s.sizes|
    ensures s.max > 0 && (i in s.callbacks <==> Count(s.finished, i) == SubCount(s.sizes[i], s.max))
  {
    hide Slotted, Balanced, Cursor, Listed, Count, SubCount;
  }

  lemma {:induction false} RetryKeepsCallbacks(s: State, i: nat)
    ensures RetriedFrom(s, i).callbacks == s.callbacks
    decreases |s.slots| - i
  {
    if i < |s.slots| {
      RetryKeepsCallbacks(if Occupied(s, i) then Delayed(s, i) else s, i + 1);
    }
  }

  /** Every I/O is in the callback queue once if all its sub-I/Os are finished, and not otherwise. */
  lemma CompletedOnce(s: State, i: nat)
    requires Sound(s) && i < |s.sizes|
    ensures multiset(s.callbacks)[i] == if Count(s.finished, i) == SubCount(s.sizes[i], s.max) then 1 else 0
  {
    hide Slotted, Balanced, Cursor, Count, SubCount, Pending;
    OnceInDistinct(s.callbacks, i);
  }

  lemma {:induction false} OnceInDistinct(q: seq<nat>, x: nat)
    requires Distinct(q)
    ensures multiset(q)[x] == if x in q then 1 else 0
  {
    if q != [] {
      assert q == [q[0]] + q[1..];
      OnceInDistinct(q[1..], x);
    }
  }

  lemma {:induction false} AllPiecesPrefix(sizes: seq<nat>, m: nat, n: nat, max: nat)
    requires max > 0 && m <= n <= |sizes|
    ensures AllPieces(sizes, m, max) <= AllPieces(sizes, n, max)
    decreases n
  {
    if m < n {
      hide Pieces;
      AllPiecesPrefix(sizes, m, n - 1, max);
    }
  }

  // A reconnect.

  /** The sub-I/Os in the slots from `i` on, in order. */
  function InSlotsFrom(slots: seq<Option<Sub>>, i: nat): seq<Sub>
    decreases |slots| - i
  {
    if i >= |slots| then [] else (if slots[i].Some? then [slots[i].value] else []) + InSlotsFrom(slots, i + 1)
  }

  lemma {:induction false} SameFrom(a: seq<Option<Sub>>, b: seq<Option<Sub>>, i: nat)
    requires |a| == |b| && forall k :: i <= k < |a| ==> a[k] == b[k]
    ensures InSlotsFrom(a, i) == InSlotsFrom(b, i)
    decreases |a| - i
  {
    if i < |a| {
      SameFrom(a, b, i + 1);
    }
  }

  lemma {:induction false} RetriedAll(s: State, i: nat)
    requires forall k :: 0 <= k < i && k < |s.slots| ==> s.slots[k].None?
    ensures var t := RetriedFrom(s, i);
            && t.retry == s.retry + InSlotsFrom(s.slots, i)
            && |t.slots| == |s.slots| && forall k :: 0 <= k < |t.slots| ==> t.slots[k].None?
    decreases |s.slots| - i
  {
    if i < |s.slots| {
      var u := if Occupied(s, i) then Delayed(s, i) else s;
      SameFrom(u.slots, s.slots, i + 1);
      RetriedAll(u, i + 1);
    }
  }

  /** A reconnect puts all sub-I/Os under way, as they are, behind those that wait to be sent again. */
  lemma ReconnectRetriesAll(s: State)
    requires Enabled(s, Reconnect)
    ensures var t := Next(s, Reconnect);
            && t.retry == s.retry + InSlotsFrom(s.slots, 0)
            && |t.slots| == |s.slots| && forall k :: 0 <= k < |t.slots| ==> t.slots[k].None?
  {
    RetriedAll(s, 0);
  }

  // What has to be sent again goes first.

  function Sends(steps: seq<Step>): nat {
    if steps == [] then 0 else (if steps[0].Send? then 1 else 0) + Sends(steps[1..])
  }

  lemma {:induction false} RetriedGrows(s: State, i: nat)
    ensures s.retry <= RetriedFrom(s, i).retry
    decreases |s.slots| - i
  {
    if i < |s.slots| {
      RetriedGrows(if Occupied(s, i) then Delayed(s, i) else s, i + 1);
    }
  }

  lemma StepRetries(s: State, step: Step)
    requires Enabled(s, step)
    ensures step.Send? && s.retry != [] ==> Next(s, step).retry == s.retry[1..]
    ensures !step.Send? ==> s.retry <= Next(s, step).retry
  {
    hide Lbas, Without, NextIn, Uncompleted, OfIo, RetriedFrom;
    RetriedGrows(s, 0);
  }

  /** Whatever else happens, each sending takes the first of the sub-I/Os that wait to be sent again. */
  lemma {:induction false} RetriesInOrder(s: State, steps: seq<Step>)
    requires IsRun(s, steps) && Sends(steps) <= |s.retry|
    ensures s.retry[Sends(steps)..] <= After(s, steps).retry
    decreases |steps|
  {
    hide Enabled, Next;
    if steps != [] {
      var t := Next(s, steps[0]);
      StepRetries(s, steps[0]);
      RetriesInOrder(t, steps[1..]);
      if steps[0].Send? {
        assert t.retry[Sends(steps[1..])..] == s.retry[Sends(steps)..];
      } else {
        assert s.retry[Sends(steps)..] <= t.retry[Sends(steps)..];
      }
    }
  }

  /** So the `k`-th of them is sent, as it is, after `k` other sendings. */
  lemma RetryIsSent(s: State, steps: seq<Step>, k: nat)
    requires IsRun(s, steps) && Sends(steps) == k < |s.retry| && Enabled(After(s, steps), Send)
    ensures var t := After(s, steps); t.free != [] && Occupied(Next(t, Send), t.free[0]) &&
                                      Next(t, Send).slots[t.free[0]] == Some(s.retry[k])
  {
    hide IsRun, After, Lbas, NextIn;
    RetriesInOrder(s, steps);
    assert After(s, steps).retry[0] == s.retry[k..][0];
  }

  /** What was generated is a beginning of all pieces of all I/Os, in the order in which they were pushed. */
  lemma GeneratedInOrder(s: State)
    requires Sound(s)
    ensures s.max > 0 && s.generated <= AllPieces(s.sizes, |s.sizes|, s.max)
  {
    hide Balanced, Slotted, Counted, Listed, AllPieces, Rest;
    AllPiecesPrefix(s.sizes, if s.current.Some? then s.current.value + 1 else |s.sizes| - |s.waiting|, |s.sizes|,
                    s.max);
  }

  /**
    Every run of every session in which replies come to the slots they are for: each sub-I/O
    is in one place, a position is free exactly when its slot is empty, there are no more
    sub-I/Os under way than slots, sub-I/Os are the pieces of the I/Os in order of arrival,
    and each I/O is called back once when all its sub-I/Os are finished and not before. With
    one-LBA sub-I/Os, finished means answered. Up to a depth of 512 replies do come there:
    the ids of every slot in use lead back to it.
   */
  lemma EveryRun(max: nat, depth: nat, steps: seq<Step>)
    requires max > 0 && IsRun(Init(max, depth), steps)
    ensures var s := After(Init(max, depth), steps);
            && s.max > 0 && s.generated <= AllPieces(s.sizes, |s.sizes|, s.max)
            && (forall k: nat :: k in s.free <==> k < |s.slots| && s.slots[k].None?)
            && (forall p :: p in s.generated ==>
                  multiset(RetryPieces(s.retry))[p] + multiset(SlotPieces(s.slots))[p] + multiset(s.finished)[p] == 1)
            && (forall i :: 0 <= i < |s.sizes| ==>
                  multiset(s.callbacks)[i] == if Count(s.finished, i) == SubCount(s.sizes[i], s.max) then 1 else 0)
            && (max == 1 ==> FinishedAnswered(s))
            && |Live(s)| <= |s.slots| == depth
            && (depth <= 512 ==> forall k: nat :: Occupied(s, k) ==> TransactionId.ReadsBack(k))
  {
    hide Init, IsRun, After, AllPieces, RetryPieces, SlotPieces, Count, SubCount, Balanced, Counted, Listed, Cursor;
    hide FinishedAnswered, TransactionId.ReadsBack, Live;
    ReachableSound(max, depth, steps);
    NeverMore(max, depth, steps);
    SlotsFoundIff(max, depth);
    if max == 1 {
      OneLbaAnswered(max, depth, steps);
    }
    var s := After(Init(max, depth), steps);
    GeneratedInOrder(s);
    forall p | p in s.generated
      ensures multiset(RetryPieces(s.retry))[p] + multiset(SlotPieces(s.slots))[p] + multiset(s.finished)[p] == 1
    {
      InOnePlace(s, p);
    }
    forall i | 0 <= i < |s.sizes|
      ensures multiset(s.callbacks)[i] == if Count(s.finished, i) == SubCount(s.sizes[i], s.max) then 1 else 0
    {
      CompletedOnce(s, i);
    }
  }

  /** When nothing is under way and nothing can be sent, every I/O has completed. */
  lemma StuckMeansDone(s: State, i: nat)
    requires Sound(s) && i < |s.sizes| && |s.slots| > 0
    requires (forall k :: 0 <= k < |s.slots| ==> s.slots[k].None?) && !Enabled(s, Send)
    ensures i in s.callbacks && s.left[i] <= 0
  {
    hide Balanced, Slotted, Listed, Count, SubCount, Uncompleted, AllPieces, RetryPieces, SlotPieces;
    SoundShape(s);
    NothingFree(s);
    CountBound(s, i);
    CountAll(s.sizes, |s.sizes|, s.max, i);
    EmptySlots(s.slots);
    NothingLive(s, i);
    LeftOver(s, i);
  }

  lemma NothingLive(s: State, i: nat)
    requires s.retry == [] && SlotPieces(s.slots) == []
    ensures Count(Live(s), i) == 0
  {
  }

  lemma LeftOver(s: State, i: nat)
    requires Sound(s) && i < |s.sizes| && Count(s.finished, i) == SubCount(s.sizes[i], s.max)
    ensures s.left[i] <= 0
  {
    hide Balanced, Slotted, Listed, Count, Cursor;
    NoLbas(s.max);
  }

  lemma NothingFree(s: State)
    requires Slotted(s.slots, s.free, s.owed) && |s.slots| > 0 && s.slots[0].None?
    ensures s.free != []
  {
    assert 0 in s.free;
  }

  lemma {:induction false} EmptySlots(slots: seq<Option<Sub>>)
    requires forall k :: 0 <= k < |slots| ==> slots[k].None?
    ensures SlotPieces(slots) == []
  {
    if slots != [] {
      EmptySlots(slots[1..]);
    }
  }
}
