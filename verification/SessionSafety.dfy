/** What holds in every run of the sub-I/O engine of a session. */
module SessionSafety {
  import opened Machine
  import opened SessionPieces
  import opened SessionProtocol

  ghost predicate IsRun(s: State, steps: seq<Step>)
    decreases |steps|
  {
    steps == [] || (Enabled(s, steps[0]) && IsRun(Next(s, steps[0]), steps[1..]))
  }

  ghost function After(s: State, steps: seq<Step>): State
    requires IsRun(s, steps)
    decreases |steps|
  {
    if steps == [] then s else After(Next(s, steps[0]), steps[1..])
  }

  /** This step is a reply without an error for LBA `l` of I/O `i`. */
  predicate Carries(s: State, step: Step, i: nat, l: nat)
    requires Enabled(s, step)
  {
    step.Reply? && step.status == 0 && s.slots[step.slot].value.piece.io == i && l in step.lbas
  }

  ghost predicate Carried(s: State, steps: seq<Step>, i: nat, l: nat)
    requires IsRun(s, steps)
    decreases |steps|
  {
    steps != [] && (Carries(s, steps[0], i, l) || Carried(Next(s, steps[0]), steps[1..], i, l))
  }

  lemma InitSound(max: nat, depth: nat)
    requires max > 0
    ensures Sound(Init(max, depth))
  {
    NoSlots(depth);
    UpFromAt(0, depth);
    var s := Init(max, depth);
    assert Slotted(s.slots, s.free, s.owed) by {
      forall i: nat
        ensures i in s.free <==> i < depth
      {
        if i < depth {
          assert s.free[i] == i;
        }
      }
    }
  }

  lemma PushCounted(max: nat, sizes: seq<nat>, left: seq<int>, callbacks: seq<nat>, finished: seq<Piece>, nlba: nat)
    requires Counted(max, sizes, left, callbacks, finished) && Count(finished, |sizes|) == 0
    ensures Counted(max, sizes + [nlba], left + [Uncompleted(nlba, max)], callbacks, finished)
  {
    PiecesCount(|sizes|, nlba, max);
    hide Count, Uncompleted;
  }

  lemma PushCursor(max: nat, sizes: seq<nat>, taken: nat, current: Option<nat>, nextLba: nat, generated: seq<Piece>,
                   nlba: nat)
    requires Cursor(max, sizes, taken, current, nextLba, generated)
    ensures Cursor(max, sizes + [nlba], taken, current, nextLba, generated)
  {
    MoreIos(sizes, nlba, if current.Some? then current.value + 1 else taken, max);
    hide AllPieces;
  }

  lemma PushListed(n: nat, waiting: seq<nat>, queue: seq<nat>, callbacks: seq<nat>)
    requires Listed(n, waiting, queue, callbacks)
    ensures Listed(n + 1, waiting + [n], queue, callbacks)
  {
    hide Pending, UpFrom;
    UpFromOneMore(n - |waiting|, n);
  }

  lemma PushSound(s: State, nlba: nat, status: nat)
    requires Sound(s)
    ensures s.max > 0 && Sound(Pushed(s, nlba, status))
  {
    hide Balanced, Slotted, Counted, Cursor, Listed;
    Basics(s);
    CountBound(s, |s.sizes|);
    PushCounted(s.max, s.sizes, s.left, s.callbacks, s.finished, nlba);
    PushCursor(s.max, s.sizes, |s.sizes| - |s.waiting|, s.current, s.nextLba, s.generated, nlba);
    PushListed(|s.sizes|, s.waiting, s.queue, s.callbacks);
  }

  lemma Basics(s: State)
    requires Sound(s)
    ensures s.max > 0 && |s.owed| == |s.slots| && |s.left| == |s.sizes|
  {
    hide Balanced, Cursor, Listed;
  }

  lemma TakeListed(n: nat, waiting: seq<nat>, queue: seq<nat>, callbacks: seq<nat>)
    requires Listed(n, waiting, queue, callbacks) && forall i :: n - |waiting| <= i < n ==> i !in callbacks
    ensures Listed(n, [], queue + waiting, callbacks)
  {
    PendingSplit(n - |waiting|, n, callbacks);
    hide Pending;
  }

  lemma TakeCursor(max: nat, sizes: seq<nat>, taken: nat, nextLba: nat, generated: seq<Piece>)
    requires Cursor(max, sizes, taken, None, nextLba, generated) && taken < |sizes|
    ensures Cursor(max, sizes, |sizes|, Some(taken), 0, generated)
  {
    hide Cut;
  }

  lemma TakeSound(s: State)
    requires Sound(s) && s.current.None? && s.waiting != []
    ensures Sound(Taken(s))
  {
    var n, t := |s.sizes|, |s.sizes| - |s.waiting|;
    hide Balanced, Slotted, Counted, Listed, Cursor;
    FirstWaiting(n, s.waiting, s.queue, s.callbacks);
    forall i | t <= i < n
      ensures i !in s.callbacks
    {
      NotCompleted(s, i);
    }
    TakeListed(n, s.waiting, s.queue, s.callbacks);
    TakeCursor(s.max, s.sizes, t, s.nextLba, s.generated);
  }

  lemma FirstWaiting(n: nat, waiting: seq<nat>, queue: seq<nat>, callbacks: seq<nat>)
    requires Listed(n, waiting, queue, callbacks) && waiting != []
    ensures waiting[0] == n - |waiting|
  {
    UpFromAt(n - |waiting|, n);
  }

  /** Cutting one piece moves the cursor over exactly that piece. */
  lemma CursorStep(max: nat, sizes: seq<nat>, taken: nat, c: nat, nextLba: nat, generated: seq<Piece>)
    requires Cursor(max, sizes, taken, Some(c), nextLba, generated)
    ensures nextLba <= sizes[c]
    ensures var p := Piece(c, nextLba, Min(max, sizes[c] - nextLba));
            if nextLba + p.nlba >= sizes[c]
            then Cursor(max, sizes, taken, if c + 1 < taken then Some(c + 1) else None, 0, generated + [p])
            else Cursor(max, sizes, taken, Some(c), nextLba + p.nlba, generated + [p])
  {
    var p := Piece(c, nextLba, Min(max, sizes[c] - nextLba));
    var rest := Rest(sizes, max, c, nextLba);
    if nextLba + p.nlba >= sizes[c] {
      assert Cut(c, sizes[c], nextLba + p.nlba, max) == [];
      assert rest == [p];
    } else {
      assert rest == [p] + Rest(sizes, max, c, nextLba + p.nlba);
      assert generated + rest == generated + [p] + Rest(sizes, max, c, nextLba + p.nlba);
    }
  }

  lemma PutBalanced(retry: seq<Sub>, slots: seq<Option<Sub>>, finished: seq<Piece>, generated: seq<Piece>, i: nat,
                    p: Piece)
    requires Balanced(retry, slots, finished, generated) && i < |slots| && slots[i].None?
    ensures Balanced(retry, slots[i := Some(Sub(p, 0, 0))], finished, generated + [p])
  {
    hide RetryPieces, SlotPieces;
    PutSlot(slots, i, Sub(p, 0, 0));
  }

  /** The cursor after a sub-I/O is cut from the current I/O. */
  lemma GeneratedCursor(s: State)
    requires Sound(s) && Shape(s) && s.current.Some?
    ensures var s' := Generated(s);
            Cursor(s'.max, s'.sizes, |s'.sizes| - |s.waiting|, s'.current, s'.nextLba, s'.generated)
  {
    hide Balanced, Slotted, Counted, Pending, Cursor, NextIn, Shape;
    var c, t := s.current.value, |s.sizes| - |s.waiting|;
    CursorFacts(s.max, s.sizes, t, c, s.nextLba, s.generated);
    forall i | c <= i < t
      ensures i !in s.callbacks
    {
      NotCompleted(s, i);
    }
    NextPending(c, t, s.callbacks);
    CursorStep(s.max, s.sizes, t, c, s.nextLba, s.generated);
  }

  lemma FreshSendSound(s: State, s': State)
    requires Sound(s) && Shape(s) && s.current.Some? && s.free != []
    requires s' == InSlot(Generated(s), Sub(NextPiece(s), 0, 0))
    ensures Sound(s')
  {
    hide Balanced, Slotted, Counted, Pending, Cursor, NextIn, Listed;
    var p := NextPiece(s);
    GeneratedCursor(s);
    TakeFree(s.slots, s.free, s.owed, Sub(p, 0, 0), Lbas(p));
    PutBalanced(s.retry, s.slots, s.finished, s.generated, s.free[0], p);
  }

  lemma CursorFacts(max: nat, sizes: seq<nat>, taken: nat, c: nat, nextLba: nat, generated: seq<Piece>)
    requires Cursor(max, sizes, taken, Some(c), nextLba, generated)
    ensures c < taken <= |sizes|
  {
  }

  lemma RetryBalanced(retry: seq<Sub>, slots: seq<Option<Sub>>, finished: seq<Piece>, generated: seq<Piece>, i: nat)
    requires Balanced(retry, slots, finished, generated) && retry != [] && i < |slots| && slots[i].None?
    ensures Balanced(retry[1..], slots[i := Some(retry[0])], finished, generated)
  {
    hide SlotPieces;
    PutSlot(slots, i, retry[0]);
    assert multiset(RetryPieces(retry)) == multiset{retry[0].piece} + multiset(RetryPieces(retry[1..]));
  }

  lemma RetrySendSound(s: State, s': State)
    requires Sound(s) && Shape(s) && s.retry != [] && s.free != []
    requires s' == InSlot(s.(retry := s.retry[1..]), s.retry[0])
    ensures Sound(s')
  {
    hide Balanced, Slotted, Counted, Cursor, Shape, Listed;
    var sub := s.retry[0];
    TakeFree(s.slots, s.free, s.owed, sub, Lbas(sub.piece));
    RetryBalanced(s.retry, s.slots, s.finished, s.generated, s.free[0]);
  }

  lemma SendSound(s: State)
    requires Sound(s) && Enabled(s, Send)
    ensures Sound(Sent(s))
  {
    if s.retry != [] {
      RetrySendSound(s, Sent(s));
    } else if s.current.Some? {
      FreshSendSound(s, Sent(s));
    } else {
      hide Sound;
      TakeSound(s);
      FreshSendSound(Taken(s), Sent(s));
    }
  }

  lemma DelayedSound(s: State, slot: nat)
    requires Sound(s) && Occupied(s, slot)
    ensures Sound(Delayed(s, slot))
  {
    hide SlotPieces, RetryPieces, Slotted, Counted, Uncompleted, SubCount, Pending, Cursor, Listed;
    GiveBack(s.slots, s.free, s.owed, slot);
    TakeSlot(s.slots, slot);
    RetryOneMore(s.retry, s.slots[slot].value);
  }

  /** Reconnecting empties every slot and loses nothing. */
  lemma {:induction false} RetriedSound(s: State, i: nat)
    requires Sound(s) && i <= |s.slots| && forall k :: 0 <= k < i ==> s.slots[k].None?
    ensures Sound(RetriedFrom(s, i))
    ensures var s' := RetriedFrom(s, i);
            |s'.slots| == |s.slots| && forall k :: 0 <= k < |s'.slots| ==> s'.slots[k].None?
    decreases |s.slots| - i
  {
    hide Sound;
    if i < |s.slots| {
      if Occupied(s, i) {
        DelayedSound(s, i);
        RetriedSound(Delayed(s, i), i + 1);
      } else {
        RetriedSound(s, i + 1);
      }
    }
  }

  lemma PartReplySound(s: State, slot: nat, lbas: set<nat>, status: nat)
    requires Sound(s) && Enabled(s, Reply(slot, lbas, status))
    requires s.slots[slot].value.replied + |lbas| != s.slots[slot].value.piece.nlba
    ensures Sound(Replied(s, slot, lbas, status))
  {
    hide SlotPieces, RetryPieces, Counted, Uncompleted, SubCount, Pending, Cursor, Listed, OfIo;
    SamePiece(s.slots, slot, AfterReply(s.slots[slot].value, |lbas|, status));
  }

  /** One sub-I/O more is finished: the counter still counts, and the I/O completes on its last one. */
  lemma CountdownSound(s: State, p: Piece, status: nat)
    requires Counted(s.max, s.sizes, s.left, s.callbacks, s.finished) && |s.statuses| == |s.left|
    requires p.io < |s.sizes| && p.io !in s.callbacks && Count(s.finished, p.io) < SubCount(s.sizes[p.io], s.max)
    ensures var s' := Countdown(s.(finished := s.finished + [p]), p.io, status);
            && Counted(s'.max, s'.sizes, s'.left, s'.callbacks, s'.finished)
            && ((s'.callbacks == s.callbacks && s'.queue == s.queue)
                || (s'.callbacks == s.callbacks + [p.io] && s'.queue == Without(s.queue, p.io)))
  {
    hide Without;
    var t := s.(finished := s.finished + [p]);
    var s' := Countdown(t, p.io, status);
    forall i: nat
      ensures Count(t.finished, i) == Count(s.finished, i) + if i == p.io then 1 else 0
    {
      CountConcat(s.finished, [p], i);
      CountOne(p, i);
    }
    NoLbas(s.max);
    hide Uncompleted;
  }

  lemma NoLbas(max: nat)
    requires max > 0
    ensures Uncompleted(0, max) == 0
  {
    DivUnique(max - 1, max, 0, max - 1);
  }

  lemma CountOne(p: Piece, i: nat)
    ensures Count([p], i) == if i == p.io then 1 else 0
  {
    assert [p][1..] == [];
  }

  lemma ReplyBalanced(retry: seq<Sub>, slots: seq<Option<Sub>>, finished: seq<Piece>, generated: seq<Piece>, i: nat)
    requires Balanced(retry, slots, finished, generated) && i < |slots| && slots[i].Some?
    ensures Balanced(retry, slots[i := None], finished + [slots[i].value.piece], generated)
  {
    hide SlotPieces, RetryPieces;
    TakeSlot(slots, i);
  }

  lemma ReplyListed(n: nat, waiting: seq<nat>, queue: seq<nat>, callbacks: seq<nat>, io: nat)
    requires Listed(n, waiting, queue, callbacks) && io < n - |waiting| && io !in callbacks
    ensures Listed(n, waiting, Without(queue, io), callbacks + [io])
  {
    hide Pending, Without;
    WithoutPending(n - |waiting|, callbacks, io);
  }

  lemma LastReplySound(s: State, slot: nat, lbas: set<nat>, status: nat, s': State)
    requires Sound(s) && Enabled(s, Reply(slot, lbas, status)) && s' == Replied(s, slot, lbas, status)
    requires s.slots[slot].value.replied + |lbas| == s.slots[slot].value.piece.nlba
    ensures Sound(s')
  {
    hide Balanced, Slotted, Counted, Cursor, Listed, Count, SubCount, Without, OfIo;
    var p := s.slots[slot].value.piece;
    LiveIo(s, slot);
    CountdownSound(Heard(s, slot, lbas, status), p, FirstError(s.slots[slot].value.status, status));
    ReplyListed(|s.sizes|, s.waiting, s.queue, s.callbacks, p.io);
    ReplyBalanced(s.retry, s.slots, s.finished, s.generated, slot);
    OwedFree(s.slots, s.free, s.owed, slot, s.owed[slot] - lbas);
    GiveBack(s.slots, s.free, s.owed[slot := s.owed[slot] - lbas], slot);
    assert s'.slots == s.slots[slot := None];
  }

  lemma OwedFree(slots: seq<Option<Sub>>, free: seq<nat>, owed: seq<set<nat>>, i: nat, lbas: set<nat>)
    requires Slotted(slots, free, owed) && i < |slots|
    ensures Slotted(slots, free, owed[i := lbas])
  {
  }

  lemma ResendSound(s: State, slot: nat, lbas: set<nat>)
    requires Sound(s) && slot < |s.owed|
    ensures Sound(s.(owed := s.owed[slot := lbas]))
  {
    hide Balanced, Counted, Cursor, Listed;
  }

  /** What every step keeps. */
  lemma StepSound(s: State, step: Step)
    requires Sound(s) && Enabled(s, step)
    ensures Sound(Next(s, step))
  {
    hide Sound, Shape, Pushed, Sent, Replied, Delayed, RetriedFrom;
    match step
    case Push(nlba, status) =>
      PushSound(s, nlba, status);
    case Send =>
      SendSound(s);
    case Resend(slot) =>
      Basics(s);
      ResendSound(s, slot, Lbas(s.slots[slot].value.piece));
    case Reply(slot, lbas, status) =>
      if s.slots[slot].value.replied + |lbas| == s.slots[slot].value.piece.nlba {
        LastReplySound(s, slot, lbas, status, Replied(s, slot, lbas, status));
      } else {
        PartReplySound(s, slot, lbas, status);
      }
    case DelayRetry(slot) =>
      DelayedSound(s, slot);
    case Reconnect =>
      RetriedSound(s, 0);
  }

  lemma {:induction false} RunSound(s: State, steps: seq<Step>)
    requires Sound(s) && IsRun(s, steps)
    ensures Sound(After(s, steps))
    decreases |steps|
  {
    hide Sound, Enabled, Next;
    if steps != [] {
      StepSound(s, steps[0]);
      RunSound(Next(s, steps[0]), steps[1..]);
    }
  }
}
