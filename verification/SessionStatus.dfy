/**
  The status with which an I/O is called back. Only the sub-I/O that finishes last passes
  its status on, so errors are reported exactly for I/Os that are one sub-I/O.
 */
module SessionStatus {
  import opened Machine
  import opened SessionPieces
  import opened SessionProtocol
  import opened SessionSafety

  /** A sub-I/O has an error only if its I/O has, and always if it is all of the I/O. */
  ghost predicate SubStatus(sub: Sub, sizes: seq<nat>, max: nat, failed: set<nat>) {
    && sub.piece.io < |sizes|
    && (sub.status != 0 ==> sub.piece.io in failed)
    && (sizes[sub.piece.io] <= max && sub.piece.io in failed ==> sub.status != 0)
  }

  ghost predicate SlotStatus(slots: seq<Option<Sub>>, sizes: seq<nat>, max: nat, failed: set<nat>) {
    forall k :: 0 <= k < |slots| && slots[k].Some? ==> SubStatus(slots[k].value, sizes, max, failed)
  }

  ghost predicate RetryStatus(retry: seq<Sub>, sizes: seq<nat>, max: nat, failed: set<nat>) {
    forall k :: 0 <= k < |retry| ==> SubStatus(retry[k], sizes, max, failed)
  }

  /** The status of I/O `i`: untouched before it is called back, and then the same as for a sub-I/O. */
  ghost predicate IoStatus(i: nat, size: nat, max: nat, status: nat, callbacks: seq<nat>, failed: set<nat>) {
    if i in callbacks then (status != 0 ==> i in failed) && (size <= max && i in failed ==> status != 0)
    else status == 0
  }

  ghost predicate IosStatus(sizes: seq<nat>, max: nat, statuses: seq<nat>, callbacks: seq<nat>, failed: set<nat>) {
    && |statuses| == |sizes|
    && forall i :: 0 <= i < |sizes| ==> IoStatus(i, sizes[i], max, statuses[i], callbacks, failed)
  }

  ghost predicate FailedKnown(sizes: seq<nat>, generated: seq<Piece>, failed: set<nat>) {
    forall i :: i in failed ==> i < |sizes| && Count(generated, i) > 0
  }

  ghost predicate Statused(s: State) {
    && SlotStatus(s.slots, s.sizes, s.max, s.failed)
    && RetryStatus(s.retry, s.sizes, s.max, s.failed)
    && IosStatus(s.sizes, s.max, s.statuses, s.callbacks, s.failed)
    && FailedKnown(s.sizes, s.generated, s.failed)
  }

  lemma OnePiece(n: nat, max: nat)
    requires max > 0 && n <= max
    ensures SubCount(n, max) == 1
  {
    if n > 0 {
      DivUnique(n + max - 1, max, 1, n - 1);
    }
  }

  /** An I/O with two sub-I/Os under way is larger than one sub-I/O. */
  lemma TwoInSlots(s: State, k: nat, j: nat)
    requires Sound(s) && Occupied(s, k) && Occupied(s, j) && k != j
    requires s.slots[k].value.piece.io == s.slots[j].value.piece.io
    ensures s.slots[k].value.piece.io < |s.sizes| && s.sizes[s.slots[k].value.piece.io] > s.max
  {
    hide Sound, Count, SubCount, SlotPieces, RetryPieces;
    var io := s.slots[k].value.piece.io;
    LiveIo(s, k);
    CountBound(s, io);
    SlotSplit(s.slots, k);
    var a, p, b := SlotPieces(s.slots[..k]), [s.slots[k].value.piece], SlotPieces(s.slots[k + 1..]);
    CountConcat(RetryPieces(s.retry), a + p + b, io);
    CountConcat(a + p, b, io);
    CountConcat(a, p, io);
    CountOne(s.slots[k].value.piece, io);
    if j < k {
      SlotIsLive(s.slots[..k], j);
      CountMember(a, s.slots[j].value.piece);
    } else {
      SlotIsLive(s.slots[k + 1..], j - k - 1);
      CountMember(b, s.slots[j].value.piece);
    }
    Basics(s);
    if s.sizes[io] <= s.max {
      OnePiece(s.sizes[io], s.max);
    }
  }

  lemma {:induction false} RetryIsLive(r: seq<Sub>, i: nat)
    requires i < |r|
    ensures r[i].piece in RetryPieces(r)
    decreases |r|
  {
    if i > 0 {
      RetryIsLive(r[1..], i - 1);
    }
  }

  lemma OneInEach(s: State, k: nat, j: nat)
    requires Sound(s) && Occupied(s, k) && j < |s.retry|
    requires s.slots[k].value.piece.io == s.retry[j].piece.io
    ensures s.slots[k].value.piece.io < |s.sizes| && s.sizes[s.slots[k].value.piece.io] > s.max
  {
    hide Sound, Count, SubCount, SlotPieces, RetryPieces;
    var io := s.slots[k].value.piece.io;
    LiveIo(s, k);
    CountBound(s, io);
    CountConcat(RetryPieces(s.retry), SlotPieces(s.slots), io);
    SlotIsLive(s.slots, k);
    CountMember(SlotPieces(s.slots), s.slots[k].value.piece);
    RetryIsLive(s.retry, j);
    CountMember(RetryPieces(s.retry), s.retry[j].piece);
    Basics(s);
    if s.sizes[io] <= s.max {
      OnePiece(s.sizes[io], s.max);
    }
  }

  /** A sub-I/O that is all of its I/O is cut before any reply for that came. */
  lemma FreshStatus(s: State)
    requires Sound(s) && Statused(s) && s.current.Some? && Shape(s)
    ensures SubStatus(Sub(NextPiece(s), 0, 0), s.sizes, s.max, s.failed)
  {
    hide Sound, Count, SubCount, SlotStatus, RetryStatus;
    var c := s.current.value;
    CountBound(s, c);
    if s.sizes[c] <= s.max {
      OnePiece(s.sizes[c], s.max);
    }
  }

  lemma SendStatused(s: State)
    requires Sound(s) && Statused(s) && Enabled(s, Send)
    ensures Statused(Sent(s))
  {
    hide Sound, Count, SubStatus, NextIn, Lbas;
    if s.retry == [] {
      var t := Ready(s);
      if s.current.None? {
        TakeSound(s);
      }
      SoundShape(t);
      FreshStatus(t);
      forall i | i in s.failed
        ensures Count(s.generated + [NextPiece(t)], i) > 0
      {
        CountConcat(s.generated, [NextPiece(t)], i);
      }
    }
  }

  lemma {:induction false} RetriedStatused(s: State, i: nat)
    requires Statused(s)
    ensures Statused(RetriedFrom(s, i))
    decreases |s.slots| - i
  {
    hide Count, SubStatus;
    if i < |s.slots| {
      RetriedStatused(if Occupied(s, i) then Delayed(s, i) else s, i + 1);
    }
  }

  /** A reply with an error concerns its own sub-I/O and, if that is all of the I/O, no other one. */
  lemma OthersStatused(s: State, slot: nat, failed: set<nat>)
    requires Sound(s) && Statused(s) && Occupied(s, slot)
    requires failed == s.failed || failed == s.failed + {s.slots[slot].value.piece.io}
    ensures SlotStatus(s.slots[slot := None], s.sizes, s.max, failed)
    ensures RetryStatus(s.retry, s.sizes, s.max, failed)
  {
    hide Sound, Count;
    var io := s.slots[slot].value.piece.io;
    forall k | 0 <= k < |s.slots| && k != slot && s.slots[k].Some?
      ensures SubStatus(s.slots[k].value, s.sizes, s.max, failed)
    {
      if s.slots[k].value.piece.io == io {
        TwoInSlots(s, slot, k);
      }
    }
    forall k | 0 <= k < |s.retry|
      ensures SubStatus(s.retry[k], s.sizes, s.max, failed)
    {
      if s.retry[k].piece.io == io {
        OneInEach(s, slot, k);
      }
    }
  }

  lemma ReplyStatused(s: State, slot: nat, lbas: set<nat>, status: nat)
    requires Sound(s) && Statused(s) && Enabled(s, Reply(slot, lbas, status))
    ensures Statused(Replied(s, slot, lbas, status))
  {
    hide Sound, Count, SubCount, Without, OfIo, SlotPieces, RetryPieces;
    var sub := AfterReply(s.slots[slot].value, |lbas|, status);
    var io := sub.piece.io;
    LiveIo(s, slot);
    CountBound(s, io);
    SlotIsLive(s.slots, slot);
    CountMember(Live(s), sub.piece);
    var failed := Heard(s, slot, lbas, status).failed;
    OthersStatused(s, slot, failed);
    assert SubStatus(sub, s.sizes, s.max, failed);
    var t := Replied(s, slot, lbas, status);
    assert forall k :: 0 <= k < |s.slots| && k != slot ==> s.slots[slot := None][k] == s.slots[k] == t.slots[k];
    assert SlotStatus(t.slots, t.sizes, t.max, t.failed);
  }

  lemma StepStatused(s: State, step: Step)
    requires Sound(s) && Statused(s) && Enabled(s, step) && (step.Push? ==> step.status == 0)
    ensures Statused(Next(s, step))
  {
    hide Sound, Count, Sent, Replied, Lbas;
    match step
    case Push(nlba, status) =>
      PushStatused(s, nlba);
    case Send =>
      SendStatused(s);
    case Resend(slot) =>
    case Reply(slot, lbas, status) =>
      ReplyStatused(s, slot, lbas, status);
    case DelayRetry(slot) =>
    case Reconnect =>
      RetriedStatused(s, 0);
  }

  lemma PushStatused(s: State, nlba: nat)
    requires Sound(s) && Statused(s)
    ensures s.max > 0 && Statused(Pushed(s, nlba, 0))
  {
    hide Balanced, Slotted, Listed, Cursor, Count, SubCount, Uncompleted;
  }

  ghost predicate OkPushed(steps: seq<Step>) {
    forall k :: 0 <= k < |steps| && steps[k].Push? ==> steps[k].status == 0
  }

  /** Nothing is sent again. */
  ghost predicate Plain(steps: seq<Step>) {
    forall k :: 0 <= k < |steps| ==> steps[k].Push? || steps[k].Send? || steps[k].Reply?
  }

  lemma {:induction false} RunStatused(s: State, steps: seq<Step>)
    requires Sound(s) && Statused(s) && IsRun(s, steps) && OkPushed(steps)
    ensures Statused(After(s, steps))
    decreases |steps|
  {
    hide Sound, Statused, Enabled, Next;
    if steps != [] {
      StepStatused(s, steps[0]);
      StepSound(s, steps[0]);
      RunStatused(Next(s, steps[0]), steps[1..]);
    }
  }

  /**
    In every run that pushes messages without an error: an error is never made up, and an
    I/O that is one sub-I/O is called back with an error if and only if a reply carried one.
   */
  lemma StatusOfSmallIo(max: nat, depth: nat, steps: seq<Step>, i: nat)
    requires max > 0 && IsRun(Init(max, depth), steps) && OkPushed(steps)
    requires i in After(Init(max, depth), steps).callbacks
    ensures var s := After(Init(max, depth), steps);
            && i < |s.sizes| == |s.statuses| && (s.statuses[i] != 0 ==> i in s.failed)
            && (s.sizes[i] <= max ==> (s.statuses[i] != 0 <==> i in s.failed))
  {
    InitSound(max, depth);
    var s := After(Init(max, depth), steps);
    RunSound(Init(max, depth), steps);
    assert Statused(Init(max, depth));
    hide Init, IsRun, After, Balanced, Slotted, Listed, Cursor, Count, SubCount;
    RunStatused(Init(max, depth), steps);
    RunKeepsMax(Init(max, depth), steps);
    InitMax(max, depth);
    assert IoStatus(i, s.sizes[i], s.max, s.statuses[i], s.callbacks, s.failed);
  }

  lemma InitMax(max: nat, depth: nat)
    ensures Init(max, depth).max == max && Init(max, depth).sizes == []
  {
  }

  lemma {:induction false} RetriedKeeps(s: State, i: nat)
    ensures var t := RetriedFrom(s, i); t.max == s.max && t.sizes == s.sizes && t.statuses == s.statuses
    decreases |s.slots| - i
  {
    if i < |s.slots| {
      RetriedKeeps(if Occupied(s, i) then Delayed(s, i) else s, i + 1);
    }
  }

  /** What no step changes: the configuration, the sizes of the I/Os, and an error in a message. */
  lemma StepKeeps(s: State, step: Step)
    requires Enabled(s, step)
    ensures var t := Next(s, step);
            && t.max == s.max && s.sizes <= t.sizes && |s.statuses| <= |t.statuses|
            && forall i :: 0 <= i < |s.statuses| && s.statuses[i] != 0 ==> t.statuses[i] == s.statuses[i]
  {
    hide Without, NextIn, Uncompleted, Lbas, OfIo;
    RetriedKeeps(s, 0);
  }

  lemma {:induction false} RunKeepsMax(s: State, steps: seq<Step>)
    requires IsRun(s, steps)
    ensures After(s, steps).max == s.max && s.sizes <= After(s, steps).sizes
    decreases |steps|
  {
    hide Enabled, Next;
    if steps != [] {
      StepKeeps(s, steps[0]);
      RunKeepsMax(Next(s, steps[0]), steps[1..]);
    }
  }

  /** A message that comes in with an error keeps it, whatever is answered. */
  lemma {:induction false} ErrorSticks(s: State, steps: seq<Step>, i: nat)
    requires IsRun(s, steps) && i < |s.statuses| && s.statuses[i] != 0
    ensures i < |After(s, steps).statuses| && After(s, steps).statuses[i] == s.statuses[i]
    decreases |steps|
  {
    hide Enabled, Next;
    if steps != [] {
      StepKeeps(s, steps[0]);
      ErrorSticks(Next(s, steps[0]), steps[1..], i);
    }
  }

  // An I/O larger than one sub-I/O.

  /** The only I/O has `n` LBAs, those before `from` are answered, and nothing is under way. */
  ghost predicate AnsweredUpTo(s: State, n: nat, from: nat) {
    && Sound(s) && Shape(s) && s.sizes == [n] && from < n && s.left == [Uncompleted(n - from, s.max)]
    && s.statuses == [0] && s.callbacks == [] && s.retry == []
    && |s.slots| > 0 && (forall k :: 0 <= k < |s.slots| ==> s.slots[k].None?)
    && HasMore(s) && Ready(s).current == Some(0) && Ready(s).nextLba == from
  }

  /** The next sub-I/O, sent and answered whole. */
  function Answer(s: State, status: nat): Step
    requires Shape(s) && HasMore(s) && s.free != []
  {
    Reply(s.free[0], Lbas(NextPiece(Ready(s))), status)
  }

  lemma CanSend(s: State, n: nat, from: nat)
    requires AnsweredUpTo(s, n, from)
    ensures s.free != [] && Enabled(s, Send)
  {
    hide Balanced, Counted, Cursor, Listed;
    assert 0 in s.free;
  }

  lemma CountsOn(n: nat, max: nat)
    requires max > 0 && n > 0
    ensures n > max ==> Uncompleted(n, max) == Uncompleted(n - max, max) + 1 && Uncompleted(n - max, max) > 0
    ensures n <= max ==> Uncompleted(n, max) == 1
  {
    if n > max {
      DivStep(n - max + max - 1, max);
      DivStep(n - max - 1, max);
    } else {
      DivUnique(n + max - 1, max, 1, n - 1);
    }
  }

  lemma SendNext(s: State, n: nat, from: nat)
    requires AnsweredUpTo(s, n, from)
    ensures s.free != [] && Enabled(s, Send)
    ensures var s1, i, p := Next(s, Send), s.free[0], Piece(0, from, Min(s.max, n - from));
            && Sound(s1) && i < |s1.slots| == |s.slots| && s1.slots == s.slots[i := Some(Sub(p, 0, 0))]
            && s1.owed[i] == Lbas(p) && p == NextPiece(Ready(s)) && s1.failed == s.failed && s1.max == s.max
            && s1.sizes == s.sizes && s1.left == s.left && s1.statuses == s.statuses && s1.callbacks == []
            && s1.retry == [] && s1.waiting == []
            && (from + p.nlba < n ==> s1.current == Some(0) && s1.nextLba == from + p.nlba)
  {
    hide Sound, Uncompleted, Lbas, NextIn;
    CanSend(s, n, from);
    StepSound(s, Send);
    if s.current.Some? {
      WaitingTaken(s);
    }
  }

  lemma WaitingTaken(s: State)
    requires Sound(s) && s.sizes != [] && s.sizes == [s.sizes[0]] && s.current == Some(0)
    ensures s.waiting == []
  {
    hide Balanced, Counted, Slotted;
  }

  /** Sending and answering one more sub-I/O. */
  lemma AnswerOne(s: State, n: nat, from: nat, status: nat)
    requires AnsweredUpTo(s, n, from)
    ensures s.free != [] && Enabled(s, Send) && Enabled(Next(s, Send), Answer(s, status))
    ensures var s2, k := Next(Next(s, Send), Answer(s, status)), Min(s.max, n - from);
            && s2.failed == (if status != 0 then s.failed + {0} else s.failed) && s2.max == s.max
            && if from + k < n then AnsweredUpTo(s2, n, from + k)
               else s2.callbacks == [0] && s2.statuses == [status]
  {
    hide Sound, Uncompleted, Range, OfIo, Without, NextIn;
    SendNext(s, n, from);
    var s1, p := Next(s, Send), NextPiece(Ready(s));
    SoundShape(s1);
    RangeHas(p.slba, p.nlba);
    CountsOn(n - from, s.max);
    StepSound(s1, Answer(s, status));
    var s2 := Next(s1, Answer(s, status));
    SoundShape(s2);
  }

  /** That answer carries nothing before `from`, and nothing at all if it is an error. */
  lemma AnswerCarries(s: State, n: nat, from: nat, status: nat)
    requires AnsweredUpTo(s, n, from) && s.free != [] && Enabled(s, Send) && Enabled(Next(s, Send), Answer(s, status))
    ensures from > 0 || status != 0 ==> !Carries(Next(s, Send), Answer(s, status), 0, 0)
  {
    hide Sound, Uncompleted, Range, Next;
    var p := NextPiece(Ready(s));
    RangeHas(p.slba, p.nlba);
  }

  lemma {:induction false} AnswerRest(s: State, n: nat, from: nat) returns (steps: seq<Step>)
    requires AnsweredUpTo(s, n, from) && 0 in s.failed
    ensures IsRun(s, steps) && OkPushed(steps)
    ensures After(s, steps).callbacks == [0] && After(s, steps).statuses == [0] && 0 in After(s, steps).failed
    ensures Plain(steps) && (from > 0 ==> !Carried(s, steps, 0, 0))
    decreases n - from
  {
    hide Enabled, Next, Answer, Shape, Carries, IsRun, After, Carried, OkPushed, Plain, AnsweredUpTo;
    AnswerOne(s, n, from, 0);
    AnswerCarries(s, n, from, 0);
    Basic(s, n, from);
    var s1 := Next(s, Send);
    var s2, k := Next(s1, Answer(s, 0)), Min(s.max, n - from);
    var rest: seq<Step> := [];
    NoSteps(s2);
    if from + k < n {
      rest := AnswerRest(s2, n, from + k);
    }
    IsReply(s);
    steps := TwoMore(s, Answer(s, 0), rest);
  }

  lemma NoSteps(s: State)
    ensures IsRun(s, []) && After(s, []) == s && OkPushed([]) && Plain([]) && !Carried(s, [], 0, 0)
  {
  }

  lemma Basic(s: State, n: nat, from: nat)
    requires AnsweredUpTo(s, n, from)
    ensures s.max > 0 && Shape(s) && HasMore(s) && from < n
  {
  }

  lemma IsReply(s: State)
    requires Shape(s) && HasMore(s) && s.free != []
    ensures Answer(s, 0).Reply?
  {
  }

  lemma TwoMore(s: State, step: Step, rest: seq<Step>) returns (steps: seq<Step>)
    requires Enabled(s, Send) && Enabled(Next(s, Send), step) && step.Reply?
    requires IsRun(Next(Next(s, Send), step), rest) && OkPushed(rest)
    ensures IsRun(s, steps) && After(s, steps) == After(Next(Next(s, Send), step), rest) && OkPushed(steps)
    ensures Plain(rest) ==> Plain(steps)
    ensures !Carries(Next(s, Send), step, 0, 0) && !Carried(Next(Next(s, Send), step), rest, 0, 0)
            ==> !Carried(s, steps, 0, 0)
  {
    hide Enabled, Next;
    var tail := [step] + rest;
    steps := [Send] + tail;
    assert tail[1..] == rest && steps[1..] == tail;
    assert IsRun(Next(s, Send), tail);
    assert tail[0] == step && steps[0] == Send;
    assert Carried(Next(s, Send), tail, 0, 0)
        <==> Carries(Next(s, Send), step, 0, 0) || Carried(Next(Next(s, Send), step), rest, 0, 0);
  }

  lemma FirstIo(max: nat, depth: nat, n: nat)
    requires max > 0 && depth > 0 && n > 0
    ensures Enabled(Init(max, depth), Push(n, 0))
    ensures AnsweredUpTo(Next(Init(max, depth), Push(n, 0)), n, 0) && Next(Init(max, depth), Push(n, 0)).max == max
  {
    hide Sound, Shape, Uncompleted, UpFrom, Repeat;
    var s0 := Init(max, depth);
    InitSound(max, depth);
    SoundShape(s0);
    StepSound(s0, Push(n, 0));
    SoundShape(Next(s0, Push(n, 0)));
  }

  /** With more than one sub-I/O there is a run that loses an error: the I/O is called back as if all were well. */
  lemma StatusLost(max: nat, depth: nat, n: nat) returns (steps: seq<Step>)
    requires max > 0 && depth > 0 && n > max
    ensures IsRun(Init(max, depth), steps) && OkPushed(steps) && steps != [] && steps[0] == Push(n, 0)
    ensures var s := After(Init(max, depth), steps);
            s.callbacks == [0] && s.statuses == [0] && 0 in s.failed
    ensures Plain(steps) && !Carried(Init(max, depth), steps, 0, 0)
  {
    hide Enabled, Next, Answer, Shape, Init, AnsweredUpTo;
    var s0 := Init(max, depth);
    FirstIo(max, depth, n);
    var s := Next(s0, Push(n, 0));
    Basic(s, n, 0);
    AnswerOne(s, n, 0, 1);
    AnswerCarries(s, n, 0, 1);
    var s2 := Next(Next(s, Send), Answer(s, 1));
    var rest := AnswerRest(s2, n, max);
    FailedReply(s);
    rest := TwoMore(s, Answer(s, 1), rest);
    steps := [Push(n, 0)] + rest;
    assert steps[1..] == rest;
  }

  lemma FailedReply(s: State)
    requires Shape(s) && HasMore(s) && s.free != []
    ensures Answer(s, 1).Reply?
  {
  }

  /** For runs that begin with an I/O of `n` LBAs: its status is right in all of them iff it is one sub-I/O. */
  ghost predicate StatusRight(max: nat, depth: nat, n: nat) {
    forall steps: seq<Step> ::
      IsRun(Init(max, depth), steps) && OkPushed(steps) && steps != [] && steps[0] == Push(n, 0)
      ==> FirstRight(After(Init(max, depth), steps))
  }

  ghost predicate FirstRight(s: State) {
    0 in s.callbacks ==> s.statuses != [] && (s.statuses[0] != 0 <==> 0 in s.failed)
  }

  lemma StatusIff(max: nat, depth: nat, n: nat)
    requires max > 0 && depth > 0 && n > 0
    ensures StatusRight(max, depth, n) <==> n <= max
  {
    if n <= max {
      forall steps: seq<Step> |
        IsRun(Init(max, depth), steps) && OkPushed(steps) && steps != [] && steps[0] == Push(n, 0)
        ensures FirstRight(After(Init(max, depth), steps))
      {
        SmallFirst(max, depth, n, steps);
      }
    } else {
      var steps := StatusLost(max, depth, n);
      assert !FirstRight(After(Init(max, depth), steps));
    }
  }

  lemma SmallFirst(max: nat, depth: nat, n: nat, steps: seq<Step>)
    requires max > 0 && 0 < n <= max
    requires IsRun(Init(max, depth), steps) && OkPushed(steps) && steps != [] && steps[0] == Push(n, 0)
    ensures FirstRight(After(Init(max, depth), steps))
  {
    hide Init, Enabled, Next;
    RunKeepsMax(Next(Init(max, depth), steps[0]), steps[1..]);
    if 0 in After(Init(max, depth), steps).callbacks {
      StatusOfSmallIo(max, depth, steps, 0);
      InitMax(max, depth);
      SizePushed(Init(max, depth), n);
    }
  }

  lemma SizePushed(s: State, n: nat)
    requires Enabled(s, Push(n, 0))
    ensures Next(s, Push(n, 0)).sizes == s.sizes + [n]
  {
  }
}
