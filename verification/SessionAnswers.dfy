/**
  What replies have to do with completion: when the assertion on replied_lba_count holds,
  and when a finished sub-I/O has had every one of its LBAs answered. Both hold in every
  run exactly for one-LBA sub-I/Os, and for any size as long as nothing that was answered
  in part is sent again.
 */
module SessionAnswers {
  import opened Machine
  import opened SessionPieces
  import opened SessionProtocol
  import opened SessionSafety

  /** The assertion of handle_readwrite_reply. */
  predicate Asserted(s: State, step: Step)
    requires Enabled(s, step)
  {
    step.Reply? ==> s.slots[step.slot].value.replied + |step.lbas| <= s.slots[step.slot].value.piece.nlba
  }

  ghost predicate AllAsserted(s: State, steps: seq<Step>)
    requires IsRun(s, steps)
    decreases |steps|
  {
    steps == [] || (Asserted(s, steps[0]) && AllAsserted(Next(s, steps[0]), steps[1..]))
  }

  /** Every LBA of the sub-I/O has been answered, except those in `owed`. */
  ghost predicate Told(p: Piece, owed: set<nat>, answered: set<(nat, nat)>) {
    forall l :: l in Lbas(p) ==> l in owed || (p.io, l) in answered
  }

  /** Every LBA of every finished sub-I/O has been answered. */
  ghost predicate FinishedAnswered(s: State) {
    forall p :: p in s.finished ==> Told(p, {}, s.answered)
  }

  /** No sub-I/O that was answered in part is sent again by this step. */
  ghost predicate Clean(s: State, step: Step) {
    match step
    case Resend(slot) => Occupied(s, slot) ==> s.slots[slot].value.replied == 0
    case DelayRetry(slot) => Occupied(s, slot) ==> s.slots[slot].value.replied == 0
    case Reconnect => forall k :: 0 <= k < |s.slots| && s.slots[k].Some? ==> s.slots[k].value.replied == 0
    case _ => true
  }

  ghost predicate CleanRun(s: State, steps: seq<Step>)
    requires IsRun(s, steps)
    decreases |steps|
  {
    steps == [] || (Clean(s, steps[0]) && CleanRun(Next(s, steps[0]), steps[1..]))
  }

  /** What was counted and what is owed make up the sub-I/O, and what is not owed was answered. */
  ghost predicate SlotTidy(sub: Sub, owed: set<nat>, answered: set<(nat, nat)>) {
    sub.replied + |owed| == sub.piece.nlba && Told(sub.piece, owed, answered)
  }

  ghost predicate SlotsTidy(slots: seq<Option<Sub>>, owed: seq<set<nat>>, answered: set<(nat, nat)>) {
    && |owed| == |slots|
    && forall k :: 0 <= k < |slots| && slots[k].Some? ==> SlotTidy(slots[k].value, owed[k], answered)
  }

  /** Nothing in the retry queue was answered in part. */
  ghost predicate RetryTidy(retry: seq<Sub>) {
    forall k :: 0 <= k < |retry| ==> retry[k].replied == 0
  }

  ghost predicate Tidy(s: State) {
    SlotsTidy(s.slots, s.owed, s.answered) && RetryTidy(s.retry) && FinishedAnswered(s)
  }

  /** A sub-I/O just sent is owed whole. */
  lemma SentTidy(slots: seq<Option<Sub>>, owed: seq<set<nat>>, answered: set<(nat, nat)>, i: nat, sub: Sub)
    requires SlotsTidy(slots, owed, answered) && i < |slots| && sub.replied == 0
    ensures SlotsTidy(slots[i := Some(sub)], owed[i := Lbas(sub.piece)], answered)
  {
    RangeHas(sub.piece.slba, sub.piece.nlba);
  }

  lemma {:induction false} RetriedTidy(s: State, i: nat)
    requires Tidy(s) && Clean(s, Reconnect)
    ensures Tidy(RetriedFrom(s, i))
    decreases |s.slots| - i
  {
    hide Told;
    if i < |s.slots| {
      RetriedTidy(if Occupied(s, i) then Delayed(s, i) else s, i + 1);
    }
  }

  lemma PartOf(a: set<nat>, b: set<nat>)
    requires a <= b
    ensures |b - a| == |b| - |a| >= 0
  {
    assert b == a + (b - a);
  }

  /** An accepted reply takes its LBAs from what is owed to what is answered. */
  lemma HeardTidy(sub: Sub, owed: set<nat>, answered: set<(nat, nat)>, lbas: set<nat>, status: nat)
    requires SlotTidy(sub, owed, answered) && lbas <= owed
    ensures sub.replied + |lbas| <= sub.piece.nlba
    ensures SlotTidy(AfterReply(sub, |lbas|, status), owed - lbas, answered + OfIo(sub.piece.io, lbas))
    ensures sub.replied + |lbas| == sub.piece.nlba ==> Told(sub.piece, {}, answered + OfIo(sub.piece.io, lbas))
  {
    PartOf(lbas, owed);
    forall l | l in lbas
      ensures (sub.piece.io, l) in OfIo(sub.piece.io, lbas)
    {
    }
    if sub.replied + |lbas| == sub.piece.nlba {
      assert owed - lbas == {};
    }
  }

  lemma MoreAnswered(p: Piece, owed: set<nat>, answered: set<(nat, nat)>, more: set<(nat, nat)>)
    requires Told(p, owed, answered)
    ensures Told(p, owed, answered + more)
  {
  }

  lemma ReplyTidy(s: State, slot: nat, lbas: set<nat>, status: nat)
    requires Tidy(s) && Enabled(s, Reply(slot, lbas, status))
    ensures Tidy(Replied(s, slot, lbas, status)) && Asserted(s, Reply(slot, lbas, status))
  {
    hide Told, OfIo, Without;
    var sub := s.slots[slot].value;
    var answered := s.answered + OfIo(sub.piece.io, lbas);
    HeardTidy(sub, s.owed[slot], s.answered, lbas, status);
    forall k | 0 <= k < |s.slots| && s.slots[k].Some?
      ensures Told(s.slots[k].value.piece, s.owed[k], answered)
    {
      MoreAnswered(s.slots[k].value.piece, s.owed[k], s.answered, OfIo(sub.piece.io, lbas));
    }
    forall p | p in s.finished
      ensures Told(p, {}, answered)
    {
      MoreAnswered(p, {}, s.answered, OfIo(sub.piece.io, lbas));
    }
  }

  lemma StepTidy(s: State, step: Step)
    requires Tidy(s) && Enabled(s, step) && Clean(s, step)
    ensures Tidy(Next(s, step)) && Asserted(s, step)
  {
    hide Without, NextIn, Uncompleted, Told, SlotTidy, Replied, Lbas;
    match step
    case Push(_, _) =>
    case Send =>
      var sub := if s.retry != [] then s.retry[0] else Sub(NextPiece(Ready(s)), 0, 0);
      SentTidy(s.slots, s.owed, s.answered, s.free[0], sub);
    case Resend(slot) =>
      SentTidy(s.slots, s.owed, s.answered, slot, s.slots[slot].value);
      assert s.slots[slot := Some(s.slots[slot].value)] == s.slots;
    case Reply(slot, lbas, status) =>
      ReplyTidy(s, slot, lbas, status);
    case DelayRetry(slot) =>
    case Reconnect =>
      RetriedTidy(s, 0);
  }

  /**
    Whatever the largest sub-I/O: as long as nothing answered in part is sent again, the
    assertion holds and every finished sub-I/O has had all its LBAs answered.
   */
  lemma {:induction false} CleanRunAnswered(s: State, steps: seq<Step>)
    requires Tidy(s) && IsRun(s, steps) && CleanRun(s, steps)
    ensures AllAsserted(s, steps) && FinishedAnswered(After(s, steps))
    decreases |steps|
  {
    hide Enabled, Next, Clean, Asserted, FinishedAnswered, SlotsTidy, RetryTidy;
    if steps != [] {
      StepTidy(s, steps[0]);
      CleanRunAnswered(Next(s, steps[0]), steps[1..]);
    }
  }

  /** One-LBA sub-I/Os: those under way have no answer yet. */
  ghost predicate Unanswered(s: State) {
    && s.max == 1
    && (forall k :: 0 <= k < |s.slots| && s.slots[k].Some? ==> FreshSub(s.slots[k].value))
    && (forall k :: 0 <= k < |s.retry| ==> FreshSub(s.retry[k]))
  }

  predicate FreshSub(sub: Sub) { sub.replied == 0 && sub.piece.nlba <= 1 }

  lemma {:induction false} RetriedUnanswered(s: State, i: nat)
    requires Unanswered(s)
    ensures Unanswered(RetriedFrom(s, i))
    decreases |s.slots| - i
  {
    if i < |s.slots| {
      RetriedUnanswered(if Occupied(s, i) then Delayed(s, i) else s, i + 1);
    }
  }

  lemma StepUnanswered(s: State, step: Step)
    requires Tidy(s) && Unanswered(s) && Enabled(s, step)
    ensures Unanswered(Next(s, step)) && Clean(s, step)
  {
    hide Without, NextIn, Uncompleted, Told, Lbas, OfIo, FinishedAnswered;
    match step
    case Push(_, _) =>
    case Send =>
    case Resend(slot) =>
    case Reply(slot, lbas, status) =>
      PartOf(lbas, s.owed[slot]);
    case DelayRetry(slot) =>
    case Reconnect =>
      RetriedUnanswered(s, 0);
  }

  lemma {:induction false} OneLbaRunsAreClean(s: State, steps: seq<Step>)
    requires Tidy(s) && Unanswered(s) && IsRun(s, steps)
    ensures CleanRun(s, steps)
    decreases |steps|
  {
    hide Tidy, Enabled, Next, Clean, Unanswered;
    if steps != [] {
      StepUnanswered(s, steps[0]);
      StepTidy(s, steps[0]);
      OneLbaRunsAreClean(Next(s, steps[0]), steps[1..]);
    }
  }

  lemma InitUnanswered(max: nat, depth: nat)
    requires max > 0
    ensures Tidy(Init(max, depth)) && (max == 1 ==> Unanswered(Init(max, depth)))
  {
  }

  lemma OneLbaAnswered(max: nat, depth: nat, steps: seq<Step>)
    requires max == 1 && IsRun(Init(max, depth), steps)
    ensures AllAsserted(Init(max, depth), steps) && FinishedAnswered(After(Init(max, depth), steps))
  {
    hide IsRun, AllAsserted, Init, FinishedAnswered, After;
    InitUnanswered(max, depth);
    OneLbaRunsAreClean(Init(max, depth), steps);
    CleanRunAnswered(Init(max, depth), steps);
  }

  // Larger sub-I/Os.

  /** The first I/O, of two LBAs, is sent whole in slot 0. */
  lemma FirstSend(max: nat, depth: nat, s: State)
    requires max >= 2 && depth > 0 && s == Pushed(Init(max, depth), 2, 0)
    ensures Enabled(s, Send)
    ensures var s' := Next(s, Send);
            && Shape(s') && |s'.slots| == depth && s'.owed[0] == {0, 1} && s'.finished == [] && s'.answered == {}
            && s'.slots[0] == Some(Sub(Piece(0, 0, 2), 0, 0)) && s'.sizes == [2] && s'.callbacks == []
            && s'.left == [Uncompleted(2, max)] && s'.failed == {}
  {
    UpFromAt(0, depth);
    RangeHas(0, 2);
    assert s.waiting == [0] && s.sizes == [2];
    hide Uncompleted, Range;
    assert Range(0, 2) == {0, 1};
  }

  lemma FirstPush(max: nat, depth: nat)
    requires max > 0
    ensures Enabled(Init(max, depth), Push(2, 0))
    ensures Next(Init(max, depth), Push(2, 0)) == Pushed(Init(max, depth), 2, 0)
  {
    InitSound(max, depth);
    SoundShape(Init(max, depth));
  }

  /** The sub-I/O of two LBAs in slot 0, answered for LBA 0 and sent again. */
  lemma SentAgain(s: State)
    requires Shape(s) && |s.slots| > 0 && s.slots[0] == Some(Sub(Piece(0, 0, 2), 0, 0)) && s.owed[0] == {0, 1}
    ensures Enabled(s, Reply(0, {0}, 0)) && Asserted(s, Reply(0, {0}, 0))
    ensures var s1 := Next(s, Reply(0, {0}, 0));
            && Enabled(s1, Resend(0))
            && var s2 := Next(s1, Resend(0));
               && Shape(s2) && s2.slots == s.slots[0 := Some(Sub(Piece(0, 0, 2), 1, 0))] && s2.owed[0] == {0, 1}
               && s2.sizes == s.sizes && s2.left == s.left && s2.callbacks == s.callbacks && s2.finished == s.finished
               && s2.answered == s.answered + {(0, 0)} && s2.failed == s.failed
  {
    RangeHas(0, 2);
    hide Range;
    assert Range(0, 2) == {0, 1};
    var s1 := Next(s, Reply(0, {0}, 0));
    assert OfIo(0, {0}) == {(0, 0)};
    assert s1.slots[0] == Some(Sub(Piece(0, 0, 2), 1, 0));
    assert Shape(s1);
  }

  /** Answering both LBAs now is one too many for the assertion. */
  lemma OneTooMany(s: State)
    requires Shape(s) && |s.slots| > 0 && s.slots[0] == Some(Sub(Piece(0, 0, 2), 1, 0)) && s.owed[0] == {0, 1}
    ensures Enabled(s, Reply(0, {0, 1}, 0)) && !Asserted(s, Reply(0, {0, 1}, 0))
  {
  }

  /** Answering LBA 0 once more finishes the sub-I/O and its I/O, and nobody ever answered LBA 1. */
  lemma SameAgain(s: State, max: nat)
    requires Shape(s) && |s.slots| > 0 && s.slots[0] == Some(Sub(Piece(0, 0, 2), 1, 0)) && s.owed[0] == {0, 1}
    requires max >= 2 && s.sizes == [2] && s.left == [Uncompleted(2, max)] && s.callbacks == [] && s.finished == []
    requires s.answered == {(0, 0)}
    ensures Enabled(s, Reply(0, {0}, 0)) && Asserted(s, Reply(0, {0}, 0))
    ensures var s' := Next(s, Reply(0, {0}, 0));
            && s'.callbacks == [0] && !FinishedAnswered(s') && s'.sizes == [2]
            && s'.answered == {(0, 0)} && s'.failed == s.failed
  {
    RangeHas(0, 2);
    hide Range, Uncompleted, Without;
    assert Uncompleted(2, max) == 1 by { UncompletedTwo(max); }
    var s' := Next(s, Reply(0, {0}, 0));
    assert OfIo(0, {0}) == {(0, 0)};
    var p := Piece(0, 0, 2);
    assert s'.finished == [p] && p in s'.finished;
    assert 1 in Lbas(p) && (0, 1) !in s'.answered;
  }

  lemma UncompletedTwo(max: nat)
    requires max >= 2
    ensures Uncompleted(2, max) == 1
  {
    DivUnique(2 + max - 1, max, 1, 1);
  }

  lemma RunOn(s: State, step: Step, rest: seq<Step>)
    requires Enabled(s, step) && IsRun(Next(s, step), rest)
    ensures IsRun(s, [step] + rest) && After(s, [step] + rest) == After(Next(s, step), rest)
    ensures AllAsserted(s, [step] + rest) <==> Asserted(s, step) && AllAsserted(Next(s, step), rest)
  {
    hide Enabled, Next, Asserted;
    var steps := [step] + rest;
    assert steps[0] == step && steps[1..] == rest;
  }

  lemma Done(s: State)
    ensures IsRun(s, []) && AllAsserted(s, []) && After(s, []) == s
  {
  }

  /** A run that begins with the I/O of two LBAs, answered in part and sent again, and ends with one more reply. */
  lemma RunSentAgain(max: nat, depth: nat, last: Step) returns (s: State, steps: seq<Step>)
    requires max >= 2 && depth > 0
    ensures Shape(s) && |s.slots| > 0 && s.slots[0] == Some(Sub(Piece(0, 0, 2), 1, 0)) && s.owed[0] == {0, 1}
    ensures s.sizes == [2] && s.left == [Uncompleted(2, max)] && s.callbacks == [] && s.finished == []
    ensures s.answered == {(0, 0)} && s.failed == {}
    ensures Enabled(s, last) ==>
              && IsRun(Init(max, depth), steps) && After(Init(max, depth), steps) == Next(s, last)
              && (AllAsserted(Init(max, depth), steps) <==> Asserted(s, last))
  {
    hide Enabled, Next, Asserted, AllAsserted, IsRun, Shape, Init, Uncompleted, After;
    var s0 := Init(max, depth);
    FirstPush(max, depth);
    var s1 := Next(s0, Push(2, 0));
    FirstSend(max, depth, s1);
    var s2 := Next(s1, Send);
    SentAgain(s2);
    var s3 := Next(s2, Reply(0, {0}, 0));
    s := Next(s3, Resend(0));
    var t4 := [last] + [];
    var t3 := [Resend(0)] + t4;
    var t2 := [Reply(0, {0}, 0)] + t3;
    var t1 := [Send] + t2;
    steps := [Push(2, 0)] + t1;
    if Enabled(s, last) {
      Done(Next(s, last));
      RunOn(s, last, []);
      RunOn(s3, Resend(0), t4);
      RunOn(s2, Reply(0, {0}, 0), t3);
      RunOn(s1, Send, t2);
      RunOn(s0, Push(2, 0), t1);
      NoReply(s0, s1, s3);
    }
  }

  lemma NoReply(s0: State, s1: State, s3: State)
    ensures Enabled(s0, Push(2, 0)) ==> Asserted(s0, Push(2, 0))
    ensures Enabled(s1, Send) ==> Asserted(s1, Send)
    ensures Enabled(s3, Resend(0)) ==> Asserted(s3, Resend(0))
  {
  }

  /** With larger sub-I/Os there is a run in which the assertion fails. */
  lemma OverReply(max: nat, depth: nat) returns (steps: seq<Step>)
    requires max >= 2 && depth > 0
    ensures IsRun(Init(max, depth), steps) && !AllAsserted(Init(max, depth), steps)
  {
    hide Enabled, Next, Asserted, AllAsserted, IsRun, Shape, Init, Uncompleted, After;
    var s;
    s, steps := RunSentAgain(max, depth, Reply(0, {0, 1}, 0));
    OneTooMany(s);
  }

  /**
    And a run in which every assertion holds and the I/O is called back although one of its
    two LBAs was never answered.
   */
  lemma HalfAnswered(max: nat, depth: nat) returns (steps: seq<Step>)
    requires max >= 2 && depth > 0
    ensures IsRun(Init(max, depth), steps) && AllAsserted(Init(max, depth), steps)
    ensures var s := After(Init(max, depth), steps);
            && s.callbacks == [0] && s.sizes == [2] && !FinishedAnswered(s)
            && (0, 1) !in s.answered && s.failed == {}
  {
    hide Enabled, Next, Asserted, AllAsserted, IsRun, Shape, Init, Uncompleted, After, FinishedAnswered;
    var s;
    s, steps := RunSentAgain(max, depth, Reply(0, {0}, 0));
    SameAgain(s, max);
  }

  /** The assertion on replied_lba_count holds in every run if and only if rge_io_max_lbas is one. */
  lemma AssertionIff(max: nat, depth: nat)
    requires max > 0 && depth > 0
    ensures max == 1 <==>
            forall steps: seq<Step> :: IsRun(Init(max, depth), steps) ==> AllAsserted(Init(max, depth), steps)
  {
    hide IsRun, AllAsserted, Init, After, FinishedAnswered;
    if max == 1 {
      forall steps: seq<Step> | IsRun(Init(max, depth), steps)
        ensures AllAsserted(Init(max, depth), steps)
      {
        OneLbaAnswered(max, depth, steps);
      }
    } else {
      var steps := OverReply(max, depth);
    }
  }

  /** In every run every finished sub-I/O has had all its LBAs answered if and only if rge_io_max_lbas is one. */
  lemma AnsweredIff(max: nat, depth: nat)
    requires max > 0 && depth > 0
    ensures max == 1 <==>
            forall steps: seq<Step> ::
              IsRun(Init(max, depth), steps) ==> FinishedAnswered(After(Init(max, depth), steps))
  {
    hide IsRun, AllAsserted, Init, After, FinishedAnswered;
    if max == 1 {
      forall steps: seq<Step> | IsRun(Init(max, depth), steps)
        ensures FinishedAnswered(After(Init(max, depth), steps))
      {
        OneLbaAnswered(max, depth, steps);
      }
    } else {
      var steps := HalfAnswered(max, depth);
    }
  }
}
