/**
  Which status an I/O is called back with (S5bd/src/s5session.c), read off the replies of a
  run. Every sub-I/O keeps the first error that one of its replies carried, and an I/O that
  was pushed without an error gets that of the sub-I/O which was answered last.
 */
module SessionErrors {
  import opened Machine
  import opened SessionPieces
  import opened SessionProtocol
  import opened SessionSafety
  import opened SessionStatus
  import opened SessionTheorems
  import opened SessionHeard

  /** A reply: the sub-I/O that it is for, and its status. */
  datatype Told = Told(piece: Piece, status: nat)

  function ToldBy(s: State, step: Step): seq<Told>
    requires Enabled(s, step)
  {
    if step.Reply? then [Told(s.slots[step.slot].value.piece, step.status)] else []
  }

  /** The replies of a run, in order. */
  ghost function Replies(s: State, steps: seq<Step>): seq<Told>
    requires IsRun(s, steps)
    decreases |steps|
  {
    if steps == [] then [] else ToldBy(s, steps[0]) + Replies(Next(s, steps[0]), steps[1..])
  }

  function PushedBy(step: Step): seq<nat> {
    if step.Push? then [step.status] else []
  }

  /** The statuses of the messages that a run pushes, in order. */
  function PushedWith(steps: seq<Step>): seq<nat> {
    if steps == [] then [] else PushedBy(steps[0]) + PushedWith(steps[1..])
  }

  /** No reply to `p` among the first `n` carried an error. */
  ghost predicate NoError(told: seq<Told>, p: Piece, n: nat)
    requires n <= |told|
  {
    forall j :: 0 <= j < n && told[j].piece == p ==> told[j].status == 0
  }

  /** The first error that a reply to `p` carried is `status`; zero stands for none. */
  ghost predicate FirstTold(told: seq<Told>, p: Piece, status: nat) {
    if status == 0 then NoError(told, p, |told|)
    else exists k :: 0 <= k < |told| && told[k] == Told(p, status) && NoError(told, p, k)
  }

  /** The last reply to I/O `i` was for sub-I/O `p`. */
  ghost predicate LastTold(told: seq<Told>, i: nat, p: Piece) {
    && p.io == i
    && exists k :: 0 <= k < |told| && told[k].piece == p && forall j :: k < j < |told| ==> told[j].piece.io != i
  }

  ghost predicate SlotsTold(slots: seq<Option<Sub>>, told: seq<Told>) {
    forall k :: 0 <= k < |slots| && slots[k].Some? ==> FirstTold(told, slots[k].value.piece, slots[k].value.status)
  }

  ghost predicate RetryTold(retry: seq<Sub>, told: seq<Told>) {
    forall k :: 0 <= k < |retry| ==> FirstTold(told, retry[k].piece, retry[k].status)
  }

  /** The status of I/O `i`, pushed with status `pushed`. */
  ghost predicate IoTold(told: seq<Told>, i: nat, pushed: nat, status: nat, callbacks: seq<nat>) {
    if i !in callbacks || pushed != 0 then status == pushed
    else exists p :: LastTold(told, i, p) && FirstTold(told, p, status)
  }

  ghost predicate IosTold(told: seq<Told>, pushed: seq<nat>, statuses: seq<nat>, callbacks: seq<nat>) {
    |statuses| == |pushed| && forall i :: 0 <= i < |pushed| ==> IoTold(told, i, pushed[i], statuses[i], callbacks)
  }

  ghost predicate OnlyGenerated(told: seq<Told>, generated: seq<Piece>) {
    forall k :: 0 <= k < |told| ==> told[k].piece in generated
  }

  ghost predicate AllTold(s: State, told: seq<Told>, pushed: seq<nat>) {
    && SlotsTold(s.slots, told) && RetryTold(s.retry, told)
    && IosTold(told, pushed, s.statuses, s.callbacks) && OnlyGenerated(told, s.generated)
  }

  // One more reply.

  lemma OtherTold(told: seq<Told>, e: Told, p: Piece, status: nat)
    requires FirstTold(told, p, status) && e.piece != p
    ensures FirstTold(told + [e], p, status)
  {
    if status != 0 {
      var k :| 0 <= k < |told| && told[k] == Told(p, status) && NoError(told, p, k);
      assert (told + [e])[k] == told[k] && NoError(told + [e], p, k);
    }
  }

  /** An error is kept, and the first one to come is taken. */
  lemma OwnTold(told: seq<Told>, e: Told, status: nat)
    requires FirstTold(told, e.piece, status)
    ensures FirstTold(told + [e], e.piece, if status != 0 then status else e.status)
  {
    var more := told + [e];
    if status != 0 {
      var k :| 0 <= k < |told| && told[k] == Told(e.piece, status) && NoError(told, e.piece, k);
      assert more[k] == told[k] && NoError(more, e.piece, k);
    } else if e.status != 0 {
      assert more[|told|] == e && NoError(more, e.piece, |told|);
    }
  }

  lemma OtherIoTold(told: seq<Told>, e: Told, i: nat, pushed: nat, status: nat, callbacks: seq<nat>)
    requires IoTold(told, i, pushed, status, callbacks) && (i in callbacks ==> e.piece.io != i)
    ensures IoTold(told + [e], i, pushed, status, callbacks)
  {
    if i in callbacks && pushed == 0 {
      var p :| LastTold(told, i, p) && FirstTold(told, p, status);
      OtherTold(told, e, p, status);
      var k :| 0 <= k < |told| && told[k].piece == p && forall j :: k < j < |told| ==> told[j].piece.io != i;
      assert (told + [e])[k] == told[k];
      assert LastTold(told + [e], i, p);
    }
  }

  lemma LastIsLast(told: seq<Told>, e: Told)
    ensures LastTold(told + [e], e.piece.io, e.piece)
  {
    assert (told + [e])[|told|] == e;
  }

  // What every step keeps.

  lemma SendTold(s: State, told: seq<Told>, pushed: seq<nat>)
    requires Sound(s) && AllTold(s, told, pushed) && Enabled(s, Send)
    ensures AllTold(Sent(s), told, pushed)
  {
    hide Sound, NextIn, Lbas, IoTold, LastTold;
    if s.retry == [] {
      NextIsNew(s);
      assert FirstTold(told, NextPiece(Ready(s)), 0);
    }
  }

  lemma {:induction false} RetriedTold(s: State, i: nat, told: seq<Told>, pushed: seq<nat>)
    requires AllTold(s, told, pushed)
    ensures AllTold(RetriedFrom(s, i), told, pushed)
    decreases |s.slots| - i
  {
    hide FirstTold, IosTold, OnlyGenerated;
    if i < |s.slots| {
      RetriedTold(if Occupied(s, i) then Delayed(s, i) else s, i + 1, told, pushed);
    }
  }

  /** A reply concerns no other sub-I/O. */
  lemma OthersTold(s: State, slot: nat, told: seq<Told>, e: Told)
    requires Sound(s) && SlotsTold(s.slots, told) && RetryTold(s.retry, told)
    requires Occupied(s, slot) && e.piece == s.slots[slot].value.piece
    ensures SlotsTold(s.slots[slot := None], told + [e]) && RetryTold(s.retry, told + [e])
  {
    hide Sound, FirstTold, Lbas;
    forall k | 0 <= k < |s.slots| && k != slot && s.slots[k].Some?
      ensures FirstTold(told + [e], s.slots[k].value.piece, s.slots[k].value.status)
    {
      SlotsDiffer(s, slot, k);
      OtherTold(told, e, s.slots[k].value.piece, s.slots[k].value.status);
    }
    forall k | 0 <= k < |s.retry|
      ensures FirstTold(told + [e], s.retry[k].piece, s.retry[k].status)
    {
      RetryDiffers(s, slot, k);
      OtherTold(told, e, s.retry[k].piece, s.retry[k].status);
    }
  }

  /** Nor any I/O that was called back before. */
  lemma IosBefore(s: State, slot: nat, told: seq<Told>, e: Told, pushed: seq<nat>)
    requires Sound(s) && IosTold(told, pushed, s.statuses, s.callbacks)
    requires Occupied(s, slot) && e.piece == s.slots[slot].value.piece
    ensures IosTold(told + [e], pushed, s.statuses, s.callbacks) && e.piece.io !in s.callbacks
  {
    hide Sound, IoTold;
    LiveIo(s, slot);
    forall i | 0 <= i < |pushed|
      ensures IoTold(told + [e], i, pushed[i], s.statuses[i], s.callbacks)
    {
      OtherIoTold(told, e, i, pushed[i], s.statuses[i], s.callbacks);
    }
  }

  /** The reply that finishes an I/O hands it the status of its sub-I/O. */
  lemma CountdownTold(t: State, told: seq<Told>, p: Piece, status: nat, pushed: seq<nat>)
    requires IosTold(told, pushed, t.statuses, t.callbacks) && p.io !in t.callbacks
    requires p.io < |t.left| == |t.statuses| && LastTold(told, p.io, p) && FirstTold(told, p, status)
    ensures var u := Countdown(t, p.io, status); IosTold(told, pushed, u.statuses, u.callbacks)
  {
    hide LastTold, FirstTold, Without;
    var u := Countdown(t, p.io, status);
    forall i | 0 <= i < |pushed|
      ensures IoTold(told, i, pushed[i], u.statuses[i], u.callbacks)
    {
      assert IoTold(told, i, pushed[i], t.statuses[i], t.callbacks);
    }
  }

  lemma ReplyTold(s: State, slot: nat, lbas: set<nat>, status: nat, told: seq<Told>, pushed: seq<nat>)
    requires Sound(s) && AllTold(s, told, pushed) && Enabled(s, Reply(slot, lbas, status))
    ensures AllTold(Replied(s, slot, lbas, status), told + ToldBy(s, Reply(slot, lbas, status)), pushed)
  {
    hide Sound, IosTold, FirstTold, LastTold, NoError, Without, OfIo, SlotPieces, RetryPieces;
    var was, e := s.slots[slot].value, Told(s.slots[slot].value.piece, status);
    OthersTold(s, slot, told, e);
    IosBefore(s, slot, told, e, pushed);
    OwnTold(told, e, was.status);
    LastIsLast(told, e);
    SlotIsLive(s.slots, slot);
    LiveGenerated(s, was.piece);
    var sub := AfterReply(was, |lbas|, status);
    var t := Heard(s, slot, lbas, status).(slots := s.slots[slot := Some(sub)], finished := s.finished + [sub.piece]);
    CountdownTold(t, told + [e], sub.piece, sub.status, pushed);
    var u := Replied(s, slot, lbas, status);
    assert forall k :: 0 <= k < |s.slots| && k != slot ==> s.slots[slot := None][k] == s.slots[k] == u.slots[k];
    assert SlotsTold(u.slots, told + [e]);
  }

  lemma PushTold(s: State, nlba: nat, status: nat, told: seq<Told>, pushed: seq<nat>)
    requires Sound(s) && AllTold(s, told, pushed)
    ensures s.max > 0 && AllTold(Pushed(s, nlba, status), told, pushed + [status])
  {
    hide Balanced, Slotted, Listed, Cursor, Count, SubCount, Uncompleted, SlotsTold, RetryTold, LastTold, FirstTold;
  }

  lemma StepTold(s: State, step: Step, told: seq<Told>, pushed: seq<nat>)
    requires Sound(s) && AllTold(s, told, pushed) && Enabled(s, step)
    ensures AllTold(Next(s, step), told + ToldBy(s, step), pushed + PushedBy(step))
  {
    hide Sound, AllTold, Sent, Replied, RetriedFrom;
    assert told + [] == told && pushed + [] == pushed;
    match step
    case Push(nlba, status) =>
      PushTold(s, nlba, status, told, pushed);
    case Send =>
      SendTold(s, told, pushed);
    case Resend(slot) =>
      SameTold(s, Next(s, step), told, pushed);
    case Reply(slot, lbas, status) =>
      ReplyTold(s, slot, lbas, status, told, pushed);
    case DelayRetry(slot) =>
      DelayedTold(s, slot, told, pushed);
    case Reconnect =>
      RetriedTold(s, 0, told, pushed);
  }

  lemma SameTold(s: State, t: State, told: seq<Told>, pushed: seq<nat>)
    requires AllTold(s, told, pushed) && t == s.(owed := t.owed)
    ensures AllTold(t, told, pushed)
  {
  }

  lemma DelayedTold(s: State, slot: nat, told: seq<Told>, pushed: seq<nat>)
    requires AllTold(s, told, pushed) && Occupied(s, slot)
    ensures AllTold(Delayed(s, slot), told, pushed)
  {
    hide FirstTold, IosTold, OnlyGenerated;
  }

  lemma {:induction false} RunTold(s: State, steps: seq<Step>, told: seq<Told>, pushed: seq<nat>)
    requires Sound(s) && AllTold(s, told, pushed) && IsRun(s, steps)
    ensures AllTold(After(s, steps), told + Replies(s, steps), pushed + PushedWith(steps))
    decreases |steps|
  {
    hide Sound, AllTold, Enabled, Next, ToldBy, PushedBy;
    if steps == [] {
      assert told + [] == told && pushed + [] == pushed;
    } else {
      var t, e, p := Next(s, steps[0]), ToldBy(s, steps[0]), PushedBy(steps[0]);
      StepTold(s, steps[0], told, pushed);
      StepSound(s, steps[0]);
      RunTold(t, steps[1..], told + e, pushed + p);
      assert told + e + Replies(t, steps[1..]) == told + Replies(s, steps);
      assert pushed + p + PushedWith(steps[1..]) == pushed + PushedWith(steps);
    }
  }

  // What a caller is told.

  /**
    Every run: an I/O pushed with an error is called back with that one. Any other is called
    back with the first error among the replies to the sub-I/O that was answered last, and
    with zero if there is none.
   */
  lemma CalledBackWith(max: nat, depth: nat, steps: seq<Step>, i: nat)
    requires max > 0 && IsRun(Init(max, depth), steps) && i in After(Init(max, depth), steps).callbacks
    ensures var s, told, pushed := After(Init(max, depth), steps), Replies(Init(max, depth), steps), PushedWith(steps);
            && i < |s.sizes| == |s.statuses| == |pushed|
            && if pushed[i] != 0 then s.statuses[i] == pushed[i]
               else exists p :: p in s.generated && LastTold(told, i, p) && FirstTold(told, p, s.statuses[i])
  {
    InitSound(max, depth);
    var s0, s, told, pushed := Init(max, depth), After(Init(max, depth), steps), Replies(Init(max, depth), steps),
      PushedWith(steps);
    assert AllTold(s0, [], []);
    hide Init, IsRun, After, Replies, PushedWith, Balanced, Slotted, Listed, Cursor, Count, SubCount;
    RunSound(s0, steps);
    RunTold(s0, steps, [], []);
    assert [] + told == told && [] + pushed == pushed;
    assert IoTold(told, i, pushed[i], s.statuses[i], s.callbacks);
    if pushed[i] == 0 {
      var p :| LastTold(told, i, p) && FirstTold(told, p, s.statuses[i]);
      assert p in s.generated;
    }
  }

  /** An error that an I/O is called back with was pushed with it or came in one of its replies. */
  lemma NeverMadeUp(max: nat, depth: nat, steps: seq<Step>, i: nat)
    requires max > 0 && IsRun(Init(max, depth), steps) && i in After(Init(max, depth), steps).callbacks
    ensures var s, told, pushed := After(Init(max, depth), steps), Replies(Init(max, depth), steps), PushedWith(steps);
            && i < |s.statuses| == |pushed|
            && (s.statuses[i] in {0, pushed[i]} ||
                exists k :: 0 <= k < |told| && told[k].piece.io == i && told[k].status == s.statuses[i])
  {
    hide Init, IsRun, After, Replies, PushedWith;
    CalledBackWith(max, depth, steps, i);
  }

  /** The first error among all replies to I/O `i` is `status`; zero stands for none. */
  ghost predicate FirstOfIo(told: seq<Told>, i: nat, status: nat) {
    if status == 0 then NoErrorOfIo(told, i, |told|)
    else exists k :: 0 <= k < |told| && told[k].piece.io == i && told[k].status == status && NoErrorOfIo(told, i, k)
  }

  ghost predicate NoErrorOfIo(told: seq<Told>, i: nat, n: nat)
    requires n <= |told|
  {
    forall j :: 0 <= j < n && told[j].piece.io == i ==> told[j].status == 0
  }

  /** An I/O that is one sub-I/O, pushed without an error, is called back with the first error of its replies. */
  lemma SmallIoTold(max: nat, depth: nat, steps: seq<Step>, i: nat)
    requires max > 0 && IsRun(Init(max, depth), steps) && i in After(Init(max, depth), steps).callbacks
    requires i < |PushedWith(steps)| && PushedWith(steps)[i] == 0
    requires i < |After(Init(max, depth), steps).sizes| && After(Init(max, depth), steps).sizes[i] <= max
    ensures var s := After(Init(max, depth), steps);
            i < |s.statuses| && FirstOfIo(Replies(Init(max, depth), steps), i, s.statuses[i])
  {
    InitSound(max, depth);
    var s0, s, told := Init(max, depth), After(Init(max, depth), steps), Replies(Init(max, depth), steps);
    assert AllTold(s0, [], []);
    InitMax(max, depth);
    hide Init, IsRun, After, Replies, PushedWith, Balanced, Slotted, Listed, Cursor, Count, SubCount;
    RunSound(s0, steps);
    RunKeepsMax(s0, steps);
    RunTold(s0, steps, [], []);
    assert [] + told == told;
    CalledBackWith(max, depth, steps, i);
    var p :| p in s.generated && LastTold(told, i, p) && FirstTold(told, p, s.statuses[i]);
    forall k | 0 <= k < |told| && told[k].piece.io == i
      ensures told[k].piece == p
    {
      OnlyPiece(s, told[k].piece, p);
    }
    FirstOfOnly(told, i, p, s.statuses[i]);
  }

  lemma OnlyPiece(s: State, p: Piece, q: Piece)
    requires Sound(s) && p in s.generated && q in s.generated && p.io == q.io
    requires p.io < |s.sizes| && s.sizes[p.io] <= s.max
    ensures p == q
  {
    hide Sound;
    GeneratedPiece(s, p);
    GeneratedPiece(s, q);
    assert Cut(p.io, s.sizes[p.io], s.sizes[p.io], s.max) == [];
  }

  lemma FirstOfOnly(told: seq<Told>, i: nat, p: Piece, status: nat)
    requires FirstTold(told, p, status) && p.io == i
    requires forall k :: 0 <= k < |told| && told[k].piece.io == i ==> told[k].piece == p
    ensures FirstOfIo(told, i, status)
  {
    if status != 0 {
      var k :| 0 <= k < |told| && told[k] == Told(p, status) && NoError(told, p, k);
      assert NoErrorOfIo(told, i, k);
    }
  }
}
