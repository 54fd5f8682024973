/**
  The sub-I/O engine of a session (S5bd/src/s5session.c) as a state machine: I/Os are
  pushed, cut into sub-I/Os, sent in fixed slots, answered in parts, sent again after a
  delay-retry reply, a time-out or a reconnect, and counted down to one completion. The
  queues (lfds611, fixed-size, linked list) are sequences.
 */
module SessionProtocol {
  import opened Machine
  import opened SessionPieces

  /** A sub-I/O under way, with replied_lba_count and rcved_status; zero is MSG_STATUS_OK. */
  datatype Sub = Sub(piece: Piece, replied: nat, status: nat)

  /**
    I/Os are named by the order in which they were pushed. `sizes`, `left` and `statuses`
    are their nlba, uncompleted_subio_count and message status; `waiting` is s5io_queue,
    `queue` is subio_queue, `slots` is submitted_queue, `free` is free_io_positions.

    History: `owed` holds the LBAs that the server has still to answer for the latest
    sending of each slot; replies to earlier sendings carry an old transaction id and are
    discarded. `generated` and `finished` are the sub-I/Os cut and completed so far,
    `answered` the LBAs that some accepted reply carried, each with its I/O, and `failed`
    the I/Os for which an accepted reply carried an error.
   */
  datatype State = State(max: nat, sizes: seq<nat>, left: seq<int>, statuses: seq<nat>, waiting: seq<nat>,
                         queue: seq<nat>, current: Option<nat>, nextLba: nat, slots: seq<Option<Sub>>,
                         free: seq<nat>, retry: seq<Sub>, callbacks: seq<nat>,
                         owed: seq<set<nat>>, generated: seq<Piece>, finished: seq<Piece>,
                         answered: set<(nat, nat)>, failed: set<nat>)

  datatype Step =
    | Push(nlba: nat, status: nat)
    | Send
    | Resend(slot: nat)
    | Reply(slot: nat, lbas: set<nat>, status: nat)
    | DelayRetry(slot: nat)
    | Reconnect

  /** The numbers `a` to `b`. */
  function UpFrom(a: nat, b: nat): seq<nat>
    decreases b - a
  {
    if a >= b then [] else [a] + UpFrom(a + 1, b)
  }

  function Repeat<T>(x: T, n: nat): (s: seq<T>)
    ensures |s| == n && forall i :: 0 <= i < n ==> s[i] == x
  {
    if n == 0 then [] else Repeat(x, n - 1) + [x]
  }

  function Init(max: nat, depth: nat): State {
    State(max, [], [], [], [], [], None, 0, Repeat(None, depth), UpFrom(0, depth), [], [],
          Repeat({}, depth), [], [], {}, {})
  }

  /** The entry after `c`, none when that is the head of the circular list again. */
  function NextIn(q: seq<nat>, c: nat): Option<nat> {
    if q == [] then None
    else if q[0] == c then (if |q| > 1 then Some(q[1]) else None)
    else NextIn(q[1..], c)
  }

  function Without(q: seq<nat>, c: nat): seq<nat> {
    if q == [] then [] else if q[0] == c then q[1..] else [q[0]] + Without(q[1..], c)
  }

  predicate Occupied(s: State, slot: nat) {
    slot < |s.slots| && s.slots[slot].Some?
  }

  predicate HasMore(s: State) {
    s.current.Some? || s.waiting != []
  }

  /** Everything that the code indexes is there. */
  predicate Shape(s: State) {
    && s.max > 0 && |s.owed| == |s.slots| && |s.left| == |s.statuses| == |s.sizes|
    && (s.free != [] ==> s.free[0] < |s.slots|)
    && (s.waiting != [] ==> s.waiting[0] < |s.sizes|)
    && (s.current.Some? ==> s.current.value < |s.sizes| && s.nextLba <= s.sizes[s.current.value])
    && (forall i :: 0 <= i < |s.slots| && s.slots[i].Some? ==> s.slots[i].value.piece.io < |s.sizes|)
  }

  predicate Enabled(s: State, step: Step) {
    && Shape(s)
    && match step
       case Push(_, _) => true
       case Send => s.free != [] && (s.retry != [] || HasMore(s))
       case Resend(slot) => Occupied(s, slot)
       case Reply(slot, lbas, _) => Occupied(s, slot) && lbas <= s.owed[slot]
       case DelayRetry(slot) => Occupied(s, slot)
       case Reconnect => true
  }

  function Pushed(s: State, nlba: nat, status: nat): State
    requires s.max > 0
  {
    s.(sizes := s.sizes + [nlba], left := s.left + [Uncompleted(nlba, s.max)], statuses := s.statuses + [status],
       waiting := s.waiting + [|s.sizes|])
  }

  /** take_io_from_s5io_queue, called when there is no current I/O. */
  function Taken(s: State): State
    requires s.current.None? && s.waiting != []
  {
    s.(queue := s.queue + s.waiting, waiting := [], current := Some(s.waiting[0]), nextLba := 0)
  }

  /** The next sub-I/O of the current I/O. */
  function NextPiece(s: State): Piece
    requires s.current.Some? && s.current.value < |s.sizes| && s.nextLba <= s.sizes[s.current.value]
  {
    Piece(s.current.value, s.nextLba, Min(s.max, s.sizes[s.current.value] - s.nextLba))
  }

  function Generated(s: State): State
    requires s.current.Some? && s.current.value < |s.sizes| && s.nextLba <= s.sizes[s.current.value]
  {
    var p := NextPiece(s);
    var t := s.(generated := s.generated + [p]);
    if s.nextLba + p.nlba >= s.sizes[p.io] then t.(current := NextIn(s.queue, p.io), nextLba := 0)
    else t.(nextLba := s.nextLba + p.nlba)
  }

  function InSlot(s: State, sub: Sub): State
    requires s.free != [] && s.free[0] < |s.slots| && |s.owed| == |s.slots|
  {
    s.(slots := s.slots[s.free[0] := Some(sub)], owed := s.owed[s.free[0] := Lbas(sub.piece)], free := s.free[1..])
  }

  function Ready(s: State): State
    requires HasMore(s)
  {
    if s.current.Some? then s else Taken(s)
  }

  function Sent(s: State): State
    requires Enabled(s, Send)
  {
    if s.retry != [] then InSlot(s.(retry := s.retry[1..]), s.retry[0])
    else InSlot(Generated(Ready(s)), Sub(NextPiece(Ready(s)), 0, 0))
  }

  function Freed(s: State, slot: nat): State
    requires slot < |s.slots|
  {
    s.(slots := s.slots[slot := None], free := s.free + [slot])
  }

  function FirstError(a: nat, b: nat): nat { if a == 0 then b else a }

  /**
    The countdown of an I/O, and its move to the callback queue when it ends, with the status
    of the sub-I/O that ended it unless its message has an error already.
   */
  function Countdown(s: State, io: nat, status: nat): State
    requires io < |s.left| && |s.statuses| == |s.left|
  {
    var t := s.(left := s.left[io := s.left[io] - 1]);
    if t.left[io] <= 0
    then t.(queue := Without(s.queue, io), callbacks := s.callbacks + [io],
            statuses := s.statuses[io := FirstError(s.statuses[io], status)])
    else t
  }

  /** What a reply adds to the history. */
  function Heard(s: State, slot: nat, lbas: set<nat>, status: nat): State
    requires Enabled(s, Reply(slot, lbas, status))
  {
    var io := s.slots[slot].value.piece.io;
    s.(owed := s.owed[slot := s.owed[slot] - lbas], answered := s.answered + OfIo(io, lbas),
       failed := if status != 0 then s.failed + {io} else s.failed)
  }

  function AfterReply(sub: Sub, n: nat, status: nat): Sub {
    sub.(replied := sub.replied + n, status := FirstError(sub.status, status))
  }

  function Replied(s: State, slot: nat, lbas: set<nat>, status: nat): State
    requires Enabled(s, Reply(slot, lbas, status))
  {
    var sub := AfterReply(s.slots[slot].value, |lbas|, status);
    var t := Heard(s, slot, lbas, status).(slots := s.slots[slot := Some(sub)]);
    if sub.replied == sub.piece.nlba
    then Freed(Countdown(t.(finished := s.finished + [sub.piece]), sub.piece.io, sub.status), slot)
    else t
  }

  function Delayed(s: State, slot: nat): State
    requires Occupied(s, slot)
  {
    Freed(s.(retry := s.retry + [s.slots[slot].value]), slot)
  }

  /** retry_submitted_subios from slot `i` on. */
  function RetriedFrom(s: State, i: nat): State
    decreases |s.slots| - i
  {
    if i >= |s.slots| then s else RetriedFrom(if Occupied(s, i) then Delayed(s, i) else s, i + 1)
  }

  function Next(s: State, step: Step): State
    requires Enabled(s, step)
  {
    match step
    case Push(nlba, status) => Pushed(s, nlba, status)
    case Send => Sent(s)
    case Resend(slot) => s.(owed := s.owed[slot := Lbas(s.slots[slot].value.piece)])
    case Reply(slot, lbas, status) => Replied(s, slot, lbas, status)
    case DelayRetry(slot) => Delayed(s, slot)
    case Reconnect => RetriedFrom(s, 0)
  }

  // What every step keeps.

  function RetryPieces(r: seq<Sub>): seq<Piece> {
    if r == [] then [] else [r[0].piece] + RetryPieces(r[1..])
  }

  function OneSlot(slot: Option<Sub>): seq<Piece> {
    if slot.Some? then [slot.value.piece] else []
  }

  function SlotPieces(slots: seq<Option<Sub>>): seq<Piece> {
    if slots == [] then [] else OneSlot(slots[0]) + SlotPieces(slots[1..])
  }

  /** The sub-I/Os under way. */
  function Live(s: State): seq<Piece> {
    RetryPieces(s.retry) + SlotPieces(s.slots)
  }

  /** A position is free exactly when its slot holds nothing, and is listed once. */
  ghost predicate Slotted(slots: seq<Option<Sub>>, free: seq<nat>, owed: seq<set<nat>>) {
    && |owed| == |slots| && Distinct(free)
    && forall i: nat :: i in free <==> i < |slots| && slots[i].None?
  }

  /** Nothing is lost or doubled: what was generated is under way or finished. */
  ghost predicate Balanced(retry: seq<Sub>, slots: seq<Option<Sub>>, finished: seq<Piece>, generated: seq<Piece>) {
    multiset(RetryPieces(retry)) + multiset(SlotPieces(slots)) + multiset(finished) == multiset(generated)
  }

  /** The I/Os below `t` that have not completed, in order. */
  function Pending(t: nat, callbacks: seq<nat>): seq<nat> {
    if t == 0 then [] else Pending(t - 1, callbacks) + if t - 1 in callbacks then [] else [t - 1]
  }

  /** The two lists hold the I/Os in the order of their arrival, the first without the completed ones. */
  ghost predicate Listed(n: nat, waiting: seq<nat>, queue: seq<nat>, callbacks: seq<nat>) {
    && |waiting| <= n && waiting == UpFrom(n - |waiting|, n)
    && queue == Pending(n - |waiting|, callbacks) && Distinct(callbacks)
  }

  /** What is still to be cut from the current I/O. */
  function Rest(sizes: seq<nat>, max: nat, c: nat, nextLba: nat): seq<Piece>
    requires max > 0 && c < |sizes|
  {
    if sizes[c] == 0 then [Piece(c, 0, 0)] else Cut(c, sizes[c], nextLba, max)
  }

  /** The cursor separates what was generated from what was not, I/O by I/O. */
  ghost predicate Cursor(max: nat, sizes: seq<nat>, taken: nat, current: Option<nat>, nextLba: nat,
                         generated: seq<Piece>)
  {
    && max > 0 && taken <= |sizes|
    && match current
       case None => generated == AllPieces(sizes, taken, max)
       case Some(c) =>
         && c < taken && (nextLba < sizes[c] || sizes[c] == nextLba == 0)
         && generated + Rest(sizes, max, c, nextLba) == AllPieces(sizes, c + 1, max)
  }

  /** Counters count, and an I/O is in the callback queue exactly when all its sub-I/Os are finished. */
  ghost predicate Counted(max: nat, sizes: seq<nat>, left: seq<int>, callbacks: seq<nat>, finished: seq<Piece>) {
    && max > 0 && |left| == |sizes|
    && (forall i :: 0 <= i < |sizes| ==> left[i] == Uncompleted(sizes[i], max) - Count(finished, i))
    && (forall i: nat :: i in callbacks <==> i < |sizes| && Count(finished, i) == SubCount(sizes[i], max))
  }

  ghost predicate Sound(s: State) {
    && Slotted(s.slots, s.free, s.owed)
    && Balanced(s.retry, s.slots, s.finished, s.generated)
    && Listed(|s.sizes|, s.waiting, s.queue, s.callbacks)
    && |s.waiting| <= |s.sizes| && Cursor(s.max, s.sizes, |s.sizes| - |s.waiting|, s.current, s.nextLba, s.generated)
    && Counted(s.max, s.sizes, s.left, s.callbacks, s.finished) && |s.statuses| == |s.sizes|
  }

  // Lists.

  lemma {:induction false} UpFromAt(a: nat, b: nat)
    ensures |UpFrom(a, b)| == if a < b then b - a else 0
    ensures forall i :: 0 <= i < |UpFrom(a, b)| ==> UpFrom(a, b)[i] == a + i
    decreases b - a
  {
    if a < b {
      UpFromAt(a + 1, b);
    }
  }

  lemma UpFromOneMore(a: nat, b: nat)
    requires a <= b
    ensures UpFrom(a, b) + [b] == UpFrom(a, b + 1)
  {
    hide UpFrom;
    UpFromAt(a, b);
    UpFromAt(a, b + 1);
  }

  lemma {:induction false} PendingBelow(t: nat, callbacks: seq<nat>)
    ensures forall i :: i in Pending(t, callbacks) <==> 0 <= i < t && i !in callbacks
  {
    if t > 0 {
      PendingBelow(t - 1, callbacks);
    }
  }

  /** I/Os that have not completed stand in the list one after the other. */
  lemma {:induction false} PendingSplit(c: nat, t: nat, callbacks: seq<nat>)
    requires c <= t && forall i :: c <= i < t ==> i !in callbacks
    ensures Pending(t, callbacks) == Pending(c, callbacks) + UpFrom(c, t)
    decreases t
  {
    if c < t {
      PendingSplit(c, t - 1, callbacks);
      UpFromOneMore(c, t - 1);
      assert Pending(t, callbacks) == Pending(c, callbacks) + (UpFrom(c, t - 1) + [t - 1]);
    }
  }

  lemma {:induction false} NextInTail(a: seq<nat>, b: seq<nat>, c: nat)
    requires c !in a
    ensures NextIn(a + b, c) == NextIn(b, c)
  {
    if a == [] {
      assert a + b == b;
    } else {
      assert (a + b)[1..] == a[1..] + b;
      NextInTail(a[1..], b, c);
    }
  }

  lemma NextPending(c: nat, t: nat, callbacks: seq<nat>)
    requires c < t && forall i :: c <= i < t ==> i !in callbacks
    ensures NextIn(Pending(t, callbacks), c) == if c + 1 < t then Some(c + 1) else None
  {
    PendingSplit(c, t, callbacks);
    PendingBelow(c, callbacks);
    NextInTail(Pending(c, callbacks), UpFrom(c, t), c);
    UpFromAt(c, t);
  }

  lemma {:induction false} WithoutTail(a: seq<nat>, b: seq<nat>, c: nat)
    ensures Without(a + b, c) == if c in a then Without(a, c) + b else a + Without(b, c)
  {
    if a == [] {
      assert a + b == b;
    } else {
      var q := a + b;
      assert q[1..] == a[1..] + b && q[0] == a[0];
      WithoutTail(a[1..], b, c);
      if a[0] != c {
        assert c in a <==> c in a[1..];
        assert Without(q, c) == [a[0]] + Without(q[1..], c);
      }
    }
  }

  lemma {:induction false} SamePending(t: nat, callbacks: seq<nat>, i: nat)
    requires t <= i
    ensures Pending(t, callbacks + [i]) == Pending(t, callbacks)
  {
    if t > 0 {
      SamePending(t - 1, callbacks, i);
    }
  }

  /** Completing an I/O takes it out of the middle of the list. */
  lemma {:induction false} WithoutPending(t: nat, callbacks: seq<nat>, i: nat)
    requires i < t && i !in callbacks
    ensures Without(Pending(t, callbacks), i) == Pending(t, callbacks + [i])
  {
    hide Without, Pending;
    PendingStep(t, callbacks);
    PendingStep(t, callbacks + [i]);
    PendingBelow(t - 1, callbacks);
    var before, last := Pending(t - 1, callbacks), PendingLast(t, callbacks);
    WithoutTail(before, last, i);
    if i == t - 1 {
      SamePending(t - 1, callbacks, i);
      WithoutOnly(i);
    } else {
      WithoutPending(t - 1, callbacks, i);
    }
  }

  function PendingLast(t: nat, callbacks: seq<nat>): seq<nat>
    requires t > 0
  {
    if t - 1 in callbacks then [] else [t - 1]
  }

  lemma PendingStep(t: nat, callbacks: seq<nat>)
    requires t > 0
    ensures Pending(t, callbacks) == Pending(t - 1, callbacks) + PendingLast(t, callbacks)
  {
  }

  lemma WithoutOnly(i: nat)
    ensures Without([i], i) == []
  {
  }

  // Slots.

  lemma {:induction false} SlotConcat(a: seq<Option<Sub>>, b: seq<Option<Sub>>)
    ensures SlotPieces(a + b) == SlotPieces(a) + SlotPieces(b)
  {
    if a == [] {
      assert a + b == b;
    } else {
      hide OneSlot;
      var s := a + b;
      assert s[0] == a[0] && s[1..] == a[1..] + b;
      SlotConcat(a[1..], b);
      assert SlotPieces(s) == OneSlot(a[0]) + SlotPieces(s[1..]);
    }
  }

  lemma SlotSplit(slots: seq<Option<Sub>>, i: nat)
    requires i < |slots|
    ensures SlotPieces(slots) == SlotPieces(slots[..i]) + OneSlot(slots[i]) + SlotPieces(slots[i + 1..])
  {
    var a, b := slots[..i], slots[i..];
    assert slots == a + b && b[0] == slots[i] && b[1..] == slots[i + 1..];
    SlotConcat(a, b);
    assert SlotPieces(b) == OneSlot(b[0]) + SlotPieces(b[1..]);
    hide SlotPieces, OneSlot;
  }

  lemma PutSlot(slots: seq<Option<Sub>>, i: nat, sub: Sub)
    requires i < |slots| && slots[i].None?
    ensures multiset(SlotPieces(slots[i := Some(sub)])) == multiset(SlotPieces(slots)) + multiset{sub.piece}
  {
    var s' := slots[i := Some(sub)];
    SlotSplit(slots, i);
    SlotSplit(s', i);
    hide SlotPieces;
    assert s'[..i] == slots[..i] && s'[i + 1..] == slots[i + 1..];
  }

  lemma TakeSlot(slots: seq<Option<Sub>>, i: nat)
    requires i < |slots| && slots[i].Some?
    ensures multiset(SlotPieces(slots)) == multiset(SlotPieces(slots[i := None])) + multiset{slots[i].value.piece}
  {
    hide SlotPieces;
    var s' := slots[i := None];
    PutSlot(s', i, slots[i].value);
    assert s'[i := slots[i]] == slots;
  }

  lemma SamePiece(slots: seq<Option<Sub>>, i: nat, sub: Sub)
    requires i < |slots| && slots[i].Some? && slots[i].value.piece == sub.piece
    ensures multiset(SlotPieces(slots[i := Some(sub)])) == multiset(SlotPieces(slots))
  {
    hide SlotPieces;
    TakeSlot(slots, i);
    PutSlot(slots[i := None], i, sub);
    assert slots[i := None][i := Some(sub)] == slots[i := Some(sub)];
  }

  lemma {:induction false} NoSlots(depth: nat)
    ensures SlotPieces(Repeat(None, depth)) == []
    decreases depth
  {
    if depth > 0 {
      NoSlots(depth - 1);
      assert Repeat<Option<Sub>>(None, depth)[1..] == Repeat(None, depth - 1);
    }
  }

  lemma RetryOneMore(r: seq<Sub>, sub: Sub)
    ensures multiset(RetryPieces(r + [sub])) == multiset(RetryPieces(r)) + multiset{sub.piece}
    decreases |r|
  {
    if r == [] {
      assert r + [sub] == [sub];
      assert [sub][1..] == [];
    } else {
      assert (r + [sub])[1..] == r[1..] + [sub];
      RetryOneMore(r[1..], sub);
    }
  }

  lemma TakeFree(slots: seq<Option<Sub>>, free: seq<nat>, owed: seq<set<nat>>, sub: Sub, n: set<nat>)
    requires Slotted(slots, free, owed) && free != []
    ensures free[0] < |slots| && slots[free[0]].None?
    ensures Slotted(slots[free[0] := Some(sub)], free[1..], owed[free[0] := n])
  {
    assert free[0] in free;
    var slots', free' := slots[free[0] := Some(sub)], free[1..];
    forall i: nat
      ensures i in free' <==> i < |slots'| && slots'[i].None?
    {
      assert i in free <==> i == free[0] || i in free';
      assert free[0] !in free';
    }
  }

  lemma GiveBack(slots: seq<Option<Sub>>, free: seq<nat>, owed: seq<set<nat>>, i: nat)
    requires Slotted(slots, free, owed) && i < |slots| && slots[i].Some?
    ensures Slotted(slots[i := None], free + [i], owed)
  {
    assert i !in free;
    var slots', free' := slots[i := None], free + [i];
    forall k: nat
      ensures k in free' <==> k < |slots'| && slots'[k].None?
    {
    }
  }

  // Counting.

  /** Every sub-I/O under way or finished was generated, and none too many of any I/O. */
  lemma CountBound(s: State, i: nat)
    requires Sound(s)
    ensures Count(Live(s), i) + Count(s.finished, i) == Count(s.generated, i)
    ensures Count(s.generated, i) <= if i < |s.sizes| - |s.waiting| then SubCount(s.sizes[i], s.max) else 0
    ensures s.current.Some? && i > s.current.value ==> Count(s.generated, i) == 0
    ensures s.current.Some? && i == s.current.value ==> Count(s.generated, i) < SubCount(s.sizes[i], s.max)
  {
    hide RetryPieces, SlotPieces, Count, SubCount, Counted, Listed, Slotted, Cursor;
    CountPermuted(Live(s) + s.finished, s.generated, i);
    CountConcat(Live(s), s.finished, i);
    CursorBound(s.max, s.sizes, |s.sizes| - |s.waiting|, s.current, s.nextLba, s.generated, i);
  }

  lemma CursorBound(max: nat, sizes: seq<nat>, taken: nat, current: Option<nat>, nextLba: nat, generated: seq<Piece>,
                    i: nat)
    requires Cursor(max, sizes, taken, current, nextLba, generated)
    ensures Count(generated, i) <= if i < taken then SubCount(sizes[i], max) else 0
    ensures current.Some? && i > current.value ==> Count(generated, i) == 0
    ensures current.Some? && i == current.value ==> Count(generated, i) < SubCount(sizes[i], max)
  {
    hide Count, SubCount, AllPieces;
    match current
    case None =>
      CountAll(sizes, taken, max, i);
    case Some(c) =>
      RestOf(sizes, max, c, nextLba);
      CountAll(sizes, c + 1, max, i);
      var rest := Rest(sizes, max, c, nextLba);
      hide Rest;
      CountConcat(generated, rest, i);
      CountUniform(rest, c, i);
  }

  lemma RestOf(sizes: seq<nat>, max: nat, c: nat, nextLba: nat)
    requires max > 0 && c < |sizes| && (nextLba < sizes[c] || sizes[c] == nextLba == 0)
    ensures var rest := Rest(sizes, max, c, nextLba);
            rest != [] && forall p :: p in rest ==> p.io == c && p.nlba <= max
  {
    CutUniform(c, sizes[c], nextLba, max);
  }

  /** An I/O with a sub-I/O under way or still to be cut has not completed. */
  lemma NotCompleted(s: State, i: nat)
    requires Sound(s) && i < |s.sizes|
    requires Count(Live(s), i) > 0 || (s.current.Some? && s.current.value <= i) || i >= |s.sizes| - |s.waiting|
    ensures i !in s.callbacks && Count(s.finished, i) < SubCount(s.sizes[i], s.max)
  {
    hide RetryPieces, SlotPieces, Uncompleted, Balanced, Listed, Slotted, Cursor;
    CountBound(s, i);
    PiecesCount(i, s.sizes[i], s.max);
  }

  lemma {:induction false} CountMember(ps: seq<Piece>, p: Piece)
    requires p in ps
    ensures Count(ps, p.io) > 0
  {
    if ps[0] != p {
      CountMember(ps[1..], p);
    }
  }

  lemma {:induction false} SlotIsLive(slots: seq<Option<Sub>>, i: nat)
    requires i < |slots| && slots[i].Some?
    ensures slots[i].value.piece in SlotPieces(slots)
    decreases |slots|
  {
    if i > 0 {
      SlotIsLive(slots[1..], i - 1);
    }
  }

  /** The I/O of a sub-I/O in a slot is in the list and not completed. */
  lemma LiveIo(s: State, slot: nat)
    requires Sound(s) && Occupied(s, slot)
    ensures var io := s.slots[slot].value.piece.io;
            && io < |s.sizes| - |s.waiting| && io !in s.callbacks
            && Count(s.finished, io) < SubCount(s.sizes[io], s.max)
  {
    hide RetryPieces, SlotPieces, Uncompleted, SubCount, Listed, Slotted, Cursor, Counted, Balanced;
    var p := s.slots[slot].value.piece;
    SlotIsLive(s.slots, slot);
    CountMember(Live(s), p);
    CountBound(s, p.io);
    NotCompleted(s, p.io);
  }

  lemma SoundShape(s: State)
    requires Sound(s)
    ensures Shape(s)
  {
    hide RetryPieces, SlotPieces, Uncompleted, Balanced, Pending, AllPieces, Rest;
    if s.free != [] {
      assert s.free[0] in s.free;
    }
    if s.waiting != [] {
      UpFromAt(|s.sizes| - |s.waiting|, |s.sizes|);
    }
    forall i | 0 <= i < |s.slots| && s.slots[i].Some?
      ensures s.slots[i].value.piece.io < |s.sizes|
    {
      LiveIo(s, i);
    }
  }
}
