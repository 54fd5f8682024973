/**
  What a session has been told about one I/O (S5bd/src/s5session.c). As long as no sub-I/O of
  it is sent again that was answered in part, the LBAs that the server still owes are exactly
  those that were not answered, sub-I/O by sub-I/O.
 */
module SessionHeard {
  import opened Machine
  import opened SessionPieces
  import opened SessionProtocol
  import opened SessionSafety
  import opened SessionAnswers
  import opened SessionStatus
  import opened SessionTheorems

  // Different sub-I/Os have different LBAs.

  lemma {:induction false} CutInside(io: nat, n: nat, from: nat, max: nat, p: Piece)
    requires max > 0 && p in Cut(io, n, from, max)
    ensures from <= p.slba && 0 < p.nlba <= max && p.slba + p.nlba <= n
    decreases n - from
  {
    var k := Min(max, n - from);
    var first, rest := Piece(io, from, k), Cut(io, n, from + k, max);
    assert Cut(io, n, from, max) == [first] + rest;
    if p != first {
      CutInside(io, n, from + k, max, p);
    }
  }

  lemma {:induction false} CutApart(io: nat, n: nat, from: nat, max: nat, p: Piece, q: Piece)
    requires max > 0 && p in Cut(io, n, from, max) && q in Cut(io, n, from, max) && p.slba <= q.slba && p != q
    ensures p.slba + p.nlba <= q.slba
    decreases n - from
  {
    var k := Min(max, n - from);
    var first, rest := Piece(io, from, k), Cut(io, n, from + k, max);
    assert Cut(io, n, from, max) == [first] + rest;
    if p == first {
      CutInside(io, n, from + k, max, q);
    } else {
      CutInside(io, n, from + k, max, p);
      CutApart(io, n, from + k, max, p, q);
    }
  }

  /** A piece of an I/O is small and inside it, and shares no LBA with another. */
  lemma PiecesApart(io: nat, n: nat, max: nat, p: Piece, q: Piece)
    requires max > 0 && p in Pieces(io, n, max) && q in Pieces(io, n, max)
    ensures p.nlba <= max && p.slba + p.nlba <= n && (p != q ==> Lbas(p) !! Lbas(q))
  {
    RangeHas(p.slba, p.nlba);
    RangeHas(q.slba, q.nlba);
    hide Range;
    if n > 0 {
      CutInside(io, n, 0, max, p);
      if p != q && p.slba <= q.slba {
        CutApart(io, n, 0, max, p, q);
      } else if p != q {
        CutApart(io, n, 0, max, q, p);
      }
    }
  }

  lemma {:induction false} AmongAll(sizes: seq<nat>, m: nat, max: nat, p: Piece)
    requires max > 0 && m <= |sizes| && p in AllPieces(sizes, m, max)
    ensures p.io < m && p in Pieces(p.io, sizes[p.io], max)
  {
    hide Pieces;
    if p in Pieces(m - 1, sizes[m - 1], max) {
      OneIoDistinct(m - 1, sizes[m - 1], max, p);
    } else {
      AmongAll(sizes, m - 1, max, p);
    }
  }

  lemma GeneratedPiece(s: State, p: Piece)
    requires Sound(s) && p in s.generated
    ensures s.max > 0 && p.io < |s.sizes| && p in Pieces(p.io, s.sizes[p.io], s.max)
  {
    hide Sound, Pieces, AllPieces;
    GeneratedInOrder(s);
    AmongAll(s.sizes, |s.sizes|, s.max, p);
  }

  lemma GeneratedApart(s: State, p: Piece, q: Piece)
    requires Sound(s) && p in s.generated && q in s.generated && p.io == q.io && p != q
    ensures Lbas(p) !! Lbas(q)
  {
    hide Sound, Pieces, Lbas;
    GeneratedPiece(s, p);
    GeneratedPiece(s, q);
    PiecesApart(p.io, s.sizes[p.io], s.max, p, q);
  }

  lemma LiveGenerated(s: State, p: Piece)
    requires Sound(s) && (p in SlotPieces(s.slots) || p in RetryPieces(s.retry))
    ensures p in s.generated
  {
    hide Slotted, Listed, Cursor, Counted, SlotPieces, RetryPieces;
    assert p in multiset(s.generated);
  }

  /** Two slots hold different sub-I/Os. */
  lemma SlotsDiffer(s: State, k: nat, j: nat)
    requires Sound(s) && Occupied(s, k) && Occupied(s, j) && k != j
    ensures var p, q := s.slots[k].value.piece, s.slots[j].value.piece;
            p != q && (p.io == q.io ==> Lbas(p) !! Lbas(q))
  {
    hide Sound, SlotPieces, RetryPieces, Lbas;
    var p, q := s.slots[k].value.piece, s.slots[j].value.piece;
    SlotIsLive(s.slots, k);
    SlotIsLive(s.slots, j);
    LiveGenerated(s, p);
    LiveGenerated(s, q);
    if p == q {
      InOnePlace(s, p);
      TakeSlot(s.slots, k);
      SlotIsLive(s.slots[k := None], j);
    } else if p.io == q.io {
      GeneratedApart(s, p, q);
    }
  }

  lemma RetryDiffers(s: State, k: nat, j: nat)
    requires Sound(s) && Occupied(s, k) && j < |s.retry|
    ensures var p, q := s.slots[k].value.piece, s.retry[j].piece;
            p != q && (p.io == q.io ==> Lbas(p) !! Lbas(q))
  {
    hide Sound, SlotPieces, RetryPieces, Lbas;
    var p, q := s.slots[k].value.piece, s.retry[j].piece;
    SlotIsLive(s.slots, k);
    RetryIsLive(s.retry, j);
    LiveGenerated(s, p);
    LiveGenerated(s, q);
    if p == q {
      InOnePlace(s, p);
    } else if p.io == q.io {
      GeneratedApart(s, p, q);
    }
  }

  // A completed I/O has all its pieces finished.

  lemma {:induction false} CutCovers(io: nat, n: nat, from: nat, max: nat, l: nat) returns (p: Piece)
    requires max > 0 && from <= l < n
    ensures p in Cut(io, n, from, max) && p.io == io && l in Lbas(p)
    decreases n - from
  {
    var k := Min(max, n - from);
    if l < from + k {
      p := Piece(io, from, k);
      RangeHas(from, k);
    } else {
      p := CutCovers(io, n, from + k, max, l);
    }
  }

  lemma {:induction false} PiecesOf(sizes: seq<nat>, m: nat, max: nat, i: nat, p: Piece)
    requires max > 0 && i < m <= |sizes| && p in Pieces(i, sizes[i], max)
    ensures p in AllPieces(sizes, m, max)
    decreases m
  {
    hide Pieces;
    if i < m - 1 {
      PiecesOf(sizes, m - 1, max, i, p);
    }
  }

  /** Every piece of a completed I/O was cut. */
  lemma CompletedGenerated(s: State, i: nat, p: Piece)
    requires Sound(s) && i in s.callbacks
    ensures i < |s.sizes| && s.max > 0 && (p in Pieces(i, s.sizes[i], s.max) ==> p in s.generated)
  {
    hide Balanced, Slotted, Listed, AllPieces, Pieces, Count, Rest, Live, SubCount;
    if p in Pieces(i, s.sizes[i], s.max) {
      if i >= |s.sizes| - |s.waiting| || (s.current.Some? && s.current.value <= i) {
        NotCompleted(s, i);
      } else {
        match s.current
        case None => PiecesOf(s.sizes, |s.sizes| - |s.waiting|, s.max, i, p);
        case Some(c) => BeforeCursor(s, c, i, p);
      }
    }
  }

  lemma BeforeCursor(s: State, c: nat, i: nat, p: Piece)
    requires Sound(s) && s.current == Some(c) && i < c < |s.sizes| && p in Pieces(i, s.sizes[i], s.max)
    ensures p in s.generated
  {
    hide Balanced, Slotted, Listed, AllPieces, Pieces, Counted, Rest;
    PiecesOf(s.sizes, c + 1, s.max, i, p);
    var rest := Rest(s.sizes, s.max, c, s.nextLba);
    RestOf(s.sizes, s.max, c, s.nextLba);
    PieceIo(i, s.sizes[i], s.max, p);
    assert p in s.generated + rest;
  }

  lemma PieceIo(io: nat, n: nat, max: nat, p: Piece)
    requires max > 0 && p in Pieces(io, n, max)
    ensures p.io == io
  {
    CutUniform(io, n, 0, max);
  }

  /** And finished. */
  lemma CompletedFinished(s: State, i: nat, p: Piece)
    requires Sound(s) && i in s.callbacks && i < |s.sizes| && s.max > 0 && p in Pieces(i, s.sizes[i], s.max)
    ensures p in s.finished
  {
    hide Slotted, Listed, Cursor, Counted, AllPieces, Pieces, Count, SubCount, RetryPieces, SlotPieces;
    CompletedGenerated(s, i, p);
    PieceIo(i, s.sizes[i], s.max, p);
    assert p in multiset(s.generated);
    if p !in s.finished {
      assert p !in multiset(s.finished);
      assert p in multiset(Live(s));
      assert p in Live(s);
      CountMember(Live(s), p);
      NotCompleted(s, i);
    }
  }

  // One I/O.

  /** A sub-I/O in a slot: the server owes what was not answered, and the rest was counted. */
  ghost predicate SubHeard(p: Piece, replied: nat, owed: set<nat>, answered: set<(nat, nat)>) {
    && owed <= Lbas(p) && replied + |owed| == p.nlba && (replied < p.nlba || p.nlba == 0)
    && forall l :: l in Lbas(p) ==> (l in owed <==> (p.io, l) !in answered)
  }

  ghost predicate Unheard(p: Piece, answered: set<(nat, nat)>) {
    forall l :: l in Lbas(p) ==> (p.io, l) !in answered
  }

  ghost predicate AllHeard(p: Piece, answered: set<(nat, nat)>) {
    forall l :: l in Lbas(p) ==> (p.io, l) in answered
  }

  ghost predicate SlotsHeard(i: nat, slots: seq<Option<Sub>>, owed: seq<set<nat>>, answered: set<(nat, nat)>) {
    && |owed| == |slots|
    && forall k :: 0 <= k < |slots| && slots[k].Some? && slots[k].value.piece.io == i ==>
         SubHeard(slots[k].value.piece, slots[k].value.replied, owed[k], answered)
  }

  ghost predicate RetryHeard(i: nat, retry: seq<Sub>, answered: set<(nat, nat)>) {
    forall k :: 0 <= k < |retry| && retry[k].piece.io == i ==>
      retry[k].replied == 0 && Unheard(retry[k].piece, answered)
  }

  ghost predicate FinishedHeard(i: nat, finished: seq<Piece>, answered: set<(nat, nat)>) {
    forall p :: p in finished && p.io == i ==> AllHeard(p, answered)
  }

  /** Some sub-I/O that was cut has this LBA. */
  ghost predicate Touched(generated: seq<Piece>, i: nat, l: nat) {
    exists p :: p in generated && p.io == i && l in Lbas(p)
  }

  ghost predicate OnlyTouched(i: nat, generated: seq<Piece>, answered: set<(nat, nat)>) {
    forall l: nat :: (i, l) in answered ==> Touched(generated, i, l)
  }

  ghost predicate IoHeard(s: State, i: nat) {
    && SlotsHeard(i, s.slots, s.owed, s.answered) && RetryHeard(i, s.retry, s.answered)
    && FinishedHeard(i, s.finished, s.answered) && OnlyTouched(i, s.generated, s.answered)
  }

  /** No sub-I/O of `i` that was answered in part is sent again by this step. */
  ghost predicate CleanFor(s: State, step: Step, i: nat) {
    match step
    case Resend(slot) => Occupied(s, slot) && s.slots[slot].value.piece.io == i ==> s.slots[slot].value.replied == 0
    case DelayRetry(slot) => Occupied(s, slot) && s.slots[slot].value.piece.io == i ==> s.slots[slot].value.replied == 0
    case Reconnect =>
      forall k :: 0 <= k < |s.slots| && s.slots[k].Some? && s.slots[k].value.piece.io == i ==>
        s.slots[k].value.replied == 0
    case _ => true
  }

  ghost predicate CleanRunFor(s: State, steps: seq<Step>, i: nat)
    requires IsRun(s, steps)
    decreases |steps|
  {
    steps == [] || (CleanFor(s, steps[0], i) && CleanRunFor(Next(s, steps[0]), steps[1..], i))
  }

  lemma SameSet(a: set<nat>, b: set<nat>)
    requires a <= b && |a| == |b|
    ensures a == b
  {
    PartOf(a, b);
    assert b == a + (b - a);
  }

  /** Of a sub-I/O that counts nothing, nothing was answered. */
  lemma NothingCounted(p: Piece, owed: set<nat>, answered: set<(nat, nat)>)
    requires SubHeard(p, 0, owed, answered)
    ensures owed == Lbas(p) && Unheard(p, answered)
  {
    RangeHas(p.slba, p.nlba);
    SameSet(owed, Lbas(p));
  }

  lemma JustSent(p: Piece, answered: set<(nat, nat)>)
    requires Unheard(p, answered)
    ensures SubHeard(p, 0, Lbas(p), answered)
  {
    RangeHas(p.slba, p.nlba);
  }

  /** A sub-I/O that is not concerned by a reply. */
  lemma NotConcerned(p: Piece, replied: nat, owed: set<nat>, answered: set<(nat, nat)>, io: nat, lbas: set<nat>)
    requires p.io == io ==> Lbas(p) !! lbas
    ensures SubHeard(p, replied, owed, answered) ==> SubHeard(p, replied, owed, answered + OfIo(io, lbas))
    ensures Unheard(p, answered) ==> Unheard(p, answered + OfIo(io, lbas))
  {
    hide Range;
    assert forall l :: l in Lbas(p) ==> (p.io, l) !in OfIo(io, lbas);
  }

  lemma Concerned(p: Piece, replied: nat, owed: set<nat>, answered: set<(nat, nat)>, lbas: set<nat>)
    requires SubHeard(p, replied, owed, answered) && lbas <= owed
    ensures var answered' := answered + OfIo(p.io, lbas);
            && replied + |lbas| <= p.nlba
            && (replied + |lbas| < p.nlba ==> SubHeard(p, replied + |lbas|, owed - lbas, answered'))
            && (replied + |lbas| == p.nlba ==> AllHeard(p, answered'))
  {
    hide Range;
    PartOf(lbas, owed);
    if replied + |lbas| == p.nlba {
      SameSet(lbas, owed);
    }
  }

  lemma MoreHeard(i: nat, finished: seq<Piece>, answered: set<(nat, nat)>, more: set<(nat, nat)>)
    requires FinishedHeard(i, finished, answered)
    ensures FinishedHeard(i, finished, answered + more)
  {
  }

  lemma PushHeard(s: State, nlba: nat, status: nat, i: nat)
    requires Sound(s) && IoHeard(s, i) && Enabled(s, Push(nlba, status))
    ensures IoHeard(Next(s, Push(nlba, status)), i)
  {
    hide Sound, SlotsHeard, RetryHeard, FinishedHeard, OnlyTouched;
  }

  lemma InSlotHeard(i: nat, slots: seq<Option<Sub>>, owed: seq<set<nat>>, answered: set<(nat, nat)>, k: nat, sub: Sub)
    requires SlotsHeard(i, slots, owed, answered) && k < |slots|
    requires sub.piece.io == i ==> sub.replied == 0 && Unheard(sub.piece, answered)
    ensures SlotsHeard(i, slots[k := Some(sub)], owed[k := Lbas(sub.piece)], answered)
  {
    hide SubHeard, Unheard, Lbas;
    if sub.piece.io == i {
      JustSent(sub.piece, answered);
    }
  }

  /** No sub-I/O is cut twice. */
  lemma NextIsNew(s: State)
    requires Sound(s) && Enabled(s, Send) && s.retry == []
    ensures NextPiece(Ready(s)) !in s.generated && Sound(Next(s, Send))
    ensures Next(s, Send).generated == s.generated + [NextPiece(Ready(s))]
  {
    hide Sound, NextIn, Lbas;
    var p, t := NextPiece(Ready(s)), Next(s, Send);
    StepSound(s, Send);
    assert t.generated == s.generated + [p];
    GeneratedDistinct(t, p);
    assert multiset(t.generated)[p] == multiset(s.generated)[p] + 1;
    assert p !in multiset(s.generated);
  }

  /** The next sub-I/O of an I/O shares no LBA with those that were cut before. */
  lemma NextUnheard(s: State, i: nat)
    requires Sound(s) && IoHeard(s, i) && Enabled(s, Send) && s.retry == []
    ensures var p := NextPiece(Ready(s)); p.io == i ==> Unheard(p, s.answered)
  {
    hide Sound, Lbas, AllHeard, SubHeard, FinishedHeard, SlotsHeard, RetryHeard, NextIn;
    var p, t := NextPiece(Ready(s)), Next(s, Send);
    NextIsNew(s);
    assert p in t.generated;
    if p.io == i {
      forall l | l in Lbas(p)
        ensures (i, l) !in s.answered
      {
        if (i, l) in s.answered {
          assert Touched(s.generated, i, l);
          var q :| q in s.generated && q.io == i && l in Lbas(q);
          assert q in t.generated;
          GeneratedApart(t, p, q);
        }
      }
    }
  }

  lemma MoreTouched(i: nat, generated: seq<Piece>, p: Piece, answered: set<(nat, nat)>)
    requires OnlyTouched(i, generated, answered)
    ensures OnlyTouched(i, generated + [p], answered)
  {
    forall l: nat | (i, l) in answered
      ensures Touched(generated + [p], i, l)
    {
      var q :| q in generated && q.io == i && l in Lbas(q);
      assert q in generated + [p];
    }
  }

  lemma RetrySent(i: nat, retry: seq<Sub>, answered: set<(nat, nat)>)
    requires RetryHeard(i, retry, answered) && retry != []
    ensures RetryHeard(i, retry[1..], answered)
  {
  }

  lemma SendHeard(s: State, i: nat)
    requires Sound(s) && IoHeard(s, i) && Enabled(s, Send)
    ensures IoHeard(Next(s, Send), i)
  {
    hide Sound, SlotsHeard, RetryHeard, FinishedHeard, OnlyTouched, Unheard, NextIn, Lbas;
    if s.retry != [] {
      FirstRetry(i, s.retry, s.answered);
      InSlotHeard(i, s.slots, s.owed, s.answered, s.free[0], s.retry[0]);
      RetrySent(i, s.retry, s.answered);
    } else {
      var p := NextPiece(Ready(s));
      NextUnheard(s, i);
      InSlotHeard(i, s.slots, s.owed, s.answered, s.free[0], Sub(p, 0, 0));
      MoreTouched(i, s.generated, p, s.answered);
    }
  }

  lemma FirstRetry(i: nat, retry: seq<Sub>, answered: set<(nat, nat)>)
    requires RetryHeard(i, retry, answered) && retry != []
    ensures retry[0].piece.io == i ==> retry[0].replied == 0 && Unheard(retry[0].piece, answered)
  {
  }

  lemma ResendHeard(s: State, slot: nat, i: nat)
    requires IoHeard(s, i) && Enabled(s, Resend(slot)) && CleanFor(s, Resend(slot), i)
    ensures IoHeard(Next(s, Resend(slot)), i)
  {
    hide RetryHeard, FinishedHeard, OnlyTouched, Lbas;
    var sub := s.slots[slot].value;
    if sub.piece.io == i {
      NothingCounted(sub.piece, s.owed[slot], s.answered);
    }
  }

  lemma DelayedHeard(s: State, slot: nat, i: nat)
    requires IoHeard(s, i) && Occupied(s, slot)
    requires s.slots[slot].value.piece.io == i ==> s.slots[slot].value.replied == 0
    ensures IoHeard(Delayed(s, slot), i)
  {
    hide FinishedHeard, OnlyTouched, Lbas;
    var sub := s.slots[slot].value;
    if sub.piece.io == i {
      NothingCounted(sub.piece, s.owed[slot], s.answered);
    }
  }

  lemma {:induction false} RetriedHeard(s: State, k: nat, i: nat)
    requires IoHeard(s, i) && CleanFor(s, Reconnect, i)
    ensures IoHeard(RetriedFrom(s, k), i)
    decreases |s.slots| - k
  {
    hide IoHeard;
    if k < |s.slots| {
      if Occupied(s, k) {
        DelayedHeard(s, k, i);
      }
      RetriedHeard(if Occupied(s, k) then Delayed(s, k) else s, k + 1, i);
    }
  }

  /** A reply concerns its own sub-I/O and no other. */
  lemma ReplySlots(s: State, slot: nat, lbas: set<nat>, status: nat, i: nat)
    requires Sound(s) && IoHeard(s, i) && Enabled(s, Reply(slot, lbas, status)) && s.slots[slot].value.piece.io == i
    ensures var sub, answered := s.slots[slot].value, s.answered + OfIo(i, lbas);
            && sub.replied + |lbas| <= sub.piece.nlba
            && (sub.replied + |lbas| == sub.piece.nlba ==> AllHeard(sub.piece, answered))
            && SlotsHeard(i, s.slots[slot := if sub.replied + |lbas| == sub.piece.nlba then None
                                             else Some(AfterReply(sub, |lbas|, status))],
                          s.owed[slot := s.owed[slot] - lbas], answered)
  {
    hide Sound, SubHeard, AllHeard, RetryHeard, FinishedHeard, OnlyTouched, Lbas, OfIo;
    var sub, answered := s.slots[slot].value, s.answered + OfIo(i, lbas);
    Concerned(sub.piece, sub.replied, s.owed[slot], s.answered, lbas);
    forall k | 0 <= k < |s.slots| && k != slot && s.slots[k].Some? && s.slots[k].value.piece.io == i
      ensures SubHeard(s.slots[k].value.piece, s.slots[k].value.replied, s.owed[k], answered)
    {
      SlotsDiffer(s, slot, k);
      OwedPart(s, slot, i);
      NotConcerned(s.slots[k].value.piece, s.slots[k].value.replied, s.owed[k], s.answered, i, lbas);
    }
  }

  lemma OwedPart(s: State, slot: nat, i: nat)
    requires IoHeard(s, i) && Occupied(s, slot) && s.slots[slot].value.piece.io == i
    ensures slot < |s.owed| && s.owed[slot] <= Lbas(s.slots[slot].value.piece)
  {
  }

  lemma ReplyRetry(s: State, slot: nat, lbas: set<nat>, status: nat, i: nat)
    requires Sound(s) && IoHeard(s, i) && Enabled(s, Reply(slot, lbas, status)) && s.slots[slot].value.piece.io == i
    ensures RetryHeard(i, s.retry, s.answered + OfIo(i, lbas))
  {
    hide Sound, SubHeard, FinishedHeard, OnlyTouched, Lbas, OfIo, Unheard;
    OwedPart(s, slot, i);
    forall k | 0 <= k < |s.retry| && s.retry[k].piece.io == i
      ensures s.retry[k].replied == 0 && Unheard(s.retry[k].piece, s.answered + OfIo(i, lbas))
    {
      RetryDiffers(s, slot, k);
      NotConcerned(s.retry[k].piece, 0, {}, s.answered, i, lbas);
    }
  }

  lemma ReplyTouched(s: State, slot: nat, lbas: set<nat>, status: nat, i: nat)
    requires Sound(s) && IoHeard(s, i) && Enabled(s, Reply(slot, lbas, status)) && s.slots[slot].value.piece.io == i
    ensures OnlyTouched(i, s.generated, s.answered + OfIo(i, lbas))
  {
    hide Sound, SubHeard, FinishedHeard, RetryHeard, Lbas, SlotPieces, RetryPieces;
    var p := s.slots[slot].value.piece;
    OwedPart(s, slot, i);
    SlotIsLive(s.slots, slot);
    LiveGenerated(s, p);
    forall l: nat | (i, l) in s.answered + OfIo(i, lbas)
      ensures Touched(s.generated, i, l)
    {
      if (i, l) !in s.answered {
        assert l in Lbas(p);
      }
    }
  }

  lemma OwnReplyHeard(s: State, slot: nat, lbas: set<nat>, status: nat, i: nat)
    requires Sound(s) && IoHeard(s, i) && Enabled(s, Reply(slot, lbas, status)) && s.slots[slot].value.piece.io == i
    ensures IoHeard(Next(s, Reply(slot, lbas, status)), i)
  {
    hide Sound, SlotsHeard, RetryHeard, OnlyTouched, AllHeard, OfIo, Without, Uncompleted;
    ReplySlots(s, slot, lbas, status, i);
    ReplyRetry(s, slot, lbas, status, i);
    ReplyTouched(s, slot, lbas, status, i);
    MoreHeard(i, s.finished, s.answered, OfIo(i, lbas));
    var sub := AfterReply(s.slots[slot].value, |lbas|, status);
    assert s.slots[slot := Some(sub)][slot := None] == s.slots[slot := None];
  }

  lemma OtherReplyHeard(s: State, slot: nat, lbas: set<nat>, status: nat, i: nat)
    requires IoHeard(s, i) && Enabled(s, Reply(slot, lbas, status)) && s.slots[slot].value.piece.io != i
    ensures IoHeard(Next(s, Reply(slot, lbas, status)), i)
  {
    hide Lbas, Without, Uncompleted, SubHeard, Unheard, AllHeard;
    var io := s.slots[slot].value.piece.io;
    var answered := s.answered + OfIo(io, lbas);
    forall k | 0 <= k < |s.slots| && s.slots[k].Some? && s.slots[k].value.piece.io == i
      ensures SubHeard(s.slots[k].value.piece, s.slots[k].value.replied, s.owed[k], answered)
    {
      NotConcerned(s.slots[k].value.piece, s.slots[k].value.replied, s.owed[k], s.answered, io, lbas);
    }
    forall k | 0 <= k < |s.retry| && s.retry[k].piece.io == i
      ensures Unheard(s.retry[k].piece, answered)
    {
      NotConcerned(s.retry[k].piece, 0, {}, s.answered, io, lbas);
    }
    MoreHeard(i, s.finished, s.answered, OfIo(io, lbas));
    assert forall l: nat :: (i, l) in answered ==> (i, l) in s.answered;
  }

  lemma StepHeard(s: State, step: Step, i: nat)
    requires Sound(s) && IoHeard(s, i) && Enabled(s, step) && CleanFor(s, step, i)
    ensures IoHeard(Next(s, step), i)
  {
    hide Sound, IoHeard, Sent, Replied, Delayed, RetriedFrom;
    match step
    case Push(nlba, status) => PushHeard(s, nlba, status, i);
    case Send => SendHeard(s, i);
    case Resend(slot) => ResendHeard(s, slot, i);
    case Reply(slot, lbas, status) =>
      if s.slots[slot].value.piece.io == i {
        OwnReplyHeard(s, slot, lbas, status, i);
      } else {
        OtherReplyHeard(s, slot, lbas, status, i);
      }
    case DelayRetry(slot) => DelayedHeard(s, slot, i);
    case Reconnect => RetriedHeard(s, 0, i);
  }

  lemma InitHeard(max: nat, depth: nat, i: nat)
    ensures IoHeard(Init(max, depth), i)
  {
  }

  /** A run that sends nothing again that was answered in part is clean for every I/O. */
  lemma {:induction false} CleanForAll(s: State, steps: seq<Step>, i: nat)
    requires IsRun(s, steps) && CleanRun(s, steps)
    ensures CleanRunFor(s, steps, i)
    decreases |steps|
  {
    hide Enabled, Next;
    if steps != [] {
      CleanForAll(Next(s, steps[0]), steps[1..], i);
    }
  }

  /** Sub-I/Os of one LBA are never answered in part. */
  lemma SmallIsClean(s: State, step: Step, i: nat)
    requires Sound(s) && IoHeard(s, i) && (s.max == 1 || (i < |s.sizes| ==> s.sizes[i] <= 1))
    ensures CleanFor(s, step, i)
  {
    hide Sound, RetryHeard, FinishedHeard, OnlyTouched, Lbas, SlotPieces, Pieces;
    forall k | 0 <= k < |s.slots| && s.slots[k].Some? && s.slots[k].value.piece.io == i
      ensures s.slots[k].value.replied == 0
    {
      var p := s.slots[k].value.piece;
      SlotIsLive(s.slots, k);
      LiveGenerated(s, p);
      GeneratedPiece(s, p);
      PiecesApart(p.io, s.sizes[p.io], s.max, p, p);
      assert SubHeard(p, s.slots[k].value.replied, s.owed[k], s.answered);
    }
  }

  lemma {:induction false} SmallRunIsClean(s: State, steps: seq<Step>, i: nat)
    requires Sound(s) && IoHeard(s, i) && IsRun(s, steps)
    requires s.max == 1 || (i < |After(s, steps).sizes| ==> After(s, steps).sizes[i] <= 1)
    ensures CleanRunFor(s, steps, i)
    decreases |steps|
  {
    hide Sound, IoHeard, Enabled, Next, CleanFor;
    if steps != [] {
      RunKeepsMax(s, steps);
      SmallIsClean(s, steps[0], i);
      StepHeard(s, steps[0], i);
      StepSound(s, steps[0]);
      StepKeeps(s, steps[0]);
      SmallRunIsClean(Next(s, steps[0]), steps[1..], i);
    }
  }

  /** Where finished means answered, every LBA of an I/O that was called back was answered. */
  lemma CompletedAnswered(s: State, i: nat, l: nat)
    requires Sound(s) && FinishedAnswered(s) && i in s.callbacks
    ensures i < |s.sizes| && (l < s.sizes[i] ==> (i, l) in s.answered)
  {
    hide Sound, Cut;
    CompletedGenerated(s, i, Piece(0, 0, 0));
    if l < s.sizes[i] {
      var p := CutCovers(i, s.sizes[i], 0, s.max, l);
      CompletedFinished(s, i, p);
      assert Told(p, {}, s.answered);
    }
  }

  /** The same for one I/O that was heard of cleanly. */
  lemma CalledBackHeard(s: State, i: nat, l: nat)
    requires Sound(s) && IoHeard(s, i) && i in s.callbacks
    ensures i < |s.sizes| && (l < s.sizes[i] ==> (i, l) in s.answered)
  {
    hide Sound, Cut, SlotsHeard, RetryHeard, OnlyTouched;
    CompletedGenerated(s, i, Piece(0, 0, 0));
    if l < s.sizes[i] {
      var p := CutCovers(i, s.sizes[i], 0, s.max, l);
      CompletedFinished(s, i, p);
      assert AllHeard(p, s.answered);
    }
  }
}
