/**
  The session object of S5bd/src/s5session.c: linked lists, cursor, slot array and queues,
  changed in place. Every operation takes the state machine of SessionProtocol one step.
 */
module Session {
  import opened Machine
  import opened SessionPieces
  import opened SessionProtocol
  import opened SessionSafety
  import opened SessionLists

  method AllPositions(depth: nat) returns (positions: seq<nat>)
    ensures positions == UpFrom(0, depth)
  {
    positions := [];
    for i := 0 to depth
      invariant positions == UpFrom(0, i)
    {
      UpFromOneMore(0, i);
      positions := positions + [i];
    }
  }

  method NoSubmitted(depth: nat) returns (slots: array<Option<Sub>>)
    ensures fresh(slots) && slots[..] == Repeat(None, depth)
  {
    slots := new Option<Sub>[depth];
    for i := 0 to depth
      invariant forall k :: 0 <= k < i ==> slots[k] == None
    {
      slots[i] := None;
    }
  }

  class S5Session {
    const max: nat
    /** nlba, uncompleted_subio_count and message status of each I/O. */
    var sizes: seq<nat>
    var uncompleted: seq<int>
    var statuses: seq<nat>
    /** s5io_queue, subio_queue and current_io. */
    const lists: IoLists
    var nextLba: nat
    const submitted: array<Option<Sub>>
    var freePositions: seq<nat>
    var retryReady: seq<Sub>
    var callbackQueue: seq<nat>
    ghost var owed: seq<set<nat>>
    ghost var generated: seq<Piece>
    ghost var finished: seq<Piece>
    ghost var answered: set<(nat, nat)>
    ghost var failed: set<nat>

    ghost function View(): State
      reads this, submitted, lists, lists.s5ioQueue, lists.subioQueue
    {
      State(max, sizes, uncompleted, statuses, lists.Waiting(), lists.Queue(), lists.Current(), nextLba,
            submitted[..], freePositions, retryReady, callbackQueue, owed, generated, finished, answered, failed)
    }

    ghost predicate Apart()
      reads lists
    {
      this !in lists.repr && submitted !in lists.repr && lists in lists.repr
    }

    ghost predicate Valid()
      reads this, submitted, lists, lists.s5ioQueue, lists.subioQueue
      reads lists.s5ioQueue.nodes, lists.subioQueue.nodes
    {
      lists.Valid() && Apart() && |lists.entries| == |sizes| && Sound(View())
    }

    constructor (max: nat, depth: nat)
      requires max > 0
      ensures Valid() && View() == Init(max, depth) && fresh(submitted) && fresh(lists.repr)
    {
      hide Sound, IoLists.Valid, Repeat, UpFrom;
      this.max := max;
      sizes, uncompleted, statuses, callbackQueue, retryReady, nextLba := [], [], [], [], [], 0;
      var positions := AllPositions(depth);
      var slots := NoSubmitted(depth);
      freePositions, submitted := positions, slots;
      lists := new IoLists();
      owed, generated, finished, answered, failed := Repeat({}, depth), [], [], {}, {};
      new;
      InitSound(max, depth);
    }

    method PushS5io(nlba: nat, status: nat)
      requires Valid()
      modifies this, lists.repr
      ensures Valid() && fresh(lists.repr - old(lists.repr))
      ensures Enabled(old(View()), Push(nlba, status)) && View() == Next(old(View()), Push(nlba, status))
    {
      hide Sound, Shape, IoLists.Valid;
      SoundShape(View());
      PushSound(View(), nlba, status);
      lists.Push();
      uncompleted := uncompleted + [(nlba + max - 1) / max];
      statuses := statuses + [status];
      sizes := sizes + [nlba];
    }

    /** The cutting part of get_next_subio, of which the cursor moves along the ring. */
    method CutSubio() returns (subio: Sub)
      requires lists.Valid() && Apart() && lists.currentIo != null && Shape(View())
      modifies this, lists
      ensures lists.Valid() && lists.entries == old(lists.entries) && lists.repr == old(lists.repr)
      ensures sizes == old(sizes)
      ensures subio == Sub(NextPiece(old(View())), 0, 0) && View() == Generated(old(View()))
    {
      hide Shape, IoLists.Valid, NextIn;
      CursorInRange();
      var io := lists.currentIo.param;
      var nlba := Min(max, sizes[io] - nextLba);
      subio := Sub(Piece(io, nextLba, nlba), 0, 0);
      nextLba := nextLba + nlba;
      if nextLba >= sizes[io] {
        lists.Advance();
        nextLba := 0;
      }
      generated := generated + [subio.piece];
    }

    lemma CursorInRange()
      requires Shape(View()) && lists.currentIo != null
      ensures lists.currentIo.param < |sizes| && nextLba <= sizes[lists.currentIo.param]
    {
    }

    /** get_next_subio: from the retry queue, or else the next piece of the next I/O, or none. */
    method GetNextSubio() returns (subio: Option<Sub>)
      requires Valid()
      modifies this, lists.repr
      ensures lists.Valid() && Apart() && |lists.entries| == |sizes|
      ensures fresh(lists.repr - old(lists.repr))
      ensures var s := old(View());
              && (subio.None? ==> s.retry == [] && !HasMore(s) && View() == s)
              && (subio.Some? && s.retry != [] ==> subio.value == s.retry[0] && View() == s.(retry := s.retry[1..]))
              && (subio.Some? && s.retry == [] ==>
                    && HasMore(s) && Shape(Ready(s))
                    && subio.value == Sub(NextPiece(Ready(s)), 0, 0) && View() == Generated(Ready(s)))
    {
      hide Sound, Shape, Generated, IoLists.Valid;
      if |retryReady| > 0 {
        subio := Some(retryReady[0]);
        retryReady := retryReady[1..];
        return;
      }
      if lists.currentIo == null {
        ghost var s := View();
        var count := lists.Take();
        if count == 0 {
          assert s.queue + s.waiting == s.queue;
          return None;
        }
        nextLba := 0;
        TakeSound(s);
        assert View() == Taken(s);
      }
      SoundShape(View());
      var piece := CutSubio();
      return Some(piece);
    }

    method PutInSlot(subio: Sub) returns (index: nat)
      requires freePositions != [] && freePositions[0] < submitted.Length && |owed| == submitted.Length
      modifies this, submitted
      ensures View() == InSlot(old(View()), subio) && index == old(freePositions)[0]
    {
      index := freePositions[0];
      freePositions := freePositions[1..];
      submitted[index] := Some(subio);
      owed := owed[index := Lbas(subio.piece)];
    }

    /** The part of do_send that finds the next sub-I/O and gives it a slot; -1 when there is none to send. */
    method SubmitNext() returns (index: int)
      requires Valid()
      modifies this, submitted, lists.repr
      ensures Valid() && fresh(lists.repr - old(lists.repr))
      ensures index < 0 ==> !Enabled(old(View()), Send) && View() == old(View())
      ensures index >= 0 ==>
                && Enabled(old(View()), Send) && View() == Next(old(View()), Send) && index == old(freePositions)[0]
    {
      hide Sound, NextIn, IoLists.Valid, Lbas;
      ghost var s := View();
      SoundShape(s);
      if |freePositions| == 0 {
        return -1;
      }
      var subio := GetNextSubio();
      if subio.None? {
        return -1;
      }
      SendSound(s);
      index := PutInSlot(subio.value);
      assert View() == Sent(s);
    }

    /** A sub-I/O that timed out is sent again in the slot it has. */
    method ResendTimedOut(index: nat)
      requires Valid() && Occupied(View(), index)
      modifies this
      ensures Valid() && Enabled(old(View()), Resend(index)) && View() == Next(old(View()), Resend(index))
    {
      hide Sound, IoLists.Valid, Lbas;
      SoundShape(View());
      ResendSound(View(), index, Lbas(submitted[index].value.piece));
      owed := owed[index := Lbas(submitted[index].value.piece)];
    }

    /** The count-down of handle_readwrite_reply and complete_io, which takes the entry out of the list. */
    method CountDown(io: nat, status: nat)
      requires lists.Valid() && Apart() && io < |uncompleted| == |statuses|
      requires uncompleted[io] <= 1 ==> io in lists.Queue() && lists.Current() != Some(io)
      modifies this, lists.repr
      ensures lists.Valid() && lists.entries == old(lists.entries) && lists.repr == old(lists.repr)
      ensures View() == Countdown(old(View()), io, status) && sizes == old(sizes)
    {
      hide IoLists.Valid, Without;
      uncompleted := uncompleted[io := uncompleted[io] - 1];
      if uncompleted[io] <= 0 {
        if statuses[io] == 0 {
          statuses := statuses[io := status];
        }
        lists.Complete(io);
        callbackQueue := callbackQueue + [io];
      }
    }

    method FreeSlot(index: nat)
      requires index < submitted.Length
      modifies this, submitted
      ensures View() == Freed(old(View()), index)
    {
      submitted[index] := None;
      freePositions := freePositions + [index];
    }

    /** handle_readwrite_reply for a reply that carries some of the LBAs owed. */
    method HandleReadWriteReply(index: nat, lbas: set<nat>, status: nat)
      requires Valid() && Enabled(View(), Reply(index, lbas, status))
      modifies this, submitted, lists.repr
      ensures Valid() && fresh(lists.repr - old(lists.repr))
      ensures View() == Next(old(View()), Reply(index, lbas, status))
    {
      hide Sound, Countdown, IoLists.Valid, OfIo;
      ghost var s := View();
      StepSound(s, Reply(index, lbas, status));
      var subio := submitted[index].value;
      subio := subio.(replied := subio.replied + |lbas|);
      if subio.status == 0 {
        subio := subio.(status := status);
      }
      submitted[index] := Some(subio);
      HearReply(index, subio.piece.io, lbas, status);
      assert submitted[..] == s.slots[index := Some(subio)];
      if subio.replied == subio.piece.nlba {
        if uncompleted[subio.piece.io] <= 1 {
          NotAtCursor(s, index);
        }
        Finish(index, subio);
      }
    }

    /** The end of a sub-I/O. */
    method Finish(index: nat, subio: Sub)
      requires lists.Valid() && Apart() && index < submitted.Length
      requires subio.piece.io < |uncompleted| == |statuses|
      requires uncompleted[subio.piece.io] <= 1 ==>
                 subio.piece.io in lists.Queue() && lists.Current() != Some(subio.piece.io)
      modifies this, submitted, lists.repr
      ensures lists.Valid() && lists.entries == old(lists.entries) && lists.repr == old(lists.repr)
      ensures sizes == old(sizes)
      ensures var s := old(View());
              View()
              == Freed(Countdown(s.(finished := s.finished + [subio.piece]), subio.piece.io, subio.status), index)
    {
      hide Countdown, IoLists.Valid;
      finished := finished + [subio.piece];
      CountDown(subio.piece.io, subio.status);
      FreeSlot(index);
    }

    ghost method HearReply(index: nat, io: nat, lbas: set<nat>, status: nat)
      requires index < |owed|
      modifies this`owed, this`answered, this`failed
      ensures owed == old(owed)[index := old(owed)[index] - lbas] && answered == old(answered) + OfIo(io, lbas)
      ensures failed == if status != 0 then old(failed) + {io} else old(failed)
    {
      owed := owed[index := owed[index] - lbas];
      answered := answered + OfIo(io, lbas);
      failed := if status != 0 then failed + {io} else failed;
    }

    /** dispatch_reply_msg for a delay-retry reply. */
    method HandleDelayRetry(index: nat)
      requires Valid() && Occupied(View(), index)
      modifies this, submitted
      ensures Valid() && Enabled(old(View()), DelayRetry(index)) && View() == Next(old(View()), DelayRetry(index))
    {
      hide Sound, Shape, IoLists.Valid;
      SoundShape(View());
      DelayedSound(View(), index);
      retryReady := retryReady + [submitted[index].value];
      FreeSlot(index);
    }

    /** retry_submitted_subios, after a reconnect. */
    method RetrySubmittedSubios()
      requires Valid()
      modifies this, submitted
      ensures Valid() && Enabled(old(View()), Reconnect) && View() == Next(old(View()), Reconnect)
      ensures forall k :: 0 <= k < submitted.Length ==> submitted[k].None?
    {
      hide Sound, Shape, IoLists.Valid;
      ghost var s := View();
      SoundShape(s);
      RetriedSound(s, 0);
      if |freePositions| == submitted.Length {
        AllFree(s);
        NothingToRetry(s, 0);
        return;
      }
      RetryEach(s);
      RetriedSizes(s, 0);
    }

    /** The loop of retry_submitted_subios. */
    method RetryEach(ghost s: State)
      requires View() == s
      modifies this, submitted
      ensures View() == RetriedFrom(s, 0)
    {
      var index := 0;
      while index < submitted.Length
        invariant index <= submitted.Length && RetriedFrom(View(), index) == RetriedFrom(s, 0)
      {
        ghost var before := View();
        if submitted[index].Some? {
          retryReady := retryReady + [submitted[index].value];
          FreeSlot(index);
          assert View() == Delayed(before, index);
        }
        index := index + 1;
      }
    }
  }

  lemma {:induction false} RetriedSizes(s: State, i: nat)
    ensures RetriedFrom(s, i).sizes == s.sizes
    decreases |s.slots| - i
  {
    if i < |s.slots| {
      RetriedSizes(if Occupied(s, i) then Delayed(s, i) else s, i + 1);
    }
  }

  /** An I/O whose last sub-I/O is being finished is in the list, and the cursor has left it. */
  lemma NotAtCursor(s: State, slot: nat)
    requires Sound(s) && Shape(s) && Occupied(s, slot) && s.left[s.slots[slot].value.piece.io] <= 1
    ensures s.slots[slot].value.piece.io in s.queue && s.current != Some(s.slots[slot].value.piece.io)
  {
    hide Balanced, Slotted, Cursor, Count, Uncompleted, SlotPieces, RetryPieces;
    var p := s.slots[slot].value.piece;
    LiveIo(s, slot);
    CountBound(s, p.io);
    SlotIsLive(s.slots, slot);
    CountMember(Live(s), p);
    PendingBelow(|s.sizes| - |s.waiting|, s.callbacks);
  }

  /** As many free positions as slots: all slots are free. */
  lemma AllFree(s: State)
    requires Sound(s) && |s.free| == |s.slots|
    ensures forall k :: 0 <= k < |s.slots| ==> s.slots[k].None?
  {
    hide Balanced, Counted, Cursor, Listed;
    var n := |s.slots|;
    UpFromAt(0, n);
    DistinctSet(s.free);
    DistinctSet(UpFrom(0, n));
    var listed, all := set k: nat | k in s.free, set k: nat | k in UpFrom(0, n);
    forall k: nat
      ensures k in all <==> k < n
    {
      if k < n {
        assert UpFrom(0, n)[k] == k;
      }
    }
    SubsetOfSameSize(listed, all);
    forall k | 0 <= k < n
      ensures s.slots[k].None?
    {
      assert k in all;
    }
  }

  lemma {:induction false} DistinctSet(q: seq<nat>)
    requires Distinct(q)
    ensures |set k: nat | k in q| == |q|
  {
    if q != [] {
      var rest := q[1..];
      DistinctSet(rest);
      assert (set k: nat | k in q) == (set k: nat | k in rest) + {q[0]};
    }
  }

  lemma SubsetOfSameSize(a: set<nat>, b: set<nat>)
    requires a <= b && |a| == |b|
    ensures a == b
  {
    assert b == a + (b - a);
    assert |b| == |a| + |b - a|;
  }

  lemma {:induction false} NothingToRetry(s: State, i: nat)
    requires forall k :: 0 <= k < |s.slots| ==> s.slots[k].None?
    ensures RetriedFrom(s, i) == s
    decreases |s.slots| - i
  {
    if i < |s.slots| {
      NothingToRetry(s, i + 1);
    }
  }
}
