/**
  The data of reads (S5bd/src/s5session.c): every reply is received straight into the user's
  buffer, at the place of its first LBA, and filled up with zeros if it carries no data. What
  a caller can conclude from being called back with status OK depends on the size of the read
  and on whether anything was sent again.
 */
module SessionReads {
  import opened Machine
  import opened SessionPieces
  import opened SessionProtocol
  import opened SessionSafety
  import opened SessionAnswers
  import opened SessionHeard
  import opened SessionSlots
  import opened SessionStatus

  // One reply.

  /** The bytes of LBA `l` of a buffer. */
  function Block(b: seq<octet>, l: nat): (r: seq<octet>)
    requires (l + 1) * LBA_LENGTH <= |b|
  {
    b[l * LBA_LENGTH..(l + 1) * LBA_LENGTH]
  }

  /** The place of a reply to sub-I/O `p` that begins at LBA `slba`: an offset into what belongs to the sub-I/O. */
  function ReplyOffset(p: Piece, slba: nat): nat
    requires p.slba <= slba
  {
    p.slba * LBA_LENGTH + (slba - p.slba) * LBA_LENGTH
  }

  /** do_receive and handle_readwrite_reply for the data of a good reply, `nlba` blocks or none. */
  method ReceiveData(buf: array<octet>, p: Piece, slba: nat, nlba: nat, data: seq<octet>)
    requires p.slba <= slba && slba + nlba <= p.slba + p.nlba && (p.slba + p.nlba) * LBA_LENGTH <= buf.Length
    requires data == [] || |data| == nlba * LBA_LENGTH
    modifies buf
    ensures forall l :: slba <= l < slba + nlba ==>
              Block(buf[..], l) == if data == [] then seq(LBA_LENGTH, _ => 0) else Block(data, l - slba)
    ensures forall l :: 0 <= l && (l + 1) * LBA_LENGTH <= buf.Length && !(slba <= l < slba + nlba) ==>
              Block(buf[..], l) == old(Block(buf[..], l))
  {
    var bytes := data;
    if data == [] && nlba != 0 {
      bytes := seq(nlba * LBA_LENGTH, _ => 0);
    }
    ghost var before := buf[..];
    CopyTo(buf, ReplyOffset(p, slba), bytes);
    forall l | slba <= l < slba + nlba
      ensures Block(buf[..], l) == if data == [] then seq(LBA_LENGTH, _ => 0) else Block(data, l - slba)
    {
      InItsPlace(buf[..], bytes, slba, nlba, l);
    }
    forall l | 0 <= l && (l + 1) * LBA_LENGTH <= buf.Length && !(slba <= l < slba + nlba)
      ensures Block(buf[..], l) == Block(before, l)
    {
    }
  }

  lemma InItsPlace(b: seq<octet>, bytes: seq<octet>, slba: nat, nlba: nat, l: nat)
    requires |bytes| == nlba * LBA_LENGTH && (slba + nlba) * LBA_LENGTH <= |b| && slba <= l < slba + nlba
    requires forall k :: 0 <= k < |bytes| ==> b[slba * LBA_LENGTH + k] == bytes[k]
    ensures Block(b, l) == Block(bytes, l - slba)
  {
  }

  // Whole runs.

  /** The block that the buffer of I/O `i` has for its LBA `l`. */
  type Buffers = (nat, nat) -> seq<octet>

  /** Some sending under way has this LBA, and it was not answered. */
  ghost predicate Owed(slots: seq<Option<Sub>>, owed: seq<set<nat>>, i: nat, l: nat) {
    exists k :: 0 <= k < |slots| && k < |owed| && slots[k].Some? && slots[k].value.piece.io == i && l in owed[k]
  }

  /**
    What a step does to the buffers. Bytes come in before their reply is complete, and a
    connection may break in the middle of it, so what is owed may be anything; so may what a
    reply with an error brings.
   */
  ghost predicate Places(s: State, step: Step, content: Buffers, b: Buffers, b': Buffers)
    requires Enabled(s, step)
  {
    forall i: nat, l: nat ::
      if Carries(s, step, i, l) then b'(i, l) == content(i, l)
      else Owed(s.slots, s.owed, i, l) || b'(i, l) == b(i, l)
  }

  /** `bs` are the buffers before, between and after the steps. */
  ghost predicate Plays(s: State, steps: seq<Step>, content: Buffers, bs: seq<Buffers>)
    requires IsRun(s, steps)
    decreases |steps|
  {
    && |bs| == |steps| + 1
    && (steps != [] ==>
          Places(s, steps[0], content, bs[0], bs[1]) && Plays(Next(s, steps[0]), steps[1..], content, bs[1..]))
  }

  /** What was answered is what the server sent, unless there was an error. */
  ghost predicate Right(i: nat, answered: set<(nat, nat)>, failed: set<nat>, content: Buffers, b: Buffers) {
    i !in failed ==> forall l: nat :: (i, l) in answered ==> b(i, l) == content(i, l)
  }

  lemma {:induction false} RetriedSame(s: State, i: nat)
    ensures RetriedFrom(s, i).answered == s.answered && RetriedFrom(s, i).failed == s.failed
    ensures RetriedFrom(s, i).generated == s.generated
    decreases |s.slots| - i
  {
    if i < |s.slots| {
      RetriedSame(if Occupied(s, i) then Delayed(s, i) else s, i + 1);
    }
  }

  lemma HeardOf(s: State, step: Step)
    requires Enabled(s, step)
    ensures var t := Next(s, step);
            if step.Reply?
            then
              var io := s.slots[step.slot].value.piece.io;
              && t.answered == s.answered + OfIo(io, step.lbas)
              && t.failed == if step.status != 0 then s.failed + {io} else s.failed
            else t.answered == s.answered && t.failed == s.failed
  {
    hide OfIo, Without, NextIn, Uncompleted;
    if step.Reconnect? {
      RetriedSame(s, 0);
    }
  }

  /** What is owed was not answered, so that what was answered is left alone. */
  lemma AnsweredNotOwed(s: State, i: nat, l: nat)
    requires IoHeard(s, i) && (i, l) in s.answered
    ensures !Owed(s.slots, s.owed, i, l)
  {
    hide RetryHeard, FinishedHeard, OnlyTouched, Lbas;
  }

  lemma StepRight(s: State, step: Step, i: nat, content: Buffers, b: Buffers, b': Buffers)
    requires IoHeard(s, i) && Enabled(s, step) && Right(i, s.answered, s.failed, content, b)
    requires Places(s, step, content, b, b')
    ensures Right(i, Next(s, step).answered, Next(s, step).failed, content, b')
  {
    hide Next, IoHeard, Owed;
    HeardOf(s, step);
    var t := Next(s, step);
    if i !in t.failed {
      forall l: nat | (i, l) in t.answered
        ensures b'(i, l) == content(i, l)
      {
        if !Carries(s, step, i, l) {
          assert (i, l) in s.answered;
          AnsweredNotOwed(s, i, l);
        }
      }
    }
  }

  /** In every run that sends nothing of I/O `i` again that was answered in part. */
  lemma {:induction false} RunRight(s: State, steps: seq<Step>, i: nat, content: Buffers, bs: seq<Buffers>)
    requires Sound(s) && IoHeard(s, i) && IsRun(s, steps) && CleanRunFor(s, steps, i) && Plays(s, steps, content, bs)
    requires Right(i, s.answered, s.failed, content, bs[0])
    ensures var t := After(s, steps);
            Sound(t) && IoHeard(t, i) && Right(i, t.answered, t.failed, content, bs[|steps|])
    decreases |steps|
  {
    hide Sound, IoHeard, Enabled, Next, Right, Places, CleanFor;
    if steps != [] {
      StepRight(s, steps[0], i, content, bs[0], bs[1]);
      StepHeard(s, steps[0], i);
      StepSound(s, steps[0]);
      RunRight(Next(s, steps[0]), steps[1..], i, content, bs[1..]);
    }
  }

  /** Every LBA of an I/O that was called back, and for which no reply had an error, is what the server sent. */
  lemma FaultlessRead(max: nat, depth: nat, steps: seq<Step>, i: nat, content: Buffers, bs: seq<Buffers>, l: nat)
    requires max > 0 && IsRun(Init(max, depth), steps) && CleanRunFor(Init(max, depth), steps, i)
    requires Plays(Init(max, depth), steps, content, bs)
    ensures var s := After(Init(max, depth), steps);
            && |bs| == |steps| + 1
            && (i in s.callbacks && i !in s.failed ==>
                  i < |s.sizes| && (l < s.sizes[i] ==> bs[|steps|](i, l) == content(i, l)))
  {
    hide IsRun, After, CleanRunFor, Plays, Sound, IoHeard;
    var s0 := Init(max, depth);
    InitSound(max, depth);
    InitHeard(max, depth, i);
    Started(s0, steps, i, content, bs);
    RunRight(s0, steps, i, content, bs);
    var s := After(s0, steps);
    if i in s.callbacks && i !in s.failed {
      CalledBackHeard(s, i, l);
    }
  }

  lemma Started(s: State, steps: seq<Step>, i: nat, content: Buffers, bs: seq<Buffers>)
    requires IsRun(s, steps) && Plays(s, steps, content, bs) && s.answered == {}
    ensures |bs| == |steps| + 1 && Right(i, s.answered, s.failed, content, bs[0])
  {
  }

  // Blocks that no sub-I/O has.

  ghost predicate OwedInside(slots: seq<Option<Sub>>, owed: seq<set<nat>>) {
    && |owed| == |slots|
    && forall k :: 0 <= k < |slots| && slots[k].Some? ==> owed[k] <= Lbas(slots[k].value.piece)
  }

  lemma {:induction false} RetriedInside(s: State, i: nat)
    requires OwedInside(s.slots, s.owed)
    ensures OwedInside(RetriedFrom(s, i).slots, RetriedFrom(s, i).owed)
    decreases |s.slots| - i
  {
    hide Lbas;
    if i < |s.slots| {
      RetriedInside(if Occupied(s, i) then Delayed(s, i) else s, i + 1);
    }
  }

  lemma StepInside(s: State, step: Step)
    requires OwedInside(s.slots, s.owed) && Enabled(s, step)
    ensures OwedInside(Next(s, step).slots, Next(s, step).owed)
  {
    hide Lbas, Without, NextIn, Uncompleted, OfIo;
    if step.Reconnect? {
      RetriedInside(s, 0);
    }
  }

  lemma StepGenerates(s: State, step: Step)
    requires Enabled(s, step)
    ensures s.generated <= Next(s, step).generated
  {
    hide Lbas, Without, NextIn, Uncompleted, OfIo;
    if step.Reconnect? {
      RetriedSame(s, 0);
    }
  }

  lemma StillTouched(a: seq<Piece>, b: seq<Piece>, i: nat, l: nat)
    requires a <= b && Touched(a, i, l)
    ensures Touched(b, i, l)
  {
    var p :| p in a && p.io == i && l in Lbas(p);
    assert p in b;
  }

  lemma StepUntouched(s: State, step: Step, content: Buffers, b: Buffers, b': Buffers, i: nat, l: nat)
    requires Sound(s) && OwedInside(s.slots, s.owed) && Enabled(s, step) && Places(s, step, content, b, b')
    requires !Touched(s.generated, i, l)
    ensures b'(i, l) == b(i, l)
  {
    hide Sound, Lbas, SlotPieces, RetryPieces;
    forall k | 0 <= k < |s.slots| && s.slots[k].Some? && s.slots[k].value.piece.io == i
      ensures l !in s.owed[k]
    {
      var p := s.slots[k].value.piece;
      SlotIsLive(s.slots, k);
      LiveGenerated(s, p);
    }
  }

  /** In every run the blocks that belong to no sub-I/O cut so far are as the user left them. */
  lemma {:induction false} RunUntouched(s: State, steps: seq<Step>, content: Buffers, bs: seq<Buffers>, i: nat, l: nat)
    requires Sound(s) && OwedInside(s.slots, s.owed) && IsRun(s, steps) && Plays(s, steps, content, bs)
    requires !Touched(After(s, steps).generated, i, l)
    ensures bs[|steps|](i, l) == bs[0](i, l)
    decreases |steps|
  {
    hide Sound, OwedInside, Enabled, Next, Places, Touched;
    if steps != [] {
      GeneratedGrows(s, steps);
      if Touched(s.generated, i, l) {
        StillTouched(s.generated, After(s, steps).generated, i, l);
      }
      StepUntouched(s, steps[0], content, bs[0], bs[1], i, l);
      StepInside(s, steps[0]);
      StepSound(s, steps[0]);
      RunUntouched(Next(s, steps[0]), steps[1..], content, bs[1..], i, l);
    }
  }

  lemma {:induction false} GeneratedGrows(s: State, steps: seq<Step>)
    requires IsRun(s, steps)
    ensures s.generated <= After(s, steps).generated
    decreases |steps|
  {
    hide Enabled, Next;
    if steps != [] {
      StepGenerates(s, steps[0]);
      GeneratedGrows(Next(s, steps[0]), steps[1..]);
    }
  }

  // Buffers that go with a run.

  /** The simplest ones: only good replies bring bytes, and all of theirs at once. */
  lemma {:induction false} Played(s: State, steps: seq<Step>, content: Buffers, b: Buffers) returns (bs: seq<Buffers>)
    requires IsRun(s, steps)
    ensures Plays(s, steps, content, bs) && bs[0] == b
    ensures forall i: nat, l: nat :: !Carried(s, steps, i, l) ==> bs[|steps|](i, l) == b(i, l)
    decreases |steps|
  {
    hide Enabled, Next, Places, Carries;
    if steps == [] {
      bs := [b];
    } else {
      var b' := Placed(s, steps[0], content, b);
      var rest := Played(Next(s, steps[0]), steps[1..], content, b');
      bs := [b] + rest;
      assert bs[1..] == rest && bs[|steps|] == rest[|steps[1..]|];
    }
  }

  lemma Placed(s: State, step: Step, content: Buffers, b: Buffers) returns (b': Buffers)
    requires Enabled(s, step)
    ensures Places(s, step, content, b, b')
    ensures forall i: nat, l: nat :: !Carries(s, step, i, l) ==> b'(i, l) == b(i, l)
  {
    if step.Reply? && step.status == 0 {
      var io, lbas := s.slots[step.slot].value.piece.io, step.lbas;
      b' := (i: nat, l: nat) => if i == io && l in lbas then content(i, l) else b(i, l);
    } else {
      b' := b;
    }
  }

  lemma {:induction false} CarriedAnswered(s: State, steps: seq<Step>, i: nat, l: nat)
    requires IsRun(s, steps)
    ensures (i, l) in s.answered || Carried(s, steps, i, l) ==> (i, l) in After(s, steps).answered
    decreases |steps|
  {
    hide Enabled, Next;
    if steps != [] {
      HeardOf(s, steps[0]);
      CarriedAnswered(Next(s, steps[0]), steps[1..], i, l);
    }
  }

  // Reads that are called back as good.

  /** The first I/O, of `n` LBAs, is not called back with status OK unless all its data is there. */
  ghost predicate FirstRead(s: State, n: nat, content: Buffers, b: Buffers) {
    0 in s.callbacks && s.statuses != [] && s.statuses[0] == 0 ==> forall l: nat :: l < n ==> b(0, l) == content(0, l)
  }

  /** Messages are pushed without an error, the first of them an I/O of `n` LBAs. */
  ghost predicate BeginsWith(max: nat, depth: nat, n: nat, steps: seq<Step>) {
    IsRun(Init(max, depth), steps) && OkPushed(steps) && steps != [] && steps[0] == Push(n, 0)
  }

  /** That is so in every run, or in every clean one, whatever the server sends and whatever was in the buffers. */
  ghost predicate ReadsRight(max: nat, depth: nat, n: nat, onlyClean: bool) {
    forall steps: seq<Step>, content: Buffers, bs: seq<Buffers> ::
      BeginsWith(max, depth, n, steps) && (onlyClean ==> CleanRun(Init(max, depth), steps))
      && Plays(Init(max, depth), steps, content, bs)
      ==> FirstRead(After(Init(max, depth), steps), n, content, bs[|steps|])
  }

  lemma FirstSize(max: nat, depth: nat, n: nat, steps: seq<Step>)
    requires BeginsWith(max, depth, n, steps)
    ensures var s := After(Init(max, depth), steps); s.max == max && s.sizes != [] && s.sizes[0] == n
  {
    hide Init, Enabled, Next;
    RunKeepsMax(Init(max, depth), steps);
    RunKeepsMax(Next(Init(max, depth), steps[0]), steps[1..]);
    InitMax(max, depth);
    SizePushed(Init(max, depth), n);
  }

  /** An I/O that is one sub-I/O reports its errors, so that its status tells whether its data is there. */
  lemma GoodRead(max: nat, depth: nat, n: nat, steps: seq<Step>, content: Buffers, bs: seq<Buffers>)
    requires max > 0 && n <= max && BeginsWith(max, depth, n, steps) && CleanRunFor(Init(max, depth), steps, 0)
    requires Plays(Init(max, depth), steps, content, bs)
    ensures |bs| == |steps| + 1 && FirstRead(After(Init(max, depth), steps), n, content, bs[|steps|])
  {
    hide IsRun, After, CleanRunFor, Plays, Init;
    FirstSize(max, depth, n, steps);
    var s := After(Init(max, depth), steps);
    FaultlessRead(max, depth, steps, 0, content, bs, 0);
    if 0 in s.callbacks && s.statuses != [] && s.statuses[0] == 0 {
      StatusOfSmallIo(max, depth, steps, 0);
      forall l: nat | l < n
        ensures bs[|steps|](0, l) == content(0, l)
      {
        FaultlessRead(max, depth, steps, 0, content, bs, l);
      }
    }
  }

  lemma {:induction false} PlainIsClean(s: State, steps: seq<Step>)
    requires IsRun(s, steps) && Plain(steps)
    ensures CleanRun(s, steps)
    decreases |steps|
  {
    hide Enabled, Next;
    if steps != [] {
      assert forall k :: 0 <= k < |steps[1..]| ==> steps[1..][k] == steps[k + 1];
      PlainIsClean(Next(s, steps[0]), steps[1..]);
    }
  }

  /** What the server sends, and what was there before. */
  function Ones(): Buffers { (i: nat, l: nat) => seq(LBA_LENGTH, _ => 1) }

  function Zeros(): Buffers { (i: nat, l: nat) => seq(LBA_LENGTH, _ => 0) }

  lemma OnesAndZeros(l: nat)
    ensures Ones()(0, l) != Zeros()(0, l)
  {
    assert Ones()(0, l)[0] != Zeros()(0, l)[0];
  }

  /** A run that calls the first I/O back as good although LBA `l` of it never came. */
  lemma NotRead(max: nat, depth: nat, n: nat, steps: seq<Step>, l: nat, onlyClean: bool)
    requires BeginsWith(max, depth, n, steps) && (onlyClean ==> CleanRun(Init(max, depth), steps)) && l < n
    requires !Carried(Init(max, depth), steps, 0, l)
    requires var s := After(Init(max, depth), steps); s.callbacks == [0] && s.statuses == [0]
    ensures !ReadsRight(max, depth, n, onlyClean)
  {
    hide IsRun, After, Plays, Init, CleanRun, Ones, Zeros, Carried;
    var bs := Played(Init(max, depth), steps, Ones(), Zeros());
    OneBufferMore(max, depth, steps, Ones(), bs);
    OnesAndZeros(l);
    assert !FirstRead(After(Init(max, depth), steps), n, Ones(), bs[|steps|]);
  }

  /**
    A read called back as good has all its data in every run that sends nothing again that
    was answered in part, if and only if it is one sub-I/O: otherwise an error can be lost.
   */
  lemma CleanReadsRightIff(max: nat, depth: nat, n: nat)
    requires max > 0 && depth > 0
    ensures ReadsRight(max, depth, n, true) <==> n <= max
  {
    hide IsRun, After, Init, CleanRun, CleanRunFor, FirstRead, Carried, OkPushed, Plain;
    if n <= max {
      forall steps: seq<Step>, content: Buffers, bs: seq<Buffers>
        | BeginsWith(max, depth, n, steps) && CleanRun(Init(max, depth), steps)
          && Plays(Init(max, depth), steps, content, bs)
        ensures FirstRead(After(Init(max, depth), steps), n, content, bs[|steps|])
      {
        CleanForAll(Init(max, depth), steps, 0);
        GoodRead(max, depth, n, steps, content, bs);
      }
    } else {
      var steps := StatusLost(max, depth, n);
      PlainIsClean(Init(max, depth), steps);
      NotRead(max, depth, n, steps, 0, true);
    }
  }

  // One LBA answered again and again.

  /** The only I/O is one sub-I/O of `n` LBAs, of which the first was answered `r` times and no other. */
  ghost predicate Repeated(s: State, n: nat, r: nat) {
    && Shape(s) && |s.slots| > 0 && s.slots[0] == Some(Sub(Piece(0, 0, n), r, 0)) && s.owed[0] == Range(0, n)
    && s.sizes == [n] && s.left == [1] && s.statuses == [0] && s.callbacks == []
  }

  lemma AnswerFirst(s: State, n: nat, r: nat)
    requires Repeated(s, n, r) && 2 <= n && r < n
    ensures Enabled(s, Reply(0, {0}, 0)) && !Carries(s, Reply(0, {0}, 0), 0, 1)
    ensures var t := Next(s, Reply(0, {0}, 0));
            if r + 1 == n then t.callbacks == [0] && t.statuses == [0]
            else Enabled(t, Resend(0)) && Repeated(Next(t, Resend(0)), n, r + 1)
  {
    RangeHas(0, n);
    hide Range, OfIo, Without, Uncompleted;
    assert |{0}| == 1;
  }

  lemma {:induction false} AnswerAgain(s: State, n: nat, r: nat) returns (steps: seq<Step>)
    requires Repeated(s, n, r) && 2 <= n && r < n
    ensures IsRun(s, steps) && OkPushed(steps) && !Carried(s, steps, 0, 1)
    ensures After(s, steps).callbacks == [0] && After(s, steps).statuses == [0]
    decreases n - r
  {
    hide Enabled, Next, Repeated;
    AnswerFirst(s, n, r);
    var t := Next(s, Reply(0, {0}, 0));
    if r + 1 == n {
      steps := [Reply(0, {0}, 0)];
      assert steps[1..] == [];
    } else {
      var rest := AnswerAgain(Next(t, Resend(0)), n, r + 1);
      var tail := [Resend(0)] + rest;
      steps := [Reply(0, {0}, 0)] + tail;
      assert tail[1..] == rest && steps[1..] == tail;
      assert IsRun(t, tail) && !Carried(t, tail, 0, 1);
    }
  }

  lemma FirstSent(max: nat, depth: nat, n: nat)
    requires max > 0 && depth > 0 && 2 <= n <= max
    ensures Enabled(Init(max, depth), Push(n, 0)) && Enabled(Next(Init(max, depth), Push(n, 0)), Send)
    ensures Repeated(Next(Next(Init(max, depth), Push(n, 0)), Send), n, 0)
  {
    hide Sound, Enabled, Next, Init, Shape, Uncompleted, Range;
    FirstIo(max, depth, n);
    var s := Next(Init(max, depth), Push(n, 0));
    BigIo(max, depth, n);
    SendNext(s, n, 0);
    CountsOn(n, max);
    assert s.free[0] == 0;
    SoundShape(Next(s, Send));
  }

  /** The I/O is called back as good although its second LBA was never answered. */
  lemma Unread(max: nat, depth: nat, n: nat) returns (steps: seq<Step>)
    requires max > 0 && depth > 0 && 2 <= n <= max
    ensures BeginsWith(max, depth, n, steps) && !Carried(Init(max, depth), steps, 0, 1)
    ensures var s := After(Init(max, depth), steps); s.callbacks == [0] && s.statuses == [0]
  {
    hide Enabled, Next, Repeated, Init;
    FirstSent(max, depth, n);
    var s0 := Init(max, depth);
    var s1 := Next(s0, Push(n, 0));
    var rest := AnswerAgain(Next(s1, Send), n, 0);
    var tail := [Send] + rest;
    steps := [Push(n, 0)] + tail;
    assert tail[1..] == rest && steps[1..] == tail;
    assert IsRun(s1, tail) && !Carried(s1, tail, 0, 1);
  }

  /** In every run whatever, a read called back as good has all its data if and only if it is one LBA at most. */
  lemma ReadsRightIff(max: nat, depth: nat, n: nat)
    requires max > 0 && depth > 0
    ensures ReadsRight(max, depth, n, false) <==> n <= 1
  {
    hide IsRun, After, Init, CleanRun, CleanRunFor, FirstRead, Carried, OkPushed, Plain;
    if n <= 1 {
      forall steps: seq<Step>, content: Buffers, bs: seq<Buffers>
        | BeginsWith(max, depth, n, steps) && Plays(Init(max, depth), steps, content, bs)
        ensures FirstRead(After(Init(max, depth), steps), n, content, bs[|steps|])
      {
        OneLbaClean(max, depth, n, steps);
        GoodRead(max, depth, n, steps, content, bs);
      }
    } else if n > max {
      var steps := StatusLost(max, depth, n);
      NotRead(max, depth, n, steps, 0, false);
    } else {
      var steps := Unread(max, depth, n);
      NotRead(max, depth, n, steps, 1, false);
    }
  }

  lemma OneLbaClean(max: nat, depth: nat, n: nat, steps: seq<Step>)
    requires max > 0 && n <= 1 && BeginsWith(max, depth, n, steps)
    ensures CleanRunFor(Init(max, depth), steps, 0)
  {
    hide IsRun, After, CleanRunFor, Sound, IoHeard;
    FirstSize(max, depth, n, steps);
    InitSound(max, depth);
    InitHeard(max, depth, 0);
    SmallRunIsClean(Init(max, depth), steps, 0);
  }

  // Reads none of whose replies had an error.

  ghost predicate ReadBack(s: State, content: Buffers, b: Buffers) {
    forall i: nat, l: nat ::
      i in s.callbacks && i !in s.failed && i < |s.sizes| && l < s.sizes[i] ==> b(i, l) == content(i, l)
  }

  /** They have all their data, however large, in every run that sends nothing again that was answered in part. */
  lemma CleanReads(max: nat, depth: nat, steps: seq<Step>, content: Buffers, bs: seq<Buffers>)
    requires max > 0 && IsRun(Init(max, depth), steps) && CleanRun(Init(max, depth), steps)
    requires Plays(Init(max, depth), steps, content, bs)
    ensures |bs| == |steps| + 1 && ReadBack(After(Init(max, depth), steps), content, bs[|steps|])
  {
    hide IsRun, After, CleanRun, CleanRunFor, Plays, Init;
    OneBufferMore(max, depth, steps, content, bs);
    var s := After(Init(max, depth), steps);
    forall i: nat, l: nat | i in s.callbacks && i !in s.failed && i < |s.sizes| && l < s.sizes[i]
      ensures bs[|steps|](i, l) == content(i, l)
    {
      CleanForAll(Init(max, depth), steps, i);
      FaultlessRead(max, depth, steps, i, content, bs, l);
    }
  }

  lemma OneBufferMore(max: nat, depth: nat, steps: seq<Step>, content: Buffers, bs: seq<Buffers>)
    requires IsRun(Init(max, depth), steps) && Plays(Init(max, depth), steps, content, bs)
    ensures |bs| == |steps| + 1
  {
  }

  ghost predicate AllReadsRight(max: nat, depth: nat) {
    forall steps: seq<Step>, content: Buffers, bs: seq<Buffers> ::
      IsRun(Init(max, depth), steps) && Plays(Init(max, depth), steps, content, bs)
      ==> ReadBack(After(Init(max, depth), steps), content, bs[|steps|])
  }

  /** And in every run whatever if and only if rge_io_max_lbas is one. */
  lemma AllReadsRightIff(max: nat, depth: nat)
    requires max > 0 && depth > 0
    ensures AllReadsRight(max, depth) <==> max == 1
  {
    hide IsRun, After, Init, ReadBack, FinishedAnswered, AllAsserted, CleanRun;
    if max == 1 {
      forall steps: seq<Step>, content: Buffers, bs: seq<Buffers>
        | IsRun(Init(max, depth), steps) && Plays(Init(max, depth), steps, content, bs)
        ensures ReadBack(After(Init(max, depth), steps), content, bs[|steps|])
      {
        OneLbaRuns(max, depth, steps);
        CleanReads(max, depth, steps, content, bs);
      }
    } else {
      NotReadBack(max, depth);
    }
  }

  lemma OneLbaRuns(max: nat, depth: nat, steps: seq<Step>)
    requires max == 1 && IsRun(Init(max, depth), steps)
    ensures CleanRun(Init(max, depth), steps)
  {
    hide IsRun, CleanRun, Init;
    InitUnanswered(max, depth);
    OneLbaRunsAreClean(Init(max, depth), steps);
  }

  lemma NotReadBack(max: nat, depth: nat)
    requires max >= 2 && depth > 0
    ensures !AllReadsRight(max, depth)
  {
    hide IsRun, After, Plays, Init, FinishedAnswered, AllAsserted, Ones, Zeros, Carried;
    var steps := HalfAnswered(max, depth);
    CarriedAnswered(Init(max, depth), steps, 0, 1);
    var bs := Played(Init(max, depth), steps, Ones(), Zeros());
    OneBufferMore(max, depth, steps, Ones(), bs);
    OnesAndZeros(1);
    assert bs[|steps|](0, 1) == Zeros()(0, 1);
  }
}
