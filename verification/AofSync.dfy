/**
  The writes of PfAof::sync as they overlap (common/src/pf_aof.cpp). At most AOF_IODEPTH
  data writes are in flight; a counting semaphore, which every completion posts, holds the
  next one back. Draining the semaphore by as many waits as its depth, and nothing else,
  keeps the head from being written while data is still on its way.
 */
module AofSync {
  import opened Machine
  import opened AofFormat
  import opened AofCrash
  import History = AofHistory

  datatype Head = NotIssued | InFlight | Written | Failed | Refused

  /**
    `tokens` is the value of the semaphore, `waits` how many of the waits that drain it have
    returned, out of `drain`. `issued` data writes of the plan have been submitted; those
    that have not finished are in `inflight`, the others in `done`, in the order in which
    they finished, or in `failed`. `rc` is where io_cbk puts the status of a write. A write
    that is not even accepted ends the loop, and the token it took is lost: `lost` counts them.
   */
  datatype State = State(depth: nat, drain: nat, plan: seq<Write>, headWrite: Write, volume: seq<octet>,
                         issued: nat, inflight: multiset<Write>, done: seq<Write>, failed: multiset<Write>,
                         rc: int, tokens: nat, lost: nat, waits: nat, head: Head, returned: bool)

  datatype Step =
    | Issue
    | Refuse
    | Progress(volume: seq<octet>)
    | Complete(w: Write)
    | Fail(w: Write, status: int)
    | Wait
    | IssueHead
    | RefuseHead
    | CompleteHead
    | FailHead(status: int)
    | Return

  function Begin(depth: nat, drain: nat, plan: seq<Write>, headWrite: Write, v: seq<octet>): State {
    State(depth, drain, plan, headWrite, v, 0, multiset{}, [], multiset{}, 0, depth, 0, 0, NotIssued, false)
  }

  /** What io_cbk leaves in rc. */
  function IoCbk(rc: int, status: int): int {
    if rc != 0 then status else rc
  }

  /** A byte that a write puts at `x`. */
  ghost predicate Puts(w: Write, x: nat, b: octet) {
    w.off <= x < w.off + |w.bytes| && w.bytes[x - w.off] == b
  }

  ghost predicate OnItsWay(inflight: multiset<Write>, x: nat, b: octet) {
    exists w :: w in inflight && Puts(w, x, b)
  }

  /** `v'` is `v` with some bytes of writes in flight. */
  ghost predicate Between(v: seq<octet>, v': seq<octet>, inflight: multiset<Write>) {
    |v'| == |v| && forall x :: 0 <= x < |v| ==> v'[x] == v[x] || OnItsWay(inflight, x, v'[x])
  }

  /** The loop over the data has ended, or was left. */
  predicate LoopDone(s: State) {
    s.issued == |s.plan| || s.lost > 0
  }

  /** A write in flight reaches the volume byte by byte, in any order, and finishes at any time. */
  ghost predicate Enabled(s: State, step: Step) {
    match step
    case Issue => s.issued < |s.plan| && s.lost == 0 && s.tokens > 0 && s.rc == 0
    case Refuse => s.issued < |s.plan| && s.lost == 0 && s.tokens > 0 && s.rc == 0
    case Progress(v) => Between(s.volume, v, s.inflight)
    case Complete(w) => w in s.inflight && w.off + |w.bytes| <= |s.volume|
    case Fail(w, status) => w in s.inflight && status != 0
    case Wait => LoopDone(s) && s.waits < s.drain && s.tokens > 0
    case IssueHead => LoopDone(s) && s.waits == s.drain && s.head == NotIssued
    case RefuseHead => LoopDone(s) && s.waits == s.drain && s.head == NotIssued
    case CompleteHead => s.head == InFlight && s.headWrite.off + |s.headWrite.bytes| <= |s.volume|
    case FailHead(status) => s.head == InFlight && status != 0
    case Return => s.head != NotIssued && s.head != InFlight && s.tokens > 0 && !s.returned
  }

  ghost function Next(s: State, step: Step): State
    requires Enabled(s, step)
  {
    match step
    case Issue =>
      s.(issued := s.issued + 1, inflight := s.inflight + multiset{s.plan[s.issued]}, tokens := s.tokens - 1)
    case Refuse => s.(lost := s.lost + 1, tokens := s.tokens - 1)
    case Progress(v) => s.(volume := v)
    case Complete(w) =>
      s.(volume := Apply(s.volume, w), inflight := s.inflight - multiset{w}, done := s.done + [w],
         rc := IoCbk(s.rc, 0), tokens := s.tokens + 1)
    case Fail(w, status) =>
      s.(inflight := s.inflight - multiset{w}, failed := s.failed + multiset{w}, rc := IoCbk(s.rc, status),
         tokens := s.tokens + 1)
    case Wait => s.(waits := s.waits + 1, tokens := s.tokens - 1)
    case IssueHead => s.(head := InFlight)
    case RefuseHead => s.(head := Refused)
    case CompleteHead => s.(volume := Apply(s.volume, s.headWrite), head := Written, tokens := s.tokens + 1)
    case FailHead(status) => s.(head := Failed, rc := IoCbk(s.rc, status), tokens := s.tokens + 1)
    case Return => s.(returned := true, tokens := s.tokens - 1)
  }

  ghost predicate IsRun(s: State, steps: seq<Step>)
    decreases |steps|
  {
    steps == [] || (Enabled(s, steps[0]) && IsRun(Next(s, steps[0]), steps[1..]))
  }

  ghost function After(s: State, steps: seq<Step>): State
    requires IsRun(s, steps)
    decreases |steps|
  {
    if steps == [] then s else After(Next(s, steps[0]), steps[1..])
  }

  /** Every write issued has finished, failed, or is in flight. */
  ghost predicate Accounted(plan: seq<Write>, issued: nat, done: seq<Write>, inflight: multiset<Write>,
                            failed: multiset<Write>)
  {
    issued <= |plan| && multiset(done) + inflight + failed == multiset(plan[..issued])
  }

  /** Tokens, writes in flight, waits taken and tokens lost make up the depth of the semaphore; rc never changes. */
  ghost predicate Counted(s: State) {
    && s.issued <= |s.plan| && s.waits <= s.drain
    && s.tokens + |s.inflight| + s.waits + s.lost
       == s.depth + (if s.head == Written || s.head == Failed then 1 else 0) - (if s.returned then 1 else 0)
    && Accounted(s.plan, s.issued, s.done, s.inflight, s.failed) && s.rc == 0
    && (s.waits > 0 || s.head != NotIssued ==> LoopDone(s)) && (s.head != NotIssued ==> s.waits == s.drain)
    && (s.returned ==> s.head != NotIssued && s.head != InFlight)
  }

  /** No data write is in flight, and none was lost, once it is the turn of the head. */
  ghost predicate Quiet(s: State) {
    s.head != NotIssued ==> s.inflight == multiset{} && s.lost == 0
  }

  lemma StepCounted(s: State, step: Step)
    requires Counted(s) && Enabled(s, step)
    ensures Counted(Next(s, step))
  {
    hide Between, Apply, Accounted;
    match step
    case Issue => AccountIssue(s.plan, s.issued, s.done, s.inflight, s.failed);
    case Complete(w) => FinishCounted(s, step, w);
    case Fail(w, _) => FinishCounted(s, step, w);
    case _ =>
  }

  lemma FinishCounted(s: State, step: Step, w: Write)
    requires Counted(s) && Enabled(s, step) && (step == Complete(w) || (step.Fail? && step.w == w))
    ensures Counted(Next(s, step))
  {
    hide Between, Apply, Accounted;
    if step.Complete? {
      AccountComplete(s.plan, s.issued, s.done, s.inflight, s.failed, w);
    } else {
      AccountFail(s.plan, s.issued, s.done, s.inflight, s.failed, w);
    }
  }

  lemma AccountIssue(plan: seq<Write>, issued: nat, done: seq<Write>, inflight: multiset<Write>,
                     failed: multiset<Write>)
    requires Accounted(plan, issued, done, inflight, failed) && issued < |plan|
    ensures Accounted(plan, issued + 1, done, inflight + multiset{plan[issued]}, failed)
  {
    assert plan[..issued + 1] == plan[..issued] + [plan[issued]];
  }

  lemma AccountComplete(plan: seq<Write>, issued: nat, done: seq<Write>, inflight: multiset<Write>,
                        failed: multiset<Write>, w: Write)
    requires Accounted(plan, issued, done, inflight, failed) && w in inflight
    ensures Accounted(plan, issued, done + [w], inflight - multiset{w}, failed)
  {
  }

  lemma AccountFail(plan: seq<Write>, issued: nat, done: seq<Write>, inflight: multiset<Write>,
                    failed: multiset<Write>, w: Write)
    requires Accounted(plan, issued, done, inflight, failed) && w in inflight
    ensures Accounted(plan, issued, done, inflight - multiset{w}, failed + multiset{w})
  {
  }

  lemma StepQuiet(s: State, step: Step)
    requires Counted(s) && Quiet(s) && s.drain == s.depth && Enabled(s, step)
    ensures Quiet(Next(s, step))
  {
  }

  /** What the volume holds: the finished writes, and here and there bytes of those in flight or failed. */
  ghost predicate Settled(s: State, v0: seq<octet>) {
    && Fit(v0, s.plan) && Fit(v0, s.done) && |s.volume| == |v0|
    && s.headWrite.off + |s.headWrite.bytes| <= |v0|
    && if s.head == Written then Between(Apply(ApplyAll(v0, s.done), s.headWrite), s.volume, s.failed)
       else Between(ApplyAll(v0, s.done), s.volume, s.inflight + s.failed)
  }

  ghost predicate Sound(s: State, v0: seq<octet>) {
    Counted(s) && Quiet(s) && s.drain == s.depth && Settled(s, v0)
  }

  /** A write in flight, or one that failed, is one of the plan. */
  lemma Planned(s: State, w: Write)
    requires Counted(s) && w in s.inflight + s.failed
    ensures w in s.plan
  {
    assert w in multiset(s.plan[..s.issued]);
    assert w in s.plan[..s.issued];
  }

  lemma DonePlanned(s: State, w: Write)
    requires Counted(s) && w in s.done
    ensures w in s.plan
  {
    assert w in multiset(s.done);
    assert w in multiset(s.plan[..s.issued]);
    assert w in s.plan[..s.issued];
  }

  /** Finishing a write turns its bytes, some of which may have been there already, into all of them. */
  lemma FinishBetween(v: seq<octet>, v': seq<octet>, inflight: multiset<Write>, w: Write)
    requires Between(v, v', inflight) && w in inflight && w.off + |w.bytes| <= |v|
    ensures Between(Apply(v, w), Apply(v', w), inflight - multiset{w})
  {
    var a, b, rest := Apply(v, w), Apply(v', w), inflight - multiset{w};
    forall x | 0 <= x < |a|
      ensures b[x] == a[x] || OnItsWay(rest, x, b[x])
    {
      if !(w.off <= x < w.off + |w.bytes|) && v'[x] != v[x] {
        var u :| u in inflight && Puts(u, x, v'[x]);
        assert u != w && u in rest;
      }
    }
  }

  /** Progress of writes in flight, beside others. */
  lemma ProgressBetween(v: seq<octet>, v1: seq<octet>, v2: seq<octet>, inflight: multiset<Write>, all: multiset<Write>)
    requires Between(v, v1, all) && Between(v1, v2, inflight) && inflight <= all
    ensures Between(v, v2, all)
  {
    forall x | 0 <= x < |v| && v2[x] != v[x]
      ensures OnItsWay(all, x, v2[x])
    {
      if v2[x] != v1[x] {
        var u :| u in inflight && Puts(u, x, v2[x]);
        assert u in all;
      }
    }
  }

  /** Writing over both. */
  lemma OverBoth(v: seq<octet>, v': seq<octet>, some: multiset<Write>, w: Write)
    requires Between(v, v', some) && w.off + |w.bytes| <= |v|
    ensures Between(Apply(v, w), Apply(v', w), some)
  {
    var a, b := Apply(v, w), Apply(v', w);
    forall x | 0 <= x < |a| && b[x] != a[x]
      ensures OnItsWay(some, x, b[x])
    {
      assert v'[x] != v[x] && b[x] == v'[x];
    }
  }

  lemma MoreInFlight(v: seq<octet>, v': seq<octet>, inflight: multiset<Write>, w: Write)
    requires Between(v, v', inflight)
    ensures Between(v, v', inflight + multiset{w})
  {
    forall x | 0 <= x < |v| && v'[x] != v[x]
      ensures OnItsWay(inflight + multiset{w}, x, v'[x])
    {
      var u :| u in inflight && Puts(u, x, v'[x]);
      assert u in inflight + multiset{w};
    }
  }

  lemma NoneInFlight(v: seq<octet>, v': seq<octet>)
    requires Between(v, v', multiset{})
    ensures v' == v
  {
  }

  lemma CompleteSettled(s: State, v0: seq<octet>, w: Write)
    requires Sound(s, v0) && Enabled(s, Complete(w))
    ensures Settled(Next(s, Complete(w)), v0)
  {
    hide Between, ApplyAll;
    Planned(s, w);
    ApplyOneMore(v0, s.done, w);
    FinishBetween(ApplyAll(v0, s.done), s.volume, s.inflight + s.failed, w);
    assert s.inflight + s.failed - multiset{w} == s.inflight - multiset{w} + s.failed;
  }

  lemma StepSettled(s: State, v0: seq<octet>, step: Step)
    requires Sound(s, v0) && Enabled(s, step)
    ensures Settled(Next(s, step), v0)
  {
    hide Between, ApplyAll, Fit;
    var all := s.inflight + s.failed;
    match step
    case Issue =>
      var w := s.plan[s.issued];
      MoreInFlight(ApplyAll(v0, s.done), s.volume, all, w);
      assert all + multiset{w} == s.inflight + multiset{w} + s.failed;
    case Refuse =>
    case Progress(v) =>
      if s.head == Written {
        NoneInFlight(s.volume, v);
      } else {
        ProgressBetween(ApplyAll(v0, s.done), s.volume, v, s.inflight, all);
      }
    case Complete(w) => CompleteSettled(s, v0, w);
    case Fail(w, status) => assert s.inflight - multiset{w} + (s.failed + multiset{w}) == all;
    case Wait =>
    case IssueHead =>
    case RefuseHead =>
    case FailHead(status) =>
    case CompleteHead =>
      assert all == s.failed;
      OverBoth(ApplyAll(v0, s.done), s.volume, s.failed, s.headWrite);
    case Return =>
  }

  lemma StepSound(s: State, v0: seq<octet>, step: Step)
    requires Sound(s, v0) && Enabled(s, step)
    ensures Sound(Next(s, step), v0)
  {
    hide Settled, Between;
    StepCounted(s, step);
    StepQuiet(s, step);
    StepSettled(s, v0, step);
  }

  lemma BeginSound(depth: nat, plan: seq<Write>, headWrite: Write, v: seq<octet>)
    requires Fit(v, plan) && headWrite.off + |headWrite.bytes| <= |v|
    ensures Sound(Begin(depth, depth, plan, headWrite, v), v)
  {
  }

  lemma {:induction false} RunSound(s: State, v0: seq<octet>, steps: seq<Step>)
    requires Sound(s, v0) && IsRun(s, steps)
    ensures Sound(After(s, steps), v0)
    decreases |steps|
  {
    hide Sound, Enabled, Next;
    if steps != [] {
      StepSound(s, v0, steps[0]);
      RunSound(Next(s, steps[0]), v0, steps[1..]);
    }
  }

  /** The sync of an open file. */
  ghost function SyncOf(h: History.State, depth: nat, drain: nat): State
    requires History.Sound(h)
  {
    Begin(depth, drain, History.Pending(h), Write(0, WithLength(h.volume[..BLOCK], |h.file|)), h.volume)
  }

  /** Before the head is on the volume every byte is an old one or one that a planned write puts there. */
  lemma BeforeHead(s: State, v0: seq<octet>)
    requires Sound(s, v0) && s.head != Written
    ensures PartlyWritten(v0, s.volume, s.plan)
  {
    hide ApplyAll;
    forall w | w in s.done
      ensures w in s.plan
    {
      DonePlanned(s, w);
    }
    WritesArePartial(v0, s.done, s.plan, v0);
    forall x | 0 <= x < |v0|
      ensures s.volume[x] == v0[x] || WrittenBy(s.plan, x, s.volume[x])
    {
      if s.volume[x] != ApplyAll(v0, s.done)[x] {
        var w :| w in s.inflight + s.failed && Puts(w, x, s.volume[x]);
        Planned(s, w);
      }
    }
  }

  lemma AllDone(s: State)
    requires Counted(s) && Quiet(s) && s.head != NotIssued
    ensures multiset(s.done) + s.failed == multiset(s.plan)
  {
    assert s.plan[..s.issued] == s.plan;
  }

  lemma SyncBegins(h: History.State, depth: nat)
    requires History.Sound(h)
    ensures Sound(SyncOf(h, depth, depth), h.volume)
  {
    hide Plan, UpAlign, HeadOk, LengthOf, ApplyAll, WithLength;
    SyncIsComplete(h.volume, h.file, h.base, h.synced, History.Pending(h));
    BeginSound(depth, History.Pending(h), SyncOf(h, depth, depth).headWrite, h.volume);
  }

  /**
    At every moment of every sync, whatever overlaps with whatever: before the head is on the
    volume, stopping is a crash of the history, and opening finds the last synced content;
    from then on, if no write has failed, it is a completed sync, and opening finds the whole
    file. A write that failed leaves no trace in rc.
   */
  lemma EveryMoment(h: History.State, depth: nat, steps: seq<Step>)
    requires History.Sound(h) && IsRun(SyncOf(h, depth, depth), steps)
    ensures var s := After(SyncOf(h, depth, depth), steps);
            && s.rc == 0
            && (s.head != NotIssued ==>
                  s.inflight == multiset{} && multiset(s.done) + s.failed == multiset(History.Pending(h)))
            && (s.head != Written ==>
                  History.Enabled(h, History.Crash(s.volume)) && Durable(s.volume, h.file[..h.synced]))
            && (s.head == Written && s.failed == multiset{} ==>
                  && History.Enabled(h, History.Sync(s.done))
                  && s.volume == History.Next(h, History.Sync(s.done)).volume && Durable(s.volume, h.file))
  {
    hide IsRun, After, Settled, Plan, UpAlign, HeadOk, LengthOf, ApplyAll, WithLength, Durable, SyncOf;
    SyncBegins(h, depth);
    RunSound(SyncOf(h, depth, depth), h.volume, steps);
    RunKeepsPlan(SyncOf(h, depth, depth), steps);
    SyncOfPlan(h, depth);
    var s := After(SyncOf(h, depth, depth), steps);
    if s.head != NotIssued {
      AllDone(s);
    }
    if s.head != Written {
      BeforeHead(s, h.volume);
      CrashBeforeHead(h.volume, h.file, h.base, h.synced, s.volume);
    } else if s.failed == multiset{} {
      HeadWritten(h, s);
    }
  }

  lemma SyncOfPlan(h: History.State, depth: nat)
    requires History.Sound(h)
    ensures SyncOf(h, depth, depth).plan == History.Pending(h)
    ensures SyncOf(h, depth, depth).headWrite == Write(0, WithLength(h.volume[..BLOCK], |h.file|))
  {
  }

  lemma HeadWritten(h: History.State, s: State)
    requires History.Sound(h) && Sound(s, h.volume) && s.head == Written && s.failed == multiset{}
    requires s.plan == History.Pending(h) && s.headWrite == Write(0, WithLength(h.volume[..BLOCK], |h.file|))
    ensures History.Enabled(h, History.Sync(s.done))
    ensures s.volume == History.Next(h, History.Sync(s.done)).volume && Durable(s.volume, h.file)
  {
    hide Plan, UpAlign, HeadOk, LengthOf, ApplyAll, WithLength, Between;
    AllDone(s);
    SyncIsComplete(h.volume, h.file, h.base, h.synced, s.done);
    NoneInFlight(Apply(ApplyAll(h.volume, s.done), s.headWrite), s.volume);
  }

  lemma {:induction false} RunKeepsPlan(s: State, steps: seq<Step>)
    requires IsRun(s, steps)
    ensures After(s, steps).plan == s.plan && After(s, steps).headWrite == s.headWrite
    ensures After(s, steps).depth == s.depth
    decreases |steps|
  {
    if steps != [] {
      RunKeepsPlan(Next(s, steps[0]), steps[1..]);
    }
  }

  /** A submission was refused: a token that nobody posts. */
  predicate Short(s: State) {
    s.lost > 0 || s.head == Refused
  }

  /** A sync of which everything was accepted can always go on, by itself or by a write in flight finishing. */
  lemma NotStuck(s: State, v0: seq<octet>) returns (step: Step)
    requires Sound(s, v0) && s.depth > 0 && !s.returned && !Short(s)
    ensures Enabled(s, step) && !step.Progress?
  {
    hide Between, ApplyAll;
    if s.inflight != multiset{} {
      var w :| w in s.inflight;
      Planned(s, w);
      step := Complete(w);
    } else if s.issued < |s.plan| {
      step := Issue;
    } else if s.head == Written || s.head == Failed {
      step := Return;
    } else if s.head == InFlight {
      step := CompleteHead;
    } else if s.waits < s.drain {
      step := Wait;
    } else {
      step := IssueHead;
    }
  }

  /** What is left to do. */
  ghost function Left(s: State): int {
    (if s.lost > 0 then 0 else 2 * (|s.plan| - s.issued) + 1) + |s.inflight| + (s.drain - s.waits)
    + (match s.head case NotIssued => 3 case InFlight => 2 case _ => 1) - (if s.returned then 1 else 0)
  }

  /** Every step that is not mere progress leaves less, so such steps run out. */
  lemma StepLeavesLess(s: State, step: Step)
    requires Counted(s) && Enabled(s, step) && !step.Progress?
    ensures 0 <= Left(Next(s, step)) < Left(s)
  {
    hide Between, Apply, Counted;
    StepCounted(s, step);
    Bounds(s);
    Bounds(Next(s, step));
  }

  lemma Bounds(s: State)
    requires Counted(s)
    ensures s.issued <= |s.plan| && s.waits <= s.drain && (s.returned ==> s.head != NotIssued && s.head != InFlight)
  {
  }

  predicate Refuses(step: Step) {
    step.Refuse? || step.RefuseHead?
  }

  ghost predicate AllAccepted(steps: seq<Step>) {
    forall i :: 0 <= i < |steps| ==> !Refuses(steps[i])
  }

  lemma AcceptedRest(steps: seq<Step>)
    requires steps != []
    ensures AllAccepted(steps) <==> !Refuses(steps[0]) && AllAccepted(steps[1..])
  {
    if !Refuses(steps[0]) && AllAccepted(steps[1..]) {
      forall i | 0 <= i < |steps|
        ensures !Refuses(steps[i])
      {
        assert i > 0 ==> steps[i] == steps[1..][i - 1];
      }
    }
  }

  lemma StepShort(s: State, step: Step)
    requires Enabled(s, step)
    ensures Short(Next(s, step)) <==> Short(s) || Refuses(step)
  {
    hide Between, Apply;
  }

  lemma {:induction false} ShortIff(s: State, steps: seq<Step>)
    requires IsRun(s, steps)
    ensures Short(After(s, steps)) <==> Short(s) || !AllAccepted(steps)
    decreases |steps|
  {
    hide Enabled, Next, Short, AllAccepted, Refuses;
    if steps != [] {
      StepShort(s, steps[0]);
      AcceptedRest(steps);
      ShortIff(Next(s, steps[0]), steps[1..]);
    } else {
      NothingRefused();
    }
  }

  lemma NothingRefused()
    ensures AllAccepted([])
  {
  }

  /** Nothing can happen any more. */
  ghost predicate Over(s: State) {
    forall step: Step :: Enabled(s, step) ==> step.Progress?
  }

  /** A sync with a lost token never returns. */
  lemma ShortNeverReturns(s: State, v0: seq<octet>)
    requires Sound(s, v0) && Short(s)
    ensures !s.returned
  {
    hide Settled;
  }

  /** A run of a sync that goes on for as long as it can returns if and only if every submission is accepted. */
  lemma ReturnsIff(depth: nat, plan: seq<Write>, headWrite: Write, v: seq<octet>, steps: seq<Step>)
    requires depth > 0 && Fit(v, plan) && headWrite.off + |headWrite.bytes| <= |v|
    requires IsRun(Begin(depth, depth, plan, headWrite, v), steps)
    requires Over(After(Begin(depth, depth, plan, headWrite, v), steps))
    ensures After(Begin(depth, depth, plan, headWrite, v), steps).returned <==> AllAccepted(steps)
  {
    hide Settled, IsRun, After, Enabled, Begin;
    var s0 := Begin(depth, depth, plan, headWrite, v);
    BeginSound(depth, plan, headWrite, v);
    BeginWhole(depth, plan, headWrite, v);
    RunSound(s0, v, steps);
    RunKeepsPlan(s0, steps);
    ShortIff(s0, steps);
    var s := After(s0, steps);
    if Short(s) {
      ShortNeverReturns(s, v);
    } else if !s.returned {
      var step := NotStuck(s, v);
    }
  }

  /** Where it ends when a data write is refused: drained of every token but the lost one, before the head. */
  lemma StuckInDrain(depth: nat, plan: seq<Write>, headWrite: Write, v: seq<octet>, steps: seq<Step>)
    requires depth > 0 && Fit(v, plan) && headWrite.off + |headWrite.bytes| <= |v|
    requires IsRun(Begin(depth, depth, plan, headWrite, v), steps)
    requires Over(After(Begin(depth, depth, plan, headWrite, v), steps))
    requires After(Begin(depth, depth, plan, headWrite, v), steps).lost > 0
    ensures var s := After(Begin(depth, depth, plan, headWrite, v), steps);
            s.tokens == 0 && s.inflight == multiset{} && s.head == NotIssued && s.waits + s.lost == depth
  {
    hide IsRun, After, Begin;
    var s0 := Begin(depth, depth, plan, headWrite, v);
    BeginSound(depth, plan, headWrite, v);
    BeginWhole(depth, plan, headWrite, v);
    RunSound(s0, v, steps);
    RunKeepsPlan(s0, steps);
    DrainsOut(After(s0, steps), v);
  }

  lemma DrainsOut(s: State, v0: seq<octet>)
    requires Sound(s, v0) && s.lost > 0 && Over(s)
    ensures s.tokens == 0 && s.inflight == multiset{} && s.head == NotIssued && s.waits + s.lost == s.depth
  {
    hide Between, ApplyAll;
    if s.inflight != multiset{} {
      var w :| w in s.inflight;
      assert !Enabled(s, Complete(w));
      Planned(s, w);
    }
    assert !Enabled(s, Wait);
  }

  lemma BeginWhole(depth: nat, plan: seq<Write>, headWrite: Write, v: seq<octet>)
    ensures var s := Begin(depth, depth, plan, headWrite, v); !Short(s) && s.depth == depth
  {
  }

  // One wait less, and the head can overtake the data.

  ghost predicate AlwaysQuiet(s: State) {
    forall steps: seq<Step> :: IsRun(s, steps) ==> Quiet(After(s, steps))
  }

  lemma RunOn(s: State, step: Step, rest: seq<Step>)
    requires Enabled(s, step) && IsRun(Next(s, step), rest)
    ensures IsRun(s, [step] + rest) && After(s, [step] + rest) == After(Next(s, step), rest)
  {
    hide Enabled, Next;
    var steps := [step] + rest;
    assert steps[0] == step && steps[1..] == rest;
  }

  /** All data issued, one write still in flight, and enough tokens for the waits that are left. */
  lemma {:induction false} HeadOvertakes(s: State) returns (steps: seq<Step>)
    requires s.issued == |s.plan| && s.inflight != multiset{} && s.head == NotIssued
    requires s.waits <= s.drain && s.tokens >= s.drain - s.waits
    ensures IsRun(s, steps) && !Quiet(After(s, steps))
    decreases s.drain - s.waits
  {
    if s.waits == s.drain {
      RunOn(s, IssueHead, []);
      steps := [IssueHead] + [];
    } else {
      steps := HeadOvertakes(Next(s, Wait));
      RunOn(s, Wait, steps);
      steps := [Wait] + steps;
    }
  }

  /** Every write but the last finishes at once. */
  lemma {:induction false} LastOneLate(s: State) returns (steps: seq<Step>)
    requires s.issued < |s.plan| && s.inflight == multiset{} && s.head == NotIssued && Fit(s.volume, s.plan)
    requires s.waits == 0 && s.tokens == s.depth > s.drain && s.rc == 0 && s.lost == 0
    ensures IsRun(s, steps) && !Quiet(After(s, steps))
    decreases |s.plan| - s.issued
  {
    var w, s1 := s.plan[s.issued], Next(s, Issue);
    assert w in s1.inflight && w in s.plan;
    if s1.issued == |s.plan| {
      steps := HeadOvertakes(s1);
    } else {
      var s2 := Next(s1, Complete(w));
      assert s2.inflight == multiset{};
      steps := LastOneLate(s2);
      RunOn(s1, Complete(w), steps);
      steps := [Complete(w)] + steps;
    }
    RunOn(s, Issue, steps);
    steps := [Issue] + steps;
  }

  /**
    With anything to write, the head waits for the data in every run if and only if the
    semaphore is drained by as many waits as it is deep.
   */
  lemma DrainIff(depth: nat, drain: nat, plan: seq<Write>, headWrite: Write, v: seq<octet>)
    requires plan != [] && Fit(v, plan) && headWrite.off + |headWrite.bytes| <= |v| && drain <= depth
    ensures AlwaysQuiet(Begin(depth, drain, plan, headWrite, v)) <==> drain == depth
  {
    var s := Begin(depth, drain, plan, headWrite, v);
    if drain == depth {
      BeginSound(depth, plan, headWrite, v);
      forall steps: seq<Step> | IsRun(s, steps)
        ensures Quiet(After(s, steps))
      {
        RunSound(s, v, steps);
      }
    } else {
      var steps := LastOneLate(s);
    }
  }
}
