/**
  The conflict scheduler of one 4 MiB block (process_task, dispatch_task and the block
  part of recv_session_aio_reply in S5bd/src/s5imagectx.c) as a state machine. Each
  section under node_mtx is one step.
 */
module SchedulerProtocol {

  const SLOT_SIZE: nat := 1024

  /** The LBAs of a request inside its block. */
  datatype Req = Req(off: nat, n: nat)

  predicate InBlock(r: Req) { r.n > 0 && r.off + r.n <= SLOT_SIZE }

  /** What bitarray_set and bitarray_reset assert about the request that they are called for. */
  predicate BitsAsserted(r: Req) { r.off < SLOT_SIZE && 0 < r.n <= SLOT_SIZE }

  predicate Covers(r: Req, b: nat) { r.off <= b < r.off + r.n }

  function Range(r: Req): set<nat> {
    set b | 0 <= b < SLOT_SIZE && Covers(r, b)
  }

  predicate Overlap(a: Req, b: Req) {
    a.off < b.off + b.n && b.off < a.off + a.n
  }

  datatype Flag = NODE_IDLE | NODE_BLOCKED | NODE_UNBLOCKED

  /**
    The fields of a block node, with its history: every request ever submitted, in lock
    order, how many of them have been sent, and which of those still wait for a reply.
    Requests are named by their place in `submitted`.
   */
  datatype Node = Node(flag: Flag, runningNum: nat, queue: seq<Req>, bits: set<nat>,
                       submitted: seq<Req>, sent: nat, running: set<nat>)

  const FRESH: Node := Node(NODE_IDLE, 0, [], {}, [], 0, {})

  /** bitarray_set succeeds. */
  predicate Free(s: Node, r: Req) {
    Range(r) !! s.bits
  }

  /** A request takes its bits, counts as running and is sent. */
  function Start(s: Node, r: Req): Node {
    s.(flag := NODE_UNBLOCKED, runningNum := s.runningNum + 1, bits := s.bits + Range(r),
       sent := s.sent + 1, running := s.running + {s.sent})
  }

  function Queued(s: Node, r: Req): Node {
    s.(flag := NODE_BLOCKED, queue := s.queue + [r])
  }

  /** process_task: in an idle node the bits are taken without looking at the answer. */
  function Submit(s: Node, r: Req): Node {
    var t := Extended(s, r);
    match s.flag
    case NODE_UNBLOCKED => if Free(s, r) then Start(t, r) else Queued(t, r)
    case NODE_BLOCKED => Queued(t, r)
    case NODE_IDLE => Start(t, r)
  }

  /** The loop of dispatch_task: send from the head of the queue until one does not fit. */
  function SendReady(s: Node): Node
    decreases |s.queue|
  {
    if s.queue == [] then s
    else if Free(s, s.queue[0]) then SendReady(Start(s.(queue := s.queue[1..]), s.queue[0]))
    else s.(flag := NODE_BLOCKED)
  }

  function Dispatch(s: Node): Node {
    if s.queue == [] then s.(flag := NODE_IDLE) else SendReady(s)
  }

  /** The reply to running request `i`: give its bits back, and dispatch when nothing runs any more. */
  function Reply(s: Node, i: nat): Node
    requires i < |s.submitted| && s.runningNum > 0
  {
    var t := s.(bits := s.bits - Range(s.submitted[i]), runningNum := s.runningNum - 1, running := s.running - {i});
    if t.runningNum == 0 then Dispatch(t) else t
  }

  datatype Step = Submitted(r: Req) | Replied(i: nat)

  predicate Enabled(s: Node, step: Step) {
    match step
    case Submitted(r) => InBlock(r)
    case Replied(i) => i in s.running && i < |s.submitted| && s.runningNum > 0
  }

  function Next(s: Node, step: Step): Node
    requires Enabled(s, step)
  {
    match step
    case Submitted(r) => Submit(s, r)
    case Replied(i) => Reply(s, i)
  }

  ghost predicate IsRun(s: Node, steps: seq<Step>, s': Node)
    decreases |steps|
  {
    if steps == [] then s == s' else Enabled(s, steps[0]) && IsRun(Next(s, steps[0]), steps[1..], s')
  }

  ghost predicate Reachable(s: Node) {
    exists steps: seq<Step> :: IsRun(FRESH, steps, s)
  }

  /** The bit array and the counter describe the running requests, which do not overlap. */
  ghost predicate Exclusive(s: Node) {
    && (forall i :: i in s.running ==> i < s.sent <= |s.submitted|)
    && s.runningNum == |s.running|
    && (forall i, j :: i in s.running && j in s.running && i != j ==> !Overlap(s.submitted[i], s.submitted[j]))
    && (forall b :: b in s.bits <==> exists i :: i in s.running && b in Range(s.submitted[i]))
  }

  /** A later request is only sent once every earlier one it overlaps has been answered. */
  ghost predicate Serialised(s: Node) {
    s.sent <= |s.submitted| &&
    forall i, j :: 0 <= i < j < s.sent && Overlap(s.submitted[i], s.submitted[j]) ==> i !in s.running
  }

  /** Requests are sent in the order of submission: what is not sent yet is the queue. */
  ghost predicate InOrder(s: Node) {
    s.sent <= |s.submitted| && s.queue == s.submitted[s.sent..]
  }

  /** The flag follows from the queue and the running set. */
  ghost predicate FlagFits(s: Node) {
    match s.flag
    case NODE_IDLE => s.running == {} && s.queue == []
    case NODE_UNBLOCKED => s.running != {} && s.queue == []
    case NODE_BLOCKED => s.running != {} && s.queue != []
  }

  ghost predicate AllInBlock(s: Node) {
    forall r :: r in s.submitted ==> InBlock(r)
  }

  ghost predicate Sound(s: Node) {
    AllInBlock(s) && Exclusive(s) && Serialised(s) && InOrder(s) && FlagFits(s)
  }

  lemma OverlapIsShared(a: Req, b: Req)
    requires InBlock(a) && InBlock(b)
    ensures Range(a) !! Range(b) <==> !Overlap(a, b)
  {
    if Overlap(a, b) {
      var c := if a.off < b.off then b.off else a.off;
      assert Covers(a, c) && Covers(b, c);
      assert c in Range(a) && c in Range(b);
    }
  }

  /** A request that fits the bit array overlaps no running request. */
  lemma FreeIsApart(s: Node, r: Req, i: nat)
    requires Exclusive(s) && AllInBlock(s) && InBlock(r) && Free(s, r) && i in s.running
    ensures !Overlap(s.submitted[i], r)
  {
    OverlapIsShared(s.submitted[i], r);
    assert forall b :: b in Range(s.submitted[i]) ==> b in s.bits;
  }

  /** The bit array refuses a request only for a running one it overlaps. */
  lemma FreeIffApart(s: Node, r: Req)
    requires Exclusive(s) && AllInBlock(s) && InBlock(r)
    ensures Free(s, r) <==> forall i :: i in s.running ==> !Overlap(s.submitted[i], r)
  {
    if Free(s, r) {
      forall i | i in s.running
        ensures !Overlap(s.submitted[i], r)
      {
        FreeIsApart(s, r, i);
      }
    } else {
      var b :| b in Range(r) && b in s.bits;
      var i :| i in s.running && b in Range(s.submitted[i]);
      assert s.submitted[i] in s.submitted;
      OverlapIsShared(s.submitted[i], r);
    }
  }

  lemma StartKeepsExclusive(s: Node, r: Req)
    requires Exclusive(s) && AllInBlock(s)
    requires s.sent < |s.submitted| && s.submitted[s.sent] == r && Free(s, r)
    ensures Exclusive(Start(s, r))
  {
    var t := Start(s, r);
    assert r in s.submitted;
    forall i | i in s.running
      ensures !Overlap(s.submitted[i], r)
    {
      FreeIsApart(s, r, i);
    }
    forall b
      ensures b in t.bits <==> exists i :: i in t.running && b in Range(t.submitted[i])
    {
      if b in Range(r) {
        assert s.sent in t.running && b in Range(t.submitted[s.sent]);
      }
      if b in s.bits {
        var i :| i in s.running && b in Range(s.submitted[i]);
        assert i in t.running;
      }
    }
  }

  lemma StartKeepsSerialised(s: Node, r: Req)
    requires Exclusive(s) && AllInBlock(s) && Serialised(s)
    requires s.sent < |s.submitted| && s.submitted[s.sent] == r && Free(s, r)
    ensures Serialised(Start(s, r))
  {
    var t := Start(s, r);
    assert r in s.submitted;
    forall i, j | 0 <= i < j < t.sent && Overlap(t.submitted[i], t.submitted[j])
      ensures i !in t.running
    {
      if j == s.sent && i in s.running {
        FreeIsApart(s, r, i);
      }
    }
  }

  /** Sending the head of the queue keeps everything but the flag, which says "unblocked". */
  lemma StartHead(s: Node)
    requires AllInBlock(s) && Exclusive(s) && Serialised(s) && InOrder(s)
    requires s.queue != [] && Free(s, s.queue[0])
    ensures var t := Start(s.(queue := s.queue[1..]), s.queue[0]);
            AllInBlock(t) && Exclusive(t) && Serialised(t) && InOrder(t) && t.running != {} && t.flag == NODE_UNBLOCKED
  {
    var u := s.(queue := s.queue[1..]);
    assert s.queue[0] == s.submitted[s.sent];
    assert Exclusive(u) && Serialised(u);
    StartKeepsExclusive(u, s.queue[0]);
    StartKeepsSerialised(u, s.queue[0]);
    assert s.submitted[s.sent..][1..] == s.submitted[s.sent + 1..];
    assert s.sent in Start(u, s.queue[0]).running;
  }

  lemma {:induction false} SendReadySound(s: Node)
    requires AllInBlock(s) && Exclusive(s) && Serialised(s) && InOrder(s)
    requires s.running != {} && s.flag == NODE_UNBLOCKED
    ensures Sound(SendReady(s))
    ensures SendReady(s).submitted == s.submitted && s.sent <= SendReady(s).sent
    ensures s.running <= SendReady(s).running
    decreases |s.queue|
  {
    if s.queue != [] && Free(s, s.queue[0]) {
      StartHead(s);
      SendReadySound(Start(s.(queue := s.queue[1..]), s.queue[0]));
    }
  }

  /** The loop of dispatch_task only stops at a request that does not fit. */
  lemma {:induction false} SendReadyStops(s: Node)
    ensures var t := SendReady(s); t.queue != [] ==> !Free(t, t.queue[0])
    decreases |s.queue|
  {
    if s.queue != [] && Free(s, s.queue[0]) {
      SendReadyStops(Start(s.(queue := s.queue[1..]), s.queue[0]));
    }
  }

  /** With nothing running no bit is set, so the head of the queue always fits. */
  lemma NothingRunningIsFree(s: Node, r: Req)
    requires Exclusive(s) && s.running == {}
    ensures s.bits == {} && Free(s, r)
  {
  }

  lemma DispatchSound(s: Node)
    requires AllInBlock(s) && Exclusive(s) && Serialised(s) && InOrder(s) && s.running == {}
    ensures Sound(Dispatch(s))
    ensures Dispatch(s).submitted == s.submitted && s.sent <= Dispatch(s).sent
    ensures s.queue != [] ==> s.sent < Dispatch(s).sent && s.sent in Dispatch(s).running
  {
    if s.queue != [] {
      NothingRunningIsFree(s, s.queue[0]);
      StartHead(s);
      var t := Start(s.(queue := s.queue[1..]), s.queue[0]);
      SendReadySound(t);
      assert s.sent in t.running;
    }
  }

  function Extended(s: Node, r: Req): Node {
    s.(submitted := s.submitted + [r])
  }

  lemma ExtendKeeps(s: Node, r: Req)
    requires AllInBlock(s) && Exclusive(s) && Serialised(s) && InBlock(r)
    ensures var t := Extended(s, r); AllInBlock(t) && Exclusive(t) && Serialised(t)
  {
    var t := Extended(s, r);
    forall b
      ensures b in t.bits <==> exists i :: i in t.running && b in Range(t.submitted[i])
    {
      if b in t.bits {
        var i :| i in s.running && b in Range(s.submitted[i]);
        assert b in Range(t.submitted[i]);
      }
    }
  }

  lemma SubmitSound(s: Node, r: Req)
    requires Sound(s) && InBlock(r)
    ensures Sound(Submit(s, r))
  {
    hide Exclusive, Serialised, AllInBlock;
    var t := Extended(s, r);
    ExtendKeeps(s, r);
    if s.flag == NODE_IDLE {
      NothingRunningIsFree(s, r);
    }
    if s.flag == NODE_IDLE || (s.flag == NODE_UNBLOCKED && Free(s, r)) {
      assert t.submitted[s.sent] == r by { assert s.submitted[s.sent..] == []; }
      SoundStart(t, r);
    } else {
      assert t.submitted[s.sent..] == s.queue + [r];
      SameCore(t, Queued(t, r));
    }
  }

  lemma SoundStart(t: Node, r: Req)
    requires AllInBlock(t) && Exclusive(t) && Serialised(t)
    requires t.sent + 1 == |t.submitted| && t.submitted[t.sent] == r && t.queue == [] && Free(t, r)
    ensures Sound(Start(t, r))
  {
    StartKeepsExclusive(t, r);
    StartKeepsSerialised(t, r);
    assert t.sent in Start(t, r).running;
  }

  /** The invariants on history and bits do not mention the flag or the queue. */
  lemma SameCore(s: Node, t: Node)
    requires t == s.(flag := t.flag, queue := t.queue)
    requires AllInBlock(s) && Exclusive(s) && Serialised(s)
    ensures AllInBlock(t) && Exclusive(t) && Serialised(t)
  {
  }

  /** The state just after a reply gave its bits back, before any dispatch. */
  function Released(s: Node, i: nat): Node
    requires i < |s.submitted| && s.runningNum > 0
  {
    s.(bits := s.bits - Range(s.submitted[i]), runningNum := s.runningNum - 1, running := s.running - {i})
  }

  lemma ReleaseKeepsExclusive(s: Node, i: nat)
    requires Exclusive(s) && AllInBlock(s) && i in s.running && s.runningNum > 0
    ensures Exclusive(Released(s, i))
  {
    var t := Released(s, i);
    forall b
      ensures b in t.bits <==> exists k :: k in t.running && b in Range(t.submitted[k])
    {
      if b in t.bits {
        var k :| k in s.running && b in Range(s.submitted[k]);
        assert k in t.running;
      } else if exists k :: k in t.running && b in Range(t.submitted[k]) {
        var k :| k in t.running && b in Range(t.submitted[k]);
        OverlapIsShared(s.submitted[i], s.submitted[k]);
      }
    }
  }

  lemma ReplySound(s: Node, i: nat)
    requires Sound(s) && Enabled(s, Replied(i))
    ensures Sound(Reply(s, i))
  {
    var t := Released(s, i);
    ReleaseKeepsExclusive(s, i);
    assert AllInBlock(t) && Serialised(t) && InOrder(t);
    if t.runningNum == 0 {
      DispatchSound(t);
    }
  }

  lemma StepSound(s: Node, step: Step)
    requires Sound(s) && Enabled(s, step)
    ensures Sound(Next(s, step))
  {
    match step
    case Submitted(r) => SubmitSound(s, r);
    case Replied(i) => ReplySound(s, i);
  }

  lemma {:induction false} RunSound(s: Node, steps: seq<Step>, s': Node)
    requires Sound(s) && IsRun(s, steps, s')
    ensures Sound(s')
    decreases |steps|
  {
    if steps != [] {
      StepSound(s, steps[0]);
      RunSound(Next(s, steps[0]), steps[1..], s');
    }
  }

  lemma SubmitSendsIff(s: Node, r: Req)
    requires Sound(s) && InBlock(r)
    ensures Submit(s, r).sent == s.sent + 1 <==>
              s.queue == [] && forall i :: i in s.running ==> !Overlap(s.submitted[i], r)
  {
    FreeIffApart(s, r);
  }

  lemma HeadWaits(s: Node)
    requires Sound(s) && s.queue != [] && !Free(s, s.queue[0])
    ensures exists k :: k in s.running && Overlap(s.submitted[k], s.queue[0])
  {
    assert s.queue[0] == s.submitted[s.sent];
    assert InBlock(s.queue[0]);
    FreeIffApart(s, s.queue[0]);
  }

  /**
    A reply sends what it can: while others run it sends nothing, and when it was the last one
    running, it sends from the queue up to a request that overlaps one it has just sent.
   */
  lemma ReplySends(s: Node, i: nat)
    requires Sound(s) && Enabled(s, Replied(i))
    ensures Sound(Reply(s, i))
    ensures s.running != {i} ==> Reply(s, i).queue == s.queue && Reply(s, i).running == s.running - {i}
    ensures var t := Reply(s, i);
            s.running == {i} && t.queue != [] ==> exists k :: k in t.running && Overlap(t.submitted[k], t.queue[0])
    ensures s.running == {i} && s.queue != [] ==> Reply(s, i).sent > s.sent
  {
    ReplySound(s, i);
    var u := Released(s, i);
    ReleaseKeepsExclusive(s, i);
    assert u.runningNum == |u.running|;
    assert u.running == {} <==> s.running == {i};
    var t := Reply(s, i);
    if u.running == {} {
      assert AllInBlock(u) && Serialised(u) && InOrder(u);
      DispatchSound(u);
      SendReadyStops(u);
      if t.queue != [] {
        HeadWaits(t);
      }
    }
  }

  /** Safety and order in every reachable state. */
  lemma ReachableSound(s: Node)
    requires Reachable(s)
    ensures Sound(s)
  {
    var steps: seq<Step> :| IsRun(FRESH, steps, s);
    RunSound(FRESH, steps, s);
  }

  /** A request is sent at once exactly when nothing is queued and no running request overlaps it. */
  lemma SentAtOnceIff(s: Node, r: Req)
    requires Reachable(s) && InBlock(r)
    ensures Submit(s, r).sent == s.sent + 1 <==>
              s.queue == [] && forall i :: i in s.running && i < |s.submitted| ==> !Overlap(s.submitted[i], r)
    ensures Submit(s, r).sent in {s.sent, s.sent + 1} && Submit(s, r).submitted == s.submitted + [r]
  {
    ReachableSound(s);
    SubmitSendsIff(s, r);
  }

  /** What stays queued after the last running request was answered overlaps a request sent meanwhile. */
  lemma DispatchIsMaximal(s: Node, i: nat)
    requires Reachable(s) && Enabled(s, Replied(i)) && s.running == {i} && Reply(s, i).queue != []
    ensures var t := Reply(s, i);
            exists k :: k in t.running && s.sent <= k < t.sent <= |t.submitted| &&
                        Overlap(t.submitted[k], t.queue[0]) && t.queue == t.submitted[t.sent..]
  {
    ReachableSound(s);
    ReplySends(s, i);
    NewlyRunningWereQueued(s, i);
    var t := Reply(s, i);
    var k :| k in t.running && Overlap(t.submitted[k], t.queue[0]);
  }

  /**
    Every assertion of process_task and dispatch_task, and of the bit array they use, holds: an
    unblocked node has an empty queue, an idle one accepts any request, and a node whose last
    running request is answered is unblocked if its queue is empty and blocked otherwise. The
    requests have an LBA at least; `Splitting` says when they do.
   */
  lemma AssertionsHold(s: Node, r: Req, i: nat)
    requires Reachable(s)
    ensures s.flag == NODE_UNBLOCKED ==> s.queue == []
    ensures s.flag == NODE_IDLE ==> Free(s, r)
    ensures i in s.running && s.runningNum == 1 ==> s.flag == if s.queue == [] then NODE_UNBLOCKED else NODE_BLOCKED
    ensures forall q :: q in s.submitted ==> BitsAsserted(q)
  {
    ReachableSound(s);
    if s.flag == NODE_IDLE {
      NothingRunningIsFree(s, r);
    }
  }

  /** An idle node can be thrown away: a fresh one in its place differs from it in history only. */
  lemma IdleIsFresh(s: Node)
    requires Reachable(s) && s.flag == NODE_IDLE
    ensures s == FRESH.(submitted := s.submitted, sent := |s.submitted|)
  {
    ReachableSound(s);
    NothingRunningIsFree(s, Req(0, 1));
    assert s.submitted[s.sent..] == [];
  }

  /** No two requests that overlap are ever in flight together, and the earlier one always goes first. */
  lemma OverlappingGoInTurn(s: Node, i: nat, j: nat)
    requires Reachable(s) && i < j < s.sent <= |s.submitted| && Overlap(s.submitted[i], s.submitted[j])
    ensures i !in s.running
  {
    ReachableSound(s);
  }

  /** The requests submitted before `j` that still wait for a reply or to be sent. */
  function Ahead(s: Node, j: nat): set<nat> {
    set i | 0 <= i < j && (i in s.running || i >= s.sent)
  }

  /** A queued request always has one ahead of it that is running, so replies keep coming. */
  lemma QueuedHasRunningAhead(s: Node, j: nat)
    requires Reachable(s) && s.sent <= j < |s.submitted|
    ensures exists i :: i in s.running && i in Ahead(s, j)
  {
    ReachableSound(s);
    assert s.queue != [];
    var i :| i in s.running;
    assert i in Ahead(s, j);
  }

  /** A reply shortens the wait of every queued request, or sends it; a submission never lengthens it. */
  lemma StepShortensWait(s: Node, step: Step, j: nat)
    requires Reachable(s) && Enabled(s, step) && s.sent <= j < |s.submitted|
    ensures var t := Next(s, step);
            t.sent > j || (Ahead(t, j) <= Ahead(s, j) && (step.Replied? ==> |Ahead(t, j)| < |Ahead(s, j)|))
  {
    ReachableSound(s);
    StepSound(s, step);
    match step
    case Submitted(r) => SubmitKeepsWait(s, r, j);
    case Replied(i) =>
      if Reply(s, i).sent <= j {
        StillAhead(s, i, j);
      }
  }

  lemma SubmitKeepsWait(s: Node, r: Req, j: nat)
    requires Sound(s) && s.sent <= j < |s.submitted|
    ensures Ahead(Submit(s, r), j) == Ahead(s, j)
  {
    assert s.queue != [];
  }

  lemma StillAhead(s: Node, i: nat, j: nat)
    requires Sound(s) && Enabled(s, Replied(i)) && s.sent <= j && Reply(s, i).sent <= j
    ensures Ahead(Reply(s, i), j) <= Ahead(s, j) && |Ahead(Reply(s, i), j)| < |Ahead(s, j)|
  {
    var t := Reply(s, i);
    NewlyRunningWereQueued(s, i);
    assert Ahead(t, j) <= Ahead(s, j) - {i};
    assert i in Ahead(s, j);
    SubsetSize(Ahead(t, j), Ahead(s, j) - {i});
  }

  lemma NewlyRunningWereQueued(s: Node, i: nat)
    requires Sound(s) && Enabled(s, Replied(i))
    ensures var t := Reply(s, i);
            t.sent >= s.sent && i !in t.running && forall k :: k in t.running ==> k in s.running || k >= s.sent
  {
    var u := Released(s, i);
    if u.runningNum == 0 && u.queue != [] {
      SendReadyRunsQueued(u);
    }
  }

  lemma {:induction false} SendReadyRunsQueued(s: Node)
    ensures SendReady(s).sent >= s.sent && forall k :: k in SendReady(s).running ==> k in s.running || k >= s.sent
    decreases |s.queue|
  {
    if s.queue != [] && Free(s, s.queue[0]) {
      SendReadyRunsQueued(Start(s.(queue := s.queue[1..]), s.queue[0]));
    }
  }

  lemma {:induction false} SubsetSize(a: set<nat>, b: set<nat>)
    requires a <= b
    ensures |a| <= |b|
  {
    if a != {} {
      var x :| x in a;
      SubsetSize(a - {x}, b - {x});
    }
  }

  function Replies(steps: seq<Step>): nat {
    if steps == [] then 0 else (if steps[0].Replied? then 1 else 0) + Replies(steps[1..])
  }

  lemma {:induction false} SentAfterReplies(s: Node, steps: seq<Step>, s': Node, j: nat)
    requires Sound(s) && IsRun(s, steps, s') && j < |s.submitted|
    requires s.sent <= j ==> Replies(steps) >= |Ahead(s, j)|
    ensures s'.sent > j
    decreases |steps|
  {
    if s.sent <= j {
      RunningAhead(s, j);
    }
    if steps != [] {
      var t := Next(s, steps[0]);
      StepSound(s, steps[0]);
      SentNeverShrinks(s, steps[0]);
      if t.sent <= j {
        match steps[0]
        case Submitted(r) => SubmitKeepsWait(s, r, j);
        case Replied(i) => StillAhead(s, i, j);
      }
      SentAfterReplies(t, steps[1..], s', j);
    }
  }

  lemma RunningAhead(s: Node, j: nat)
    requires Sound(s) && s.sent <= j < |s.submitted|
    ensures |Ahead(s, j)| > 0
  {
    assert s.queue != [];
    var i :| i in s.running;
    assert i in Ahead(s, j);
  }

  lemma SentNeverShrinks(s: Node, step: Step)
    requires Sound(s) && Enabled(s, step)
    ensures s.sent <= Next(s, step).sent && s.submitted <= Next(s, step).submitted
  {
    match step
    case Submitted(r) =>
    case Replied(i) =>
      var u := Released(s, i);
      ReleaseKeepsExclusive(s, i);
      if u.runningNum == 0 {
        DispatchSound(u);
      }
  }

  /**
    Progress: however submissions and replies interleave, a queued request is sent after as
    many replies as requests wait ahead of it.
   */
  lemma QueuedIsSent(s: Node, steps: seq<Step>, s': Node, j: nat)
    requires Reachable(s) && IsRun(s, steps, s')
    requires s.sent <= j < |s.submitted| && Replies(steps) >= |Ahead(s, j)|
    ensures s'.sent > j
  {
    ReachableSound(s);
    SentAfterReplies(s, steps, s', j);
  }
}
