/**
  The ping-pong event queue of common/src/pf_event_queue.cpp with its consumer thread
  (common/src/pf_event_thread.cpp). Each section under the spin lock, each write to the
  eventfd and each read of it is one atomic step; any number of producers take part.
 */
module EventQueueProtocol {

  /** Where the consumer thread is: before the eventfd read, between read and swap, emptying a ring, gone. */
  datatype Phase = Idle | Fetched | Draining | Exited

  datatype Event = Event(kind: int, argI: int, argP: int, argQ: int)

  const EVT_THREAD_EXIT: int := 10

  /**
    `current` is the ring producers write to and `other` the one handed to the consumer;
    `signals` is the eventfd count and `unsignalled` the number of producers that have
    enqueued and not yet written to the eventfd. `posted` lists the successful posts in lock
    order and `delivered` the events the consumer has taken out, in order. In semaphore mode
    a read of the eventfd takes one off the count, otherwise all of it.
   */
  datatype State = State(semaphore: bool, depth: nat, current: seq<Event>, other: seq<Event>, signals: nat,
                         unsignalled: nat, phase: Phase, posted: seq<Event>, delivered: seq<Event>)

  datatype Step = Post(event: Event) | Signal | ReadFd | Swap | Deliver | Drained

  function Initial(semaphore: bool, depth: nat): State {
    State(semaphore, depth, [], [], 0, 0, Idle, [], [])
  }

  /** A step that is not enabled blocks its thread. */
  predicate Enabled(s: State, step: Step) {
    match step
    case Post(_) => true
    case Signal => s.unsignalled > 0
    case ReadFd => s.phase == Idle && s.signals > 0
    case Swap => s.phase == Fetched
    case Deliver => s.phase == Draining && s.other != []
    case Drained => s.phase == Draining && s.other == []
  }

  function Next(s: State, step: Step): State
    requires Enabled(s, step)
  {
    match step
    case Post(e) =>
      if |s.current| == s.depth then s
      else s.(current := s.current + [e], unsignalled := s.unsignalled + 1, posted := s.posted + [e])
    case Signal => s.(unsignalled := s.unsignalled - 1, signals := s.signals + 1)
    case ReadFd => s.(signals := if s.semaphore then s.signals - 1 else 0, phase := Fetched)
    case Swap => s.(current := s.other, other := s.current, phase := Draining)
    case Deliver =>
      s.(other := s.other[1..], delivered := s.delivered + [s.other[0]],
         phase := if s.other[0].kind == EVT_THREAD_EXIT then Exited else Draining)
    case Drained => s.(phase := Idle)
  }

  ghost predicate IsRun(s: State, steps: seq<Step>, s': State)
    decreases |steps|
  {
    if steps == [] then s == s' else Enabled(s, steps[0]) && IsRun(Next(s, steps[0]), steps[1..], s')
  }

  ghost predicate Reachable(s: State) {
    exists semaphore: bool, depth: nat, steps: seq<Step> :: IsRun(Initial(semaphore, depth), steps, s)
  }

  /** Nothing lost, nothing doubled, nothing reordered; and no event waits without a wake-up on its way. */
  ghost predicate Sound(s: State) {
    && s.delivered + s.other + s.current == s.posted
    && (s.phase in {Idle, Fetched} ==> s.other == [])
    && (s.current != [] ==> s.signals > 0 || s.unsignalled > 0 || s.phase in {Fetched, Exited})
    && |s.current| <= s.depth && |s.other| <= s.depth
  }

  lemma StepSound(s: State, step: Step)
    requires Sound(s) && Enabled(s, step)
    ensures Sound(Next(s, step))
  {
    match step
    case Post(e) =>
      assert s.delivered + s.other + (s.current + [e]) == s.delivered + s.other + s.current + [e];
    case Signal =>
    case ReadFd =>
    case Swap =>
      assert s.delivered + s.current + [] == s.delivered + [] + s.current;
    case Deliver =>
      assert s.delivered + [s.other[0]] + s.other[1..] == s.delivered + s.other;
    case Drained =>
      assert s.current == [] || s.signals > 0 || s.unsignalled > 0;
  }

  lemma {:induction false} RunSound(s: State, steps: seq<Step>, s': State)
    requires Sound(s) && IsRun(s, steps, s')
    ensures Sound(s')
    decreases |steps|
  {
    if steps != [] {
      StepSound(s, steps[0]);
      RunSound(Next(s, steps[0]), steps[1..], s');
    }
  }

  /** Safety over every run. */
  lemma ReachableSound(s: State)
    requires Reachable(s)
    ensures Sound(s)
  {
    var semaphore: bool, depth: nat, steps: seq<Step> :| IsRun(Initial(semaphore, depth), steps, s);
    RunSound(Initial(semaphore, depth), steps, s);
  }

  /** How often a run writes to the eventfd, and how often it reads it. */
  function Signals(steps: seq<Step>): nat {
    if steps == [] then 0 else (if steps[0].Signal? then 1 else 0) + Signals(steps[1..])
  }

  function Reads(steps: seq<Step>): nat {
    if steps == [] then 0 else (if steps[0].ReadFd? then 1 else 0) + Reads(steps[1..])
  }

  lemma {:induction false} SignalsCounted(s: State, steps: seq<Step>, s': State)
    requires IsRun(s, steps, s')
    ensures s'.semaphore == s.semaphore && s.posted <= s'.posted
    ensures s.unsignalled + |s'.posted| - |s.posted| == s'.unsignalled + Signals(steps)
    ensures s.semaphore ==> s.signals + Signals(steps) == s'.signals + Reads(steps)
    decreases |steps|
  {
    if steps != [] {
      SignalsCounted(Next(s, steps[0]), steps[1..], s');
    }
  }

  /** One write to the eventfd for each successful post; in semaphore mode each read takes one of them. */
  lemma OneSignalPerPost(semaphore: bool, depth: nat, steps: seq<Step>, s: State)
    requires IsRun(Initial(semaphore, depth), steps, s)
    ensures |s.posted| == s.unsignalled + Signals(steps)
    ensures semaphore ==> Signals(steps) == s.signals + Reads(steps)
  {
    SignalsCounted(Initial(semaphore, depth), steps, s);
  }

  /** The consumer is gone exactly if an exit event was delivered, and that one was the last. */
  ghost predicate ExitsLast(s: State) {
    && (s.phase == Exited <==> exists k :: 0 <= k < |s.delivered| && s.delivered[k].kind == EVT_THREAD_EXIT)
    && forall k :: 0 <= k < |s.delivered| - 1 ==> s.delivered[k].kind != EVT_THREAD_EXIT
  }

  lemma {:induction false} RunExitsLast(s: State, steps: seq<Step>, s': State)
    requires ExitsLast(s) && IsRun(s, steps, s')
    ensures ExitsLast(s')
    decreases |steps|
  {
    if steps != [] {
      var t := Next(s, steps[0]);
      if steps[0].Deliver? {
        assert t.delivered[|s.delivered|] == s.other[0];
        assert forall k :: 0 <= k < |s.delivered| ==> t.delivered[k] == s.delivered[k];
      }
      RunExitsLast(t, steps[1..], s');
    }
  }

  lemma ExitIsLast(s: State)
    requires Reachable(s)
    ensures ExitsLast(s)
  {
    var semaphore: bool, depth: nat, steps: seq<Step> :| IsRun(Initial(semaphore, depth), steps, s);
    RunExitsLast(Initial(semaphore, depth), steps, s);
  }

  /** No lost wake-up: a waiting consumer with work in the ring and every producer done does not block. */
  lemma NoLostWakeUp(s: State)
    requires Reachable(s)
    requires s.phase == Idle && s.unsignalled == 0 && s.current != []
    ensures Enabled(s, ReadFd)
  {
    ReachableSound(s);
  }

  /** Work left before everything posted so far is delivered. */
  function Measure(s: State): nat {
    5 * s.unsignalled + 4 * s.signals + |s.current| + |s.other|
    + (match s.phase case Fetched => 2 case Draining => 1 case Idle => 0 case Exited => 0)
  }

  /** Every step other than a post brings delivery closer, so such steps cannot go on forever. */
  lemma StepProgress(s: State, step: Step)
    requires Enabled(s, step) && !step.Post?
    ensures Measure(Next(s, step)) < Measure(s)
  {
  }

  /** And they only run out when everything posted has been delivered, or the consumer has exited. */
  lemma StuckIsDelivered(s: State)
    requires Reachable(s)
    requires forall step: Step :: Enabled(s, step) ==> step.Post?
    ensures s.phase == Exited || s.delivered == s.posted
  {
    ReachableSound(s);
    assert !Enabled(s, Signal) && !Enabled(s, ReadFd) && !Enabled(s, Swap);
    assert !Enabled(s, Deliver) && !Enabled(s, Drained);
  }
}

/** The queue object itself, with two rings and an eventfd counter, stepping as the protocol says. */
module EventQueue {
  import opened FixedSizeQueue
  import opened Machine
  import opened EventQueueProtocol

  class PfEventQueue {
    const queue1: Ring<Event>
    const queue2: Ring<Event>
    var current: Ring<Event>
    var eventFd: nat
    const semaphore: bool
    ghost var state: State

    ghost function Other(): Ring<Event>
      reads this
    {
      if current == queue1 then queue2 else queue1
    }

    ghost predicate Valid()
      reads this, queue1, queue2, queue1.data, queue2.data
    {
      && queue1 != queue2 && queue1.data != queue2.data
      && queue1.Valid() && queue2.Valid()
      && queue1.Capacity() == queue2.Capacity() == state.depth
      && current in {queue1, queue2}
      && state.current == current.Contents()
      && state.other == Other().Contents()
      && state.signals == eventFd && state.semaphore == semaphore
      && Sound(state)
    }

    constructor (size: nat, semaphore: bool, zero: Event)
      ensures Valid() && fresh(queue1) && fresh(queue2) && fresh(queue1.data) && fresh(queue2.data)
      ensures state == Initial(semaphore, size)
    {
      eventFd := 0;
      this.semaphore := semaphore;
      queue1 := new Ring(size, zero);
      queue2 := new Ring(size, zero);
      current := queue1;
      state := Initial(semaphore, size);
    }

    /** post_event up to the release of the lock. */
    method PostLocked(event: Event) returns (rc: int)
      requires Valid()
      modifies this`state, current, current.data
      ensures Valid() && state == Next(old(state), Post(event))
      ensures rc == if |old(state).current| == state.depth then EAGAIN else 0
    {
      rc := current.Enqueue(event);
      StepSound(state, Post(event));
      state := Next(state, Post(event));
    }

    /** post_event after the lock, when the enqueue succeeded. */
    method WriteEventFd()
      requires Valid() && Enabled(state, Signal)
      modifies this
      ensures Valid() && state == Next(old(state), Signal)
    {
      eventFd := eventFd + 1;
      StepSound(state, Signal);
      state := Next(state, Signal);
    }

    /** The read at the top of get_events, which blocks while the count is zero; the mode says what it takes. */
    method ReadEventFd() returns (v: nat)
      requires Valid() && Enabled(state, ReadFd)
      modifies this
      ensures Valid() && state == Next(old(state), ReadFd)
      ensures v == if semaphore then 1 else old(eventFd)
    {
      v := if semaphore then 1 else eventFd;
      eventFd := eventFd - v;
      StepSound(state, ReadFd);
      state := Next(state, ReadFd);
    }

    /** get_events under the lock: hand out the current ring and let producers write to the other one. */
    method SwapRings() returns (q: Ring<Event>)
      requires Valid() && Enabled(state, Swap)
      modifies this
      ensures Valid() && state == Next(old(state), Swap)
      ensures q == Other() && q.Contents() == old(current.Contents())
    {
      q := current;
      current := if current == queue1 then queue2 else queue1;
      StepSound(state, Swap);
      state := Next(state, Swap);
    }

    /** One turn of the inner loop of thread_proc_eventq on the ring that get_events handed out. */
    method TakeNext(q: Ring<Event>) returns (t: Event, more: bool)
      requires Valid() && Enabled(state, Deliver) && q == Other()
      modifies this`state, q`head
      ensures Valid() && state == Next(old(state), Deliver)
      ensures t == old(state).other[0]
      ensures more <==> t.kind != EVT_THREAD_EXIT
    {
      var r := q.Dequeue();
      t := r.value;
      more := t.kind != EVT_THREAD_EXIT;
      StepSound(state, Deliver);
      state := Next(state, Deliver);
    }

    /** The test that ends the inner loop. */
    method RingEmpty(q: Ring<Event>) returns (empty: bool)
      requires Valid() && state.phase == Draining && q == Other()
      modifies this`state
      ensures Valid() && (empty <==> Enabled(old(state), Drained))
      ensures state == if empty then Next(old(state), Drained) else old(state)
    {
      empty := q.IsEmpty();
      if empty {
        StepSound(state, Drained);
        state := Next(state, Drained);
      }
    }
  }
}

/**
  get_event, the form that takes one event per eventfd read, from any number of
  consumers. It needs the eventfd in semaphore mode.
 */
module SingleEventProtocol {
  import opened EventQueueProtocol

  /** `between` counts the consumers that have read the eventfd and not yet taken the lock. */
  datatype Single = Single(semaphoreMode: bool, ring: seq<Event>, signals: nat, unsignalled: nat, between: nat,
                           posted: seq<Event>, taken: seq<Event>, misses: nat)

  datatype Act = Put(event: Event) | SignalOne | ReadOne | Take

  predicate CanAct(s: Single, a: Act) {
    match a
    case Put(_) => true
    case SignalOne => s.unsignalled > 0
    case ReadOne => s.signals > 0
    case Take => s.between > 0
  }

  function AfterAct(s: Single, a: Act): Single
    requires CanAct(s, a)
  {
    match a
    case Put(e) => s.(ring := s.ring + [e], unsignalled := s.unsignalled + 1, posted := s.posted + [e])
    case SignalOne => s.(unsignalled := s.unsignalled - 1, signals := s.signals + 1)
    case ReadOne => s.(signals := if s.semaphoreMode then s.signals - 1 else 0, between := s.between + 1)
    case Take =>
      if s.ring == [] then s.(between := s.between - 1, misses := s.misses + 1)
      else s.(between := s.between - 1, ring := s.ring[1..], taken := s.taken + [s.ring[0]])
  }

  function Begin(semaphoreMode: bool): Single {
    Single(semaphoreMode, [], 0, 0, 0, [], [], 0)
  }

  ghost predicate Acts(s: Single, acts: seq<Act>, s': Single)
    decreases |acts|
  {
    if acts == [] then s == s' else CanAct(s, acts[0]) && Acts(AfterAct(s, acts[0]), acts[1..], s')
  }

  /** Every queued event has its own signal, signalling producer or reading consumer. */
  ghost predicate Matched(s: Single) {
    s.taken + s.ring == s.posted && |s.ring| == s.signals + s.unsignalled + s.between && s.misses == 0
  }

  lemma {:induction false} SemaphoreRunMatched(s: Single, acts: seq<Act>, s': Single)
    requires s.semaphoreMode && Matched(s) && Acts(s, acts, s')
    ensures Matched(s')
    decreases |acts|
  {
    if acts != [] {
      var n := AfterAct(s, acts[0]);
      assert n.taken + n.ring == n.posted;
      SemaphoreRunMatched(n, acts[1..], s');
    }
  }

  /** In semaphore mode, with all posts signalled, some consumer can go on as long as there is an event. */
  lemma NeverAsleep(acts: seq<Act>, s: Single)
    requires Acts(Begin(true), acts, s) && s.unsignalled == 0 && s.ring != []
    ensures CanAct(s, ReadOne) || CanAct(s, Take)
    ensures CanAct(s, Take) ==> AfterAct(s, Take).taken == s.taken + [s.ring[0]]
  {
    SemaphoreRunMatched(Begin(true), acts, s);
  }

  /** A queue on which no run strands an event: with all threads done, every event left has its signal. */
  ghost predicate NeverStrands(semaphoreMode: bool) {
    forall acts: seq<Act>, s: Single ::
      Acts(Begin(semaphoreMode), acts, s) && s.unsignalled == 0 && s.between == 0
      ==> s.misses == 0 && s.signals == |s.ring|
  }

  /** get_event never reports ENOENT and never strands an event exactly when the eventfd is in semaphore mode. */
  lemma SingleEventNeedsSemaphore(semaphoreMode: bool)
    ensures NeverStrands(semaphoreMode) <==> semaphoreMode
  {
    if semaphoreMode {
      forall acts: seq<Act>, s: Single | Acts(Begin(true), acts, s) && s.unsignalled == 0 && s.between == 0
        ensures s.misses == 0 && s.signals == |s.ring|
      {
        SemaphoreRunMatched(Begin(true), acts, s);
      }
    } else {
      Stranded(Event(4, 0, 0, 0));
    }
  }

  /** In counter mode one read swallows the signals of both posts, and the second event is left without one. */
  lemma Stranded(e: Event)
    ensures !NeverStrands(false)
  {
    var acts := [Put(e), SignalOne, Put(e), SignalOne, ReadOne, Take];
    var s0 := Begin(false);
    var s1 := AfterAct(s0, Put(e));
    var s2 := AfterAct(s1, SignalOne);
    var s3 := AfterAct(s2, Put(e));
    var s4 := AfterAct(s3, SignalOne);
    var s5 := AfterAct(s4, ReadOne);
    var s6 := AfterAct(s5, Take);
    assert Acts(s6, acts[6..], s6);
    assert acts[5..][1..] == acts[6..] && Acts(s5, acts[5..], s6);
    assert acts[4..][1..] == acts[5..] && Acts(s4, acts[4..], s6);
    assert acts[3..][1..] == acts[4..] && Acts(s3, acts[3..], s6);
    assert acts[2..][1..] == acts[3..] && Acts(s2, acts[2..], s6);
    assert acts[1..][1..] == acts[2..] && Acts(s1, acts[1..], s6);
    assert Acts(s0, acts, s6);
    assert s6.signals == 0 && |s6.ring| == 1;
  }
}
