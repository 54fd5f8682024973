/**
  The slot that do_send is in the middle of, and the replies that arrive meanwhile
  (S5bd/src/s5session.c). do_send goes on with the sub-I/O in that slot without looking
  whether there still is one.
 */
module SessionSending {
  import opened Machine

  /**
    `occupied` are the slots with a sub-I/O, `sending` the slot of which a part was sent, and
    `body` the slot for which the head of a reply was accepted and the rest is still to come.
   */
  datatype State = State(depth: nat, occupied: set<nat>, sending: Option<nat>, body: Option<nat>)

  datatype Step =
    | Begin(slot: nat)
    | BeginAgain(slot: nat)
    | GoOn
    | SendEnds
    | HeadAccepted(slot: nat)
    | BodyArrives(frees: bool)
    | Reconnect

  /**
    A new sub-I/O takes a free slot; one that timed out is sent again from its slot. The
    server answers a sending only when it has all of it, and replies to earlier sendings are
    not accepted.
   */
  predicate Enabled(s: State, step: Step) {
    match step
    case Begin(slot) => s.sending == None && slot < s.depth && slot !in s.occupied
    case BeginAgain(slot) => s.sending == None && slot in s.occupied
    case GoOn => s.sending.Some?
    case SendEnds => s.sending.Some?
    case HeadAccepted(slot) => s.body == None && slot in s.occupied && s.sending != Some(slot)
    case BodyArrives(_) => s.body.Some?
    case Reconnect => true
  }

  function Next(s: State, step: Step): State
    requires Enabled(s, step)
  {
    match step
    case Begin(slot) => s.(occupied := s.occupied + {slot}, sending := Some(slot))
    case BeginAgain(slot) => s.(sending := Some(slot))
    case GoOn => s
    case SendEnds => s.(sending := None)
    case HeadAccepted(slot) => s.(body := Some(slot))
    case BodyArrives(frees) =>
      s.(occupied := if frees then s.occupied - {s.body.value} else s.occupied, body := None)
    case Reconnect => s.(occupied := {}, sending := None, body := None)
  }

  function Initial(depth: nat): State {
    State(depth, {}, None, None)
  }

  ghost predicate IsRun(s: State, steps: seq<Step>)
    decreases |steps|
  {
    steps == [] || (Enabled(s, steps[0]) && IsRun(Next(s, steps[0]), steps[1..]))
  }

  ghost function After(s: State, steps: seq<Step>): State
    requires IsRun(s, steps)
    decreases |steps|
  {
    if steps == [] then s else After(Next(s, steps[0]), steps[1..])
  }

  /** A reconnect begins anew. */
  lemma ReconnectIsFresh(s: State)
    ensures Next(s, Reconnect) == Initial(s.depth)
  {
  }

  /** There is a sub-I/O to go on with. */
  predicate Safe(s: State) {
    s.sending.Some? ==> s.sending.value in s.occupied
  }

  /** A sub-I/O is sent again while the rest of a reply to it is still to come. */
  predicate Crosses(s: State, step: Step) {
    step.BeginAgain? && s.body == Some(step.slot)
  }

  ghost predicate NoneCrosses(s: State, steps: seq<Step>)
    requires IsRun(s, steps)
    decreases |steps|
  {
    steps == [] || (!Crosses(s, steps[0]) && NoneCrosses(Next(s, steps[0]), steps[1..]))
  }

  /** The slot that waits for the rest of a reply is in use, and it is not the one being sent. */
  predicate Sound(s: State) {
    && Safe(s)
    && (s.body.Some? ==> s.body.value in s.occupied && s.sending != s.body)
  }

  /** A step keeps this if and only if it does not send again what is being answered. */
  lemma StepSound(s: State, step: Step)
    requires Sound(s) && Enabled(s, step)
    ensures Sound(Next(s, step)) <==> !Crosses(s, step)
  {
  }

  lemma {:induction false} RunSound(s: State, steps: seq<Step>)
    requires Sound(s) && IsRun(s, steps) && NoneCrosses(s, steps)
    ensures Sound(After(s, steps))
    decreases |steps|
  {
    if steps != [] {
      StepSound(s, steps[0]);
      RunSound(Next(s, steps[0]), steps[1..]);
    }
  }

  lemma RunOn(s: State, step: Step, rest: seq<Step>)
    requires Enabled(s, step) && IsRun(Next(s, step), rest)
    ensures IsRun(s, [step] + rest) && After(s, [step] + rest) == After(Next(s, step), rest)
  {
    assert ([step] + rest)[1..] == rest;
  }

  /** Once such a crossing has begun, the rest of the reply is all it takes. */
  lemma CrossingFails(s: State, step: Step)
    requires Enabled(s, step) && Crosses(s, step)
    ensures Enabled(Next(s, step), BodyArrives(true)) && !Safe(Next(Next(s, step), BodyArrives(true)))
  {
  }

  /** In every run, with crossings or only without, do_send finds a sub-I/O in the slot that it is sending. */
  ghost predicate AlwaysSafe(depth: nat, withCrossings: bool) {
    forall steps: seq<Step> ::
      IsRun(Initial(depth), steps) && (withCrossings || NoneCrosses(Initial(depth), steps))
      ==> Safe(After(Initial(depth), steps))
  }

  /**
    It does if and only if no sub-I/O is sent again while the rest of a reply to it is still
    to come.
   */
  lemma AlwaysSafeIff(depth: nat, withCrossings: bool)
    requires depth > 0
    ensures AlwaysSafe(depth, withCrossings) <==> !withCrossings
  {
    if withCrossings {
      Crossing(depth);
    } else {
      forall steps: seq<Step> | IsRun(Initial(depth), steps) && NoneCrosses(Initial(depth), steps)
        ensures Safe(After(Initial(depth), steps))
      {
        RunSound(Initial(depth), steps);
      }
    }
  }

  /** Sent, its reply begun, timed out, sent again in part, and then the rest of the reply. */
  lemma Crossing(depth: nat)
    requires depth > 0
    ensures !AlwaysSafe(depth, true)
  {
    hide IsRun, After;
    var s0 := Initial(depth);
    var s1 := Next(s0, Begin(0));
    var s2 := Next(s1, SendEnds);
    var s3 := Next(s2, HeadAccepted(0));
    var s4 := Next(s3, BeginAgain(0));
    var s5 := Next(s4, BodyArrives(true));
    Stops(s5);
    RunOn(s4, BodyArrives(true), []);
    var t4 := [BodyArrives(true)] + [];
    RunOn(s3, BeginAgain(0), t4);
    var t3 := [BeginAgain(0)] + t4;
    RunOn(s2, HeadAccepted(0), t3);
    var t2 := [HeadAccepted(0)] + t3;
    RunOn(s1, SendEnds, t2);
    var t1 := [SendEnds] + t2;
    RunOn(s0, Begin(0), t1);
    assert !Safe(After(s0, [Begin(0)] + t1));
  }

  lemma Stops(s: State)
    ensures IsRun(s, []) && After(s, []) == s
  {
  }
}
