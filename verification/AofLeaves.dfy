/**
  How PfAof::read ends (common/src/pf_aof.cpp): after the drain, or at once when a request is
  not accepted, and then without waiting for those that are under way.
 */
module AofLeaves {
  import opened Machine

  /**
    A read of `wanted` requests. `refused` is the number of the one that is not accepted, if
    there is such a one. `issued` were accepted, `inflight` of them have not arrived.
   */
  datatype State = State(depth: nat, wanted: nat, refused: Option<nat>, issued: nat, inflight: nat, tokens: nat,
                         waits: nat, result: Result)

  datatype Result = Pending | Failed | Succeeded

  datatype Step = Issue | Leave | Arrive | Wait | Finish

  function Begin(depth: nat, wanted: nat, refused: Option<nat>): State {
    State(depth, wanted, refused, 0, 0, depth, 0, Pending)
  }

  predicate Enabled(s: State, step: Step) {
    match step
    case Issue => s.result == Pending && s.issued < s.wanted && s.tokens > 0 && s.refused != Some(s.issued)
    case Leave => s.result == Pending && s.issued < s.wanted && s.tokens > 0 && s.refused == Some(s.issued)
    case Arrive => s.inflight > 0
    case Wait => s.result == Pending && s.issued == s.wanted && s.waits < s.depth && s.tokens > 0
    case Finish => s.result == Pending && s.issued == s.wanted && s.waits == s.depth
  }

  function Next(s: State, step: Step): State
    requires Enabled(s, step)
  {
    match step
    case Issue => s.(issued := s.issued + 1, inflight := s.inflight + 1, tokens := s.tokens - 1)
    case Leave => s.(tokens := s.tokens - 1, result := Failed)
    case Arrive => s.(inflight := s.inflight - 1, tokens := s.tokens + 1)
    case Wait => s.(waits := s.waits + 1, tokens := s.tokens - 1)
    case Finish => s.(result := Succeeded)
  }

  ghost predicate IsRun(s: State, steps: seq<Step>)
    decreases |steps|
  {
    steps == [] || (Enabled(s, steps[0]) && IsRun(Next(s, steps[0]), steps[1..]))
  }

  ghost function After(s: State, steps: seq<Step>): State
    requires IsRun(s, steps)
    decreases |steps|
  {
    if steps == [] then s else After(Next(s, steps[0]), steps[1..])
  }

  /** Tokens, requests in flight and waits make up the depth, less the token of a request that was not accepted. */
  predicate Counted(s: State) {
    && s.tokens + s.inflight + s.waits + (if s.result == Failed then 1 else 0) == s.depth
    && s.inflight <= s.issued <= s.wanted && (s.waits > 0 ==> s.issued == s.wanted)
    && (s.result == Succeeded ==> s.waits == s.depth && s.issued == s.wanted)
    && (s.result == Failed ==> s.waits == 0 && s.issued < s.wanted && s.refused == Some(s.issued))
    && (s.refused.Some? ==> s.issued <= s.refused.value || s.wanted <= s.refused.value)
  }

  lemma StepCounted(s: State, step: Step)
    requires Counted(s) && Enabled(s, step)
    ensures var t := Next(s, step);
            Counted(t) && t.refused == s.refused && t.wanted == s.wanted && t.depth == s.depth
  {
  }

  lemma {:induction false} RunCounted(s: State, steps: seq<Step>)
    requires Counted(s) && IsRun(s, steps)
    ensures var t := After(s, steps);
            Counted(t) && t.refused == s.refused && t.wanted == s.wanted && t.depth == s.depth
    decreases |steps|
  {
    if steps != [] {
      StepCounted(s, steps[0]);
      RunCounted(Next(s, steps[0]), steps[1..]);
    }
  }

  /** When read returns, no request is under way to the user's buffer or to its own, which it frees. */
  ghost predicate LeavesNothing(depth: nat, wanted: nat, refused: Option<nat>) {
    forall steps: seq<Step> ::
      IsRun(Begin(depth, wanted, refused), steps) && After(Begin(depth, wanted, refused), steps).result != Pending
      ==> After(Begin(depth, wanted, refused), steps).inflight == 0
  }

  /**
    That is so in every run if and only if every request is accepted, or not even the first,
    or there is never more than one under way.
   */
  lemma LeavesNothingIff(depth: nat, wanted: nat, refused: Option<nat>)
    ensures LeavesNothing(depth, wanted, refused)
            <==> refused == None || refused.value >= wanted || refused.value == 0 || depth <= 1
  {
    hide IsRun, After;
    var s0 := Begin(depth, wanted, refused);
    if refused == None || refused.value >= wanted || refused.value == 0 || depth <= 1 {
      forall steps: seq<Step> | IsRun(s0, steps) && After(s0, steps).result != Pending
        ensures After(s0, steps).inflight == 0
      {
        RunCounted(s0, steps);
      }
    } else {
      var steps := LeftBehind(s0);
    }
  }

  lemma RunOn(s: State, step: Step, rest: seq<Step>)
    requires Enabled(s, step) && IsRun(Next(s, step), rest)
    ensures IsRun(s, [step] + rest) && After(s, [step] + rest) == After(Next(s, step), rest)
  {
    assert ([step] + rest)[1..] == rest;
  }

  lemma Stops(s: State)
    ensures IsRun(s, []) && After(s, []) == s
  {
  }

  /** Each request arrives at once but the first. */
  lemma {:induction false} LeftBehind(s: State) returns (steps: seq<Step>)
    requires s.result == Pending && s.refused.Some? && s.issued <= s.refused.value < s.wanted && s.refused.value > 0
    requires s.tokens + s.inflight == s.depth >= 2 && s.inflight == Min(s.issued, 1)
    ensures IsRun(s, steps) && After(s, steps).result == Failed && After(s, steps).inflight > 0
    decreases s.wanted - s.issued
  {
    hide IsRun, After;
    if s.issued == s.refused.value {
      Stops(Next(s, Leave));
      RunOn(s, Leave, []);
      steps := [Leave] + [];
    } else if s.issued == 0 {
      steps := LeftBehind(Next(s, Issue));
      RunOn(s, Issue, steps);
      steps := [Issue] + steps;
    } else {
      var s1 := Next(s, Issue);
      steps := LeftBehind(Next(s1, Arrive));
      RunOn(s1, Arrive, steps);
      steps := [Arrive] + steps;
      RunOn(s, Issue, steps);
      steps := [Issue] + steps;
    }
  }
}
