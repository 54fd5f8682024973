/**
  The lock of a cache line and CacheLine::bg_fetch_data (common/src/pf_aof_cache.cpp). The
  future of the background fetch is discarded where it is created, so the thread that
  launched the fetch waits for it there, and it still holds the shared lock; the fetch needs
  the same lock exclusively.
 */
module AofPrefetch {

  /** From `Checking` to `Leaving` the caller holds the shared lock. */
  datatype Caller = Before | Checking | Waiting | Leaving | Returned

  datatype Task = NotLaunched | Launched | Fetching | Done

  datatype Writer = Nobody | Background | AnotherThread

  /**
    `off` is the window that the line holds and `window` the one that is wanted. `others`
    other threads hold the shared lock; `writer` holds it exclusively.
   */
  datatype State = State(off: int, window: int, caller: Caller, task: Task, others: nat, writer: Writer)

  datatype Step =
    | LockShared
    | Check
    | TaskLock
    | TaskFetch
    | Join
    | Unlock
    | OtherLockShared
    | OtherUnlockShared
    | OtherLock
    | OtherFetch(off: int)

  predicate Holds(s: State) {
    s.caller == Checking || s.caller == Waiting || s.caller == Leaving
  }

  /** The exclusive lock is to be had. */
  predicate Free(s: State) {
    s.writer == Nobody && s.others == 0 && !Holds(s)
  }

  predicate Enabled(s: State, step: Step) {
    match step
    case LockShared => s.caller == Before && s.writer == Nobody
    case Check => s.caller == Checking
    case TaskLock => s.task == Launched && Free(s)
    case TaskFetch => s.task == Fetching && s.writer == Background
    case Join => s.caller == Waiting && s.task == Done
    case Unlock => s.caller == Leaving
    case OtherLockShared => s.writer == Nobody
    case OtherUnlockShared => s.others > 0
    case OtherLock => Free(s)
    case OtherFetch(_) => s.writer == AnotherThread
  }

  function Next(s: State, step: Step): State
    requires Enabled(s, step)
  {
    match step
    case LockShared => s.(caller := Checking)
    case Check => if s.off == s.window then s.(caller := Leaving) else s.(caller := Waiting, task := Launched)
    case TaskLock => s.(task := Fetching, writer := Background)
    case TaskFetch => s.(off := s.window, task := Done, writer := Nobody)
    case Join => s.(caller := Leaving)
    case Unlock => s.(caller := Returned)
    case OtherLockShared => s.(others := s.others + 1)
    case OtherUnlockShared => s.(others := s.others - 1)
    case OtherLock => s.(writer := AnotherThread)
    case OtherFetch(off) => s.(off := off, writer := Nobody)
  }

  predicate IsRun(s: State, steps: seq<Step>)
    decreases |steps|
  {
    steps == [] || (Enabled(s, steps[0]) && IsRun(Next(s, steps[0]), steps[1..]))
  }

  function After(s: State, steps: seq<Step>): State
    requires IsRun(s, steps)
    decreases |steps|
  {
    if steps == [] then s else After(Next(s, steps[0]), steps[1..])
  }

  /** The call with the shared lock in hand, other threads perhaps holding it too. */
  function Begun(off: int, window: int, others: nat): State {
    State(off, window, Checking, NotLaunched, others, Nobody)
  }

  /** Some run brings the call to its end. */
  ghost predicate CanReturn(s: State) {
    exists steps: seq<Step> :: IsRun(s, steps) && After(s, steps).caller == Returned
  }

  /** The caller waits for a task that waits for the caller. */
  predicate Stuck(s: State) {
    s.caller == Waiting && s.task == Launched && s.writer == Nobody
  }

  lemma {:induction false} StuckForever(s: State, steps: seq<Step>)
    requires Stuck(s) && IsRun(s, steps)
    ensures Stuck(After(s, steps)) && After(s, steps).off == s.off
    decreases |steps|
  {
    if steps != [] {
      StuckForever(Next(s, steps[0]), steps[1..]);
    }
  }

  /** What holds in every run of a call: a task that was launched has not fetched, and never will. */
  predicate Sound(s: State) {
    && (s.caller == Waiting <==> s.task == Launched) && (s.task == NotLaunched || s.task == Launched)
    && (s.writer != Nobody ==> s.others == 0 && !Holds(s)) && s.writer != Background
    && (s.caller == Leaving ==> s.off == s.window)
  }

  lemma {:induction false} RunSound(s: State, steps: seq<Step>)
    requires Sound(s) && IsRun(s, steps)
    ensures Sound(After(s, steps)) && After(s, steps).window == s.window
    decreases |steps|
  {
    if steps != [] {
      RunSound(Next(s, steps[0]), steps[1..]);
    }
  }

  /**
    In every run of every call, from before it takes the lock, whatever other threads do:
    no task ever fetches, and once the call waits it waits for ever, the line keeps the
    window it has, and no other thread gets to fetch into it either.
   */
  lemma NeverFetches(off: int, window: int, others: nat, steps: seq<Step>, more: seq<Step>)
    requires var s := State(off, window, Before, NotLaunched, others, Nobody);
             IsRun(s, steps) && IsRun(After(s, steps), more)
    ensures var s := After(State(off, window, Before, NotLaunched, others, Nobody), steps);
            && s.task != Fetching && s.task != Done
            && (s.caller == Waiting ==>
                  var t := After(s, more); t.caller == Waiting && t.off == s.off != window && t.writer == Nobody)
  {
    var s0 := State(off, window, Before, NotLaunched, others, Nobody);
    RunSound(s0, steps);
    var s := After(s0, steps);
    WaitingIsWrong(s0, steps);
    if s.caller == Waiting {
      StuckForever(s, more);
    }
  }

  lemma {:induction false} WaitingIsWrong(s: State, steps: seq<Step>)
    requires Sound(s) && IsRun(s, steps) && (s.caller == Waiting ==> s.off != s.window)
    ensures After(s, steps).caller == Waiting ==> After(s, steps).off != s.window
    decreases |steps|
  {
    if steps != [] {
      WaitingIsWrong(Next(s, steps[0]), steps[1..]);
    }
  }

  /**
    Nothing but the lock of the caller is in the way: without it, as soon as the other
    readers have left, the background task fetches the window.
   */
  lemma {:induction false} OnlyTheCaller(s: State) returns (steps: seq<Step>)
    requires s.caller == Returned && s.task == Launched && s.writer == Nobody
    ensures IsRun(s, steps) && |steps| == s.others + 2
    ensures var t := After(s, steps); t.task == Done && t.off == s.window && t.writer == Nobody && t.others == 0
    decreases s.others
  {
    if s.others == 0 {
      steps := [TaskLock, TaskFetch];
      assert steps[1..] == [TaskFetch] && [TaskFetch][1..] == [];
    } else {
      var rest := OnlyTheCaller(Next(s, OtherUnlockShared));
      steps := [OtherUnlockShared] + rest;
      assert steps[1..] == rest;
    }
  }

  /** It can, and whatever has happened it still can. */
  ghost predicate AlwaysReturns(s: State) {
    forall steps: seq<Step> :: IsRun(s, steps) ==> CanReturn(After(s, steps))
  }

  /** The call is on its way out: it does not depend on any other thread. */
  predicate OnTheWay(s: State) {
    s.caller == Returned || s.caller == Leaving || (s.caller == Checking && s.off == s.window && s.writer == Nobody)
  }

  lemma {:induction false} StaysOnTheWay(s: State, steps: seq<Step>)
    requires OnTheWay(s) && IsRun(s, steps)
    ensures OnTheWay(After(s, steps))
    decreases |steps|
  {
    if steps != [] {
      StaysOnTheWay(Next(s, steps[0]), steps[1..]);
    }
  }

  lemma OnTheWayReturns(s: State)
    requires OnTheWay(s)
    ensures CanReturn(s)
  {
    var steps := match s.caller case Checking => [Check, Unlock] case Leaving => [Unlock] case _ => [];
    assert [Check, Unlock][1..] == [Unlock] && [Unlock][1..] == [];
    assert IsRun(s, steps) && After(s, steps).caller == Returned;
  }

  /**
    Holding the shared lock, the call returns, in some run or in all of them, if and only if
    the line holds the window already, when there is nothing to fetch.
   */
  lemma ReturnIff(off: int, window: int, others: nat)
    ensures CanReturn(Begun(off, window, others)) <==> off == window
    ensures AlwaysReturns(Begun(off, window, others)) <==> off == window
  {
    var s := Begun(off, window, others);
    if off == window {
      OnTheWayReturns(s);
      forall steps: seq<Step> | IsRun(s, steps)
        ensures CanReturn(After(s, steps))
      {
        StaysOnTheWay(s, steps);
        OnTheWayReturns(After(s, steps));
      }
    } else {
      forall steps: seq<Step> | IsRun(s, steps)
        ensures After(s, steps).caller != Returned
      {
        NotReturned(s, steps);
      }
      assert IsRun(s, []) && After(s, []) == s;
    }
  }

  lemma {:induction false} NotReturned(s: State, steps: seq<Step>)
    requires IsRun(s, steps) && s.writer == Nobody
    requires Stuck(s) || (s.caller == Checking && s.off != s.window && s.task == NotLaunched)
    ensures After(s, steps).caller != Returned
    decreases |steps|
  {
    if steps != [] {
      NotReturned(Next(s, steps[0]), steps[1..]);
    }
  }

  /** A fresh line, which holds no window, is one that the call never returns from. */
  lemma FreshLineStuck(window: nat)
    ensures !CanReturn(Begun(-1, window, 0)) && Stuck(Next(Begun(-1, window, 0), Check))
  {
    ReturnIff(-1, window, 0);
  }
}
