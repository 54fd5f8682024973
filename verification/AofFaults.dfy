/**
  What becomes of a sync when writes to the volume fail. io_cbk keeps the status of a write
  only if an earlier one has been kept (common/src/pf_aof.cpp), so none ever is, and the head
  is written over data that is not there, or not written at all, and sync returns.
 */
module AofFaults {
  import opened Machine
  import opened AofFormat
  import opened AofCrash
  import opened AofSync

  predicate Faulty(step: Step) {
    step.Fail? || step.FailHead?
  }

  ghost predicate Faultless(steps: seq<Step>) {
    forall i :: 0 <= i < |steps| ==> !Faulty(steps[i])
  }

  lemma {:induction false} NoneFailed(s: State, steps: seq<Step>)
    requires IsRun(s, steps) && Faultless(steps) && s.failed == multiset{} && s.head != Failed
    ensures After(s, steps).failed == multiset{} && After(s, steps).head != Failed
    decreases |steps|
  {
    if steps != [] {
      forall i | 0 <= i < |steps[1..]|
        ensures !Faulty(steps[1..][i])
      {
        assert steps[1..][i] == steps[i + 1];
      }
      NoneFailed(Next(s, steps[0]), steps[1..]);
    }
  }

  /** Every sync that has returned has made the whole file durable, with failing writes or only without. */
  ghost predicate MakesDurable(h: History.State, depth: nat, withFaults: bool)
    requires History.Sound(h)
  {
    forall steps: seq<Step> ::
      IsRun(SyncOf(h, depth, depth), steps) && (withFaults || Faultless(steps))
      && After(SyncOf(h, depth, depth), steps).returned
      ==> Durable(After(SyncOf(h, depth, depth), steps).volume, h.file)
  }

  /** The file is on the volume already, all but its length. */
  ghost predicate InPlace(h: History.State) {
    Holds(h.volume, h.file, 0, |h.file|)
  }

  /** Bytes that are right stay right, whichever of the planned writes arrive. */
  lemma KeptInPlace(h: History.State, s: State, x: nat)
    requires History.Sound(h) && InPlace(h) && Sound(s, h.volume) && s.head == Written && x < |h.file|
    requires s.plan == History.Pending(h) && s.headWrite == Write(0, WithLength(h.volume[..BLOCK], |h.file|))
    ensures s.volume[BLOCK + x] == h.file[x]
  {
    hide Plan, UpAlign, ApplyAll, WithLength, Durable;
    forall w | w in s.done
      ensures w in s.plan
    {
      DonePlanned(s, w);
    }
    ApplyKeeps(h.volume, s.done, h.file, h.base, x);
    var v := Apply(ApplyAll(h.volume, s.done), s.headWrite);
    if s.volume[BLOCK + x] != v[BLOCK + x] {
      var w :| w in s.failed && Puts(w, BLOCK + x, s.volume[BLOCK + x]);
      Planned(s, w);
      PlanCarries(h.file[h.base..], BLOCK + h.base, w);
    }
  }

  /** Failed writes leave the head alone. */
  lemma HeadInPlace(h: History.State, s: State)
    requires History.Sound(h) && Sound(s, h.volume) && s.head == Written
    requires s.plan == History.Pending(h) && s.headWrite == Write(0, WithLength(h.volume[..BLOCK], |h.file|))
    ensures s.volume[..BLOCK] == s.headWrite.bytes
  {
    hide Plan, UpAlign, ApplyAll, WithLength, Durable;
    var v := Apply(ApplyAll(h.volume, s.done), s.headWrite);
    forall x | 0 <= x < BLOCK
      ensures s.volume[x] == v[x]
    {
      if s.volume[x] != v[x] {
        var w :| w in s.failed && Puts(w, x, s.volume[x]);
        Planned(s, w);
        PlanCarries(h.file[h.base..], BLOCK + h.base, w);
      }
    }
  }

  lemma InPlaceIsDurable(h: History.State, s: State)
    requires History.Sound(h) && InPlace(h) && Sound(s, h.volume) && s.head == Written
    requires s.plan == History.Pending(h) && s.headWrite == Write(0, WithLength(h.volume[..BLOCK], |h.file|))
    ensures Durable(s.volume, h.file)
  {
    hide Plan, UpAlign, ApplyAll, WithLength, HeadOk, LengthOf, Settled;
    HeadInPlace(h, s);
    HeadRoundTrip(h.volume[..BLOCK], |h.file|);
    SameLength(h, s);
    forall x | 0 <= x < |h.file|
      ensures s.volume[BLOCK + x] == h.file[x]
    {
      KeptInPlace(h, s, x);
    }
  }

  lemma SameLength(h: History.State, s: State)
    requires History.Sound(h) && Sound(s, h.volume)
    ensures |s.volume| == |h.volume| >= BLOCK + |h.file|
  {
    hide UpAlign, Durable;
  }

  /** Every write that is left, the head included, fails with nothing written, and the sync returns. */
  lemma {:induction false} AllFail(s: State, v0: seq<octet>) returns (steps: seq<Step>)
    requires Sound(s, v0) && s.depth > 0 && s.inflight == multiset{} && s.head == NotIssued && s.lost == 0
    ensures IsRun(s, steps) && After(s, steps).returned && After(s, steps).volume == s.volume
    decreases |s.plan| - s.issued, s.drain - s.waits
  {
    hide Settled, IsRun, After;
    if s.issued < |s.plan| {
      var w, s1 := s.plan[s.issued], Next(s, Issue);
      StepSound(s, v0, Issue);
      StepSound(s1, v0, Fail(w, 1));
      var s2 := Next(s1, Fail(w, 1));
      assert s2.inflight == multiset{};
      steps := AllFail(s2, v0);
      RunOn(s1, Fail(w, 1), steps);
      steps := [Fail(w, 1)] + steps;
      RunOn(s, Issue, steps);
      steps := [Issue] + steps;
    } else if s.waits < s.drain {
      StepSound(s, v0, Wait);
      steps := AllFail(Next(s, Wait), v0);
      RunOn(s, Wait, steps);
      steps := [Wait] + steps;
    } else {
      steps := HeadFails(s);
    }
  }

  lemma HeadFails(s: State) returns (steps: seq<Step>)
    requires Enabled(s, IssueHead) && !s.returned
    ensures IsRun(s, steps) && After(s, steps).returned && After(s, steps).volume == s.volume
  {
    hide IsRun, After;
    var s1 := Next(s, IssueHead);
    var s2 := Next(s1, FailHead(1));
    Stops(Next(s2, Return));
    RunOn(s2, Return, []);
    RunOn(s1, FailHead(1), [Return] + []);
    RunOn(s, IssueHead, [FailHead(1)] + ([Return] + []));
    steps := [IssueHead] + ([FailHead(1)] + ([Return] + []));
  }

  lemma Stops(s: State)
    ensures IsRun(s, []) && After(s, []) == s
  {
  }

  /** Nothing was appended since the last sync, which is to say that the file is durable as it is. */
  lemma NothingNew(h: History.State)
    requires History.Sound(h)
    ensures Durable(h.volume, h.file) <==> h.synced == |h.file|
    ensures h.synced == |h.file| ==> InPlace(h) && Image(h.volume, h.file, h.base, |h.file|)
  {
    hide UpAlign, HeadOk, LengthOf;
    if h.synced == |h.file| {
      assert h.file[..h.synced] == h.file;
    }
  }

  /**
    A sync that returns has made the file durable in every run if and only if writes do not
    fail or nothing was appended since the last sync.
   */
  lemma DurableIff(h: History.State, depth: nat, withFaults: bool)
    requires History.Sound(h) && depth > 0
    ensures MakesDurable(h, depth, withFaults) <==> !withFaults || h.synced == |h.file|
  {
    hide Plan, UpAlign, HeadOk, LengthOf, ApplyAll, WithLength, Durable, IsRun, After, SyncOf, Sound, Holds, Image;
    var s0 := SyncOf(h, depth, depth);
    SyncBegins(h, depth);
    NothingNew(h);
    if !withFaults || h.synced == |h.file| {
      forall steps: seq<Step> | IsRun(s0, steps) && (withFaults || Faultless(steps)) && After(s0, steps).returned
        ensures Durable(After(s0, steps).volume, h.file)
      {
        ReturnedDurable(h, depth, steps, withFaults);
      }
    } else {
      FreshSync(h, depth);
      var steps := AllFail(s0, h.volume);
    }
  }

  lemma FreshSync(h: History.State, depth: nat)
    requires History.Sound(h)
    ensures var s := SyncOf(h, depth, depth);
            && s.depth == depth && s.inflight == multiset{} == s.failed && s.head == NotIssued && s.volume == h.volume
            && s.plan == History.Pending(h) && s.headWrite == Write(0, WithLength(h.volume[..BLOCK], |h.file|))
            && s.lost == 0
  {
  }

  lemma ReturnedDurable(h: History.State, depth: nat, steps: seq<Step>, withFaults: bool)
    requires History.Sound(h) && IsRun(SyncOf(h, depth, depth), steps) && (!withFaults || h.synced == |h.file|)
    requires (withFaults || Faultless(steps)) && After(SyncOf(h, depth, depth), steps).returned
    ensures Durable(After(SyncOf(h, depth, depth), steps).volume, h.file)
  {
    hide Plan, UpAlign, HeadOk, LengthOf, ApplyAll, WithLength, Durable, IsRun, After, SyncOf, Settled, Holds, Image;
    var s0 := SyncOf(h, depth, depth);
    FreshSync(h, depth);
    SyncBegins(h, depth);
    RunSound(s0, h.volume, steps);
    RunKeepsPlan(s0, steps);
    var s := After(s0, steps);
    ReturnedHead(s, h.volume);
    if !withFaults {
      NoneFailed(s0, steps);
      EveryMoment(h, depth, steps);
    } else {
      NothingNew(h);
      if s.head == Written {
        InPlaceIsDurable(h, s);
      } else {
        BeforeHead(s, h.volume);
        CrashBeforeHead(h.volume, h.file, h.base, |h.file|, s.volume);
        assert h.file[..|h.file|] == h.file;
      }
    }
  }

  /** A sync returns with its head written or failed. */
  lemma ReturnedHead(s: State, v0: seq<octet>)
    requires Sound(s, v0) && s.returned
    ensures s.head == Written || s.head == Failed
  {
    hide Settled;
  }

  /** The first byte appended to a new file, which may be on the volume by chance: its sync can return without it. */
  lemma OneByte(v: seq<octet>, b: octet)
    requires |v| >= 2 * BLOCK && |v| % 4096 == 0 && v[..BLOCK] == History.NewHead()
    ensures History.Opens(v) && History.Enabled(History.Opened(v), History.Append([b]))
    ensures var h := History.Next(History.Opened(v), History.Append([b]));
            History.Sound(h) && h.file == [b] && !MakesDurable(h, AOF_IODEPTH, true)
  {
    hide MakesDurable, HeadOk, LengthOf, DownAlign, History.NewHead, History.Sound, History.Enabled, History.Next;
    History.CreatedIsEmpty(v);
    FirstByte(History.Opened(v), b);
    DurableIff(History.Next(History.Opened(v), History.Append([b])), AOF_IODEPTH, true);
  }

  lemma FirstByte(s: History.State, b: octet)
    requires History.Sound(s) && s.file == [] && |s.volume| >= 2 * BLOCK
    ensures History.Enabled(s, History.Append([b]))
    ensures var h := History.Next(s, History.Append([b])); History.Sound(h) && h.file == [b] && h.synced == 0
  {
    hide Durable, UpAlign;
    assert s.file + [b] == [b] && UpAlign(1) <= BLOCK by {
      OneBlock();
    }
    History.AppendSound(s, [b]);
  }

  lemma OneBlock()
    ensures UpAlign(1) == BLOCK
  {
  }
}
