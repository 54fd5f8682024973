/**
  An append-only file over its whole life: bytes are appended, syncs complete, and at any
  moment the process may stop, leaving the data writes of a sync partly done, and open the
  file again (common/src/pf_aof.cpp).
 */
module AofHistory {
  import opened Machine
  import opened AofFormat
  import opened AofCrash

  /** The volume, the file as its user sees it, where the append buffer begins, and the last synced length. */
  datatype State = State(volume: seq<octet>, file: seq<octet>, base: nat, synced: nat)

  datatype Step =
    | Append(bytes: seq<octet>)
    | Sync(done: seq<Write>)
    | Crash(left: seq<octet>)

  /** The data writes that a sync issues in state `s`. */
  ghost function Pending(s: State): seq<Write>
    requires s.base <= |s.file|
  {
    Plan(s.file[s.base..], BLOCK + s.base)
  }

  ghost predicate Sound(s: State) {
    Image(s.volume, s.file, s.base, s.synced)
  }

  /**
    Data writes may finish in any order, but all of them before the head is written. A
    crash leaves any bytes of any of them on the volume.
   */
  ghost predicate Enabled(s: State, step: Step) {
    && |s.volume| >= BLOCK && s.base <= |s.file|
    && match step
       case Append(bytes) =>
         BLOCK + UpAlign(|s.file| + |bytes|) <= |s.volume| && |s.file| + |bytes| < 0x8000_0000_0000_0000
       case Sync(done) =>
         multiset(done) == multiset(Pending(s)) && Fit(s.volume, done) && |s.file| < 0x8000_0000_0000_0000
       case Crash(left) => PartlyWritten(s.volume, left, Pending(s))
  }

  /** What open makes of a volume. */
  ghost predicate Opens(v: seq<octet>) {
    |v| >= BLOCK && HeadOk(v[..BLOCK]) && BLOCK + LengthOf(v[..BLOCK]) <= |v|
  }

  ghost function Opened(v: seq<octet>): State
    requires Opens(v)
  {
    var n := LengthOf(v[..BLOCK]);
    State(v, v[BLOCK..BLOCK + n], DownAlign(n), n)
  }

  ghost function Synced(s: State, done: seq<Write>): State
    requires Enabled(s, Sync(done))
  {
    var head := WithLength(s.volume[..BLOCK], |s.file|);
    State(Apply(ApplyAll(s.volume, done), Write(0, head)), s.file, |s.file| - (|s.file| - s.base) % 4096, |s.file|)
  }

  ghost function Next(s: State, step: Step): State
    requires Enabled(s, step)
  {
    match step
    case Append(bytes) => s.(file := s.file + bytes)
    case Sync(done) => Synced(s, done)
    case Crash(left) => if Opens(left) then Opened(left) else State(left, [], 0, 0)
  }

  ghost predicate Takes(s: State, step: Step, s': State) {
    Enabled(s, step) && s' == Next(s, step)
  }

  /** Opening finds the durable content, all of it synced. */
  lemma OpenFinds(v: seq<octet>, content: seq<octet>)
    requires Durable(v, content) && |content| < 0x8000_0000_0000_0000
    requires |v| % 4096 == 0 && BLOCK + UpAlign(|content|) <= |v|
    ensures Opens(v) && Opened(v).file == content && Sound(Opened(v))
  {
    hide HeadOk, LengthOf, UpAlign;
    var s := Opened(v);
    assert s.file == content;
    assert s.file[..s.synced] == content;
  }

  lemma AppendSound(s: State, bytes: seq<octet>)
    requires Sound(s) && Enabled(s, Append(bytes))
    ensures Sound(Next(s, Append(bytes)))
    ensures Next(s, Append(bytes)).file[..s.synced] == s.file[..s.synced]
  {
    hide HeadOk, LengthOf, UpAlign, Durable;
    assert (s.file + bytes)[..s.synced] == s.file[..s.synced];
  }

  lemma SyncSound(s: State, done: seq<Write>)
    requires Sound(s) && Enabled(s, Sync(done))
    ensures Sound(Next(s, Sync(done)))
  {
    hide Durable, UpAlign, Plan, ApplyAll, WithLength;
    SyncIsComplete(s.volume, s.file, s.base, s.synced, done);
    AlignedSum(s.base, DownAlign(|s.file| - s.base));
    assert s.file[..|s.file|] == s.file;
  }

  /** After a crash the file is exactly what the last completed sync covered. */
  lemma CrashSound(s: State, left: seq<octet>)
    requires Sound(s) && Enabled(s, Crash(left))
    ensures Opens(left) && Sound(Next(s, Crash(left)))
    ensures Next(s, Crash(left)).file == s.file[..s.synced]
  {
    hide Durable, Plan, UpAlign, Opened;
    CrashBeforeHead(s.volume, s.file, s.base, s.synced, left);
    UpAlignMonotone(s.synced, |s.file|);
    OpenFinds(left, s.file[..s.synced]);
  }

  lemma AppendTakes(s: State, bytes: seq<octet>, s': State)
    requires Sound(s) && BLOCK + UpAlign(|s.file| + |bytes|) <= |s.volume| && |s.file| + |bytes| < 0x8000_0000_0000_0000
    requires s'.volume == s.volume && s'.file == s.file + bytes && s'.base == s.base && s'.synced == s.synced
    ensures Takes(s, Append(bytes), s') && Sound(s')
  {
    hide HeadOk, LengthOf, UpAlign;
    AppendSound(s, bytes);
  }

  /** What every step keeps: the state is sound, and synced content stays in front. */
  lemma StepSound(s: State, step: Step)
    requires Sound(s) && Enabled(s, step)
    ensures Sound(Next(s, step))
    ensures s.file[..s.synced] <= Next(s, step).file && (step.Sync? ==> Next(s, step).synced == |s.file|)
    ensures s.synced <= Next(s, step).synced
  {
    hide Durable, Plan, UpAlign, ApplyAll, WithLength, Opens;
    match step
    case Append(bytes) =>
      AppendSound(s, bytes);
    case Sync(done) =>
      SyncSound(s, done);
    case Crash(left) =>
      CrashSound(s, left);
      hide Sound;
      assert Next(s, step).synced == |Next(s, step).file|;
  }

  ghost predicate IsRun(s: State, steps: seq<Step>)
    decreases |steps|
  {
    steps == [] || (Enabled(s, steps[0]) && IsRun(Next(s, steps[0]), steps[1..]))
  }

  ghost function After(s: State, steps: seq<Step>): State
    requires IsRun(s, steps)
    decreases |steps|
  {
    if steps == [] then s else After(Next(s, steps[0]), steps[1..])
  }

  ghost predicate Leads(s: State, steps: seq<Step>, s': State) {
    IsRun(s, steps) && After(s, steps) == s'
  }

  lemma {:induction false} LeadsOn(s: State, a: seq<Step>, s1: State, b: seq<Step>, s2: State)
    requires Leads(s, a, s1) && Leads(s1, b, s2)
    ensures Leads(s, a + b, s2)
    decreases |a|
  {
    hide Enabled, Next;
    if a == [] {
      assert a + b == b;
    } else {
      assert (a + b)[1..] == a[1..] + b;
      LeadsOn(Next(s, a[0]), a[1..], s1, b, s2);
    }
  }

  lemma LeadsNowhere(s: State)
    ensures Leads(s, [], s)
  {
  }

  lemma LeadsOneStep(s: State, step: Step, s': State)
    requires Takes(s, step, s')
    ensures Leads(s, [step], s')
  {
    hide Enabled, Next;
    LeadsNowhere(s');
    var steps := [step];
    assert steps[1..] == [];
    assert IsRun(Next(s, steps[0]), steps[1..]);
  }

  /** Through any number of appends, syncs and crashes the content synced at the beginning stays in front. */
  lemma {:induction false} RunKeepsSynced(s: State, steps: seq<Step>)
    requires Sound(s) && IsRun(s, steps)
    ensures Sound(After(s, steps)) && s.synced <= |s.file|
    ensures s.synced <= After(s, steps).synced && s.file[..s.synced] <= After(s, steps).file
    decreases |steps|
  {
    hide Durable, UpAlign, Enabled, Next;
    if steps != [] {
      var s1 := Next(s, steps[0]);
      StepSound(s, steps[0]);
      RunKeepsSynced(s1, steps[1..]);
      assert s1.file[..s.synced] == s1.file[..s1.synced][..s.synced];
    }
  }

  /** A completed sync is never undone: all of the file at that moment is in front of the file at the end. */
  lemma {:induction false} SyncIsForever(s: State, steps: seq<Step>, i: nat)
    requires Sound(s) && IsRun(s, steps) && i < |steps| && steps[i].Sync?
    ensures IsRun(s, steps[..i]) && After(s, steps[..i]).file <= After(s, steps).file
    decreases i
  {
    hide Durable, UpAlign, Enabled, Sound;
    StepSound(s, steps[0]);
    var s1 := Next(s, steps[0]);
    if i == 0 {
      RunKeepsSynced(s1, steps[1..]);
      assert s1.file[..s1.synced] == s.file;
    } else {
      assert steps[1..][i - 1] == steps[i];
      SyncIsForever(s1, steps[1..], i - 1);
      assert steps[..i][1..] == steps[1..][..i - 1];
    }
  }

  /** The head block that pf_create_aof writes: magic, version, length zero and nothing else. */
  function NewHead(): (h: seq<octet>)
    ensures |h| == BLOCK
  {
    ToBytes(AOF_MAGIC, 4) + ToBytes(AOF_VER, 4) + ToBytes(0, 8) + seq(BLOCK - 16, _ => 0)
  }

  /** A created file opens, empty. */
  lemma CreatedIsEmpty(v: seq<octet>)
    requires |v| >= BLOCK && |v| % 4096 == 0 && v[..BLOCK] == NewHead()
    ensures Opens(v) && Opened(v).file == [] && Sound(Opened(v))
  {
    var h := NewHead();
    assert h[0..4] == ToBytes(AOF_MAGIC, 4) && h[4..8] == ToBytes(AOF_VER, 4) && h[8..16] == ToBytes(0, 8);
    assert Power256(4) == 0x1_0000_0000 && Power256(8) == 0x1_0000_0000_0000_0000;
    BytesRoundTrip(AOF_MAGIC, 4);
    BytesRoundTrip(AOF_VER, 4);
    BytesRoundTrip(0, 8);
    hide ToBytes, FromBytes, NewHead;
    OpenFinds(v, []);
  }

  lemma SoundIsDurable(s: State)
    requires Sound(s)
    ensures s.synced <= |s.file| && Durable(s.volume, s.file[..s.synced])
  {
    hide Durable;
  }

  /**
    Over the whole life of a file, from its creation through any appends, syncs and crashes:
    the volume always opens, and everything a completed sync covered is in front of the file.
   */
  lemma LifeOfAFile(v: seq<octet>, steps: seq<Step>)
    requires |v| >= BLOCK && |v| % 4096 == 0 && v[..BLOCK] == NewHead()
    requires Opens(v) && IsRun(Opened(v), steps)
    ensures var s := After(Opened(v), steps); s.synced <= |s.file| && Durable(s.volume, s.file[..s.synced])
    ensures forall i :: 0 <= i < |steps| && steps[i].Sync? ==>
              IsRun(Opened(v), steps[..i]) && After(Opened(v), steps[..i]).file <= After(Opened(v), steps).file
  {
    hide NewHead, Opens, Opened, IsRun, After, Durable, Sound;
    CreatedIsEmpty(v);
    RunKeepsSynced(Opened(v), steps);
    SoundIsDurable(After(Opened(v), steps));
    forall i | 0 <= i < |steps| && steps[i].Sync?
      ensures IsRun(Opened(v), steps[..i]) && After(Opened(v), steps[..i]).file <= After(Opened(v), steps).file
    {
      SyncIsForever(Opened(v), steps, i);
    }
  }
}
