/**
  Admission control and ids over a whole volume with one replica: update_io_num_and_len
  reserves one unit of io_num per piece, the splitting loop takes an id per piece, the reply
  gives the id back, and the callback thread gives the unit back afterwards
  (S5bd/src/s5imagectx.c). User threads interleave freely with replies and callbacks.
 */
module Admission {
  import opened Machine
  import opened Splitting

  /**
    `reserved` counts pieces admitted and not yet given an id, `out` holds the ids in use,
    `replied` counts pieces whose id is back while their unit of `ioNum` is not. `free` is the
    free list of the id generator.
   */
  datatype Volume = Volume(depth: nat, size: nat, ioNum: int, reserved: nat, out: set<int>, replied: nat,
                           free: seq<int>)

  datatype Step = Admit(off: nat, len: nat) | TakeId | GiveIdBack(id: int) | CallbackDone

  function Opened(depth: nat, size: nat): Volume {
    Volume(depth, size, 0, 0, {}, 0, seq(depth + 1, i => i))
  }

  /** The length after update_io_num_and_len cut it off at the end of the volume. */
  function CutLength(v: Volume, off: nat, len: nat): nat {
    if off + len > v.size && off < v.size then v.size - off else len
  }

  /** io_num is unsigned: below zero it wraps round and is larger than any depth. */
  predicate Within(v: Volume, num: int) {
    0 <= num <= v.depth
  }

  /** The answer of update_io_num_and_len. */
  function AdmitResult(v: Volume, off: nat, len: nat): int {
    if off % LBA_LENGTH != 0 || len % LBA_LENGTH != 0 || off >= v.size then EINVAL
    else if !Within(v, GetIoNum(off, CutLength(v, off, len)) + v.ioNum) then EAGAIN
    else 0
  }

  /** What is reserved for a request is what the splitting loop will take. */
  predicate Exact(off: nat, len: nat) {
    GetIoNum(off, len) == PieceCount(off / LBA_LENGTH, Lbas(len))
  }

  /** A request that is turned away, or for which the right number is reserved. */
  predicate Fair(v: Volume, step: Step) {
    step.Admit? && AdmitResult(v, step.off, step.len) == 0 ==> Exact(step.off, CutLength(v, step.off, step.len))
  }

  predicate Enabled(v: Volume, step: Step) {
    match step
    case Admit(_, _) => true
    case TakeId => v.reserved > 0
    case GiveIdBack(id) => id in v.out
    case CallbackDone => v.replied > 0
  }

  /** alloc_id: the head of the free list, unless it is the last entry. */
  function AllocId(v: Volume): int {
    if |v.free| <= 1 then -1 else v.free[0]
  }

  function Next(v: Volume, step: Step): Volume
    requires Enabled(v, step)
  {
    match step
    case Admit(off, len) =>
      if AdmitResult(v, off, len) != 0 then v
      else
        var cut := CutLength(v, off, len);
        v.(ioNum := v.ioNum + GetIoNum(off, cut), reserved := v.reserved + PieceCount(off / LBA_LENGTH, Lbas(cut)))
    case TakeId =>
      if AllocId(v) == -1 then v
      else v.(reserved := v.reserved - 1, out := v.out + {v.free[0]}, free := v.free[1..])
    case GiveIdBack(id) => v.(out := v.out - {id}, free := v.free + [id], replied := v.replied + 1)
    case CallbackDone => v.(replied := v.replied - 1, ioNum := v.ioNum - 1)
  }

  ghost predicate IsRun(v: Volume, steps: seq<Step>, v': Volume)
    decreases |steps|
  {
    if steps == [] then v == v' else Enabled(v, steps[0]) && IsRun(Next(v, steps[0]), steps[1..], v')
  }

  /** io_num counts the pieces between admission and callback, and every id is free or in use, not both. */
  ghost predicate Sound(v: Volume) {
    && v.ioNum == v.reserved + |v.out| + v.replied <= v.depth
    && |v.free| + |v.out| == v.depth + 1
    && (forall i, j :: 0 <= i < j < |v.free| ==> v.free[i] != v.free[j])
    && (forall id :: id in v.free ==> 0 <= id <= v.depth && id !in v.out)
    && (forall id :: id in v.out ==> 0 <= id <= v.depth)
  }

  /** A step keeps this if and only if it is a fair one. */
  lemma StepSound(v: Volume, step: Step)
    requires Sound(v) && Enabled(v, step)
    ensures Sound(Next(v, step)) <==> Fair(v, step)
  {
    hide GetIoNum, PieceCount, Lbas;
    match step
    case Admit(off, len) =>
    case TakeId => TakeIdSound(v);
    case GiveIdBack(id) => GiveIdBackSound(v, id);
    case CallbackDone =>
  }

  lemma TakeIdSound(v: Volume)
    requires Sound(v) && v.reserved > 0
    ensures Sound(Next(v, TakeId))
  {
    var rest := v.free[1..];
    assert v.free == [v.free[0]] + rest;
    forall id | id in rest
      ensures id in v.free && id != v.free[0]
    {
      var k :| 0 <= k < |rest| && rest[k] == id;
      assert v.free[k + 1] == id;
    }
  }

  lemma GiveIdBackSound(v: Volume, id: int)
    requires Sound(v) && id in v.out
    ensures Sound(Next(v, GiveIdBack(id)))
  {
    assert v.out == v.out - {id} + {id};
  }

  /** An empty request that starts on a block boundary. */
  predicate Empty(step: Step) {
    step.Admit? && step.len == 0 && step.off % S5_OBJ_LEN == 0
  }

  ghost predicate NoneEmpty(steps: seq<Step>) {
    forall i :: 0 <= i < |steps| ==> !Empty(steps[i])
  }

  const S5_IO_DEPTH: nat := 256

  /** A volume of whole LBAs, of any size; s5_open_volume cuts the depth down to S5_IO_DEPTH. */
  predicate Configured(depth: nat, size: nat) {
    depth <= S5_IO_DEPTH && size % LBA_LENGTH == 0
  }

  /** A request that is let in is far below 2^32 LBAs: it touches no more blocks than the depth. */
  lemma LetInIsSmall(v: Volume, off: nat, len: nat)
    requires Configured(v.depth, v.size) && v.ioNum >= 0 && AdmitResult(v, off, len) == 0
    ensures CutLength(v, off, len) / LBA_LENGTH < 0x1_0000_0000
  {
    hide GetIoNum, BlocksTouched;
    var cut := CutLength(v, off, len);
    if cut > 0 {
      AlignedDifference(v.size, off);
      GetIoNumCountsBlocks(off, cut);
      BlocksInLbas(off, cut, off / 4096, cut / 4096);
      ManyBlocks(off / 4096, cut / 4096);
    }
  }

  lemma ManyBlocks(slba: nat, nlba: nat)
    requires nlba > 0
    ensures (slba + nlba - 1) / 1024 - slba / 1024 + 1 >= nlba / 1024
  {
  }

  lemma NotEmptyIsFair(v: Volume, step: Step)
    requires Configured(v.depth, v.size) && v.ioNum >= 0 && !Empty(step)
    ensures Fair(v, step)
  {
    hide GetIoNum, PieceCount;
    if step.Admit? && AdmitResult(v, step.off, step.len) == 0 {
      AlignedDifference(v.size, step.off);
      LetInIsSmall(v, step.off, step.len);
      ReserveIff(step.off, CutLength(v, step.off, step.len));
    }
  }

  lemma {:induction false} RunSound(v: Volume, steps: seq<Step>, v': Volume)
    requires Sound(v) && Configured(v.depth, v.size) && IsRun(v, steps, v') && NoneEmpty(steps)
    ensures Sound(v') && v'.depth == v.depth
    decreases |steps|
  {
    hide Sound, Fair, Empty;
    if steps != [] {
      IoNumWithin(v);
      NotEmptyIsFair(v, steps[0]);
      StepSound(v, steps[0]);
      forall i | 0 <= i < |steps[1..]|
        ensures !Empty(steps[1..][i])
      {
        assert steps[1..][i] == steps[i + 1];
      }
      RunSound(Next(v, steps[0]), steps[1..], v');
    }
  }

  /** A thread that has been admitted gets an id, in range and not in use, for its next piece. */
  predicate GetsId(v: Volume) {
    v.reserved > 0 ==> 0 <= AllocId(v) <= v.depth && AllocId(v) !in v.out
  }

  lemma IoNumWithin(v: Volume)
    requires Sound(v)
    ensures 0 <= v.ioNum <= v.depth
  {
  }

  lemma OpenedSound(depth: nat, size: nat)
    ensures Sound(Opened(depth, size))
  {
  }

  /** In every state a volume can get into without empty requests, io_num stays within the io depth as well. */
  lemma AdmittedAlwaysGetsId(depth: nat, size: nat, steps: seq<Step>, v: Volume)
    requires Configured(depth, size) && IsRun(Opened(depth, size), steps, v) && NoneEmpty(steps)
    ensures 0 <= v.ioNum <= depth && |v.out| <= v.ioNum && GetsId(v)
  {
    OpenedSound(depth, size);
    RunSound(Opened(depth, size), steps, v);
    if v.reserved > 0 {
      assert v.free[0] in v.free;
    }
  }

  /** A request that is let in reserves one unit for each piece, if and only if it is not an empty one on a boundary. */
  lemma ReservesWhatIsSplit(v: Volume, off: nat, len: nat)
    requires AdmitResult(v, off, len) == 0 && Configured(v.depth, v.size) && v.ioNum >= 0
    ensures var cut := CutLength(v, off, len);
            && cut <= len && off + cut <= v.size && (cut < len ==> off + cut == v.size)
            && cut % LBA_LENGTH == 0 && (len > 0 ==> cut > 0)
            && Next(v, Admit(off, len)).reserved == v.reserved + PieceCount(off / LBA_LENGTH, Lbas(cut))
            && (Next(v, Admit(off, len)).ioNum - v.ioNum == Next(v, Admit(off, len)).reserved - v.reserved
                <==> !Empty(Admit(off, len)))
  {
    hide GetIoNum, PieceCount;
    AlignedDifference(v.size, off);
    LetInIsSmall(v, off, len);
    ReserveIff(off, CutLength(v, off, len));
  }

  // Empty requests reserve nothing and use up the ids.

  /** `n` empty requests have been let in and have taken no id yet. */
  function Crowded(depth: nat, size: nat, n: nat): Volume {
    Opened(depth, size).(reserved := n)
  }

  lemma EmptyIsLetIn(depth: nat, size: nat, n: nat)
    requires size > 0
    ensures Next(Crowded(depth, size, n), Admit(0, 0)) == Crowded(depth, size, n + 1)
  {
    EmptyIoNum(0);
  }

  lemma RunOn(v: Volume, step: Step, rest: seq<Step>, v': Volume)
    requires Enabled(v, step) && IsRun(Next(v, step), rest, v')
    ensures IsRun(v, [step] + rest, v')
  {
    hide Enabled, Next;
    assert ([step] + rest)[1..] == rest;
  }

  lemma {:induction false} Crowd(depth: nat, size: nat, n: nat, m: nat, steps: seq<Step>, v: Volume)
    returns (run: seq<Step>)
    requires size > 0 && n <= m && IsRun(Crowded(depth, size, m), steps, v)
    ensures IsRun(Crowded(depth, size, n), run, v)
    decreases m - n
  {
    hide Next;
    if n == m {
      run := steps;
    } else {
      EmptyIsLetIn(depth, size, n);
      run := Crowd(depth, size, n + 1, m, steps, v);
      RunOn(Crowded(depth, size, n), Admit(0, 0), run, v);
      run := [Admit(0, 0)] + run;
    }
  }

  /** Taking ids until only the one is left that is never given out. */
  lemma {:induction false} Exhaust(v: Volume) returns (steps: seq<Step>, v': Volume)
    requires v.reserved == |v.free| > 0 && -1 !in v.free
    ensures IsRun(v, steps, v') && v'.reserved == |v'.free| == 1
    decreases v.reserved
  {
    if v.reserved == 1 {
      steps, v' := [], v;
    } else {
      var w := Next(v, TakeId);
      steps, v' := Exhaust(w);
      RunOn(v, TakeId, steps, v');
      steps := [TakeId] + steps;
    }
  }

  /** In every run, with empty requests or only without them, whoever is admitted gets an id. */
  ghost predicate IdsSuffice(depth: nat, size: nat, withEmpty: bool) {
    forall steps: seq<Step>, v: Volume ::
      IsRun(Opened(depth, size), steps, v) && (withEmpty || NoneEmpty(steps)) ==> GetsId(v)
  }

  /** It takes as many empty requests as there are ids, all let in at once, to run out of them. */
  lemma IdsSufficeIff(depth: nat, size: nat, withEmpty: bool)
    requires Configured(depth, size) && size > 0
    ensures IdsSuffice(depth, size, withEmpty) <==> !withEmpty
  {
    if withEmpty {
      var v := Crowded(depth, size, depth + 1);
      var steps, v' := Exhaust(v);
      var run := Crowd(depth, size, 0, depth + 1, steps, v');
      assert Crowded(depth, size, 0) == Opened(depth, size);
      assert !GetsId(v');
    } else {
      forall steps: seq<Step>, v: Volume | IsRun(Opened(depth, size), steps, v) && NoneEmpty(steps)
        ensures GetsId(v)
      {
        AdmittedAlwaysGetsId(depth, size, steps, v);
      }
    }
  }

  lemma AlignedDifference(a: nat, b: nat)
    requires a % LBA_LENGTH == 0 && b % LBA_LENGTH == 0 && b <= a
    ensures (a - b) % LBA_LENGTH == 0
  {
    var q, r := a / 4096, b / 4096;
    assert a - b == 4096 * (q - r);
  }
}
