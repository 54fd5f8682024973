/**
  The volume under an append-only file, and the waiter through which sync writes to it
  (common/src/pf_aof.cpp): writes finish when the volume chooses, and only the semaphore
  tells that they have. Calls into the volume succeed.
 */
module AofVolume {
  import opened Machine
  import opened AofFormat
  import opened AofSync

  /**
    Bytes, written and read in whole blocks inside a segment. `completions` says which of
    the writes in flight finish while the caller is at its n-th wait; it is arbitrary.
   */
  class Volume {
    var data: seq<octet>
    const completions: nat -> seq<nat>
    var clock: nat

    constructor (initial: seq<octet>, completions: nat -> seq<nat>)
      ensures data == initial
    {
      data, clock, this.completions := initial, 0, completions;
    }

    /** sync_io: a single read, and the wait for it. */
    method SyncRead(off: nat, len: nat) returns (bytes: seq<octet>)
      requires IoOk(off, len) && off + len <= |data|
      ensures bytes == data[off..off + len]
    {
      bytes := data[off..off + len];
    }
  }

  /** io_waiter: the semaphore, and the writes that will post it. */
  class IoWaiter {
    const volume: Volume
    var tokens: nat
    var inflight: seq<Write>
    ghost const v0: seq<octet>
    ghost var state: State

    ghost predicate Valid()
      reads this, volume
    {
      && tokens == state.tokens && multiset(inflight) == state.inflight && volume.data == state.volume
      && state.depth == AOF_IODEPTH && state.failed == multiset{} && !Short(state) && Sound(state, v0)
    }

    constructor (volume: Volume, ghost plan: seq<Write>, ghost headWrite: Write)
      requires Fit(volume.data, plan) && headWrite.off + |headWrite.bytes| <= |volume.data|
      ensures Valid() && this.volume == volume && v0 == volume.data
      ensures state == Begin(AOF_IODEPTH, AOF_IODEPTH, plan, headWrite, volume.data)
    {
      this.volume, tokens, inflight := volume, AOF_IODEPTH, [];
      v0, state := volume.data, Begin(AOF_IODEPTH, AOF_IODEPTH, plan, headWrite, volume.data);
      BeginSound(AOF_IODEPTH, plan, headWrite, volume.data);
    }

    /** Only writes have finished in between. */
    ghost predicate SameControl(s: State)
      reads this
    {
      && state.plan == s.plan && state.headWrite == s.headWrite && state.issued == s.issued && state.waits == s.waits
      && state.head == s.head && state.returned == s.returned && state.drain == s.drain
    }

    /** The first `n` writes of the plan of `s` have been issued, and nothing else has begun. */
    ghost predicate Issuing(s: State, n: nat)
      reads this
    {
      && state.plan == s.plan && state.headWrite == s.headWrite && state.issued == n <= |s.plan|
      && state.waits == 0 && state.head == NotIssued
    }

    /** A write in flight finishes and io_cbk posts the semaphore. */
    method FinishOne(k: nat)
      requires Valid() && k < |inflight|
      modifies this, volume
      ensures Valid() && SameControl(old(state))
      ensures tokens == old(tokens) + 1 && |inflight| == |old(inflight)| - 1
    {
      hide Sound, Enabled, Next, Short, Apply;
      var w := inflight[k];
      WithoutOne(inflight, k);
      CanFinish(state, v0, w);
      Finished(state, w);
      StepSound(state, v0, Complete(w));
      state := Next(state, Complete(w));
      volume.data := volume.data[..w.off] + w.bytes + volume.data[w.off + |w.bytes|..];
      inflight := inflight[..k] + inflight[k + 1..];
      tokens := tokens + 1;
    }

    /** sem_wait up to the moment it can return: some writes finish meanwhile, at least one if it has to. */
    method AwaitToken()
      requires Valid() && (tokens > 0 || inflight != [])
      modifies this, volume
      ensures Valid() && SameControl(old(state)) && tokens > 0
    {
      hide Sound;
      var order := volume.completions(volume.clock);
      volume.clock := volume.clock + 1;
      var i := 0;
      while i < |order| && inflight != []
        invariant Valid() && SameControl(old(state)) && (tokens > 0 || inflight != [])
      {
        FinishOne(order[i] % |inflight|);
        i := i + 1;
      }
      if tokens == 0 {
        FinishOne(0);
      }
    }

    /** sem_wait and pf_io_submit_write for the next planned write. */
    method SubmitWrite(off: nat, bytes: seq<octet>)
      requires Valid() && IoOk(off, |bytes|)
      requires state.issued < |state.plan| && state.plan[state.issued] == Write(off, bytes)
      modifies this, volume
      ensures Valid() && Issuing(old(state), old(state).issued + 1)
    {
      hide Settled, Between;
      TokenToCome(state, v0);
      AwaitToken();
      StepSound(state, v0, Issue);
      state := Next(state, Issue);
      tokens := tokens - 1;
      inflight := inflight + [Write(off, bytes)];
    }

    /** The waits that drain the semaphore. */
    method Drain()
      requires Valid() && Issuing(state, |state.plan|)
      modifies this, volume
      ensures Valid() && state.plan == old(state).plan && state.headWrite == old(state).headWrite
      ensures state.issued == |state.plan| && state.waits == state.drain && state.head == NotIssued
    {
      hide Settled, Between;
      var i := 0;
      while i < AOF_IODEPTH
        invariant i <= AOF_IODEPTH && Valid() && state.waits == i && state.head == NotIssued
        invariant state.plan == old(state).plan && state.headWrite == old(state).headWrite
        invariant state.issued == |state.plan|
      {
        TokenToCome(state, v0);
        AwaitToken();
        StepSound(state, v0, Wait);
        state := Next(state, Wait);
        tokens := tokens - 1;
        i := i + 1;
      }
    }

    /** The head is submitted, finishes, and the last wait returns. */
    method WriteHead(head: seq<octet>)
      requires Valid() && state.issued == |state.plan| && state.waits == state.drain && state.head == NotIssued
      requires IoOk(0, |head|) && state.headWrite == Write(0, head)
      modifies this, volume
      ensures Valid() && state.plan == old(state).plan && state.headWrite == old(state).headWrite
      ensures state.returned && state.head == Written
    {
      hide Between, ApplyAll;
      StepSound(state, v0, IssueHead);
      state := Next(state, IssueHead);
      StepSound(state, v0, CompleteHead);
      state := Next(state, CompleteHead);
      volume.data := head + volume.data[|head|..];
      tokens := tokens + 1;
      StepSound(state, v0, Return);
      state := Next(state, Return);
      tokens := tokens - 1;
    }
  }

  lemma WithoutOne(ws: seq<Write>, k: nat)
    requires k < |ws|
    ensures ws[k] in multiset(ws) && multiset(ws[..k] + ws[k + 1..]) == multiset(ws) - multiset{ws[k]}
  {
    assert ws == ws[..k] + [ws[k]] + ws[k + 1..];
  }

  lemma CanFinish(s: State, v0: seq<octet>, w: Write)
    requires Sound(s, v0) && w in s.inflight
    ensures Enabled(s, Complete(w)) && w.off + |w.bytes| <= |s.volume|
  {
    hide Between;
    Planned(s, w);
  }

  lemma Finished(s: State, w: Write)
    requires Enabled(s, Complete(w))
    ensures var n := Next(s, Complete(w));
            && w.off + |w.bytes| <= |s.volume|
            && n.volume == s.volume[..w.off] + w.bytes + s.volume[w.off + |w.bytes|..]
            && n.inflight == s.inflight - multiset{w} && n.tokens == s.tokens + 1
            && n.depth == s.depth && n.failed == s.failed && (Short(n) <==> Short(s)) && n.drain == s.drain
            && n.plan == s.plan && n.headWrite == s.headWrite && n.issued == s.issued && n.waits == s.waits
            && n.head == s.head && n.returned == s.returned
  {
  }

  /** A wait never lasts for ever: as long as waits are left there is a token or a write that will post one. */
  lemma TokenToCome(s: State, v0: seq<octet>)
    requires Sound(s, v0) && s.depth > 0 && s.head == NotIssued && !Short(s)
    requires s.issued < |s.plan| || s.waits < s.drain
    ensures s.tokens > 0 || s.inflight != multiset{}
  {
    hide Settled;
  }
}
