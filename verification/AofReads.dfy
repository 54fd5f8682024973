/**
  The reads of PfAof::read as they overlap (common/src/pf_aof.cpp): whole blocks go straight
  to the user's buffer, the blocks of the unaligned ends to a buffer of two blocks, and each
  arrives when the volume chooses. What is copied out of that buffer has arrived only because
  the semaphore was drained before.
 */
module AofReads {
  import opened Machine
  import opened AofFormat
  import opened AofVolume

  datatype Place = User | Ends

  datatype Request = Request(off: nat, len: nat, place: Place, at: nat)

  predicate Covers(r: Request, place: Place, k: nat) {
    r.place == place && r.at <= k < r.at + r.len
  }

  ghost predicate Disjoint(r: Request, u: Request) {
    r.place == u.place ==> r.at + r.len <= u.at || u.at + u.len <= r.at
  }

  ghost predicate AllDisjoint(r: Request, inflight: seq<Request>) {
    forall i :: 0 <= i < |inflight| ==> Disjoint(inflight[i], r)
  }

  /** The request brings what is expected in its place. */
  ghost predicate Brings(r: Request, d: seq<octet>, t: seq<octet>) {
    && r.off + r.len <= |d| && r.at + r.len <= |t|
    && forall k :: r.at <= k < r.at + r.len ==> t[k] == d[r.off + k - r.at]
  }

  ghost predicate AllBring(inflight: seq<Request>, place: Place, d: seq<octet>, t: seq<octet>) {
    forall i :: 0 <= i < |inflight| && inflight[i].place == place ==> Brings(inflight[i], d, t)
  }

  ghost predicate OnItsWay(inflight: seq<Request>, place: Place, k: nat) {
    exists i :: 0 <= i < |inflight| && Covers(inflight[i], place, k)
  }

  /** Every byte of `b` is the one expected, or a request that brings it is in flight. */
  ghost predicate Awaited(b: seq<octet>, t: seq<octet>, inflight: seq<Request>, place: Place) {
    |b| == |t| && forall k :: 0 <= k < |b| ==> b[k] == t[k] || OnItsWay(inflight, place, k)
  }

  /** What is expected once another request is on its way. */
  function Expecting(t: seq<octet>, at: nat, bytes: seq<octet>): (t': seq<octet>)
    requires at + |bytes| <= |t|
    ensures |t'| == |t|
    ensures forall k :: 0 <= k < |t| ==> t'[k] == if at <= k < at + |bytes| then bytes[k - at] else t[k]
  {
    t[..at] + bytes + t[at + |bytes|..]
  }

  function Without(inflight: seq<Request>, k: nat): seq<Request>
    requires k < |inflight|
  {
    inflight[..k] + inflight[k + 1..]
  }

  lemma StillOnItsWay(inflight: seq<Request>, k: nat, place: Place, x: nat)
    requires k < |inflight| && OnItsWay(inflight, place, x) && !Covers(inflight[k], place, x)
    ensures OnItsWay(Without(inflight, k), place, x)
  {
    var i :| 0 <= i < |inflight| && Covers(inflight[i], place, x);
    var j := if i < k then i else i - 1;
    assert Without(inflight, k)[j] == inflight[i];
  }

  /** A request that has arrived may be forgotten. */
  lemma Arrived(b: seq<octet>, b': seq<octet>, t: seq<octet>, inflight: seq<Request>, k: nat, place: Place)
    requires k < |inflight| && Awaited(b, t, inflight, place) && |b'| == |b|
    requires forall x :: 0 <= x < |b| ==> b'[x] == if Covers(inflight[k], place, x) then t[x] else b[x]
    ensures Awaited(b', t, Without(inflight, k), place)
  {
    forall x | 0 <= x < |b| && b'[x] != t[x]
      ensures OnItsWay(Without(inflight, k), place, x)
    {
      StillOnItsWay(inflight, k, place, x);
    }
  }

  lemma OthersBring(inflight: seq<Request>, k: nat, place: Place, d: seq<octet>, t: seq<octet>)
    requires k < |inflight| && AllBring(inflight, place, d, t)
    ensures AllBring(Without(inflight, k), place, d, t)
  {
    forall i | 0 <= i < |Without(inflight, k)| && Without(inflight, k)[i].place == place
      ensures Brings(Without(inflight, k)[i], d, t)
    {
      assert Without(inflight, k)[i] == inflight[if i < k then i else i + 1];
    }
  }

  /** Another request on its way, to a place of its own. */
  lemma Sent(b: seq<octet>, t: seq<octet>, t': seq<octet>, inflight: seq<Request>, r: Request, place: Place,
             d: seq<octet>)
    requires Awaited(b, t, inflight, place) && AllBring(inflight, place, d, t) && AllDisjoint(r, inflight)
    requires r.off + r.len <= |d| && (r.place == place ==> r.at + r.len <= |t|)
    requires t' == if r.place == place then Expecting(t, r.at, d[r.off..r.off + r.len]) else t
    ensures Awaited(b, t', inflight + [r], place) && AllBring(inflight + [r], place, d, t')
  {
    var all := inflight + [r];
    forall x | 0 <= x < |b| && b[x] != t'[x]
      ensures OnItsWay(all, place, x)
    {
      if Covers(r, place, x) {
        assert all[|inflight|] == r;
      } else {
        var i :| 0 <= i < |inflight| && Covers(inflight[i], place, x);
        assert all[i] == inflight[i];
      }
    }
    forall i | 0 <= i < |all| && all[i].place == place
      ensures Brings(all[i], d, t')
    {
      if i < |inflight| {
        assert Disjoint(inflight[i], r) && Brings(inflight[i], d, t);
      }
    }
  }

  /** io_waiter, for reads. */
  class ReadWaiter {
    const volume: Volume
    const buf: array<octet>
    const readBuf: array<octet>
    var tokens: nat
    var inflight: seq<Request>
    var clock: nat
    /** What the two buffers will hold when everything has arrived, and how many of the last waits have returned. */
    ghost var expected: seq<octet>
    ghost var expectedEnds: seq<octet>
    ghost var waits: nat

    ghost predicate Valid()
      reads this, volume, buf, readBuf
    {
      && buf != readBuf && tokens + |inflight| + waits == AOF_IODEPTH
      && Awaited(buf[..], expected, inflight, User) && AllBring(inflight, User, volume.data, expected)
      && Awaited(readBuf[..], expectedEnds, inflight, Ends) && AllBring(inflight, Ends, volume.data, expectedEnds)
    }

    constructor (volume: Volume, buf: array<octet>, readBuf: array<octet>)
      requires buf != readBuf
      ensures Valid() && this.volume == volume && this.buf == buf && this.readBuf == readBuf
      ensures inflight == [] && waits == 0 && expected == buf[..] && expectedEnds == readBuf[..]
    {
      this.volume, this.buf, this.readBuf := volume, buf, readBuf;
      tokens, inflight, clock, waits := AOF_IODEPTH, [], volume.clock, 0;
      expected, expectedEnds := buf[..], readBuf[..];
    }

    /** Only reads have arrived in between. */
    twostate predicate SameControl()
      reads this
    {
      expected == old(expected) && expectedEnds == old(expectedEnds) && waits == old(waits)
    }

    /** A read arrives in its place, and io_cbk posts the semaphore. */
    method FinishOne(k: nat)
      requires Valid() && k < |inflight|
      modifies this, buf, readBuf
      ensures Valid() && SameControl() && tokens == old(tokens) + 1
      ensures inflight == Without(old(inflight), k)
    {
      hide Awaited, AllBring, Without;
      var r := inflight[k];
      BringsBytes(k);
      if r.place == User {
        CopyTo(buf, r.at, volume.data[r.off..r.off + r.len]);
      } else {
        CopyTo(readBuf, r.at, volume.data[r.off..r.off + r.len]);
      }
      Arrived(old(buf[..]), buf[..], expected, inflight, k, User);
      Arrived(old(readBuf[..]), readBuf[..], expectedEnds, inflight, k, Ends);
      OthersBring(inflight, k, User, volume.data, expected);
      OthersBring(inflight, k, Ends, volume.data, expectedEnds);
      OneLess(inflight, k);
      inflight := Without(inflight, k);
      tokens := tokens + 1;
    }

    lemma BringsBytes(k: nat)
      requires Valid() && k < |inflight|
      ensures Brings(inflight[k], volume.data, if inflight[k].place == User then expected else expectedEnds)
      ensures |expected| == buf.Length && |expectedEnds| == readBuf.Length
    {
      assert inflight[k].place == User || inflight[k].place == Ends;
    }

    /** sem_wait up to the moment it can return. */
    method AwaitToken()
      requires Valid() && (tokens > 0 || inflight != [])
      modifies this, buf, readBuf
      ensures Valid() && SameControl() && tokens > 0 && Kept(old(inflight))
    {
      hide Awaited, AllBring;
      var order := volume.completions(clock);
      clock := clock + 1;
      var i := 0;
      while i < |order| && inflight != []
        invariant Valid() && SameControl() && (tokens > 0 || inflight != []) && Kept(old(inflight))
      {
        FinishOne(order[i] % |inflight|);
        i := i + 1;
      }
      if tokens == 0 {
        FinishOne(0);
      }
    }

    /** No request has come up that was not in flight before. */
    ghost predicate Kept(before: seq<Request>)
      reads this
    {
      forall r :: r in inflight ==> r in before
    }

    /** sem_wait and pf_io_submit_read. */
    method SubmitRead(off: nat, len: nat, place: Place, at: nat)
      requires Valid() && waits == 0 && IoOk(off, len) && off + len <= |volume.data|
      requires at + len <= if place == User then buf.Length else readBuf.Length
      requires AllDisjoint(Request(off, len, place, at), inflight)
      modifies this, buf, readBuf
      ensures Valid() && waits == 0 && |expected| == |old(expected)| && |expectedEnds| == |old(expectedEnds)|
      ensures forall r :: r in inflight ==> r in old(inflight) || r == Request(off, len, place, at)
      ensures place == User ==> expectedEnds == old(expectedEnds) && at + len <= |old(expected)|
                                && expected == Expecting(old(expected), at, volume.data[off..off + len])
      ensures place == Ends ==> expected == old(expected) && at + len <= |old(expectedEnds)|
                                && expectedEnds == Expecting(old(expectedEnds), at, volume.data[off..off + len])
    {
      hide Awaited, AllBring, Expecting, Disjoint;
      var r := Request(off, len, place, at);
      Lengths();
      AwaitToken();
      StillDisjoint(r, old(inflight), inflight);
      ghost var t, e := expected, expectedEnds;
      if place == User {
        expected := Expecting(t, at, volume.data[off..off + len]);
      } else {
        expectedEnds := Expecting(e, at, volume.data[off..off + len]);
      }
      Sent(buf[..], t, expected, inflight, r, User, volume.data);
      Sent(readBuf[..], e, expectedEnds, inflight, r, Ends, volume.data);
      tokens := tokens - 1;
      inflight := inflight + [r];
    }

    lemma Lengths()
      requires Valid()
      ensures |expected| == buf.Length && |expectedEnds| == readBuf.Length
      ensures waits < AOF_IODEPTH ==> tokens > 0 || inflight != []
    {
    }

    /** As many waits as the semaphore is deep: nothing is in flight, and everything expected has arrived. */
    method Drain()
      requires Valid() && waits == 0
      modifies this, buf, readBuf
      ensures inflight == [] && buf[..] == old(expected) && readBuf[..] == old(expectedEnds)
    {
      hide Awaited, AllBring;
      var i := 0;
      while i < AOF_IODEPTH
        invariant i <= AOF_IODEPTH && Valid() && waits == i
        invariant expected == old(expected) && expectedEnds == old(expectedEnds)
      {
        Lengths();
        AwaitToken();
        tokens := tokens - 1;
        waits := waits + 1;
        i := i + 1;
      }
      NothingAwaited(buf[..], expected, User);
      NothingAwaited(readBuf[..], expectedEnds, Ends);
    }
  }

  lemma OneLess(inflight: seq<Request>, k: nat)
    requires k < |inflight|
    ensures |Without(inflight, k)| == |inflight| - 1
    ensures forall r :: r in Without(inflight, k) ==> r in inflight
  {
  }

  lemma StillDisjoint(r: Request, before: seq<Request>, after: seq<Request>)
    requires AllDisjoint(r, before) && forall u :: u in after ==> u in before
    ensures AllDisjoint(r, after)
  {
    forall i | 0 <= i < |after|
      ensures Disjoint(after[i], r)
    {
      assert after[i] in before;
    }
  }

  lemma NothingAwaited(b: seq<octet>, t: seq<octet>, place: Place)
    requires Awaited(b, t, [], place)
    ensures b == t
  {
  }
}
