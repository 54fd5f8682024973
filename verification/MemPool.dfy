/**
  The FIFO object pools (common/include/pf_mempool.h, common/src/pf_buffer.cpp), the
  set-up loop of PfClientAppCtx::init, and pick_iocb, which turns a command id back into
  its request.
 */
module MemPool {
  import opened FixedSizeQueue
  import opened Machine

  /** A pool over a fixed array of objects; the free ones wait in a ring. */
  class Pool<U(==)> {
    const data: seq<U>
    const freeObjQueue: Ring<U>
    ghost var free: seq<U>

    ghost const repr: set<object>

    ghost predicate Valid()
      reads this, repr
    {
      && repr == {this, freeObjQueue, freeObjQueue.data}
      && freeObjQueue.Valid() && freeObjQueue.Capacity() == |data|
      && free == freeObjQueue.Contents()
    }

    /** init: every object of the array goes into the ring, in index order. */
    constructor (objects: seq<U>, zero: U)
      ensures Valid() && fresh(repr) && data == objects && free == objects
    {
      data := objects;
      free := [];
      var ring := new Ring(|objects|, zero);
      freeObjQueue := ring;
      repr := {this, ring, ring.data};
      new;
      FreeAll();
    }

    /** The loop of init. */
    method FreeAll()
      requires Valid() && free == []
      modifies repr
      ensures Valid() && free == data
    {
      hide Valid;
      var i := 0;
      while i < |data|
        invariant i <= |data| && Valid() && free == data[..i]
      {
        var ok := Free(data[i]);
        i := i + 1;
      }
    }

    method Alloc() returns (r: Option<U>)
      requires Valid()
      modifies repr
      ensures Valid()
      ensures r == if old(free) == [] then None else Some(old(free)[0])
      ensures free == if r.Some? then old(free)[1..] else []
    {
      if freeObjQueue.IsEmpty() {
        return None;
      }
      var t := freeObjQueue.Dequeue();
      r := Some(t.value);
      free := free[1..];
    }

    /** free: false stands for the exception thrown when the pool is already full. */
    method Free(p: U) returns (ok: bool)
      requires Valid()
      modifies repr
      ensures Valid()
      ensures ok <==> |old(free)| < |data|
      ensures free == if ok then old(free) + [p] else old(free)
    {
      var rc := freeObjQueue.Enqueue(p);
      ok := rc == 0;
      if ok {
        free := free + [p];
      }
    }
  }

  /** A descriptor; `clientIocb` is the index of the request it belongs to. */
  datatype BufferDescriptor = BufferDescriptor(commandId: u16, commandSeq: nat, dataLen: nat, bufCapacity: nat,
                                               clientIocb: Option<nat>)

  /** A request; its descriptors are indexes into the pools they come from. */
  datatype Iocb = Iocb(cmdBd: Option<nat>, dataBd: Option<nat>, replyBd: Option<nat>)

  function Indexes(n: nat): (s: seq<nat>)
    ensures |s| == n && forall i :: 0 <= i < n ==> s[i] == i
  {
    seq(n, i => i)
  }

  /** Taking the first element away and putting it back at the end, `i` times over. */
  function Rotated(s: seq<nat>, i: nat): seq<nat>
    requires i <= |s|
  {
    s[i..] + s[..i]
  }

  /** Requests and descriptors, each in its pool's array, with objects named by their index. */
  class ClientAppCtx {
    var iocbs: seq<Iocb>
    var cmds: seq<BufferDescriptor>
    var datas: seq<BufferDescriptor>
    var replies: seq<BufferDescriptor>
    const iocbPool: Pool<nat>
    const cmdPool: Pool<nat>
    const dataPool: Pool<nat>
    const replyPool: Pool<nat>

    ghost predicate Separate() {
      && iocbPool.repr !! cmdPool.repr !! dataPool.repr !! replyPool.repr
      && this !in iocbPool.repr + cmdPool.repr + dataPool.repr + replyPool.repr
    }

    ghost function Pools(): set<object> {
      iocbPool.repr + cmdPool.repr + dataPool.repr + replyPool.repr
    }

    /** Request `i` owns command descriptor `i`, which carries its id, and data descriptor `i`. */
    ghost predicate Wired(i: nat)
      requires i < |iocbs|
      reads this
    {
      && iocbs[i] == Iocb(Some(i), Some(i), None)
      && i < |cmds| && cmds[i].commandId == i % 0x1_0000 && cmds[i].clientIocb == Some(i)
      && cmds[i].dataLen == cmds[i].bufCapacity
      && i < |datas| && datas[i].clientIocb == Some(i)
    }

    /** What `i` turns of the set-up loop have done to the free lists. */
    ghost predicate PoolsAfter(i: nat, n: nat)
      reads Pools(), iocbPool, cmdPool, dataPool, replyPool
    {
      && i <= n
      && Separate()
      && iocbPool.Valid() && cmdPool.Valid() && dataPool.Valid() && replyPool.Valid()
      && |iocbPool.data| == |replyPool.data| == n
      && iocbPool.free == Rotated(Indexes(n), i)
      && replyPool.free == Rotated(Indexes(n), i)
      && cmdPool.free == Indexes(n)[i..]
      && dataPool.free == Indexes(n)[i..]
    }

    /** And to the requests and descriptors. */
    ghost predicate WiredUpTo(i: nat, n: nat)
      reads this
    {
      i <= n == |iocbs| == |cmds| == |datas| == |replies| && forall k :: 0 <= k < i ==> Wired(k)
    }

    /** The pools of PfClientAppCtx::init. */
    constructor (resourceCnt: nat, cmdSize: nat, dataSize: nat, replySize: nat)
      ensures PoolsAfter(0, resourceCnt) && WiredUpTo(0, resourceCnt) && fresh(Pools())
    {
      hide Indexes, Pool.Valid;
      var none := BufferDescriptor(0, 0, 0, 0, None);
      datas := seq(resourceCnt, _ => none.(bufCapacity := dataSize));
      dataPool := new Pool(Indexes(resourceCnt), 0);
      cmds := seq(resourceCnt, _ => none.(bufCapacity := cmdSize));
      cmdPool := new Pool(Indexes(resourceCnt), 0);
      replies := seq(resourceCnt, _ => none.(bufCapacity := replySize));
      replyPool := new Pool(Indexes(resourceCnt), 0);
      iocbs := seq(resourceCnt, _ => Iocb(None, None, None));
      iocbPool := new Pool(Indexes(resourceCnt), 0);
      new;
      RotateAll(resourceCnt);
    }

    /** The set-up loop: every request gets its descriptors, and the pools of requests and replies end as they began. */
    method WireAll(resourceCnt: nat)
      requires PoolsAfter(0, resourceCnt) && WiredUpTo(0, resourceCnt)
      modifies this, Pools()
      ensures WiredUpTo(resourceCnt, resourceCnt) && PoolsAfter(resourceCnt, resourceCnt)
      ensures iocbPool.free == replyPool.free == Indexes(resourceCnt)
      ensures cmdPool.free == dataPool.free == []
    {
      var i := 0;
      while i < resourceCnt
        invariant PoolsAfter(i, resourceCnt) && WiredUpTo(i, resourceCnt)
      {
        var io, c, d, r := TakeOneOfEach(i, resourceCnt);
        WireOne(i, io, c, d, r);
        i := i + 1;
      }
      RotateAll(resourceCnt);
    }

    /** The assignments of one turn. */
    method WireOne(i: nat, io: nat, c: nat, d: nat, r: nat)
      requires WiredUpTo(i, |iocbs|) && io == c == d == r == i < |iocbs|
      modifies this
      ensures |iocbs| == old(|iocbs|) && WiredUpTo(i + 1, |iocbs|)
    {
      iocbs := iocbs[io := Iocb(Some(c), Some(d), None)];
      cmds := cmds[c := cmds[c].(commandId := i % 0x1_0000, dataLen := cmds[c].bufCapacity, clientIocb := Some(io))];
      datas := datas[d := datas[d].(clientIocb := Some(io))];
      replies := replies[r := replies[r].(dataLen := replies[r].bufCapacity, clientIocb := None)];
      forall k | 0 <= k <= i
        ensures Wired(k)
      {
        if k < i { assert old(Wired(k)); }
      }
    }

    /** The alloc and free calls of one turn: a request and a reply go round, a command and a data buffer are kept. */
    method TakeOneOfEach(i: nat, n: nat) returns (io: nat, c: nat, d: nat, r: nat)
      requires i < n && PoolsAfter(i, n)
      modifies Pools()
      ensures PoolsAfter(i + 1, n)
      ensures io == c == d == r == i
    {
      RotateOnce(n, i);
      io, c, d, r := AllocEach(i, n);
      var ok := replyPool.Free(r);
      ok := iocbPool.Free(io);
    }

    method AllocEach(i: nat, n: nat) returns (io: nat, c: nat, d: nat, r: nat)
      requires i < n && PoolsAfter(i, n)
      modifies Pools()
      ensures Separate() && iocbPool.Valid() && cmdPool.Valid() && dataPool.Valid() && replyPool.Valid()
      ensures iocbPool.free == replyPool.free == Rotated(Indexes(n), i)[1..]
      ensures cmdPool.free == dataPool.free == Indexes(n)[i..][1..]
      ensures io == c == d == r == i
    {
      RotateOnce(n, i);
      var io' := iocbPool.Alloc();
      var c' := cmdPool.Alloc();
      var d' := dataPool.Alloc();
      var r' := replyPool.Alloc();
      io, c, d, r := io'.value, c'.value, d'.value, r'.value;
    }

    /** pick_iocb: the request at that index, unless its command has moved on to another sequence number. */
    method PickIocb(cid: u16, cmdSeq: nat) returns (io: Option<nat>)
      requires cid < |iocbs| && WiredUpTo(|iocbs|, |iocbs|)
      ensures io == Picked(cid, cmdSeq)
      ensures io == None <==> cmds[cid].commandSeq != cmdSeq
      ensures io == None || io == Some(cid)
    {
      assert Wired(cid);
      var cmd := iocbs[cid].cmdBd.value;
      if cmds[cmd].commandSeq != cmdSeq {
        return None;
      }
      return Some(cid);
    }

    ghost function Picked(cid: u16, cmdSeq: nat): Option<nat>
      requires cid < |cmds|
      reads this
    {
      if cmds[cid].commandSeq == cmdSeq then Some(cid) else None
    }

    /** The answer to a reply carrying the id and sequence of the command of request `i`. */
    ghost predicate PicksItself(i: nat)
      requires i < |iocbs| && WiredUpTo(|iocbs|, |iocbs|)
      reads this
    {
      assert Wired(i);
      var cmd := cmds[iocbs[i].cmdBd.value];
      Picked(cmd.commandId, cmd.commandSeq) == Some(i)
    }

    /** Once the command of a request has moved on, a reply to an older one does not find the request any more. */
    lemma StaleIsNotPicked(i: nat, stale: nat)
      requires i < |iocbs| <= 0x1_0000 && WiredUpTo(|iocbs|, |iocbs|) && i < |cmds| && stale != cmds[i].commandSeq
      ensures i < |cmds| && cmds[i].commandId < |cmds| && Picked(cmds[i].commandId, stale) == None
    {
      assert Wired(i);
    }

    /** The id of a request leads back to it, for all of them exactly when the ids fit 16 bits. */
    lemma EveryRequestPicksItself()
      requires WiredUpTo(|iocbs|, |iocbs|)
      ensures (forall i :: 0 <= i < |iocbs| ==> PicksItself(i)) <==> |iocbs| <= 0x1_0000
    {
      if |iocbs| > 0x1_0000 {
        assert Wired(0x1_0000) && !PicksItself(0x1_0000);
      } else {
        forall i | 0 <= i < |iocbs|
          ensures PicksItself(i)
        {
          assert Wired(i);
        }
      }
    }
  }

  const PF_MAX_IO_DEPTH: nat := 255

  /** What do_open makes of the configured depth: every depth that it accepts leads each reply to its request. */
  method DoOpen(ioDepth: nat, isAof: bool, cmdSize: nat, dataSize: nat, replySize: nat)
    returns (rc: int, ctx: ClientAppCtx?)
    ensures rc == (if ioDepth <= PF_MAX_IO_DEPTH then 0 else EINVAL) && (ctx != null <==> rc == 0)
    ensures ctx != null ==>
              && |ctx.iocbs| == 2 * (if isAof then AOF_IODEPTH else ioDepth)
              && ctx.WiredUpTo(|ctx.iocbs|, |ctx.iocbs|)
              && forall i :: 0 <= i < |ctx.iocbs| ==> ctx.PicksItself(i)
  {
    if ioDepth > PF_MAX_IO_DEPTH {
      return EINVAL, null;
    }
    var resourceCnt := 2 * if isAof then AOF_IODEPTH else ioDepth;
    var made := new ClientAppCtx(resourceCnt, cmdSize, dataSize, replySize);
    made.WireAll(resourceCnt);
    made.EveryRequestPicksItself();
    return 0, made;
  }

  lemma RotateAll(n: nat)
    ensures Rotated(Indexes(n), 0) == Indexes(n)[0..] == Rotated(Indexes(n), n) == Indexes(n)
    ensures Indexes(n)[n..] == []
  {
  }

  lemma RotateOnce(n: nat, i: nat)
    requires i < n
    ensures Rotated(Indexes(n), i)[1..] + [i] == Rotated(Indexes(n), i + 1)
    ensures Rotated(Indexes(n), i)[0] == i
    ensures Indexes(n)[i..][1..] == Indexes(n)[i + 1..] && Indexes(n)[i..][0] == i
  {
  }
}
