/**
  A block node as S5bd keeps it: flag, running count, bit array and linked queue, changed
  in place by process_task, dispatch_task and recv_session_aio_reply. Every operation
  takes the state machine of SchedulerProtocol one step.
 */
module BlockNode {
  import opened SchedulerProtocol
  import opened UnitQueue
  import opened BitArray

  ghost function Reqs(nodes: seq<UnitNode>): (rs: seq<Req>)
    ensures |rs| == |nodes| && forall i :: 0 <= i < |rs| ==> rs[i] == nodes[i].req
  {
    seq(|nodes|, i requires 0 <= i < |nodes| => nodes[i].req)
  }

  class Block {
    var flag: Flag
    var runningNum: nat
    const readyqueue: Queue
    const barr: Bits
    ghost var node: Node

    ghost predicate Valid()
      reads this, readyqueue, readyqueue.nodes, barr, barr.arr
    {
      && readyqueue.Valid() && barr.Valid() && barr.len == SLOT_SIZE
      && flag == node.flag && runningNum == node.runningNum
      && node.queue == Reqs(readyqueue.nodes)
      && MarksBits(node.bits)
    }

    /** The bit array holds exactly this set. */
    ghost predicate MarksBits(bits: set<nat>)
      requires barr.Valid() && barr.len == SLOT_SIZE
      reads barr, barr.arr
    {
      && (forall b :: b in bits ==> b < SLOT_SIZE)
      && (forall b :: 0 <= b < SLOT_SIZE ==> (barr.At(b) <==> b in bits))
    }

    constructor ()
      ensures Valid() && node == FRESH
      ensures fresh(readyqueue) && fresh(barr) && fresh(barr.arr)
    {
      flag, runningNum := NODE_IDLE, 0;
      readyqueue := new Queue();
      barr := new Bits(SLOT_SIZE);
      node := FRESH;
    }

    /** bitarray_set on the LBAs of a request: it takes them if and only if none is taken. */
    method TakeBits(r: Req, ghost bits: set<nat>) returns (ok: bool)
      requires barr.Valid() && barr.len == SLOT_SIZE && InBlock(r) && MarksBits(bits)
      modifies barr.arr
      ensures ok <==> Range(r) !! bits
      ensures MarksBits(if ok then bits + Range(r) else bits)
    {
      ok := barr.Set(r.off, r.n);
      assert forall i :: r.off <= i < r.off + r.n ==> (old(barr.At(i)) <==> i in bits) && Covers(r, i) && i in Range(r);
    }

    method GiveBitsBack(r: Req, ghost bits: set<nat>)
      requires barr.Valid() && barr.len == SLOT_SIZE && InBlock(r) && MarksBits(bits)
      modifies barr.arr
      ensures MarksBits(bits - Range(r))
    {
      barr.Reset(r.off, r.n);
    }

    /** process_task between lock and unlock; `isSend` asks the caller to send the request. */
    method ProcessTask(unode: UnitNode) returns (isSend: bool)
      requires Valid() && Sound(node) && InBlock(unode.req) && unode !in readyqueue.nodes
      modifies this, barr.arr, readyqueue, readyqueue.nodes, unode
      ensures Valid() && Sound(node) && node == Submit(old(node), unode.req)
      ensures isSend <==> node.sent == old(node).sent + 1
      ensures isSend <==> old(readyqueue.nodes) == [] &&
                          forall i :: i in old(node).running ==> !Overlap(old(node).submitted[i], unode.req)
      ensures readyqueue.nodes == if isSend then old(readyqueue.nodes) else old(readyqueue.nodes) + [unode]
    {
      hide Sound, Reqs, Range, MarksBits, Queue.Valid, Bits.At;
      SubmitSound(node, unode.req);
      SubmitSendsIff(node, unode.req);
      SoundFlag(node);
      isSend := false;
      if flag == NODE_UNBLOCKED {
        var ok := TakeBits(unode.req, node.bits);
        if ok {
          assert readyqueue.Empty();
          runningNum := runningNum + 1;
          isSend := true;
        } else {
          flag := NODE_BLOCKED;
          readyqueue.Enqueue(unode);
        }
      } else if flag == NODE_BLOCKED {
        readyqueue.Enqueue(unode);
      } else {
        var isBitarraySet := TakeBits(unode.req, node.bits);
        assert isBitarraySet by { IdleIsFree(node, unode.req); }
        flag := NODE_UNBLOCKED;
        runningNum := runningNum + 1;
        isSend := true;
      }
      ReqsAppend(old(readyqueue.nodes), unode);
      node := Submit(node, unode.req);
    }

    /** dispatch_task, called when nothing runs. */
    method DispatchTask() returns (sends: seq<UnitNode>)
      requires Valid() && (forall r :: r in node.queue ==> InBlock(r))
      requires flag == if node.queue == [] then NODE_UNBLOCKED else NODE_BLOCKED
      modifies this, barr.arr, readyqueue, readyqueue.nodes
      ensures Valid() && node == Dispatch(old(node))
      ensures sends + readyqueue.nodes == old(readyqueue.nodes)
    {
      hide Range, Reqs, SendReady;
      sends := [];
      if readyqueue.Empty() {
        assert flag == NODE_UNBLOCKED;
        flag := NODE_IDLE;
        node := Dispatch(node);
      } else {
        assert flag == NODE_BLOCKED;
        sends := SendFromHead();
      }
    }

    /** The loop of dispatch_task: send from the head of the queue as long as the requests fit. */
    method SendFromHead() returns (sends: seq<UnitNode>)
      requires Valid() && (forall r :: r in node.queue ==> InBlock(r))
      modifies this, barr.arr, readyqueue, readyqueue.nodes
      ensures Valid() && node == SendReady(old(node))
      ensures sends + readyqueue.nodes == old(readyqueue.nodes)
      ensures readyqueue.nodes != [] ==> !Free(node, readyqueue.nodes[0].req)
    {
      hide SendReady, Valid, Start, Free;
      sends := [];
      ghost var all := readyqueue.nodes;
      HeadIsFirst();
      var unode := readyqueue.head;
      while unode != null
        invariant Valid() && unode == readyqueue.head && (unode != null <==> readyqueue.nodes != [])
        invariant |readyqueue.nodes| == |node.queue|
        invariant |sends| <= |all| && sends == all[..|sends|] && readyqueue.nodes == all[|sends|..]
        invariant SendReady(node) == SendReady(old(node))
        invariant forall r :: r in node.queue ==> InBlock(r)
        decreases |readyqueue.nodes|
      {
        HeadIsFirst();
        SendReadyUnfolds(node);
        var head: UnitNode := unode;
        assert head == all[|sends|];
        var ok := TrySendHead(head);
        if !ok {
          break;
        }
        sends := sends + [head];
        unode := readyqueue.head;
        HeadIsFirst();
      }
      SendReadyUnfolds(node);
      SendReadyStops(old(node));
      HeadIsQueued();
    }

    lemma HeadIsQueued()
      requires Valid()
      ensures |node.queue| == |readyqueue.nodes|
      ensures readyqueue.nodes != [] ==> node.queue[0] == readyqueue.nodes[0].req
    {
    }

    lemma HeadIsFirst()
      requires Valid()
      ensures readyqueue.head == UnitQueue.At(readyqueue.nodes, 0) && |node.queue| == |readyqueue.nodes|
    {
    }

    /** One turn of the loop of dispatch_task. */
    method TrySendHead(unode: UnitNode) returns (ok: bool)
      requires Valid() && node.queue != [] && InBlock(node.queue[0]) && unode == readyqueue.head
      modifies this, barr.arr, readyqueue, readyqueue.nodes
      ensures Valid() && (ok <==> Free(old(node), unode.req)) && unode.req == old(node).queue[0]
      ensures readyqueue.nodes == if ok then old(readyqueue.nodes)[1..] else old(readyqueue.nodes)
      ensures node == if ok then Start(old(node).(queue := old(node).queue[1..]), unode.req)
                      else old(node).(flag := NODE_BLOCKED)
      ensures node.queue == if ok then old(node).queue[1..] else old(node).queue
    {
      hide Range, Reqs, MarksBits, Bits.At;
      ReqsTail(readyqueue.nodes);
      ok := TakeBits(unode.req, node.bits);
      if ok {
        var _ := readyqueue.Dequeue();
        runningNum := runningNum + 1;
        flag := NODE_UNBLOCKED;
        node := Start(node.(queue := node.queue[1..]), unode.req);
      } else {
        flag := NODE_BLOCKED;
        node := node.(flag := NODE_BLOCKED);
      }
    }

    /** The block part of recv_session_aio_reply; an idle node is to be thrown away. */
    method RecvReply(r: Req, ghost i: nat) returns (sends: seq<UnitNode>, idle: bool)
      requires Valid() && Sound(node) && Enabled(node, Replied(i)) && r == node.submitted[i]
      modifies this, barr.arr, readyqueue, readyqueue.nodes
      ensures Valid() && Sound(node) && node == Reply(old(node), i)
      ensures sends + readyqueue.nodes == old(readyqueue.nodes)
      ensures idle <==> node.flag == NODE_IDLE
      ensures idle <==> node.running == {} && readyqueue.nodes == []
      ensures old(node).running != {i} ==> sends == []
      ensures old(node).running == {i} && readyqueue.nodes != [] ==>
                exists k :: k in node.running && Overlap(node.submitted[k], readyqueue.nodes[0].req)
    {
      hide Sound, Exclusive, Range, Reqs;
      ReplySends(node, i);
      QueueInBlock(node, i);
      GiveBitsBack(r, node.bits);
      runningNum := runningNum - 1;
      node := Released(node, i);
      sends := [];
      if runningNum == 0 {
        sends := DispatchTask();
      }
      idle := flag == NODE_IDLE;
      SoundFlag(node);
      HeadIsQueued();
    }
  }

  lemma SendReadyUnfolds(s: Node)
    ensures s.queue == [] ==> SendReady(s) == s
    ensures s.queue != [] && Free(s, s.queue[0]) ==>
              SendReady(s) == SendReady(Start(s.(queue := s.queue[1..]), s.queue[0]))
    ensures s.queue != [] && !Free(s, s.queue[0]) ==> SendReady(s) == s.(flag := NODE_BLOCKED)
  {
  }

  lemma QueueInBlock(s: Node, i: nat)
    requires Sound(s) && i in s.running
    ensures forall r :: r in s.queue ==> InBlock(r)
    ensures InBlock(s.submitted[i])
    ensures s.runningNum == 1 ==> s.flag == if s.queue == [] then NODE_UNBLOCKED else NODE_BLOCKED
  {
    assert s.submitted[i] in s.submitted;
    assert forall r :: r in s.queue ==> r in s.submitted;
  }

  lemma SoundFlag(s: Node)
    requires Sound(s)
    ensures FlagFits(s)
  {
  }

  lemma IdleIsFree(s: Node, r: Req)
    requires Sound(s) && s.flag == NODE_IDLE
    ensures Range(r) !! s.bits
  {
    NothingRunningIsFree(s, r);
  }

  lemma ReqsAppend(nodes: seq<UnitNode>, unode: UnitNode)
    ensures Reqs(nodes + [unode]) == Reqs(nodes) + [unode.req]
  {
  }

  lemma ReqsTail(nodes: seq<UnitNode>)
    requires nodes != []
    ensures Reqs(nodes[1..]) == Reqs(nodes)[1..] && Reqs(nodes)[0] == nodes[0].req
  {
  }
}
