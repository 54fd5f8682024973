/**
  Messages on the socket of a session (do_send, do_receive, rcv_with_error_handle and
  rcv_discard in S5bd/src/s5session.c): head, data and tail in one stream, cut anywhere by
  partial sends and receives. The sizes of head and tail and the place of data_len in the
  head are parameters.
 */
module Framing {
  import opened Machine

  datatype Message = Message(head: seq<octet>, data: seq<octet>, tail: seq<octet>)

  datatype Format = Format(headLen: nat, tailLen: nat, dataLen: seq<octet> -> nat)

  predicate WellFormed(f: Format, m: Message) {
    |m.head| == f.headLen && |m.tail| == f.tailLen && |m.data| == f.dataLen(m.head)
  }

  ghost predicate AllWellFormed(f: Format, ms: seq<Message>) {
    forall k :: 0 <= k < |ms| ==> WellFormed(f, ms[k])
  }

  function Frame(m: Message): (r: seq<octet>)
    ensures |r| == |m.head| + |m.data| + |m.tail|
  {
    m.head + m.data + m.tail
  }

  /** The frames of `ms`, one after the other. */
  function Stream(ms: seq<Message>): seq<octet> {
    if ms == [] then [] else Stream(ms[..|ms| - 1]) + Frame(ms[|ms| - 1])
  }

  lemma StreamOneMore(ms: seq<Message>, k: nat)
    requires k < |ms|
    ensures Stream(ms[..k + 1]) == Stream(ms[..k]) + Frame(ms[k])
  {
    assert ms[..k + 1][..k] == ms[..k];
  }

  lemma {:induction false} StreamPrefix(ms: seq<Message>, k: nat)
    requires k <= |ms|
    ensures Stream(ms[..k]) <= Stream(ms)
    decreases |ms| - k
  {
    if k == |ms| {
      assert ms[..k] == ms;
    } else {
      StreamPrefix(ms, k + 1);
      StreamOneMore(ms, k);
    }
  }

  /** Where message `k` begins. */
  function Start(ms: seq<Message>, k: nat): nat
    requires k <= |ms|
  {
    |Stream(ms[..k])|
  }

  /** Message `k` lies in the stream right after the messages before it. */
  lemma StreamAt(ms: seq<Message>, k: nat)
    requires k < |ms|
    ensures Start(ms, k) + |Frame(ms[k])| == Start(ms, k + 1) <= |Stream(ms)|
    ensures Stream(ms)[Start(ms, k)..Start(ms, k + 1)] == Frame(ms[k])
  {
    hide Stream, Frame;
    StreamPrefix(ms, k + 1);
    StreamOneMore(ms, k);
    var at, t := Start(ms, k), Stream(ms[..k + 1]);
    assert t[at..] == Frame(ms[k]);
    assert Stream(ms)[..|t|] == t;
    assert Stream(ms)[at..|t|] == Stream(ms)[..|t|][at..];
  }

  /** What the operating system answers: a number of bytes, an interrupt, or nothing for now. */
  datatype Event = Bytes(n: nat) | Interrupted | WouldBlock

  // Sending.

  class Sender {
    var sending: bool
    var sentLen: nat
    var wantedSendLen: nat
    /** Everything the socket has taken. */
    ghost var out: seq<octet>
    /** The messages sent completely. */
    ghost var sent: seq<Message>

    constructor ()
      ensures !sending && out == [] && sent == [] && Valid(Message([], [], []))
    {
      sending, sentLen, wantedSendLen := false, 0, 0;
      out, sent := [], [];
    }

    /** The stream is that of the finished messages and the part of the current one. */
    ghost predicate Valid(m: Message)
      reads this
    {
      if sending then sentLen <= wantedSendLen == |Frame(m)| && out == Stream(sent) + Frame(m)[..sentLen]
      else out == Stream(sent)
    }

    /** The three parts of the message that are still to be sent, cut by the length sent so far. */
    static function Parts(m: Message, sentLen: nat): seq<octet>
      requires sentLen <= |Frame(m)|
    {
      var headLen, dataLen, tailLen := |m.head|, |m.data|, |m.tail|;
      var r1 := if headLen - sentLen > 0 then headLen - sentLen else 0;
      var r2 := if dataLen + headLen - sentLen - r1 > 0 then dataLen + headLen - sentLen - r1 else 0;
      var left := tailLen + dataLen + headLen - sentLen - r1 - r2;
      var r3 := if left > 0 then left else 0;
      m.head[headLen - r1..] + m.data[dataLen - r2..] + m.tail[tailLen - r3..]
    }

    /** The parts offered are the rest of the frame, so taking `n` bytes of them goes on where the last send ended. */
    static lemma PartsGoOn(m: Message, sentLen: nat, n: nat)
      requires sentLen <= |Frame(m)|
      ensures Parts(m, sentLen) == Frame(m)[sentLen..]
      ensures n <= |Parts(m, sentLen)| ==> Frame(m)[..sentLen] + Parts(m, sentLen)[..n] == Frame(m)[..sentLen + n]
    {
      assert Parts(m, sentLen) == Frame(m)[sentLen..];
    }

    /** The first half of a turn of do_send: offer the rest of the message, the socket takes `n` bytes at most. */
    method SendRest(m: Message, n: nat)
      requires Valid(m) && sending
      modifies this
      ensures Valid(m) && (sending ==> sentLen < wantedSendLen)
      ensures sent == if sending then old(sent) else old(sent) + [m]
      ensures |out| == |old(out)| + Min(n, |Frame(m)| - old(sentLen))
    {
      hide Parts, Frame, Stream;
      var iov := Parts(m, sentLen);
      var rc := Min(n, |iov|);
      PartsGoOn(m, sentLen, rc);
      ghost var front := Frame(m)[..sentLen];
      out := out + iov[..rc];
      assert out == Stream(sent) + (front + iov[..rc]);
      sentLen := sentLen + rc;
      if sentLen >= wantedSendLen {
        sending := false;
        StreamSnoc(sent, m);
        assert Frame(m)[..sentLen] == Frame(m);
        sent := sent + [m];
      }
    }

    /** The second half: the next message. */
    method Begin(m: Message)
      requires !sending && Valid(m)
      modifies this
      ensures Valid(m) && sending && sentLen == 0 && sent == old(sent) && out == old(out)
    {
      wantedSendLen := |m.head| + |m.data| + |m.tail|;
      sentLen := 0;
      sending := true;
    }

    /** Progress: a message begun has bytes left, and each useful event so far has sent a byte. */
    ghost predicate Kept(events: seq<Event>)
      reads this
    {
      (sending ==> sentLen < wantedSendLen) && |out| >= Useful(events)
    }

    /**
      Messages in turn, however the socket cuts them: what it has taken is always the stream
      of the first messages and a beginning of the next one, and all of it once the socket
      has taken bytes often enough.
     */
    method SendAll(ms: seq<Message>, events: seq<Event>)
      requires !sending && out == [] && sent == []
      modifies this
      ensures sent <= ms && out <= Stream(ms)
      ensures if sending then sent < ms && Valid(ms[|sent|]) else out == Stream(sent)
      ensures NoneEmpty(ms) && Useful(events) >= |Stream(ms)| ==> sent == ms && out == Stream(ms)
    {
      hide Frame, Useful, Stream;
      var next, i := 0, 0;
      NothingUseful(events);
      EmptyStream();
      while i < |events| && next < |ms|
        invariant i <= |events| && next == |sent| <= |ms| && sent == ms[..next]
        invariant if sending then next < |ms| && Valid(ms[next]) else out == Stream(sent)
        invariant NoneEmpty(ms) ==> Kept(events[..i])
      {
        UsefulStep(events, i);
        if !sending {
          Begin(ms[next]);
        }
        if events[i].Bytes? {
          SendRest(ms[next], events[i].n);
          if !sending {
            next := next + 1;
          }
        }
        i := i + 1;
      }
      assert next < |ms| ==> events[..i] == events;
      if sending {
        PrefixOfNext(ms, next, sentLen);
      } else {
        StreamPrefix(ms, next);
      }
      if next < |ms| {
        StreamAt(ms, next);
      } else {
        assert ms[..next] == ms;
      }
    }
  }

  ghost predicate NoneEmpty(ms: seq<Message>) {
    forall k :: 0 <= k < |ms| ==> |Frame(ms[k])| > 0
  }

  lemma EmptyStream()
    ensures Stream([]) == []
  {
  }

  lemma StreamSnoc(ms: seq<Message>, m: Message)
    ensures Stream(ms + [m]) == Stream(ms) + Frame(m)
  {
    assert (ms + [m])[..|ms|] == ms;
  }

  lemma PrefixOfNext(ms: seq<Message>, k: nat, n: nat)
    requires k < |ms| && n <= |Frame(ms[k])|
    ensures Stream(ms[..k]) + Frame(ms[k])[..n] <= Stream(ms)
  {
    StreamPrefix(ms, k + 1);
    StreamOneMore(ms, k);
  }

  // Receiving.

  /** The messages among the first `k` that match a submitted sub-I/O when their head has arrived. */
  function Chosen(ms: seq<Message>, k: nat, matches: nat -> bool): seq<Message>
    requires k <= |ms|
  {
    if k == 0 then [] else Chosen(ms, k - 1, matches) + if matches(k - 1) then [ms[k - 1]] else []
  }

  lemma ChosenStep(ms: seq<Message>, k: nat, matches: nat -> bool)
    requires k < |ms|
    ensures Chosen(ms, k + 1, matches)
            == if matches(k) then Chosen(ms, k, matches) + [ms[k]] else Chosen(ms, k, matches)
  {
  }

  /** Bytes left in the stream belong to message `k`, which lies whole in front of them. */
  lemma NextMessage(f: Format, ms: seq<Message>, k: nat)
    requires k <= |ms| && AllWellFormed(f, ms) && Start(ms, k) < |Stream(ms)|
    ensures k < |ms| && WellFormed(f, ms[k]) && Start(ms, k + 1) == Start(ms, k) + |Frame(ms[k])| <= |Stream(ms)|
    ensures var wire, at, m := Stream(ms), Start(ms, k), ms[k];
            && wire[at..at + f.headLen] == m.head
            && wire[at + f.headLen..Start(ms, k + 1)] == m.data + m.tail
  {
    hide Stream, Frame, Start;
    LastStart(ms);
    StreamAt(ms, k);
    CutAt(Stream(ms), Start(ms, k), Frame(ms[k]), f.headLen);
    FrameParts(ms[k]);
  }

  lemma LastStart(ms: seq<Message>)
    ensures Start(ms, |ms|) == |Stream(ms)|
  {
    assert ms[..|ms|] == ms;
  }

  lemma FrameParts(m: Message)
    ensures Frame(m)[..|m.head|] == m.head && Frame(m)[|m.head|..] == m.data + m.tail
  {
  }

  lemma CutAt(wire: seq<octet>, at: nat, frame: seq<octet>, h: nat)
    requires at + |frame| <= |wire| && wire[at..at + |frame|] == frame && h <= |frame|
    ensures wire[at..at + h] == frame[..h] && wire[at + h..at + |frame|] == frame[h..]
  {
    var f := wire[at..at + |frame|];
    assert f[..h] == wire[at..at + h] && f[h..] == wire[at + h..at + |frame|];
  }

  /** Appending `rc` bytes of the stream to what has arrived. */
  lemma MoreArrived(before: seq<octet>, after: seq<octet>, wire: seq<octet>, r: nat, pos: nat, rc: nat)
    requires r <= |before| && r + rc <= |after| && r <= pos && pos + rc <= |wire|
    requires before[..r] == wire[pos - r..pos]
    requires forall j :: 0 <= j < r + rc ==> after[j] == if j < r && j < |before| then before[j] else wire[pos - r + j]
    ensures after[..r + rc] == wire[pos - r..pos + rc]
  {
    assert forall j :: 0 <= j < r ==> before[j] == before[..r][j];
  }

  /** A stream can be read in one way only. */
  lemma {:induction false} StreamInjective(f: Format, a: seq<Message>, b: seq<Message>, k: nat)
    requires AllWellFormed(f, a) && AllWellFormed(f, b) && f.headLen > 0 && Stream(a) == Stream(b)
    requires k <= |a| && k <= |b| && a[..k] == b[..k]
    ensures a == b
    decreases |a| - k
  {
    hide Stream, Frame;
    LastStart(a);
    LastStart(b);
    assert Start(a, k) == Start(b, k);
    if k == |a| || k == |b| {
      EndsTogether(f, a, k);
      EndsTogether(f, b, k);
      assert a == a[..k] && b == b[..k];
    } else {
      StreamAt(a, k);
      NextMessage(f, a, k);
      NextMessage(f, b, k);
      SameMessage(f, a[k], b[k]);
      assert a[..k + 1] == a[..k] + [a[k]] && b[..k + 1] == b[..k] + [b[k]];
      StreamInjective(f, a, b, k + 1);
    }
  }

  lemma EndsTogether(f: Format, ms: seq<Message>, k: nat)
    requires AllWellFormed(f, ms) && f.headLen > 0 && k <= |ms|
    ensures Start(ms, k) == |Stream(ms)| <==> k == |ms|
  {
    LastStart(ms);
    if k < |ms| {
      StreamAt(ms, k);
    }
  }

  lemma SameMessage(f: Format, m: Message, n: Message)
    requires WellFormed(f, m) && WellFormed(f, n) && m.head == n.head && m.data + m.tail == n.data + n.tail
    ensures m == n
  {
    assert m.data == (m.data + m.tail)[..|m.data|] && n.data == (n.data + n.tail)[..|n.data|];
    assert m.tail == (m.data + m.tail)[|m.data|..] && n.tail == (n.data + n.tail)[|n.data|..];
  }

  /** A discard of `len` bytes ends well: no call of recv fails before they have come. */
  predicate Completes(len: nat, answers: seq<Event>)
    decreases |answers|
  {
    len == 0 || answers == []
    || (answers[0].Bytes? && Completes(len - Min(Min(len, 5000), answers[0].n), answers[1..]))
  }

  /** How many bytes it drops. */
  function Skipped(len: nat, answers: seq<Event>): (n: nat)
    ensures n <= len
    decreases |answers|
  {
    if len == 0 || answers == [] then len
    else if !answers[0].Bytes? then 0
    else
      var rc := Min(Min(len, 5000), answers[0].n);
      rc + Skipped(len - rc, answers[1..])
  }

  class Receiver {
    const format: Format
    const matches: nat -> bool
    /** What recv answers while message `k` is discarded. */
    const answers: nat -> seq<Event>
    const wire: seq<octet>
    /** What the stream consists of. */
    ghost const ms: seq<Message>
    var pos: nat
    var inHead: bool
    var rcvedLen: nat
    var wantedRcvedLen: nat
    const head: array<octet>
    var data: array<octet>
    const tail: array<octet>
    /** How many messages are done with, and those of them that were dispatched. */
    var seen: nat
    var delivered: seq<Message>
    var needReconnect: bool

    ghost predicate Wired() {
      && wire == Stream(ms) && AllWellFormed(format, ms) && format.headLen > 0
      && head.Length == format.headLen && tail.Length == format.tailLen && head != tail
    }

    /** What has arrived of the part that is being received is the last piece of the stream. */
    ghost predicate Filled()
      reads this, head, data, tail
    {
      && rcvedLen <= wantedRcvedLen && rcvedLen <= pos <= |wire| && data != head && data != tail
      && wantedRcvedLen == (if inHead then head.Length else data.Length + tail.Length)
      && (if inHead then head[..] else data[..] + tail[..])[..rcvedLen] == wire[pos - rcvedLen..pos]
    }

    /** That part is the head of message `seen`, or its data and tail behind a head that matches. */
    ghost predicate Aligned()
      reads this, head, data, tail
    {
      && seen <= |ms| && delivered == Chosen(ms, seen, matches)
      && pos - rcvedLen == Start(ms, seen) + (if inHead then 0 else head.Length)
      && (!inHead ==> seen < |ms| && matches(seen) && head[..] == ms[seen].head && data.Length == |ms[seen].data|)
    }

    ghost predicate Valid()
      reads this, head, data, tail
    {
      Wired() && Filled() && Aligned()
    }

    /** The discard of message `k`, if it matches nothing, ends well. */
    ghost predicate Discardable(k: nat)
      requires k < |ms|
    {
      matches(k) || Completes(|ms[k].data| + format.tailLen, answers(k))
    }

    constructor (format: Format, matches: nat -> bool, answers: nat -> seq<Event>, wire: seq<octet>,
                 ghost ms: seq<Message>)
      requires wire == Stream(ms) && AllWellFormed(format, ms) && format.headLen > 0
      ensures Valid() && this.ms == ms && this.matches == matches && this.answers == answers
      ensures this.format == format && this.wire == wire && pos == 0 && !needReconnect
      ensures fresh(data) && fresh(head) && fresh(tail)
    {
      this.format, this.matches, this.answers, this.wire, this.ms := format, matches, answers, wire, ms;
      pos, inHead, rcvedLen, wantedRcvedLen := 0, true, 0, format.headLen;
      head := new octet[format.headLen];
      data := new octet[0];
      tail := new octet[format.tailLen];
      seen, delivered, needReconnect := 0, [], false;
    }

    /** recv into the head. */
    method RecvHead(rc: nat)
      requires Filled() && inHead && rc <= wantedRcvedLen - rcvedLen && rc <= |wire| - pos
      modifies this`pos, this`rcvedLen, head
      ensures Filled() && pos == old(pos) + rc && rcvedLen == old(rcvedLen) + rc
    {
      ghost var before := head[..];
      CopyTo(head, rcvedLen, wire[pos..pos + rc]);
      MoreArrived(before, head[..], wire, rcvedLen, pos, rc);
      pos := pos + rc;
      rcvedLen := rcvedLen + rc;
    }

    /** recvmsg into the rest of the data and the tail, or recv into the rest of the tail. */
    method Scatter(bytes: seq<octet>)
      requires rcvedLen + |bytes| <= wantedRcvedLen == data.Length + tail.Length && data != tail
      modifies data, tail
      ensures forall j :: 0 <= j < data.Length ==>
                data[j] == if rcvedLen <= j < rcvedLen + |bytes| then bytes[j - rcvedLen] else old(data[j])
      ensures forall j :: 0 <= j < tail.Length ==>
                tail[j] == if rcvedLen <= data.Length + j < rcvedLen + |bytes| then bytes[data.Length + j - rcvedLen]
                           else old(tail[j])
    {
      if rcvedLen < data.Length {
        var inData := Min(|bytes|, data.Length - rcvedLen);
        CopyTo(data, rcvedLen, bytes[..inData]);
        CopyTo(tail, 0, bytes[inData..]);
      } else {
        CopyTo(tail, tail.Length - (wantedRcvedLen - rcvedLen), bytes);
      }
    }

    method RecvBody(rc: nat)
      requires Filled() && !inHead && rc <= wantedRcvedLen - rcvedLen && rc <= |wire| - pos
      modifies this`pos, this`rcvedLen, data, tail
      ensures Filled() && pos == old(pos) + rc && rcvedLen == old(rcvedLen) + rc
    {
      ghost var d, t := data[..], tail[..];
      Scatter(wire[pos..pos + rc]);
      Scattered(d, t, data[..], tail[..], wire, rcvedLen, pos, rc);
      pos := pos + rc;
      rcvedLen := rcvedLen + rc;
    }

    /**
      rcv_discard: the data and tail of a message that matches nothing are read and dropped.
      `answers` is what recv says first; later it brings all it is asked for.
     */
    method RcvDiscard(discardLen: nat, answers: seq<Event>)
      requires discardLen <= |wire| - pos
      modifies this`pos, this`needReconnect
      ensures pos == old(pos) + Skipped(discardLen, answers)
      ensures pos == old(pos) + discardLen <==> Completes(discardLen, answers)
      ensures needReconnect <==> old(needReconnect) || !Completes(discardLen, answers)
    {
      var len, i := discardLen, 0;
      while len > 0
        invariant 0 <= len <= discardLen && pos == old(pos) + (discardLen - len) && i <= |answers|
        invariant Completes(discardLen, answers) <==> Completes(len, answers[i..])
        invariant Skipped(discardLen, answers) == discardLen - len + Skipped(len, answers[i..])
        invariant needReconnect == old(needReconnect)
        decreases |answers| - i, len
      {
        var rc := Min(len, 5000);
        if i < |answers| {
          assert answers[i..][1..] == answers[i + 1..];
          if !answers[i].Bytes? {
            needReconnect := true;
            return;
          }
          rc := Min(rc, answers[i].n);
          i := i + 1;
        }
        pos := pos + rc;
        len := len - rc;
      }
    }

    /** A complete head is that of the next message, which lies whole in the stream. */
    lemma HeadIs()
      requires Valid() && inHead && rcvedLen == wantedRcvedLen
      ensures seen < |ms| && head[..] == ms[seen].head && WellFormed(format, ms[seen])
      ensures pos == Start(ms, seen) + head.Length
      ensures Start(ms, seen + 1) == pos + |ms[seen].data| + tail.Length <= |wire|
    {
      hide Stream, Frame, Start;
      NextMessage(format, ms, seen);
      assert head[..] == head[..][..rcvedLen];
    }

    /**
      do_receive when a head is complete: a message that matches nothing is dropped, otherwise
      its data and tail come next. The receiver stays in step with the stream if and only if
      the discard ends well; one that fails is not noticed here.
     */
    method HeadComplete()
      requires Valid() && inHead && rcvedLen == wantedRcvedLen && !needReconnect
      modifies this
      ensures old(seen) < |ms| && (Valid() <==> Discardable(old(seen))) && (needReconnect <==> !Discardable(old(seen)))
      ensures inHead == !matches(old(seen)) && rcvedLen == 0 && old(pos) <= pos <= |wire|
      ensures seen == (if inHead then old(seen) + 1 else old(seen)) && delivered == Chosen(ms, seen, matches)
      ensures pos == old(pos) + if inHead then Skipped(|ms[old(seen)].data| + format.tailLen, answers(old(seen))) else 0
      ensures !inHead ==> fresh(data)
      ensures inHead ==> data == old(data)
    {
      hide Stream, Frame, Start, Chosen;
      HeadIs();
      ChosenStep(ms, seen, matches);
      var dataLen := format.dataLen(head[..]);
      if !matches(seen) {
        RcvDiscard(dataLen + tail.Length, answers(seen));
        wantedRcvedLen := head.Length;
        rcvedLen := 0;
        seen := seen + 1;
      } else {
        inHead := false;
        wantedRcvedLen := dataLen + tail.Length;
        rcvedLen := 0;
        data := new octet[dataLen];
      }
    }

    /** do_receive when data and tail are complete: dispatch_reply_msg gets the message. */
    method BodyComplete()
      requires Valid() && !inHead && rcvedLen == wantedRcvedLen
      modifies this
      ensures Valid() && inHead && rcvedLen == 0 && seen == old(seen) + 1 && pos == old(pos)
      ensures needReconnect == old(needReconnect)
      ensures data == old(data)
    {
      hide Stream, Frame, Start, Chosen;
      NextMessage(format, ms, seen);
      ChosenStep(ms, seen, matches);
      ghost var m := ms[seen];
      ghost var body := data[..] + tail[..];
      assert body[..rcvedLen] == body;
      assert body == m.data + m.tail;
      assert data[..] == body[..data.Length] && tail[..] == body[data.Length..];
      var msg := Message(head[..], data[..], tail[..]);
      delivered := delivered + [msg];
      inHead := true;
      wantedRcvedLen := head.Length;
      rcvedLen := 0;
      seen := seen + 1;
    }

    /** The bytes that arrived are enough for the events so far, or are all there are. */
    ghost predicate Kept(events: seq<Event>, i: nat)
      requires i <= |events|
      reads this
    {
      pos <= |wire| && (pos == |wire| || pos >= Useful(events[..i]))
    }

    /** rcv_with_error_handle: receive until the part is complete or nothing more comes for now. */
    method RcvWithErrorHandle(events: seq<Event>, from: nat) returns (i: nat)
      requires Valid() && from <= |events| && Kept(events, from)
      modifies this`pos, this`rcvedLen, head, data, tail
      ensures Valid() && from <= i <= |events| && Kept(events, i)
      ensures rcvedLen == wantedRcvedLen || i == |events| || i > from
    {
      hide Useful, Stream, Chosen, Start;
      i := from;
      while rcvedLen < wantedRcvedLen && i < |events|
        invariant from <= i <= |events| && Valid() && Kept(events, i)
      {
        UsefulStep(events, i);
        var e := events[i];
        i := i + 1;
        if e.WouldBlock? {
          return;
        }
        if e.Bytes? {
          var rc := Min(Min(e.n, wantedRcvedLen - rcvedLen), |wire| - pos);
          if inHead {
            RecvHead(rc);
          } else {
            RecvBody(rc);
          }
        }
      }
    }

    /**
      do_receive, called again whenever the socket becomes readable. However the stream is
      cut, the messages handled are the first ones of the stream, in order and unchanged;
      when all bytes have come all messages have been handled. A failed discard ends that.
     */
    method DoReceive(events: seq<Event>)
      requires Valid() && pos == 0 && !needReconnect
      modifies this, head, data, tail
      ensures seen <= |ms| && delivered == Chosen(ms, seen, matches)
      ensures !needReconnect ==>
                Valid() && (pos == |wire| ==> seen == |ms|) && (Useful(events) >= |wire| ==> pos == |wire|)
      ensures (forall k :: 0 <= k < |ms| ==> Discardable(k)) ==> !needReconnect
    {
      hide Useful, Chosen, Stream, Start, Valid, Discardable;
      var i := 0;
      NothingUseful(events);
      Bounds();
      while true
        invariant i <= |events| && Valid() && Kept(events, i) && seen <= |ms| && !needReconnect
        invariant data == old(data) || fresh(data)
        decreases |events| - i, |ms| - seen, if inHead then 1 else 0
      {
        i := RcvWithErrorHandle(events, i);
        Bounds();
        if rcvedLen == wantedRcvedLen {
          PartComplete();
          if needReconnect {
            return;
          }
        } else if i == |events| {
          break;
        }
      }
      assert events[..|events|] == events;
      Drained();
    }

    /** The switch of do_receive. */
    method PartComplete()
      requires Valid() && rcvedLen == wantedRcvedLen && !needReconnect
      modifies this
      ensures needReconnect ==> old(seen) < |ms| && !Discardable(old(seen))
      ensures !needReconnect ==> Valid()
      ensures old(pos) <= pos <= |wire| && seen <= |ms| && delivered == Chosen(ms, seen, matches)
      ensures data == old(data) || fresh(data)
      ensures seen > old(seen) || (seen == old(seen) && old(inHead) && !inHead)
    {
      hide Chosen, Stream, Start, Discardable;
      if inHead {
        HeadComplete();
      } else {
        BodyComplete();
      }
    }

    lemma Bounds()
      requires Valid()
      ensures seen <= |ms| && rcvedLen <= wantedRcvedLen && pos <= |wire| && delivered == Chosen(ms, seen, matches)
    {
    }

    /** A stream read to its end leaves no part of a message behind. */
    lemma Drained()
      requires Valid() && rcvedLen < wantedRcvedLen
      ensures pos == |wire| ==> seen == |ms|
    {
      hide Chosen, Stream, Start;
      if seen < |ms| {
        StreamAt(ms, seen);
      }
    }
  }

  /**
    A discard that fails, of any message in any stream: the receiver takes what is left of
    that message for the next head.
   */
  lemma Misread(f: Format, ms: seq<Message>, k: nat, answers: seq<Event>)
    requires AllWellFormed(f, ms) && f.headLen > 0 && k < |ms|
    requires !Completes(|ms[k].data| + f.tailLen, answers)
    ensures var skipped := Skipped(|ms[k].data| + f.tailLen, answers);
            var pos, end := Start(ms, k) + f.headLen + skipped, Start(ms, k + 1);
            && pos < end <= |Stream(ms)| && skipped < |ms[k].data + ms[k].tail|
            && Stream(ms)[pos..end] == (ms[k].data + ms[k].tail)[skipped..]
  {
    hide Stream, Frame, Start;
    SkippedShort(|ms[k].data| + f.tailLen, answers);
    StreamAt(ms, k);
    FrameLength(ms[k]);
    NextMessage(f, ms, k);
    var skipped := Skipped(|ms[k].data| + f.tailLen, answers);
    CutAt(Stream(ms), Start(ms, k) + f.headLen, ms[k].data + ms[k].tail, skipped);
  }

  lemma FrameLength(m: Message)
    ensures |Frame(m)| == |m.head| + |m.data + m.tail|
  {
  }

  lemma {:induction false} SkippedShort(len: nat, answers: seq<Event>)
    ensures Skipped(len, answers) == len <==> Completes(len, answers)
    decreases |answers|
  {
    if len > 0 && answers != [] && answers[0].Bytes? {
      SkippedShort(len - Min(Min(len, 5000), answers[0].n), answers[1..]);
    }
  }

  /** Any message with data or a tail is such a one if a signal comes first, or the socket is empty for a moment. */
  lemma Signalled(len: nat, e: Event, answers: seq<Event>)
    requires len > 0 && e in {Interrupted, WouldBlock}
    ensures !Completes(len, [e] + answers) && Skipped(len, [e] + answers) == 0
  {
  }

  /** The bytes of the first `k` answers; one call of recv asks for no more than 5000. */
  function Brought(answers: seq<Event>, k: nat): nat
    requires k <= |answers|
  {
    if k == 0 then 0
    else (if answers[0].Bytes? then Min(5000, answers[0].n) else 0) + Brought(answers[1..], k - 1)
  }

  /** A discard ends well exactly when enough bytes have come before any call that fails. */
  lemma {:induction false} CompletesIff(len: nat, answers: seq<Event>)
    ensures Completes(len, answers) <==>
              forall k :: 0 <= k < |answers| && !answers[k].Bytes? ==> Brought(answers, k) >= len
    decreases |answers|
  {
    if len > 0 && answers != [] {
      if answers[0].Bytes? {
        var rest, rc := answers[1..], Min(Min(len, 5000), answers[0].n);
        CompletesIff(len - rc, rest);
        forall k | 0 <= k < |rest|
          ensures Brought(answers, k + 1) == Min(5000, answers[0].n) + Brought(rest, k) && answers[k + 1] == rest[k]
        {
        }
        if Completes(len, answers) {
          forall k | 0 <= k < |answers| && !answers[k].Bytes?
            ensures Brought(answers, k) >= len
          {
            assert rest[k - 1] == answers[k];
          }
        }
      } else {
        assert Brought(answers, 0) == 0;
      }
    }
  }

  /** And drops all the bytes that came until then, but no more than asked. */
  lemma {:induction false} SkippedIs(len: nat, answers: seq<Event>, k: nat)
    requires k < |answers| && !answers[k].Bytes? && forall j :: 0 <= j < k ==> answers[j].Bytes?
    ensures Skipped(len, answers) == Min(len, Brought(answers, k))
    decreases |answers|
  {
    if k > 0 && len > 0 {
      SkippedIs(len - Min(Min(len, 5000), answers[0].n), answers[1..], k - 1);
    }
  }

  /** How many events bring bytes. */
  function Useful(events: seq<Event>): nat {
    if events == [] then 0
    else Useful(events[..|events| - 1]) + if events[|events| - 1].Bytes? && events[|events| - 1].n > 0 then 1 else 0
  }

  lemma UsefulStep(events: seq<Event>, i: nat)
    requires i < |events|
    ensures Useful(events[..i + 1]) == Useful(events[..i]) + if events[i].Bytes? && events[i].n > 0 then 1 else 0
  {
    assert events[..i + 1][..i] == events[..i];
  }

  lemma NothingUseful(events: seq<Event>)
    ensures Useful(events[..0]) == 0
  {
  }

  lemma Scattered(d: seq<octet>, t: seq<octet>, d': seq<octet>, t': seq<octet>, wire: seq<octet>, r: nat, pos: nat,
                  rc: nat)
    requires |d'| == |d| && |t'| == |t| && r + rc <= |d| + |t| && r <= pos && pos + rc <= |wire|
    requires (d + t)[..r] == wire[pos - r..pos]
    requires forall j :: 0 <= j < |d| ==> d'[j] == if r <= j < r + rc then wire[pos..pos + rc][j - r] else d[j]
    requires forall j :: 0 <= j < |t| ==>
               t'[j] == if r <= |d| + j < r + rc then wire[pos..pos + rc][|d| + j - r] else t[j]
    ensures (d' + t')[..r + rc] == wire[pos - r..pos + rc]
  {
    forall j | 0 <= j < r + rc
      ensures (d' + t')[j] == if j < r && j < |d + t| then (d + t)[j] else wire[pos - r + j]
    {
    }
    MoreArrived(d + t, d' + t', wire, r, pos, rc);
  }
}

/**
  The receive loops of a session, rcv_discard and rcv_with_error_handle, against a socket that
  goes on answering: a peer that has shut down the connection makes every recv return zero.
 */
module ReceiveLoops {
  import opened Machine
  import opened Framing

  datatype Loop = Discard | Receive

  datatype Turn = Going(left: nat) | Ended

  /** One turn with bytes left: rcv_discard ends on any error, rcv_with_error_handle goes on after a signal. */
  function OneTurn(loop: Loop, left: nat, e: Event): Turn {
    match e
    case Bytes(n) =>
      var rc := Min(if loop == Discard then Min(left, 5000) else left, n);
      if left == rc then Ended else Going(left - rc)
    case Interrupted => if loop == Discard then Ended else Going(left)
    case WouldBlock => Ended
  }

  function AfterTurns(loop: Loop, len: nat, recv: nat -> Event, n: nat): Turn {
    if n == 0 then (if len == 0 then Ended else Going(len))
    else
      match AfterTurns(loop, len, recv, n - 1)
      case Ended => Ended
      case Going(left) => OneTurn(loop, left, recv(n - 1))
  }

  /** An answer that changes nothing. */
  predicate Idle(loop: Loop, e: Event) {
    e == Bytes(0) || (loop == Receive && e == Interrupted)
  }

  ghost predicate Terminates(loop: Loop, len: nat, recv: nat -> Event) {
    exists n: nat :: AfterTurns(loop, len, recv, n) == Ended
  }

  ghost predicate IdleFrom(loop: Loop, recv: nat -> Event, n: nat) {
    forall k: nat :: k >= n ==> Idle(loop, recv(k))
  }

  /** Bytes are left, and nothing more comes. */
  ghost predicate SpinsFrom(loop: Loop, len: nat, recv: nat -> Event, n: nat) {
    AfterTurns(loop, len, recv, n) != Ended && IdleFrom(loop, recv, n)
  }

  lemma {:induction false} NeverMore(loop: Loop, len: nat, recv: nat -> Event, n: nat, m: nat)
    requires n <= m
    ensures AfterTurns(loop, len, recv, n) == Ended ==> AfterTurns(loop, len, recv, m) == Ended
    ensures AfterTurns(loop, len, recv, m) != Ended ==>
              && AfterTurns(loop, len, recv, n) != Ended
              && 0 < AfterTurns(loop, len, recv, m).left <= AfterTurns(loop, len, recv, n).left
    decreases m
  {
    if n < m {
      NeverMore(loop, len, recv, n, m - 1);
    } else if m > 0 {
      NeverMore(loop, len, recv, 0, m - 1);
    }
  }

  lemma {:induction false} Spins(loop: Loop, len: nat, recv: nat -> Event, n: nat, m: nat)
    requires SpinsFrom(loop, len, recv, n) && n <= m
    ensures AfterTurns(loop, len, recv, m) == AfterTurns(loop, len, recv, n)
    decreases m
  {
    if n < m {
      Spins(loop, len, recv, n, m - 1);
      NeverMore(loop, len, recv, 0, m - 1);
      assert Idle(loop, recv(m - 1));
    }
  }

  lemma {:induction false} GetsThere(loop: Loop, len: nat, recv: nat -> Event, n: nat)
    requires AfterTurns(loop, len, recv, n) != Ended && forall m: nat :: !SpinsFrom(loop, len, recv, m)
    ensures Terminates(loop, len, recv)
    decreases AfterTurns(loop, len, recv, n).left
  {
    assert !SpinsFrom(loop, len, recv, n);
    var k: nat :| k >= n && !Idle(loop, recv(k));
    NeverMore(loop, len, recv, n, k);
    if AfterTurns(loop, len, recv, k) != Ended && AfterTurns(loop, len, recv, k + 1) != Ended {
      GetsThere(loop, len, recv, k + 1);
    }
  }

  lemma {:induction false} OneMoreBrought(answers: seq<Event>, k: nat)
    requires k < |answers| && answers[k].Bytes?
    ensures Brought(answers, k + 1) == Brought(answers, k) + Min(5000, answers[k].n)
    decreases k
  {
    if k > 0 {
      OneMoreBrought(answers[1..], k - 1);
    }
  }

  /** The discard loop has what the answers brought behind it, as `Framing.CompletesIff` counts it. */
  lemma {:induction false} DiscardLeft(len: nat, recv: nat -> Event, answers: seq<Event>, n: nat)
    requires n <= |answers| && forall k: nat :: k < n ==> answers[k] == recv(k) && answers[k].Bytes?
    ensures AfterTurns(Discard, len, recv, n)
         == if Brought(answers, n) >= len then Ended else Going(len - Brought(answers, n))
  {
    if n > 0 {
      assert answers[n - 1] == recv(n - 1);
      DiscardLeft(len, recv, answers, n - 1);
      OneMoreBrought(answers, n - 1);
    }
  }

  /** A loop ends if and only if there is no point from which on only empty answers come while bytes are left. */
  lemma TerminatesIff(loop: Loop, len: nat, recv: nat -> Event)
    ensures Terminates(loop, len, recv) <==> forall n: nat :: !SpinsFrom(loop, len, recv, n)
  {
    if Terminates(loop, len, recv) {
      var m: nat :| AfterTurns(loop, len, recv, m) == Ended;
      forall n: nat
        ensures !SpinsFrom(loop, len, recv, n)
      {
        if SpinsFrom(loop, len, recv, n) {
          Spins(loop, len, recv, n, if n < m then m else n);
          NeverMore(loop, len, recv, m, if n < m then m else n);
        }
      }
    } else if forall n: nat :: !SpinsFrom(loop, len, recv, n) {
      assert AfterTurns(loop, len, recv, 0) != Ended;
      GetsThere(loop, len, recv, 0);
    }
  }

  /** The peer shuts down after `n` answers: the loop ends if and only if it has ended by then. */
  lemma ShutDown(loop: Loop, len: nat, recv: nat -> Event, n: nat)
    requires forall k: nat :: k >= n ==> recv(k) == Bytes(0)
    ensures Terminates(loop, len, recv) <==> AfterTurns(loop, len, recv, n) == Ended
  {
    TerminatesIff(loop, len, recv);
    if AfterTurns(loop, len, recv, n) != Ended {
      assert SpinsFrom(loop, len, recv, n);
    }
  }
}
