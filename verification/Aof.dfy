/**
  PfAof (common/src/pf_aof.cpp): a byte-granular append-only file over a volume that only
  takes whole blocks.
 */
module Aof {
  import opened Machine
  import opened AofFormat
  import opened AofCrash
  import opened AofReads
  import opened AofVolume
  import History = AofHistory

  class PfAof {
    const volume: Volume
    const appendBufSize: nat
    const appendBuf: array<octet>
    var appendTail: nat
    var fileLen: nat
    var head: seq<octet>
    /** The bytes appended so far, and how many of them the last sync covered. */
    ghost var file: seq<octet>
    ghost var synced: nat

    ghost predicate Allocated() {
      appendBufSize % 4096 == 0 && appendBufSize > 0 && appendBuf.Length == appendBufSize
    }

    ghost predicate Valid()
      reads this, volume, appendBuf
    {
      && Allocated() && appendTail <= appendBufSize && appendTail <= fileLen && fileLen == |file|
      && Image(volume.data, file, fileLen - appendTail, synced)
      && head == volume.data[..BLOCK]
      && appendBuf[..appendTail] == file[fileLen - appendTail..]
    }

    /** The open file as a state of its history. */
    ghost function State(): (s: History.State)
      requires Valid()
      reads this, volume, appendBuf
      ensures History.Sound(s) && s.base <= |s.file|
    {
      History.State(volume.data, file, fileLen - appendTail, synced)
    }

    constructor (volume: Volume, bufSize: nat)
      requires bufSize % 4096 == 0 && bufSize > 0
      ensures Allocated() && fresh(appendBuf) && this.volume == volume && appendBufSize == bufSize
      ensures appendTail == 0 && fileLen == 0
    {
      this.volume := volume;
      appendBufSize := bufSize;
      appendBuf := new octet[bufSize];
      head := seq(BLOCK, _ => 0);
      appendTail, fileLen := 0, 0;
      file, synced := [], 0;
    }

    /** Opening finds exactly the durable content, or refuses a volume without a good head. */
    method Open() returns (rc: int)
      requires Allocated() && appendTail == 0
      requires |volume.data| >= BLOCK && |volume.data| % 4096 == 0
      requires HeadOk(volume.data[..BLOCK]) ==>
                 var n := LengthOf(volume.data[..BLOCK]);
                 n < 0x8000_0000_0000_0000 && BLOCK + UpAlign(n) <= |volume.data|
      modifies this, appendBuf
      ensures rc == if HeadOk(volume.data[..BLOCK]) then 0 else EINVAL
      ensures rc == 0 <==> volume.data[..8] == [0x50, 0x41, 0x6f, 0x46, 0, 0, 1, 0]
      ensures rc == 0 ==> Valid() && Durable(volume.data, file) && appendTail < 4096
      ensures rc == 0 ==> History.Opens(volume.data) && State() == History.Opened(volume.data)
    {
      hide HeadOk, LengthOf, UpAlign, DownAlign, Image, Durable, History.Opens, History.Opened, Valid;
      HeadIoOk();
      head := volume.SyncRead(0, BLOCK);
      HeadBytes(head);
      assert head[..8] == volume.data[..8];
      if !HeadOk(head) {
        return EINVAL;
      }
      WhatIsThere(volume.data);
      fileLen := LengthOf(head);
      file, synced := volume.data[BLOCK..BLOCK + fileLen], fileLen;
      LoadTail();
      Fold(History.Opened(volume.data));
      return 0;
    }

    /** The block that holds the unaligned end of the file goes into the append buffer. */
    method LoadTail()
      requires Allocated() && appendTail == 0 && BLOCK + UpAlign(fileLen) <= |volume.data|
      requires file == volume.data[BLOCK..BLOCK + fileLen]
      modifies this`appendTail, appendBuf
      ensures appendTail == fileLen % 4096 && DownAlign(fileLen) == fileLen - appendTail
      ensures appendBuf[..appendTail] == file[fileLen - appendTail..]
    {
      hide UpAlign, IoOk;
      if fileLen % 4096 != 0 {
        var off := DownAlign(fileLen) + BLOCK;
        OneBlockOk(fileLen);
        var bytes := volume.SyncRead(off, BLOCK);
        CopyTo(appendBuf, 0, bytes);
        appendTail := fileLen % 4096;
      }
    }

    /** One turn of the loop of sync: fill a last unaligned piece up with zeros and submit the write. */
    method SubmitSegment(arg: IoWaiter, bufOff: nat, ioSize: nat, volOff: nat)
      requires Allocated() && ioSize > 0 && bufOff + ioSize <= appendTail <= appendBufSize && bufOff % 4096 == 0
      requires ioSize % 4096 != 0 ==> bufOff + ioSize == appendTail
      requires arg.Valid() && arg.volume == volume && IoOk(volOff, UpAlign(ioSize))
      requires arg.state.issued < |arg.state.plan|
      requires arg.state.plan[arg.state.issued] == Write(volOff, Padded(appendBuf[bufOff..bufOff + ioSize]))
      modifies arg, volume, appendBuf
      ensures appendBuf[..appendTail] == old(appendBuf[..appendTail])
      ensures arg.Valid() && arg.Issuing(old(arg.state), old(arg.state).issued + 1)
    {
      hide IoOk, AofSync.Sound;
      var alignedIoSize := ioSize;
      ghost var piece := appendBuf[bufOff..bufOff + ioSize];
      UpAlignMonotone(ioSize, ioSize);
      PaddingFits(bufOff, ioSize, appendBufSize);
      if ioSize % 4096 != 0 {
        alignedIoSize := UpAlign(ioSize);
        CopyTo(appendBuf, appendTail, seq(alignedIoSize - ioSize, _ => 0));
      }
      assert appendBuf[bufOff..bufOff + alignedIoSize] == Padded(piece);
      arg.SubmitWrite(volOff, appendBuf[bufOff..bufOff + alignedIoSize]);
    }

    /** The loop of sync over the append buffer, which holds `data`, the file from `base` on. */
    method SubmitAllData(arg: IoWaiter, base: nat, ghost data: seq<octet>)
      requires Allocated() && appendTail <= appendBufSize && appendBuf[..appendTail] == data && base % 4096 == 0
      requires arg.Valid() && arg.volume == volume
      requires arg.state.plan == Plan(data, BLOCK + base) && arg.Issuing(arg.state, 0)
      modifies arg, volume, appendBuf
      ensures appendBuf[..appendTail] == data
      ensures arg.Valid() && arg.Issuing(old(arg.state), |arg.state.plan|)
    {
      hide Plan, IoOk, UpAlign, SegmentEnd, Padded, IoWaiter.Valid;
      var bufOff := 0;
      while bufOff < appendTail
        invariant bufOff <= appendTail && (bufOff == appendTail || bufOff % 4096 == 0)
        invariant appendBuf[..appendTail] == data && arg.Valid()
        invariant arg.Issuing(old(arg.state), arg.state.issued)
        invariant arg.state.plan[arg.state.issued..] == Plan(data[bufOff..], BLOCK + base + bufOff)
      {
        var curVolTail := BLOCK + base + bufOff;
        var segEnd := SegmentEnd(curVolTail);
        var ioSize := if segEnd < curVolTail + (appendTail - bufOff) then segEnd - curVolTail else appendTail - bufOff;
        ghost var rest := data[bufOff..];
        StepFits(base, bufOff, appendTail, ioSize);
        PlanStep(rest, curVolTail, ioSize);
        BufferSlice(appendBuf, appendTail, bufOff, ioSize);
        if bufOff + ioSize < appendTail {
          AlignedSum(bufOff, ioSize);
        }
        NextPlanned(arg.state.plan, arg.state.issued, Write(curVolTail, Padded(rest[..ioSize])),
                    Plan(rest[ioSize..], curVolTail + ioSize));
        SubmitSegment(arg, bufOff, ioSize, curVolTail);
        assert rest[ioSize..] == data[bufOff + ioSize..];
        bufOff := bufOff + ioSize;
      }
      assert data[bufOff..] == [];
      NothingPlanned(BLOCK + base + bufOff);
    }

    /** The memcpy at the end of sync: the unaligned rest moves to the front of the buffer. */
    method KeepUnalignedRest(ghost data: seq<octet>)
      requires Allocated() && appendTail <= appendBufSize && appendBuf[..appendTail] == data
      modifies this`appendTail, appendBuf
      ensures appendTail == old(appendTail) % 4096 && appendTail <= |data|
      ensures appendBuf[..appendTail] == data[|data| - appendTail..]
    {
      hide DownAlign;
      var r := appendTail % 4096;
      TailSplit(appendTail, r);
      EndOfBuffer(appendBuf, appendTail, r);
      if r != 0 && appendTail > 4096 {
        MoveToFront(DownAlign(appendTail), r);
      }
      appendTail := r;
    }

    method MoveToFront(from: nat, n: nat)
      requires from + n <= appendBuf.Length
      modifies appendBuf
      ensures appendBuf[..n] == old(appendBuf[from..from + n])
    {
      CopyTo(appendBuf, 0, appendBuf[from..from + n]);
    }

    /**
      The writes of sync. They overlap, and finish when the volume chooses; `done` is the
      order in which the data writes did.
     */
    method WriteOut() returns (ghost done: seq<Write>, ghost s': History.State)
      requires Valid()
      modifies this`head, volume, appendBuf
      ensures Allocated() && appendBuf[..appendTail] == file[fileLen - appendTail..] && |volume.data| >= BLOCK
      ensures head == volume.data[..BLOCK]
      ensures History.Takes(old(State()), History.Sync(done), s')
      ensures s'.volume == volume.data && s'.file == file
      ensures s'.base == fileLen - appendTail % 4096 && s'.synced == fileLen
    {
      hide Plan, IoOk, UpAlign, SegmentEnd, ApplyAll, Durable, HeadOk, LengthOf, WithLength, Image, Fit, IoWaiter.Valid;
      ghost var s := State();
      ghost var data := s.file[s.base..];
      PlanFitsVolume(s);
      ImageFacts(s.volume, file, s.base, synced);
      var newHead := WithLength(head, fileLen);
      var arg := new IoWaiter(volume, Plan(data, BLOCK + s.base), Write(0, newHead));
      SubmitAllData(arg, fileLen - appendTail, data);
      arg.Drain();
      head := newHead;
      HeadIoOk();
      arg.WriteHead(head);
      done := arg.state.done;
      s' := AfterHead(arg, s);
    }

    /** Afterwards all of the file is durable, and one sync step of the history has been taken. */
    method Sync() returns (ghost done: seq<Write>)
      requires Valid()
      modifies this, volume, appendBuf
      ensures Valid() && file == old(file) && synced == |file| && appendTail == old(appendTail) % 4096
      ensures Durable(volume.data, file) && |volume.data| == old(|volume.data|)
      ensures History.Takes(old(State()), History.Sync(done), State())
    {
      hide *;
      Unfold();
      ghost var s := State();
      ghost var s';
      done, s' := WriteOut();
      AfterSync(s, done, s');
      FinishSync(s');
    }

    /** What sync does to its own fields after the head is written. */
    method FinishSync(ghost s: History.State)
      requires Allocated() && appendTail <= appendBufSize && appendTail <= fileLen == |file|
      requires appendBuf[..appendTail] == file[fileLen - appendTail..]
      requires |volume.data| >= BLOCK && head == volume.data[..BLOCK]
      requires s.volume == volume.data && s.file == file && s.base == fileLen - appendTail % 4096 && s.synced == fileLen
      requires Image(s.volume, s.file, s.base, s.synced)
      modifies this`appendTail, this`synced, appendBuf
      ensures Valid() && State() == s && appendTail == old(appendTail) % 4096 && synced == fileLen
    {
      hide *;
      ghost var from := fileLen - appendTail;
      KeepUnalignedRest(file[from..]);
      EndOfEnd(file, from, appendTail);
      synced := fileLen;
      Fold(s);
    }

    lemma Unfold()
      requires Valid()
      ensures Allocated() && appendTail <= appendBufSize && appendTail <= fileLen == |file|
      ensures appendBuf[..appendTail] == file[fileLen - appendTail..]
      ensures State().volume == volume.data && State().file == file && State().base == fileLen - appendTail
      ensures Image(volume.data, file, fileLen - appendTail, State().synced)
    {
      hide Image;
    }

    lemma Fold(s: History.State)
      requires Allocated() && appendTail <= appendBufSize && appendTail <= fileLen == |file|
      requires appendBuf[..appendTail] == file[fileLen - appendTail..]
      requires |volume.data| >= BLOCK && head == volume.data[..BLOCK]
      requires s.volume == volume.data && s.file == file && s.base == fileLen - appendTail && s.synced == synced
      requires Image(s.volume, s.file, s.base, s.synced)
      ensures Valid() && State() == s
    {
      hide Image;
    }

    /** A file that takes more bytes: the append buffer is not full. */
    ghost predicate Ready()
      reads this, volume, appendBuf
    {
      Valid() && appendTail < appendBufSize
    }

    /** The memcpy of append. */
    method Buffer(seg: seq<octet>)
      requires Ready() && |seg| <= appendBufSize - appendTail
      requires BLOCK + UpAlign(fileLen + |seg|) <= |volume.data| && fileLen + |seg| < 0x8000_0000_0000_0000
      modifies this, appendBuf
      ensures Valid() && file == old(file) + seg && synced == old(synced)
      ensures History.Takes(old(State()), History.Append(seg), State())
    {
      hide UpAlign, Image, History.Takes;
      ghost var s := State();
      ghost var was := appendBuf[..appendTail];
      CopyTo(appendBuf, appendTail, seg);
      file := file + seg;
      appendTail := appendTail + |seg|;
      fileLen := fileLen + |seg|;
      ghost var s' := s.(file := file);
      History.AppendTakes(s, seg, s');
      assert appendBuf[..appendTail] == was + seg;
      assert was + seg == file[s.base..];
      Fold(s');
    }

    /** One turn of the loop of append: fill the buffer, and sync when it is full. */
    method AppendChunk(seg: seq<octet>, ghost s0: History.State, ghost before: seq<History.Step>)
      returns (ghost steps: seq<History.Step>)
      requires Ready() && 0 < |seg| <= appendBufSize - appendTail && History.Leads(s0, before, State())
      requires BLOCK + UpAlign(fileLen + |seg|) <= |volume.data| && fileLen + |seg| < 0x8000_0000_0000_0000
      modifies this, volume, appendBuf
      ensures Ready() && file == old(file) + seg && fileLen == old(fileLen) + |seg|
      ensures |volume.data| == old(|volume.data|) && History.Leads(s0, steps, State())
    {
      hide UpAlign, Durable, Image, History.Takes, History.Leads, State;
      ghost var s := State();
      Buffer(seg);
      ghost var s1 := State();
      History.LeadsOneStep(s, History.Append(seg), s1);
      History.LeadsOn(s0, before, s, [History.Append(seg)], s1);
      steps := before + [History.Append(seg)];
      if appendTail == appendBufSize {
        ghost var done := Sync();
        History.LeadsOneStep(s1, History.Sync(done), State());
        History.LeadsOn(s0, steps, s1, [History.Sync(done)], State());
        steps := steps + [History.Sync(done)];
      }
    }

    /** The file grows by exactly the given bytes, in steps of its history. */
    method Append(buf: seq<octet>) returns (n: nat, ghost steps: seq<History.Step>)
      requires Ready()
      requires BLOCK + UpAlign(fileLen + |buf|) <= |volume.data| && fileLen + |buf| < 0x8000_0000_0000_0000
      modifies this, volume, appendBuf
      ensures Ready() && file == old(file) + buf && n == |buf| && |volume.data| == old(|volume.data|)
      ensures History.Leads(old(State()), steps, State())
    {
      hide UpAlign, Valid, History.Leads, State;
      LengthKept();
      var remain, bufIdx := |buf|, 0;
      steps := [];
      History.LeadsNowhere(State());
      while remain > 0
        invariant 0 <= bufIdx && 0 <= remain && bufIdx + remain == |buf| && Ready()
        invariant file == old(file) + buf[..bufIdx] && |volume.data| == old(|volume.data|)
        invariant fileLen == old(fileLen) + bufIdx
        invariant History.Leads(old(State()), steps, State())
      {
        var segSize := if remain <= appendBufSize - appendTail then remain else appendBufSize - appendTail;
        UpAlignMonotone(fileLen + segSize, old(fileLen) + |buf|);
        GrownBy(old(file), buf, bufIdx, bufIdx + segSize);
        steps := AppendChunk(buf[bufIdx..bufIdx + segSize], old(State()), steps);
        bufIdx := bufIdx + segSize;
        remain := remain - segSize;
      }
      return |buf|, steps;
    }

    /** Everything below the append buffer is on the volume, everything else in the buffer. */
    lemma OnVolume()
      requires Valid()
      ensures appendTail <= fileLen == |file| && appendTail <= appendBuf.Length
      ensures forall x :: 0 <= x < fileLen - appendTail ==>
                BLOCK + x < |volume.data| && volume.data[BLOCK + x] == file[x]
      ensures forall k :: 0 <= k < appendTail ==> appendBuf[k] == file[fileLen - appendTail + k]
      ensures BLOCK + UpAlign(fileLen) <= |volume.data| && (fileLen - appendTail) % 4096 == 0
      ensures |volume.data| % 4096 == 0
    {
      hide HeadOk, LengthOf, UpAlign;
      var base := fileLen - appendTail;
      assert forall x :: 0 <= x < base ==> file[x] == file[..synced][x];
      assert forall k :: 0 <= k < appendTail ==> appendBuf[..appendTail][k] == file[base..][k];
    }

    /** The loop of read: whole blocks straight into the user's buffer, a segment at a time. */
    method ReadBlocks(arg: ReadWaiter, at: nat, from: nat, to: nat)
      requires arg.Valid() && arg.volume == volume && arg.waits == 0
      requires from % 4096 == 0 && to % 4096 == 0 && from <= to <= |volume.data|
      requires from < to ==> at + (to - from) <= arg.buf.Length
      requires forall r :: r in arg.inflight ==> r.place == Ends
      modifies arg, arg.buf, arg.readBuf
      ensures arg.Valid() && arg.waits == 0 && arg.expectedEnds == old(arg.expectedEnds)
      ensures BlocksCopied(volume.data, old(arg.expected), arg.expected, at, from, to)
    {
      hide SegmentEnd, ReadWaiter.Valid, IoOk;
      var alignedOff, bufOff := from, at;
      while alignedOff < to
        invariant alignedOff % 4096 == 0 && from <= alignedOff <= to && bufOff == at + (alignedOff - from)
        invariant arg.Valid() && arg.waits == 0 && arg.expectedEnds == old(arg.expectedEnds)
        invariant BlocksCopied(volume.data, old(arg.expected), arg.expected, at, from, alignedOff)
        invariant forall r :: r in arg.inflight ==> r.place == Ends || r.at + r.len <= bufOff
      {
        var segEnd := SegmentEnd(alignedOff);
        var ioSize := (if to < segEnd then to else segEnd) - alignedOff;
        SegmentPiece(alignedOff, to, ioSize);
        arg.SubmitRead(alignedOff, ioSize, User, bufOff);
        alignedOff := alignedOff + ioSize;
        bufOff := bufOff + ioSize;
      }
    }

    /** memcpy out of the two blocks that hold the unaligned ends of a read. */
    method CopyEnds(buf: array<octet>, n: nat, volOff: nat, volEnd: nat, headBlock: seq<octet>, tailBlock: seq<octet>)
      requires n <= buf.Length && HeadLen(volOff, n) <= n && TailLen(volOff, volEnd) <= n
      requires volOff % 4096 != 0 ==> |headBlock| == BLOCK
      requires HasTail(volOff, volEnd) ==> |tailBlock| == BLOCK
      modifies buf
      ensures EndsCopied(old(buf[..]), buf[..], n, volOff, volEnd, headBlock, tailBlock)
    {
      hide DownAlign, HasTail;
      if volOff % 4096 != 0 {
        var copyOff := volOff % 4096;
        var copyLen := if 4096 - copyOff < n then 4096 - copyOff else n;
        CopyTo(buf, 0, headBlock[copyOff..copyOff + copyLen]);
      }
      assert forall k :: 0 <= k < buf.Length ==>
        buf[k] == if k < HeadLen(volOff, n) && volOff % 4096 + k < |headBlock| then headBlock[volOff % 4096 + k]
                  else old(buf[k]);
      if HasTail(volOff, volEnd) {
        CopyTo(buf, n - volEnd % 4096, tailBlock[..volEnd % 4096]);
      }
    }

    /** The reads of the unaligned ends; the whole blocks between them are `lo` to `hi`. */
    method ReadEnds(arg: ReadWaiter, volOff: nat, volEnd: nat) returns (lo: nat, hi: nat)
      requires arg.Valid() && arg.volume == volume && arg.waits == 0 && arg.inflight == []
      requires arg.readBuf.Length == 2 * BLOCK == |arg.expectedEnds|
      requires volOff <= volEnd <= |volume.data| && volOff < |volume.data| && |volume.data| % 4096 == 0
      modifies arg, arg.buf, arg.readBuf
      ensures lo == WholeFrom(volOff) && hi == WholeTo(volOff, volEnd)
      ensures arg.Valid() && arg.waits == 0 && arg.expected == old(arg.expected) && |arg.expectedEnds| == 2 * BLOCK
      ensures EndsRead(volume.data, volOff, volEnd, arg.expectedEnds[..BLOCK], arg.expectedEnds[BLOCK..])
      ensures forall r :: r in arg.inflight ==> r.place == Ends
    {
      hide SegmentEnd, IoOk, ReadWaiter.Valid;
      var alignedOff := DownAlign(volOff);
      var alignedEnd := UpAlign(volEnd);
      BlocksWithin(volOff, volEnd, |volume.data|);
      OneBlock(volOff);
      OneBlock(volEnd);
      UpOrDown(volEnd);
      if volOff % 4096 != 0 {
        arg.SubmitRead(alignedOff, BLOCK, Ends, 0);
        alignedOff := alignedOff + BLOCK;
      }
      ghost var headBlock := arg.expectedEnds[..BLOCK];
      assert forall r :: r in arg.inflight ==> r.place == Ends && r.at + r.len <= BLOCK;
      if HasTail(volOff, volEnd) {
        arg.SubmitRead(DownAlign(volEnd), BLOCK, Ends, BLOCK);
        alignedEnd := alignedEnd - BLOCK;
      }
      assert arg.expectedEnds[..BLOCK] == headBlock;
      lo, hi := alignedOff, alignedEnd;
    }

    /** All reads of the volume, which overlap, up to the point where each has arrived in its place. */
    method ReadAndDrain(buf: array<octet>, readBuf: array<octet>, volOff: nat, volEnd: nat)
      requires buf != readBuf && readBuf.Length == 2 * BLOCK
      requires volOff <= volEnd <= |volume.data| && volOff < |volume.data| && |volume.data| % 4096 == 0
      requires var lo, hi := WholeFrom(volOff), WholeTo(volOff, volEnd);
               && lo % 4096 == 0 && hi % 4096 == 0 && lo <= hi <= |volume.data|
               && (lo < hi ==> HeadRoom(volOff) + (hi - lo) <= buf.Length)
      modifies buf, readBuf
      ensures EndsRead(volume.data, volOff, volEnd, readBuf[..BLOCK], readBuf[BLOCK..])
      ensures BlocksCopied(volume.data, old(buf[..]), buf[..], HeadRoom(volOff), WholeFrom(volOff),
                           WholeTo(volOff, volEnd))
    {
      hide *;
      var arg := new ReadWaiter(volume, buf, readBuf);
      var lo, hi := ReadEnds(arg, volOff, volEnd);
      ReadBlocks(arg, HeadRoom(volOff), lo, hi);
      arg.Drain();
    }

    /**
      The part of read that goes to the volume: `m` bytes from `offset`, all below the append
      buffer, into the front of a user buffer of which `n` bytes are wanted in all.
     */
    method ReadVolume(buf: array<octet>, n: nat, offset: nat, m: nat)
      requires BLOCK + UpAlign(offset + m) <= |volume.data| && BLOCK + UpAlign(offset + 1) <= |volume.data|
      requires m <= n <= buf.Length && (m < n ==> m > 0 && (offset + m) % 4096 == 0)
      requires |volume.data| % 4096 == 0
      modifies buf
      ensures forall k :: 0 <= k < buf.Length ==>
                buf[k] == if k < m then volume.data[BLOCK + offset + k] else old(buf[k])
    {
      hide *;
      var volOff := offset + BLOCK;
      var volEnd := volOff + m;
      BlocksExist(offset, m, |volume.data|);
      if m < n {
        BlockShift(offset + m);
      }
      ReadShape(volOff, volEnd, n);
      ghost var b0 := buf[..];
      var readBuf := new octet[2 * BLOCK];
      ReadAndDrain(buf, readBuf, volOff, volEnd);
      ghost var b1 := buf[..];
      CopyEnds(buf, n, volOff, volEnd, readBuf[..BLOCK], readBuf[BLOCK..]);
      AssembleRead(volume.data, b0, b1, buf[..], volOff, volEnd, n, readBuf[..BLOCK], readBuf[BLOCK..]);
      assert forall k :: 0 <= k < buf.Length ==> buf[k] == buf[..][k] && old(buf[k]) == b0[k];
    }

    /** The part of read that is in the append buffer; `m` bytes are left to fetch from the volume. */
    method ReadBuffer(buf: array<octet>, n: nat, offset: nat) returns (m: nat)
      requires appendTail <= fileLen == |file| && appendTail <= appendBuf.Length
      requires forall k :: 0 <= k < appendTail ==> appendBuf[k] == file[fileLen - appendTail + k]
      requires n <= buf.Length && offset + n <= fileLen && buf != appendBuf
      modifies buf
      ensures m == if offset + n <= fileLen - appendTail then n
                   else if offset < fileLen - appendTail then fileLen - appendTail - offset else 0
      ensures forall k :: 0 <= k < buf.Length ==> buf[k] == if m <= k < n then file[offset + k] else old(buf[k])
    {
      m := n;
      var base := fileLen - appendTail;
      if offset + n > base {
        var inBufLen := if n < offset + n - base then n else offset + n - base;
        var inBufOff := if n == inBufLen then offset + n - base - inBufLen else 0;
        m := n - inBufLen;
        CopyTo(buf, m, appendBuf[inBufOff..inBufOff + inBufLen]);
      }
    }

    /**
      Every byte asked for that the file has, whether it is on the volume or still in the
      append buffer, and nothing beyond them.
     */
    method Read(buf: array<octet>, len: nat, offset: nat) returns (n: nat)
      requires Valid() && len <= buf.Length && buf != appendBuf
      modifies buf
      ensures n == Available(|file|, len, offset) && Valid()
      ensures forall k :: 0 <= k < buf.Length ==> buf[k] == if k < n then file[offset + k] else old(buf[k])
    {
      hide Valid, UpAlign;
      OnVolume();
      if offset >= fileLen {
        return 0;
      }
      n := if offset + len > fileLen then fileLen - offset else len;
      var m := ReadBuffer(buf, n, offset);
      if m == 0 && offset + n > fileLen - appendTail {
        return n;
      }
      UpAlignMonotone(offset + m, fileLen);
      UpAlignMonotone(offset + 1, fileLen);
      ReadVolume(buf, n, offset, m);
    }

    lemma LengthKept()
      requires Valid()
      ensures fileLen == |file|
    {
    }
  }

  /** Sync and open again: the same file, byte for byte. */
  method Reopen(aof: PfAof) returns (again: PfAof, rc: int)
    requires aof.Valid()
    modifies aof, aof.volume, aof.appendBuf
    ensures rc == 0 && again.Valid() && again.volume == aof.volume && fresh(again)
    ensures again.file == old(aof.file) && again.synced == |again.file|
  {
    hide Durable, UpAlign, HeadOk, LengthOf;
    ghost var done := aof.Sync();
    ghost var v := aof.volume.data;
    ImageFacts(v, aof.file, aof.fileLen - aof.appendTail, aof.synced);
    WhatOpenNeeds(v, aof.file);
    again := new PfAof(aof.volume, aof.appendBufSize);
    rc := again.Open();
  }

  lemma WhatOpenNeeds(v: seq<octet>, content: seq<octet>)
    requires Durable(v, content) && |content| < 0x8000_0000_0000_0000
    requires |v| % 4096 == 0 && BLOCK + UpAlign(|content|) <= |v|
    ensures HeadOk(v[..BLOCK]) && LengthOf(v[..BLOCK]) == |content|
    ensures History.Opens(v) && History.Opened(v).file == content
  {
    History.OpenFinds(v, content);
  }

  /** How many of `len` bytes from `offset` a file of `size` bytes has. */
  function Available(size: nat, len: nat, offset: nat): nat {
    if offset >= size then 0 else if offset + len > size then size - offset else len
  }

  /** The unaligned end needs a block of its own: it is not in the block of an unaligned beginning. */
  predicate HasTail(volOff: nat, volEnd: nat) {
    volEnd % 4096 != 0 && (DownAlign(volEnd) != DownAlign(volOff) || volOff % 4096 == 0)
  }

  function HeadRoom(volOff: nat): nat {
    if volOff % 4096 != 0 then 4096 - volOff % 4096 else 0
  }

  function HeadLen(volOff: nat, n: nat): nat {
    if HeadRoom(volOff) < n then HeadRoom(volOff) else n
  }

  function TailLen(volOff: nat, volEnd: nat): nat {
    if HasTail(volOff, volEnd) then volEnd % 4096 else 0
  }

  /** The whole blocks of a read. */
  function WholeFrom(volOff: nat): nat {
    if volOff % 4096 != 0 then DownAlign(volOff) + 4096 else volOff
  }

  function WholeTo(volOff: nat, volEnd: nat): nat {
    if HasTail(volOff, volEnd) then DownAlign(volEnd) else UpAlign(volEnd)
  }

  /** The blocks of the unaligned ends, where there are any. */
  ghost predicate EndsRead(d: seq<octet>, volOff: nat, volEnd: nat, headBlock: seq<octet>, tailBlock: seq<octet>) {
    && (volOff % 4096 != 0 ==>
          DownAlign(volOff) + 4096 <= |d| && headBlock == d[DownAlign(volOff)..DownAlign(volOff) + 4096])
    && (HasTail(volOff, volEnd) ==>
          DownAlign(volEnd) + 4096 <= |d| && tailBlock == d[DownAlign(volEnd)..DownAlign(volEnd) + 4096])
  }

  /** How the unaligned head, the whole blocks and the unaligned tail of a read fit together. */
  lemma ReadShape(volOff: nat, volEnd: nat, n: nat)
    requires volOff <= volEnd && volEnd - volOff <= n
    requires volEnd - volOff < n ==> volOff < volEnd && volEnd % 4096 == 0
    ensures var lo, hi := WholeFrom(volOff), WholeTo(volOff, volEnd);
            var headLen, tailLen := HeadLen(volOff, n), TailLen(volOff, volEnd);
            && lo % 4096 == 0 && hi % 4096 == 0 && lo <= hi <= UpAlign(volEnd) && headLen <= n && tailLen <= n
            && headLen + (hi - lo) + tailLen == volEnd - volOff
            && (lo < hi ==> lo == volOff + headLen && headLen == HeadRoom(volOff))
            && (tailLen > 0 ==> n == volEnd - volOff && DownAlign(volEnd) == volEnd - tailLen)
            && (headLen > 0 ==> DownAlign(volOff) == volOff - volOff % 4096)
  {
    AlignedSum(DownAlign(volOff), BLOCK);
    UpOrDown(volEnd);
    if volOff % 4096 != 0 && DownAlign(volEnd) != DownAlign(volOff) {
      NextBlock(volOff, volEnd);
    }
  }

  /** The three copies of a read put every byte of the range in its place. */
  lemma AssembleRead(d: seq<octet>, b0: seq<octet>, b1: seq<octet>, b2: seq<octet>, volOff: nat, volEnd: nat, n: nat,
                     headBlock: seq<octet>, tailBlock: seq<octet>)
    requires n <= |b0| && volOff <= volEnd <= |d|
    requires volEnd - volOff <= n && (volEnd - volOff < n ==> volOff < volEnd && volEnd % 4096 == 0)
    requires EndsRead(d, volOff, volEnd, headBlock, tailBlock)
    requires BlocksCopied(d, b0, b1, HeadRoom(volOff), WholeFrom(volOff), WholeTo(volOff, volEnd))
    requires EndsCopied(b1, b2, n, volOff, volEnd, headBlock, tailBlock)
    ensures |b2| == |b0| && forall k :: 0 <= k < |b0| ==> b2[k] == if k < volEnd - volOff then d[volOff + k] else b0[k]
  {
    hide DownAlign, UpAlign, EndByte, HasTail, HeadRoom, HeadLen, TailLen, WholeFrom, WholeTo;
    forall k | 0 <= k < |b0|
      ensures b2[k] == if k < volEnd - volOff then d[volOff + k] else b0[k]
    {
      AssembleByte(d, b0[k], b1[k], k, volOff, volEnd, n, headBlock, tailBlock);
    }
  }

  /** Byte `k` after the whole blocks have arrived. */
  ghost function ReadByte(d: seq<octet>, b: octet, k: nat, volOff: nat, volEnd: nat): octet
    requires WholeTo(volOff, volEnd) <= |d|
  {
    var at, lo, hi := HeadRoom(volOff), WholeFrom(volOff), WholeTo(volOff, volEnd);
    if at <= k < at + hi - lo then d[lo + k - at] else b
  }

  lemma AssembleByte(d: seq<octet>, b0: octet, b1: octet, k: nat, volOff: nat, volEnd: nat, n: nat,
                     headBlock: seq<octet>, tailBlock: seq<octet>)
    requires volOff <= volEnd <= |d| && WholeTo(volOff, volEnd) <= |d|
    requires volEnd - volOff <= n && (volEnd - volOff < n ==> volOff < volEnd && volEnd % 4096 == 0)
    requires EndsRead(d, volOff, volEnd, headBlock, tailBlock) && b1 == ReadByte(d, b0, k, volOff, volEnd)
    ensures EndByte(b1, k, n, volOff, volEnd, headBlock, tailBlock)
            == if k < volEnd - volOff then d[volOff + k] else b0
  {
    hide DownAlign, UpAlign, HasTail;
    ReadShape(volOff, volEnd, n);
    var headLen, tailLen := HeadLen(volOff, n), TailLen(volOff, volEnd);
    if tailLen > 0 && n - tailLen <= k < n {
      assert tailBlock[k - (n - tailLen)] == d[DownAlign(volEnd) + k - (n - tailLen)];
    } else if k < headLen {
      assert headBlock[volOff % 4096 + k] == d[DownAlign(volOff) + volOff % 4096 + k];
    }
  }

  /** Byte `k` of the buffer after the unaligned ends are copied: the tail wins over the head, and both over `b`. */
  ghost function EndByte(b: octet, k: nat, n: nat, volOff: nat, volEnd: nat,
                         headBlock: seq<octet>, tailBlock: seq<octet>): octet
  {
    var t := TailLen(volOff, volEnd);
    if n - t <= k < n && k - (n - t) < |tailBlock| then tailBlock[k - (n - t)]
    else if k < HeadLen(volOff, n) && volOff % 4096 + k < |headBlock| then headBlock[volOff % 4096 + k]
    else b
  }

  /** The blocks `lo` to `hi` of the volume are copied to `at`, and nothing else changes. */
  ghost predicate BlocksCopied(d: seq<octet>, b: seq<octet>, b': seq<octet>, at: nat, lo: nat, hi: nat) {
    && |b'| == |b| && lo <= hi <= |d|
    && forall k :: 0 <= k < |b| ==> b'[k] == if at <= k < at + hi - lo then d[lo + k - at] else b[k]
  }

  ghost predicate EndsCopied(b: seq<octet>, b': seq<octet>, n: nat, volOff: nat, volEnd: nat,
                             headBlock: seq<octet>, tailBlock: seq<octet>)
  {
    && |b'| == |b|
    && forall k :: 0 <= k < |b| ==> b'[k] == EndByte(b[k], k, n, volOff, volEnd, headBlock, tailBlock)
  }

  lemma UpOrDown(x: nat)
    ensures UpAlign(x) == if x % 4096 == 0 then x else DownAlign(x) + 4096
  {
    AlignedSum(DownAlign(x), BLOCK);
    UpAlignUnique(x, if x % 4096 == 0 then x else DownAlign(x) + 4096);
  }

  lemma NextBlock(x: nat, y: nat)
    requires x <= y && DownAlign(x) != DownAlign(y)
    ensures DownAlign(x) + 4096 <= DownAlign(y)
  {
    var a, b := DownAlign(x) / 4096, DownAlign(y) / 4096;
    assert DownAlign(x) == 4096 * a && DownAlign(y) == 4096 * b;
  }

  lemma SegmentPiece(off: nat, to: nat, n: nat)
    requires off % 4096 == 0 && to % 4096 == 0 && off < to
    requires n == (if to < SegmentEnd(off) then to else SegmentEnd(off)) - off
    ensures IoOk(off, n) && off + n <= to && (off + n) % 4096 == 0
  {
    SegmentAligned(off);
    hide SegmentEnd;
    var a, b := off / 4096, to / 4096;
    assert to - off == 4096 * (b - a);
    AlignedSum(off, n);
  }

  /** The blocks that read asks for are on the volume. */
  lemma BlocksExist(offset: nat, m: nat, size: nat)
    requires BLOCK + UpAlign(offset + m) <= size && BLOCK + UpAlign(offset + 1) <= size
    ensures DownAlign(offset + BLOCK) + BLOCK <= size && offset + BLOCK + m <= UpAlign(offset + BLOCK + m) <= size
  {
    UpAlignShift(offset + m);
    UpAlignShift(offset + 1);
    var a, b := DownAlign(offset + BLOCK) / 4096, UpAlign(offset + BLOCK + 1) / 4096;
    assert DownAlign(offset + BLOCK) == 4096 * a && UpAlign(offset + BLOCK + 1) == 4096 * b;
  }

  lemma BlocksWithin(volOff: nat, volEnd: nat, size: nat)
    requires volOff < size && volEnd <= size && size % 4096 == 0
    ensures DownAlign(volOff) + 4096 <= size && UpAlign(volEnd) <= size
  {
    UpAlignMonotone(volEnd, size);
    UpAlignMonotone(volOff + 1, size);
    var a, b := DownAlign(volOff) / 4096, size / 4096;
    assert DownAlign(volOff) == 4096 * a && size == 4096 * b;
  }

  lemma BlockShift(x: nat)
    requires x % 4096 == 0
    ensures (x + BLOCK) % 4096 == 0
  {
  }

  lemma UpAlignShift(x: nat)
    ensures UpAlign(x + BLOCK) == UpAlign(x) + BLOCK
  {
    AlignedSum(UpAlign(x), BLOCK);
    UpAlignUnique(x + BLOCK, UpAlign(x) + BLOCK);
  }

  lemma OneBlock(x: nat)
    ensures IoOk(DownAlign(x), BLOCK)
  {
    SegmentAligned(DownAlign(x));
  }

  lemma HeadIoOk()
    ensures IoOk(0, BLOCK)
  {
  }

  lemma ImageFacts(v: seq<octet>, file: seq<octet>, base: nat, synced: nat)
    requires Image(v, file, base, synced)
    ensures base % 4096 == 0 && base <= |file| < 0x8000_0000_0000_0000
    ensures BLOCK + UpAlign(|file|) <= |v| && |v| % 4096 == 0
  {
  }

  lemma PlanFitsVolume(s: History.State)
    requires History.Sound(s)
    ensures Fit(s.volume, Plan(s.file[s.base..], BLOCK + s.base)) && |s.volume| >= BLOCK
  {
    hide Plan, UpAlign, WithLength, ApplyAll, HeadOk, LengthOf;
    SyncIsComplete(s.volume, s.file, s.base, s.synced, History.Pending(s));
  }

  lemma GrownBy(f: seq<octet>, buf: seq<octet>, i: nat, j: nat)
    requires i <= j <= |buf|
    ensures f + buf[..i] + buf[i..j] == f + buf[..j]
  {
  }

  lemma NextPlanned(plan: seq<Write>, i: nat, w: Write, rest: seq<Write>)
    requires i <= |plan| && plan[i..] == [w] + rest
    ensures i < |plan| && plan[i] == w && plan[i + 1..] == rest
  {
    assert plan[i..][0] == w && plan[i..][1..] == rest;
  }

  /** When the waiter is done, the sync step is complete. */
  lemma AfterHead(arg: IoWaiter, s: History.State) returns (s': History.State)
    requires History.Sound(s) && arg.Valid() && arg.v0 == s.volume && arg.state.head == AofSync.Written
    requires arg.state.plan == Plan(s.file[s.base..], BLOCK + s.base)
    requires |s.volume| >= BLOCK && arg.state.headWrite == Write(0, WithLength(s.volume[..BLOCK], |s.file|))
    ensures History.Takes(s, History.Sync(arg.state.done), s')
    ensures s'.volume == arg.volume.data && s'.file == s.file && s'.synced == |s.file|
    ensures s'.base == |s.file| - (|s.file| - s.base) % 4096
    ensures |s'.volume| >= BLOCK && s'.volume[..BLOCK] == arg.state.headWrite.bytes
  {
    hide Plan, UpAlign, WithLength, ApplyAll, HeadOk, LengthOf, Durable;
    AofSync.HeadWritten(s, arg.state);
    s' := History.Next(s, History.Sync(arg.state.done));
  }

  lemma AfterSync(s: History.State, done: seq<Write>, s': History.State)
    requires Image(s.volume, s.file, s.base, s.synced) && History.Takes(s, History.Sync(done), s')
    ensures Image(s'.volume, s'.file, s'.base, s'.synced) && Durable(s'.volume, s'.file) && |s'.volume| == |s.volume|
  {
    hide Plan, UpAlign, WithLength, ApplyAll, HeadOk, LengthOf, Durable;
    History.SyncSound(s, done);
    assert s'.file[..s'.synced] == s'.file;
  }

  lemma EndOfEnd(f: seq<octet>, from: nat, n: nat)
    requires from + n <= |f|
    ensures f[from..][|f| - from - n..] == f[|f| - n..]
  {
  }

  /** What opening finds on a volume with a good head. */
  lemma WhatIsThere(v: seq<octet>)
    requires |v| >= BLOCK && |v| % 4096 == 0 && HeadOk(v[..BLOCK])
    requires LengthOf(v[..BLOCK]) < 0x8000_0000_0000_0000 && BLOCK + UpAlign(LengthOf(v[..BLOCK])) <= |v|
    ensures History.Opens(v)
    ensures var s, n := History.Opened(v), LengthOf(v[..BLOCK]);
            && s.volume == v && BLOCK + n <= |v| && s.file == v[BLOCK..BLOCK + n]
            && s.base == DownAlign(n) && s.synced == n
            && Image(s.volume, s.file, s.base, s.synced) && Durable(v, s.file)
  {
    hide HeadOk, LengthOf, UpAlign;
    var s := History.Opened(v);
    assert s.file[..s.synced] == s.file;
  }

  lemma TailSplit(tail: nat, r: nat)
    requires r == tail % 4096
    ensures DownAlign(tail) == tail - r && r <= tail && (tail <= 4096 ==> r == 0 || r == tail)
  {
  }

  lemma EndOfBuffer(buf: array<octet>, tail: nat, n: nat)
    requires n <= tail <= buf.Length
    ensures buf[tail - n..tail] == buf[..tail][tail - n..]
    ensures n == tail ==> buf[..n] == buf[..tail][tail - n..]
    ensures n == 0 ==> buf[..n] == buf[..tail][tail - n..]
  {
  }

  lemma BufferSlice(buf: array<octet>, tail: nat, off: nat, n: nat)
    requires off + n <= tail <= buf.Length
    ensures buf[off..off + n] == buf[..tail][off..][..n]
  {
  }

  /** The bytes from `bufOff` on start and end where the volume has room for them. */
  lemma StepFits(base: nat, bufOff: nat, tail: nat, n: nat)
    requires base % 4096 == 0 && bufOff % 4096 == 0 && bufOff + n <= tail
    ensures (BLOCK + base + bufOff) % 4096 == 0
    ensures bufOff + UpAlign(n) <= UpAlign(tail)
  {
    hide UpAlign;
    AlignedSum(base, bufOff);
    AlignedSum(BLOCK, base + bufOff);
    AlignedRest(tail, bufOff);
    UpAlignMonotone(n, tail - bufOff);
  }

  lemma PaddingFits(bufOff: nat, n: nat, size: nat)
    requires bufOff % 4096 == 0 && size % 4096 == 0 && bufOff + n <= size
    ensures bufOff + UpAlign(n) <= size
  {
    hide UpAlign;
    AlignedSum(bufOff, UpAlign(n));
    var a, b := (bufOff + UpAlign(n)) / 4096, size / 4096;
    assert bufOff + UpAlign(n) == 4096 * a && size == 4096 * b;
  }

  /** The first write of a plan, and the plan for the rest. */
  lemma PlanStep(data: seq<octet>, off: nat, n: nat)
    requires data != [] && off % 4096 == 0
    requires n == if SegmentEnd(off) < off + |data| then SegmentEnd(off) - off else |data|
    ensures 0 < n <= |data| && IoOk(off, UpAlign(n)) && (n < |data| ==> (off + n) % 4096 == 0 && n % 4096 == 0)
    ensures Plan(data, off) == [Write(off, Padded(data[..n]))] + Plan(data[n..], off + n)
    ensures Write(off, Padded(data[..n])) in Plan(data, off)
  {
    hide Padded, UpAlign;
    SegmentAligned(off);
    FirstWriteOk(data, off, n);
    if n < |data| {
      AlignedTail(|data|, off, n);
    }
  }

  /** The block that holds the unaligned end of the file. */
  lemma OneBlockOk(len: nat)
    requires len % 4096 != 0
    ensures IoOk(DownAlign(len) + BLOCK, BLOCK) && DownAlign(len) + BLOCK == UpAlign(len)
    ensures len - len % 4096 == DownAlign(len)
  {
    AlignedSum(DownAlign(len), BLOCK);
    UpAlignUnique(len, DownAlign(len) + BLOCK);
    SegmentAligned(DownAlign(len) + BLOCK);
  }
}
