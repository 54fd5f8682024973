/**
  AofWindowCache (common/src/pf_aof_cache.cpp): eight cache lines of 64 KiB in front of an
  append-only file. A line is fetched again whenever it holds another window; other
  threads may fetch into it whenever its lock is free.
 */
module AofCache {
  import opened Machine
  import opened Aof
  import Lock = AofPrefetch

  const SLOT_CNT: nat := 8
  const SLOT_SIZE: nat := 65536

  function AlignOnSlot(offset: nat): (r: nat)
    ensures r <= offset < r + 65536 && r % 65536 == 0
  {
    offset - offset % 65536
  }

  /** How much of a read of `len` bytes the window of `offset` serves. */
  function LeftInWindow(len: nat, offset: nat): (l: nat)
    ensures l <= len && (len > 0 ==> l > 0) && (offset + l) / 65536 <= offset / 65536 + 1
  {
    Min(len, 65536 - offset % 65536)
  }

  /** What a read that ends at `end` would have fetched in advance, and the line for it. */
  function NextWindow(end: nat): nat {
    AlignOnSlot(end + SLOT_SIZE)
  }

  function NextLine(end: nat): (i: nat)
    ensures i < SLOT_CNT
  {
    (end + SLOT_SIZE) / SLOT_SIZE % SLOT_CNT
  }

  /** The read ends in the second half of a window. */
  predicate NearTheEnd(end: nat) {
    end + SLOT_SIZE / 2 >= NextWindow(end)
  }

  /** A read that does not come back has filled the user's buffer, but its caller never gets to know. */
  datatype Outcome = Returned(n: nat) | Stuck(n: nat)

  /** A line is right for a file when it agrees with it on all of its window that the file has. */
  ghost predicate Agrees(off: int, data: seq<octet>, file: seq<octet>) {
    off >= 0 ==> forall k :: 0 <= k < |data| && off + k < |file| ==> data[k] == file[off + k]
  }

  class CacheLine {
    var offInFile: int
    var readers: nat
    const buf: array<octet>
    const aof: PfAof

    constructor (aof: PfAof)
      ensures offInFile == -1 && readers == 0 && this.aof == aof && fresh(buf) && buf.Length == SLOT_SIZE
    {
      offInFile, readers := -1, 0;
      buf := new octet[SLOT_SIZE];
      this.aof := aof;
    }

    ghost predicate Right()
      reads this, buf, aof
    {
      buf.Length == SLOT_SIZE && buf != aof.appendBuf && Agrees(offInFile, buf[..], aof.file)
    }

    /** Under the exclusive lock: afterwards the line holds the window at `offset`. */
    method FetchData(offset: nat)
      requires Right() && aof.Valid() && readers == 0
      modifies this`offInFile, buf
      ensures Right() && aof.Valid() && offInFile == offset
    {
      if offInFile == offset {
        return;
      }
      var n := aof.Read(buf, SLOT_SIZE, offset);
      offInFile := offset;
    }

    /**
      Copies from the line, fetching and looking again until it holds the right window.
      `others` is what other threads do to the line while its lock is free: at each such
      moment a fetch of some window, or nothing.
     */
    method Pread(user: array<octet>, at: nat, len: nat, offset: nat, others: seq<Option<nat>>) returns (l: nat)
      requires Right() && aof.Valid() && readers == 0 && user != buf && user != aof.appendBuf
      requires at + len <= user.Length && offset + len <= |aof.file|
      modifies this`offInFile, buf, user
      ensures Right() && aof.Valid() && offInFile == AlignOnSlot(offset) && l == LeftInWindow(len, offset)
      ensures forall k :: 0 <= k < user.Length ==>
                user[k] == if at <= k < at + l then aof.file[offset + k - at] else old(user[k])
    {
      hide Right, PfAof.Valid;
      var turn := 0;
      while AlignOnSlot(offset) != offInFile
        invariant turn <= |others| && Right() && aof.Valid()
        invariant forall k :: 0 <= k < user.Length ==> user[k] == old(user[k])
        decreases |others| - turn, if AlignOnSlot(offset) == offInFile then 0 else 1
      {
        FetchData(AlignOnSlot(offset));
        if turn < |others| {
          if others[turn].Some? {
            FetchData(others[turn].value);
          }
          turn := turn + 1;
        }
      }
      l := CopyOut(user, at, len, offset);
    }

    /** What other threads fetch while the lock is free. */
    method OthersFetch(others: seq<Option<nat>>)
      requires Right() && aof.Valid() && readers == 0
      modifies this`offInFile, buf
      ensures Right() && aof.Valid() && (others == [] ==> offInFile == old(offInFile))
    {
      hide Right, PfAof.Valid;
      for turn := 0 to |others|
        invariant Right() && aof.Valid() && (turn == 0 ==> offInFile == old(offInFile))
      {
        if others[turn].Some? {
          FetchData(others[turn].value);
        }
      }
    }

    /**
      Launches a task that fetches the window at `offset`, if the line does not hold it, and
      waits for it with the shared lock in hand. `returned` says whether that wait ends.
     */
    method BgFetchData(offset: nat) returns (returned: bool)
      modifies this`readers
      ensures returned <==> Lock.CanReturn(Lock.Begun(offInFile, AlignOnSlot(offset), old(readers)))
      ensures returned <==> offInFile == AlignOnSlot(offset)
      ensures readers == old(readers) + if returned then 0 else 1
    {
      Lock.ReturnIff(offInFile, AlignOnSlot(offset), readers);
      readers := readers + 1;
      if AlignOnSlot(offset) != offInFile {
        return false;
      }
      readers := readers - 1;
      return true;
    }

    /** The copy under the shared lock, when the line holds the right window. */
    method CopyOut(user: array<octet>, at: nat, len: nat, offset: nat) returns (l: nat)
      requires Right() && user != buf && user != aof.appendBuf && offInFile == AlignOnSlot(offset)
      requires at + len <= user.Length && offset + len <= |aof.file|
      modifies user
      ensures Right() && l == LeftInWindow(len, offset)
      ensures forall k :: 0 <= k < user.Length ==>
                user[k] == if at <= k < at + l then aof.file[offset + k - at] else old(user[k])
    {
      l := if len < SLOT_SIZE - (offset - offInFile) then len else SLOT_SIZE - (offset - offInFile);
      var from := offset - offInFile;
      var part := buf[from..from + l];
      assert forall k :: 0 <= k < l ==> part[k] == buf[..][from + k];
      CopyTo(user, at, part);
    }
  }

  class AofWindowCache {
    const slots: seq<CacheLine>
    const aof: PfAof
    const prefetch: bool

    /** The lines and their buffers. */
    ghost const repr: set<object>

    constructor (aof: PfAof, prefetch: bool)
      requires aof.Valid()
      ensures Valid() && this.aof == aof && this.prefetch == prefetch && fresh(repr)
      ensures forall i :: 0 <= i < SLOT_CNT ==> slots[i].offInFile == -1
    {
      var lines: seq<CacheLine> := [];
      ghost var objects: set<object> := {};
      while |lines| < SLOT_CNT
        invariant |lines| <= SLOT_CNT && fresh(objects)
        invariant forall i :: 0 <= i < |lines| ==>
                    && lines[i].aof == aof && lines[i] in objects && lines[i].buf in objects
                    && lines[i].offInFile == -1 && lines[i].readers == 0 && lines[i].buf.Length == SLOT_SIZE
        invariant forall i, j :: 0 <= i < j < |lines| ==> lines[i] != lines[j] && lines[i].buf != lines[j].buf
      {
        var line := new CacheLine(aof);
        lines := lines + [line];
        objects := objects + {line, line.buf};
      }
      slots := lines;
      repr := objects;
      this.aof := aof;
      this.prefetch := prefetch;
    }

    ghost predicate Wired() {
      && |slots| == SLOT_CNT
      && (forall i :: 0 <= i < SLOT_CNT ==> slots[i].aof == aof && slots[i] in repr && slots[i].buf in repr)
      && (forall i, j :: 0 <= i < j < SLOT_CNT ==> slots[i] != slots[j] && slots[i].buf != slots[j].buf)
      && aof !in repr && aof.volume !in repr && aof.appendBuf !in repr
    }

    ghost predicate Right()
      reads this, repr, aof, aof.volume, aof.appendBuf
    {
      && Wired() && aof.Valid()
      && forall i :: 0 <= i < SLOT_CNT ==> slots[i].Right()
    }

    ghost predicate Valid()
      reads this, repr, aof, aof.volume, aof.appendBuf
    {
      Right() && forall i :: 0 <= i < SLOT_CNT ==> slots[i].readers == 0
    }

    /** One turn of the loop of pread. */
    method PreadSlot(user: array<octet>, at: nat, len: nat, offset: nat, others: seq<Option<nat>>) returns (l: nat)
      requires Valid() && user !in repr && user != aof.appendBuf
      requires 0 < len && at + len <= user.Length && offset + len <= |aof.file|
      modifies repr, user
      ensures Valid() && l == LeftInWindow(len, offset)
      ensures slots[offset / SLOT_SIZE % SLOT_CNT].offInFile == AlignOnSlot(offset)
      ensures forall i :: 0 <= i < SLOT_CNT && i != offset / SLOT_SIZE % SLOT_CNT ==>
                slots[i].offInFile == old(slots[i].offInFile)
      ensures forall k :: 0 <= k < user.Length ==>
                user[k] == if at <= k < at + l then aof.file[offset + k - at] else old(user[k])
    {
      var s := offset / SLOT_SIZE % SLOT_CNT;
      l := slots[s].Pread(user, at, len, offset, others);
      assert forall i :: 0 <= i < SLOT_CNT && i != s ==> slots[i].Right();
    }

    /** The loop of pread. `next` is a window that starts behind what is read. */
    method PreadSlots(user: array<octet>, len: nat, offset: nat, next: nat, others: seq<seq<Option<nat>>>)
      requires Valid() && user !in repr && user != aof.appendBuf
      requires len <= user.Length && offset + len <= |aof.file| && next == NextWindow(offset + len)
      modifies repr, user
      ensures Valid()
      ensures forall k :: 0 <= k < user.Length ==> user[k] == if k < len then aof.file[offset + k] else old(user[k])
      ensures (slots[NextLine(offset + len)].offInFile == next)
              <==> (old(slots[NextLine(offset + len)].offInFile) == next && Spared(offset, offset + len))
    {
      hide PfAof.Valid, CacheLine.Right, AlignOnSlot, LeftInWindow, NextWindow, NextLine, Spared;
      var remain, readed, turn := len, 0, 0;
      ghost var i := NextLine(offset + len);
      while remain > 0
        invariant 0 <= remain && 0 <= readed && readed + remain == len && Valid()
        invariant forall k :: 0 <= k < user.Length ==>
                    user[k] == if k < readed then aof.file[offset + k] else old(user[k])
        invariant Spared(offset, offset + len) ==> slots[i].offInFile == old(slots[i].offInFile)
        invariant readed > 0 && !Spared(offset, offset + len) && offset + readed > next - 8 * 65536 ==>
                    slots[i].offInFile != next
      {
        var sz := PreadSlot(user, readed, remain, offset + readed, if turn < |others| then others[turn] else []);
        LineOf(offset, offset + len, offset + readed);
        readed := readed + sz;
        remain := remain - sz;
        turn := turn + 1;
      }
      if !Spared(offset, offset + len) {
        LongRead(offset, offset + len);
      }
    }

    /** The fetch in advance, near the end of a window. Other threads fetch before it takes the lock. */
    method Prefetch(end: nat, others: seq<Option<nat>>) returns (returned: bool)
      requires Valid()
      modifies repr
      ensures Right() && (others == [] ==> slots[NextLine(end)].offInFile == old(slots[NextLine(end)].offInFile))
      ensures returned <==> !prefetch || !NearTheEnd(end) || slots[NextLine(end)].offInFile == NextWindow(end)
      ensures returned ==> Valid()
      ensures !returned ==> slots[NextLine(end)].readers == 1
    {
      returned := true;
      if prefetch && NearTheEnd(end) {
        var s := NextLine(end);
        slots[s].OthersFetch(others);
        returned := slots[s].BgFetchData(NextWindow(end));
        assert forall i :: 0 <= i < SLOT_CNT && i != s ==> slots[i].Right() && slots[i].readers == 0;
      }
    }

    /**
      The same bytes as reading the file itself, whatever the lines held before and whatever
      other threads fetch into them meanwhile. With prefetching, though, the call returns if
      and only if it ends in the first half of a window or the line that it would fetch into
      holds the next window already. That is known beforehand unless other threads use that
      line: `last` is what they fetch into it before this call takes its lock.
     */
    method Pread(user: array<octet>, len: nat, offset: nat, others: seq<seq<Option<nat>>>, last: seq<Option<nat>>)
      returns (out: Outcome)
      requires Valid() && user !in repr && user != aof.appendBuf && len <= user.Length
      modifies repr, user
      ensures Right() && out.n == Available(|aof.file|, len, offset)
      ensures forall k :: 0 <= k < user.Length ==> user[k] == if k < out.n then aof.file[offset + k] else old(user[k])
      ensures var end := offset + out.n;
              out.Returned? <==>
                || offset >= |aof.file| || !prefetch || !NearTheEnd(end)
                || slots[NextLine(end)].offInFile == NextWindow(end)
      ensures var end := offset + out.n;
              last == [] ==>
                (out.Returned? <==>
                   || offset >= |aof.file| || !prefetch || !NearTheEnd(end)
                   || (old(slots[NextLine(end)].offInFile) == NextWindow(end) && Spared(offset, end)))
      ensures out.Returned? ==> Valid()
      ensures out.Stuck? ==> slots[NextLine(offset + out.n)].readers == 1
    {
      hide PfAof.Valid, CacheLine.Right, NextWindow, NextLine, Spared, NearTheEnd;
      aof.LengthKept();
      if offset >= aof.fileLen {
        return Returned(0);
      }
      var n := if offset + len > aof.fileLen then aof.fileLen - offset else len;
      var end := offset + n;
      PreadSlots(user, n, offset, NextWindow(end), others);
      var returned := Prefetch(end, last);
      out := if returned then Returned(n) else Stuck(n);
    }
  }

  /** The first read through a fresh cache that prefetches: one that ends in the second half of a window is stuck. */
  method FirstRead(aof: PfAof, user: array<octet>, len: nat, offset: nat) returns (out: Outcome)
    requires aof.Valid() && user != aof.appendBuf && len <= user.Length
    modifies user
    ensures out.n == Available(|aof.file|, len, offset)
    ensures out.Stuck? <==> offset < |aof.file| && NearTheEnd(offset + out.n)
  {
    hide PfAof.Valid;
    var cache := new AofWindowCache(aof, true);
    out := cache.Pread(user, len, offset, [], []);
  }

  /** The read does not go through the line of the window after it: it reads from fewer than eight windows. */
  predicate Spared(offset: nat, end: nat) {
    end / 65536 < offset / 65536 + 7
  }

  lemma WindowNumbers(x: nat)
    ensures AlignOnSlot(x) == x / 65536 * 65536 && NextWindow(x) == (x / 65536 + 1) * 65536
    ensures NextLine(x) == (x / 65536 + 1) % 8
  {
  }

  /** The window after a read is fetched in advance exactly when the read ends in the second half of a window. */
  lemma NearTheEndIff(end: nat)
    ensures NearTheEnd(end) <==> end % 65536 >= 32768
  {
    WindowNumbers(end);
  }

  /** Which turns of the loop go through the line of the window after the read. */
  lemma LineOf(offset: nat, end: nat, at: nat)
    requires offset <= at < end
    ensures Spared(offset, end) ==> at / 65536 % 8 != NextLine(end)
    ensures AlignOnSlot(at) < NextWindow(end)
    ensures var l, last := LeftInWindow(end - at, at), NextWindow(end) - 8 * 65536;
            !Spared(offset, end) && at / 65536 % 8 != NextLine(end) && at + l > last ==> at > last && at > offset
  {
    WindowNumbers(end);
    WindowNumbers(at);
    Apart(offset / 65536, at / 65536, end / 65536);
    var l := LeftInWindow(end - at, at);
    assert at + l <= (at / 65536 + 1) * 65536;
  }

  lemma LongRead(offset: nat, end: nat)
    requires offset <= end && !Spared(offset, end)
    ensures offset < end && end > NextWindow(end) - 8 * 65536
  {
    WindowNumbers(end);
  }

  lemma Apart(o: nat, a: nat, e: nat)
    requires o <= a <= e
    ensures e < o + 7 ==> a % 8 != (e + 1) % 8
    ensures a % 8 != (e + 1) % 8 ==> a != e - 7
  {
  }

  /**
    Lines are not told about appends. A line that was right stays right whatever `n` bytes
    are appended if and only if none of them falls into its window: nothing is appended, or
    its window was full already, or the file still ends before it.
   */
  lemma LineAfterAppend(off: nat, data: seq<octet>, file: seq<octet>, n: nat)
    requires |data| == SLOT_SIZE && Agrees(off, data, file)
    ensures (forall more: seq<octet> :: |more| == n ==> Agrees(off, data, file + more))
            <==> n == 0 || off + SLOT_SIZE <= |file| || |file| + n <= off
  {
    if n == 0 || off + SLOT_SIZE <= |file| || |file| + n <= off {
      forall more: seq<octet> | |more| == n
        ensures Agrees(off, data, file + more)
      {
        forall k | 0 <= k < |data| && off + k < |file + more|
          ensures data[k] == (file + more)[off + k]
        {
          assert off + k < |file|;
        }
      }
    } else {
      var k := if off >= |file| then 0 else |file| - off;
      var wrong: octet := if data[k] == 0 then 1 else 0;
      var more: seq<octet> := seq(n, _ => wrong);
      assert (file + more)[off + k] == more[off + k - |file|];
      assert !Agrees(off, data, file + more);
    }
  }
}
