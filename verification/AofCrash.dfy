/**
  What PfAof::sync writes, and what a crash in the middle of it leaves behind. Data goes
  out first, in writes that may finish in any order; the head block follows when all of
  them have finished.
 */
module AofCrash {
  import opened Machine
  import opened AofFormat

  function Padded(s: seq<octet>): (r: seq<octet>)
    ensures |r| == UpAlign(|s|) && s == r[..|s|]
  {
    s + seq(UpAlign(|s|) - |s|, _ => 0)
  }

  /** The data writes of sync: `data` cut at segment ends, the last piece filled up with zeros. */
  function Plan(data: seq<octet>, off: nat): (ws: seq<Write>)
    decreases |data|
  {
    if data == [] then []
    else
      var n := if |data| <= SegmentEnd(off) - off then |data| else SegmentEnd(off) - off;
      [Write(off, Padded(data[..n]))] + Plan(data[n..], off + n)
  }

  /** A write inside the planned range that agrees with the data wherever it overlaps it, and is zero elsewhere. */
  ghost predicate Carries(w: Write, data: seq<octet>, off: nat) {
    && IoOk(w.off, |w.bytes|) && off <= w.off && w.off + |w.bytes| <= off + UpAlign(|data|)
    && forall k :: 0 <= k < |w.bytes| ==>
         w.bytes[k] == if w.off + k < off + |data| then data[w.off + k - off] else 0
  }

  /** Every planned write is whole blocks inside one segment and carries the data of its place. */
  lemma {:induction false} PlanCarries(data: seq<octet>, off: nat, w: Write)
    requires off % 4096 == 0 && w in Plan(data, off)
    ensures Carries(w, data, off)
    decreases |data|
  {
    hide IoOk, UpAlign, Padded, Carries;
    var n := if |data| <= SegmentEnd(off) - off then |data| else SegmentEnd(off) - off;
    if w == Write(off, Padded(data[..n])) {
      FirstWriteOk(data, off, n);
    } else {
      assert w in Plan(data[n..], off + n);
      NothingPlanned(off + n);
      AlignedTail(|data|, off, n);
      PlanCarries(data[n..], off + n, w);
      CarriesMore(w, data, off, n);
    }
  }

  lemma CarriesMore(w: Write, data: seq<octet>, off: nat, n: nat)
    requires n <= |data| && Carries(w, data[n..], off + n) && n + UpAlign(|data| - n) == UpAlign(|data|)
    ensures Carries(w, data, off)
  {
    hide IoOk, UpAlign;
  }

  lemma NothingPlanned(off: nat)
    ensures Plan([], off) == []
  {
  }

  lemma FirstWriteOk(data: seq<octet>, off: nat, n: nat)
    requires off % 4096 == 0 && 0 < n <= |data|
    requires n == if |data| <= SegmentEnd(off) - off then |data| else SegmentEnd(off) - off
    ensures Carries(Write(off, Padded(data[..n])), data, off)
  {
    SegmentAligned(off);
    UpAlignMonotone(n, |data|);
    UpAlignMonotone(n, SegmentEnd(off) - off);
    var bytes := Padded(data[..n]);
    assert forall k :: 0 <= k < n ==> bytes[k] == bytes[..n][k];
  }

  lemma SegmentAligned(off: nat)
    requires off % 4096 == 0
    ensures (SegmentEnd(off) - off) % 4096 == 0
  {
    var a, b := SegmentEnd(off) / 131072, off / 4096;
    assert SegmentEnd(off) - off == 4096 * (32 * a - b);
  }

  lemma UpAlignMonotone(a: nat, b: nat)
    requires a <= b
    ensures UpAlign(a) <= UpAlign(b) && (b % 4096 == 0 ==> UpAlign(b) == b)
  {
  }

  lemma UpAlignUnique(x: nat, r: nat)
    requires x <= r < x + 4096 && r % 4096 == 0
    ensures r == UpAlign(x)
  {
    var a, b := r / 4096, UpAlign(x) / 4096;
    assert r == 4096 * a && UpAlign(x) == 4096 * b;
  }

  lemma AlignedSum(x: nat, y: nat)
    requires x % 4096 == 0 && y % 4096 == 0
    ensures (x + y) % 4096 == 0
  {
  }

  lemma AlignedTail(len: nat, off: nat, n: nat)
    requires off % 4096 == 0 && n == SegmentEnd(off) - off && n < len
    ensures (off + n) % 4096 == 0 && n + UpAlign(len - n) == UpAlign(len)
  {
    hide UpAlign, SegmentEnd;
    SegmentAligned(off);
    AlignedSum(off, n);
    AlignedSum(n, UpAlign(len - n));
    UpAlignUnique(len, n + UpAlign(len - n));
  }

  /** Every data byte is in some planned write. */
  lemma {:induction false} PlanCovers(data: seq<octet>, off: nat, x: nat) returns (w: Write)
    requires off <= x < off + |data|
    ensures w in Plan(data, off) && w.off <= x < w.off + |w.bytes|
    decreases |data|
  {
    hide UpAlign, Padded;
    var n := if |data| <= SegmentEnd(off) - off then |data| else SegmentEnd(off) - off;
    var first, rest := Write(off, Padded(data[..n])), Plan(data[n..], off + n);
    assert Plan(data, off) == [first] + rest;
    if x < off + n {
      w := first;
    } else {
      w := PlanCovers(data[n..], off + n, x);
    }
  }

  /**
    The volume under an open file: everything below the append buffer is on it, the head
    describes the content of the last sync, and the append buffer begins no later than
    that content ends.
   */
  ghost predicate Image(v: seq<octet>, file: seq<octet>, base: nat, synced: nat) {
    && base % 4096 == 0 && base <= synced <= |file| && |file| < 0x8000_0000_0000_0000
    && |v| % 4096 == 0 && BLOCK + UpAlign(|file|) <= |v|
    && Durable(v, file[..synced])
  }

  /** Each byte of `v'` is the byte of `v` or one that a planned write puts there. */
  ghost predicate PartlyWritten(v: seq<octet>, v': seq<octet>, ws: seq<Write>) {
    && |v'| == |v|
    && forall x :: 0 <= x < |v| ==> v'[x] == v[x] || WrittenBy(ws, x, v'[x])
  }

  ghost predicate WrittenBy(ws: seq<Write>, x: nat, b: octet) {
    exists w :: w in ws && w.off <= x < w.off + |w.bytes| && w.bytes[x - w.off] == b
  }

  /**
    Crash before the head write: however much of each data write has reached the volume,
    opening it finds exactly the content of the last completed sync.
   */
  lemma CrashBeforeHead(v: seq<octet>, file: seq<octet>, base: nat, synced: nat, v': seq<octet>)
    requires Image(v, file, base, synced)
    requires PartlyWritten(v, v', Plan(file[base..], BLOCK + base))
    ensures Durable(v', file[..synced])
  {
    hide Plan, IoOk, UpAlign, HeadOk, LengthOf;
    var data, off := file[base..], BLOCK + base;
    forall x | 0 <= x < BLOCK + synced
      ensures v'[x] == v[x]
    {
      if WrittenBy(Plan(data, off), x, v'[x]) {
        var w :| w in Plan(data, off) && w.off <= x < w.off + |w.bytes| && w.bytes[x - w.off] == v'[x];
        PlanCarries(data, off, w);
        assert v'[x] == data[x - off] == file[x - BLOCK];
        assert file[..synced][x - BLOCK] == file[x - BLOCK];
      }
    }
    assert v'[..BLOCK] == v[..BLOCK];
  }

  /** Writes that only carry the file's data keep what is already right, and make their own bytes right. */
  lemma {:induction false} ApplyKeeps(v: seq<octet>, ws: seq<Write>, file: seq<octet>, base: nat, x: nat)
    requires base % 4096 == 0 && base <= |file| && BLOCK + UpAlign(|file|) <= |v|
    requires forall w :: w in ws ==> w in Plan(file[base..], BLOCK + base)
    requires x < |file|
    ensures Fit(v, ws)
    ensures v[BLOCK + x] == file[x] || (exists w :: w in ws && w.off <= BLOCK + x < w.off + |w.bytes|)
            ==> ApplyAll(v, ws)[BLOCK + x] == file[x]
    decreases |ws|
  {
    hide Plan, UpAlign, IoOk;
    PlanFits(v, ws, file, base);
    if ws != [] {
      var w := ws[0];
      assert w in ws;
      PlanCarries(file[base..], BLOCK + base, w);
      var v1 := Apply(v, w);
      assert ws == [w] + ws[1..];
      assert forall u :: u in ws[1..] ==> u in ws;
      ApplyKeeps(v1, ws[1..], file, base, x);
    }
  }

  lemma PlanFits(v: seq<octet>, ws: seq<Write>, file: seq<octet>, base: nat)
    requires base % 4096 == 0 && base <= |file| && BLOCK + UpAlign(|file|) <= |v|
    requires forall w :: w in ws ==> w in Plan(file[base..], BLOCK + base)
    ensures Fit(v, ws)
    ensures forall w :: w in ws ==> w.off >= BLOCK
  {
    hide Plan, UpAlign, IoOk;
    AlignedRest(|file|, base);
    forall w | w in ws
      ensures w.off + |w.bytes| <= |v| && w.off >= BLOCK
    {
      PlanCarries(file[base..], BLOCK + base, w);
    }
  }

  lemma AlignedRest(len: nat, base: nat)
    requires base % 4096 == 0 && base <= len
    ensures base + UpAlign(len - base) == UpAlign(len)
  {
    hide UpAlign;
    AlignedSum(base, UpAlign(len - base));
    UpAlignUnique(len, base + UpAlign(len - base));
  }

  lemma {:induction false} HeadUntouched(v: seq<octet>, ws: seq<Write>)
    requires Fit(v, ws) && |v| >= BLOCK && forall w :: w in ws ==> w.off >= BLOCK
    ensures ApplyAll(v, ws)[..BLOCK] == v[..BLOCK]
    decreases |ws|
  {
    if ws != [] {
      assert ws[0] in ws;
      HeadUntouched(Apply(v, ws[0]), ws[1..]);
      assert Apply(v, ws[0])[..BLOCK] == v[..BLOCK];
    }
  }

  /**
    Sync to the end: once all data writes are done, in whatever order, and the head is
    written after them, opening the volume finds the whole file.
   */
  lemma SyncIsComplete(v: seq<octet>, file: seq<octet>, base: nat, synced: nat, ws: seq<Write>)
    requires Image(v, file, base, synced)
    requires multiset(ws) == multiset(Plan(file[base..], BLOCK + base))
    ensures Fit(v, ws)
    ensures var head := WithLength(v[..BLOCK], |file|);
            Durable(Apply(ApplyAll(v, ws), Write(0, head)), file)
  {
    hide Plan, UpAlign, HeadOk, LengthOf, WithLength, ApplyAll;
    var plan := Plan(file[base..], BLOCK + base);
    assert forall w :: w in ws <==> w in multiset(ws);
    assert forall w :: w in plan <==> w in multiset(plan);
    PlanFits(v, ws, file, base);
    var v1 := ApplyAll(v, ws);
    HeadUntouched(v, ws);
    var head := WithLength(v[..BLOCK], |file|);
    HeadRoundTrip(v[..BLOCK], |file|);
    forall x | 0 <= x < |file|
      ensures v1[BLOCK + x] == file[x]
    {
      if x >= base {
        var w := PlanCovers(file[base..], BLOCK + base, BLOCK + x);
        assert w in ws;
      } else {
        assert v[BLOCK + x] == file[..synced][x];
      }
      ApplyKeeps(v, ws, file, base, x);
    }
    var v2 := Apply(v1, Write(0, head));
    assert v2[..BLOCK] == head;
  }

  /** The same for whole writes: after any of them, in any order, the last synced content is still there. */
  lemma CrashAfterSomeWrites(v: seq<octet>, file: seq<octet>, base: nat, synced: nat, ws: seq<Write>)
    requires Image(v, file, base, synced)
    requires forall w :: w in ws ==> w in Plan(file[base..], BLOCK + base)
    ensures Fit(v, ws) && Durable(ApplyAll(v, ws), file[..synced])
  {
    hide Plan, UpAlign, Durable, ApplyAll;
    PlanFits(v, ws, file, base);
    WritesArePartial(v, ws, Plan(file[base..], BLOCK + base), v);
    CrashBeforeHead(v, file, base, synced, ApplyAll(v, ws));
  }

  lemma {:induction false} WritesArePartial(v0: seq<octet>, ws: seq<Write>, plan: seq<Write>, v: seq<octet>)
    requires Fit(v, ws) && PartlyWritten(v0, v, plan) && forall w :: w in ws ==> w in plan
    ensures PartlyWritten(v0, ApplyAll(v, ws), plan)
    decreases |ws|
  {
    if ws != [] {
      var w := ws[0];
      assert w in ws;
      var v1 := Apply(v, w);
      forall x | 0 <= x < |v0|
        ensures v1[x] == v0[x] || WrittenBy(plan, x, v1[x])
      {
        if w.off <= x < w.off + |w.bytes| {
          assert w in plan && w.bytes[x - w.off] == v1[x];
        }
      }
      assert forall u :: u in ws[1..] ==> u in ws;
      WritesArePartial(v0, ws[1..], plan, v1);
    }
  }
}
