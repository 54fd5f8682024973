/**
  The layout of an append-only file on a volume (common/src/pf_aof.cpp): one head block of
  4096 bytes, then the file data, and the rules that volume I/O has to keep.
 */
module AofFormat {
  import opened Machine

  const BLOCK: nat := 4096
  const AOF_MAGIC: u32 := 0x466F4150
  const AOF_VER: u32 := 0x00010000

  function DownAlign(x: nat): (r: nat)
    ensures r <= x < r + 4096 && r % 4096 == 0
  {
    x - x % 4096
  }

  function UpAlign(x: nat): (r: nat)
    ensures x <= r < x + 4096 && r % 4096 == 0
  {
    DownAlign(x + 4095)
  }

  /** The end of the 128 KiB segment that `x` lies in. */
  function SegmentEnd(x: nat): (r: nat)
    ensures x < r <= x + 131072 && r % 131072 == 0
  {
    x + 131072 - (x + 131072) % 131072
  }

  /** Whole blocks, at least one, inside one segment. */
  predicate IoOk(off: nat, len: nat) {
    off % 4096 == 0 && len % 4096 == 0 && 0 < len <= SegmentEnd(off) - off
  }

  /** `n` bytes of `w`, low byte first, and back. */
  function ToBytes(w: nat, n: nat): (r: seq<octet>)
    ensures |r| == n
  {
    if n == 0 then [] else [w % 256] + ToBytes(w / 256, n - 1)
  }

  function FromBytes(s: seq<octet>): nat {
    if s == [] then 0 else s[0] + 256 * FromBytes(s[1..])
  }

  function Power256(n: nat): nat {
    if n == 0 then 1 else 256 * Power256(n - 1)
  }

  lemma {:induction false} BytesRoundTrip(w: nat, n: nat)
    requires w < Power256(n)
    ensures FromBytes(ToBytes(w, n)) == w
  {
    if n > 0 {
      BytesRoundTrip(w / 256, n - 1);
      assert ToBytes(w, n)[1..] == ToBytes(w / 256, n - 1);
    }
  }

  /** PfAofHead: magic and version in the first eight bytes, the length in the next eight. */
  predicate HeadOk(head: seq<octet>)
    requires |head| == BLOCK
  {
    FromBytes(head[0..4]) == AOF_MAGIC && FromBytes(head[4..8]) == AOF_VER
  }

  /** On the volume: "PAoF", then the version, each low byte first. */
  lemma HeadBytes(head: seq<octet>)
    requires |head| == BLOCK
    ensures HeadOk(head) <==> head[..8] == [0x50, 0x41, 0x6f, 0x46, 0, 0, 1, 0]
  {
    FourBytes(head[0..4]);
    FourBytes(head[4..8]);
    hide FromBytes;
    assert head[..8] == head[0..4] + head[4..8];
  }

  lemma FourBytes(b: seq<octet>)
    requires |b| == 4
    ensures FromBytes(b) == b[0] as nat + 0x100 * b[1] as nat + 0x1_0000 * b[2] as nat + 0x100_0000 * b[3] as nat
  {
    assert FromBytes(b[1..]) == b[1] + 256 * FromBytes(b[1..][1..]);
    assert FromBytes(b[2..]) == b[2] + 256 * FromBytes(b[2..][1..]);
    assert b[1..][1..] == b[2..] && b[2..][1..] == [b[3]] && [b[3]][1..] == [];
  }

  function LengthOf(head: seq<octet>): nat
    requires |head| == BLOCK
  {
    FromBytes(head[8..16])
  }

  function WithLength(head: seq<octet>, len: u64): (r: seq<octet>)
    requires |head| == BLOCK
    ensures |r| == BLOCK
  {
    head[..8] + ToBytes(len, 8) + head[16..]
  }

  /** Writing the length leaves the rest of the head alone, and reads back. */
  lemma HeadRoundTrip(head: seq<octet>, len: u64)
    requires |head| == BLOCK
    ensures LengthOf(WithLength(head, len)) == len
    ensures HeadOk(WithLength(head, len)) <==> HeadOk(head)
  {
    var h := WithLength(head, len);
    assert h[8..16] == ToBytes(len, 8) && h[0..4] == head[0..4] && h[4..8] == head[4..8];
    assert Power256(8) == 0x1_0000_0000_0000_0000;
    BytesRoundTrip(len, 8);
  }

  /** A write to the volume, and what it leaves on it. */
  datatype Write = Write(off: nat, bytes: seq<octet>)

  function Apply(v: seq<octet>, w: Write): (v': seq<octet>)
    requires w.off + |w.bytes| <= |v|
    ensures |v'| == |v|
    ensures forall x :: 0 <= x < |v| ==>
              v'[x] == if w.off <= x < w.off + |w.bytes| then w.bytes[x - w.off] else v[x]
  {
    v[..w.off] + w.bytes + v[w.off + |w.bytes|..]
  }

  ghost predicate Fit(v: seq<octet>, ws: seq<Write>) {
    forall w :: w in ws ==> w.off + |w.bytes| <= |v|
  }

  function ApplyAll(v: seq<octet>, ws: seq<Write>): (v': seq<octet>)
    requires Fit(v, ws)
    ensures |v'| == |v|
    decreases |ws|
  {
    if ws == [] then v else assert ws[0] in ws; ApplyAll(Apply(v, ws[0]), ws[1..])
  }

  lemma {:induction false} ApplyOneMore(v: seq<octet>, ws: seq<Write>, w: Write)
    requires Fit(v, ws) && w.off + |w.bytes| <= |v|
    ensures Fit(v, ws + [w]) && ApplyAll(v, ws + [w]) == Apply(ApplyAll(v, ws), w)
    decreases |ws|
  {
    if ws == [] {
      assert [] + [w] == [w];
      assert ApplyAll(Apply(v, w), [w][1..]) == Apply(v, w);
    } else {
      assert ws[0] in ws;
      ApplyOneMore(Apply(v, ws[0]), ws[1..], w);
      assert (ws + [w])[1..] == ws[1..] + [w];
    }
  }

  /** The bytes `lo` to `hi` of the file are on the volume, after the head block. */
  ghost predicate Holds(v: seq<octet>, file: seq<octet>, lo: nat, hi: nat) {
    hi <= |file| && BLOCK + hi <= |v| && forall x :: lo <= x < hi ==> v[BLOCK + x] == file[x]
  }

  /** What opening the volume would find: a good head, its length, and that much content. */
  ghost predicate Durable(v: seq<octet>, content: seq<octet>) {
    && |v| >= BLOCK && HeadOk(v[..BLOCK]) && LengthOf(v[..BLOCK]) == |content|
    && Holds(v, content, 0, |content|)
  }
}
