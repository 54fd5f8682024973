/** Machine integers, as ranges, and what several modules share. */
module Machine {
  type octet = x: int | 0 <= x < 0x100
  type u16 = x: int | 0 <= x < 0x1_0000
  type u32 = x: int | 0 <= x < 0x1_0000_0000
  type u64 = x: int | 0 <= x < 0x1_0000_0000_0000_0000

  /** Error returns. */
  const EINVAL: int := -22
  const EAGAIN: int := -11

  /** How many requests of one append-only file are under way at most. */
  const AOF_IODEPTH: nat := 100

  datatype Option<T> = None | Some(value: T)

  function Min(a: nat, b: nat): nat { if a < b then a else b }

  /** memcpy and memset into a buffer. */
  method CopyTo(dst: array<octet>, off: nat, src: seq<octet>)
    requires off + |src| <= dst.Length
    modifies dst
    ensures forall k :: 0 <= k < dst.Length ==>
              dst[k] == if off <= k < off + |src| then src[k - off] else old(dst[k])
  {
    forall k | 0 <= k < |src| {
      dst[off + k] := src[k];
    }
  }

  ghost predicate Distinct<T>(s: seq<T>) {
    forall i, j :: 0 <= i < j < |s| ==> s[i] != s[j]
  }
}
