/**
  The bit array of S5bd/src/bitarray.c, which marks the LBAs of a 4 MiB block that running
  requests cover. Bits are set and cleared a byte at a time, with masks.
 */
module BitArray {

  /** Bit `k` of a byte. */
  predicate Bit(b: bv8, k: nat)
    requires k < 8
  {
    b & Unit(k) != 0
  }

  function Unit(k: nat): bv8
    requires k < 8
  {
    if k == 0 then 1 else if k == 1 then 2 else if k == 2 then 4 else if k == 3 then 8
    else if k == 4 then 16 else if k == 5 then 32 else if k == 6 then 64 else 128
  }

  /** `n` low ones, and the same moved up `off` places. */
  function Ones(n: nat): bv8
    requires n <= 8
  {
    if n == 0 then 0 else if n == 1 then 1 else if n == 2 then 3 else if n == 3 then 7 else if n == 4 then 15
    else if n == 5 then 31 else if n == 6 then 63 else if n == 7 then 127 else 255
  }

  function Moved(b: bv8, off: nat): bv8
    requires off < 8
  {
    if off == 0 then b else if off == 1 then b << 1 else if off == 2 then b << 2 else if off == 3 then b << 3
    else if off == 4 then b << 4 else if off == 5 then b << 5 else if off == 6 then b << 6 else b << 7
  }

  /** The mask expression of the source: a 32-bit value cut down to a byte. */
  function Mask(off: nat, n: nat): bv8
    requires off < 8 && n <= 8
  {
    (((((1 as bv32) << n) - 1) << off) & 0xff) as bv8
  }

  lemma MaskIs(off: nat, n: nat)
    requires off < 8 && n <= 8
    ensures Mask(off, n) == Moved(Ones(n), off)
  {
    if n == 0 { } else if n == 1 { } else if n == 2 { } else if n == 3 { } else if n == 4 { }
    else if n == 5 { } else if n == 6 { } else if n == 7 { } else { }
  }

  lemma MaskBits(off: nat, n: nat, k: nat)
    requires off + n <= 8 && off < 8 && k < 8
    ensures Bit(Moved(Ones(n), off), k) <==> off <= k < off + n
  {
  }

  /** Bit by bit, what or-ing, clearing and testing with a mask do to a byte. */
  lemma MaskedByte(b: bv8, m: bv8, off: nat, n: nat, k: nat)
    requires off + n <= 8 && off < 8 && k < 8 && m == Mask(off, n)
    ensures Bit(b | m, k) <==> Bit(b, k) || off <= k < off + n
    ensures Bit(b & !m, k) <==> Bit(b, k) && !(off <= k < off + n)
    ensures off <= k < off + n && Bit(b, k) ==> b & m != 0
  {
    hide *;
    MaskBit(m, off, n, k);
    OrBit(b, m, k);
    AndBit(b, m, k);
    AndBit(b, !m, k);
    NotBit(m, k);
  }

  lemma MaskBit(m: bv8, off: nat, n: nat, k: nat)
    requires off + n <= 8 && off < 8 && k < 8 && m == Mask(off, n)
    ensures Bit(m, k) <==> off <= k < off + n
  {
    hide *;
    MaskIs(off, n);
    MaskBits(off, n, k);
  }

  lemma OrBit(b: bv8, m: bv8, k: nat)
    requires k < 8
    ensures Bit(b | m, k) <==> Bit(b, k) || Bit(m, k)
  {
  }

  lemma AndBit(b: bv8, m: bv8, k: nat)
    requires k < 8
    ensures Bit(b & m, k) <==> Bit(b, k) && Bit(m, k)
    ensures Bit(b & m, k) ==> b & m != 0
  {
  }

  lemma NotBit(m: bv8, k: nat)
    requires k < 8
    ensures Bit(!m, k) <==> !Bit(m, k)
  {
  }

  lemma SomeBit(b: bv8) returns (k: nat)
    requires b != 0
    ensures k < 8 && Bit(b, k)
  {
    k := if b & 1 != 0 then 0 else if b & 2 != 0 then 1 else if b & 4 != 0 then 2 else if b & 8 != 0 then 3
         else if b & 16 != 0 then 4 else if b & 32 != 0 then 5 else if b & 64 != 0 then 6 else 7;
  }

  /** A byte that meets the mask has a bit set inside it. */
  lemma MaskHit(b: bv8, off: nat, n: nat) returns (k: nat)
    requires off + n <= 8 && off < 8 && b & Mask(off, n) != 0
    ensures off <= k < off + n && k < 8 && Bit(b, k)
  {
    hide Bit, Mask, Moved, Ones;
    k := SomeBit(b & Mask(off, n));
    AndBit(b, Mask(off, n), k);
    MaskIs(off, n);
    MaskBits(off, n, k);
  }

  class Bits {
    const arr: array<bv8>
    const len: nat

    ghost predicate Valid()
      reads this
    {
      arr.Length == len / 8 + if len % 8 != 0 then 1 else 0
    }

    predicate At(i: nat)
      requires i < 8 * arr.Length
      reads arr
    {
      Bit(arr[i / 8], i % 8)
    }

    constructor (length: nat)
      ensures Valid() && fresh(arr) && len == length
      ensures forall i :: 0 <= i < len ==> !At(i)
    {
      len := length;
      arr := new bv8[length / 8 + if length % 8 != 0 then 1 else 0](_ => 0);
    }

    /** Is any of the masked bits of one byte set? */
    method TestByte(offset: nat, slotOff: nat, slotLen: nat) returns (hit: bool)
      requires slotOff == offset % 8 && slotOff + slotLen <= 8 && offset < 8 * arr.Length
      ensures hit ==> exists i :: offset <= i < offset + slotLen && At(i)
      ensures !hit ==> forall i :: offset <= i < offset + slotLen ==> !At(i)
    {
      hide Bit, Mask;
      var b, m := arr[offset / 8], Mask(slotOff, slotLen);
      hit := b & m != 0;
      if hit {
        ghost var k := MaskHit(b, slotOff, slotLen);
        assert At(offset - slotOff + k);
      } else {
        forall i | offset <= i < offset + slotLen
          ensures !At(i)
        {
          MaskedByte(b, m, slotOff, slotLen, i % 8);
        }
      }
    }

    /** The first loop of bitarray_set: is any bit of the interval set? */
    method Collides(off: nat, n: nat) returns (collision: bool)
      requires Valid() && n > 0 && off + n <= len
      ensures collision ==> exists i :: off <= i < off + n && At(i)
      ensures !collision ==> forall i :: off <= i < off + n ==> !At(i)
    {
      hide At;
      var length, offset := n, off;
      while length > 0
        invariant 0 <= length <= n
        invariant length > 0 ==> offset == off + n - length
        invariant forall i :: off <= i < off + n - length ==> !At(i)
      {
        var slotOff := offset % 8;
        var slotLen := 8 - slotOff;
        if slotLen > length {
          slotLen := length;
        }
        var hit := TestByte(offset, slotOff, slotLen);
        if hit {
          return true;
        }
        length := length - slotLen;
        offset := offset + (8 - slotOff);
      }
      return false;
    }

    /** All or nothing: the interval is taken if it was free, and no bit outside it changes either way. */
    method Set(off: nat, n: nat) returns (ok: bool)
      requires Valid() && n > 0 && off + n <= len
      modifies arr
      ensures ok <==> forall i :: off <= i < off + n ==> !old(At(i))
      ensures forall i :: 0 <= i < 8 * arr.Length ==> (At(i) <==> old(At(i)) || (ok && off <= i < off + n))
    {
      hide At;
      var collision := Collides(off, n);
      if collision {
        return false;
      }
      var length, offset := n, off;
      while length > 0
        invariant 0 <= length <= n
        invariant length > 0 ==> offset == off + n - length
        invariant forall i :: 0 <= i < 8 * arr.Length ==> (At(i) <==> old(At(i)) || off <= i < off + n - length)
      {
        var slotOff := offset % 8;
        var slotLen := 8 - slotOff;
        if slotLen > length {
          slotLen := length;
        }
        OrByte(offset, slotOff, slotLen);
        length := length - slotLen;
        offset := offset + (8 - slotOff);
      }
      return true;
    }

    /** Sets the masked bits of one byte. */
    method OrByte(offset: nat, slotOff: nat, slotLen: nat)
      requires slotOff == offset % 8 && slotOff + slotLen <= 8 && offset < 8 * arr.Length
      modifies arr
      ensures forall i :: 0 <= i < 8 * arr.Length ==> (At(i) <==> old(At(i)) || offset <= i < offset + slotLen)
    {
      hide Bit, Mask;
      arr[offset / 8] := arr[offset / 8] | Mask(slotOff, slotLen);
      forall i | 0 <= i < 8 * arr.Length
        ensures At(i) <==> old(At(i)) || offset <= i < offset + slotLen
      {
        if i / 8 == offset / 8 {
          MaskedByte(old(arr[offset / 8]), Mask(slotOff, slotLen), slotOff, slotLen, i % 8);
        }
      }
    }

    /** Clears the masked bits of one byte. */
    method ClearByte(offset: nat, slotOff: nat, slotLen: nat)
      requires slotOff == offset % 8 && slotOff + slotLen <= 8 && offset < 8 * arr.Length
      modifies arr
      ensures forall i :: 0 <= i < 8 * arr.Length ==> (At(i) <==> old(At(i)) && !(offset <= i < offset + slotLen))
    {
      hide Bit, Mask;
      arr[offset / 8] := arr[offset / 8] & !Mask(slotOff, slotLen);
      forall i | 0 <= i < 8 * arr.Length
        ensures At(i) <==> old(At(i)) && !(offset <= i < offset + slotLen)
      {
        if i / 8 == offset / 8 {
          MaskedByte(old(arr[offset / 8]), Mask(slotOff, slotLen), slotOff, slotLen, i % 8);
        }
      }
    }

    /** Clears the interval and nothing else. */
    method Reset(off: nat, n: nat)
      requires Valid() && n > 0 && off + n <= len
      modifies arr
      ensures forall i :: 0 <= i < 8 * arr.Length ==> (At(i) <==> old(At(i)) && !(off <= i < off + n))
    {
      hide At;
      var length, offset := n, off;
      while length > 0
        invariant 0 <= length <= n
        invariant length > 0 ==> offset == off + n - length
        invariant forall i :: 0 <= i < 8 * arr.Length ==> (At(i) <==> old(At(i)) && !(off <= i < off + n - length))
      {
        var slotOff := offset % 8;
        var slotLen := 8 - slotOff;
        if slotLen > length {
          slotLen := length;
        }
        ClearByte(offset, slotOff, slotLen);
        length := length - slotLen;
        offset := offset + (8 - slotOff);
      }
    }
  }
}
