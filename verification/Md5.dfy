/**
  The streaming side of common/src/pf_md5.c: how a message cut into update calls is
  buffered into 64-byte blocks, counted and padded (sections 3.1 and 3.2 of RFC 1321).
  The compression function MD5Transform is a parameter.
 */
module Md5 {
  import opened Machine

  function Mod32(x: nat): u32 { x % 0x1_0000_0000 }

  function Mod64(x: nat): (r: nat)
    ensures r < 0x1_0000_0000_0000_0000
  {
    x % 0x1_0000_0000_0000_0000
  }

  /** The number whose low and high words are `lo` and `hi`. */
  function Wide(lo: u32, hi: u32): (r: nat)
    ensures r < 0x1_0000_0000_0000_0000
  {
    lo + 0x1_0000_0000 * hi
  }

  datatype Words = Words(a: u32, b: u32, c: u32, d: u32)

  type Transform = (Words, seq<octet>) -> Words

  const INITIAL: Words := Words(0x67452301, 0xEFCDAB89, 0x98BADCFE, 0x10325476)

  /** The meaning of a context: chaining words, octets waiting for a full block, and bits so far modulo 2^64. */
  datatype Context = Context(state: Words, pending: seq<octet>, bits: nat)

  const FRESH: Context := Context(INITIAL, [], 0)

  /** Compresses the whole blocks of `data`, first to last. */
  function Absorb(t: Transform, s: Words, data: seq<octet>): Words
    decreases |data|
  {
    if |data| < 64 then s else Absorb(t, t(s, data[..64]), data[64..])
  }

  /** The octets after the last whole block. */
  function Rest(data: seq<octet>): (r: seq<octet>)
    ensures |r| == |data| % 64
  {
    data[|data| - |data| % 64..]
  }

  function Updated(t: Transform, c: Context, input: seq<octet>): (c': Context)
    ensures |c'.pending| < 64
  {
    var all := c.pending + input;
    Context(Absorb(t, c.state, all), Rest(all), Mod64(c.bits + 8 * |input|))
  }

  function UpdatedAll(t: Transform, c: Context, chunks: seq<seq<octet>>): Context
    decreases |chunks|
  {
    if chunks == [] then c else UpdatedAll(t, Updated(t, c, chunks[0]), chunks[1..])
  }

  function Concat(chunks: seq<seq<octet>>): seq<octet> {
    if chunks == [] then [] else chunks[0] + Concat(chunks[1..])
  }

  lemma {:induction false} AbsorbSplit(t: Transform, s: Words, data: seq<octet>, n: nat)
    requires n <= |data| && n % 64 == 0
    ensures Absorb(t, s, data) == Absorb(t, Absorb(t, s, data[..n]), data[n..])
    decreases n
  {
    if n > 0 {
      var s' := t(s, data[..64]);
      AbsorbSplit(t, s', data[64..], n - 64);
      assert data[..n][..64] == data[..64];
      assert data[..n][64..] == data[64..][..n - 64];
      assert data[64..][n - 64..] == data[n..];
    } else {
      assert data[0..] == data;
    }
  }

  /** What is left pending is never compressed before more input arrives. */
  lemma AbsorbRest(t: Transform, s: Words, data: seq<octet>, more: seq<octet>)
    ensures Absorb(t, s, data + more) == Absorb(t, Absorb(t, s, data), Rest(data) + more)
  {
    hide Absorb;
    var n := |data| - |data| % 64;
    WholeBlocks(|data|);
    AbsorbSplit(t, s, data + more, n);
    AbsorbSplit(t, s, data, n);
    AbsorbNothing(t, Absorb(t, s, data[..n]), data[n..]);
    assert (data + more)[..n] == data[..n];
    assert (data + more)[n..] == data[n..] + more;
  }

  lemma WholeBlocks(n: nat)
    ensures (n - n % 64) % 64 == 0
  {
  }

  lemma RestOfRest(data: seq<octet>, more: seq<octet>)
    ensures Rest(data + more) == Rest(Rest(data) + more)
  {
    var n := |data| - |data| % 64;
    var tail := Rest(data) + more;
    assert (data + more)[n..] == tail;
    assert |data + more| == n + |tail| && |tail| % 64 == |data + more| % 64;
  }

  lemma AbsorbNothing(t: Transform, s: Words, data: seq<octet>)
    requires |data| < 64
    ensures Absorb(t, s, data) == s && Rest(data) == data
  {
  }

  /** Two updates in a row are one update with both inputs. */
  lemma UpdateTwice(t: Transform, c: Context, x: seq<octet>, y: seq<octet>)
    ensures Updated(t, Updated(t, c, x), y) == Updated(t, c, x + y)
  {
    AbsorbRest(t, c.state, c.pending + x, y);
    RestOfRest(c.pending + x, y);
    assert c.pending + x + y == c.pending + (x + y);
    ModAdd(c.bits + 8 * |x|, 8 * |y|);
  }

  lemma ModAdd(a: nat, b: nat)
    ensures Mod64(Mod64(a) + b) == Mod64(a + b)
  {
  }

  /** Streaming: however the input is cut into update calls, the context ends up the same. */
  lemma {:induction false} Streaming(t: Transform, c: Context, chunks: seq<seq<octet>>)
    requires |c.pending| < 64 && c.bits < 0x1_0000_0000_0000_0000
    ensures UpdatedAll(t, c, chunks) == Updated(t, c, Concat(chunks))
    decreases |chunks|
  {
    if chunks == [] {
      assert c.pending + [] == c.pending;
    } else {
      Streaming(t, Updated(t, c, chunks[0]), chunks[1..]);
      UpdateTwice(t, c, chunks[0], Concat(chunks[1..]));
    }
  }

  /** The zero octets of section 3.1 of RFC 1321: up to 56 modulo 64 after the marker octet. */
  function PadZeros(n: nat): (k: nat)
    ensures k < 64 && (n + 1 + k) % 64 == 56
  {
    if n % 64 < 56 then 55 - n % 64 else 119 - n % 64
  }

  /** A word as four octets, low octet first. */
  function Word(w: u32): (r: seq<octet>)
    ensures |r| == 4
  {
    [w % 256, w / 256 % 256, w / 0x1_0000 % 256, w / 0x100_0000]
  }

  /** Four octets as a number, low octet first. */
  function LittleEndian(b: seq<octet>, at: nat): nat
    requires at + 4 <= |b|
  {
    b[at] as nat + 0x100 * b[at + 1] as nat + 0x1_0000 * b[at + 2] as nat + 0x100_0000 * b[at + 3] as nat
  }

  function Octets(words: seq<u32>): (r: seq<octet>)
    ensures |r| == 4 * |words|
  {
    if words == [] then [] else Word(words[0]) + Octets(words[1..])
  }

  /** Read low octet first, the octets of a word are its value again. */
  lemma {:induction false} OctetsRead(words: seq<u32>, i: nat)
    requires i < |words|
    ensures LittleEndian(Octets(words), 4 * i) == words[i]
  {
    var w, rest := words[0], Octets(words[1..]);
    assert Octets(words) == Word(w) + rest;
    if i == 0 {
      WordRead(w);
    } else {
      OctetsRead(words[1..], i - 1);
      assert forall k :: 0 <= k < |rest| ==> Octets(words)[4 + k] == rest[k];
    }
  }

  lemma WordRead(w: u32)
    ensures LittleEndian(Word(w), 0) == w
  {
    assert w / 256 / 256 == w / 0x1_0000 && w / 256 / 256 / 256 == w / 0x100_0000;
  }

  function WordOctets(w: Words): seq<octet> {
    Octets([w.a, w.b, w.c, w.d])
  }

  /** The length field of section 3.2 of RFC 1321: the 64-bit count as two words, low-order word first. */
  function LengthField(bits: nat): (r: seq<octet>)
    requires bits < 0x1_0000_0000_0000_0000
    ensures |r| == 8
  {
    Octets([Mod32(bits), bits / 0x1_0000_0000])
  }

  /** The eight octets of the length field, low octet first, are the count. */
  lemma LengthRead(bits: nat)
    requires bits < 0x1_0000_0000_0000_0000
    ensures var r := LengthField(bits);
            bits == r[0] as nat + 0x100 * r[1] as nat + 0x1_0000 * r[2] as nat + 0x100_0000 * r[3] as nat
                    + 0x1_0000_0000 * r[4] as nat + 0x100_0000_0000 * r[5] as nat
                    + 0x1_0000_0000_0000 * r[6] as nat + 0x100_0000_0000_0000 * r[7] as nat
  {
    hide Octets;
    var words := [Mod32(bits), bits / 0x1_0000_0000];
    OctetsRead(words, 0);
    OctetsRead(words, 1);
  }

  /** What sections 3.1 and 3.2 of RFC 1321 append to a message of `n` octets. */
  function Padding(n: nat): (p: seq<octet>)
    ensures |p| == 1 + PadZeros(n) + 8
  {
    Marker(1 + PadZeros(n)) + LengthField(Mod64(8 * n))
  }

  /** The marker octet and the zeros after it: the first `k` octets of the array PADDING. */
  function Marker(k: nat): (p: seq<octet>)
    requires k >= 1
    ensures |p| == k
  {
    [0x80] + seq(k - 1, _ => 0)
  }

  /** One octet 0x80, zeros, and the length of the message in bits modulo 2^64, low octet first. */
  lemma PaddingRead(n: nat)
    ensures var p := Padding(n);
            && p[0] == 0x80 && (forall k :: 1 <= k < |p| - 8 ==> p[k] == 0)
            && LittleEndian(p, |p| - 8) + 0x1_0000_0000 * LittleEndian(p, |p| - 4) == 8 * n % 0x1_0000_0000_0000_0000
  {
    hide Octets, LengthField, PadZeros;
    var p, m, r := Padding(n), Marker(1 + PadZeros(n)), LengthField(Mod64(8 * n));
    assert p == m + r;
    LengthRead(Mod64(8 * n));
    assert forall k :: 0 <= k < 8 ==> p[|p| - 8 + k] == r[k];
  }

  /** A padded message is a whole number of blocks, and no shorter padding would do. */
  lemma PaddedWhole(n: nat, p: nat)
    requires (n + p) % 64 == 0 && p >= 9
    ensures (n + |Padding(n)|) % 64 == 0 && |Padding(n)| <= p
  {
    hide Padding;
    var k := PadZeros(n);
    assert n + 1 + k + 8 == 64 * ((n + 1 + k) / 64) + 64;
  }

  /** The digest words of a whole message. */
  function Digest(t: Transform, msg: seq<octet>): Words {
    Absorb(t, INITIAL, msg + Padding(|msg|))
  }

  /** The C expression `i + 64 <= inputlen` on 32-bit unsigned integers. */
  predicate LoopGuard(i: u32, inputlen: u32) {
    Mod32(i + 64) <= inputlen
  }

  /** Where the block loop has to stop: no whole block of the input is left. */
  function LoopEnd(index: nat, inputlen: u32): (e: nat)
    requires index < 64 && 64 - index <= inputlen
    ensures 64 - index <= e <= inputlen < e + 64 && (index + e) % 64 == 0
  {
    inputlen - (index + inputlen) % 64
  }

  /**
    The block loop stops at the end of the input exactly when that end is more than 64
    below 2^32; otherwise `i + 64` wraps around and the loop goes on past the input.
   */
  lemma LoopStopsIff(index: nat, inputlen: u32)
    requires index < 64 && 64 - index <= inputlen
    ensures !LoopGuard(LoopEnd(index, inputlen), inputlen) <==> LoopEnd(index, inputlen) < 0xFFFF_FFC0
    ensures forall i: u32 :: i + 64 <= inputlen ==> LoopGuard(i, inputlen)
  {
  }

  /** One such input: an empty context and 2^32 - 1 octets. */
  lemma LoopOverruns()
    ensures LoopEnd(0, 0xFFFF_FFFF) == 0xFFFF_FFC0 && LoopGuard(0xFFFF_FFC0, 0xFFFF_FFFF)
  {
  }

  /** What a caller has to check so that the block loop stops where the input does. */
  predicate InputLengthOk(index: nat, inputlen: nat)
    requires index < 64
  {
    inputlen < 0x1_0000_0000 && (64 - index <= inputlen ==> LoopEnd(index, inputlen) < 0xFFFF_FFC0)
  }

  /** The block loop of MD5Update, from the first block boundary in the input to its last. */
  method CompressBlocks(t: Transform, s0: Words, index: nat, input: seq<octet>) returns (s: Words, i: u32)
    requires index < 64 <= index + |input| && InputLengthOk(index, |input|)
    ensures i == LoopEnd(index, |input|)
    ensures s == Absorb(t, s0, input[64 - index..])
  {
    var inputlen: u32 := |input|;
    LoopStopsIff(index, inputlen);
    s, i := s0, 64 - index;
    while LoopGuard(i, inputlen)
      invariant i <= LoopEnd(index, inputlen) && (index + i) % 64 == 0
      invariant Absorb(t, s0, input[64 - index..]) == Absorb(t, s, input[i..])
      decreases inputlen - i
    {
      assert input[i..][..64] == input[i..i + 64];
      assert input[i..][64..] == input[i + 64..];
      s := t(s, input[i..i + 64]);
      i := i + 64;
    }
  }

  /** Each word as four octets, low octet first. */
  method Md5Encode(input: seq<u32>, len: nat) returns (output: seq<octet>)
    requires len == 4 * |input|
    ensures output == Octets(input)
    ensures forall i :: 0 <= i < |input| ==>
              input[i] == output[4 * i] as nat + 0x100 * output[4 * i + 1] as nat
                          + 0x1_0000 * output[4 * i + 2] as nat + 0x100_0000 * output[4 * i + 3] as nat
  {
    hide Word;
    output := [];
    var i, j := 0, 0;
    while j < len
      invariant i <= |input| && j == 4 * i
      invariant output + Octets(input[i..]) == Octets(input)
    {
      output := output + Word(input[i]);
      i, j := i + 1, j + 4;
    }
    AllRead(input, output);
  }

  lemma AllRead(words: seq<u32>, b: seq<octet>)
    requires b == Octets(words)
    ensures forall i :: 0 <= i < |words| ==>
              words[i] == b[4 * i] as nat + 0x100 * b[4 * i + 1] as nat
                          + 0x1_0000 * b[4 * i + 2] as nat + 0x100_0000 * b[4 * i + 3] as nat
  {
    hide Octets;
    forall i | 0 <= i < |words|
      ensures words[i] == b[4 * i] as nat + 0x100 * b[4 * i + 1] as nat
                          + 0x1_0000 * b[4 * i + 2] as nat + 0x100_0000 * b[4 * i + 3] as nat
    {
      OctetsRead(words, i);
    }
  }

  /** MD5Decode as it is written: a cast to unsigned char leaves the low octet of each word. */
  function DecodedWords(b: seq<octet>): (words: seq<u32>)
    requires |b| % 4 == 0
    ensures |words| == |b| / 4
  {
    seq(|b| / 4, i requires 0 <= i < |b| / 4 => LittleEndian(b, 4 * i) % 256)
  }

  method Md5Decode(input: seq<octet>, len: nat) returns (output: seq<u32>)
    requires len == |input| && len % 4 == 0
    ensures output == DecodedWords(input)
    ensures forall i :: 0 <= i < |output| ==> output[i] == input[4 * i]
  {
    output := [];
    var i, j := 0, 0;
    while j < len
      invariant i <= len / 4 && j == 4 * i
      invariant output == DecodedWords(input)[..i]
      invariant forall k :: 0 <= k < i ==> output[k] == input[4 * k]
    {
      var word := input[j] as nat + 0x100 * input[j + 1] as nat + 0x1_0000 * input[j + 2] as nat
                  + 0x100_0000 * input[j + 3] as nat;
      output := output + [word % 256];
      i, j := i + 1, j + 4;
    }
  }

  /** So MD5Decode undoes MD5Encode exactly on words of one octet. */
  lemma DecodeUndoesEncodeIff(words: seq<u32>)
    ensures DecodedWords(Octets(words)) == words <==> forall i :: 0 <= i < |words| ==> words[i] < 256
  {
    hide LittleEndian, Octets;
    forall i | 0 <= i < |words|
      ensures DecodedWords(Octets(words))[i] == words[i] % 256
    {
      OctetsRead(words, i);
    }
    if DecodedWords(Octets(words)) == words {
      assert forall i :: 0 <= i < |words| ==> words[i] == DecodedWords(Octets(words))[i];
    }
  }

  lemma DecodeLosesOctets()
    ensures DecodedWords(Octets([0x100])) == [0]
  {
    OctetsRead([0x100], 0);
  }

  /** In memory the initial words are the octets that section 3.3 of RFC 1321 lists, low octet first. */
  lemma InitialOctets()
    ensures WordOctets(INITIAL) == [0x01, 0x23, 0x45, 0x67, 0x89, 0xab, 0xcd, 0xef,
                                    0xfe, 0xdc, 0xba, 0x98, 0x76, 0x54, 0x32, 0x10]
  {
    hide Octets;
    FourWords(INITIAL.a, INITIAL.b, INITIAL.c, INITIAL.d);
  }

  lemma FourWords(a: u32, b: u32, c: u32, d: u32)
    ensures Octets([a, b, c, d]) == Word(a) + Word(b) + Word(c) + Word(d)
  {
    hide Word;
    assert [a, b, c, d][1..] == [b, c, d] && [b, c, d][1..] == [c, d] && [c, d][1..] == [d] && [d][1..] == [];
    assert Octets([d]) == Word(d);
    assert Octets([c, d]) == Word(c) + Octets([d]);
    assert Octets([b, c, d]) == Word(b) + Octets([c, d]);
  }

  lemma WideWords(lo: u32, hi: u32)
    ensures Mod32(Wide(lo, hi)) == lo && Wide(lo, hi) / 0x1_0000_0000 == hi
  {
  }

  lemma AfterMessage(t: Transform, msg: seq<octet>)
    ensures |Updated(t, FRESH, msg).pending| == |msg| % 64
    ensures Updated(t, FRESH, msg).bits == Mod64(8 * |msg|)
  {
  }

  /** The two updates of MD5Final complete the padded message. */
  lemma PaddedUpdates(t: Transform, msg: seq<octet>, len: seq<octet>)
    requires len == LengthField(Mod64(8 * |msg|))
    ensures Updated(t, Updated(t, Updated(t, FRESH, msg), Marker(1 + PadZeros(|msg|))), len).state == Digest(t, msg)
  {
    hide Absorb, Word, Octets, LengthField, Marker, PadZeros, Mod64, Rest;
    var marker := Marker(1 + PadZeros(|msg|));
    UpdateTwice(t, FRESH, msg, marker);
    UpdateTwice(t, FRESH, msg + marker, len);
    var all := msg + marker + len;
    assert Padding(|msg|) == marker + len;
    assert [] + all == msg + (marker + len);
  }

  lemma WordsAt(b: seq<octet>, words: seq<u32>)
    requires b == Octets(words) && |words| == 4
    ensures LittleEndian(b, 0) == words[0] && LittleEndian(b, 4) == words[1]
    ensures LittleEndian(b, 8) == words[2] && LittleEndian(b, 12) == words[3]
  {
    OctetsRead(words, 0);
    OctetsRead(words, 1);
    OctetsRead(words, 2);
    OctetsRead(words, 3);
  }

  class Md5Context {
    var count0: u32
    var count1: u32
    var state: Words
    const buffer: array<octet>
    const transform: Transform
    ghost var context: Context

    ghost predicate Valid()
      reads this, buffer
    {
      && buffer.Length == 64
      && |context.pending| < 64
      && context.state == state
      && context.bits == Wide(count0, count1)
      && context.bits % 512 == 8 * |context.pending|
      && buffer[..|context.pending|] == context.pending
    }

    constructor (t: Transform)
      ensures Valid() && fresh(buffer) && transform == t && context == FRESH
    {
      transform := t;
      count0, count1 := 0, 0;
      state := INITIAL;
      buffer := new octet[64];
      context := FRESH;
    }

    method Update(input: seq<octet>)
      requires Valid()
      requires InputLengthOk(|context.pending|, |input|)
      modifies this, buffer
      ensures Valid()
      ensures context == Updated(transform, old(context), input)
    {
      hide Mod64, Wide, Absorb;
      ghost var pending := context.pending;
      IndexOfCount(count0, count1, |pending|);
      BitsOfCount(context.bits, |pending|, |input|);
      var index := count0 / 8 % 64;
      var partlen := 64 - index;
      AddCount(|input|);
      if |input| >= partlen {
        CopyToBuffer(index, input[..partlen]);
        assert buffer[..] == pending + input[..partlen];
        var s := transform(state, buffer[..]);
        var i;
        s, i := CompressBlocks(transform, s, index, input);
        CopyToBuffer(0, input[i..]);
        AbsorbFirst(transform, state, pending, input, i);
        state := s;
      } else {
        CopyToBuffer(index, input);
        AbsorbNothing(transform, state, pending + input);
      }
      context := Updated(transform, context, input);
    }

    /** Padding, length and output: the digest of the whole message, whatever updates delivered it. */
    method Final(ghost msg: seq<octet>) returns (digest: seq<octet>)
      requires Valid() && context == Updated(transform, FRESH, msg)
      modifies this, buffer
      ensures digest == WordOctets(Digest(transform, msg)) && |digest| == 16
      ensures var w := Digest(transform, msg);
              && LittleEndian(digest, 0) == w.a && LittleEndian(digest, 4) == w.b
              && LittleEndian(digest, 8) == w.c && LittleEndian(digest, 12) == w.d
    {
      hide Mod32, Mod64, Wide, Word, Octets, Updated, Marker;
      AfterMessage(transform, msg);
      var index := count0 / 8 % 64;
      IndexOfCount(count0, count1, |context.pending|);
      var padlen := if index < 56 then 56 - index else 120 - index;
      var bits := Md5Encode([count0, count1], 8);
      WideWords(count0, count1);
      Update(Marker(padlen));
      Update(bits);
      PaddedUpdates(transform, msg, bits);
      var s := state;
      var words := [s.a, s.b, s.c, s.d];
      digest := Md5Encode(words, 16);
      WordsAt(digest, words);
    }

    /** memcpy into the block buffer. */
    method CopyToBuffer(off: nat, src: seq<octet>)
      requires off + |src| <= buffer.Length
      modifies buffer
      ensures buffer[..off + |src|] == old(buffer[..off]) + src
    {
      CopyTo(buffer, off, src);
    }

    /** The 64-bit bit count kept in two 32-bit words. */
    method AddCount(inputlen: u32)
      modifies this`count0, this`count1
      ensures Wide(count0, count1) == Mod64(old(Wide(count0, count1)) + 8 * inputlen)
    {
      AddWide(count0, count1, inputlen);
      var low := Mod32(8 * inputlen);
      count0 := Mod32(count0 + low);
      if count0 < low {
        count1 := Mod32(count1 + 1);
      }
      count1 := Mod32(count1 + inputlen / 0x2000_0000);
    }
  }

  /** Filling the buffer first and then walking the input compresses the same blocks. */
  lemma AbsorbFirst(t: Transform, s: Words, pending: seq<octet>, input: seq<octet>, i: nat)
    requires |pending| < 64 <= |pending| + |input|
    requires |input| < 0x1_0000_0000 && i == LoopEnd(|pending|, |input|)
    ensures Absorb(t, s, pending + input)
         == Absorb(t, t(s, pending + input[..64 - |pending|]), input[64 - |pending|..])
    ensures Rest(pending + input) == input[i..]
  {
    var all := pending + input;
    assert all[..64] == pending + input[..64 - |pending|];
    assert all[64..] == input[64 - |pending|..];
    assert |all| - |all| % 64 == |pending| + i;
  }

  /** The low word alone gives the number of octets in the buffer. */
  lemma IndexOfCount(lo: u32, hi: u32, n: nat)
    requires n < 64 && Wide(lo, hi) % 512 == 8 * n
    ensures lo / 8 % 64 == n
  {
    var w: nat := Wide(lo, hi);
    var k := 0x80_0000 * hi;
    RemainderBy512(lo, w / 512 - k, 8 * n);
    var q := lo / 512;
    assert lo / 8 == 64 * q + n;
  }

  lemma BitsOfCount(bits: nat, n: nat, len: nat)
    requires n < 64 && bits % 512 == 8 * n
    ensures Mod64(bits + 8 * len) % 512 == 8 * ((n + len) % 64)
  {
    var x, r := bits + 8 * len, (n + len) % 64;
    var k, m := bits / 512 + (n + len) / 64, x / 0x1_0000_0000_0000_0000;
    assert x == 512 * k + 8 * r;
    assert Mod64(x) == x - 512 * (0x80_0000_0000_0000 * m);
    RemainderBy512(Mod64(x), k - 0x80_0000_0000_0000 * m, 8 * r);
  }

  lemma RemainderBy512(x: int, k: int, r: int)
    requires x == 512 * k + r && 0 <= r < 512
    ensures x % 512 == r
  {
  }

  lemma Mod64Unique(w: nat, k: nat)
    requires w < 0x1_0000_0000_0000_0000
    ensures Mod64(w + 0x1_0000_0000_0000_0000 * k) == w
  {
  }

  /** Adding `8 * inputlen` to a pair of words, with the carry found by comparing. */
  lemma AddWide(lo: u32, hi: u32, inputlen: u32)
    ensures var low := Mod32(8 * inputlen);
            var lo' := Mod32(lo + low);
            var hi' := if lo' < low then Mod32(hi + 1) else hi;
            Wide(lo', Mod32(hi' + inputlen / 0x2000_0000)) == Mod64(Wide(lo, hi) + 8 * inputlen)
  {
    var q := inputlen / 0x2000_0000;
    var low := Mod32(8 * inputlen);
    var lo' := Mod32(lo + low);
    var carry: nat := if lo' < low then 1 else 0;
    Carry(lo, low);
    var hi' := if lo' < low then Mod32(hi + 1) else hi;
    HighWord(hi, carry, q);
    var high: nat := hi + carry + q;
    Reassemble(lo', high, high / 0x1_0000_0000);
    Shifted(inputlen);
    assert Wide(lo, hi) + 8 * inputlen == lo' + 0x1_0000_0000 * high by { hide Mod64, Mod32; }
  }

  /** The comparison after the addition finds the carry. */
  lemma Carry(lo: u32, low: u32)
    ensures lo + low == Mod32(lo + low) + if Mod32(lo + low) < low then 0x1_0000_0000 else 0
  {
  }

  lemma HighWord(hi: u32, carry: nat, q: nat)
    requires carry <= 1
    ensures Mod32((if carry == 1 then Mod32(hi + 1) else hi) + q) == Mod32(hi + carry + q)
  {
  }

  lemma Shifted(inputlen: u32)
    ensures 8 * inputlen == 0x1_0000_0000 * (inputlen / 0x2000_0000) + Mod32(8 * inputlen)
  {
  }

  lemma Reassemble(lo: u32, high: nat, wraps: nat)
    requires wraps == high / 0x1_0000_0000
    ensures Mod64(lo + 0x1_0000_0000 * high) == Wide(lo, Mod32(high))
  {
    assert high == Mod32(high) + 0x1_0000_0000 * wraps;
    Mod64Unique(Wide(lo, Mod32(high)), wraps);
  }
}
