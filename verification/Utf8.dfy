/**
  The UTF-8 codec and checker of common/src/pf_utf8.cpp: the 31-bit form of
  section 2 of RFC 2279, in which a code point takes one to six octets.

  Octets and code points are numbers; the source's masks and shifts are the
  divisions and remainders by powers of two that they compute:
  `x & 0x3f` is `x % 64`, `x >> 6` is `x / 64`, `0x80 | y` with `y < 64` is
  `128 + y`, and `(b & 0xc0) == 0x80` is `128 <= b < 192`.
 */
module Utf8 {
  import opened Machine

  const MAX_UTF8_SZ: nat := 6
  const MAX_CODE: nat := 0x7fffffff
  const INVALID_UTF8_CHAR: nat := 0xffffffff

  /** Code values that decoding refuses: the surrogates and the two non-characters of the first plane. */
  predicate Refused(u: nat) {
    u == 0xfffe || u == 0xffff || 0xd800 <= u <= 0xdfff
  }

  /** Code points the checker accepts. */
  predicate ValidCodePoint(u: nat) {
    u <= MAX_CODE && !Refused(u)
  }

  /** The number of octets of the shortest form of `u`. */
  function EncodedLength(u: nat): (n: nat)
    requires u <= MAX_CODE
    ensures 1 <= n <= MAX_UTF8_SZ
  {
    if u <= 0x7f then 1 else if u <= 0x7ff then 2 else if u <= 0xffff then 3
    else if u <= 0x1fffff then 4 else if u <= 0x3ffffff then 5 else 6
  }

  /** The length marker of the leading octet of `n`, with room for values below `LeadRoom(n)`. */
  function Marker(n: nat): octet
    requires 2 <= n <= MAX_UTF8_SZ
  {
    if n == 2 then 0xc0 else if n == 3 then 0xe0 else if n == 4 then 0xf0 else if n == 5 then 0xf8 else 0xfc
  }

  function LeadRoom(n: nat): nat
    requires 2 <= n <= MAX_UTF8_SZ
  {
    if n == 2 then 32 else if n == 3 then 16 else if n == 4 then 8 else if n == 5 then 4 else 2
  }

  /** `u` without its `k` low groups of six bits. */
  function Top(u: nat, k: nat): nat {
    if k == 0 then u else Top(u, k - 1) / 64
  }

  predicate IsContinuation(b: octet) { 128 <= b < 192 }

  function Continuation(x: nat): octet { 128 + x % 64 }

  /** Octet `k` of the `n` octets of `u`: a marked leading octet, then six bits an octet, high groups first. */
  function Octet(u: nat, n: nat, k: nat): octet
    requires k < n <= MAX_UTF8_SZ
  {
    if n == 1 then u % 256
    else if k == 0 then (Marker(n) + Top(u, n - 1)) % 256
    else Continuation(Top(u, n - 1 - k))
  }

  /** The shortest form of a code point. */
  function Encoding(u: nat): (e: seq<octet>)
    requires u <= MAX_CODE
    ensures |e| == EncodedLength(u)
  {
    var n := EncodedLength(u);
    seq(n, k requires 0 <= k < n => Octet(u, n, k))
  }

  lemma LeadFits(u: nat)
    requires 0x7f < u <= MAX_CODE
    ensures Top(u, EncodedLength(u) - 1) < LeadRoom(EncodedLength(u))
  {
    var n := EncodedLength(u);
    assert Top(u, 1) == u / 64;
    if n >= 3 { assert Top(u, 2) == u / 64 / 64; }
    if n >= 4 { assert Top(u, 3) == u / 64 / 64 / 64; }
    if n >= 5 { assert Top(u, 4) == u / 64 / 64 / 64 / 64; }
    if n == 6 { assert Top(u, 5) == u / 64 / 64 / 64 / 64 / 64; }
  }

  /** Exactly the leading octet of a character is not a continuation octet. */
  lemma EncodingShape(u: nat)
    requires u <= MAX_CODE
    ensures !IsContinuation(Encoding(u)[0])
    ensures Encoding(u)[0] < 0x80 <==> |Encoding(u)| == 1
    ensures |Encoding(u)| > 1 ==> LeadingOnes(Encoding(u)[0]) == |Encoding(u)|
    ensures forall k :: 1 <= k < |Encoding(u)| ==> IsContinuation(Encoding(u)[k])
  {
    if |Encoding(u)| > 1 {
      LeadFits(u);
    }
  }

  /** The leading one bits of an octet. */
  function LeadingOnes(b: octet): (n: nat)
    ensures n <= 8
  {
    if b < 0x80 then 0 else if b < 0xc0 then 1 else if b < 0xe0 then 2 else if b < 0xf0 then 3
    else if b < 0xf8 then 4 else if b < 0xfc then 5 else if b < 0xfe then 6 else if b < 0xff then 7 else 8
  }

  /** The code assembled from the first `j` octets of a multi-octet character. */
  function Assembled(s: seq<octet>, j: nat): nat
    requires 1 <= j <= |s| <= MAX_UTF8_SZ && |s| >= 2
  {
    if j == 1 then s[0] % (2 * LeadRoom(|s|))
    else Assembled(s, j - 1) * 64 + s[j - 1] % 64
  }

  /** What decode_utf8 answers for the octets of one character. */
  function Decoded(s: seq<octet>): nat
    requires |s| <= MAX_UTF8_SZ
  {
    if |s| == 0 then INVALID_UTF8_CHAR
    else if |s| == 1 then (if s[0] >= 0x80 then INVALID_UTF8_CHAR else s[0])
    else if LeadingOnes(s[0]) != |s| then INVALID_UTF8_CHAR
    else if exists k :: 1 <= k < |s| && !IsContinuation(s[k]) then INVALID_UTF8_CHAR
    else if Refused(Assembled(s, |s|)) then INVALID_UTF8_CHAR
    else Assembled(s, |s|)
  }

  /** Round trip: decoding undoes encoding on every valid code point, and rejects the others. */
  lemma DecodeEncoding(u: nat)
    requires u <= MAX_CODE
    ensures Decoded(Encoding(u)) == if ValidCodePoint(u) then u else INVALID_UTF8_CHAR
    ensures Decoded(Encoding(u)) == u <==> !(u in {0xfffe, 0xffff} || 0xd800 <= u < 0xe000)
  {
    EncodingShape(u);
    if |Encoding(u)| > 1 {
      AssembledEncoding(u, |Encoding(u)|);
    }
  }

  lemma {:induction false} AssembledEncoding(u: nat, j: nat)
    requires 0x7f < u <= MAX_CODE
    requires 1 <= j <= |Encoding(u)|
    ensures Assembled(Encoding(u), j) == Top(u, |Encoding(u)| - j)
  {
    var n := |Encoding(u)|;
    if j == 1 {
      LeadOctet(u);
    } else {
      hide Encoding, Octet, LeadRoom;
      AssembledEncoding(u, j - 1);
      TailOctet(u, j - 1);
      var x := Top(u, n - j);
      assert Top(u, n - j + 1) == x / 64;
      assert x / 64 * 64 + x % 64 == x;
    }
  }

  lemma LeadOctet(u: nat)
    requires 0x7f < u <= MAX_CODE
    ensures Encoding(u)[0] % (2 * LeadRoom(|Encoding(u)|)) == Top(u, |Encoding(u)| - 1)
  {
    hide Top;
    LeadFits(u);
  }

  lemma TailOctet(u: nat, k: nat)
    requires 0x7f < u <= MAX_CODE && 1 <= k < |Encoding(u)|
    ensures Encoding(u)[k] % 64 == Top(u, |Encoding(u)| - 1 - k) % 64
  {
    hide Top;
  }

  method HighBitsSet(b: octet) returns (ret: nat)
    ensures ret == LeadingOnes(b)
  {
    var c: nat := b;
    ret := 0;
    while c / 128 % 2 == 1
      invariant ret + LeadingOnes(c % 256) == LeadingOnes(b)
      decreases LeadingOnes(c % 256)
    {
      ShiftLeft(c);
      c := c * 2;
      ret := ret + 1;
    }
    ShiftLeft(c);
  }

  /** Bit 7 is the first leading one, and shifting it out leaves the others. */
  lemma ShiftLeft(c: nat)
    ensures c / 128 % 2 == 1 <==> LeadingOnes(c % 256) > 0
    ensures c / 128 % 2 == 1 ==> LeadingOnes(c * 2 % 256) == LeadingOnes(c % 256) - 1
  {
    BitSeven(c);
    Doubled(c);
  }

  lemma BitSeven(c: nat)
    ensures c / 128 % 2 == if c % 256 >= 128 then 1 else 0
  {
    var q, x := c / 256, c % 256;
    assert c == 256 * q + x && c / 128 == 2 * q + x / 128;
  }

  lemma Doubled(c: nat)
    ensures c * 2 % 256 == if c % 256 >= 128 then c % 256 * 2 - 256 else c % 256 * 2
  {
    var q, x := c / 256, c % 256;
    assert c * 2 == 256 * (2 * q) + 2 * x;
  }

  function Power(b: nat, k: nat): nat {
    if k == 0 then 1 else Power(b, k - 1) * b
  }

  method EncodeUtf8(u: nat, buf: array<octet>) returns (r: int)
    requires buf.Length == MAX_UTF8_SZ
    modifies buf
    ensures u > MAX_CODE ==> r == -1
    ensures u <= MAX_CODE ==> r == EncodedLength(u) && buf[..r] == Encoding(u)
    ensures forall t: seq<octet> :: u <= MAX_CODE && |t| <= MAX_UTF8_SZ && Decoded(t) == u ==> r <= |t|
  {
    hide Decoded;
    Shortest(u);
    var maxVal := [0x7f, 0x7ff, 0xffff, 0x1fffff, 0x3ffffff, 0x7fffffff];
    var i := 0;
    while i < |maxVal| && !(u <= maxVal[i])
      invariant i <= |maxVal|
      invariant u <= MAX_CODE ==> i < EncodedLength(u)
      invariant i == |maxVal| ==> u > MAX_CODE
    {
      i := i + 1;
    }
    if i == |maxVal| {
      return -1;
    }
    if i == 0 {
      buf[0] := u % 256;
    } else {
      EncodeMany(u, i, buf);
    }
    return i + 1;
  }

  /** The form of several octets: the continuation octets from the last to the first, then the leading one. */
  method EncodeMany(u: nat, i: nat, buf: array<octet>)
    requires buf.Length == MAX_UTF8_SZ && 1 <= i < MAX_UTF8_SZ
    modifies buf
    ensures forall k :: 0 <= k <= i ==> buf[k] == Octet(u, i + 1, k)
  {
    var v := u;
    var j := i;
    while j > 0
      invariant 0 <= j <= i
      invariant v == Top(u, i - j)
      invariant forall k :: j < k <= i ==> buf[k] == Octet(u, i + 1, k)
    {
      buf[j] := 128 + v % 64;
      v := v / 64;
      j := j - 1;
    }
    MarkerMask(i);
    var mask := 255 - 255 / Power(2, i + 1);
    buf[0] := (mask + v) % 256;
  }

  lemma MarkerMask(i: nat)
    requires 1 <= i < MAX_UTF8_SZ
    ensures Power(2, i + 1) > 0 && 255 - 255 / Power(2, i + 1) == Marker(i + 1)
  {
    assert Power(2, 2) == 4 && Power(2, 3) == 8 && Power(2, 4) == 16 && Power(2, 5) == 32 && Power(2, 6) == 64;
  }

  method DecodeUtf8(buf: seq<octet>, nbytes: int) returns (code: nat)
    requires nbytes <= |buf| <= MAX_UTF8_SZ
    ensures code == if nbytes <= 0 then INVALID_UTF8_CHAR else Decoded(buf[..nbytes])
  {
    if nbytes <= 0 {
      return INVALID_UTF8_CHAR;
    }
    if nbytes == 1 {
      if buf[0] >= 0x80 {
        return INVALID_UTF8_CHAR;
      }
      return buf[0];
    }
    ghost var s := buf[..nbytes];
    var i := HighBitsSet(buf[0]);
    if i != nbytes {
      return INVALID_UTF8_CHAR;
    }
    PayloadRoom(i);
    code := buf[0] % Power(2, 8 - i);
    var j := 1;
    while j < nbytes
      invariant 1 <= j <= nbytes
      invariant code == Assembled(s, j)
      invariant forall k :: 1 <= k < j ==> IsContinuation(s[k])
    {
      assert s[j] == buf[j];
      if !(128 <= buf[j] < 192) {
        assert !IsContinuation(s[j]);
        return INVALID_UTF8_CHAR;
      }
      code := code * 64 + buf[j] % 64;
      j := j + 1;
    }
    if code == 0xfffe {
      return INVALID_UTF8_CHAR;
    }
    if code == 0xffff {
      return INVALID_UTF8_CHAR;
    }
    if code >= 0xd800 && code <= 0xdfff {
      return INVALID_UTF8_CHAR;
    }
  }

  /** `0xff >> n` keeps the bits below the marker. */
  lemma PayloadRoom(n: nat)
    requires 2 <= n <= MAX_UTF8_SZ
    ensures Power(2, 8 - n) == 2 * LeadRoom(n)
  {
    assert Power(2, 2) == 4 && Power(2, 3) == 8 && Power(2, 4) == 16 && Power(2, 5) == 32 && Power(2, 6) == 64;
  }

  /** One character in shortest form. */
  ghost predicate IsCharacter(s: seq<octet>) {
    exists u: nat :: ValidCodePoint(u) && s == Encoding(u)
  }

  /** The octets of a text, character after character. */
  ghost function Text(us: seq<nat>): seq<octet>
    requires forall i :: 0 <= i < |us| ==> ValidCodePoint(us[i])
  {
    if us == [] then [] else assert ValidCodePoint(us[0]); Encoding(us[0]) + Text(us[1..])
  }

  /** A buffer is well formed when it is the text of some valid code points. */
  ghost predicate WellFormed(b: seq<octet>) {
    exists us: seq<nat> :: (forall i :: 0 <= i < |us| ==> ValidCodePoint(us[i])) && b == Text(us)
  }

  /** The first octet together with the continuation octets that follow it. */
  function CharacterLength(b: seq<octet>): (n: nat)
    requires b != []
    ensures 1 <= n <= |b|
    ensures forall k :: 1 <= k < n ==> IsContinuation(b[k])
    ensures n < |b| ==> !IsContinuation(b[n])
  {
    if |b| > 1 && IsContinuation(b[1]) then
      var n := CharacterLength(b[1..]);
      assert forall k :: 2 <= k < n + 1 ==> b[k] == b[1..][k - 1];
      n + 1
    else 1
  }

  /** Reads a buffer one character at a time. */
  ghost predicate Scans(b: seq<octet>)
    decreases |b|
  {
    b == [] ||
    if b[0] < 0x80 then Scans(b[1..])
    else IsCharacter(b[..CharacterLength(b)]) && Scans(b[CharacterLength(b)..])
  }

  /** Scanning accepts exactly the well-formed buffers. */
  lemma {:induction false} ScansIsWellFormed(b: seq<octet>)
    ensures Scans(b) <==> WellFormed(b)
  {
    if Scans(b) {
      var us := ScannedText(b);
    }
    if WellFormed(b) {
      var us: seq<nat> :| (forall i :: 0 <= i < |us| ==> ValidCodePoint(us[i])) && b == Text(us);
      TextScans(us);
    }
  }

  lemma {:induction false} ScannedText(b: seq<octet>) returns (us: seq<nat>)
    requires Scans(b)
    ensures forall i :: 0 <= i < |us| ==> ValidCodePoint(us[i])
    ensures b == Text(us)
    decreases |b|
  {
    if b == [] {
      us := [];
    } else {
      var n := if b[0] < 0x80 then 1 else CharacterLength(b);
      var u: nat;
      if b[0] < 0x80 {
        u := b[0];
        assert Encoding(u) == b[..1];
      } else {
        u :| ValidCodePoint(u) && b[..n] == Encoding(u);
      }
      var rest := ScannedText(b[n..]);
      us := [u] + rest;
      assert us[1..] == rest;
      assert b == b[..n] + b[n..];
    }
  }

  lemma {:induction false} TextScans(us: seq<nat>)
    requires forall i :: 0 <= i < |us| ==> ValidCodePoint(us[i])
    ensures Scans(Text(us))
    ensures Text(us) != [] ==> !IsContinuation(Text(us)[0])
  {
    if us != [] {
      var e, rest := Encoding(us[0]), Text(us[1..]);
      TextScans(us[1..]);
      EncodingShape(us[0]);
      var b := Text(us);
      assert b == e + rest;
      if b[0] < 0x80 {
        assert b[1..] == rest;
      } else {
        assert forall k :: 0 <= k < |e| ==> b[k] == e[k];
        assert rest != [] ==> b[|e|] == rest[0];
        assert CharacterLength(b) == |e|;
        assert b[..|e|] == e && b[|e|..] == rest;
      }
    }
  }

  /** The comparison that check_utf8 makes for the octets it collected. */
  predicate ReencodesTo(s: seq<octet>)
    requires 1 <= |s| <= MAX_UTF8_SZ
  {
    var code := Decoded(s);
    code <= MAX_CODE && EncodedLength(code) == |s| && Encoding(code) == s
  }

  /** Decoding and encoding again accepts exactly the shortest forms. */
  lemma ReencodingIsCharacter(s: seq<octet>)
    requires 1 <= |s| <= MAX_UTF8_SZ
    ensures ReencodesTo(s) <==> IsCharacter(s)
  {
    if ReencodesTo(s) {
      assert ValidCodePoint(Decoded(s));
    }
    if IsCharacter(s) {
      var u: nat :| ValidCodePoint(u) && s == Encoding(u);
      DecodeEncoding(u);
    }
  }

  // No form is shorter.

  /** How many values `j` octets of a character of `n` octets have room for. */
  function Room(n: nat, j: nat): nat
    requires 2 <= n <= MAX_UTF8_SZ && j >= 1
  {
    if j == 1 then LeadRoom(n) else Room(n, j - 1) * 64
  }

  lemma {:induction false} AssembledFits(s: seq<octet>, j: nat)
    requires 2 <= |s| <= MAX_UTF8_SZ && 1 <= j <= |s| && LeadingOnes(s[0]) == |s|
    ensures Assembled(s, j) < Room(|s|, j)
  {
    if j > 1 {
      AssembledFits(s, j - 1);
    }
  }

  lemma RoomOf(n: nat)
    requires 2 <= n <= MAX_UTF8_SZ
    ensures Room(n, n) == match n { case 2 => 0x800 case 3 => 0x1_0000 case 4 => 0x20_0000 case 5 => 0x400_0000
                                    case _ => 0x8000_0000 }
  {
    assert Room(n, 2) == LeadRoom(n) * 64;
    if n >= 3 { assert Room(n, 3) == LeadRoom(n) * 64 * 64; }
    if n >= 4 { assert Room(n, 4) == LeadRoom(n) * 64 * 64 * 64; }
    if n >= 5 { assert Room(n, 5) == LeadRoom(n) * 64 * 64 * 64 * 64; }
    if n == 6 { assert Room(n, 6) == LeadRoom(n) * 64 * 64 * 64 * 64 * 64; }
  }

  /** Nothing that decodes to a code point is shorter than what encode_utf8 makes of it. */
  lemma NoShorterForm(s: seq<octet>)
    requires |s| <= MAX_UTF8_SZ && Decoded(s) != INVALID_UTF8_CHAR
    ensures Decoded(s) <= MAX_CODE && EncodedLength(Decoded(s)) <= |s|
  {
    if |s| > 1 {
      AssembledFits(s, |s|);
      RoomOf(|s|);
    }
  }

  lemma {:induction false} TopAssembled(s: seq<octet>, j: nat)
    requires 2 <= |s| <= MAX_UTF8_SZ && 1 <= j <= |s|
    ensures Assembled(s, j) == Top(Assembled(s, |s|), |s| - j)
    decreases |s| - j
  {
    if j < |s| {
      TopAssembled(s, j + 1);
      assert (Assembled(s, j) * 64 + s[j] % 64) / 64 == Assembled(s, j);
    }
  }

  /** There is one form of each length. */
  lemma OctetsOfCode(s: seq<octet>)
    requires |s| <= MAX_UTF8_SZ && Decoded(s) != INVALID_UTF8_CHAR
    ensures forall k :: 0 <= k < |s| ==> s[k] == Octet(Decoded(s), |s|, k)
  {
    hide Top, Assembled;
    if |s| > 1 {
      forall k | 0 <= k < |s|
        ensures s[k] == Octet(Decoded(s), |s|, k)
      {
        TopAssembled(s, k + 1);
        if k == 0 {
          LeadAlone(s);
        } else {
          TailAlone(s, k);
        }
      }
    }
  }

  lemma TailAlone(s: seq<octet>, k: nat)
    requires 2 <= |s| <= MAX_UTF8_SZ && 1 <= k < |s| && IsContinuation(s[k])
    ensures s[k] == Continuation(Assembled(s, k + 1))
  {
    var q, x := Assembled(s, k), s[k] % 64;
    assert (q * 64 + x) % 64 == x;
  }

  lemma LeadAlone(s: seq<octet>)
    requires 2 <= |s| <= MAX_UTF8_SZ && LeadingOnes(s[0]) == |s|
    ensures s[0] == Marker(|s|) + Assembled(s, 1)
  {
  }

  /** What check_utf8 accepts as a character is what decodes and has no shorter form. */
  lemma CharacterIsShortest(s: seq<octet>)
    requires |s| <= MAX_UTF8_SZ
    ensures IsCharacter(s) <==>
              && Decoded(s) != INVALID_UTF8_CHAR
              && forall t: seq<octet> :: |t| <= MAX_UTF8_SZ && Decoded(t) == Decoded(s) ==> |s| <= |t|
  {
    hide Octet, Refused;
    if Decoded(s) != INVALID_UTF8_CHAR {
      var u := Decoded(s);
      NoShorterForm(s);
      DecodedIsValid(s);
      DecodeEncoding(u);
      if |s| == EncodedLength(u) {
        OctetsOfCode(s);
        assert s == Encoding(u);
        forall t: seq<octet> | |t| <= MAX_UTF8_SZ && Decoded(t) == u
          ensures |s| <= |t|
        {
          NoShorterForm(t);
        }
      } else {
        assert Decoded(Encoding(u)) == u && |Encoding(u)| < |s|;
      }
    }
    if IsCharacter(s) {
      var v: nat :| ValidCodePoint(v) && s == Encoding(v);
      DecodeEncoding(v);
    }
  }

  lemma Shortest(u: nat)
    ensures forall t: seq<octet> :: u <= MAX_CODE && |t| <= MAX_UTF8_SZ && Decoded(t) == u ==> EncodedLength(u) <= |t|
  {
    forall t: seq<octet> | u <= MAX_CODE && |t| <= MAX_UTF8_SZ && Decoded(t) == u
      ensures EncodedLength(u) <= |t|
    {
      NoShorterForm(t);
    }
  }

  lemma DecodedIsValid(s: seq<octet>)
    requires |s| <= MAX_UTF8_SZ && Decoded(s) != INVALID_UTF8_CHAR
    ensures ValidCodePoint(Decoded(s))
  {
    NoShorterForm(s);
  }

  /** A collected character decides the scan of every longer prefix that does not extend it. */
  lemma ScanCharacter(b: seq<octet>, n: nat)
    requires 1 <= n <= |b| && b[0] >= 0x80
    requires forall k :: 1 <= k < n ==> IsContinuation(b[k])
    requires n < |b| ==> !IsContinuation(b[n])
    ensures Scans(b) <==> IsCharacter(b[..n]) && Scans(b[n..])
  {
    assert CharacterLength(b) == n;
  }

  /**
    With the octets from `start` to `i` collected, the characters before `start` are in
    order: they leave the scan of any longer prefix to what follows them.
   */
  ghost predicate Collecting(b: seq<octet>, start: nat, i: nat) {
    && start <= i <= |b|
    && (start < i ==> b[start] >= 0x80)
    && (forall k :: start < k < i ==> IsContinuation(b[k]))
    && (forall e :: i <= e <= |b| ==> (Scans(b[..e]) <==> Scans(b[start..e])))
  }

  lemma Collect(b: seq<octet>, start: nat, i: nat)
    requires Collecting(b, start, i) && i < |b| && b[i] >= 0x80
    requires start < i ==> IsContinuation(b[i])
    ensures Collecting(b, start, i + 1)
  {
  }

  /** At the end of a character: either it is sound, or no prefix that has all of it scans. */
  lemma EndCharacter(b: seq<octet>, start: nat, i: nat)
    requires Collecting(b, start, i) && start < i && (i < |b| ==> !IsContinuation(b[i]))
    ensures IsCharacter(b[start..i]) ==> Collecting(b, i, i)
    ensures !IsCharacter(b[start..i]) ==> Broken(b, i)
  {
    forall e | i <= e <= |b|
      ensures Scans(b[..e]) <==> IsCharacter(b[start..i]) && Scans(b[i..e])
    {
      var t := b[start..e];
      ScanCharacter(t, i - start);
      assert t[..i - start] == b[start..i] && t[i - start..] == b[i..e];
    }
    if !IsCharacter(b[start..i]) {
      Reject(b, i);
    }
  }

  lemma SkipAscii(b: seq<octet>, i: nat)
    requires Collecting(b, i, i) && i < |b| && b[i] < 0x80
    ensures Collecting(b, i + 1, i + 1)
  {
    forall e | i + 1 <= e <= |b|
      ensures Scans(b[..e]) <==> Scans(b[i + 1..e])
    {
      assert b[i..e][1..] == b[i + 1..e];
    }
  }

  /** No character has more than six octets. */
  lemma TooLong(b: seq<octet>, start: nat, i: nat)
    requires Collecting(b, start, i) && start + MAX_UTF8_SZ == i < |b| && IsContinuation(b[i])
    ensures Broken(b, i)
  {
    forall e | i < e <= |b|
      ensures !Scans(b[..e])
    {
      var t := b[start..e];
      assert forall k :: 1 <= k <= MAX_UTF8_SZ ==> IsContinuation(t[k]);
      assert CharacterLength(t) > MAX_UTF8_SZ;
    }
    Reject(b, i);
  }

  /** Neither the buffer nor the part of it read up to position `i` is well formed. */
  ghost predicate Broken(b: seq<octet>, i: nat) {
    !WellFormed(b) && !WellFormed(b[..if i < |b| then i + 1 else |b|])
  }

  lemma Reject(b: seq<octet>, i: nat)
    requires i <= |b|
    requires forall e :: i < e <= |b| || e == |b| ==> !Scans(b[..e])
    ensures Broken(b, i)
  {
    assert b[..|b|] == b;
    ScansIsWellFormed(b);
    ScansIsWellFormed(b[..if i < |b| then i + 1 else |b|]);
  }

  lemma Accept(b: seq<octet>)
    requires Collecting(b, |b|, |b|)
    ensures WellFormed(b)
  {
    assert b[..|b|] == b && Scans(b[|b|..|b|]);
    ScansIsWellFormed(b);
  }

  /**
    Zero exactly for the well-formed buffers; any other answer is one more than a position
    up to which the buffer has already gone wrong.
   */
  method CheckUtf8(buf: seq<octet>, len: int) returns (r: nat)
    requires len <= |buf|
    ensures r == 0 <==> len <= 0 || WellFormed(buf[..len])
    ensures r != 0 ==> r <= len + 1 && Broken(buf[..len], r - 1)
  {
    hide Scans, IsCharacter;
    if len <= 0 {
      return 0;
    }
    var u: seq<octet> := [];
    var i := 0;
    ghost var b := buf[..len];
    ghost var start := 0;
    while true
      invariant start <= i <= len && |u| <= MAX_UTF8_SZ
      invariant u == b[start..i]
      invariant Collecting(b, start, i)
      decreases len - i
    {
      // The source reads buf[len] here as well; what it holds is not looked at.
      var c: octet := if i < len then buf[i] else 0;
      if i >= len || c < 0x80 || !(128 <= c < 192) {
        if |u| > 0 {
          var ok := CheckCharacter(u);
          EndCharacter(b, start, i);
          if !ok {
            return i + 1;
          }
        }
        u, start := [], i;
        if i >= len {
          break;
        }
        if c >= 0x80 {
          Collect(b, start, i);
          u := u + [c];
        } else {
          SkipAscii(b, i);
          start := i + 1;
        }
      } else {
        if |u| == MAX_UTF8_SZ {
          TooLong(b, start, i);
          return i + 1;
        }
        Collect(b, start, i);
        u := u + [c];
      }
      i := i + 1;
    }
    Accept(b);
    return 0;
  }

  /** The processing of one collected character: decode, encode again, compare. */
  method CheckCharacter(u: seq<octet>) returns (ok: bool)
    requires 1 <= |u| <= MAX_UTF8_SZ
    ensures ok <==> IsCharacter(u)
  {
    ReencodingIsCharacter(u);
    assert u[..|u|] == u;
    var code := DecodeUtf8(u, |u|);
    if code == INVALID_UTF8_CHAR {
      return false;
    }
    var reEncoded := new octet[MAX_UTF8_SZ];
    var reEncodedLen := EncodeUtf8(code, reEncoded);
    if |u| != reEncodedLen {
      return false;
    }
    return u == reEncoded[..|u|];
  }
}
