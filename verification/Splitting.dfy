/**
  The splitting of a user request at 4 MiB block boundaries (_aio_read, _aio_write and
  get_io_num in S5bd/src/s5imagectx.c), and the completion that counts its pieces down.
 */
module Splitting {
  import Scheduler = SchedulerProtocol

  const LBA_LENGTH: nat := 4096
  const S5_OBJ_LEN: nat := 0x40_0000
  const CACHE_BLOCK_SIZE: nat := 1024

  /** A piece: first LBA, number of LBAs, and where its data starts in the user's buffer. */
  datatype Piece = Piece(slba: nat, nlba: nat, bufOff: nat)

  /** The pieces cover `nlba` LBAs from `slba` on, in order, without gap or overlap. */
  ghost predicate Tile(pieces: seq<Piece>, slba: nat, nlba: nat) {
    if pieces == [] then nlba == 0
    else pieces[0].slba == slba && 0 < pieces[0].nlba <= nlba
         && Tile(pieces[1..], slba + pieces[0].nlba, nlba - pieces[0].nlba)
  }

  /** A piece stays inside one block of 1024 LBAs. */
  predicate InOneBlock(p: Piece) {
    p.nlba > 0 && p.slba / CACHE_BLOCK_SIZE == (p.slba + p.nlba - 1) / CACHE_BLOCK_SIZE
  }

  /** The request that a piece is to the scheduler of its block. */
  function AsRequest(p: Piece): Scheduler.Req {
    Scheduler.Req(p.slba % CACHE_BLOCK_SIZE, p.nlba)
  }

  lemma PieceIsRequest(p: Piece)
    requires InOneBlock(p)
    ensures Scheduler.InBlock(AsRequest(p)) && Scheduler.BitsAsserted(AsRequest(p))
  {
    var q, r := p.slba / 1024, p.slba % 1024;
    assert p.slba == 1024 * q + r;
  }

  /** The number of blocks that the bytes from `off` on touch. */
  function BlocksTouched(off: nat, len: nat): nat
    requires len > 0
  {
    (off + len - 1) / S5_OBJ_LEN - off / S5_OBJ_LEN + 1
  }

  /** get_io_num, as it computes. */
  function GetIoNum(off: nat, len: nat): (num: nat) {
    var left := off % S5_OBJ_LEN;
    var length: int := if left != 0 then len + left - S5_OBJ_LEN else len;
    (if left != 0 then 1 else 0)
    + if length > 0 then length / S5_OBJ_LEN + (if length % S5_OBJ_LEN != 0 then 1 else 0) else 0
  }

  lemma GetIoNumCountsBlocks(off: nat, len: nat)
    requires len > 0
    ensures GetIoNum(off, len) == BlocksTouched(off, len)
  {
    var left, q := off % 0x40_0000, off / 0x40_0000;
    assert off == 0x40_0000 * q + left;
    var last := (left + len - 1) / 0x40_0000;
    assert (off + len - 1) / 0x40_0000 == q + last;
  }

  /** Bytes to LBAs: the blocks a request touches are those of its first and last LBA. */
  lemma BlocksInLbas(off: nat, len: nat, slba: nat, nlba: nat)
    requires off == 4096 * slba && len == 4096 * nlba && nlba > 0
    ensures BlocksTouched(off, len) == (slba + nlba - 1) / 1024 - slba / 1024 + 1
  {
    ByteBlock(slba, 0);
    ByteBlock(slba + nlba - 1, 4095);
  }

  lemma ByteBlock(lba: nat, rest: nat)
    requires rest < 4096
    ensures (4096 * lba + rest) / S5_OBJ_LEN == lba / 1024
  {
    var q, r := lba / 1024, lba % 1024;
    assert 4096 * lba + rest == 0x40_0000 * q + (4096 * r + rest);
  }

  /** Cutting at the next multiple of 1024 stays inside a block. */
  lemma CutAtBlock(slba: nat, n: nat)
    requires 0 < n <= 1024 - slba % 1024
    ensures slba / 1024 == (slba + n - 1) / 1024
    ensures n == 1024 - slba % 1024 ==> (slba + n) % 1024 == 0 && (slba + n) / 1024 == slba / 1024 + 1
  {
  }

  /** The number of LBAs of a request, which is a 32-bit variable. */
  function Lbas(len: nat): (nlba: nat)
    ensures nlba < 0x1_0000_0000
  {
    len / LBA_LENGTH % 0x1_0000_0000
  }

  /** How many pieces the loop makes: one for each block, and an empty one for an empty request. */
  function PieceCount(slba: nat, nlba: nat): nat {
    if nlba == 0 then 1 else (slba + nlba - 1) / 1024 - slba / 1024 + 1
  }

  /** The do-while loop of _aio_read and _aio_write, up to the call of process_task for each piece. */
  method Split(off: nat, len: nat) returns (pieces: seq<Piece>)
    ensures Lbas(len) > 0 ==> Tile(pieces, off / LBA_LENGTH, Lbas(len))
    ensures Lbas(len) > 0 ==>
              forall p :: p in pieces ==> InOneBlock(p) && p.bufOff == (p.slba - off / LBA_LENGTH) * LBA_LENGTH
    ensures Lbas(len) == 0 ==> pieces == [Piece(off / LBA_LENGTH, 0, 0)]
    ensures |pieces| == PieceCount(off / LBA_LENGTH, Lbas(len))
    ensures (forall p :: p in pieces ==> Scheduler.BitsAsserted(AsRequest(p))) <==> Lbas(len) > 0
    ensures (forall p :: p in pieces ==> Scheduler.InBlock(AsRequest(p))) <==> Lbas(len) > 0
  {
    hide Tile, AsRequest, Scheduler.BitsAsserted, Scheduler.InBlock;
    var slba := off / LBA_LENGTH;
    var nlba := Lbas(len);
    var blockSlots := CACHE_BLOCK_SIZE;
    var start := slba;
    var end := start + nlba;
    var blockOff := slba % blockSlots;
    EmptyTile(start);
    pieces := [];
    while true
      invariant start <= slba <= end && nlba == end - slba && blockOff == slba % 1024
      invariant slba < end || (start == end && pieces == [])
      invariant Tile(pieces, start, slba - start)
      invariant forall p :: p in pieces ==> InOneBlock(p) && p.bufOff == (p.slba - start) * LBA_LENGTH
      invariant |pieces| == slba / 1024 - start / 1024
      decreases end - slba
    {
      var tmpNlba := blockSlots - blockOff;
      if tmpNlba > nlba {
        tmpNlba := nlba;
      }
      var piece := Piece(slba, tmpNlba, (slba - start) * LBA_LENGTH);
      if tmpNlba > 0 {
        CutAtBlock(slba, tmpNlba);
        TileAppend(pieces, start, slba - start, piece);
      }
      pieces := pieces + [piece];
      slba := slba + tmpNlba;
      nlba := nlba - tmpNlba;
      blockOff := slba % blockSlots;
      if slba >= end {
        break;
      }
    }
    if Lbas(len) > 0 {
      forall p | p in pieces
        ensures Scheduler.InBlock(AsRequest(p)) && Scheduler.BitsAsserted(AsRequest(p))
      {
        PieceIsRequest(p);
      }
    } else {
      EmptyIsNoRequest(pieces[0]);
    }
  }

  lemma EmptyIsNoRequest(p: Piece)
    requires p.nlba == 0
    ensures !Scheduler.InBlock(AsRequest(p)) && !Scheduler.BitsAsserted(AsRequest(p))
  {
  }

  /** An empty request: its only piece fails the assertions of the bit array. */
  method SplitNothing() returns (pieces: seq<Piece>)
    ensures pieces == [Piece(0, 0, 0)] && !Scheduler.BitsAsserted(AsRequest(pieces[0]))
  {
    pieces := Split(0, 0);
  }

  /**
    get_io_num counts the pieces of a request of whole LBAs if and only if it has fewer than
    2^32 of them and is not an empty one that starts on a block boundary.
   */
  lemma ReserveIff(off: nat, len: nat)
    requires off % LBA_LENGTH == 0 && len % LBA_LENGTH == 0
    ensures GetIoNum(off, len) == PieceCount(off / LBA_LENGTH, Lbas(len))
            <==> len / LBA_LENGTH < 0x1_0000_0000 && !(len == 0 && off % S5_OBJ_LEN == 0)
  {
    hide GetIoNum;
    var slba, nlba := off / 4096, len / 4096;
    if len == 0 {
      EmptyIoNum(off);
    } else {
      hide BlocksTouched;
      GetIoNumCountsBlocks(off, len);
      BlocksInLbas(off, len, slba, nlba);
      if nlba >= 0x1_0000_0000 {
        TruncatedCount(slba, nlba);
      }
    }
  }

  lemma EmptyIoNum(off: nat)
    ensures GetIoNum(off, 0) == if off % S5_OBJ_LEN == 0 then 0 else 1
  {
  }

  /** With 2^32 LBAs or more there are always fewer pieces than blocks. */
  lemma TruncatedCount(slba: nat, nlba: nat)
    requires nlba >= 0x1_0000_0000
    ensures PieceCount(slba, nlba % 0x1_0000_0000) < (slba + nlba - 1) / 1024 - slba / 1024 + 1
  {
    var low := nlba % 0x1_0000_0000;
    assert nlba >= low + 0x1_0000_0000;
    assert (slba + nlba - 1) / 1024 >= (slba + low + 0x1_0000_0000 - 1) / 1024;
    assert (slba + low + 0x1_0000_0000 - 1) / 1024 == (slba + low - 1) / 1024 + 0x40_0000;
  }

  lemma EmptyTile(slba: nat)
    ensures Tile([], slba, 0)
  {
  }

  lemma {:induction false} TileAppend(pieces: seq<Piece>, slba: nat, nlba: nat, p: Piece)
    requires Tile(pieces, slba, nlba) && p.slba == slba + nlba && p.nlba > 0
    ensures Tile(pieces + [p], slba, nlba + p.nlba)
  {
    if pieces != [] {
      TileAppend(pieces[1..], slba + pieces[0].nlba, nlba - pieces[0].nlba, p);
      assert (pieces + [p])[1..] == pieces[1..] + [p];
    } else {
      assert ([p])[1..] == [];
    }
  }

  /** The LBAs of the pieces in `answered`: what comp->filled holds after their replies, in whatever order. */
  ghost function Filled(pieces: seq<Piece>, answered: set<nat>): nat {
    if pieces == [] then 0
    else (if |pieces| - 1 in answered then pieces[|pieces| - 1].nlba else 0) + Filled(pieces[..|pieces| - 1], answered)
  }

  /** A reply adds the size of its piece. */
  lemma {:induction false} FilledByOneMore(pieces: seq<Piece>, answered: set<nat>, i: nat)
    requires i !in answered
    ensures Filled(pieces, answered + {i}) == Filled(pieces, answered) + if i < |pieces| then pieces[i].nlba else 0
  {
    if pieces != [] {
      FilledByOneMore(pieces[..|pieces| - 1], answered, i);
    }
  }

  lemma {:induction false} FilledBound(pieces: seq<Piece>, answered: set<nat>, slba: nat, nlba: nat)
    requires Tile(pieces, slba, nlba)
    ensures Filled(pieces, answered) <= nlba
    ensures Filled(pieces, answered) == nlba <==> forall i :: 0 <= i < |pieces| ==> i in answered
    decreases |pieces|
  {
    if pieces != [] {
      var k := |pieces| - 1;
      TileWithoutLast(pieces, slba, nlba);
      FilledBound(pieces[..k], answered, slba, nlba - pieces[k].nlba);
    }
  }

  lemma {:induction false} TileWithoutLast(pieces: seq<Piece>, slba: nat, nlba: nat)
    requires Tile(pieces, slba, nlba) && pieces != []
    ensures 0 < pieces[|pieces| - 1].nlba <= nlba
    ensures Tile(pieces[..|pieces| - 1], slba, nlba - pieces[|pieces| - 1].nlba)
  {
    var k := |pieces| - 1;
    if k > 0 {
      TileWithoutLast(pieces[1..], slba + pieces[0].nlba, nlba - pieces[0].nlba);
      assert pieces[1..][..k - 1] == pieces[..k][1..];
    } else {
      assert pieces[1..] == [] && pieces[..k] == [];
    }
  }

  /** The completion fires on the reply that leaves no piece unanswered, and on no other. */
  lemma CompletesOnLastReply(pieces: seq<Piece>, slba: nat, nlba: nat, answered: set<nat>, i: nat)
    requires Tile(pieces, slba, nlba) && i < |pieces| && i !in answered
    ensures Filled(pieces, answered) + pieces[i].nlba == nlba
            <==> forall k :: 0 <= k < |pieces| && k != i ==> k in answered
  {
    FilledByOneMore(pieces, answered, i);
    FilledBound(pieces, answered + {i}, slba, nlba);
    assert (forall k :: 0 <= k < |pieces| ==> k in answered + {i})
        <==> (forall k :: 0 <= k < |pieces| && k != i ==> k in answered);
  }
}
