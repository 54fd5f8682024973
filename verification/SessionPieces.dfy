/**
  How the session cuts an I/O into sub-I/Os (get_next_subio and push_s5io in
  S5bd/src/s5session.c), and counting them.
 */
module SessionPieces {
  import opened Machine

  const LBA_LENGTH: nat := 4096

  /** A sub-I/O: the number of its I/O, and its LBAs counted from the beginning of that. */
  datatype Piece = Piece(io: nat, slba: nat, nlba: nat)

  /** `n` numbers from `a` on. */
  function Range(a: nat, n: nat): set<nat> {
    if n == 0 then {} else Range(a, n - 1) + {a + n - 1}
  }

  lemma {:induction false} RangeHas(a: nat, n: nat)
    ensures |Range(a, n)| == n && forall l :: l in Range(a, n) <==> a <= l < a + n
  {
    if n > 0 {
      RangeHas(a, n - 1);
    }
  }

  /** The LBAs of a sub-I/O. */
  function Lbas(p: Piece): set<nat> { Range(p.slba, p.nlba) }

  /** LBAs with the I/O that they belong to. */
  function OfIo(io: nat, lbas: set<nat>): set<(nat, nat)> {
    set l | l in lbas :: (io, l)
  }

  /** The pieces of the LBAs `from` to `n`. */
  function Cut(io: nat, n: nat, from: nat, max: nat): seq<Piece>
    requires max > 0
    decreases n - from
  {
    if from >= n then [] else
      var k := Min(max, n - from);
      [Piece(io, from, k)] + Cut(io, n, from + k, max)
  }

  /** All sub-I/Os of an I/O; one without LBAs still has one. */
  function Pieces(io: nat, n: nat, max: nat): seq<Piece>
    requires max > 0
  {
    if n == 0 then [Piece(io, 0, 0)] else Cut(io, n, 0, max)
  }

  /** uncompleted_subio_count as push_s5io computes it. */
  function Uncompleted(n: nat, max: nat): nat
    requires max > 0
  {
    (n + max - 1) / max
  }

  function SubCount(n: nat, max: nat): nat
    requires max > 0
  {
    if n == 0 then 1 else Uncompleted(n, max)
  }

  /** The pieces follow each other without gap or overlap and end at `n`; none is longer than `max`. */
  lemma {:induction false} CutIsContiguous(io: nat, n: nat, from: nat, max: nat, j: nat)
    requires max > 0 && from <= n
    requires j < |Cut(io, n, from, max)|
    ensures var c := Cut(io, n, from, max);
            && c[j].io == io && 0 < c[j].nlba <= max
            && c[j].slba == (if j == 0 then from else c[j - 1].slba + c[j - 1].nlba)
            && (j + 1 == |c| ==> c[j].slba + c[j].nlba == n)
    decreases n - from
  {
    if from < n {
      var k := Min(max, n - from);
      var rest := Cut(io, n, from + k, max);
      assert Cut(io, n, from, max) == [Piece(io, from, k)] + rest;
      if j > 0 {
        CutIsContiguous(io, n, from + k, max, j - 1);
      } else if |rest| == 0 {
        assert from + k >= n;
      }
    }
  }

  lemma DivStep(x: nat, m: nat)
    requires m > 0
    ensures (x + m) / m == x / m + 1
  {
    var q, r := x / m, x % m;
    assert x + m == m * (q + 1) + r;
    DivUnique(x + m, m, q + 1, r);
  }

  lemma DivUnique(y: nat, m: nat, q: nat, r: nat)
    requires m > 0 && y == m * q + r && r < m
    ensures y / m == q
  {
    var q', r' := y / m, y % m;
    assert y == m * q' + r';
    if q' < q {
      MulStep(q', q, m);
    } else if q < q' {
      MulStep(q, q', m);
    }
  }

  lemma MulStep(a: nat, b: nat, m: nat)
    requires a < b
    ensures m * a + m <= m * b
  {
    var d := b - a - 1;
    assert m * b == m * a + m + m * d;
  }

  /** There are as many pieces as push_s5io counts. */
  lemma {:induction false} CutCount(io: nat, n: nat, from: nat, max: nat)
    requires max > 0 && from <= n
    ensures |Cut(io, n, from, max)| == Uncompleted(n - from, max)
    decreases n - from
  {
    if from == n {
      DivUnique(max - 1, max, 0, max - 1);
    } else if n - from <= max {
      DivUnique(n - from + max - 1, max, 1, n - from - 1);
    } else {
      CutCount(io, n, from + max, max);
      DivStep(n - from - 1, max);
    }
  }

  lemma PiecesCount(io: nat, n: nat, max: nat)
    requires max > 0
    ensures |Pieces(io, n, max)| == SubCount(n, max) > 0
  {
    if n > 0 {
      CutCount(io, n, 0, max);
    }
  }

  /** The pieces of the first `m` I/Os, in the order in which they were pushed. */
  function AllPieces(sizes: seq<nat>, m: nat, max: nat): seq<Piece>
    requires max > 0 && m <= |sizes|
  {
    if m == 0 then [] else AllPieces(sizes, m - 1, max) + Pieces(m - 1, sizes[m - 1], max)
  }

  lemma {:induction false} MoreIos(sizes: seq<nat>, n: nat, m: nat, max: nat)
    requires max > 0 && m <= |sizes|
    ensures AllPieces(sizes + [n], m, max) == AllPieces(sizes, m, max)
  {
    if m > 0 {
      MoreIos(sizes, n, m - 1, max);
    }
  }

  /** How many pieces belong to I/O `i`. */
  function Count(ps: seq<Piece>, i: nat): nat {
    if ps == [] then 0 else (if ps[0].io == i then 1 else 0) + Count(ps[1..], i)
  }

  lemma {:induction false} CountConcat(a: seq<Piece>, b: seq<Piece>, i: nat)
    ensures Count(a + b, i) == Count(a, i) + Count(b, i)
  {
    if a == [] {
      assert a + b == b;
    } else {
      assert (a + b)[1..] == a[1..] + b;
      CountConcat(a[1..], b, i);
    }
  }

  lemma {:induction false} CountUniform(ps: seq<Piece>, io: nat, i: nat)
    requires forall p :: p in ps ==> p.io == io
    ensures Count(ps, i) == if i == io then |ps| else 0
  {
    if ps != [] {
      CountUniform(ps[1..], io, i);
    }
  }

  lemma {:induction false} CutUniform(io: nat, n: nat, from: nat, max: nat)
    requires max > 0
    ensures forall p :: p in Cut(io, n, from, max) ==> p.io == io && p.nlba <= max
    decreases n - from
  {
    if from < n {
      CutUniform(io, n, from + Min(max, n - from), max);
    }
  }

  lemma {:induction false} CountAll(sizes: seq<nat>, m: nat, max: nat, i: nat)
    requires max > 0 && m <= |sizes|
    ensures Count(AllPieces(sizes, m, max), i) == if i < m then SubCount(sizes[i], max) else 0
  {
    if m > 0 {
      hide Uncompleted, Cut;
      CountAll(sizes, m - 1, max, i);
      var last := Pieces(m - 1, sizes[m - 1], max);
      CountConcat(AllPieces(sizes, m - 1, max), last, i);
      CutUniform(m - 1, sizes[m - 1], 0, max);
      CountUniform(last, m - 1, i);
      PiecesCount(m - 1, sizes[m - 1], max);
    }
  }

  lemma CountHead(ps: seq<Piece>, k: nat, i: nat)
    requires k < |ps|
    ensures Count(ps, i) == Count(ps[..k] + ps[k + 1..], i) + if ps[k].io == i then 1 else 0
  {
    assert ps == ps[..k] + ([ps[k]] + ps[k + 1..]);
    CountConcat(ps[..k], [ps[k]] + ps[k + 1..], i);
    CountConcat([ps[k]], ps[k + 1..], i);
    CountConcat(ps[..k], ps[k + 1..], i);
    assert [ps[k]][1..] == [];
  }

  lemma WithoutOne(ps: seq<Piece>, k: nat)
    requires k < |ps|
    ensures multiset(ps[..k] + ps[k + 1..]) == multiset(ps) - multiset{ps[k]}
  {
    assert ps == ps[..k] + [ps[k]] + ps[k + 1..];
  }

  /** Counts depend on the pieces, not on their order. */
  lemma {:induction false} CountPermuted(a: seq<Piece>, b: seq<Piece>, i: nat)
    requires multiset(a) == multiset(b)
    ensures Count(a, i) == Count(b, i)
    decreases |a|
  {
    if a == [] {
      assert |multiset(b)| == 0;
      assert b == [];
    } else {
      assert a[0] in multiset(b);
      var k :| 0 <= k < |b| && b[k] == a[0];
      var b' := b[..k] + b[k + 1..];
      WithoutOne(b, k);
      WithoutOne(a, 0);
      assert a[..0] + a[0 + 1..] == a[1..];
      CountPermuted(a[1..], b', i);
      CountHead(b, k, i);
    }
  }

  /** The bytes of a write's data that travel with a sub-I/O. */
  function PieceData(p: Piece, data: seq<octet>): seq<octet> {
    var off := p.slba * LBA_LENGTH;
    if off < |data| then data[off..off + Min(|data| - off, p.nlba * LBA_LENGTH)] else []
  }

  function Joined(ps: seq<Piece>, data: seq<octet>): seq<octet> {
    if ps == [] then [] else PieceData(ps[0], data) + Joined(ps[1..], data)
  }

  /** All of the data of a write travels, in order and once. */
  lemma {:induction false} CutCarriesData(io: nat, n: nat, from: nat, max: nat, data: seq<octet>)
    requires max > 0 && |data| <= n * LBA_LENGTH
    ensures Joined(Cut(io, n, from, max), data) == if from * LBA_LENGTH < |data| then data[from * LBA_LENGTH..] else []
    decreases n - from
  {
    if from < n {
      var k := Min(max, n - from);
      var c := Cut(io, n, from, max);
      assert c[1..] == Cut(io, n, from + k, max);
      CutCarriesData(io, n, from + k, max, data);
    }
  }

  lemma PiecesCarryData(io: nat, n: nat, max: nat, data: seq<octet>)
    requires max > 0 && |data| <= n * LBA_LENGTH
    ensures Joined(Pieces(io, n, max), data) == data
  {
    if n > 0 {
      CutCarriesData(io, n, 0, max, data);
    } else {
      assert Pieces(io, n, max)[1..] == [];
    }
  }
}
