/** Piece and block geometry of a torrent: which bytes of the file each piece and each block covers. */
module MetaInfo {
  const BLOCK_LEN: int := 16384

  type Sha1 = seq<int>

  /** A block of a piece: the Index-Begin-Length trio that requests and the queue carry. */
  datatype Ibl = Ibl(index: nat, begin: nat, length: nat)

  /** A stretch of the downloaded file, counted in bytes from its beginning. */
  datatype Range = Range(start: nat, length: nat) {
    predicate Covers(x: int) {
      start <= x < start + length
    }
  }

  function Sum(xs: seq<nat>): nat {
    if xs == [] then 0 else Sum(xs[..|xs| - 1]) + xs[|xs| - 1]
  }

  datatype MetaInfo = MetaInfo(pieceLen: nat, piecesHash: seq<Sha1>, isDir: bool, files: seq<nat>) {
    /** The source divides by the piece length, and reads the first file of a single-file torrent. */
    predicate Valid() {
      pieceLen > 0 && (isDir || files != [])
    }

    function Size(): nat
      requires Valid()
    {
      if !isDir then files[0] else Sum(files)
    }

    /** The loop that adds up the lengths of all the files of a directory. */
    method ComputeSize() returns (size: nat)
      requires Valid()
      ensures size == Size()
    {
      size := 0;
      if !isDir {
        return files[0];
      }
      for i := 0 to |files|
        invariant size == Sum(files[..i])
      {
        assert files[..i + 1][..i] == files[..i];
        size := size + files[i];
      }
      assert files[..|files|] == files;
    }

    function PieceLen(index: nat): nat
      requires Valid()
    {
      if Size() / pieceLen == index then Size() % pieceLen else pieceLen
    }

    function PieceBounds(index: nat): (int, int)
      requires Valid()
    {
      var start := index * pieceLen;
      var end := start + pieceLen;
      if end > Size() then (start, Size()) else (start, end)
    }

    function BlockLen(pIndex: nat, bIndex: nat): nat
      requires Valid()
    {
      var pLen := PieceLen(pIndex);
      if bIndex == pLen / BLOCK_LEN then pLen % BLOCK_LEN else BLOCK_LEN
    }

    function NumBlocksInPiece(index: nat): nat
      requires Valid()
    {
      var pLen := PieceLen(index);
      if pLen % BLOCK_LEN > 0 then pLen / BLOCK_LEN + 1 else pLen / BLOCK_LEN
    }

    /** How many pieces it takes to hold the file. */
    function PieceCount(): nat
      requires Valid()
    {
      (Size() + pieceLen - 1) / pieceLen
    }

    /** The b-th block of piece i, by division. */
    function Block(i: nat, b: nat): Ibl
      requires Valid()
    {
      Ibl(i, b * BLOCK_LEN, BlockLen(i, b))
    }

    /** Blocks b, b+1, ... of piece i. */
    function BlocksFrom(i: nat, b: nat): (bs: seq<Ibl>)
      requires Valid() && b <= NumBlocksInPiece(i)
      ensures |bs| == NumBlocksInPiece(i) - b
      ensures forall k :: 0 <= k < |bs| ==> bs[k] == Block(i, b + k)
      decreases NumBlocksInPiece(i) - b
    {
      if b == NumBlocksInPiece(i) then [] else [Block(i, b)] + BlocksFrom(i, b + 1)
    }

    function Blocks(i: nat): (bs: seq<Ibl>)
      requires Valid()
      ensures |bs| == NumBlocksInPiece(i)
      ensures forall k :: 0 <= k < |bs| ==> bs[k] == Block(i, k)
    {
      BlocksFrom(i, 0)
    }

    /** The blocks of pieces i, ..., k-1, in the order in which queueing those pieces appends them. */
    function AllBlocks(i: nat, k: nat): seq<Ibl>
      requires Valid() && i <= k
      decreases k - i
    {
      if i == k then [] else Blocks(i) + AllBlocks(i + 1, k)
    }

    function RangeOf(b: Ibl): Range {
      Range(b.index * pieceLen + b.begin, b.length)
    }

    function RangesOf(bs: seq<Ibl>): seq<Range> {
      seq(|bs|, k requires 0 <= k < |bs| => RangeOf(bs[k]))
    }
  }

  /** rs are non-empty, at most a block long, and follow one another without gap or overlap from lo to hi. */
  ghost predicate Tiles(rs: seq<Range>, lo: nat, hi: nat) {
    if rs == [] then lo == hi
    else rs[0].start == lo && 0 < rs[0].length <= BLOCK_LEN && Tiles(rs[1..], lo + rs[0].length, hi)
  }

  lemma {:induction false} TilesAppend(rs: seq<Range>, ts: seq<Range>, lo: nat, mid: nat, hi: nat)
    requires Tiles(rs, lo, mid) && Tiles(ts, mid, hi)
    ensures Tiles(rs + ts, lo, hi)
  {
    if rs == [] {
      assert rs + ts == ts;
    } else {
      assert (rs + ts)[1..] == rs[1..] + ts;
      TilesAppend(rs[1..], ts, lo + rs[0].length, mid, hi);
    }
  }

  lemma {:induction false} TilesInside(rs: seq<Range>, lo: nat, hi: nat, k: nat)
    requires Tiles(rs, lo, hi) && k < |rs|
    ensures lo <= rs[k].start && rs[k].start + rs[k].length <= hi && rs[k].length > 0
  {
    if k == 0 {
      TilesGrow(rs[1..], lo + rs[0].length, hi);
    } else {
      TilesInside(rs[1..], lo + rs[0].length, hi, k - 1);
    }
  }

  lemma {:induction false} TilesGrow(rs: seq<Range>, lo: nat, hi: nat)
    requires Tiles(rs, lo, hi)
    ensures lo <= hi
  {
    if rs != [] {
      TilesGrow(rs[1..], lo + rs[0].length, hi);
    }
  }

  lemma {:induction false} TilesEndIsUnique(rs: seq<Range>, lo: nat, hi: nat, hi': nat)
    requires Tiles(rs, lo, hi) && Tiles(rs, lo, hi')
    ensures hi == hi'
  {
    if rs != [] {
      TilesEndIsUnique(rs[1..], lo + rs[0].length, hi, hi');
    }
  }

  /** In a tiling every byte belongs to one range and to no other. */
  lemma {:induction false} TilesPartition(rs: seq<Range>, lo: nat, hi: nat, x: nat) returns (k: nat)
    requires Tiles(rs, lo, hi) && lo <= x < hi
    ensures k < |rs| && rs[k].Covers(x)
    ensures forall j :: 0 <= j < |rs| && rs[j].Covers(x) ==> j == k
  {
    if rs[0].Covers(x) {
      k := 0;
      forall j | 0 < j < |rs| ensures !rs[j].Covers(x) {
        TilesInside(rs[1..], lo + rs[0].length, hi, j - 1);
      }
    } else {
      k := TilesPartition(rs[1..], lo + rs[0].length, hi, x);
      k := k + 1;
      forall j | 0 <= j < |rs| && rs[j].Covers(x) ensures j == k {
        assert j > 0 && rs[j] == rs[1..][j - 1];
      }
    }
  }

  lemma DivMod(n: nat, d: nat, q: nat)
    requires d > 0
    ensures q * d <= n < (q + 1) * d <==> n / d == q
    ensures n / d == q ==> n % d == n - q * d
  {
    assert n == (n / d) * d + n % d;
    if q < n / d {
      assert (q + 1) * d <= (n / d) * d;
    } else if q > n / d {
      assert q * d >= (n / d + 1) * d;
    }
  }

  lemma CeilDiv(s: nat, p: nat, n: nat, i: nat)
    requires p > 0 && n == (s + p - 1) / p
    ensures i < n <==> i * p < s
  {
    DivMod(s + p - 1, p, n);
    assert (n + 1) * p == n * p + p;
    if i < n {
      assert (i + 1) * p == i * p + p <= n * p;
    } else {
      assert i * p >= n * p;
    }
  }

  lemma CeilDivExact(s: nat, p: nat, n: nat)
    requires p > 0 && n == (s + p - 1) / p
    ensures s % p == 0 <==> n * p == s
    ensures s / p == if s % p == 0 then n else n - 1
  {
    var q, r := s / p, s % p;
    assert (q + 1) * p == q * p + p && (q + 2) * p == q * p + 2 * p && s == q * p + r;
    DivMod(s + p - 1, p, if r == 0 then q else q + 1);
  }

  /** Piece i lies inside the file exactly when i is below the piece count. */
  lemma PieceInside(m: MetaInfo, i: nat)
    requires m.Valid()
    ensures i < m.PieceCount() <==> i * m.pieceLen < m.Size()
  {
    CeilDiv(m.Size(), m.pieceLen, m.PieceCount(), i);
  }

  /** PieceBounds and PieceLen agree on a piece exactly when the piece does not start beyond the file. */
  lemma PieceBoundsWidth(m: MetaInfo, i: nat)
    requires m.Valid()
    ensures m.PieceBounds(i).1 - m.PieceBounds(i).0 == m.PieceLen(i) <==> i * m.pieceLen <= m.Size()
  {
    DivMod(m.Size(), m.pieceLen, i);
    assert (i + 1) * m.pieceLen == i * m.pieceLen + m.pieceLen;
    if i * m.pieceLen <= m.Size() && m.Size() / m.pieceLen != i {
      assert (i + 1) * m.pieceLen <= m.Size();
    }
  }

  /** The pieces of the file are non-empty and follow one another from 0 to Size. */
  lemma PiecesTile(m: MetaInfo, i: nat)
    requires m.Valid() && i < m.PieceCount()
    ensures m.PieceBounds(i).0 < m.PieceBounds(i).1 == m.PieceBounds(i).0 + m.PieceLen(i) <= m.Size()
    ensures m.PieceBounds(0).0 == 0
    ensures m.PieceBounds(i).1 == if i + 1 < m.PieceCount() then m.PieceBounds(i + 1).0 else m.Size()
  {
    PieceInside(m, i);
    PieceInside(m, i + 1);
    PieceBoundsWidth(m, i);
    assert 0 * m.pieceLen == 0;
    assert (i + 1) * m.pieceLen == i * m.pieceLen + m.pieceLen;
  }

  lemma {:induction false} BlocksFromTile(m: MetaInfo, i: nat, b: nat)
    requires m.Valid() && b <= m.NumBlocksInPiece(i)
    ensures var lo := if b * BLOCK_LEN < m.PieceLen(i) then b * BLOCK_LEN else m.PieceLen(i);
            Tiles(m.RangesOf(m.BlocksFrom(i, b)), i * m.pieceLen + lo, i * m.pieceLen + m.PieceLen(i))
    decreases m.NumBlocksInPiece(i) - b
  {
    if b < m.NumBlocksInPiece(i) {
      BlocksFromTile(m, i, b + 1);
      assert m.RangesOf(m.BlocksFrom(i, b))[1..] == m.RangesOf(m.BlocksFrom(i, b + 1));
    }
  }

  /** The blocks of one piece tile exactly the bytes of that piece. */
  lemma BlocksTilePiece(m: MetaInfo, i: nat)
    requires m.Valid()
    ensures Tiles(m.RangesOf(m.Blocks(i)), i * m.pieceLen, i * m.pieceLen + m.PieceLen(i))
  {
    BlocksFromTile(m, i, 0);
  }

  /** The first byte of piece i, or the end of the file if there is no such byte. */
  function PieceStart(m: MetaInfo, i: nat): nat
    requires m.Valid()
  {
    if i * m.pieceLen < m.Size() then i * m.pieceLen else m.Size()
  }

  lemma PieceStartNext(m: MetaInfo, i: nat)
    requires m.Valid() && i * m.pieceLen <= m.Size()
    ensures PieceStart(m, i) == i * m.pieceLen
    ensures PieceStart(m, i + 1) == i * m.pieceLen + m.PieceLen(i)
  {
    PieceBoundsWidth(m, i);
    assert (i + 1) * m.pieceLen == i * m.pieceLen + m.pieceLen;
  }

  lemma {:induction false} AllBlocksTile(m: MetaInfo, i: nat, k: nat)
    requires m.Valid() && i <= k && (k == 0 || (k - 1) * m.pieceLen <= m.Size())
    ensures Tiles(m.RangesOf(m.AllBlocks(i, k)), PieceStart(m, i), PieceStart(m, k))
    decreases k - i
  {
    if i < k {
      AllBlocksTile(m, i + 1, k);
      BlocksTilePiece(m, i);
      Monotone(i, k - 1, m.pieceLen);
      PieceStartNext(m, i);
      TilesAppend(m.RangesOf(m.Blocks(i)), m.RangesOf(m.AllBlocks(i + 1, k)),
                  PieceStart(m, i), PieceStart(m, i + 1), PieceStart(m, k));
      RangesOfAppend(m, m.Blocks(i), m.AllBlocks(i + 1, k));
    }
  }

  lemma Monotone(i: nat, j: nat, d: nat)
    requires i <= j
    ensures i * d <= j * d
  {
  }

  lemma RangesOfAppend(m: MetaInfo, bs: seq<Ibl>, cs: seq<Ibl>)
    ensures m.RangesOf(bs + cs) == m.RangesOf(bs) + m.RangesOf(cs)
  {
  }

  lemma {:induction false} BlockIsQueued(m: MetaInfo, i: nat, k: nat, p: nat) returns (j: nat)
    requires m.Valid() && i <= p < k && m.NumBlocksInPiece(p) > 0
    ensures j < |m.AllBlocks(i, k)| && m.AllBlocks(i, k)[j] == m.Block(p, 0)
    decreases k - i
  {
    if i == p {
      j := 0;
    } else {
      j := BlockIsQueued(m, i + 1, k, p);
      j := j + |m.Blocks(i)|;
    }
  }

  /** Queueing pieces 0..k-1 partitions the file into blocks exactly for the right k. The right k is the piece
      count, or one more when the last piece is full, because the extra piece then has length 0 and no block. */
  lemma BlocksPartitionFile(m: MetaInfo, k: nat)
    requires m.Valid()
    ensures Tiles(m.RangesOf(m.AllBlocks(0, k)), 0, m.Size())
            <==> k == m.PieceCount() || (k == m.PieceCount() + 1 && m.Size() % m.pieceLen == 0)
  {
    PieceInside(m, k);
    CeilDivExact(m.Size(), m.pieceLen, m.PieceCount());
    if k == 0 || (k - 1) * m.pieceLen <= m.Size() {
      if k > 0 {
        FewPieces(m, k);
      }
      AllBlocksTile(m, 0, k);
      if Tiles(m.RangesOf(m.AllBlocks(0, k)), 0, m.Size()) {
        TilesEndIsUnique(m.RangesOf(m.AllBlocks(0, k)), 0, m.Size(), PieceStart(m, k));
      }
    } else {
      FewPieces(m, k);
      if Tiles(m.RangesOf(m.AllBlocks(0, k)), 0, m.Size()) {
        PieceBoundsWidth(m, k - 1);
        DivMod(m.Size(), m.pieceLen, k - 1);
        var j := BlockIsQueued(m, 0, k, k - 1);
        TilesInside(m.RangesOf(m.AllBlocks(0, k)), 0, m.Size(), j);
      }
    }
  }

  lemma FewPieces(m: MetaInfo, k: nat)
    requires m.Valid() && k > 0
    ensures (k - 1) * m.pieceLen <= m.Size()
            <==> k <= m.PieceCount() || (k == m.PieceCount() + 1 && m.Size() % m.pieceLen == 0)
  {
    var n := m.PieceCount();
    CeilDiv(m.Size(), m.pieceLen, n, k - 1);
    CeilDivExact(m.Size(), m.pieceLen, n);
    if k >= n + 2 {
      CeilDiv(m.Size(), m.pieceLen, n, k - 2);
      assert (k - 1) * m.pieceLen == (k - 2) * m.pieceLen + m.pieceLen;
    }
  }
}
