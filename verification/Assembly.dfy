/** Assembling the file: pieces arrive in any order, and each is written by its own goroutine. */
module Assembly {
  import opened MetaInfo
  import opened Bytes

  datatype Piece = Piece(index: nat, buf: seq<byte>)

  datatype Verdict = AllStarted | Incomplete | Blocked

  /** The receive loop of Start. It starts one write per piece, and gives up at the first piece of the wrong length. */
  method ReceivePieces(m: MetaInfo, arrivals: seq<Piece>) returns (started: seq<Piece>, verdict: Verdict)
    requires m.Valid()
    ensures started <= arrivals
    ensures forall p :: p in started ==> |p.buf| == m.PieceLen(p.index)
    ensures verdict.AllStarted? <==> |started| == |m.piecesHash|
    ensures verdict.Incomplete? ==>
            |started| < |arrivals| && |arrivals[|started|].buf| != m.PieceLen(arrivals[|started|].index)
    ensures verdict.Blocked? ==> started == arrivals
  {
    started := [];
    for i := 0 to |m.piecesHash|
      invariant i <= |arrivals| && started == arrivals[..i]
      invariant forall p :: p in started ==> |p.buf| == m.PieceLen(p.index)
    {
      if i == |arrivals| {
        return started, Blocked;
      }
      var p := arrivals[i];
      if |p.buf| != m.PieceLen(p.index) {
        return started, Incomplete;
      }
      started := started + [p];
    }
    verdict := AllStarted;
  }

  /** Writing data at an offset: the file grows as needed, and a gap before the offset reads as zeros. */
  function WriteAt(file: seq<byte>, pos: nat, data: seq<byte>): (r: seq<byte>)
    ensures data != [] ==> |r| == if |file| > pos + |data| then |file| else pos + |data|
    ensures forall x :: 0 <= x < |r| ==>
              r[x] == if pos <= x < pos + |data| then data[x - pos] else if x < |file| then file[x] else 0
  {
    if data == [] then file
    else
      seq(if |file| > pos + |data| then |file| else pos + |data|, x requires 0 <= x =>
        if pos <= x < pos + |data| then data[x - pos] else if x < |file| then file[x] else 0)
  }

  /** A goroutine that has written the first done bytes of its piece. */
  datatype Writer = Writer(piece: Piece, done: nat)

  datatype State = State(writers: seq<Writer>, file: seq<byte>)

  /** A piece arrives and its goroutine starts, or goroutine j writes its next n bytes. */
  datatype Event = Launch(piece: Piece) | Progress(j: nat, n: nat)

  ghost predicate Enabled(s: State, e: Event) {
    e.Progress? ==> e.j < |s.writers| && s.writers[e.j].done + e.n <= |s.writers[e.j].piece.buf|
  }

  ghost function Step(m: MetaInfo, s: State, e: Event): State
    requires m.Valid() && Enabled(s, e)
  {
    match e
    case Launch(p) => State(s.writers + [Writer(p, 0)], s.file)
    case Progress(j, n) =>
      var w := s.writers[j];
      State(s.writers[j := Writer(w.piece, w.done + n)],
            WriteAt(s.file, w.piece.index * m.pieceLen + w.done, w.piece.buf[w.done..w.done + n]))
  }

  ghost predicate LegalRun(m: MetaInfo, s: State, es: seq<Event>)
    requires m.Valid()
    decreases |es|
  {
    es == [] || (Enabled(s, es[0]) && LegalRun(m, Step(m, s, es[0]), es[1..]))
  }

  ghost function After(m: MetaInfo, s: State, es: seq<Event>): State
    requires m.Valid() && LegalRun(m, s, es)
    decreases |es|
  {
    if es == [] then s else After(m, Step(m, s, es[0]), es[1..])
  }

  /** bufs holds the contents of every piece of the torrent, in order. */
  ghost predicate Contents(m: MetaInfo, bufs: seq<seq<byte>>) {
    m.Valid() && |bufs| == m.PieceCount() && forall i :: 0 <= i < |bufs| ==> |bufs[i]| == m.PieceLen(i)
  }

  lemma {:induction false} FlattenLength(m: MetaInfo, bufs: seq<seq<byte>>, k: nat)
    requires Contents(m, bufs) && k <= |bufs|
    ensures |Flatten(bufs[..k])| == PieceStart(m, k)
  {
    if k == 0 {
      assert 0 * m.pieceLen == 0;
    } else {
      FlattenLength(m, bufs, k - 1);
      PieceInside(m, k - 1);
      PieceStartNext(m, k - 1);
      assert bufs[..k][..k - 1] == bufs[..k - 1];
    }
  }

  /** Byte o of piece i, with at the position at which that piece begins. */
  lemma {:induction false} FlattenByte(m: MetaInfo, bufs: seq<seq<byte>>, k: nat, i: nat, o: nat, at: nat)
    requires Contents(m, bufs) && i < k <= |bufs| && o < |bufs[i]| && at == i * m.pieceLen
    ensures at + o < |Flatten(bufs[..k])| && Flatten(bufs[..k])[at + o] == bufs[i][o]
    decreases k
  {
    assert bufs[..k][..k - 1] == bufs[..k - 1];
    if i == k - 1 {
      FlattenLength(m, bufs, i);
      PieceInside(m, i);
      PieceStartNext(m, i);
    } else {
      FlattenByte(m, bufs, k - 1, i, o, at);
    }
  }

  lemma FlattenPieces(m: MetaInfo, bufs: seq<seq<byte>>, i: nat, o: nat)
    requires Contents(m, bufs) && i < |bufs| && o < |bufs[i]|
    ensures i * m.pieceLen + o < |Flatten(bufs)| && Flatten(bufs)[i * m.pieceLen + o] == bufs[i][o]
  {
    FlattenByte(m, bufs, |bufs|, i, o, i * m.pieceLen);
    assert bufs[..|bufs|] == bufs;
  }

  ghost predicate Genuine(bufs: seq<seq<byte>>, p: Piece) {
    p.index < |bufs| && p.buf == bufs[p.index]
  }

  /** Every byte written so far is the byte that belongs there. */
  ghost predicate Inv(m: MetaInfo, bufs: seq<seq<byte>>, s: State)
    requires Contents(m, bufs)
  {
    && |s.file| <= m.Size() == |Flatten(bufs)|
    && (forall j :: 0 <= j < |s.writers| ==>
        Genuine(bufs, s.writers[j].piece) && s.writers[j].done <= |s.writers[j].piece.buf|)
    && (forall j, o :: 0 <= j < |s.writers| && 0 <= o < s.writers[j].done ==>
          Placed(s.file, s.writers[j].piece.index * m.pieceLen + o, s.writers[j].piece.buf[o]))
  }

  ghost predicate Arrived(ws: seq<Writer>, i: int) {
    exists j :: 0 <= j < |ws| && ws[j].piece.index == i
  }

  ghost predicate Placed(file: seq<byte>, x: int, b: int) {
    0 <= x < |file| && file[x] == b
  }

  /** Distinct places in the pieces are distinct places in the file. */
  lemma SamePlace(m: MetaInfo, bufs: seq<seq<byte>>, i: nat, o: nat, i': nat, o': nat)
    requires Contents(m, bufs) && i < |bufs| && i' < |bufs| && o < |bufs[i]| && o' < |bufs[i']|
    requires i * m.pieceLen + o == i' * m.pieceLen + o'
    ensures bufs[i][o] == bufs[i'][o']
  {
    FlattenPieces(m, bufs, i, o);
    FlattenPieces(m, bufs, i', o');
  }

  /** A write of a part of a piece stays inside the file. */
  lemma WriteFits(m: MetaInfo, bufs: seq<seq<byte>>, w: Writer, n: nat)
    requires Contents(m, bufs) && Genuine(bufs, w.piece) && w.done + n <= |w.piece.buf|
    ensures w.piece.index * m.pieceLen + w.done + n <= m.Size()
  {
    PieceInside(m, w.piece.index);
    PieceBoundsWidth(m, w.piece.index);
  }

  /** What has been written anywhere is still there after a write, or has been written again with the same byte. */
  lemma StillPlaced(m: MetaInfo, bufs: seq<seq<byte>>, file: seq<byte>, w: Writer, n: nat, p: Piece, o: nat)
    requires Contents(m, bufs) && Genuine(bufs, w.piece) && w.done + n <= |w.piece.buf| && Genuine(bufs, p)
    requires o < |p.buf|
    requires Placed(file, p.index * m.pieceLen + o, p.buf[o]) || (p == w.piece && w.done <= o < w.done + n)
    ensures Placed(WriteAt(file, w.piece.index * m.pieceLen + w.done, w.piece.buf[w.done..w.done + n]),
            p.index * m.pieceLen + o, p.buf[o])
  {
    var start, x := w.piece.index * m.pieceLen, p.index * m.pieceLen + o;
    var bytes := w.piece.buf[w.done..w.done + n];
    if start + w.done <= x < start + w.done + n {
      SamePlace(m, bufs, p.index, o, w.piece.index, x - start);
      assert bytes[x - start - w.done] == p.buf[o];
    }
    ByteStays(file, start + w.done, bytes, x, p.buf[o]);
  }

  lemma ByteStays(file: seq<byte>, at: nat, bytes: seq<byte>, x: int, b: byte)
    requires if at <= x < at + |bytes| then bytes[x - at] == b else Placed(file, x, b)
    ensures Placed(WriteAt(file, at, bytes), x, b)
  {
  }

  lemma WriteKeepsInv(m: MetaInfo, bufs: seq<seq<byte>>, s: State, j: nat, n: nat)
    requires Contents(m, bufs) && Inv(m, bufs, s) && Enabled(s, Progress(j, n))
    ensures Inv(m, bufs, Step(m, s, Progress(j, n)))
  {
    var s', w := Step(m, s, Progress(j, n)), s.writers[j];
    WriteFits(m, bufs, w, n);
    forall k, o | 0 <= k < |s'.writers| && 0 <= o < s'.writers[k].done
      ensures Placed(s'.file, s'.writers[k].piece.index * m.pieceLen + o, s'.writers[k].piece.buf[o])
    {
      var v := s.writers[k];
      assert o < v.done ==> Placed(s.file, v.piece.index * m.pieceLen + o, v.piece.buf[o]);
      StillPlaced(m, bufs, s.file, w, n, v.piece, o);
    }
  }

  lemma {:induction false} RunKeepsInv(m: MetaInfo, bufs: seq<seq<byte>>, s: State, es: seq<Event>)
    requires Contents(m, bufs) && Inv(m, bufs, s) && LegalRun(m, s, es)
    requires forall e :: e in es && e.Launch? ==> Genuine(bufs, e.piece)
    ensures Inv(m, bufs, After(m, s, es))
    decreases |es|
  {
    if es != [] {
      if es[0].Progress? {
        WriteKeepsInv(m, bufs, s, es[0].j, es[0].n);
      } else {
        assert forall k :: 0 <= k < |s.writers| ==> Step(m, s, es[0]).writers[k] == s.writers[k];
      }
      RunKeepsInv(m, bufs, Step(m, s, es[0]), es[1..]);
    }
  }

  lemma ByteInPiece(m: MetaInfo, x: nat) returns (i: nat, o: nat)
    requires m.Valid() && x < m.Size()
    ensures i < m.PieceCount() && o < m.PieceLen(i) && x == i * m.pieceLen + o
  {
    i := x / m.pieceLen;
    DivMod(x, m.pieceLen, i);
    PieceInside(m, i);
    PiecesTile(m, i);
    PieceBoundsWidth(m, i);
    assert (i + 1) * m.pieceLen == i * m.pieceLen + m.pieceLen;
    o := x - i * m.pieceLen;
  }

  /** Every piece has arrived, and every goroutine has written the whole of its piece. */
  ghost predicate Complete(bufs: seq<seq<byte>>, s: State) {
    && (forall j :: 0 <= j < |s.writers| ==> s.writers[j].done == |s.writers[j].piece.buf|)
    && (forall i :: 0 <= i < |bufs| ==> Arrived(s.writers, i))
  }

  /** The pieces of a run that start a goroutine, in order. */
  function Launched(es: seq<Event>): seq<Piece> {
    if es == [] then [] else (if es[0].Launch? then [es[0].piece] else []) + Launched(es[1..])
  }

  ghost function Pieces(ws: seq<Writer>): (ps: seq<Piece>)
    ensures |ps| == |ws| && forall j :: 0 <= j < |ws| ==> ps[j] == ws[j].piece
  {
    seq(|ws|, j requires 0 <= j < |ws| => ws[j].piece)
  }

  lemma {:induction false} WritersAreLaunched(m: MetaInfo, s: State, es: seq<Event>)
    requires m.Valid() && LegalRun(m, s, es)
    ensures Pieces(After(m, s, es).writers) == Pieces(s.writers) + Launched(es)
    decreases |es|
  {
    if es != [] {
      var s' := Step(m, s, es[0]);
      WritersAreLaunched(m, s', es[1..]);
      assert Pieces(s'.writers) == Pieces(s.writers) + if es[0].Launch? then [es[0].piece] else [];
    }
  }

  ghost predicate Distinct(ns: seq<nat>) {
    forall j, k :: 0 <= j < k < |ns| ==> ns[j] != ns[k]
  }

  ghost predicate Covers(ns: seq<nat>, n: nat) {
    forall i :: 0 <= i < n ==> i in ns
  }

  ghost function Below(n: nat): (s: set<nat>)
    ensures |s| == n && forall i :: i in s <==> 0 <= i < n
  {
    if n == 0 then {} else Below(n - 1) + {n - 1}
  }

  ghost function Elems(ns: seq<nat>): (s: set<nat>)
    ensures forall i :: i in s <==> i in ns
  {
    if ns == [] then {} else Elems(ns[..|ns| - 1]) + {ns[|ns| - 1]}
  }

  lemma {:induction false} ElemsCount(ns: seq<nat>)
    ensures |Elems(ns)| <= |ns| && (|Elems(ns)| == |ns| <==> Distinct(ns))
  {
    if ns != [] {
      var front, last := ns[..|ns| - 1], ns[|ns| - 1];
      ElemsCount(front);
      assert |Elems(ns)| == |Elems(front)| + if last in front then 0 else 1 by {
        assert ns == front + [last];
        ElemsLast(front, last, ns);
      }
      assert Distinct(ns) <==> Distinct(front) && last !in front by {
        assert ns == front + [last];
        DistinctLast(front, last);
      }
    }
  }

  lemma ElemsLast(front: seq<nat>, last: nat, ns: seq<nat>)
    requires ns == front + [last]
    ensures |Elems(ns)| == |Elems(front)| + if last in front then 0 else 1
  {
    assert ns[..|ns| - 1] == front && ns[|ns| - 1] == last;
    if last in front {
      assert Elems(front) + {last} == Elems(front);
    }
  }

  lemma DistinctLast(front: seq<nat>, last: nat)
    ensures Distinct(front + [last]) <==> Distinct(front) && last !in front
  {
    var ns := front + [last];
    if Distinct(ns) {
      forall j, k | 0 <= j < k < |front| ensures front[j] != front[k] {
        assert ns[j] == front[j] && ns[k] == front[k];
      }
      forall j | 0 <= j < |front| ensures front[j] != last {
        assert ns[j] == front[j] && ns[|front|] == last;
      }
    }
  }

  lemma SubsetOfSize(s: set<nat>, t: set<nat>)
    requires s <= t
    ensures |s| <= |t| && (|s| == |t| ==> s == t)
  {
    assert t == s + (t - s);
  }

  /** n numbers below n are all of them if and only if none occurs twice. */
  lemma CoversIff(ns: seq<nat>, n: nat)
    requires |ns| == n && forall i :: i in ns ==> i < n
    ensures Covers(ns, n) <==> Distinct(ns)
  {
    ElemsCount(ns);
    SubsetOfSize(Elems(ns), Below(n));
    if Covers(ns, n) {
      SubsetOfSize(Below(n), Elems(ns));
    } else {
      var i :| 0 <= i < n && i !in ns;
      assert i in Below(n) && i !in Elems(ns);
    }
  }

  function Indices(ps: seq<Piece>): (ns: seq<nat>)
    ensures |ns| == |ps| && forall j :: 0 <= j < |ps| ==> ns[j] == ps[j].index
  {
    seq(|ps|, j requires 0 <= j < |ps| => ps[j].index)
  }

  /** The receive loop counts pieces. When it has started as many writes as there are pieces, and these have finished,
      then every piece has been written if and only if none has arrived twice. */
  lemma EnoughIsCompleteIff(m: MetaInfo, bufs: seq<seq<byte>>, es: seq<Event>)
    requires Contents(m, bufs) && LegalRun(m, State([], []), es) && |Launched(es)| == |m.piecesHash| == |bufs|
    requires forall p :: p in Launched(es) ==> p.index < |bufs|
    requires forall w :: w in After(m, State([], []), es).writers ==> w.done == |w.piece.buf|
    ensures Complete(bufs, After(m, State([], []), es)) <==> Distinct(Indices(Launched(es)))
  {
    var s := After(m, State([], []), es);
    WritersAreLaunched(m, State([], []), es);
    assert Pieces(s.writers) == Launched(es);
    AllDone(bufs, s);
    CoversIff(Indices(Launched(es)), |bufs|);
  }

  lemma AllDone(bufs: seq<seq<byte>>, s: State)
    requires forall w :: w in s.writers ==> w.done == |w.piece.buf|
    ensures Complete(bufs, s) <==> Covers(Indices(Pieces(s.writers)), |bufs|)
  {
    ArrivedIff(s.writers);
    assert forall j :: 0 <= j < |s.writers| ==> s.writers[j] in s.writers;
  }

  lemma ArrivedIff(ws: seq<Writer>)
    ensures forall i: nat :: Arrived(ws, i) <==> i in Indices(Pieces(ws))
  {
    forall i: nat | Arrived(ws, i) ensures i in Indices(Pieces(ws)) {
      var j :| 0 <= j < |ws| && ws[j].piece.index == i;
      assert Indices(Pieces(ws))[j] == i;
    }
  }

  lemma ByteIsPlaced(m: MetaInfo, bufs: seq<seq<byte>>, s: State, x: nat)
    requires Contents(m, bufs) && Inv(m, bufs, s) && Complete(bufs, s) && x < m.Size()
    ensures Placed(s.file, x, Flatten(bufs)[x])
  {
    var i, o := ByteInPiece(m, x);
    FlattenPieces(m, bufs, i, o);
    assert Arrived(s.writers, i);
    var j :| 0 <= j < |s.writers| && s.writers[j].piece.index == i;
    assert Placed(s.file, s.writers[j].piece.index * m.pieceLen + o, s.writers[j].piece.buf[o]);
  }

  lemma CompleteFile(m: MetaInfo, bufs: seq<seq<byte>>, s: State)
    requires Contents(m, bufs) && Inv(m, bufs, s) && Complete(bufs, s)
    ensures s.file == Flatten(bufs)
  {
    forall x | 0 <= x < m.Size() ensures Placed(s.file, x, Flatten(bufs)[x]) {
      ByteIsPlaced(m, bufs, s, x);
    }
    if m.Size() > 0 {
      assert Placed(s.file, m.Size() - 1, Flatten(bufs)[m.Size() - 1]);
    }
  }

  /** For every arrival order and every interleaving of the writes, once every piece has arrived and every goroutine has
      finished, the file is the concatenation of the pieces in order. */
  lemma AssemblyIsScheduleIndependent(m: MetaInfo, bufs: seq<seq<byte>>, es: seq<Event>)
    requires Contents(m, bufs) && LegalRun(m, State([], []), es)
    requires forall e :: e in es && e.Launch? ==> Genuine(bufs, e.piece)
    requires Complete(bufs, After(m, State([], []), es))
    ensures After(m, State([], []), es).file == Flatten(bufs)
  {
    FlattenLength(m, bufs, |bufs|);
    PieceInside(m, |bufs|);
    assert bufs[..|bufs|] == bufs;
    RunKeepsInv(m, bufs, State([], []), es);
    CompleteFile(m, bufs, After(m, State([], []), es));
  }
}
