/** The requested/received bookkeeping of a download and the reset that starts a new round of requests. */
module Pieces {
  import opened MetaInfo

  type Rows = seq<seq<bool>>

  datatype Matrix = Matrix(reqd: Rows, recvd: Rows)

  ghost predicate SameShape(r: Rows, s: Rows) {
    |r| == |s| && forall i :: 0 <= i < |r| ==> |r[i]| == |s[i]|
  }

  ghost predicate Shaped(mx: Matrix) {
    SameShape(mx.reqd, mx.recvd)
  }

  ghost predicate Within(i: int, b: int, r: Rows) {
    0 <= i < |r| && 0 <= b < |r[i]|
  }

  ghost predicate Full(r: Rows) {
    forall i, b :: Within(i, b, r) ==> r[i][b]
  }

  function Mark(r: Rows, i: nat, b: nat): Rows
    requires i < |r| && b < |r[i]|
  {
    r[i := r[i][b := true]]
  }

  /** What needed does first: when every block has been requested, start again from the received ones. */
  ghost function Refresh(mx: Matrix): Matrix {
    if Full(mx.reqd) then mx.(reqd := mx.recvd) else mx
  }

  ghost predicate Needed(mx: Matrix, i: int, b: int)
    requires Shaped(mx) && Within(i, b, mx.reqd)
  {
    !Refresh(mx).reqd[i][b]
  }

  ghost function Blank(m: MetaInfo): Rows
    requires m.Valid()
  {
    seq(|m.piecesHash|, i requires 0 <= i < |m.piecesHash| => seq(m.NumBlocksInPiece(i), b => false))
  }

  class PiecesState {
    var reqd: seq<array<bool>>
    var recvd: seq<array<bool>>

    static ghost function RowsOf(a: seq<array<bool>>): (r: Rows)
      reads a
      ensures |r| == |a| && forall i :: 0 <= i < |a| ==> r[i] == a[i][..]
    {
      if a == [] then [] else RowsOf(a[..|a| - 1]) + [a[|a| - 1][..]]
    }

    ghost function View(): Matrix
      reads this, reqd, recvd
    {
      Matrix(RowsOf(reqd), RowsOf(recvd))
    }

    /** No two rows share storage: in particular no received row is also a requested row. */
    ghost predicate Valid()
      reads this, reqd, recvd
    {
      && Shaped(View())
      && (forall i, j :: 0 <= i < j < |reqd| ==> reqd[i] != reqd[j])
      && (forall i, j :: 0 <= i < j < |recvd| ==> recvd[i] != recvd[j])
      && (forall i, j :: 0 <= i < |reqd| && 0 <= j < |recvd| ==> reqd[i] != recvd[j])
    }

    /** One row of unset flags per piece, one flag per block of it. */
    static method MakeRows(m: MetaInfo) returns (rows: seq<array<bool>>)
      requires m.Valid()
      ensures RowsOf(rows) == Blank(m)
      ensures forall i :: 0 <= i < |rows| ==> fresh(rows[i])
      ensures forall i, j :: 0 <= i < j < |rows| ==> rows[i] != rows[j]
    {
      rows := [];
      for i := 0 to |m.piecesHash|
        invariant |rows| == i
        invariant forall k :: 0 <= k < i ==> fresh(rows[k]) && rows[k][..] == Blank(m)[k]
        invariant forall k, l :: 0 <= k < l < i ==> rows[k] != rows[l]
      {
        var row := new bool[m.NumBlocksInPiece(i)](_ => false);
        assert row[..] == Blank(m)[i];
        rows := rows + [row];
      }
    }

    constructor (m: MetaInfo)
      requires m.Valid()
      ensures Valid()
      ensures View() == Matrix(Blank(m), Blank(m))
    {
      var req := MakeRows(m);
      var rcv := MakeRows(m);
      reqd, recvd := req, rcv;
      new;
      ShapedAlike(m);
    }

    /** Two sets of rows of the same shape, with no storage shared. */
    lemma ShapedAlike(m: MetaInfo)
      requires m.Valid() && (forall i, j :: 0 <= i < j < |reqd| ==> reqd[i] != reqd[j])
      requires forall i, j :: 0 <= i < j < |recvd| ==> recvd[i] != recvd[j]
      requires forall i, j :: 0 <= i < |reqd| && 0 <= j < |recvd| ==> reqd[i] != recvd[j]
      requires RowsOf(reqd) == Blank(m) == RowsOf(recvd)
      ensures Valid() && View() == Matrix(Blank(m), Blank(m))
    {
    }

    method AssertReqd(piece: Ibl)
      requires Valid() && Within(piece.index, piece.begin / BLOCK_LEN, View().reqd)
      modifies reqd
      ensures reqd == old(reqd) && recvd == old(recvd) && Valid()
      ensures View() == old(View()).(reqd := Mark(old(View()).reqd, piece.index, piece.begin / BLOCK_LEN))
    {
      reqd[piece.index][piece.begin / BLOCK_LEN] := true;
    }

    method AssertRecvd(index: nat, begin: nat)
      requires Valid() && Within(index, begin / BLOCK_LEN, View().recvd)
      modifies recvd
      ensures reqd == old(reqd) && recvd == old(recvd) && Valid()
      ensures View() == old(View()).(recvd := Mark(old(View()).recvd, index, begin / BLOCK_LEN))
    {
      recvd[index][begin / BLOCK_LEN] := true;
    }

    method PieceDone(index: nat) returns (done: bool)
      requires Valid() && index < |recvd|
      ensures done <==> forall b :: 0 <= b < |View().recvd[index]| ==> View().recvd[index][b]
    {
      for b := 0 to recvd[index].Length
        invariant forall k :: 0 <= k < b ==> recvd[index][k]
      {
        if !recvd[index][b] {
          return false;
        }
      }
      return true;
    }

    method IsDone() returns (done: bool)
      requires Valid()
      ensures done <==> Full(View().recvd)
    {
      done := AllSet(recvd);
    }

    /** The scan over all the blocks of all the pieces, stopping at the first that is not set. */
    static method AllSet(rows: seq<array<bool>>) returns (all: bool)
      ensures all <==> Full(RowsOf(rows))
    {
      for i := 0 to |rows|
        invariant forall k, b :: 0 <= k < i && Within(k, b, RowsOf(rows)) ==> RowsOf(rows)[k][b]
      {
        for b := 0 to rows[i].Length
          invariant forall c :: 0 <= c < b ==> rows[i][c]
        {
          if !rows[i][b] {
            assert Within(i, b, RowsOf(rows));
            return false;
          }
        }
      }
      return true;
    }

    /** A new row with the contents of row, so that the two are not linked. */
    static method CopyRow(row: array<bool>) returns (copy: array<bool>)
      ensures fresh(copy) && copy[..] == row[..]
    {
      copy := new bool[row.Length];
      forall b | 0 <= b < row.Length {
        copy[b] := row[b];
      }
    }

    /** The re-request reset: every requested row becomes a copy of the received row. */
    method Reset()
      requires Valid()
      modifies this`reqd
      ensures Valid() && recvd == old(recvd)
      ensures View() == old(View()).(reqd := old(View()).recvd)
      ensures forall k :: 0 <= k < |reqd| ==> fresh(reqd[k])
    {
      for i := 0 to |recvd|
        invariant |reqd| == |recvd|
        invariant forall k :: 0 <= k < i ==> fresh(reqd[k]) && reqd[k][..] == recvd[k][..]
        invariant forall k, l :: 0 <= k < l < i ==> reqd[k] != reqd[l]
      {
        var row := CopyRow(recvd[i]);
        reqd := reqd[i := row];
      }
      assert RowsOf(reqd) == RowsOf(recvd);
    }

    method IsNeeded(piece: Ibl) returns (need: bool)
      requires Valid() && Within(piece.index, piece.begin / BLOCK_LEN, View().reqd)
      modifies this`reqd
      ensures Valid() && recvd == old(recvd)
      ensures View() == Refresh(old(View()))
      ensures need == Needed(old(View()), piece.index, piece.begin / BLOCK_LEN)
      ensures reqd == old(reqd) || forall k :: 0 <= k < |reqd| ==> fresh(reqd[k])
    {
      var allReqd := AllSet(reqd);
      if allReqd {
        Reset();
      }
      need := !reqd[piece.index][piece.begin / BLOCK_LEN];
    }
  }

  /** A block is still needed exactly when not everything has been both requested and received. */
  lemma SomeBlockNeeded(mx: Matrix)
    requires Shaped(mx)
    ensures (exists i, b :: Within(i, b, mx.reqd) && Needed(mx, i, b)) <==> !(Full(mx.reqd) && Full(mx.recvd))
  {
    if Full(mx.reqd) {
      if !Full(mx.recvd) {
        var i, b :| Within(i, b, mx.recvd) && !mx.recvd[i][b];
        assert Within(i, b, mx.reqd) && Needed(mx, i, b);
      }
    } else {
      var i, b :| Within(i, b, mx.reqd) && !mx.reqd[i][b];
      assert Needed(mx, i, b);
    }
  }

  lemma RefreshTwice(mx: Matrix)
    ensures Refresh(Refresh(mx)) == Refresh(mx)
  {
  }

  /** What happens to the bookkeeping: a peer's queue offers a block, or a block arrives. */
  datatype Event = Offer(i: nat, b: nat) | Arrive(i: nat, b: nat)

  /** A request that was sent, and the round of requests it belongs to. */
  datatype Issue = Issue(i: nat, b: nat, epoch: nat)

  /** A run: the bookkeeping, all requests so far, and for each round what had been received when it began. */
  datatype Run = Run(mx: Matrix, log: seq<Issue>, starts: seq<Rows>)

  ghost function Start(rows: Rows): Run {
    Run(Matrix(rows, rows), [], [rows])
  }

  ghost predicate Legal(r: Run, e: Event) {
    Within(e.i, e.b, r.mx.reqd)
  }

  ghost predicate WellShaped(r: Run) {
    && Shaped(r.mx) && r.starts != []
    && forall k :: 0 <= k < |r.starts| ==> SameShape(r.starts[k], r.mx.reqd)
  }

  /** One step: needed, then assertReqd if it says yes; or assertRecvd. */
  ghost function Step(r: Run, e: Event): Run
    requires WellShaped(r) && Legal(r, e)
  {
    match e
    case Offer(i, b) => if Refreshed(r).mx.reqd[i][b] then Refreshed(r) else Requested(Refreshed(r), i, b)
    case Arrive(i, b) => Received(r, i, b)
  }

  /** A new round begins if everything has been requested. */
  ghost function Refreshed(r: Run): Run {
    Run(Refresh(r.mx), r.log, if Full(r.mx.reqd) then r.starts + [r.mx.recvd] else r.starts)
  }

  ghost function Requested(r: Run, i: nat, b: nat): Run
    requires Within(i, b, r.mx.reqd) && r.starts != []
  {
    Run(r.mx.(reqd := Mark(r.mx.reqd, i, b)), r.log + [Issue(i, b, |r.starts| - 1)], r.starts)
  }

  ghost function Received(r: Run, i: nat, b: nat): Run
    requires Within(i, b, r.mx.recvd)
  {
    r.(mx := r.mx.(recvd := Mark(r.mx.recvd, i, b)))
  }

  ghost predicate LegalRun(r: Run, es: seq<Event>)
    requires WellShaped(r)
    decreases |es|
  {
    es == [] || (Legal(r, es[0]) && LegalRun(Step(r, es[0]), es[1..]))
  }

  ghost function After(r: Run, es: seq<Event>): Run
    requires WellShaped(r) && LegalRun(r, es)
    decreases |es|
  {
    if es == [] then r else After(Step(r, es[0]), es[1..])
  }

  /** The rows r are below s: whatever is set in r is set in s. */
  ghost predicate Below(r: Rows, s: Rows) {
    SameShape(r, s) && forall i, b :: Within(i, b, r) && r[i][b] ==> s[i][b]
  }

  ghost predicate RunInv(r: Run) {
    && WellShaped(r)
    // within the current round, requested = received when the round began, or requested since
    && (forall i, b :: Within(i, b, r.mx.reqd) ==>
          (r.mx.reqd[i][b] <==> r.starts[|r.starts| - 1][i][b] || Issue(i, b, |r.starts| - 1) in r.log))
    // every request belongs to a round, and asks for a block that was missing when that round began
    && (forall q :: q in r.log ==> q.epoch < |r.starts| && Within(q.i, q.b, r.mx.reqd) && !r.starts[q.epoch][q.i][q.b])
    // no block is requested twice in one round
    && (forall k, l :: 0 <= k < l < |r.log| ==> r.log[k] != r.log[l])
    && (forall k :: 0 <= k < |r.starts| ==> Below(r.starts[k], r.mx.recvd))
  }

  lemma StartHasInv(rows: Rows)
    ensures RunInv(Start(rows))
  {
  }

  lemma RefreshedKeepsInv(r: Run)
    requires RunInv(r)
    ensures RunInv(Refreshed(r))
  {
    var r' := Refreshed(r);
    assert forall k :: 0 <= k < |r.starts| ==> r'.starts[k] == r.starts[k];
    if Full(r.mx.reqd) {
      var n := |r.starts|;
      forall i, b | Within(i, b, r'.mx.reqd)
          ensures r'.mx.reqd[i][b] <==> r'.starts[n][i][b] || Issue(i, b, n) in r'.log {
        assert Issue(i, b, n) !in r.log;
      }
    }
  }

  lemma RequestedKeepsInv(r: Run, i: nat, b: nat)
    requires RunInv(r) && Within(i, b, r.mx.reqd) && !r.mx.reqd[i][b]
    ensures RunInv(Requested(r, i, b))
  {
    var r', n := Requested(r, i, b), |r.starts| - 1;
    assert Issue(i, b, n) !in r.log;
    forall j, c | Within(j, c, r'.mx.reqd)
        ensures r'.mx.reqd[j][c] <==> r'.starts[n][j][c] || Issue(j, c, n) in r'.log {
      assert Within(j, c, r.mx.reqd);
    }
  }

  lemma ReceivedKeepsInv(r: Run, i: nat, b: nat)
    requires RunInv(r) && Within(i, b, r.mx.recvd)
    ensures RunInv(Received(r, i, b)) && Below(r.mx.recvd, Received(r, i, b).mx.recvd)
  {
  }

  lemma StepKeepsInv(r: Run, e: Event)
    requires RunInv(r) && Legal(r, e)
    ensures RunInv(Step(r, e))
    ensures Below(r.mx.recvd, Step(r, e).mx.recvd)
  {
    match e
    case Offer(i, b) =>
      RefreshedKeepsInv(r);
      if !Refreshed(r).mx.reqd[i][b] {
        RequestedKeepsInv(Refreshed(r), i, b);
      }
    case Arrive(i, b) => ReceivedKeepsInv(r, i, b);
  }

  /** Over every run: rounds never repeat a request, each round asks only for what was missing
      when it began, and what was received stays received. */
  lemma {:induction false} RequestsOncePerRound(r: Run, es: seq<Event>)
    requires RunInv(r) && LegalRun(r, es)
    ensures var log := After(r, es).log;
            forall k, l :: 0 <= k < l < |log| ==> log[k] != log[l]
    ensures forall q :: q in After(r, es).log ==>
              q.epoch < |After(r, es).starts| && Within(q.i, q.b, After(r, es).starts[q.epoch]) &&
              !After(r, es).starts[q.epoch][q.i][q.b]
    ensures RunInv(After(r, es)) && Below(r.mx.recvd, After(r, es).mx.recvd)
    decreases |es|
  {
    if es != [] {
      StepKeepsInv(r, es[0]);
      RequestsOncePerRound(Step(r, es[0]), es[1..]);
    }
  }

  /** So it is for the bookkeeping of a torrent, from the moment it is set up: over every run no block is requested
      twice in a round, and each round requests only what was missing when it began. */
  lemma TorrentRequests(m: MetaInfo, es: seq<Event>)
    requires m.Valid() && LegalRun(Start(Blank(m)), es)
    ensures var r := After(Start(Blank(m)), es);
            && (forall k, l :: 0 <= k < l < |r.log| ==> r.log[k] != r.log[l])
            && (forall q :: q in r.log ==>
                q.epoch < |r.starts| && Within(q.i, q.b, r.starts[q.epoch]) && !r.starts[q.epoch][q.i][q.b])
  {
    StartHasInv(Blank(m));
    RequestsOncePerRound(Start(Blank(m)), es);
  }
}
