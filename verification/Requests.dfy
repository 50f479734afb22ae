/** The request queue and the two loops that turn pieces into block requests. */
module Requests {
  import opened MetaInfo
  import opened Pieces
  import opened Wrappers

  class Queue {
    const torrent: MetaInfo
    var queue: seq<Ibl>
    var chocked: bool

    /** As written, a new queue is not empty: it holds one all-zero entry. */
    constructor (torrent: MetaInfo)
      ensures this.torrent == torrent && chocked
      ensures queue == [Ibl(0, 0, 0)]
    {
      this.torrent := torrent;
      queue := [Ibl(0, 0, 0)];
      chocked := true;
    }

    method Enq(index: nat)
      requires torrent.Valid()
      modifies this`queue
      ensures queue == old(queue) + torrent.Blocks(index)
    {
      var numBlocks := torrent.NumBlocksInPiece(index);
      for i := 0 to numBlocks
        invariant queue == old(queue) + torrent.Blocks(index)[..i]
      {
        queue := queue + [Ibl(index, i * BLOCK_LEN, torrent.BlockLen(index, i))];
      }
    }

    method Deq() returns (ret: Ibl)
      requires queue != []
      modifies this`queue
      ensures [ret] + queue == old(queue)
    {
      ret := queue[0];
      queue := queue[1..];
    }

    method Peek() returns (ret: Ibl)
      requires queue != []
      ensures [ret] <= queue
    {
      ret := queue[0];
    }
  }

  ghost predicate Offerable(mx: Matrix, q: seq<Ibl>) {
    Shaped(mx) && forall x :: x in q ==> Within(x.index, x.begin / BLOCK_LEN, mx.reqd)
  }

  /** Walk down the queue to the first needed block: the new bookkeeping, and the entry to request. */
  ghost function Scan(mx: Matrix, q: seq<Ibl>): (Matrix, Option<Ibl>)
    requires Offerable(mx, q)
    decreases |q|
  {
    if q == [] then (mx, None)
    else
      var i, b := q[0].index, q[0].begin / BLOCK_LEN;
      var mx' := Refresh(mx);
      if Needed(mx, i, b) then (mx'.(reqd := Mark(mx'.reqd, i, b)), Some(q[0]))
      else
        assert Offerable(mx', q[1..]);
        Scan(mx', q[1..])
  }

  /** Requests at most one block from a peer. The queue is passed by value, so the caller's queue keeps its entries. */
  method ReqPiece(q: seq<Ibl>, chocked: bool, p: PiecesState) returns (sent: Option<Ibl>)
    requires p.Valid() && Offerable(p.View(), q)
    modifies p`reqd, p.reqd
    ensures p.Valid() && p.recvd == old(p.recvd)
    ensures chocked ==> sent == None && p.View() == old(p.View())
    ensures !chocked ==> (p.View(), sent) == Scan(old(p.View()), q)
  {
    sent := None;
    if chocked {
      return;
    }
    var rest := q;
    ghost var mx := p.View();
    while rest != []
      invariant p.Valid() && p.recvd == old(p.recvd) && p.View() == mx && Offerable(mx, rest)
      invariant p.reqd == old(p.reqd) || forall k :: 0 <= k < |p.reqd| ==> fresh(p.reqd[k])
      invariant Scan(old(p.View()), q) == Scan(mx, rest)
    {
      var pBlock := rest[0];
      rest := rest[1..];
      var need := p.IsNeeded(pBlock);
      if need {
        sent := Some(pBlock);
        p.AssertReqd(pBlock);
        return;
      }
      mx := Refresh(mx);
    }
  }

  /** ReqPiece requests the first entry of the queue that is needed, and nothing if no entry is. */
  lemma {:induction false} ReqPieceTakesFirstNeeded(mx: Matrix, q: seq<Ibl>, k: nat)
    requires Offerable(mx, q) && k <= |q|
    requires forall j :: 0 <= j < k ==> !Needed(mx, q[j].index, q[j].begin / BLOCK_LEN)
    requires k < |q| ==> Needed(mx, q[k].index, q[k].begin / BLOCK_LEN)
    ensures Scan(mx, q).1 == if k < |q| then Some(q[k]) else None
    decreases |q|
  {
    if k > 0 {
      RefreshTwice(mx);
      ReqPieceTakesFirstNeeded(Refresh(mx), q[1..], k - 1);
    }
  }

  /** What ReqPiece does is a run of offers, and the request it sends is the one that run logs. */
  lemma {:induction false} ReqPieceIsRun(r: Run, q: seq<Ibl>) returns (es: seq<Event>)
    requires RunInv(r) && Offerable(r.mx, q)
    ensures LegalRun(r, es) && After(r, es).mx == Scan(r.mx, q).0
    ensures |After(r, es).log| == |r.log| + if Scan(r.mx, q).1 == None then 0 else 1
    ensures Scan(r.mx, q).1.Some? ==>
              var x, y := Scan(r.mx, q).1.value, After(r, es).log[|r.log|];
              x in q && y.i == x.index && y.b == x.begin / BLOCK_LEN
    ensures r.log <= After(r, es).log
    decreases |q|
  {
    if q == [] {
      es := [];
    } else {
      var e := Offer(q[0].index, q[0].begin / BLOCK_LEN);
      StepKeepsInv(r, e);
      if Needed(r.mx, e.i, e.b) {
        es := [e];
        assert After(Step(r, e), es[1..]) == Step(r, e);
      } else {
        es := ReqPieceIsRun(Step(r, e), q[1..]);
        assert ([e] + es)[1..] == es;
        es := [e] + es;
      }
    }
  }

  lemma {:induction false} NeededIndex(mx: Matrix, q: seq<Ibl>) returns (k: nat)
    requires Offerable(mx, q)
    ensures k <= |q|
    ensures forall j :: 0 <= j < k ==> !Needed(mx, q[j].index, q[j].begin / BLOCK_LEN)
    ensures k < |q| ==> Needed(mx, q[k].index, q[k].begin / BLOCK_LEN)
  {
    if q == [] || Needed(mx, q[0].index, q[0].begin / BLOCK_LEN) {
      k := 0;
    } else {
      k := NeededIndex(mx, q[1..]);
      k := k + 1;
    }
  }

  /** A queue that offers every block yields a request until everything has been requested and received. */
  lemma ReqPieceKeepsGoing(mx: Matrix, q: seq<Ibl>)
    requires Offerable(mx, q)
    requires forall i, b :: Within(i, b, mx.reqd) ==> exists x :: x in q && x.index == i && x.begin / BLOCK_LEN == b
    ensures Scan(mx, q).1.Some? <==> !(Full(mx.reqd) && Full(mx.recvd))
  {
    SomeBlockNeeded(mx);
    var k := NeededIndex(mx, q);
    ReqPieceTakesFirstNeeded(mx, q, k);
  }

  /** The entry a new queue starts with stands for block 0 of piece 0 with length 0. Whatever the bookkeeping says and
      whatever else is queued, it hides the true first block: that block is never requested. */
  lemma PhantomHidesFirstBlock(mx: Matrix, m: MetaInfo, k: nat)
    requires m.Valid() && m.Size() > 0
    requires Offerable(mx, [Ibl(0, 0, 0)] + m.AllBlocks(0, k))
    ensures Scan(mx, [Ibl(0, 0, 0)] + m.AllBlocks(0, k)).1 != Some(m.Block(0, 0))
  {
    var q := [Ibl(0, 0, 0)] + m.AllBlocks(0, k);
    var j := NeededIndex(mx, q);
    ReqPieceTakesFirstNeeded(mx, q, j);
    assert q[0] == Ibl(0, 0, 0);
    assert m.Block(0, 0).length > 0;
  }

  /** The peer connection states, as written: the combinations are bitwise ands, so three of the four are Chkd. */
  type ConnState = n: int | 0 <= n < 4
  const CHKD: ConnState := 0
  const UNCHKD: ConnState := 1
  const UNCHKD_INTD: ConnState := 0 // UnChkd & Intd == 1 & 2

  datatype Reply = Choke | Unchoke | Other | Unreadable

  /** One turn of the download loop: whether the request can be written, and the message read afterwards. */
  datatype Turn = Turn(writeOk: bool, reply: Reply)

  datatype Outcome = Finished | Waiting | WriteFailed | Crashed

  function HandleMsg(s: ConnState, r: Reply): ConnState {
    match r
    case Choke => CHKD
    case Unchoke => UNCHKD
    case _ => s
  }

  /** The number of turns on which the loop may request a block. A Choke closes the connection, so that nothing can be
      written after it. */
  function OpenTurns(s: ConnState, turns: seq<Turn>): nat
    decreases |turns|
  {
    if turns == [] then 0
    else (if s == UNCHKD_INTD then 1 else 0) +
         if turns[0].reply.Choke? then 0 else OpenTurns(HandleMsg(s, turns[0].reply), turns[1..])
  }

  /** The blocks requested so far are the first ones of the division form, and begin is where they end. */
  ghost predicate RequestedUpTo(m: MetaInfo, index: nat, reqs: seq<Ibl>, begin: nat)
    requires m.Valid()
  {
    && |reqs| <= m.NumBlocksInPiece(index) && reqs == m.Blocks(index)[..|reqs|]
    && if begin < m.PieceLen(index) then begin == |reqs| * BLOCK_LEN
       else begin == m.PieceLen(index) && |reqs| == m.NumBlocksInPiece(index)
  }

  lemma NextBlock(m: MetaInfo, index: nat, reqs: seq<Ibl>, begin: nat)
    requires m.Valid() && RequestedUpTo(m, index, reqs, begin) && begin < m.PieceLen(index)
    ensures var len := if m.PieceLen(index) - begin < BLOCK_LEN then m.PieceLen(index) - begin else BLOCK_LEN;
            RequestedUpTo(m, index, reqs + [Ibl(index, begin, len)], begin + len)
  {
  }

  /** The connection state on turn t. */
  function StateOn(s: ConnState, turns: seq<Turn>, t: nat): ConnState
    requires t <= |turns|
  {
    if t == 0 then s else HandleMsg(StateOn(s, turns, t - 1), turns[t - 1].reply)
  }

  /** The loop requests a block on turn t. */
  predicate Requests(s: ConnState, turns: seq<Turn>, t: nat)
    requires t <= |turns|
  {
    StateOn(s, turns, t) == UNCHKD_INTD
  }

  /** If it does, the request can be written: the connection is not closed, and the write does not fail. */
  predicate Writes(s: ConnState, turns: seq<Turn>, t: nat)
    requires t < |turns|
  {
    Requests(s, turns, t) ==> turns[t].writeOk && !(t > 0 && turns[t - 1].reply.Choke?)
  }

  /** Nothing goes wrong on turn t. */
  predicate Passes(s: ConnState, turns: seq<Turn>, t: nat)
    requires t < |turns|
  {
    Writes(s, turns, t) && !turns[t].reply.Unreadable?
  }

  /** Nothing goes wrong on the first t turns. */
  ghost predicate Undisturbed(s: ConnState, turns: seq<Turn>, t: nat)
    requires t <= |turns|
  {
    forall i :: 0 <= i < t ==> Passes(s, turns, i)
  }

  /** How many blocks are requested on the first t turns. */
  function Sent(s: ConnState, turns: seq<Turn>, t: nat): nat
    requires t <= |turns|
  {
    if t == 0 then 0 else Sent(s, turns, t - 1) + if Requests(s, turns, t - 1) then 1 else 0
  }

  lemma {:induction false} SentGrows(s: ConnState, turns: seq<Turn>, t: nat, t': nat)
    requires t <= t' <= |turns|
    ensures Sent(s, turns, t) <= Sent(s, turns, t')
    decreases t'
  {
    if t < t' {
      SentGrows(s, turns, t, t' - 1);
    }
  }

  lemma {:induction false} FromNext(s: ConnState, turns: seq<Turn>, t: nat)
    requires 0 < t <= |turns|
    ensures StateOn(s, turns, t) == StateOn(HandleMsg(s, turns[0].reply), turns[1..], t - 1)
    ensures Sent(s, turns, t) == Sent(s, turns, 1) + Sent(HandleMsg(s, turns[0].reply), turns[1..], t - 1)
  {
    if t > 1 {
      FromNext(s, turns, t - 1);
    }
  }

  /** After a Choke the gate is open and the connection closed, so that the next turn goes wrong. */
  lemma ChokeDisturbs(s: ConnState, turns: seq<Turn>, i: nat)
    requires i + 1 < |turns| && Writes(s, turns, i + 1)
    ensures !turns[i].reply.Choke?
  {
  }

  lemma NoChokeBefore(s: ConnState, turns: seq<Turn>, t: nat)
    requires t < |turns| && Undisturbed(s, turns, t) && Writes(s, turns, t)
    ensures forall i :: 0 <= i < t ==> !turns[i].reply.Choke?
  {
    forall i | 0 <= i < t ensures !turns[i].reply.Choke? {
      assert i + 1 < t ==> Passes(s, turns, i + 1);
      ChokeDisturbs(s, turns, i);
    }
  }

  lemma {:induction false} SentIsOpenTurns(s: ConnState, turns: seq<Turn>, t: nat)
    requires t <= |turns| && forall i :: 0 <= i < t - 1 ==> !turns[i].reply.Choke?
    ensures Sent(s, turns, t) <= OpenTurns(s, turns) && (t == |turns| ==> Sent(s, turns, t) == OpenTurns(s, turns))
    decreases t
  {
    if t > 0 {
      FromNext(s, turns, t);
      if !turns[0].reply.Choke? {
        SentIsOpenTurns(HandleMsg(s, turns[0].reply), turns[1..], t - 1);
      }
    }
  }

  lemma UndisturbedSent(s: ConnState, turns: seq<Turn>, t: nat)
    requires t <= |turns| && Undisturbed(s, turns, t)
    ensures Sent(s, turns, t) <= OpenTurns(s, turns) && (t == |turns| ==> Sent(s, turns, t) == OpenTurns(s, turns))
  {
    if t > 0 {
      assert Passes(s, turns, t - 1);
      NoChokeBefore(s, turns, t - 1);
    }
    SentIsOpenTurns(s, turns, t);
  }

  /** On turn t the loop over n blocks ends like this: with all blocks requested; with no turns left, which stands for a
      peer that has gone quiet; with a request that cannot be written; or with a reply that cannot be read. */
  ghost predicate Ends(s: ConnState, turns: seq<Turn>, n: nat, t: nat, out: Outcome) {
    && t <= |turns| && Undisturbed(s, turns, t)
    && match out
       case Finished => Sent(s, turns, t) == n
       case Waiting => Sent(s, turns, t) < n && t == |turns|
       case WriteFailed => Sent(s, turns, t) < n && t < |turns| && !Writes(s, turns, t)
       case Crashed =>
         Sent(s, turns, t) < n && t < |turns| && Writes(s, turns, t) && turns[t].reply.Unreadable?
  }

  /** It ends like this, with so many blocks requested. */
  ghost predicate Ended(s: ConnState, turns: seq<Turn>, n: nat, sent: nat, out: Outcome) {
    exists t: nat :: Ends(s, turns, n, t, out) && sent == SentBy(s, turns, t, out)
  }

  ghost function SentBy(s: ConnState, turns: seq<Turn>, t: nat, out: Outcome): nat
    requires t <= |turns|
  {
    Sent(s, turns, t) + if out.Crashed? && Requests(s, turns, t) then 1 else 0
  }

  lemma EndsOn(s: ConnState, turns: seq<Turn>, n: nat, t: nat, sent: nat, out: Outcome)
    requires Ends(s, turns, n, t, out) && sent == SentBy(s, turns, t, out)
    ensures Ended(s, turns, n, sent, out)
  {
  }

  /** There is one way in which it can end. */
  lemma EndsOneWay(s: ConnState, turns: seq<Turn>, n: nat, t: nat, out: Outcome, t': nat, out': Outcome)
    requires Ends(s, turns, n, t, out) && Ends(s, turns, n, t', out')
    ensures out == out'
  {
    if t <= t' {
      SentGrows(s, turns, t, t');
      assert t < t' ==> Passes(s, turns, t);
    } else {
      SentGrows(s, turns, t', t);
      assert Passes(s, turns, t');
    }
  }

  /** The gate is open from the start, there are as many turns as blocks, the requests on these can be written, and the
      replies are neither Choke nor Unchoke, but for the last one, which only has to be readable. */
  ghost predicate Served(s: ConnState, turns: seq<Turn>, n: nat) {
    n == 0 || (s == UNCHKD_INTD && n <= |turns| && !turns[n - 1].reply.Unreadable? &&
    (forall i :: 0 <= i < n ==> turns[i].writeOk) && (forall i :: 0 <= i < n - 1 ==> turns[i].reply.Other?))
  }

  /** And it finishes if and only if the first n turns are like this. */
  lemma FinishesIff(s: ConnState, turns: seq<Turn>, n: nat)
    ensures (exists t: nat :: Ends(s, turns, n, t, Finished)) <==> Served(s, turns, n)
  {
    if t: nat :| Ends(s, turns, n, t, Finished) {
      FinishedIsServed(s, turns, n, t);
    }
    if Served(s, turns, n) {
      ServedFinishes(s, turns, n);
    }
  }

  lemma {:induction false} StateStays(s: ConnState, turns: seq<Turn>, t: nat)
    requires t <= |turns| && forall i :: 0 <= i < t ==> turns[i].reply.Other?
    ensures StateOn(s, turns, t) == s
  {
    if t > 0 {
      StateStays(s, turns, t - 1);
    }
  }

  lemma {:induction false} OpenThroughout(turns: seq<Turn>, t: nat)
    requires t <= |turns| && forall i :: 0 <= i < t - 1 ==> turns[i].reply.Other?
    ensures Sent(UNCHKD_INTD, turns, t) == t
  {
    if t > 0 {
      OpenThroughout(turns, t - 1);
      StateStays(UNCHKD_INTD, turns, t - 1);
    }
  }

  lemma ServedFinishes(s: ConnState, turns: seq<Turn>, n: nat)
    requires Served(s, turns, n)
    ensures Ends(s, turns, n, n, Finished)
  {
    if n > 0 {
      OpenThroughout(turns, n);
    }
  }

  lemma {:induction false} FinishedIsServed(s: ConnState, turns: seq<Turn>, n: nat, t: nat)
    requires Ends(s, turns, n, t, Finished)
    ensures Served(s, turns, n)
  {
    if t > 0 {
      assert Passes(s, turns, t - 1) && Undisturbed(s, turns, t - 1);
      if Requests(s, turns, t - 1) {
        NoChokeBefore(s, turns, t - 1);
        OpenIsOther(s, turns, t - 1);
        OpenThroughout(turns, t);
      } else {
        FinishedIsServed(s, turns, n, t - 1);
      }
    }
  }

  /** The gate is open, no Choke has arrived and nothing has gone wrong: then it has been open all the time. */
  lemma {:induction false} OpenIsOther(s: ConnState, turns: seq<Turn>, t: nat)
    requires t < |turns| && Undisturbed(s, turns, t) && Requests(s, turns, t)
    requires forall i :: 0 <= i < t ==> !turns[i].reply.Choke?
    ensures s == UNCHKD_INTD && (forall i :: 0 <= i < t ==> turns[i].reply.Other?)
    ensures forall i :: 0 <= i < t ==> turns[i].writeOk
  {
    if t > 0 {
      assert Passes(s, turns, t - 1);
      OpenIsOther(s, turns, t - 1);
    }
  }

  /** A turn on which nothing goes wrong. */
  lemma TurnPasses(s: ConnState, turns: seq<Turn>, t: nat)
    requires t < |turns| && Undisturbed(s, turns, t) && Writes(s, turns, t)
    ensures Sent(s, turns, t + 1) <= OpenTurns(s, turns)
    ensures !turns[t].reply.Unreadable? ==> Undisturbed(s, turns, t + 1)
  {
    NoChokeBefore(s, turns, t);
    SentIsOpenTurns(s, turns, t + 1);
  }

  lemma NoneLeft(m: MetaInfo, index: nat, reqs: seq<Ibl>, begin: nat)
    requires m.Valid() && RequestedUpTo(m, index, reqs, begin)
    ensures reqs <= m.Blocks(index) && |reqs| <= m.NumBlocksInPiece(index)
    ensures begin < m.PieceLen(index) <==> |reqs| < m.NumBlocksInPiece(index)
    ensures begin >= m.PieceLen(index) ==> reqs == m.Blocks(index)
    ensures begin < m.PieceLen(index) ==> begin == |reqs| * BLOCK_LEN
    ensures begin <= m.PieceLen(index)
  {
  }

  /** The accumulating loop: it requests the blocks of the division form, in the same order, one on each turn on which
      the gate is open, and covers the piece when it finishes. */
  method DownloadPiece(m: MetaInfo, index: nat, len: nat, state: ConnState, turns: seq<Turn>)
    returns (reqs: seq<Ibl>, begin: nat, out: Outcome)
    requires m.Valid() && len == m.PieceLen(index)
    ensures reqs <= m.Blocks(index)
    ensures out.Finished? ==> reqs == m.Blocks(index) && begin == len
    ensures |reqs| <= OpenTurns(state, turns)
    ensures out.Waiting? ==> |reqs| == OpenTurns(state, turns) && |reqs| < m.NumBlocksInPiece(index)
    ensures begin < len ==> begin == |reqs| * BLOCK_LEN
    ensures Ended(state, turns, m.NumBlocksInPiece(index), |reqs|, out)
  {
    reqs, begin := [], 0;
    var numReqsSent, blockLen, connState, t, closed := 0, BLOCK_LEN, state, 0, false;
    ghost var n := m.NumBlocksInPiece(index);
    while numReqsSent < len && begin < len
      invariant t <= |turns| && RequestedUpTo(m, index, reqs, begin) && (begin < len ==> blockLen == BLOCK_LEN)
      invariant Undisturbed(state, turns, t) && |reqs| == Sent(state, turns, t) <= OpenTurns(state, turns)
      invariant connState == StateOn(state, turns, t) && (closed <==> t > 0 && turns[t - 1].reply.Choke?)
      decreases |turns| - t
    {
      NoneLeft(m, index, reqs, begin);
      if t == |turns| {
        UndisturbedSent(state, turns, t);
        EndsOn(state, turns, n, t, |reqs|, Waiting);
        return reqs, begin, Waiting;
      }
      var turn := turns[t];
      if connState == UNCHKD_INTD {
        if len - begin < BLOCK_LEN {
          blockLen := len - begin;
        }
        if closed || !turn.writeOk {
          EndsOn(state, turns, n, t, |reqs|, WriteFailed);
          return reqs, begin, WriteFailed;
        }
        NextBlock(m, index, reqs, begin);
        reqs := reqs + [Ibl(index, begin, blockLen)];
        begin := begin + blockLen;
      }
      TurnPasses(state, turns, t);
      if turn.reply.Unreadable? {
        EndsOn(state, turns, n, t, |reqs|, Crashed);
        NoneLeft(m, index, reqs, begin);
        return reqs, begin, Crashed; // the error is reported, and then a nil message is handled
      }
      connState := HandleMsg(connState, turn.reply);
      closed := closed || turn.reply.Choke?;
      t := t + 1;
    }
    NoneLeft(m, index, reqs, begin);
    EndsOn(state, turns, n, t, |reqs|, Finished);
    out := Finished;
  }

  /** As written an Unchoke closes the gate instead of opening it, and nothing opens it again: a Choke, which sets the
      state back, closes the connection. */
  lemma {:induction false} UnchokeStopsRequests(s: ConnState, turns: seq<Turn>)
    requires turns != [] && turns[0].reply.Unchoke?
    ensures OpenTurns(s, turns) == if s == CHKD then 1 else 0
  {
    ClosedGate(turns[1..]);
  }

  lemma {:induction false} ClosedGate(turns: seq<Turn>)
    ensures OpenTurns(UNCHKD, turns) == 0
  {
    if turns != [] {
      ClosedGate(turns[1..]);
    }
  }

  /** Once an Unchoke or a Choke has arrived, no more blocks are requested than there were turns up to then. */
  lemma {:induction false} RequestsEnd(s: ConnState, turns: seq<Turn>, k: nat)
    requires k < |turns| && (turns[k].reply.Unchoke? || turns[k].reply.Choke?)
    ensures OpenTurns(s, turns) <= k + 1
    decreases k
  {
    if turns[0].reply.Unchoke? {
      ClosedGate(turns[1..]);
    } else if k > 0 {
      RequestsEnd(HandleMsg(s, turns[0].reply), turns[1..], k - 1);
    }
  }
}
