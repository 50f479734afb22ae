/** The send window of a uTP socket: numbering, byte counts, cumulative acknowledgement and chunking, as functions. */
module Window {
  import opened Bytes
  import opened Packet
  import opened Receive

  const MSS: nat := 1400
  const MIN_CWND: nat := 2
  const INIT_CWND: nat := 2
  const ALLOWED_INCREASE: nat := 1

  /** The bytes of the packets of w, headers included. */
  function TotalLen(w: seq<Segment>): nat {
    if w == [] then 0 else w[0].Len() + TotalLen(w[1..])
  }

  lemma {:induction false} TotalLenAppend(v: seq<Segment>, w: seq<Segment>)
    ensures TotalLen(v + w) == TotalLen(v) + TotalLen(w)
  {
    if v == [] {
      assert v + w == w;
    } else {
      TotalLenAppend(v[1..], w);
      assert (v + w)[1..] == v[1..] + w;
    }
  }

  lemma TotalLenNext(w: seq<Segment>, i: nat)
    requires i < |w|
    ensures TotalLen(w[..i + 1]) == TotalLen(w[..i]) + w[i].Len()
  {
    assert w[..i + 1] == w[..i] + [w[i]];
    TotalLenAppend(w[..i], [w[i]]);
    assert [w[i]][1..] == [];
  }

  /** w is the end of s. */
  ghost predicate Ends(w: seq<Segment>, s: seq<Segment>) {
    |w| <= |s| && forall k :: 0 <= k < |w| ==> w[k] == s[|s| - |w| + k]
  }

  function Payloads(w: seq<Segment>): (ps: seq<seq<byte>>)
    ensures |ps| == |w|
  {
    seq(|w|, i requires 0 <= i < |w| => w[i].payload)
  }

  // ---------- numbering and acknowledgement ----------

  /** The packets of w are numbered one after the other, and next is the number of the packet after them. */
  ghost predicate Consecutive(w: seq<Segment>, next: u16) {
    forall i :: 0 <= i < |w| ==> w[i].seqNr == Sub16(next, |w| - i)
  }

  /** n packets leave the window when s has been acknowledged: all up to the first one with that number, if there is
      one. */
  ghost predicate AckedPrefix(w: seq<Segment>, s: u16, n: nat) {
    && n <= |w| && (n > 0 ==> w[n - 1].seqNr == s)
    && forall i :: 0 <= i < (if n > 0 then n - 1 else |w|) ==> w[i].seqNr != s
  }

  lemma AckedPrefixUnique(w: seq<Segment>, s: u16, n: nat, n': nat)
    requires AckedPrefix(w, s, n) && AckedPrefix(w, s, n')
    ensures n == n'
  {
    if n > 0 && n' > 0 {
      assert w[n - 1].seqNr == w[n' - 1].seqNr;
    }
  }

  /** Cumulative acknowledgement, across the wrap of the numbers: from a window of less than half the number space, what
      is removed is the packets at or before the acknowledged one in serial order, provided that one is in the
      window. */
  lemma CumulativeAck(w: seq<Segment>, next: u16, s: u16, n: nat, i: nat)
    requires Consecutive(w, next) && |w| < 0x8000 && AckedPrefix(w, s, n) && i < |w|
    ensures i < n <==> (w[i].seqNr == s || Ahead(s, w[i].seqNr)) && exists j :: 0 <= j < |w| && w[j].seqNr == s
  {
    if n > 0 {
      SubDistance(next, |w| - i, |w| - (n - 1));
    }
  }

  lemma SubDistance(next: u16, a: nat, b: nat)
    requires 0 < a < 0x8000 && 0 < b < 0x8000
    ensures Sub16(Sub16(next, b), Sub16(next, a)) == Trunc16(a - b)
    ensures Sub16(next, a) == Sub16(next, b) <==> a == b
  {
  }

  lemma ConsecutiveSuffix(v: seq<Segment>, w: seq<Segment>, next: u16)
    requires Consecutive(v + w, next)
    ensures Consecutive(w, next)
  {
    forall i | 0 <= i < |w| ensures w[i].seqNr == Sub16(next, |w| - i) {
      assert (v + w)[|v| + i] == w[i];
    }
  }

  lemma ConsecutivePrefix(v: seq<Segment>, w: seq<Segment>, next: u16)
    requires Consecutive(v + w, next)
    ensures Consecutive(v, Sub16(next, |w|))
  {
    forall i | 0 <= i < |v| ensures v[i].seqNr == Sub16(Sub16(next, |w|), |v| - i) {
      assert (v + w)[i] == v[i];
      SubTwice(next, |w|, |v| - i);
    }
  }

  lemma SubTwice(s: u16, a: nat, b: nat)
    ensures Sub16(Sub16(s, a), b) == Sub16(s, a + b)
  {
  }

  lemma ConsecutiveNext(w: seq<Segment>, next: u16, p: Segment)
    requires Consecutive(w, next) && p.seqNr == next
    ensures Consecutive(w + [p], Add16(next, 1))
  {
  }

  // ---------- what became of the queued packets ----------

  /** The history of the queue: a packet was built and queued (before the handshake or after it), or the first packet of
      the queue was taken and sent, or was taken and could not be sent. */
  datatype Ledger =
    | Opened
    | Queued(before: Ledger, p: Segment, unshaken: bool)
    | Passed(before: Ledger)
    | Dropped(before: Ledger)
  {
    /** Every packet that was ever built. */
    ghost function Built(): seq<Segment> {
      match this
      case Opened => []
      case Queued(before, p, _) => before.Built() + [p]
      case Passed(before) => before.Built()
      case Dropped(before) => before.Built()
    }

    /** The bytes that were handed to SendTo. */
    ghost function Accepted(): seq<byte> {
      match this
      case Opened => []
      case Queued(before, p, _) => before.Accepted() + p.payload
      case Passed(before) => before.Accepted()
      case Dropped(before) => before.Accepted()
    }

    /** The packets that are still queued. */
    ghost function Queue(): seq<Segment> {
      match this
      case Opened => []
      case Queued(before, p, _) => before.Queue() + [p]
      case Passed(before) => Tail(before.Queue())
      case Dropped(before) => Tail(before.Queue())
    }

    /** The packets that were taken from the queue and sent. */
    ghost function Sent(): seq<Segment> {
      match this
      case Opened => []
      case Queued(before, _, _) => before.Sent()
      case Passed(before) => before.Sent() + Head(before.Queue())
      case Dropped(before) => before.Sent()
    }

    /** The packets that were taken from the queue and could not be sent. */
    ghost function Lost(): seq<Segment> {
      match this
      case Opened => []
      case Queued(before, _, _) => before.Lost()
      case Passed(before) => before.Lost()
      case Dropped(before) => before.Lost() + Head(before.Queue())
    }

    /** The number after that of the last packet built. */
    ghost function Next(): u16 {
      match this
      case Opened => 0
      case Queued(_, p, _) => Add16(p.seqNr, 1)
      case Passed(before) => before.Next()
      case Dropped(before) => before.Next()
    }

    /** Was anything queued before the handshake? */
    ghost predicate Early() {
      match this
      case Opened => false
      case Queued(before, _, unshaken) => unshaken || before.Early()
      case Passed(before) => before.Early()
      case Dropped(before) => before.Early()
    }

    /** Only what is queued is taken; packets are neither empty nor long, and numbered one after the other from the
        handshake on. */
    ghost predicate Legal() {
      match this
      case Opened => true
      case Queued(before, p, unshaken) =>
        && before.Legal() && p.ty.Data? && p.payload != [] && p.Len() <= MSS
        && (unshaken || before.Early() || before.Built() == [] || p.seqNr == before.Next())
      case Passed(before) => before.Legal() && before.Queue() != []
      case Dropped(before) => before.Legal() && before.Queue() != []
    }
  }

  function Head<T>(s: seq<T>): seq<T> {
    if s == [] then [] else [s[0]]
  }

  function Tail<T>(s: seq<T>): seq<T> {
    if s == [] then [] else s[1..]
  }

  /** s can be had from t by leaving elements out. */
  ghost predicate Subsequence<T>(s: seq<T>, t: seq<T>) {
    s == [] || (t != [] &&
        (Subsequence(s, t[..|t| - 1]) || (s[|s| - 1] == t[|t| - 1] && Subsequence(s[..|s| - 1], t[..|t| - 1]))))
  }

  lemma SubsequenceGrows<T>(s: seq<T>, t: seq<T>, x: T)
    requires Subsequence(s, t)
    ensures Subsequence(s + [x], t + [x])
  {
    assert (s + [x])[..|s|] == s && (t + [x])[..|t|] == t;
  }

  lemma {:induction false} SubsequenceBoth<T>(s: seq<T>, t: seq<T>, u: seq<T>)
    requires Subsequence(s, t)
    ensures Subsequence(s + u, t + u)
  {
    if u == [] {
      assert s + u == s && t + u == t;
    } else {
      var u', x := u[..|u| - 1], u[|u| - 1];
      SubsequenceBoth(s, t, u');
      SubsequenceGrows(s + u', t + u', x);
      assert s + u == s + u' + [x] && t + u == t + u' + [x];
    }
  }

  lemma {:induction false} SubsequenceRight<T>(s: seq<T>, t: seq<T>, u: seq<T>)
    requires Subsequence(s, t)
    ensures Subsequence(s, t + u)
  {
    if u == [] {
      assert t + u == t;
    } else {
      SubsequenceRight(s, t, u[..|u| - 1]);
      assert (t + u)[..|t + u| - 1] == t + u[..|u| - 1];
    }
  }

  lemma {:induction false} SubsequenceDrops<T>(s: seq<T>, x: T, u: seq<T>, t: seq<T>)
    requires Subsequence(s + [x] + u, t)
    ensures Subsequence(s + u, t)
    decreases t
  {
    if s + u != [] {
      var t', v := t[..|t| - 1], s + [x] + u;
      if Subsequence(v, t') {
        SubsequenceDrops(s, x, u, t');
      } else if u == [] {
        assert v[..|v| - 1] == s + u;
      } else {
        assert v[..|v| - 1] == s + [x] + u[..|u| - 1];
        SubsequenceDrops(s, x, u[..|u| - 1], t');
        assert (s + u)[..|s + u| - 1] == s + u[..|u| - 1];
      }
    }
  }

  /** Nothing is invented, repeated or reordered: what was sent and what is queued is what was built, with packets left
      out. */
  lemma {:induction false} SentInOrder(l: Ledger)
    requires l.Legal()
    ensures Subsequence(l.Sent() + l.Queue(), l.Built())
  {
    match l
    case Opened =>
    case Queued(before, p, _) =>
      SentInOrder(before);
      SubsequenceGrows(before.Sent() + before.Queue(), before.Built(), p);
      assert l.Sent() + l.Queue() == before.Sent() + before.Queue() + [p];
    case Passed(before) =>
      SentInOrder(before);
      assert l.Sent() + l.Queue() == before.Sent() + before.Queue();
    case Dropped(before) =>
      SentInOrder(before);
      assert before.Queue() == [before.Queue()[0]] + l.Queue();
      assert before.Sent() + before.Queue() == before.Sent() + [before.Queue()[0]] + l.Queue();
      SubsequenceDrops(before.Sent(), before.Queue()[0], l.Queue(), before.Built());
  }

  /** b is s, q and l together, in some order. */
  ghost predicate SharedOut(b: seq<Segment>, s: seq<Segment>, q: seq<Segment>, l: seq<Segment>) {
    multiset(b) == multiset(s) + multiset(q) + multiset(l)
  }

  lemma SharedOutMoves(b: seq<Segment>, s: seq<Segment>, q: seq<Segment>, l: seq<Segment>)
    requires q != [] && SharedOut(b, s, q, l)
    ensures SharedOut(b, s + [q[0]], q[1..], l) && SharedOut(b, s, q[1..], l + [q[0]])
  {
    assert q == [q[0]] + q[1..];
  }

  /** Conservation: every packet that was built was sent, or is queued, or was lost by a send that failed. */
  lemma {:induction false} PacketsConserved(l: Ledger)
    requires l.Legal()
    ensures SharedOut(l.Built(), l.Sent(), l.Queue(), l.Lost())
  {
    match l
    case Opened =>
    case Queued(before, p, _) => PacketsConserved(before);
    case Passed(before) =>
      PacketsConserved(before);
      SharedOutMoves(before.Built(), before.Sent(), before.Queue(), before.Lost());
    case Dropped(before) =>
      PacketsConserved(before);
      SharedOutMoves(before.Built(), before.Sent(), before.Queue(), before.Lost());
  }

  /** Conservation in bytes. */
  lemma {:induction false} BytesConserved(l: Ledger)
    requires l.Legal()
    ensures TotalLen(l.Built()) == TotalLen(l.Sent()) + TotalLen(l.Queue()) + TotalLen(l.Lost())
    ensures TotalLen(l.Built()) == |l.Accepted()| + HEADER_SIZE * |l.Built()|
  {
    match l
    case Opened =>
    case Queued(before, p, _) =>
      BytesConserved(before);
      TotalLenOneMore(before.Built(), p);
      TotalLenOneMore(before.Queue(), p);
    case Passed(before) =>
      BytesConserved(before);
      TotalLenOneMore(before.Sent(), before.Queue()[0]);
    case Dropped(before) =>
      BytesConserved(before);
      TotalLenOneMore(before.Lost(), before.Queue()[0]);
  }

  lemma TotalLenOneMore(w: seq<Segment>, p: Segment)
    ensures TotalLen(w + [p]) == TotalLen(w) + p.Len()
  {
    TotalLenAppend(w, [p]);
    assert [p][1..] == [];
  }

  /** While no send has failed, what was sent and what is queued are together what was built. */
  lemma {:induction false} NothingLost(l: Ledger)
    requires l.Legal() && l.Lost() == []
    ensures l.Sent() + l.Queue() == l.Built()
  {
    match l
    case Opened =>
    case Queued(before, p, _) => NothingLost(before);
    case Passed(before) => NothingLost(before);
  }

  /** The packets carry the bytes handed to SendTo, in order. */
  lemma {:induction false} PacketsCarryBytes(l: Ledger)
    ensures Flatten(Payloads(l.Built())) == l.Accepted()
  {
    match l
    case Opened =>
    case Queued(before, p, _) =>
      PacketsCarryBytes(before);
      PayloadsAppend(before.Built(), p);
    case Passed(before) => PacketsCarryBytes(before);
    case Dropped(before) => PacketsCarryBytes(before);
  }

  /** Packets are numbered one after the other, if all were queued after the handshake. */
  lemma {:induction false} PacketsConsecutive(l: Ledger)
    requires l.Legal() && !l.Early()
    ensures Consecutive(l.Built(), l.Next())
  {
    match l
    case Opened =>
    case Queued(before, p, _) =>
      PacketsConsecutive(before);
      if before.Built() != [] {
        ConsecutiveNext(before.Built(), before.Next(), p);
      }
    case Passed(before) => PacketsConsecutive(before);
    case Dropped(before) => PacketsConsecutive(before);
  }

  /** What is queued has been built. */
  lemma {:induction false} QueuedIsBuilt(l: Ledger, p: Segment)
    requires p in l.Queue()
    ensures p in l.Built()
  {
    match l
    case Queued(before, q, _) =>
      if p != q {
        QueuedIsBuilt(before, p);
      }
    case Passed(before) => QueuedIsBuilt(before, p);
    case Dropped(before) => QueuedIsBuilt(before, p);
  }

  /** Every packet built is a data packet with data, of at most MSS bytes, and so is every packet queued. */
  lemma {:induction false} ShortPackets(l: Ledger, p: Segment)
    requires l.Legal() && (p in l.Built() || p in l.Queue())
    ensures p.ty.Data? && p.payload != [] && p.Len() <= MSS
  {
    match l
    case Queued(before, q, _) =>
      if p != q {
        ShortPackets(before, p);
      }
    case Passed(before) => ShortPackets(before, p);
    case Dropped(before) => ShortPackets(before, p);
  }

  lemma WindowGrows(w: seq<Segment>, s: seq<Segment>, p: Segment)
    requires Ends(w, s)
    ensures Ends(w + [p], s + [p]) && Trunc32(TotalLen(w + [p])) == Trunc32(Trunc32(TotalLen(w)) + p.Len())
  {
    TotalLenOneMore(w, p);
    TruncAdds(TotalLen(w), p.Len());
  }

  lemma WindowShrinks(w: seq<Segment>)
    requires w != []
    ensures Trunc32(TotalLen(w[1..])) == Trunc32(Trunc32(TotalLen(w)) - w[0].Len())
  {
    TruncAdds(TotalLen(w), 0 - w[0].Len());
  }

  lemma TotalLenSplit(w: seq<Segment>, n: nat)
    requires n <= |w|
    ensures TotalLen(w) == TotalLen(w[..n]) + TotalLen(w[n..])
  {
    assert w == w[..n] + w[n..];
    TotalLenAppend(w[..n], w[n..]);
  }

  lemma TruncFalls(total: int, part: int, rest: int)
    requires total == part + rest
    ensures Trunc32(rest) == Trunc32(Trunc32(total) - part)
  {
    TruncAdds(total, -part);
  }

  lemma TruncAdds(x: int, y: int)
    ensures Trunc32(Trunc32(x) + y) == Trunc32(x + y)
  {
  }

  // ---------- cutting a buffer into packets ----------

  lemma PayloadsAppend(v: seq<Segment>, p: Segment)
    ensures Flatten(Payloads(v + [p])) == Flatten(Payloads(v)) + p.payload
  {
    assert Payloads(v + [p])[..|v|] == Payloads(v);
  }

  /** The data packets for the chunks: numbered from seqNr on. */
  function Packets(chunks: seq<seq<byte>>, connId: u16, seqNr: u16, ackNr: u16): (ps: seq<Segment>)
    ensures |ps| == |chunks|
    ensures forall i :: 0 <= i < |ps| ==> ps[i] == Segment(Data, connId, 0, Add16(seqNr, i), ackNr, chunks[i])
  {
    seq(|chunks|, i requires 0 <= i < |chunks| => Segment(Data, connId, 0, Add16(seqNr, i), ackNr, chunks[i]))
  }

  /** Packets for the chunks are built and queued, one after the other. */
  ghost function EnqueueAll(l: Ledger, chunks: seq<seq<byte>>, connId: u16, seqNr: u16, ackNr: u16,
      unshaken: bool): Ledger {
    if chunks == [] then l
    else
      var n := |chunks| - 1;
      Queued(EnqueueAll(l, chunks[..n], connId, seqNr, ackNr, unshaken),
             Segment(Data, connId, 0, Add16(seqNr, n), ackNr, chunks[n]), unshaken)
  }

  /** The ledger stays legal if the chunks fit and the numbers go on where they stopped. */
  lemma {:induction false} EnqueueAllLegal(l: Ledger, chunks: seq<seq<byte>>, connId: u16, seqNr: u16, ackNr: u16,
      unshaken: bool)
    requires l.Legal() && forall c :: c in chunks ==> 0 < |c| <= MSS - HEADER_SIZE
    requires unshaken || l.Early() || l.Built() == [] || l.Next() == seqNr
    ensures EnqueueAll(l, chunks, connId, seqNr, ackNr, unshaken).Legal()
  {
    if chunks != [] {
      var n := |chunks| - 1;
      EnqueueAllLegal(l, chunks[..n], connId, seqNr, ackNr, unshaken);
      EnqueueAllNumbers(l, chunks[..n], connId, seqNr, ackNr, unshaken);
      EnqueueAllBuilds(l, chunks[..n], connId, seqNr, ackNr, unshaken);
      assert chunks[n] in chunks;
      QueuedLegal(EnqueueAll(l, chunks[..n], connId, seqNr, ackNr, unshaken),
          Segment(Data, connId, 0, Add16(seqNr, n), ackNr, chunks[n]),
                  unshaken);
    }
  }

  lemma QueuedLegal(l: Ledger, p: Segment, unshaken: bool)
    requires l.Legal() && p.ty.Data? && p.payload != [] && p.Len() <= MSS
    requires unshaken || l.Early() || l.Built() == [] || p.seqNr == l.Next()
    ensures Queued(l, p, unshaken).Legal()
  {
  }

  lemma EnqueueAllStep(l: Ledger, chunks: seq<seq<byte>>, i: nat, connId: u16, seqNr: u16, ackNr: u16, unshaken: bool)
    requires i < |chunks|
    ensures EnqueueAll(l, chunks[..i + 1], connId, seqNr, ackNr, unshaken)
         == Queued(EnqueueAll(l, chunks[..i], connId, seqNr, ackNr, unshaken),
                   Segment(Data, connId, 0, Add16(seqNr, i), ackNr, chunks[i]), unshaken)
    ensures chunks[i] in chunks && Add16(Add16(seqNr, i), 1) == Add16(seqNr, i + 1)
  {
    assert chunks[..i + 1][..i] == chunks[..i];
    AddOneMore(seqNr, i);
  }

  lemma AddOneMore(s: u16, n: nat)
    ensures Add16(Add16(s, n), 1) == Add16(s, n + 1)
  {
  }

  lemma PacketsOneMore(chunks: seq<seq<byte>>, connId: u16, seqNr: u16, ackNr: u16)
    requires chunks != []
    ensures var n := |chunks| - 1;
            Packets(chunks, connId, seqNr, ackNr)
            == Packets(chunks[..n], connId, seqNr, ackNr) +
                [Segment(Data, connId, 0, Add16(seqNr, n), ackNr, chunks[n])]
  {
  }

  /** Queueing the chunks builds their packets, and nothing else happens to them. */
  lemma {:induction false} EnqueueAllBuilds(l: Ledger, chunks: seq<seq<byte>>, connId: u16, seqNr: u16, ackNr: u16,
      unshaken: bool)
    ensures var l' := EnqueueAll(l, chunks, connId, seqNr, ackNr, unshaken);
            l'.Built() == l.Built() + Packets(chunks, connId, seqNr, ackNr) &&
                l'.Queue() == l.Queue() + Packets(chunks, connId, seqNr, ackNr)
  {
    if chunks != [] {
      PacketsOneMore(chunks, connId, seqNr, ackNr);
      EnqueueAllBuilds(l, chunks[..|chunks| - 1], connId, seqNr, ackNr, unshaken);
    }
  }

  lemma {:induction false} EnqueueAllAccepts(l: Ledger, chunks: seq<seq<byte>>, connId: u16, seqNr: u16, ackNr: u16,
      unshaken: bool)
    ensures var l' := EnqueueAll(l, chunks, connId, seqNr, ackNr, unshaken);
            l'.Accepted() == l.Accepted() + Flatten(chunks) && l'.Sent() == l.Sent() && l'.Lost() == l.Lost()
  {
    if chunks != [] {
      EnqueueAllAccepts(l, chunks[..|chunks| - 1], connId, seqNr, ackNr, unshaken);
    }
  }

  lemma {:induction false} EnqueueAllNumbers(l: Ledger, chunks: seq<seq<byte>>, connId: u16, seqNr: u16, ackNr: u16,
      unshaken: bool)
    ensures var l' := EnqueueAll(l, chunks, connId, seqNr, ackNr, unshaken);
            && l'.Next() == (if chunks == [] then l.Next() else Add16(seqNr, |chunks|))
            && (l'.Early() <==> l.Early() || (unshaken && chunks != []))
  {
    if chunks != [] {
      EnqueueAllNumbers(l, chunks[..|chunks| - 1], connId, seqNr, ackNr, unshaken);
      AddOneMore(seqNr, |chunks| - 1);
    }
  }

  function Chunks(data: seq<byte>, n: nat): seq<seq<byte>>
    requires n > 0
    decreases |data|
  {
    if data == [] then [] else [data[..Min(n, |data|)]] + Chunks(data[Min(n, |data|)..], n)
  }

  lemma {:induction false} FlattenCons(c: seq<byte>, cs: seq<seq<byte>>)
    ensures Flatten([c] + cs) == c + Flatten(cs)
  {
    if cs == [] {
      assert [c] + cs == [c] && [c][..0] == [];
    } else {
      FlattenCons(c, cs[..|cs| - 1]);
      assert ([c] + cs)[..|cs|] == [c] + cs[..|cs| - 1];
    }
  }

  /** The chunks make up the buffer. */
  lemma {:induction false} ChunksCover(data: seq<byte>, n: nat)
    requires n > 0
    ensures Flatten(Chunks(data, n)) == data
    decreases |data|
  {
    if data != [] {
      var k := Min(n, |data|);
      ChunksCover(data[k..], n);
      FlattenCons(data[..k], Chunks(data[k..], n));
      assert data == data[..k] + data[k..];
    }
  }

  /** No chunk is empty or longer than n. */
  lemma {:induction false} ChunksFit(data: seq<byte>, n: nat, c: seq<byte>)
    requires n > 0 && c in Chunks(data, n)
    ensures 0 < |c| <= n
    decreases |data|
  {
    if c != data[..Min(n, |data|)] {
      ChunksFit(data[Min(n, |data|)..], n, c);
    }
  }

  lemma ChunksStep(data: seq<byte>, x: nat, n: nat)
    requires n > 0 && x < |data|
    ensures var y := Min(x + n, |data|); Chunks(data[x..], n) == [data[x..y]] + Chunks(data[y..], n)
  {
    var y := Min(x + n, |data|);
    assert data[x..][..y - x] == data[x..y] && data[x..][y - x..] == data[y..];
  }

  ghost function Times(a: nat, n: nat): nat {
    if a == 0 then 0 else n + Times(a - 1, n)
  }

  lemma {:induction false} TimesIsProduct(a: nat, n: nat)
    ensures Times(a, n) == a * n
  {
    if a > 0 {
      TimesIsProduct(a - 1, n);
    }
  }

  /** chunk: the full slices by division, and then what is left over. */
  method Chunk(data: seq<byte>, n: nat) returns (ret: seq<seq<byte>>)
    requires n > 0
    ensures ret == Chunks(data, n)
  {
    ret := [];
    if data == [] {
      return;
    }
    var num, last := |data| / n, |data| % n;
    TimesIsProduct(num, n);
    ret := Slices(data, num, last, n);
  }

  method Slices(data: seq<byte>, num: nat, last: nat, n: nat) returns (ret: seq<seq<byte>>)
    requires n > last && |data| == Times(num, n) + last
    ensures ret == Chunks(data, n)
  {
    ret := [];
    assert data[0..] == data;
    var x: nat, y: nat := 0, n;
    for i := 0 to num
      invariant y == x + n && x + Times(num - i, n) + last == |data|
      invariant ret + Chunks(data[x..], n) == Chunks(data, n)
    {
      ret := OneSlice(data, x, y, n, ret);
      x, y := x + n, y + n;
    }
    if last != 0 {
      ret := OneSlice(data, x, |data|, n, ret);
    }
    assert ret + Chunks(data[|data|..], n) == ret;
  }

  /** Appends the slice from x to y, which is the first chunk of what is left. */
  method OneSlice(data: seq<byte>, x: nat, y: nat, n: nat, got: seq<seq<byte>>) returns (ret: seq<seq<byte>>)
    requires n > 0 && x < |data| && y == Min(x + n, |data|)
    ensures ret + Chunks(data[y..], n) == got + Chunks(data[x..], n)
  {
    ChunksStep(data, x, n);
    ret := got + [data[x..y]];
  }

  // ---------- numbers taken for acknowledged ----------

  /** Is a packet with number s taken for acknowledged when it is to be sent? It is if s is nearer below the last
      acknowledged number than above it. */
  predicate Skips(s: u16, lastAcked: u16) {
    Sub16(s, lastAcked) > Sub16(lastAcked, s)
  }

  lemma SkipsIffBehind(s: u16, lastAcked: u16)
    ensures Skips(s, lastAcked) <==> Ahead(lastAcked, s)
    ensures Skips(s, lastAcked) <==> Sub16(s, lastAcked) > 0x8000
  {
  }

  /** Is packet i after base taken for acknowledged when the first acked packets have been? */
  predicate PassedOver(base: u16, acked: nat, i: nat) {
    Skips(Add16(base, 1 + i), Add16(base, acked))
  }

  /** If the first acked packets after base have been acknowledged, packet i is taken for acknowledged exactly if this
      distance is more than 2^15. So it is for every packet that has been, but for the last one, no further back than
      2^15; and so it is for no other, no further ahead than 2^15. */
  lemma SkippedIff(base: u16, acked: nat, i: nat)
    ensures PassedOver(base, acked, i) <==> (i + 1 - acked) % 0x1_0000 > 0x8000
    ensures acked <= i + 0x8000 && i < acked + 0x8000 ==> (PassedOver(base, acked, i) <==> i + 1 < acked)
  {
    SkipsIffBehind(Add16(base, 1 + i), Add16(base, acked));
    SubOfAdds(base, 1 + i, acked);
  }

  lemma SubOfAdds(base: u16, j: nat, k: nat)
    ensures Sub16(Add16(base, j), Add16(base, k)) == (j - k) % 0x1_0000
  {
  }

  /** None of w packets numbered from first on is taken for acknowledged, whatever has been: if and only if the last of
      them is at most 2^15 ahead of the last acknowledged number, counting from that of the first. */
  lemma NoneSkippedIff(first: u16, lastAcked: u16, w: nat)
    ensures (forall i :: 0 <= i < w ==> !Skips(Add16(first, i), lastAcked))
            <==> w == 0 || Sub16(first, lastAcked) as int + w <= 0x8001
  {
    var d := Sub16(first, lastAcked) as int;
    forall i: nat ensures Skips(Add16(first, i), lastAcked) <==> (d + i) % 0x1_0000 > 0x8000 {
      SkipsIffBehind(Add16(first, i), lastAcked);
      SubOfAdd(first, lastAcked, i);
    }
    if w > 0 && d + w > 0x8001 {
      var i := Max(0, 0x8001 - d);
      assert Skips(Add16(first, i), lastAcked);
    }
  }

  lemma SubOfAdd(s: u16, t: u16, i: nat)
    ensures Sub16(Add16(s, i), t) == (Sub16(s, t) + i) % 0x1_0000
  {
  }

  /** The first packet after a that have been acknowledged, when the last number acknowledged is that of packet k. */
  lemma FirstIsAhead(base: u16, k: nat, a: nat)
    requires k <= a < k + 0xFFFF
    ensures Sub16(Add16(base, 1 + a), Add16(base, k)) == a - k + 1
  {
    SubOfAdds(base, 1 + a, k);
  }

  /** The side that accepts a connection, before anything is acknowledged: as written the last acknowledged number is 0,
      and packet i, counted from the number drawn, is taken for acknowledged exactly if its number is above 2^15, so
      that none of the first w is exactly as long as these numbers go up to 2^15. With the repair, that is with the
      number of the answer in place of 0, none is exactly up to 2^15 packets. */
  lemma FirstIsSkippedIff(drawn: u16, i: nat, w: nat)
    ensures Skips(Add16(drawn, i), 0) <==> (drawn + i) % 0x1_0000 > 0x8000
    ensures (forall j :: 0 <= j < w ==> !Skips(Add16(drawn, j), 0)) <==> w == 0 || drawn + w <= 0x8001
    ensures (forall j :: 0 <= j < w ==> !Skips(Add16(Add16(drawn, 1), j), drawn)) <==> w <= 0x8000
  {
    assert Skips(Add16(drawn, i), 0) <==> (drawn + i) % 0x1_0000 > 0x8000 by {
      SkipsIffBehind(Add16(drawn, i), 0);
      SubOfAdd(drawn, 0, i);
    }
    assert Sub16(drawn, 0) == drawn && Sub16(Add16(drawn, 1), drawn) == 1;
    NoneSkippedIff(drawn, 0, w);
    NoneSkippedIff(Add16(drawn, 1), drawn, w);
  }
}
