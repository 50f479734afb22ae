/** From SendTo on one side to the reads on the other: chunking, packet building, numbering, the wire format,
    reassembly. */
module EndToEnd {
  import opened Bytes
  import opened Packet
  import opened Receive
  import opened Window
  import opened Wrappers
  import Connecting
  import Extensions
  import Socket

  /** What happens at the receiver: a datagram arrives while somebody reads into n bytes, or the reply to it cannot be
      written, or what is buffered is read. */
  datatype Happening =
    | Datagram(bytes: seq<byte>, open: bool, n: nat)
    | NoReply(bytes: seq<byte>, open: bool)
    | Reading(n: nat)

  /** What reaches the reassembly: the packets of the datagrams that decode. Invalid datagrams are ignored. */
  ghost function Received(b: Build, hs: seq<Happening>): seq<Receive.Event> {
    if hs == [] then []
    else Received(b, hs[..|hs| - 1]) + ReceivedOne(b, hs[|hs| - 1])
  }

  ghost function ReceivedOne(b: Build, h: Happening): seq<Receive.Event> {
    match h
    case Datagram(d, open, n) =>
      var r := Extensions.Accept(b, d);
      if r.Ok? then [Receive.Arrival(r.value.seg, open, n)] else []
    case NoReply(d, open) =>
      var r := Extensions.Accept(b, d);
      if r.Ok? then [Receive.Unanswered(r.value.seg, open)] else []
    case Reading(n) => [Receive.Read(n)]
  }

  /** d is p as it was sent, at some time. */
  ghost predicate IsSent(b: Build, p: Segment, d: seq<byte>) {
    exists now: u32, diff: u32 :: d == Encode(b, p, now, diff)
  }

  /** d is read as a data packet. */
  ghost predicate IsData(b: Build, d: seq<byte>) {
    Extensions.Accept(b, d).Ok? && Extensions.Accept(b, d).value.seg.ty.Data?
  }

  /** The data packets among the datagrams are packets that SendTo built: sent once, or repeated, reordered or lost. */
  ghost predicate FromSender(b: Build, l: Ledger, hs: seq<Happening>) {
    forall h :: h in hs && !h.Reading? && IsData(b, h.bytes) ==> exists p :: p in l.Built() && IsSent(b, p, h.bytes)
  }

  /** Every packet that SendTo built arrives, and is answered, at least once. */
  ghost predicate AllDelivered(b: Build, l: Ledger, hs: seq<Happening>) {
    forall p :: p in l.Built() ==> exists h :: h in hs && h.Datagram? && IsSent(b, p, h.bytes)
  }

  /** Everything was handed to SendTo after a handshake in which the receiver acknowledged base. */
  ghost predicate Connected(l: Ledger, base: u16) {
    l.Legal() && !l.Early() && (l.Built() != [] ==> l.Built()[0].seqNr == Add16(base, 1))
  }

  /** What the sender has built, as the receiver sees it. */
  ghost function StreamOf(l: Ledger, base: u16): Stream {
    Stream(base, Payloads(l.Built()))
  }

  /** Packet i carries chunk i, under the number it has in the stream, wherever the numbers wrap. */
  lemma NumbersMatch(l: Ledger, base: u16, i: nat)
    requires Connected(l, base) && i < |l.Built()|
    ensures IsChunk(StreamOf(l, base), i, l.Built()[i])
  {
    PacketsConsecutive(l);
    Counted(l.Next(), |l.Built()|, i, base);
  }

  lemma Counted(next: u16, n: nat, i: nat, base: u16)
    requires i < n && Sub16(next, n) == Add16(base, 1)
    ensures Sub16(next, n - i) == Add16(base, 1 + i)
    decreases i
  {
    if i > 0 {
      Counted(next, n, i - 1, base);
      OneLess(next, n - i);
      OneMore(base, i);
    }
  }

  lemma OneLess(s: u16, n: nat)
    ensures Sub16(s, n) == Add16(Sub16(s, n + 1), 1)
  {
  }

  lemma OneMore(s: u16, n: nat)
    ensures Add16(s, 1 + n) == Add16(Add16(s, n), 1)
  {
  }

  lemma BuiltIsGenuine(l: Ledger, base: u16, p: Segment)
    requires Connected(l, base) && p in l.Built()
    ensures Genuine(StreamOf(l, base), p)
  {
    var i :| 0 <= i < |l.Built()| && l.Built()[i] == p;
    NumbersMatch(l, base, i);
  }

  lemma {:induction false} ReceivedIsGenuine(l: Ledger, base: u16, hs: seq<Happening>)
    requires Connected(l, base) && FromSender(AsCommented, l, hs)
    ensures GenuineRun(StreamOf(l, base), Received(AsCommented, hs))
  {
    if hs != [] {
      var front, h := hs[..|hs| - 1], hs[|hs| - 1];
      ReceivedIsGenuine(l, base, front);
      if !h.Reading? && IsData(AsCommented, h.bytes) {
        assert h in hs;
        var p :| p in l.Built() && IsSent(AsCommented, p, h.bytes);
        SentIsRead(p, h.bytes);
        BuiltIsGenuine(l, base, p);
      }
    }
  }

  lemma SentIsRead(p: Segment, d: seq<byte>)
    requires IsSent(AsCommented, p, d)
    ensures Extensions.Accept(AsCommented, d) == Result.Ok(Extensions.Incoming(p, []))
  {
    var now: u32, diff: u32 :| d == Encode(AsCommented, p, now, diff);
    Extensions.BuiltIsAccepted(AsCommented, p, now, diff);
  }

  lemma {:induction false} ReceivedHas(hs: seq<Happening>, h: Happening, e: Receive.Event)
    requires h in hs && ReceivedOne(AsCommented, h) == [e]
    ensures e in Received(AsCommented, hs)
  {
    if h != hs[|hs| - 1] {
      ReceivedHas(hs[..|hs| - 1], h, e);
    }
  }

  /** What is read is always a prefix of what was handed to SendTo, in however many calls: whatever the channel loses,
      repeats and reorders, whichever sends fail, and whatever the sizes of the reads; as long as the numbers do not
      wrap, there are at most 2^15 + 2 packets, and no failed reply does harm. */
  lemma TransferIsPrefix(l: Ledger, base: u16, hs: seq<Happening>)
    requires Connected(l, base) && InRange(StreamOf(l, base)) && FromSender(AsCommented, l, hs)
    requires HarmlessRun(StreamOf(l, base), Fresh(base), Received(AsCommented, hs))
    ensures After(AsCommented, Fresh(base), [], Received(AsCommented, hs)).1 <= l.Accepted()
  {
    ReceivedIsGenuine(l, base, hs);
    DeliveryIsPrefix(StreamOf(l, base), Received(AsCommented, hs));
    PacketsCarryBytes(l);
  }

  lemma DeliveredIsIncluded(l: Ledger, base: u16, hs: seq<Happening>, i: nat)
    requires Connected(l, base) && AllDelivered(AsCommented, l, hs) && i < |l.Built()|
    ensures Includes(StreamOf(l, base), Received(AsCommented, hs), i)
  {
    var p := l.Built()[i];
    NumbersMatch(l, base, i);
    ShortPackets(l, p);
    var h :| h in hs && h.Datagram? && IsSent(AsCommented, p, h.bytes);
    SentIsRead(p, h.bytes);
    ReceivedHas(hs, h, Receive.Arrival(p, h.open, h.n));
  }

  lemma NoneIsEmpty(l: Ledger)
    requires l.Legal()
    ensures forall c :: c in Payloads(l.Built()) ==> c != []
  {
    forall c | c in Payloads(l.Built()) ensures c != [] {
      var i :| 0 <= i < |l.Built()| && Payloads(l.Built())[i] == c;
      ShortPackets(l, l.Built()[i]);
    }
  }

  /** Once every packet has arrived, enough further reads return the rest: the whole is what was handed to SendTo, as
      long as the replies that fail are prompt. */
  lemma TransferIsComplete(l: Ledger, base: u16, hs: seq<Happening>, rest: seq<Receive.Event>)
    requires Connected(l, base) && InRange(StreamOf(l, base)) && |l.Built()| < 0x8000
    requires FromSender(AsCommented, l, hs) && AllDelivered(AsCommented, l, hs)
    requires PromptRun(StreamOf(l, base), Fresh(base), Received(AsCommented, hs))
    requires Reads(rest) && |rest| >= |l.Accepted()|
    ensures var (rx, out) := After(AsCommented, Fresh(base), [], Received(AsCommented, hs));
            After(AsCommented, rx, out, rest).1 == l.Accepted()
  {
    var st := StreamOf(l, base);
    ReceivedIsGenuine(l, base, hs);
    PacketsCarryBytes(l);
    NoneIsEmpty(l);
    forall i | 0 <= i < |st.chunks| ensures Includes(st, Received(AsCommented, hs), i) {
      DeliveredIsIncluded(l, base, hs, i);
    }
    DeliveryIsComplete(st, Received(AsCommented, hs), rest);
  }

  /** The ledger of a socket after the handshake and one call of SendTo. */
  ghost function OneBuffer(buf: seq<byte>, connId: u16, base: u16, ackNr: u16): Ledger {
    EnqueueAll(Opened, Chunks(buf, MSS - HEADER_SIZE), connId, Add16(base, 1), ackNr, false)
  }

  lemma OneBufferConnected(buf: seq<byte>, connId: u16, base: u16, ackNr: u16)
    ensures Connected(OneBuffer(buf, connId, base, ackNr), base)
    ensures StreamOf(OneBuffer(buf, connId, base, ackNr), base) == Stream(base, Chunks(buf, MSS - HEADER_SIZE))
    ensures OneBuffer(buf, connId, base, ackNr).Accepted() == buf
  {
    var chunks := Chunks(buf, MSS - HEADER_SIZE);
    forall c | c in chunks ensures 0 < |c| <= MSS - HEADER_SIZE {
      ChunksFit(buf, MSS - HEADER_SIZE, c);
    }
    ChunksCover(buf, MSS - HEADER_SIZE);
    EnqueueAllBuilds(Opened, chunks, connId, Add16(base, 1), ackNr, false);
    EnqueueAllAccepts(Opened, chunks, connId, Add16(base, 1), ackNr, false);
    EnqueueAllNumbers(Opened, chunks, connId, Add16(base, 1), ackNr, false);
    EnqueueAllLegal(Opened, chunks, connId, Add16(base, 1), ackNr, false);
    PacketsAre(OneBuffer(buf, connId, base, ackNr), chunks, connId, base, ackNr);
  }

  lemma PacketsAre(l: Ledger, chunks: seq<seq<byte>>, connId: u16, base: u16, ackNr: u16)
    requires l.Built() == [] + Packets(chunks, connId, Add16(base, 1), ackNr)
    ensures Payloads(l.Built()) == chunks && (l.Built() != [] ==> l.Built()[0].seqNr == Add16(base, 1))
  {
  }

  /** End to end, for one buffer: whatever of its packets is delivered, in any order and with repeats, what is read is a
      beginning of the buffer; and once all have been delivered, and the replies that failed were prompt, it is the
      buffer. */
  lemma BufferArrives(buf: seq<byte>, connId: u16, base: u16, ackNr: u16, hs: seq<Happening>, rest: seq<Receive.Event>)
    requires InRange(Stream(base, Chunks(buf, MSS - HEADER_SIZE)))
    requires FromSender(AsCommented, OneBuffer(buf, connId, base, ackNr), hs) && Reads(rest) && |rest| >= |buf|
    requires HarmlessRun(Stream(base, Chunks(buf, MSS - HEADER_SIZE)), Fresh(base), Received(AsCommented, hs))
    ensures var (rx, out) := After(AsCommented, Fresh(base), [], Received(AsCommented, hs));
            && out <= buf
            && (AllDelivered(AsCommented, OneBuffer(buf, connId, base, ackNr), hs) &&
                |Chunks(buf, MSS - HEADER_SIZE)| < 0x8000 &&
                PromptRun(Stream(base, Chunks(buf, MSS - HEADER_SIZE)), Fresh(base), Received(AsCommented, hs)) ==>
                  After(AsCommented, rx, out, rest).1 == buf)
  {
    var l := OneBuffer(buf, connId, base, ackNr);
    OneBufferConnected(buf, connId, base, ackNr);
    TransferIsPrefix(l, base, hs);
    if AllDelivered(AsCommented, l, hs) && |l.Built()| < 0x8000 &&
       PromptRun(StreamOf(l, base), Fresh(base), Received(AsCommented, hs)) {
      TransferIsComplete(l, base, hs, rest);
    }
  }

  /** As written nothing arrives: the receiver refuses every packet that this code builds. */
  lemma {:induction false} WrittenTransfersNothing(l: Ledger, base: u16, hs: seq<Happening>)
    requires forall h :: h in hs && !h.Reading? ==> exists p :: p in l.Built() && IsSent(AsWritten, p, h.bytes)
    ensures After(AsWritten, Fresh(base), [], Received(AsWritten, hs)) == (Fresh(base), [])
  {
    if hs != [] {
      var front, h := hs[..|hs| - 1], hs[|hs| - 1];
      WrittenTransfersNothing(l, base, front);
      assert h in hs;
      if !h.Reading? {
        var p :| p in l.Built() && IsSent(AsWritten, p, h.bytes);
        var now: u32, diff: u32 :| h.bytes == Encode(AsWritten, p, now, diff);
        Extensions.BuiltIsAccepted(AsWritten, p, now, diff);
        assert Received(AsWritten, hs) == Received(AsWritten, front);
      } else {
        AfterOneMore(AsWritten, Fresh(base), [], Received(AsWritten, front), Receive.Read(h.n));
        var none: seq<byte> := [];
        assert none + none == none && Received(AsWritten, hs) == Received(AsWritten, front) + [Receive.Read(h.n)];
      }
    }
  }

  /** The channel between two sockets: a datagram that the receiver has taken, and reads as a data packet, is one that
      the sender has written. It may be lost, repeated and reordered. */
  ghost predicate Channel(s: Socket.UtpSocket, r: Socket.UtpSocket)
    reads s`wire, r`inbox
  {
    forall d :: Socket.Datagram(d) in Socket.Taken(r.script, r.inbox) && IsData(AsCommented, Socket.Cut(d)) ==>
        Socket.Cut(d) in s.wire
  }

  /** End to end, for two sockets, the receiver having accepted the connection with nothing buffered: what it has handed
      on is a prefix of the bytes that the sender was given, and so is what was read from it if none of that went to
      nobody. */
  lemma SocketsTransfer(s: Socket.UtpSocket, r: Socket.UtpSocket, base: u16)
    requires s.build == AsCommented && s.SendInv() && s.Accounted()
    requires Connected(s.journal.ledger, base) && InRange(StreamOf(s.journal.ledger, base))
    requires r.Refined() && r.Accounted() && r.trace.rx0 == Fresh(base) && r.trace.out0 == []
    requires Channel(s, r) && HarmlessRun(StreamOf(s.journal.ledger, base), Fresh(base), r.trace.events)
    ensures r.trace.out <= s.journal.ledger.Accepted()
    ensures r.handout.Wasted() == [] ==> r.handout.Read() <= s.journal.ledger.Accepted()
  {
    TakenIsGenuine(s, r, base);
    r.HandedInOrder(StreamOf(s.journal.ledger, base));
    PacketsCarryBytes(s.journal.ledger);
    r.ReadIsHandedOnIff();
  }

  /** The other way: the receiver has made the connection, and the sender has accepted it, with an answer numbered
      base. */
  lemma SocketsTransferBack(s: Socket.UtpSocket, r: Socket.UtpSocket, base: u16)
    requires s.build == AsCommented && s.SendInv() && s.Accounted()
    requires Connected(s.journal.ledger, base) && InRange(StreamOf(s.journal.ledger, base)) && base < 0x7FFF
    requires r.Refined() && r.Accounted() && r.trace.rx0 == Connecting.Dialed(base) && r.trace.out0 == []
    requires Channel(s, r)
    requires Connecting.HarmlessRunDialed(StreamOf(s.journal.ledger, base), Connecting.Dialed(base), r.trace.events)
    ensures r.trace.out <= s.journal.ledger.Accepted()
    ensures r.handout.Wasted() == [] ==> r.handout.Read() <= s.journal.ledger.Accepted()
  {
    TakenIsGenuine(s, r, base);
    r.HandedInOrderDialed(StreamOf(s.journal.ledger, base));
    PacketsCarryBytes(s.journal.ledger);
    r.ReadIsHandedOnIff();
  }

  /** Every packet of the stream arrives, and the replies that fail are prompt; then as much is read as there are
      bytes. */
  ghost predicate AllThenReads(st: Stream, rx: Rx, es: seq<Receive.Event>, rest: seq<Receive.Event>) {
    && PromptRun(st, rx, es) && (forall i :: 0 <= i < |st.chunks| ==> Includes(st, es, i))
    && Reads(rest) && |rest| >= |Flatten(st.chunks)|
  }

  /** Nothing gets lost between two sockets: when every packet has arrived at the receiver and enough has been read, it
      has handed on all the bytes that the sender was given; and all have been read if none went to nobody. */
  lemma SocketsComplete(s: Socket.UtpSocket, r: Socket.UtpSocket, base: u16,
                        es: seq<Receive.Event>, rest: seq<Receive.Event>)
    requires s.build == AsCommented && s.SendInv() && s.Accounted()
    requires Connected(s.journal.ledger, base) && InRange(StreamOf(s.journal.ledger, base))
    requires |s.journal.ledger.Built()| < 0x8000
    requires r.Refined() && r.Accounted() && r.trace.rx0 == Fresh(base) && r.trace.out0 == []
    requires Channel(s, r) && r.trace.events == es + rest
    requires AllThenReads(StreamOf(s.journal.ledger, base), Fresh(base), es, rest)
    ensures r.trace.out == s.journal.ledger.Accepted()
    ensures r.handout.Wasted() == [] <==> r.handout.Read() == s.journal.ledger.Accepted()
  {
    var st := StreamOf(s.journal.ledger, base);
    TakenIsGenuine(s, r, base);
    PacketsCarryBytes(s.journal.ledger);
    NoneIsEmpty(s.journal.ledger);
    GenuineFront(st, es, rest);
    RestIsComplete(st, Fresh(base), [], es, rest);
    r.ReadIsHandedOnIff();
  }

  /** The other way: the same if all numbers are below 2^15. */
  lemma SocketsCompleteBack(s: Socket.UtpSocket, r: Socket.UtpSocket, base: u16,
                            es: seq<Receive.Event>, rest: seq<Receive.Event>)
    requires s.build == AsCommented && s.SendInv() && s.Accounted()
    requires Connected(s.journal.ledger, base) && base as int + |s.journal.ledger.Built()| < 0x8000
    requires r.Refined() && r.Accounted() && r.trace.rx0 == Connecting.Dialed(base) && r.trace.out0 == []
    requires Channel(s, r) && r.trace.events == es + rest
    requires AllThenReads(StreamOf(s.journal.ledger, base), Connecting.Dialed(base), es, rest)
    ensures r.trace.out == s.journal.ledger.Accepted()
    ensures r.handout.Wasted() == [] <==> r.handout.Read() == s.journal.ledger.Accepted()
  {
    var st := StreamOf(s.journal.ledger, base);
    TakenIsGenuine(s, r, base);
    PacketsCarryBytes(s.journal.ledger);
    NoneIsEmpty(s.journal.ledger);
    GenuineFront(st, es, rest);
    Connecting.SamePrompt(st, Connecting.Dialed(base), Fresh(base), es);
    RestIsComplete(st, Fresh(base), [], es, rest);
    Connecting.SameIfLow(st, Connecting.Dialed(base), Fresh(base), [], es + rest);
    r.ReadIsHandedOnIff();
  }

  lemma GenuineFront(st: Stream, es: seq<Receive.Event>, rest: seq<Receive.Event>)
    requires GenuineRun(st, es + rest)
    ensures GenuineRun(st, es)
  {
    forall e | e in es && !e.Read? ensures Genuine(st, e.p) {
      assert e in es + rest;
    }
  }

  lemma TakenIsGenuine(s: Socket.UtpSocket, r: Socket.UtpSocket, base: u16)
    requires s.build == AsCommented == r.build && s.Accounted() && r.Accounted() && Channel(s, r)
    requires Connected(s.journal.ledger, base)
    ensures GenuineRun(StreamOf(s.journal.ledger, base), r.trace.events)
  {
    forall e | e in r.trace.events && !e.Read? ensures Genuine(StreamOf(s.journal.ledger, base), e.p) {
      if e.p.ty.Data? {
        ArrivedIsBuilt(s, r, e);
        BuiltIsGenuine(s.journal.ledger, base, e.p);
      }
    }
  }

  lemma ArrivedIsBuilt(s: Socket.UtpSocket, r: Socket.UtpSocket, e: Receive.Event)
    requires s.build == AsCommented == r.build && s.Accounted() && r.Accounted() && Channel(s, r)
    requires e in r.trace.events && !e.Read? && e.p.ty.Data?
    ensures e.p in s.journal.ledger.Built()
  {
    var taken, built := Socket.Taken(r.script, r.inbox), s.journal.ledger.Built();
    assert Socket.Overheard(AsCommented, taken, e.p);
    var d :| Socket.Datagram(d) in taken && Extensions.Accept(AsCommented, Socket.Cut(d)).Ok? &&
             Extensions.Accept(AsCommented, Socket.Cut(d)).value.seg == e.p;
    assert IsData(AsCommented, Socket.Cut(d)) && Socket.Cut(d) in s.wire;
    assert Socket.Vouched(AsCommented, Socket.Cut(d), built);
  }

  /** Which packets of a socket are taken for acknowledged, whatever number it has seen acknowledged last: nothing in
      the window or the queue, if and only if the last of these packets is at most 2^15 ahead of that number, counting
      from the first. If the number is that of packet k, the first is ahead by one more than the packets that have left
      the window after it, and by one if none has. */
  lemma NothingUnackedIsSkippedIff(s: Socket.UtpSocket, base: u16)
    requires s.WindowInv() && s.SendInv() && s.journal.ledger.Lost() == [] && Connected(s.journal.ledger, base)
    ensures var w, a := s.sendWdw + s.unsentQueue, |s.Acked()|;
            && ((forall i :: 0 <= i < |w| ==> !Skips(w[i].seqNr, s.lastAcked))
                <==> w == [] || Sub16(Add16(base, 1 + a), s.lastAcked) as int + |w| <= 0x8001)
            && forall k :: k <= a < k + 0xFFFF && k >= 0 && s.lastAcked == Add16(base, k) ==>
                 Sub16(Add16(base, 1 + a), s.lastAcked) == a - k + 1
  {
    var w, a := s.sendWdw + s.unsentQueue, |s.Acked()|;
    assert s.journal.ledger.Built() == s.Acked() + w by {
      s.WindowIsConsecutive();
    }
    forall i | 0 <= i < |w| ensures w[i].seqNr == Add16(Add16(base, 1 + a), i) {
      NumbersMatch(s.journal.ledger, base, a + i);
      AddTwice(base, 1 + a, i);
    }
    NoneSkippedFrom(w, Add16(base, 1 + a), s.lastAcked);
    forall k | 0 <= k <= a < k + 0xFFFF && s.lastAcked == Add16(base, k)
      ensures Sub16(Add16(base, 1 + a), s.lastAcked) == a - k + 1
    {
      FirstIsAhead(base, k, a);
    }
  }

  lemma AddTwice(s: u16, j: nat, i: nat)
    ensures Add16(Add16(s, j), i) == Add16(s, j + i)
  {
  }

  lemma NoneSkippedFrom(w: seq<Segment>, first: u16, lastAcked: u16)
    requires forall i :: 0 <= i < |w| ==> w[i].seqNr == Add16(first, i)
    ensures (forall i :: 0 <= i < |w| ==> !Skips(w[i].seqNr, lastAcked))
            <==> w == [] || Sub16(first, lastAcked) as int + |w| <= 0x8001
  {
    NoneSkippedIff(first, lastAcked, |w|);
    if i :| 0 <= i < |w| && Skips(Add16(first, i), lastAcked) {
      assert Skips(w[i].seqNr, lastAcked);
    }
  }
}
