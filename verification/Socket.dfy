/** The uTP socket: sending, acknowledgements, retransmission and receiving, with the receives that happen inside a
    send. */
module Socket {
  import opened Bytes
  import opened Packet
  import opened Receive
  import opened Window
  import opened Handshake
  import opened Wrappers
  import Congestion
  import Connecting
  import Extensions
  import Sack
  import Strangers

  const BUF_SIZE: nat := 1500
  const MAX_RETRANSMISSION_RETRIES: nat := 5
  const MAX_SYN_RETRIES: nat := 5
  const WINDOW_SIZE: u32 := 1024 * 1024

  /** How a method of the socket ends. A crash is a Go panic: nothing runs after it. */
  datatype Outcome = Done | Failed(error: Error) | Crashed

  /** What the network does on the next read: deliver a datagram, stay silent until the deadline, or fail. */
  datatype Arrival = Datagram(bytes: seq<byte>) | Silence | Failure

  /** The history of what was handed to SendTo. */
  class Journal {
    ghost var ledger: Ledger

    constructor ()
      ensures ledger == Opened
    {
      ledger := Opened;
    }
  }

  class UtpSocket {
    const build: Build

    var state: SocketState
    var senderConnID: u16
    var rcvrConnID: u16
    var seqNr: u16
    var ackNr: u16
    var lastDropped: u16
    var lastAcked: u16
    var dupAckCount: u32
    var incomingBuff: seq<Segment>
    var pendingData: seq<byte>
    var sendWdw: seq<Segment>
    var unsentQueue: seq<Segment>
    var currWdw: u32
    var remoteWndSize: u32
    var cwnd: u32

    /** What the network will do; each read takes the first element. */
    var inbox: seq<Arrival>
    ghost const script: seq<Arrival>   // what it was to do at first

    // The history of the socket.
    const journal: Journal             // what SendTo was given, and what became of it
    ghost var sent: seq<Segment>       // packets that were put into the window, oldest first
    ghost var wire: seq<seq<byte>>     // datagrams written, oldest first
    ghost var writeFailed: bool        // whether a write has failed
    ghost var trace: Trace             // packets that arrived and reads that took place on this connection
    ghost var handout: Handout         // where the bytes have gone that were handed on

    /** The window is the end of what was sent, the bytes in flight are the bytes of the window (modulo the width of the
        counter), and the congestion window never falls below one packet. */
    ghost predicate WindowInv()
      reads this`sendWdw, this`sent, this`currWdw, this`cwnd
    {
      && Ends(sendWdw, sent)
      && currWdw == Trunc32(TotalLen(sendWdw)) && cwnd >= MSS
    }

    /** The packets that have left the window: those that were acknowledged. */
    ghost function Acked(): seq<Segment>
      requires WindowInv()
      reads this`sendWdw, this`sent, this`currWdw, this`cwnd
    {
      sent[..|sent| - |sendWdw|]
    }

    ghost predicate Shaken()
      reads this`state
    {
      Rank(state) > 0
    }

    ghost function RxView(): Rx
      reads this`ackNr, this`lastDropped, this`incomingBuff, this`pendingData
    {
      Rx(ackNr, lastDropped, incomingBuff, pendingData)
    }

    /** With the repairs, the receive side is what the reassembly functions make of the packets that arrived, those that
        could not be answered included, and the reads that took place; and the bytes that were handed on went to
        somebody or to nobody. */
    ghost predicate Refined()
      reads this`trace, this`ackNr, this`lastDropped, this`incomingBuff, this`pendingData, this`handout
    {
      build.AsCommented? && trace.rx == RxView() && trace.out == handout.All()
    }

    /** So few bytes are in flight that no send waits. */
    ghost predicate Roomy()
      reads this`sendWdw
    {
      TotalLen(sendWdw) < MIN_CWND * MSS
    }

    /** As written: nothing is or will be buffered. */
    ghost predicate Deaf()
      reads this`incomingBuff, this`pendingData
    {
      build.AsWritten? && incomingBuff == [] && pendingData == []
    }

    /** Every data packet that was written is one that SendTo has built, and so is every packet in the window; every
        packet that has arrived on this connection came in a datagram taken from the network. */
    ghost predicate Accounted()
      reads this`wire, this`sent, this`inbox, this`trace, journal
    {
      && AllVouched(build, wire, journal.ledger.Built()) && AllIn(sent, journal.ledger.Built())
      && Consumed(script, inbox) && AllHeard(build, Taken(script, inbox), trace.events)
    }

    /** Packets may only leave the front of the window; nothing is sent, queued or numbered; the connection stays what
        it is, and its state only advances, unless the socket gives up on its peer. */
    twostate predicate Quiet()
      reads this`unsentQueue, this`sent, this`sendWdw, this`inbox, this`wire, this`state, this`seqNr, this`senderConnID
      reads this`rcvrConnID
    {
      && unsentQueue == old(unsentQueue) && sent == old(sent)
      && |sendWdw| <= old(|sendWdw|)
      && |inbox| <= old(|inbox|) && old(wire) <= wire
      && (old(Shaken()) ==>
          Shaken() && seqNr == old(seqNr) && senderConnID == old(senderConnID) && rcvrConnID == old(rcvrConnID))
      && (Rank(state) >= old(Rank(state)) || state == Closed)
    }

    /** What every receive, and everything a receive can set off, leaves alone. */
    twostate predicate Frozen()
      reads this, journal
    {
      Quiet() && (old(Accounted()) ==> Accounted())
    }

    /** What the two builds keep of the receive side. */
    twostate predicate SameBuild()
      reads this`trace, this`ackNr, this`lastDropped, this`incomingBuff, this`pendingData, this`handout
      reads this`writeFailed
    {
      (old(Refined()) ==> Refined()) && (old(Deaf()) ==> Deaf()) && (old(writeFailed) ==> writeFailed)
    }

    /** Something may have been received, and nothing has been given to a caller of RecvFrom. */
    twostate predicate OnlyReceived()
      reads this, journal
    {
      Frozen() && SameBuild() && handout.Read() == old(handout.Read())
    }

    /** The window only gets shorter. */
    twostate lemma RoomStays()
      requires old(WindowInv()) && WindowInv() && sent == old(sent) && |sendWdw| <= old(|sendWdw|)
      ensures old(Roomy()) ==> Roomy()
    {
      var k := old(|sendWdw|) - |sendWdw|;
      assert sendWdw == old(sendWdw)[k..];
      TotalLenSplit(old(sendWdw), k);
    }

    /** Nothing has changed but what has been written. */
    twostate predicate OnlyWrote()
      reads this
    {
      && unchanged(`state, `senderConnID, `rcvrConnID, `seqNr, `ackNr, `lastDropped, `lastAcked, `dupAckCount)
      && unchanged(`incomingBuff, `pendingData, `sendWdw, `unsentQueue, `currWdw, `remoteWndSize, `cwnd, `inbox, `sent,
          `trace, `handout)
    }

    /** Nothing has changed but the window, what goes with it, and what has been written. */
    twostate predicate OnlyAdvanced()
      reads this
    {
      && unchanged(`state, `senderConnID, `rcvrConnID, `seqNr, `ackNr, `lastDropped)
      && unchanged(`incomingBuff, `pendingData, `unsentQueue, `remoteWndSize, `inbox, `sent, `trace, `handout)
    }

    /** The journal is about this socket's window, queue and numbers. */
    ghost predicate SendInv()
      reads this`sent, this`unsentQueue, this`seqNr, this`state, journal
    {
      && journal.ledger.Legal() && Numbered()
      && journal.ledger.Sent() == sent && journal.ledger.Queue() == unsentQueue
    }

    /** Unless data was queued before the handshake, seqNr is the number after the last packet built. */
    ghost predicate Numbered()
      reads this`seqNr, this`state, journal
    {
      journal.ledger.Built() == [] || journal.ledger.Early() || (Shaken() && journal.ledger.Next() == seqNr)
    }

    lemma SentIsAckedAndWindow()
      requires WindowInv()
      ensures sent == Acked() + sendWdw
    {
    }

    /** Nothing handed to SendTo is lost or reordered as long as no send has failed: acknowledged packets, window and
        queue are all the packets ever built, they carry the bytes handed to SendTo, and unless data was queued before
        the handshake, window and queue are numbered consecutively up to seqNr. */
    lemma WindowIsConsecutive()
      requires WindowInv() && SendInv() && journal.ledger.Lost() == []
      ensures Acked() + sendWdw + unsentQueue == journal.ledger.Built()
      ensures Flatten(Payloads(journal.ledger.Built())) == journal.ledger.Accepted()
      ensures journal.ledger.Built() == [] || journal.ledger.Early() || Consecutive(sendWdw + unsentQueue, seqNr)
    {
      var l := journal.ledger;
      NothingLost(l);
      SentIsAckedAndWindow();
      PacketsCarryBytes(l);
      assert l.Built() == Acked() + (sendWdw + unsentQueue);
      if !l.Early() {
        PacketsConsecutive(l);
        ConsecutiveSuffix(Acked(), sendWdw + unsentQueue, l.Next());
      }
    }

    /** Conservation: every byte handed to SendTo is, with the header of its packet, acknowledged, in flight, still to
        be sent, or in a packet dropped by a send that failed. This holds whenever Send is waiting in the middle of its
        loop, before packet i of the queue, and with i = 0 between calls. */
    lemma BytesAreConserved(queue: seq<Segment>, i: nat)
      requires i <= |queue| && Sending(queue, i) && WindowInv()
      ensures var l := journal.ledger;
              && |l.Accepted()| + HEADER_SIZE * |l.Built()|
                 == TotalLen(Acked()) + TotalLen(sendWdw) + TotalLen(queue[i..]) + TotalLen(l.Lost())
              && Subsequence(Acked() + sendWdw + queue[i..], l.Built())
    {
      SentIsAckedAndWindow();
      TotalLenAppend(Acked(), sendWdw);
      BytesConserved(journal.ledger);
      SentInOrder(journal.ledger);
    }

    /** Between calls nothing is half sent. */
    lemma IdleIsSending()
      ensures SendInv() <==> Sending(unsentQueue, 0)
    {
      assert unsentQueue[0..] == unsentQueue;
    }

    /** Cumulative acknowledgement by the socket: of a window of less than 2^15 packets, none of them built before the
        handshake and none lost, an acknowledgement removes exactly the packets at or before it in serial order,
        provided that the acknowledged packet is in the window. */
    lemma AckIsCumulative(ack: u16, n: nat, i: nat)
      requires WindowInv() && SendInv() && journal.ledger.Lost() == [] && !journal.ledger.Early()
      requires |sendWdw| < 0x8000 && AckedPrefix(sendWdw, ack, n) && i < |sendWdw|
      ensures i < n <==>
              (sendWdw[i].seqNr == ack || Ahead(ack, sendWdw[i].seqNr)) &&
              exists j :: 0 <= j < |sendWdw| && sendWdw[j].seqNr == ack
    {
      WindowIsConsecutive();
      assert journal.ledger.Built() != [];
      ConsecutivePrefix(sendWdw, unsentQueue, seqNr);
      CumulativeAck(sendWdw, Sub16(seqNr, |unsentQueue|), ack, n, i);
    }

    /** In-order, exactly-once delivery by the socket: on an accepted connection over which only packets of the peer's
        stream arrive, and as long as no failed reply does harm, the bytes handed on so far are a prefix of the
        stream. */
    lemma HandedInOrder(st: Stream)
      requires Refined() && trace.rx0 == Fresh(st.base) && trace.out0 == []
      requires InRange(st) && GenuineRun(st, trace.events) && HarmlessRun(st, Fresh(st.base), trace.events)
      ensures trace.out <= Flatten(st.chunks)
    {
      DeliveryIsPrefix(st, trace.events);
    }

    /** The same on a connection made by this side, if the peer counts its answer to the SYN and the first number is
        below 2^15. */
    lemma HandedInOrderDialed(st: Stream)
      requires Refined() && trace.rx0 == Connecting.Dialed(st.base) && trace.out0 == []
      requires InRange(st) && st.base < 0x7FFF && GenuineRun(st, trace.events)
      requires Connecting.HarmlessRunDialed(st, Connecting.Dialed(st.base), trace.events)
      ensures trace.out <= Flatten(st.chunks)
    {
      Connecting.RunKeepsDialed(st, trace.rx0, [], trace.events);
      Connecting.DialedIsPrefix(st, trace.rx, trace.out);
    }

    /** A socket that has not been connected to holds nothing, and has handed on nothing, if no data packet with a new
        number has arrived; so that a connection it accepts starts from Fresh. */
    lemma NothingHeardYet()
      requires Refined() && trace.rx0 == Fresh(0) && trace.out0 == []
      requires Strangers.ClosedRun(trace.events) && Strangers.NoneNew(0, trace.events)
      ensures incomingBuff == [] && pendingData == [] && handout.All() == []
    {
      Strangers.UntouchedIff(0, trace.events);
      assert trace.events[..|trace.events|] == trace.events;
    }

    /** What the callers of RecvFrom have been given is all that was handed on if and only if nothing was handed on into
        a buffer that nobody looks at; and in any case it is that with bytes left out. */
    lemma ReadIsHandedOnIff()
      requires Refined()
      ensures handout.Read() == trace.out <==> handout.Wasted() == []
      ensures |trace.out| == |handout.Read()| + |handout.Wasted()| && Subsequence(handout.Read(), trace.out)
    {
      ReadIsAllIff(handout);
      HandoutCounts(handout);
      ReadInOrder(handout);
    }

    /** What a waiting send wastes is what the flush hands on for the packet that arrives. */
    twostate lemma WastedBytes()
      requires old(Refined()) && Refined() && old(DeliversData()) && WastesNext()
      ensures var (rx, bytes) :=
              Receive.Step(AsCommented, old(RxView()), Receive.Arrival(old(NextPacket()), old(Open()), BUF_SIZE));
              RxView() == rx && trace.out == old(trace.out) + bytes && handout.Wasted() == old(handout.Wasted()) + bytes
    {
      AfterOneMore(AsCommented, trace.rx0, trace.out0, old(trace.events),
          Receive.Arrival(old(NextPacket()), old(Open()), BUF_SIZE));
      if handout != old(handout) {
        assert trace.out[old(|trace.out|)..] == handout.bytes;
      } else {
        assert trace.out[old(|trace.out|)..] == [];
      }
    }

    /** NewSocketFromRaw, for two connection ids drawn at random. */
    constructor (build: Build, id: u16, inbox: seq<Arrival>)
      ensures this.build == build && this.inbox == inbox && WindowInv()
      ensures state == New && (senderConnID, rcvrConnID) == RandSeqID(build, id)
      ensures seqNr == 1 && RxView() == Fresh(0) && lastAcked == 0 && dupAckCount == 0
      ensures sendWdw == [] && unsentQueue == [] && SendInv() && fresh(journal)
      ensures journal.ledger == Opened
      ensures trace.out == [] && handout == Unread && wire == [] && !writeFailed
      ensures if build.AsWritten? then Deaf() else Refined()
      ensures cwnd == INIT_CWND * MSS && script == inbox && Accounted()
    {
      this.build, this.inbox, script := build, inbox, inbox;
      state := New;
      senderConnID, rcvrConnID := RandSeqID(build, id).0, RandSeqID(build, id).1;
      seqNr, ackNr, lastDropped, lastAcked, dupAckCount := 1, 0, 0, 0, 0;
      incomingBuff, pendingData, sendWdw, unsentQueue := [], [], [], [];
      currWdw, remoteWndSize, cwnd := 0, 0, INIT_CWND * MSS;
      sent := [];
      journal := new Journal();
      wire, writeFailed, trace, handout := [], false, Receive.Begin(Fresh(0), []), Unread;
    }

    /** Makes a connection: sends SYNs until something arrives, and handles that. The result is no error only if the
        peer has acknowledged the SYN, or if what arrived was a SYN itself; the reply to that is not sent. */
    method Connect() returns (out: Outcome)
      requires WindowInv() && state == New && sendWdw == []
      modifies this
      ensures WindowInv() && Frozen() && (old(SendInv()) ==> SendInv())
      ensures out.Done? ==>
              if state == Connected then seqNr == Add16(old(seqNr), 1) else state == SynSent && seqNr == old(seqNr)
      ensures out.Done? ==> senderConnID == old(senderConnID) && rcvrConnID == old(rcvrConnID)
      ensures out.Crashed? ==> build.AsWritten?
    {
      var datagram: seq<byte>;
      out, datagram := SendSyn();
      if out.Done? {
        out := HandleAnswer(datagram);
      }
      ReceivingKeepsJournal();
    }

    /** Handles the first datagram that arrives. */
    method HandleAnswer(datagram: seq<byte>) returns (out: Outcome)
      requires WindowInv() && state == SynSent
      modifies this
      ensures WindowInv() && Frozen()
      ensures out.Done? ==>
              if state == Connected then seqNr == Add16(old(seqNr), 1) else state == SynSent && seqNr == old(seqNr)
      ensures out.Done? ==> senderConnID == old(senderConnID) && rcvrConnID == old(rcvrConnID)
      ensures out.Crashed? ==> build.AsWritten?
    {
      var r := Extensions.ReadPacket(build, datagram);
      if !r.Ok? {
        return Failed(Malformed);
      }
      var reply;
      out, reply := HandlePacket(r.value.seg, r.value.exts);
    }

    /** Sends the SYN until there is an answer. */
    method SendSyn() returns (out: Outcome, datagram: seq<byte>)
      requires WindowInv()
      modifies this`wire, this`writeFailed, this`state, this`inbox
      ensures !out.Crashed? && (out.Done? ==> state == SynSent)
      ensures state == SynSent || state == old(state)
      ensures |inbox| <= old(|inbox|) && old(wire) <= wire && (old(Accounted()) ==> Accounted())
      ensures out.Done? ==> wire != [] && Transmits(wire[|wire| - 1], Segment(Syn, rcvrConnID, 0, seqNr, 0, []))
    {
      datagram := [];
      for i := 0 to MAX_SYN_RETRIES
        invariant |inbox| <= old(|inbox|) && old(wire) <= wire && (state == SynSent || (i == 0 && state == old(state)))
        invariant old(Accounted()) ==> Accounted()
        invariant i > 0 ==> wire != [] && Transmits(wire[|wire| - 1], Segment(Syn, rcvrConnID, 0, seqNr, 0, []))
      {
        var ok := SendOneSyn();
        if !ok {
          return Failed(Network), [];
        }
        var silent;
        out, datagram, silent := AwaitAnswer();
        if !silent {
          return;
        }
      }
      out := Done;
    }

    /** Waits for an answer: a datagram, or silence, or an error. */
    method AwaitAnswer() returns (out: Outcome, datagram: seq<byte>, silent: bool)
      modifies this`inbox
      ensures |inbox| <= old(|inbox|) && (old(Accounted()) ==> Accounted()) && !out.Crashed?
    {
      if inbox == [] {
        return Failed(Network), [], false;
      }
      var arrival := NextArrival();
      match arrival
      case Datagram(d) => return Done, d[..Min(|d|, BUF_SIZE)], false;
      case Failure => return Failed(Network), [], false;
      case Silence => return Done, [], true;
    }

    method SendOneSyn() returns (ok: bool)
      modifies this`wire, this`writeFailed, this`state
      ensures old(wire) <= wire && (old(Accounted()) ==> Accounted()) && state == if ok then SynSent else old(state)
      ensures ok ==> wire != [] && Transmits(wire[|wire| - 1], Segment(Syn, rcvrConnID, 0, seqNr, 0, []))
    {
      ok := Transmit(Segment(Syn, rcvrConnID, 0, seqNr, 0, []));
      if ok {
        state := SynSent;
      }
    }

    // ---------- the network ----------

    /** What the network does next. */
    method NextArrival() returns (arrival: Arrival)
      requires inbox != []
      modifies this`inbox
      ensures inbox == old(inbox)[1..] && arrival == old(inbox)[0]
      ensures old(Accounted()) ==> Accounted() && arrival in Taken(script, inbox)
    {
      TakeOne(build, script, inbox, trace.events);
      arrival := inbox[0];
      inbox := inbox[1..];
    }

    /** Writes a datagram, which may fail. */
    method Write(bytes: seq<byte>) returns (ok: bool)
      modifies this`wire, this`writeFailed
      ensures wire == if ok then old(wire) + [bytes] else old(wire)
      ensures writeFailed == (old(writeFailed) || !ok)
    {
      ok := *;
      if ok {
        wire := wire + [bytes];
      } else {
        writeFailed := true;
      }
    }

    /** Writes the packet for p, with timestamps from the clock. */
    method Transmit(p: Segment) returns (ok: bool)
      modifies this`wire, this`writeFailed
      ensures writeFailed == (old(writeFailed) || !ok) && old(wire) <= wire
      ensures if ok then |wire| == old(|wire|) + 1 && Transmits(wire[old(|wire|)], p) else wire == old(wire)
      ensures old(Accounted()) && (p.ty.Data? ==> p in journal.ledger.Built()) ==> Accounted()
    {
      var now: u32, diff: u32 := *, *;
      EncodeDecode(build, p, now, diff);
      Extensions.BuiltIsAccepted(build, p, now, diff);
      VouchedOneMore(build, wire, Encode(build, p, now, diff), journal.ledger.Built());
      ok := Write(Encode(build, p, now, diff));
    }

    // ---------- receiving ----------

    /** The number of buffered packets with a smaller sequence number. */
    method CountSmaller(s: u16) returns (i: nat)
      ensures i == CountBelow(incomingBuff, s)
    {
      i := 0;
      for k := 0 to |incomingBuff|
        invariant i == CountBelow(incomingBuff[..k], s)
      {
        assert incomingBuff[..k + 1][..k] == incomingBuff[..k];
        if incomingBuff[k].seqNr < s {
          i := i + 1;
        }
      }
      assert incomingBuff[..|incomingBuff|] == incomingBuff;
    }

    method InsertIntoBuffer(p: Segment) returns (out: Outcome)
      modifies this`incomingBuff
      ensures out.Crashed? <==> Insert(build, old(incomingBuff), p).Crash?
      ensures out == Failed(Misplaced) <==> Insert(build, old(incomingBuff), p).OutOfBounds?
      ensures out.Done? <==> Insert(build, old(incomingBuff), p).Stored?
      ensures incomingBuff == if out.Done? then Insert(build, old(incomingBuff), p).buff else old(incomingBuff)
    {
      if incomingBuff == [] {
        if build.AsWritten? {
          return Crashed; // reads the last element of an empty buffer
        }
        incomingBuff := [p];
      } else if p.seqNr > incomingBuff[|incomingBuff| - 1].seqNr {
        incomingBuff := incomingBuff + [p];
      } else {
        var i := CountSmaller(p.seqNr);
        if i < |incomingBuff| {
          if incomingBuff[i].seqNr != p.seqNr {
            incomingBuff := incomingBuff[..i] + [p] + incomingBuff[i..];
          }
        } else {
          return Failed(Misplaced);
        }
      }
      out := Done;
    }

    method AdvIncomingBuf()
      modifies this`incomingBuff, this`ackNr, this`lastDropped
      ensures RxView() == Advance(old(RxView()))
    {
      if incomingBuff != [] {
        var p := incomingBuff[0];
        incomingBuff := incomingBuff[1..];
        ackNr := p.seqNr;
        lastDropped := ackNr;
      }
    }

    /** Hands on up to n bytes: the rest of the packet that was partly read, or else the packet that is due. */
    method FlushIncomingBuffer(n: nat) returns (bytes: seq<byte>)
      modifies this`incomingBuff, this`ackNr, this`lastDropped, this`pendingData
      ensures (RxView(), bytes) == Flush(old(RxView()), n)
    {
      if pendingData != [] {
        var nFlushed := Min(n, |pendingData|);
        bytes := pendingData[..nFlushed];
        if nFlushed == |pendingData| {
          pendingData := [];
          AdvIncomingBuf();
        } else {
          pendingData := pendingData[nFlushed..];
        }
      } else if incomingBuff != [] && (ackNr == incomingBuff[0].seqNr || Add16(ackNr, 1) == incomingBuff[0].seqNr) {
        var data := incomingBuff[0].payload;
        var nFlushed := Min(n, |data|);
        bytes := data[..nFlushed];
        if nFlushed == |data| {
          AdvIncomingBuf();
        } else {
          pendingData := data[nFlushed..];
        }
      } else {
        bytes := [];
      }
    }

    // ---------- handling a packet ----------

    ghost function Ctl(): Control
      reads this`state, this`senderConnID, this`rcvrConnID
    {
      Control(state, senderConnID, rcvrConnID)
    }

    /** A reply of the given type. The timestamps are added when it is written. */
    function PrepareReply(ty: PacketType): Segment
      reads this
    {
      Segment(ty, senderConnID, WINDOW_SIZE, seqNr, ackNr, [])
    }

    /** The selective acknowledgement to go with a reply; with the repairs there always is one, if only an empty one. */
    method SackBytes() returns (out: Outcome, sack: seq<byte>)
      ensures out == Done || (out == Crashed && build.AsWritten? && incomingBuff != [])
      ensures out.Done? ==> Sack.Vector(sack) == Sack.Fill(build, [], Sack.Stash(build, incomingBuff, seqNr, ackNr))
    {
      var v := Sack.BuildSelectiveAck(build, incomingBuff, seqNr, ackNr);
      if v.OutOfRange? {
        if build.AsCommented? {
          Sack.FillSets([], Sack.Stash(build, incomingBuff, seqNr, ackNr), 0);
        }
        return Crashed, [];
      }
      return Done, v.bytes;
    }

    method HandleDataPacket(p: Segment) returns (out: Outcome, reply: Reply)
      ensures out == Done || (out == Crashed && build.AsWritten? && incomingBuff != [])
      ensures reply.head == PrepareReply(if state.FinSent? then Fin else State)
      ensures out.Done? ==>
                if Sub16(p.seqNr, ackNr) <= 1 then reply.sack == []
                else Sack.Vector(reply.sack) == Sack.Fill(build, [], Sack.Stash(build, incomingBuff, seqNr, ackNr))
    {
      out, reply := Done, Answer(PrepareReply(if state.FinSent? then Fin else State), []);
      if Sub16(p.seqNr, ackNr) > 1 {
        var sack;
        out, sack := SackBytes();
        reply := Answer(reply.head, sack);
      }
    }

    /** Handles an incoming packet, and says what to reply. Only an acknowledgement can set off more receives. */
    method HandlePacket(p: Segment, exts: seq<Extensions.Ext>) returns (out: Outcome, reply: Option<Reply>)
      requires WindowInv() && (build.AsWritten? ==> exts == [])
      modifies this
      ensures WindowInv() && Frozen() && (old(writeFailed) ==> writeFailed)
      ensures old(Refined()) ==> if out.Done? then Midway(p, old(Open())) else Refined()
      ensures old(Deaf()) ==> Deaf()
      ensures reply.Some? ==> Bare(reply.value)
      ensures out.Crashed? ==> build.AsWritten?
      ensures handout.Read() == old(handout.Read())
      ensures old(Roomy()) || !old(MayNest(p)) ==> trace.out == old(trace.out) && handout == old(handout)
      ensures p.ty.Data? ==> trace == old(trace)
      ensures !old(MayNest(p)) && !out.Crashed? ==>
                var (c, a) := Handle(old(Ctl()), p.ty, p.connId, p.ackNr == old(seqNr));
                Ctl() == c && Says(out, reply, a, senderConnID) && Numbers(p, old(state), old(seqNr), old(lastAcked))
      ensures old(state.New?) && p.ty.Syn? ==> AcceptedFrom(p, reply, old(incomingBuff), old(pendingData))
      ensures old(state.New?) && p.ty.Syn? ==>
                (trace.rx0 == Fresh(p.seqNr) <==> old(incomingBuff == [] && pendingData == []))
      ensures !old(MayNest(p)) ==> unchanged(`inbox, `wire, `sendWdw, `currWdw, `cwnd)
      ensures old(MayNest(p)) && out.Done? && |inbox| == old(|inbox|) ==>
                reply == None && Ctl() == old(Ctl()) && seqNr == old(seqNr) && lastAcked == p.ackNr
      decreases |inbox|, 8
    {
      var isAck;
      out, reply, isAck := Classify(p);
      TraceRestarted();
      if isAck {
        var n, newly;
        out, n, newly := HandleStatePacket(p, exts);
      }
    }

    /** A connection that has just been made has heard nothing. */
    twostate lemma TraceRestarted()
      requires unchanged(`wire, `sent, `inbox) && unchanged(journal) && (trace == old(trace) || trace.events == [])
      ensures old(Accounted()) ==> Accounted()
    {
    }

    /** The first part of handlePacket: acknowledge the number, check the connection id, note the peer's window, and
        then the table of states and packet types. */
    method Classify(p: Segment) returns (out: Outcome, reply: Option<Reply>, isAck: bool)
      modifies this`state, this`ackNr, this`seqNr, this`senderConnID, this`rcvrConnID, this`lastDropped, this`lastAcked
      modifies this`remoteWndSize, this`trace
      ensures isAck <==> old(MayNest(p))
      ensures isAck ==> out.Done? && reply == None
      ensures var (c, a) := Handle(old(Ctl()), p.ty, p.connId, p.ackNr == old(seqNr));
              out.Crashed? || (Ctl() == c && (isAck || Says(out, reply, a, senderConnID)))
      ensures out.Crashed? ==> Ctl() == old(Ctl())
      ensures remoteWndSize == if old(Accepts(Ctl(), p.ty, p.connId)) then p.wndSize else old(remoteWndSize)
      ensures old(Refined()) ==> if out.Done? then Midway(p, old(Open())) else Refined()
      ensures old(Connects(p)) ==>
              trace.rx0 == RxView() && trace.events == [] && trace.out == old(trace.out) && ackNr == p.seqNr &&
              (p.ty.Syn? ==> lastDropped == ackNr)
      ensures !old(Connects(p)) ==>
              ackNr == old(AckOnArrival(p)) && lastDropped == old(lastDropped) && trace == old(trace)
      ensures Numbers(p, old(state), old(seqNr), old(lastAcked))
      ensures old(state.New?) && p.ty.Syn? ==> AcceptedFrom(p, reply, old(incomingBuff), old(pendingData))
      ensures reply.Some? ==> Bare(reply.value)
      ensures out.Crashed? ==> build.AsWritten? && incomingBuff != []
    {
      ackNr := AckOnArrival(p);
      if !p.ty.Syn? && !state.SynSent? && !(p.connId == senderConnID || p.connId == rcvrConnID) {
        out, reply, isAck := Done, Some(Answer(PrepareReply(Reset), [])), false;
      } else {
        remoteWndSize := p.wndSize;
        out, reply, isAck := Dispatch(p);
      }
      assert old(Refined()) ==> if out.Done? then Midway(p, old(Open())) else Refined();
    }

    /** The table of states and packet types, which is the connection's state machine. The last result says that p is an
        acknowledgement still to be handled. On the receive side nothing changes unless a connection is made. */
    method Dispatch(p: Segment) returns (out: Outcome, reply: Option<Reply>, isAck: bool)
      requires Accepts(Ctl(), p.ty, p.connId)
      modifies this`state, this`ackNr, this`seqNr, this`senderConnID, this`rcvrConnID, this`lastDropped, this`lastAcked
      modifies this`trace
      ensures isAck <==> old(MayNest(p))
      ensures isAck ==>
              out.Done? && reply == None && ackNr == old(ackNr) && lastDropped == old(lastDropped) &&
              trace == old(trace)
      ensures out.Crashed? ==> build.AsWritten? && incomingBuff != [] && Ctl() == old(Ctl())
      ensures var (c, a) := Handle(old(Ctl()), p.ty, p.connId, p.ackNr == old(seqNr));
              out.Crashed? || (Ctl() == c && (isAck || Says(out, reply, a, senderConnID)))
      ensures Numbers(p, old(state), old(seqNr), old(lastAcked))
      ensures old(state.New?) && p.ty.Syn? ==> AcceptedFrom(p, reply, old(incomingBuff), old(pendingData))
      ensures Rank(state) >= old(Rank(state))
      ensures reply.Some? ==> Bare(reply.value)
      ensures if old(Connects(p)) then
                ackNr == p.seqNr && trace == Receive.Begin(RxView(), old(trace).out) &&
                    (p.ty.Syn? ==> lastDropped == ackNr)
              else
                ackNr == old(ackNr) && lastDropped == old(lastDropped) && trace == old(trace)
    {
      out, reply, isAck := Done, None, false;
      if state.New? && p.ty.Syn? {
        ackNr := p.seqNr;
        seqNr := *;
        rcvrConnID := Add16(p.connId, 1);
        senderConnID := p.connId;
        state := Connected;
        lastDropped := ackNr;
        trace := Receive.Begin(RxView(), trace.out);
        reply := Some(Answer(PrepareReply(State), []));
        if build.AsCommented? { // the answer is counted, and what came before the first packet is acknowledged
          lastAcked := seqNr;
          BackOne(seqNr);
          seqNr := Add16(seqNr, 1);
        }
      } else if p.ty.Syn? {
        reply := Some(Answer(PrepareReply(Reset), []));
      } else if state.SynSent? && p.ty.State? {
        ackNr := p.seqNr;
        seqNr := Add16(seqNr, 1);
        state := Connected;
        lastAcked := p.ackNr;
        trace := Receive.Begin(RxView(), trace.out);
      } else if state.SynSent? {
        out := Failed(InvalidReply);
      } else if (state.Connected? && p.ty.Data?) || (state.FinSent? && p.ty.Data?) {
        var r;
        out, r := HandleDataPacket(p);
        reply := Some(r);
      } else if state.Connected? && p.ty.State? {
        isAck := true;
      } else if (state.Connected? && p.ty.Fin?) || (state.FinSent? && p.ty.Fin?) {
        var sack: seq<byte> := [];
        if Sub16(p.seqNr, p.ackNr) > 1 {
          out, sack := SackBytes();
        }
        if out.Done? {
          reply := Some(Answer(PrepareReply(State), sack));
          state := Closed;
        }
      } else if state.Closed? && p.ty.Fin? {
        reply := Some(Answer(PrepareReply(State), []));
      } else if state.FinSent? && p.ty.State? {
        if p.ackNr == seqNr {
          state := Closed;
        } else {
          isAck := true;
        }
      } else if p.ty.Reset? {
        state := ResetReceived;
        out := Failed(ConnectionReset);
      } else {
        out := Failed(Unimplemented);
      }
    }

    function AckOnArrival(p: Segment): u16
      reads this`state, this`ackNr
    {
      if build.AsWritten? || Open() then Acknowledge(build, ackNr, p) else ackNr
    }

    predicate Open()
      reads this`state
    {
      state.Connected? || state.FinSent?
    }

    /** Refined, but for the effect of p: its number has been acknowledged, and it is not stored yet. */
    ghost predicate Midway(p: Segment, open: bool)
      reads this`trace, this`ackNr, this`lastDropped, this`incomingBuff, this`pendingData, this`handout
    {
      build.AsCommented? && trace.out == handout.All() &&
      RxView() ==
        if p.ty.Data? && open then trace.rx.(ackNr := Acknowledge(AsCommented, trace.rx.ackNr, p)) else trace.rx
    }

    /** Does p make a connection? */
    ghost predicate Connects(p: Segment)
      reads this`state
    {
      (state.New? && p.ty.Syn?) || (state.SynSent? && p.ty.State?)
    }

    /** The numbers of this socket after p: the connecting side counts its SYN when that is acknowledged, the accepting
        side draws a new number, which with the repairs it counts and takes for acknowledged, and otherwise they
        stay. */
    ghost predicate Numbers(p: Segment, was: SocketState, seqWas: u16, ackedWas: u16)
      reads this`seqNr, this`lastAcked
    {
      if was.SynSent? && p.ty.State? then seqNr == Add16(seqWas, 1) && lastAcked == p.ackNr
      else if was.New? && p.ty.Syn? then lastAcked == if build.AsWritten? then ackedWas else Sub16(seqNr, 1)
      else lastAcked == ackedWas && seqNr == seqWas
    }

    /** A connection has been accepted: the receive side goes on from the number of p with whatever had been buffered,
        and the answer carries the number before the first data packet, as written that of the first data packet
        itself. */
    ghost predicate AcceptedFrom(p: Segment, reply: Option<Reply>, buff: seq<Segment>, pending: seq<byte>)
      reads this`trace, this`seqNr
    {
      && trace.rx0 == Rx(p.seqNr, p.seqNr, buff, pending) && trace.events == []
      && reply.Some? && reply.value.head.ackNr == p.seqNr
      && reply.value.head.seqNr == if build.AsWritten? then seqNr else Sub16(seqNr, 1)
    }

    /** Is p an acknowledgement whose handling may retransmit, and so receive more? */
    ghost predicate MayNest(p: Segment)
      reads this`state, this`seqNr, this`senderConnID, this`rcvrConnID
    {
      p.ty.State? && Accepts(Ctl(), p.ty, p.connId) && Open() && (state.FinSent? ==> p.ackNr != seqNr)
    }

    // ---------- acknowledgements and the send window ----------

    /** Handles an acknowledgement: of n packets, with so many bytes. If nothing else is received meanwhile, exactly
        these packets leave the window. */
    method HandleStatePacket(p: Segment, exts: seq<Extensions.Ext>) returns (out: Outcome, n: nat, bytesNewlyAcked: nat)
      requires WindowInv() && (build.AsWritten? ==> exts == [])
      modifies this
      ensures WindowInv() && OnlyReceived()
      ensures out.Done? || (out.Crashed? && build.AsWritten?)
      ensures AckedPrefix(old(sendWdw), p.ackNr, n) && bytesNewlyAcked == TotalLen(old(sendWdw)[..n])
      ensures out.Done? && |inbox| == old(|inbox|) ==>
                && Advances(old(sendWdw), old(currWdw), p.ackNr, n, sendWdw, currWdw) && OnlyAdvanced()
                && lastAcked == p.ackNr &&
                    dupAckCount == if p.ackNr == old(lastAcked) then Trunc32(old(dupAckCount) + 1) else 1
      ensures old(Roomy()) ==> trace == old(trace) && handout == old(handout)
      decreases |inbox|, 7
    {
      n, bytesNewlyAcked := NoteAck(p.ackNr);
      ghost var k;
      assert Quiet() && SameBuild() && Roomy() == old(Roomy());
      out, k := RepairAndAdvance(p.ackNr, exts);
      if out.Done? && |inbox| == old(|inbox|) {
        AckedPrefixUnique(old(sendWdw), p.ackNr, n, k);
      }
    }

    /** What sending lost packets again leaves alone: everything that a receive leaves alone, and the window too unless
        something is received. */
    twostate predicate Resent()
      reads this, journal
    {
      && OnlyReceived()
      && (|inbox| == old(|inbox|) ==> OnlyWrote())
      && (old(Roomy()) ==> Roomy() && trace == old(trace) && handout == old(handout))
    }

    /** The second part of handling an acknowledgement: send again what seems lost, and then advance the window. Whether
        the packet has a selective acknowledgement makes no difference to the last packet sent again, because the
        extensions have been used up when they are looked at the second time (Extensions.Collect). */
    method RepairAndAdvance(ack: u16, exts: seq<Extensions.Ext>) returns (out: Outcome, ghost k: nat)
      requires WindowInv() && lastAcked == ack && (build.AsWritten? ==> exts == [])
      modifies this
      ensures WindowInv() && OnlyReceived()
      ensures out.Done? || (out.Crashed? && build.AsWritten?)
      ensures out.Done? && |inbox| == old(|inbox|) ==>
                && Advances(old(sendWdw), old(currWdw), ack, k, sendWdw, currWdw)
                && OnlyAdvanced() && unchanged(`lastAcked, `dupAckCount)
      ensures old(Roomy()) ==> trace == old(trace) && handout == old(handout)
      decreases |inbox|, 6
    {
      k := 0;
      var pktLossDetected := sendWdw != [] && dupAckCount == 3;
      var reported;
      out, reported := Repair(ack, exts);
      if out.Done? {
        assert Quiet() && SameBuild();
        k := Conclude(pktLossDetected || reported);
      }
    }

    /** The first packet of the window is the one after the acknowledged one, there is room in the window, and this is
        not the third acknowledgement of this number. */
    ghost predicate FirstIsDueAgain(ack: u16)
      reads this
    {
      && sendWdw != [] && sendWdw[0].seqNr == Add16(ack, 1) && currWdw < MaxInFlight()
      && dupAckCount != 3 && !Skips(Add16(ack, 1), lastAcked)
    }

    /** Sends again what the extensions report, and the packet after the acknowledged one, unless this is the third
        acknowledgement of the same number. */
    method Repair(ack: u16, exts: seq<Extensions.Ext>) returns (out: Outcome, reported: bool)
      requires WindowInv() && (build.AsWritten? ==> exts == [])
      modifies this
      ensures WindowInv() && Resent()
      ensures out.Done? || (out.Crashed? && build.AsWritten?)
      ensures exts == [] && (old(sendWdw) == [] || old(dupAckCount) == 3) ==> out.Done? && unchanged(this)
      ensures exts == [] && out.Done? && old(FirstIsDueAgain(ack)) ==>
                writeFailed || (wire != [] && Transmits(wire[|wire| - 1], old(sendWdw)[0]))
      decreases |inbox|, 6, 2
    {
      out, reported := ResendReported(ack, exts);
      if out.Done? && sendWdw != [] && dupAckCount != 3 {
        ghost var at;
        out, at := ResendLostPacket(Add16(ack, 1));
      }
    }

    /** Goes through the extensions, and says whether a selective acknowledgement reported a loss. */
    method ResendReported(ack: u16, exts: seq<Extensions.Ext>) returns (out: Outcome, reported: bool)
      requires WindowInv() && (build.AsWritten? ==> exts == [])
      modifies this
      ensures WindowInv() && Resent()
      ensures out.Done? || (out.Crashed? && build.AsWritten?)
      ensures exts == [] ==> out.Done? && unchanged(this)
      decreases |inbox|, 6, 1
    {
      out, reported := Done, false;
      for i := 0 to |exts|
        invariant WindowInv() && Resent() && out.Done? && (exts == [] ==> unchanged(this))
      {
        if exts[i].ty == Extensions.SELECTIVE_ACK {
          var more;
          out, more := ResendFor(ack, exts[i].data);
          reported := reported || more;
        }
      }
    }

    /** Handles one selective acknowledgement. If three or more packets beyond the missing one have arrived, the missing
        one is sent again; and so is every packet before the last one sent that the vector reports as lost. */
    method ResendFor(ack: u16, data: seq<byte>) returns (out: Outcome, reported: bool)
      requires WindowInv() && build.AsCommented?
      modifies this
      ensures WindowInv() && Resent() && out.Done?
      ensures |inbox| == old(|inbox|) ==>
                (reported <==> |Sack.SetBits(data, 8 * |data|)| >= 3 || ReportsUnset(ack, data))
      decreases |inbox|, 6, 0
    {
      var threeSet, unset;
      out, threeSet := ResendMissing(ack, data);
      out, unset := ResendUnset(ack, data);
      reported := threeSet || unset;
    }

    /** Is there an unset bit for a packet before the last one sent? */
    predicate ReportsUnset(ack: u16, data: seq<byte>)
      reads this`sendWdw
    {
      sendWdw != [] && Sack.Lost(data, ack, sendWdw[|sendWdw| - 1].seqNr, 0) != []
    }

    /** Sends the packet after the acknowledged one again if three or more bits are set. */
    method ResendMissing(ack: u16, data: seq<byte>) returns (out: Outcome, threeSet: bool)
      requires WindowInv() && build.AsCommented?
      modifies this
      ensures WindowInv() && Resent() && out.Done?
      ensures threeSet <==> |Sack.SetBits(data, 8 * |data|)| >= 3
      decreases |inbox|, 5, 2
    {
      out := Done;
      var ones := Sack.CountOnes(build, data);
      threeSet := ones >= 3;
      if threeSet {
        ghost var at;
        out, at := ResendLostPacket(Add16(ack, 1));
      }
    }

    /** Sends again every packet before the last one sent whose bit is not set. */
    method ResendUnset(ack: u16, data: seq<byte>) returns (out: Outcome, any: bool)
      requires WindowInv() && build.AsCommented?
      modifies this
      ensures WindowInv() && Resent() && out.Done?
      ensures any <==> old(ReportsUnset(ack, data))
      decreases |inbox|, 5, 2
    {
      if sendWdw == [] {
        return Done, false;
      }
      var lost := Sack.LostPackets(data, ack, sendWdw[|sendWdw| - 1].seqNr);
      out := ResendAll(lost);
      any := lost != [];
    }

    method ResendAll(lost: seq<u16>) returns (out: Outcome)
      requires WindowInv() && build.AsCommented?
      modifies this
      ensures WindowInv() && Resent() && out.Done?
      decreases |inbox|, 5, 1
    {
      out := Done;
      for i := 0 to |lost|
        invariant WindowInv() && Resent() && out.Done?
      {
        ghost var at;
        out, at := ResendLostPacket(lost[i]);
      }
    }

    /** Halves the congestion window if a packet was lost, and advances the send window. */
    method Conclude(pktLossDetected: bool) returns (ghost n: nat)
      requires WindowInv()
      modifies this`cwnd, this`sendWdw, this`currWdw
      ensures WindowInv() && Advances(old(sendWdw), old(currWdw), lastAcked, n, sendWdw, currWdw)
      ensures cwnd == if pktLossDetected then Max(old(cwnd) / 2, MIN_CWND * MSS) else old(cwnd)
    {
      if pktLossDetected {
        cwnd := Max(cwnd / 2, MIN_CWND * MSS);
      }
      n := AdvanceSendWindow();
    }

    /** Counts an acknowledgement, and adapts the congestion window to it. */
    method NoteAck(ack: u16) returns (n: nat, bytesNewlyAcked: nat)
      requires WindowInv()
      modifies this`lastAcked, this`dupAckCount, this`cwnd
      ensures WindowInv() && lastAcked == ack
      ensures dupAckCount == if ack == old(lastAcked) then Trunc32(old(dupAckCount) + 1) else 1
      ensures AckedPrefix(sendWdw, ack, n) && bytesNewlyAcked == TotalLen(sendWdw[..n])
      ensures if n == 0 then cwnd == old(cwnd)
              else MIN_CWND * MSS <= cwnd <= Max(MIN_CWND * MSS, Trunc32(currWdw + ALLOWED_INCREASE * MSS))
    {
      if ack == lastAcked {
        dupAckCount := Trunc32(dupAckCount + 1);
      } else {
        lastAcked := ack;
        dupAckCount := 1;
      }
      n, bytesNewlyAcked := NewlyAcked(ack);
      if n > 0 {
        var queuingDelay: u32 := *;
        UpdateCongestionWdw(Congestion.OffTarget(build, queuingDelay), bytesNewlyAcked);
      }
    }

    /** The packets up to the acknowledged one, if that is in the window, and their bytes. */
    method NewlyAcked(ack: u16) returns (n: nat, bytes: nat)
      ensures AckedPrefix(sendWdw, ack, n) && bytes == TotalLen(sendWdw[..n])
    {
      for index := 0 to |sendWdw|
        invariant forall i :: 0 <= i < index ==> sendWdw[i].seqNr != ack
      {
        if ack == sendWdw[index].seqNr {
          bytes := 0;
          for i := 0 to index + 1
            invariant bytes == TotalLen(sendWdw[..i])
          {
            TotalLenNext(sendWdw, i);
            bytes := bytes + sendWdw[i].Len();
          }
          return index + 1, bytes;
        }
      }
      return 0, 0;
    }

    /** Takes the first n packets from the window. */
    method DropFirst(n: nat)
      requires n <= |sendWdw| && WindowInv()
      modifies this`sendWdw, this`currWdw
      ensures WindowInv() && sendWdw == old(sendWdw)[n..]
      ensures currWdw == Trunc32(old(currWdw) - TotalLen(old(sendWdw)[..n]))
    {
      TotalLenSplit(sendWdw, n);
      TruncFalls(TotalLen(sendWdw), TotalLen(sendWdw[..n]), TotalLen(sendWdw[n..]));
      for i := 0 to n
        invariant WindowInv() && sendWdw == old(sendWdw)[i..]
      {
        var packet := sendWdw[0];
        WindowShrinks(sendWdw);
        sendWdw := sendWdw[1..];
        currWdw := Trunc32(currWdw - packet.Len());
      }
    }

    /** Forgets the packets up to the last acknowledged one, if that is in the window. */
    method AdvanceSendWindow() returns (ghost n: nat)
      requires WindowInv()
      modifies this`sendWdw, this`currWdw
      ensures WindowInv() && Advances(old(sendWdw), old(currWdw), lastAcked, n, sendWdw, currWdw)
    {
      for pos := 0 to |sendWdw|
        invariant sendWdw == old(sendWdw) && currWdw == old(currWdw)
        invariant forall i :: 0 <= i < pos ==> sendWdw[i].seqNr != lastAcked
      {
        if sendWdw[pos].seqNr == lastAcked {
          DropFirst(pos + 1);
          return pos + 1;
        }
      }
      n := 0;
    }

    /** The congestion window after an acknowledgement: it grows with offTarget, but stays between two packets and one
        packet more than what is in flight. */
    method UpdateCongestionWdw(offTarget: real, bytesNewlyAcked: nat)
      requires WindowInv()
      modifies this`cwnd
      ensures WindowInv() && Congestion.Follows(old(cwnd), offTarget, bytesNewlyAcked, currWdw, cwnd)
      ensures MIN_CWND * MSS <= cwnd <= Max(MIN_CWND * MSS, Trunc32(currWdw + ALLOWED_INCREASE * MSS))
    {
      var flightsize := currWdw;
      var cwndIncr := offTarget * bytesNewlyAcked as real * MSS as real / cwnd as real;
      var grown := (cwnd as real + cwndIncr).Floor; // rounds as the conversion does, except below zero
      assert grown == Congestion.Grown(cwnd, offTarget, bytesNewlyAcked).Floor;
      var converted: u32 := *; // not specified, if the number does not fit
      if 0 <= grown < 0x1_0000_0000 {
        converted := grown;
      }
      cwnd := converted;
      var maxAllowedCwnd := Trunc32(flightsize + ALLOWED_INCREASE * MSS);
      cwnd := Min(cwnd, maxAllowedCwnd);
      cwnd := Max(cwnd, MIN_CWND * MSS);
      assert cwnd == Congestion.Cut(converted, flightsize);
    }

    /** How many bytes may be in flight: the smaller one of the congestion window and the peer's window, but two
        packets. */
    function MaxInFlight(): nat
      reads this`cwnd, this`remoteWndSize
    {
      Max(MIN_CWND * MSS, Min(cwnd, remoteWndSize))
    }

    /** Sends the first packet of the window that has the given number again. The window and its byte count do not
        change, except through what is received in the meantime. With room in the window the packet is written at once,
        unless its number is taken for acknowledged or the write fails. If there is no such packet nothing happens. */
    method ResendLostPacket(lostPktNr: u16) returns (out: Outcome, ghost at: nat)
      requires WindowInv()
      modifies this
      ensures WindowInv() && Resent()
      ensures FirstAt(old(sendWdw), lostPktNr, at)
      ensures at < old(|sendWdw|) && old(currWdw < MaxInFlight()) && !Skips(lostPktNr, old(lastAcked)) ==>
                writeFailed || (wire != [] && Transmits(wire[|wire| - 1], old(sendWdw)[at]))
      ensures at == old(|sendWdw|) ==> unchanged(this)
      ensures out.Done? || (out.Crashed? && build.AsWritten?)
      decreases |inbox|, 5, 0
    {
      for pos := 0 to |sendWdw|
        invariant unchanged(this) && forall i :: 0 <= i < pos ==> sendWdw[i].seqNr != lostPktNr
      {
        if sendWdw[pos].seqNr == lostPktNr {
          var timedOut, limit;
          out, timedOut, limit := SendPacket(sendWdw[pos]);
          // an error is ignored
          return if out.Crashed? then Crashed else Done, pos;
        }
      }
      return Done, |sendWdw|;
    }

    /** Sends one packet, after waiting for the window to open: receiving until fewer than limit bytes are in flight, or
        until the time is up. A packet whose number is taken for acknowledged is not sent, and that is no error. */
    method SendPacket(p: Segment) returns (out: Outcome, timedOut: bool, limit: nat)
      requires WindowInv()
      modifies this
      ensures WindowInv() && Quiet() && SameBuild() && handout.Read() == old(handout.Read())
      ensures old(Accounted()) && p in journal.ledger.Built() ==> Accounted()
      ensures limit == old(MaxInFlight())
      ensures out.Done? && !timedOut ==> currWdw < limit
      ensures old(currWdw) < limit ==> inbox == old(inbox) && (out.Done? || writeFailed)
      ensures out.Done? && old(DeliversData()) && |inbox| + 1 == old(|inbox|) ==> WastesNext()
      ensures out.Done? && !Skips(p.seqNr, lastAcked) ==> wire != [] && Transmits(wire[|wire| - 1], p)
      ensures old(currWdw < MaxInFlight()) && Skips(p.seqNr, old(lastAcked)) ==> out.Done? && unchanged(this)
      ensures out.Crashed? ==> build.AsWritten?
      ensures |inbox| == old(|inbox|) ==> OnlyWrote()
      decreases |inbox|, 4
    {
      limit := MaxInFlight();
      out, timedOut := AwaitWindow(limit);
      if !out.Done? {
        return;
      }
      out := TransmitUnlessAcked(p);
    }

    /** Writes p, unless its number is taken for acknowledged. */
    method TransmitUnlessAcked(p: Segment) returns (out: Outcome)
      modifies this`wire, this`writeFailed
      ensures !out.Crashed? && (old(writeFailed) ==> writeFailed) && (out.Done? || writeFailed) && old(wire) <= wire
      ensures old(Accounted()) && p in journal.ledger.Built() ==> Accounted()
      ensures if Skips(p.seqNr, lastAcked) then out.Done? && unchanged(this)
              else out.Done? ==> wire != [] && Transmits(wire[|wire| - 1], p)
    {
      if Skips(p.seqNr, lastAcked) {
        return Done;
      }
      var ok := Transmit(p);
      out := if ok then Done else Failed(Network);
    }

    /** The data packet that the network delivered has been stored, and the bytes handed on for it went to nobody. */
    twostate predicate WastesNext()
      requires old(DeliversData())
      reads this`trace, this`handout
    {
      && Continues(old(trace), trace, Receive.Arrival(old(NextPacket()), old(Open()), BUF_SIZE))
      && (handout == old(handout) || (handout.ToNobody? && handout.before == old(handout)))
    }

    /** Receives until fewer than maxInFlight bytes are in flight, or until the time is up. */
    method AwaitWindow(maxInFlight: nat) returns (out: Outcome, timedOut: bool)
      requires WindowInv()
      modifies this
      ensures WindowInv() && OnlyReceived()
      ensures out.Done? && !timedOut ==> currWdw < maxInFlight
      ensures old(currWdw) < maxInFlight ==> out.Done? && unchanged(this)
      ensures out.Done? && old(DeliversData()) && |inbox| + 1 == old(|inbox|) ==> WastesNext()
      ensures out.Crashed? ==> build.AsWritten?
      ensures |inbox| == old(|inbox|) ==> OnlyWrote()
      decreases |inbox|, 3, 1
    {
      out, timedOut := Done, false;
      while out.Done? && !timedOut && currWdw >= maxInFlight
        invariant WindowInv() && OnlyReceived() && (out.Crashed? ==> build.AsWritten?)
        invariant |inbox| == old(|inbox|) ==> OnlyWrote()
        invariant old(currWdw) < maxInFlight ==> out.Done? && unchanged(this)
        invariant out.Done? && old(DeliversData()) && |inbox| + 1 == old(|inbox|) ==> WastesNext()
        decreases |inbox|, out.Done? && !timedOut
      {
        timedOut := *;
        if !timedOut {
          var bytes;
          out, bytes := Recv(BUF_SIZE, false);
        }
      }
    }

    // ---------- receiving a datagram ----------

    /** The network delivers a data packet next. */
    ghost predicate DeliversData()
      reads this`inbox
    {
      inbox != [] && inbox[0].Datagram? && Extensions.Accept(build, Cut(inbox[0].bytes)).Ok? && NextPacket().ty.Data?
    }

    ghost function NextPacket(): Segment
      requires inbox != [] && inbox[0].Datagram? && Extensions.Accept(build, Cut(inbox[0].bytes)).Ok?
      reads this`inbox
    {
      Extensions.Accept(build, Cut(inbox[0].bytes)).value.seg
    }

    /** One datagram has been read, and nothing else has happened. */
    twostate predicate OnlyRead(bytes: seq<byte>)
      reads this`inbox, this`state, this`cwnd, this`wire, this`writeFailed
    {
      && old(inbox) != [] && inbox == old(inbox)[1..] && old(inbox)[0].Datagram?
      && bytes == Cut(old(inbox)[0].bytes) && unchanged(`state, `cwnd, `wire, `writeFailed)
    }

    /** What happens when nothing arrives in time: something is sent again, and the congestion window shrinks to one
        packet. */
    method HandleReceiveTimeout() returns (ok: bool)
      requires WindowInv()
      modifies this`cwnd, this`wire, this`writeFailed
      ensures WindowInv() && cwnd == MSS
      ensures (old(writeFailed) ==> writeFailed) && old(wire) <= wire && (old(Accounted()) ==> Accounted())
      ensures ok && (sendWdw == [] || !state.New?) ==>
                wire != [] && Transmits(wire[|wire| - 1],
                    if sendWdw == [] then Segment(Fin, senderConnID, 0, seqNr, ackNr, []) else sendWdw[0])
    {
      cwnd := MSS;
      if sendWdw == [] {
        ok := Transmit(Segment(Fin, senderConnID, 0, seqNr, ackNr, []));
      } else if state.New? {
        for i := 0 to 3
          invariant (old(writeFailed) ==> writeFailed) && WindowInv() && cwnd == MSS && old(wire) <= wire
          invariant old(Accounted()) ==> Accounted()
        {
          var _ := Transmit(Segment(State, senderConnID, 0, 0, ackNr, []));
        }
        ok := true;
      } else {
        ok := Transmit(sendWdw[0]);
      }
    }

    /** Reads the next datagram; each time none arrives in time, something is sent again, until the retries are used
        up. */
    method ReadDatagram() returns (out: Outcome, bytes: seq<byte>)
      requires WindowInv()
      modifies this`inbox, this`state, this`cwnd, this`wire, this`writeFailed
      ensures WindowInv() && OnlyReceived()
      ensures out.Done? ==> state == old(state) && |inbox| < old(|inbox|)
      ensures out.Done? && old(Accounted()) ==> CameIn(Taken(script, inbox), bytes)
      ensures out.Done? || (out.Failed? && (state == old(state) || state == Closed))
      ensures |inbox| == old(|inbox|) ==> unchanged(this)
      ensures old(inbox != [] && inbox[0].Datagram?) ==> out.Done? && OnlyRead(bytes)
    {
      for retries := 0 to MAX_RETRANSMISSION_RETRIES
        invariant WindowInv() && state == old(state) && (old(writeFailed) ==> writeFailed) && old(wire) <= wire
        invariant old(Accounted()) ==> Accounted()
        invariant if retries == 0 then unchanged(this) else |inbox| < old(|inbox|)
        invariant old(inbox != [] && inbox[0].Datagram?) ==> retries == 0
      {
        var silent;
        out, bytes, silent := ReadOnce();
        if !silent {
          return;
        }
      }
      state := Closed;
      return Failed(DeadlineExceeded), [];
    }

    /** One try: a datagram, or silence, after which something has been sent again, or an error. */
    method ReadOnce() returns (out: Outcome, bytes: seq<byte>, silent: bool)
      requires WindowInv()
      modifies this`inbox, this`cwnd, this`wire, this`writeFailed
      ensures WindowInv() && (old(writeFailed) ==> writeFailed) && old(wire) <= wire
      ensures old(Accounted()) ==> Accounted()
      ensures !out.Crashed? && (silent ==> out.Done?) && (out.Done? ==> |inbox| < old(|inbox|))
      ensures out.Done? && !silent && old(Accounted()) ==> CameIn(Taken(script, inbox), bytes)
      ensures if inbox == old(inbox) then unchanged(this) else |inbox| < old(|inbox|)
      ensures old(inbox != [] && inbox[0].Datagram?) ==> out.Done? && !silent && OnlyRead(bytes)
    {
      if inbox == [] {
        return Failed(Network), [], false;
      }
      var arrival := NextArrival();
      match arrival
      case Datagram(d) => return Done, Cut(d), false;
      case Failure => return Failed(Network), [], false;
      case Silence =>
        var ok := HandleReceiveTimeout();
        return if ok then Done else Failed(Network), [], ok;
    }

    /** The packet has been handled, and up to n bytes have been handed on. */
    twostate predicate ReadInto(p: Segment, n: nat, bytes: seq<byte>, asked: bool)
      reads this`trace, this`handout
    {
      && Continues(old(trace), trace, Receive.Arrival(p, old(Open()), n))
      && Adds(old(handout), handout, bytes, asked)
    }

    /** Receives one datagram, handles it, stores its data, and hands on up to n bytes. */
    method Recv(n: nat, ghost asked: bool) returns (out: Outcome, bytes: seq<byte>)
      requires WindowInv()
      modifies this
      ensures WindowInv() && Frozen() && SameBuild()
      ensures handout.Read() == if asked then old(handout.Read()) + bytes else old(handout.Read())
      ensures out.Done? ==> |inbox| < old(|inbox|)
      ensures |inbox| == old(|inbox|) ==> OnlyWrote()
      ensures |bytes| <= n && (out.Done? || bytes == [])
      ensures bytes != [] ==> handout.Latest(bytes, asked)
      ensures old(Roomy()) ==> Adds(old(handout), handout, bytes, asked)
      ensures out.Done? && old(DeliversData()) ==>
              inbox == old(inbox)[1..] && ReadInto(old(NextPacket()), n, bytes, asked)
      ensures old(Deaf()) ==> bytes == []
      ensures out.Crashed? ==> build.AsWritten?
      decreases |inbox|, 3, 0
    {
      bytes := [];
      var datagram;
      out, datagram := ReadDatagram();
      if out.Done? {
        assert Quiet() && SameBuild() && Roomy() == old(Roomy());
        var r := Extensions.ReadPacket(build, datagram);
        if r.Ok? { // an invalid packet is ignored
          if old(Accounted()) {
            ReadIsOverheard(build, Taken(script, inbox), datagram);
          }
          out, bytes := Take(r.value.seg, r.value.exts, n, asked);
        }
      }
    }

    /** Writes a reply with its selective acknowledgement; setSack refuses a vector of the wrong length, and its error
        is ignored. */
    method WriteReply(r: Reply) returns (ok: bool)
      requires Bare(r)
      modifies this`wire, this`writeFailed
      ensures writeFailed == (old(writeFailed) || !ok) && old(wire) <= wire && (old(Accounted()) ==> Accounted())
      ensures ok ==> wire != [] && Heads(wire[|wire| - 1], r.head)
      ensures ok && build.AsCommented? ==> wire != [] && Conveys(wire[|wire| - 1], r)
    {
      var now: u32, diff: u32 := *, *;
      var p := Encode(build, r.head, now, diff);
      EncodeDecode(build, r.head, now, diff);
      var q := WithVector(p, r.sack);
      ReplyIsConveyed(r, now, diff);
      if Settable(r.sack) {
        Extensions.SackKeepsHeader(p, r.sack);
      }
      VouchedOneMore(build, wire, q, journal.ledger.Built());
      ok := Write(q);
    }

    /** setSack, on a packet that has been built without a payload. */
    method WithVector(p: seq<byte>, sack: seq<byte>) returns (q: seq<byte>)
      requires Extensions.WellFormed(p) && Extensions.PayloadStart(p, HEADER_SIZE, p[1]) == |p|
      ensures q == if Settable(sack) then Extensions.WithSack(p, sack) else p
    {
      var a := new byte[|p|](i requires 0 <= i < |p| => p[i]);
      assert a[..|p|] == p;
      Extensions.SharedSackIff(p, sack, |p|);
      var appended;
      q, appended := Extensions.SetSack(build, a, |p|, sack);
    }

    /** The rest of recv: handle the packet, write the reply, store the data and flush. */
    method Take(p: Segment, exts: seq<Extensions.Ext>, n: nat, ghost asked: bool)
      returns (out: Outcome, bytes: seq<byte>)
      requires WindowInv() && (build.AsWritten? ==> exts == [])
      modifies this
      ensures WindowInv() && Quiet() && SameBuild()
      ensures handout.Read() == if asked then old(handout.Read()) + bytes else old(handout.Read())
      ensures old(Accounted() && Overheard(build, Taken(script, inbox), p)) ==> Accounted()
      ensures old(Deaf()) ==> bytes == []
      ensures |bytes| <= n && (out.Done? || bytes == [])
      ensures bytes != [] ==> handout.Latest(bytes, asked)
      ensures old(Roomy()) ==> Adds(old(handout), handout, bytes, asked)
      ensures p.ty.Data? && out.Done? ==> inbox == old(inbox) && ReadInto(p, n, bytes, asked)
      ensures out.Crashed? ==> build.AsWritten?
      decreases |inbox|, 10
    {
      bytes := [];
      var unanswered;
      ghost var open := Open();
      out, unanswered := Respond(p, exts);
      OverheardStays(build, script, old(inbox), inbox, p);
      if out.Done? || unanswered {
        assert WindowInv() && Quiet();
        out, bytes := Complete(p, !unanswered, n, open, asked);
        assert Quiet() && SameBuild();
      }
    }

    /** Handles the packet and writes the reply. If that fails, the packet has been acknowledged all the same. */
    method Respond(p: Segment, exts: seq<Extensions.Ext>) returns (out: Outcome, unanswered: bool)
      requires WindowInv() && (build.AsWritten? ==> exts == [])
      modifies this
      ensures WindowInv() && Frozen() && (old(writeFailed) ==> writeFailed) && (old(Deaf()) ==> Deaf())
      ensures old(Refined()) ==> if out.Done? || unanswered then Midway(p, old(Open())) else Refined()
      ensures handout.Read() == old(handout.Read())
      ensures old(Roomy()) || !old(MayNest(p)) ==> trace.out == old(trace.out) && handout == old(handout)
      ensures p.ty.Data? ==> trace == old(trace) && inbox == old(inbox)
      ensures out.Done? && !old(MayNest(p)) ==> Responds(p, old(Ctl()), old(seqNr), old(wire))
      ensures unanswered ==> out == Failed(Network)
      ensures out.Crashed? ==> build.AsWritten?
      decreases |inbox|, 9
    {
      var reply;
      out, reply := HandlePacket(p, exts);
      unanswered := false;
      if out.Done? {
        var ok := WriteAny(reply);
        if !ok {
          out, unanswered := Failed(Network), true;
        }
      }
    }

    /** Writes the reply, if there is one. */
    method WriteAny(reply: Option<Reply>) returns (ok: bool)
      requires reply.Some? ==> Bare(reply.value)
      modifies this`wire, this`writeFailed
      ensures (old(writeFailed) ==> writeFailed) && old(wire) <= wire && (old(Accounted()) ==> Accounted())
      ensures ok ==> if reply.Some? then wire != [] && Heads(wire[|wire| - 1], reply.value.head) else wire == old(wire)
    {
      ok := true;
      if reply.Some? {
        ok := WriteReply(reply.value);
      }
    }

    /** The connection is where the state machine takes it with p, and the reply it asks for has been written. */
    ghost predicate Responds(p: Segment, was: Control, seqWas: u16, wireWas: seq<seq<byte>>)
      reads this`state, this`senderConnID, this`rcvrConnID, this`wire
    {
      var (c, a) := Handle(was, p.ty, p.connId, p.ackNr == seqWas);
      && Ctl() == c
      && if a.Reply? then
           wire != [] && var d := wire[|wire| - 1];
               |d| >= HEADER_SIZE && GetType(d) == a.ty && ConnId(d) == senderConnID
         else
           wire == wireWas
    }

    /** Stores the data and flushes, unless the packet could not be answered. */
    method Complete(p: Segment, answered: bool, n: nat, ghost open: bool, ghost asked: bool)
      returns (out: Outcome, bytes: seq<byte>)
      modifies this`incomingBuff, this`ackNr, this`lastDropped, this`pendingData, this`trace, this`handout
      ensures old(Midway(p, open)) ==> Refined()
      ensures old(Deaf()) ==> Deaf() && bytes == []
      ensures old(Accounted()) && Overheard(build, Taken(script, inbox), p) ==> Accounted()
      ensures |bytes| <= n && (out.Done? || bytes == [])
      ensures handout == if out.Done? then HandOn(old(handout), bytes, asked) else old(handout)
      ensures !out.Crashed? ==> Continues(old(trace), trace, EventOf(p, answered, n, open))
      ensures !answered ==> out == Failed(Network)
      ensures answered ==> out.Done? || out.Crashed?
      ensures out.Crashed? ==> build.AsWritten?
    {
      if !answered {
        HeardOneMore(build, Taken(script, inbox), trace.events, Unanswered(p, open));
        trace := Extend(trace, Unanswered(p, open));
        return Failed(Network), [];
      }
      out, bytes := Store(p, n);
      if out.Done? {
        HeardOneMore(build, Taken(script, inbox), trace.events, EventOf(p, true, n, open));
        trace := Extend(trace, EventOf(p, true, n, open));
        handout := HandOn(handout, bytes, asked);
      }
    }

    /** Stores a data packet, unless it is an old one, and flushes. */
    method Store(p: Segment, n: nat) returns (out: Outcome, bytes: seq<byte>)
      modifies this`incomingBuff, this`ackNr, this`lastDropped, this`pendingData
      ensures out.Done? || out.Crashed?
      ensures out.Crashed? <==> Admits(build, old(lastDropped), p) && build.AsWritten? && old(incomingBuff) == []
      ensures out.Crashed? ==> RxView() == old(RxView()) && bytes == []
      ensures out.Done? ==> (RxView(), bytes) == Flush(Keep(build, old(RxView()), p), n)
    {
      out, bytes := Done, [];
      if Admits(build, lastDropped, p) {
        out := InsertIntoBuffer(p);
      }
      if out.Done? {
        bytes := FlushIncomingBuffer(n);
      }
    }

    // ---------- what the user calls ----------

    /** Queues one packet per chunk, with the next sequence numbers. */
    method QueueChunks(chunks: seq<seq<byte>>)
      requires SendInv() && forall c :: c in chunks ==> 0 < |c| <= MSS - HEADER_SIZE
      modifies this`unsentQueue, this`seqNr, journal
      ensures SendInv() && seqNr == Add16(old(seqNr), |chunks|) && (old(Accounted()) ==> Accounted())
      ensures journal.ledger == EnqueueAll(old(journal.ledger), chunks, senderConnID, old(seqNr), ackNr, !Shaken())
    {
      ghost var l, first := journal.ledger, seqNr;
      for i := 0 to |chunks|
        invariant SendInv() && seqNr == Add16(first, i) && (old(Accounted()) ==> Accounted())
        invariant journal.ledger == EnqueueAll(l, chunks[..i], senderConnID, first, ackNr, !Shaken())
      {
        EnqueueAllStep(l, chunks, i, senderConnID, first, ackNr, !Shaken());
        QueueOne(chunks[i]);
      }
      assert chunks[..|chunks|] == chunks;
    }

    /** Builds a packet with the next sequence number, and queues it. */
    method QueueOne(chunk: seq<byte>)
      requires SendInv() && 0 < |chunk| <= MSS - HEADER_SIZE
      modifies this`unsentQueue, this`seqNr, journal
      ensures SendInv() && seqNr == Add16(old(seqNr), 1) && (old(Accounted()) ==> Accounted())
      ensures journal.ledger ==
              Queued(old(journal.ledger), Segment(Data, senderConnID, 0, old(seqNr), ackNr, chunk), !Shaken())
    {
      var p := Segment(Data, senderConnID, 0, seqNr, ackNr, chunk);
      unsentQueue := unsentQueue + [p];
      seqNr := Add16(seqNr, 1);
      MoreBuilt(build, wire, sent, journal.ledger.Built(), p);
      journal.ledger := Queued(journal.ledger, p, !Shaken());
    }

    /** Puts a packet that has been sent into the window. */
    method AddToWindow(p: Segment)
      requires WindowInv()
      modifies this`sendWdw, this`currWdw, this`sent
      ensures WindowInv() && sent == old(sent) + [p] && currWdw == Trunc32(old(currWdw) + p.Len())
    {
      WindowGrows(sendWdw, sent, p);
      currWdw := Trunc32(currWdw + p.Len());
      sendWdw := sendWdw + [p];
      sent := sent + [p];
    }

    /** Sends p with room in the window, and puts it there. */
    method SendOne(p: Segment) returns (out: Outcome)
      requires WindowInv() && currWdw < MIN_CWND * MSS
      modifies this
      ensures WindowInv() && SameBuild() && (out.Done? ==> currWdw == Trunc32(old(currWdw) + p.Len()))
      ensures out.Done? ==>
              unchanged(`inbox, `state, `cwnd, `trace, `handout, `ackNr, `lastDropped, `incomingBuff, `pendingData)
      ensures handout.Read() == old(handout.Read())
    {
      var timedOut, limit;
      out, timedOut, limit := SendPacket(p);
      if out.Done? {
        AddToWindow(p);
      }
    }

    /** The journal says what was sent; the queue is what is left of it after the first i packets. */
    ghost predicate Sending(queue: seq<Segment>, i: nat)
      requires i <= |queue|
      reads this`sent, this`unsentQueue, this`seqNr, this`state, journal
    {
      && journal.ledger.Legal() && Numbered()
      && journal.ledger.Sent() == sent && journal.ledger.Queue() == queue[i..] && unsentQueue == queue
    }

    /** One turn of the loop of send. */
    method SendNext(queue: seq<Segment>, i: nat) returns (out: Outcome, timedOut: bool, limit: nat)
      requires i < |queue| && WindowInv() && Sending(queue, i)
      modifies this, journal
      ensures WindowInv() && Sending(queue, if out.Crashed? then i else i + 1)
      ensures match out
              case Done => journal.ledger == Passed(old(journal.ledger))
              case Failed(_) => journal.ledger == Dropped(old(journal.ledger))
              case Crashed => journal.ledger == old(journal.ledger) && build.AsWritten?
      ensures out.Done? && !timedOut ==> currWdw < limit + MSS
      ensures out.Done? && !Skips(queue[i].seqNr, lastAcked) ==> wire != [] && Transmits(wire[|wire| - 1], queue[i])
      ensures (old(Refined()) ==> Refined()) && (old(Deaf()) ==> Deaf()) && (old(Accounted()) ==> Accounted())
      ensures handout.Read() == old(handout.Read())
    {
      assert queue[i].Len() <= MSS && queue[i] in journal.ledger.Built() by {
        ShortPackets(journal.ledger, queue[i]);
        assert queue[i] == queue[i..][0];
        QueuedIsBuilt(journal.ledger, queue[i]);
      }
      out, timedOut, limit := SendPacket(queue[i]);
      assert Sending(queue, i);
      if out.Done? {
        Pass(queue, i);
      } else if out.Failed? {
        Drop(queue, i);
      }
    }

    /** The packet has been sent: it goes into the window. */
    method Pass(queue: seq<Segment>, i: nat)
      requires i < |queue| && WindowInv() && Sending(queue, i)
      modifies this`sendWdw, this`currWdw, this`sent, journal
      ensures WindowInv() && Sending(queue, i + 1) && journal.ledger == Passed(old(journal.ledger))
      ensures old(Accounted()) && queue[i] in journal.ledger.Built() ==> Accounted()
      ensures currWdw == Trunc32(old(currWdw) + queue[i].Len()) <= old(currWdw) + queue[i].Len()
    {
      AddToWindow(queue[i]);
      journal.ledger := Passed(journal.ledger);
    }

    /** The packet could not be sent: it is lost. */
    ghost method Drop(queue: seq<Segment>, i: nat)
      requires i < |queue| && Sending(queue, i)
      modifies journal
      ensures Sending(queue, i + 1) && journal.ledger == Dropped(old(journal.ledger))
      ensures old(Accounted()) ==> Accounted()
    {
      journal.ledger := Dropped(journal.ledger);
    }

    /** Sends everything that is queued. If a send fails, the packet concerned is lost and the rest stays queued. After
        a send that did not have to give up waiting, fewer than limit bytes and one packet are in flight. */
    method Send() returns (out: Outcome, timedOut: bool, limit: nat)
      requires WindowInv() && SendInv()
      modifies this, journal
      ensures WindowInv() && (!out.Crashed? ==> SendInv())
      ensures journal.ledger.Built() == old(journal.ledger.Built())
      ensures journal.ledger.Accepted() == old(journal.ledger.Accepted())
      ensures out.Done? ==> unsentQueue == [] && journal.ledger.Lost() == old(journal.ledger.Lost())
      ensures out.Failed? ==> exists p :: journal.ledger.Lost() == old(journal.ledger.Lost()) + [p]
      ensures out.Done? && !timedOut && old(unsentQueue) != [] ==> currWdw < limit + MSS
      ensures (old(Refined()) ==> Refined()) && (old(Deaf()) ==> Deaf()) && (old(Accounted()) ==> Accounted())
      ensures handout.Read() == old(handout.Read()) && (out.Crashed? ==> build.AsWritten?)
    {
      var queue := unsentQueue;
      out, timedOut, limit := Done, false, 0;
      for i := 0 to |queue|
        invariant WindowInv() && Sending(queue, i)
        invariant journal.ledger.Built() == old(journal.ledger.Built())
        invariant journal.ledger.Accepted() == old(journal.ledger.Accepted())
        invariant journal.ledger.Lost() == old(journal.ledger.Lost())
        invariant (old(Refined()) ==> Refined()) && (old(Deaf()) ==> Deaf()) && (old(Accounted()) ==> Accounted())
        invariant handout.Read() == old(handout.Read())
        invariant out.Done? && (i > 0 && !timedOut ==> currWdw < limit + MSS)
      {
        out, timedOut, limit := SendNext(queue, i);
        if out.Crashed? {
          return;
        }
        if out.Failed? {
          unsentQueue := queue[i + 1..];
          return;
        }
      }
      unsentQueue := [];
    }

    /** Sends the bytes of buf: cut into packets, which are queued and then sent with whatever else is queued. */
    method SendTo(buf: seq<byte>) returns (out: Outcome, n: nat)
      requires WindowInv() && SendInv()
      modifies this, journal
      ensures WindowInv() && (!out.Crashed? ==> SendInv())
      ensures old(state) == Closed ==> out == Failed(IsClosed) && journal.ledger == old(journal.ledger)
      ensures old(state) != Closed ==>
                && journal.ledger.Accepted() == old(journal.ledger.Accepted()) + buf
                && journal.ledger.Built() == old(journal.ledger.Built())
                     + Packets(Chunks(buf, MSS - HEADER_SIZE), old(senderConnID), old(seqNr), old(ackNr))
      ensures out.Done? ==> n == |buf| && unsentQueue == [] && journal.ledger.Lost() == old(journal.ledger.Lost())
      ensures out.Failed? && old(state) != Closed ==>
              exists p :: journal.ledger.Lost() == old(journal.ledger.Lost()) + [p]
      ensures (old(Refined()) ==> Refined()) && (old(Deaf()) ==> Deaf()) && (old(Accounted()) ==> Accounted())
      ensures handout.Read() == old(handout.Read()) && (out.Crashed? ==> build.AsWritten?)
    {
      if state.Closed? {
        return Failed(IsClosed), 0;
      }
      QueueBuffer(buf);
      var timedOut, limit;
      out, timedOut, limit := Send();
      n := if out.Done? then |buf| else 0;
    }

    /** Cuts buf into packets and queues them. */
    method QueueBuffer(buf: seq<byte>)
      requires SendInv()
      modifies this`unsentQueue, this`seqNr, journal
      ensures SendInv() && (old(Accounted()) ==> Accounted())
      ensures journal.ledger.Accepted() == old(journal.ledger.Accepted()) + buf
      ensures journal.ledger.Built() == old(journal.ledger.Built())
                + Packets(Chunks(buf, MSS - HEADER_SIZE), senderConnID, old(seqNr), ackNr)
      ensures journal.ledger.Lost() == old(journal.ledger.Lost())
    {
      var chunks := Chunk(buf, MSS - HEADER_SIZE);
      forall c | c in chunks ensures 0 < |c| <= MSS - HEADER_SIZE {
        ChunksFit(buf, MSS - HEADER_SIZE, c);
      }
      ChunksCover(buf, MSS - HEADER_SIZE);
      EnqueueAllBuilds(journal.ledger, chunks, senderConnID, seqNr, ackNr, !Shaken());
      EnqueueAllAccepts(journal.ledger, chunks, senderConnID, seqNr, ackNr, !Shaken());
      QueueChunks(chunks);
    }

    /** Reads up to n bytes: what is ready, or else what the next packets bring. The bytes returned are the last ones
        that were reassembled. Unless two packets or more are in flight, none goes to nobody, so that they continue the
        bytes handed on so far: none is skipped, and none is returned twice. */
    method RecvFrom(n: nat) returns (out: Outcome, bytes: seq<byte>)
      requires WindowInv()
      modifies this
      ensures WindowInv() && Frozen() && SameBuild() && (old(SendInv()) ==> SendInv())
      ensures handout.Read() == old(handout.Read()) + bytes
      ensures bytes != [] ==> handout.Latest(bytes, true)
      ensures old(Roomy()) ==> handout.Wasted() == old(handout.Wasted()) && handout.All() == old(handout.All()) + bytes
      ensures |bytes| <= n && (if out.Done? then bytes != [] || state == Closed else bytes == [])
      ensures old(Deaf()) ==> bytes == []
      ensures out.Crashed? ==> build.AsWritten?
    {
      bytes := ReadReady(n);
      if bytes != [] {
        out := Done;
      } else if state.ResetReceived? {
        out := Failed(ConnectionReset);
      } else {
        out, bytes := ReceiveSome(n);
      }
      ReceivingKeepsJournal();
    }

    /** Receives until there is something to hand on, or the connection is closed. */
    method ReceiveSome(n: nat) returns (out: Outcome, bytes: seq<byte>)
      requires WindowInv()
      modifies this
      ensures WindowInv() && Frozen() && SameBuild()
      ensures handout.Read() == old(handout.Read()) + bytes
      ensures bytes != [] ==> handout.Latest(bytes, true)
      ensures old(Roomy()) ==> handout.Wasted() == old(handout.Wasted()) && handout.All() == old(handout.All()) + bytes
      ensures |bytes| <= n && (if out.Done? then bytes != [] || state == Closed else bytes == [])
      ensures old(Deaf()) ==> bytes == []
      ensures out.Crashed? ==> build.AsWritten?
    {
      out, bytes := Done, [];
      while out.Done? && bytes == [] && !state.Closed?
        invariant WindowInv() && Frozen() && SameBuild() && |bytes| <= n && (out.Done? || bytes == [])
        invariant handout.Read() == old(handout.Read()) + bytes
        invariant bytes != [] ==> handout.Latest(bytes, true)
        invariant old(Roomy()) ==> Roomy() && handout.Wasted() == old(handout.Wasted())
        invariant old(Roomy()) ==> handout.All() == old(handout.All()) + bytes
        invariant old(Deaf()) ==> bytes == []
        invariant out.Crashed? ==> build.AsWritten?
        decreases |inbox|, out.Done?
      {
        out, bytes := Recv(n, true);
        RoomStays();
      }
    }

    /** A receive does not touch what was queued, sent or numbered. */
    twostate lemma ReceivingKeepsJournal()
      requires Frozen() && unchanged(journal)
      ensures old(SendInv()) ==> SendInv()
    {
    }

    /** Hands on up to n of the bytes that are ready. */
    method ReadReady(n: nat) returns (bytes: seq<byte>)
      modifies this`incomingBuff, this`ackNr, this`lastDropped, this`pendingData, this`trace, this`handout
      ensures |bytes| <= n && (old(Refined()) ==> Refined()) && (old(Deaf()) ==> Deaf() && bytes == [])
      ensures handout == HandOn(old(handout), bytes, true)
      ensures old(Accounted()) ==> Accounted()
    {
      bytes := FlushIncomingBuffer(n);
      HeardOneMore(build, Taken(script, inbox), trace.events, Read(n));
      trace := Extend(trace, Read(n));
      handout := HandOn(handout, bytes, true);
    }

    /** Receives until everything in the window has been acknowledged, and discards what data that brings. */
    method FlushWindow() returns (out: Outcome)
      requires WindowInv()
      modifies this
      ensures WindowInv() && OnlyReceived() && (old(SendInv()) ==> SendInv())
      ensures out.Done? ==> sendWdw == []
      ensures old(sendWdw) == [] ==> out.Done? && unchanged(this)
      ensures out.Crashed? ==> build.AsWritten?
    {
      out := Done;
      while out.Done? && sendWdw != []
        invariant WindowInv() && OnlyReceived()
        invariant old(sendWdw) == [] ==> out.Done? && unchanged(this)
        invariant out.Crashed? ==> build.AsWritten?
        decreases |inbox|, out.Done?
      {
        out := ReceiveAndDiscard();
      }
      ReceivingKeepsJournal();
    }

    method ReceiveAndDiscard() returns (out: Outcome)
      requires WindowInv()
      modifies this
      ensures WindowInv() && OnlyReceived()
      ensures out.Done? ==> |inbox| < old(|inbox|)
      ensures |inbox| == old(|inbox|) ==> OnlyWrote()
      ensures out.Crashed? ==> build.AsWritten?
    {
      var bytes;
      out, bytes := Recv(BUF_SIZE, false);
    }

    /** Closes the connection: waits for the acknowledgements, sends a FIN, and receives until the peer has answered it.
        This is the one operation that can take the state back: to FinSent, if the peer closed or reset the connection.
        For instance it does so after a reset, with nothing in flight, if nothing more can be read. */
    method Close() returns (out: Outcome)
      requires WindowInv()
      modifies this
      ensures WindowInv() && (old(SendInv()) ==> SendInv())
      ensures (old(Refined()) ==> Refined()) && (old(Deaf()) ==> Deaf()) && (old(Accounted()) ==> Accounted())
      ensures handout.Read() == old(handout.Read())
      ensures out.Done? && old(state != New && state != SynSent && state != Closed) ==>
                state == Closed && sendWdw == [] &&
                    exists i :: old(|wire|) <= i < |wire| && IsFin(wire[i], senderConnID)
      ensures old(state == New || state == SynSent || state == Closed) ==> out.Done? && unchanged(this)
      ensures old(state == ResetReceived && sendWdw == [] && inbox == []) ==>
                state == if |wire| > old(|wire|) then FinSent else ResetReceived
      ensures out.Crashed? ==> build.AsWritten?
    {
      if state.Closed? || state.New? || state.SynSent? {
        return Done;
      }
      out := FlushWindow();
      if out.Done? {
        out := Finish();
      }
    }

    /** Sends a FIN. The state goes back if and only if the FIN is written after the peer has closed or reset the
        connection. */
    method SendFin() returns (ok: bool)
      requires Shaken()
      modifies this`wire, this`writeFailed, this`state
      ensures state == if ok then FinSent else old(state)
      ensures Rank(state) < old(Rank(state)) <==> ok && old(state.Closed? || state.ResetReceived?)
      ensures (old(writeFailed) ==> writeFailed) && old(wire) <= wire && (old(Accounted()) ==> Accounted())
      ensures if ok then |wire| == old(|wire|) + 1 &&
              Transmits(wire[old(|wire|)], Segment(Fin, senderConnID, 0, seqNr, ackNr, []))
              else wire == old(wire)
    {
      ok := Transmit(Segment(Fin, senderConnID, 0, seqNr, ackNr, []));
      if ok {
        state := FinSent;
      }
    }

    /** Sends a FIN and receives until the connection is closed. */
    method Finish() returns (out: Outcome)
      requires WindowInv() && Shaken() && sendWdw == []
      modifies this
      ensures WindowInv() && sendWdw == [] && (old(SendInv()) ==> SendInv()) && old(wire) <= wire
      ensures (old(Refined()) ==> Refined()) && (old(Deaf()) ==> Deaf()) && (old(Accounted()) ==> Accounted())
      ensures handout.Read() == old(handout.Read())
      ensures out.Done? ==> state == Closed
      ensures out.Done? ==>
              |wire| > old(|wire|) &&
              Transmits(wire[old(|wire|)], Segment(Fin, senderConnID, 0, old(seqNr), old(ackNr), []))
      ensures old(inbox) == [] ==> state == if |wire| > old(|wire|) then FinSent else old(state)
      ensures out.Crashed? ==> build.AsWritten?
    {
      var ok := SendFin();
      if !ok {
        return Failed(Network);
      }
      label Waiting:
      out := Done;
      while out.Done? && !state.Closed?
        invariant WindowInv() && OnlyReceived@Waiting()
        invariant old(inbox) == [] ==> state == FinSent
        invariant out.Crashed? ==> build.AsWritten?
        decreases |inbox|, out.Done?
      {
        out := ReceiveAndDiscard();
      }
      ReceivingKeepsJournal@Waiting();
    }
  }

  /** What was read is what was handed on, in order, with bytes left out. */
  lemma {:induction false} ReadInOrder(h: Handout)
    ensures Subsequence(h.Read(), h.All())
  {
    if !h.Unread? {
      ReadInOrder(h.before);
      if h.ToReader? {
        SubsequenceBoth(h.before.Read(), h.before.All(), h.bytes);
      } else {
        SubsequenceRight(h.before.Read(), h.before.All(), h.bytes);
      }
    }
  }

  /** The datagram for a short packet. */
  method DatagramOf(p: Segment) returns (d: seq<byte>)
    requires |p.payload| <= BUF_SIZE
    ensures Extensions.Accept(AsCommented, Cut(d)) == Result.Ok(Extensions.Incoming(p, []))
  {
    d := Encode(AsCommented, p, 0, 0);
    EncodeDecode(AsCommented, p, 0, 0);
    Extensions.BuiltIsAccepted(AsCommented, p, 0, 0);
    assert Cut(d) == d;
  }

  /** A socket that has just accepted a connection, and to which the network will deliver datagram d. */
  method AcceptedSocket(d: seq<byte>) returns (s: UtpSocket, out: Outcome)
    ensures fresh(s) && s.build == AsCommented && s.WindowInv() && s.Refined() && s.handout == Unread
    ensures out.Done? ==>
              && s.state == Connected && s.RxView() == Fresh(100) && s.currWdw == 0 && s.cwnd == MIN_CWND * MSS
              && s.inbox == [Datagram(d)]
  {
    s := new UtpSocket(AsCommented, 0, [Datagram(d)]);
    out := Accept(s, Segment(Syn, 7, 0, 100, 0, []));
  }

  /** A new socket handles a SYN. */
  method Accept(s: UtpSocket, p: Segment) returns (out: Outcome)
    requires s.build == AsCommented && s.WindowInv() && s.Refined() && s.state == New && p.ty.Syn?
    requires s.incomingBuff == [] && s.pendingData == []
    modifies s
    ensures s.WindowInv() && s.Refined() && s.handout == old(s.handout) && s.inbox == old(s.inbox)
    ensures out.Done? ==> s.state == Connected && s.RxView() == Fresh(p.seqNr)
    ensures s.currWdw == old(s.currWdw) && s.cwnd == old(s.cwnd)
  {
    assert !s.MayNest(p);
    var reply;
    out, reply := s.HandlePacket(p, []);
    assert s.trace.events == [];
  }

  /** A send that waits, on a connection that has just been accepted, with two full packets in flight: the next packet
      of the peer is taken from the network and reassembled, and its byte is given to nobody. (Nothing is said if a
      write fails, or if the time is up before the packet arrives.) */
  method WaitingSendWastes(p: Segment, q: Segment, r: Segment) returns (s: UtpSocket, out: Outcome)
    requires p.Len() == MSS && q.Len() == MSS
    ensures s.Refined() && s.handout.Read() == []
    ensures out.Done? && s.inbox == [] ==> s.RxView() == Fresh(101) && s.trace.out == [42] && s.handout.Wasted() == [42]
  {
    var data := Segment(Data, 8, 0, 101, 0, [42]);
    var d := DatagramOf(data);
    s, out := AcceptedSocket(d);
    if out.Done? {
      out := s.SendOne(p);
    }
    if out.Done? {
      out := s.SendOne(q);
    }
    if out.Done? {
      label Waiting:
      var timedOut, limit;
      out, timedOut, limit := s.SendPacket(r);
      if out.Done? && s.inbox == [] {
        s.WastedBytes@Waiting();
        DueIsTakenOnce(100, data, BUF_SIZE, 0);
      }
    }
  }

  /** A packet that is due and fits is handed on, and after that neither a read nor its repetition brings it back. */
  lemma DueIsTakenOnce(d: u16, p: Segment, n: nat, m: nat)
    requires p.ty.Data? && p.seqNr == Add16(d, 1) && |p.payload| <= n
    ensures Receive.Step(AsCommented, Fresh(d), Receive.Arrival(p, true, n)) == (Fresh(p.seqNr), p.payload)
    ensures Receive.Step(AsCommented, Fresh(p.seqNr), Read(m)) == (Fresh(p.seqNr), [])
    ensures Receive.Step(AsCommented, Fresh(p.seqNr), Receive.Arrival(p, true, m)) == (Fresh(p.seqNr), [])
  {
    assert Arrive(AsCommented, true, Fresh(d), p) == Rx(p.seqNr, d, [p], []);
    assert [p][1..] == [] && p.payload[..|p.payload|] == p.payload;
  }

  lemma BackOne(s: u16)
    ensures Sub16(Add16(s, 1), 1) == s
  {
  }

  /** What the arrival of p, read into n bytes, means to the reassembly. */
  ghost function EventOf(p: Segment, answered: bool, n: nat, open: bool): Receive.Event {
    if !answered then Unanswered(p, open) else if p.ty.Data? then Receive.Arrival(p, open, n) else Read(n)
  }

  /** The same run, with one more event. */
  ghost predicate Continues(t: Trace, t': Trace, e: Receive.Event) {
    t'.events == t.events + [e] && t'.rx0 == t.rx0 && t'.out0 == t.out0
  }

  /** From window w with c bytes in flight, the n packets acknowledged by ack have been removed. */
  ghost predicate Advances(w: seq<Segment>, c: u32, ack: u16, n: nat, w': seq<Segment>, c': u32) {
    AckedPrefix(w, ack, n) && w' == w[n..] && c' == Trunc32(c - TotalLen(w[..n]))
  }

  /** A datagram as it is read into the buffer. */
  function Cut(d: seq<byte>): seq<byte> {
    d[..Min(|d|, BUF_SIZE + HEADER_SIZE)]
  }

  /** If d is read as a data packet, that packet is one of ps. */
  ghost predicate Vouched(b: Build, d: seq<byte>, ps: seq<Segment>) {
    var r := Extensions.Accept(b, d);
    r.Ok? && r.value.seg.ty.Data? ==> r.value.seg in ps
  }

  ghost predicate AllVouched(b: Build, wire: seq<seq<byte>>, ps: seq<Segment>) {
    forall d {:trigger Vouched(b, d, ps)} :: d in wire ==> Vouched(b, d, ps)
  }

  lemma VouchedOneMore(b: Build, wire: seq<seq<byte>>, d: seq<byte>, ps: seq<Segment>)
    ensures AllVouched(b, wire, ps) && Vouched(b, d, ps) ==> AllVouched(b, wire + [d], ps)
  {
  }

  lemma VouchedByMore(b: Build, wire: seq<seq<byte>>, ps: seq<Segment>, qs: seq<Segment>)
    requires AllVouched(b, wire, ps) && AllIn(ps, qs)
    ensures AllVouched(b, wire, qs)
  {
    forall d | d in wire ensures Vouched(b, d, qs) {
      assert Vouched(b, d, ps);
    }
  }

  lemma MoreBuilt(b: Build, wire: seq<seq<byte>>, sent: seq<Segment>, ps: seq<Segment>, p: Segment)
    ensures AllVouched(b, wire, ps) && AllIn(sent, ps) ==> AllVouched(b, wire, ps + [p]) && AllIn(sent, ps + [p])
  {
    if AllVouched(b, wire, ps) {
      VouchedByMore(b, wire, ps, ps + [p]);
    }
  }

  ghost predicate AllIn(ps: seq<Segment>, qs: seq<Segment>) {
    forall p :: p in ps ==> p in qs
  }

  /** inbox is what is left of the script. */
  ghost predicate Consumed(script: seq<Arrival>, inbox: seq<Arrival>) {
    |inbox| <= |script| && inbox == script[|script| - |inbox|..]
  }

  ghost function Taken(script: seq<Arrival>, inbox: seq<Arrival>): seq<Arrival> {
    if |inbox| <= |script| then script[..|script| - |inbox|] else []
  }

  /** These bytes are a datagram that was taken, as it is read. */
  ghost predicate CameIn(taken: seq<Arrival>, bytes: seq<byte>) {
    exists d :: Datagram(d) in taken && bytes == Cut(d)
  }

  lemma ReadIsOverheard(b: Build, taken: seq<Arrival>, bytes: seq<byte>)
    requires CameIn(taken, bytes) && Extensions.Accept(b, bytes).Ok?
    ensures Overheard(b, taken, Extensions.Accept(b, bytes).value.seg)
  {
    var d :| Datagram(d) in taken && bytes == Cut(d);
    assert Extensions.Accept(b, Cut(d)).value.seg == Extensions.Accept(b, bytes).value.seg;
  }

  /** One of the datagrams taken is read as p. */
  ghost predicate Overheard(b: Build, taken: seq<Arrival>, p: Segment) {
    exists d :: Datagram(d) in taken && Extensions.Accept(b, Cut(d)).Ok? && Extensions.Accept(b, Cut(d)).value.seg == p
  }

  ghost predicate AllHeard(b: Build, taken: seq<Arrival>, es: seq<Receive.Event>) {
    forall e {:trigger Overheard(b, taken, e.p)} :: e in es && !e.Read? ==> Overheard(b, taken, e.p)
  }

  lemma HeardOneMore(b: Build, taken: seq<Arrival>, es: seq<Receive.Event>, e: Receive.Event)
    ensures AllHeard(b, taken, es) && (e.Read? || Overheard(b, taken, e.p)) ==> AllHeard(b, taken, es + [e])
  {
  }

  lemma HeardInMore(b: Build, taken: seq<Arrival>, taken': seq<Arrival>, es: seq<Receive.Event>)
    requires AllHeard(b, taken, es) && taken <= taken'
    ensures AllHeard(b, taken', es)
  {
    forall e | e in es && !e.Read? ensures Overheard(b, taken', e.p) {
      assert Overheard(b, taken, e.p);
      OverheardMore(b, taken, taken', e.p);
    }
  }

  lemma OverheardMore(b: Build, taken: seq<Arrival>, taken': seq<Arrival>, p: Segment)
    requires taken <= taken' && Overheard(b, taken, p)
    ensures Overheard(b, taken', p)
  {
    var d :| Datagram(d) in taken && Extensions.Accept(b, Cut(d)).Ok? && Extensions.Accept(b, Cut(d)).value.seg == p;
    assert Datagram(d) in taken';
  }

  lemma OverheardStays(b: Build, script: seq<Arrival>, inbox: seq<Arrival>, inbox': seq<Arrival>, p: Segment)
    requires |inbox'| <= |inbox|
    ensures Overheard(b, Taken(script, inbox), p) ==> Overheard(b, Taken(script, inbox'), p)
  {
    if Overheard(b, Taken(script, inbox), p) {
      OverheardMore(b, Taken(script, inbox), Taken(script, inbox'), p);
    }
  }

  lemma TakeOne(b: Build, script: seq<Arrival>, inbox: seq<Arrival>, es: seq<Receive.Event>)
    requires inbox != []
    ensures Consumed(script, inbox) ==> Consumed(script, inbox[1..]) && inbox[0] in Taken(script, inbox[1..])
    ensures Consumed(script, inbox) && AllHeard(b, Taken(script, inbox), es) ==>
            AllHeard(b, Taken(script, inbox[1..]), es)
  {
    if Consumed(script, inbox) {
      var k := |script| - |inbox|;
      assert inbox[1..] == script[k + 1..] && script[..k + 1][k] == inbox[0];
      if AllHeard(b, Taken(script, inbox), es) {
        HeardInMore(b, Taken(script, inbox), Taken(script, inbox[1..]), es);
      }
    }
  }

  /** The first packet of w with number s is at this position; past the end if there is none. */
  ghost predicate FirstAt(w: seq<Segment>, s: u16, pos: nat) {
    pos <= |w| && (pos < |w| ==> w[pos].seqNr == s) && forall i :: 0 <= i < pos ==> w[i].seqNr != s
  }

  /** A reply: its header, and the vector of a selective acknowledgement. */
  datatype Reply = Answer(head: Segment, sack: seq<byte>)

  /** A reply carries no data. */
  ghost predicate Bare(r: Reply) {
    r.head.payload == [] && !r.head.ty.Data?
  }

  /** The outcome and the reply of handlePacket are what the connection's state machine says. */
  ghost predicate Says(out: Outcome, reply: Option<Reply>, a: Handshake.Answer, connId: u16) {
    match a
    case Nothing => out.Done? && reply == None
    case Reply(ty) => out.Done? && reply.Some? && reply.value.head.ty == ty && reply.value.head.connId == connId &&
        reply.value.head.payload == []
    case Refuse(e) => out == Failed(e) && reply == None
  }

  /** Does setSack accept a vector of this length? */
  predicate Settable(sack: seq<byte>) {
    |sack| >= 4 && |sack| % 4 == 0
  }

  /** A datagram that the peer reads as this reply, with its selective acknowledgement if that has an allowed length. Of
      the length only the lowest byte travels: the peer refuses the datagram if that is 0, and takes what is left of a
      longer vector for payload. */
  ghost predicate Conveys(d: seq<byte>, r: Reply) {
    var n := |r.sack| % 0x100;
    Extensions.Accept(AsCommented, d) ==
      if !Settable(r.sack) then Result.Ok(Extensions.Incoming(r.head, []))
      else if n == 0 then Result.Err
      else Result.Ok(Extensions.Incoming(r.head.(payload := r.sack[n..]),
          [Extensions.Ext(Extensions.SELECTIVE_ACK, r.sack[..n])]))
  }

  /** The peer reads the whole reply. */
  ghost predicate ConveysAll(d: seq<byte>, r: Reply) {
    Extensions.Accept(AsCommented, d) ==
      Result.Ok(Extensions.Incoming(r.head,
          if Settable(r.sack) then [Extensions.Ext(Extensions.SELECTIVE_ACK, r.sack)] else []))
  }

  /** A datagram with the header of p. */
  ghost predicate Heads(d: seq<byte>, p: Segment) {
    |d| >= HEADER_SIZE && GetType(d) == p.ty && ConnId(d) == p.connId && SeqNr(d) == p.seqNr && AckNr(d) == p.ackNr
  }

  /** What becomes of a reply on the wire; it is read in full exactly if its vector is shorter than 256 bytes or is
      refused by setSack. */
  lemma ReplyIsConveyed(r: Reply, timestamp: u32, diff: u32)
    requires r.head.payload == []
    ensures var p := Encode(AsCommented, r.head, timestamp, diff);
            var q := if Settable(r.sack) then Extensions.WithSack(p, r.sack) else p;
            Extensions.WellFormed(p) && Conveys(q, r) && (ConveysAll(q, r) <==> !Settable(r.sack) || |r.sack| < 0x100)
  {
    var p := Encode(AsCommented, r.head, timestamp, diff);
    Extensions.BuiltIsAccepted(AsCommented, r.head, timestamp, diff);
    if Settable(r.sack) {
      var n := |r.sack| % 0x100;
      var e, whole := Extensions.Ext(Extensions.SELECTIVE_ACK, r.sack[..n]),
          Extensions.Ext(Extensions.SELECTIVE_ACK, r.sack);
      Extensions.SackIsRead(p, r.sack);
      Extensions.SackIsReadIff(p, r.sack);
      assert [] + [e] == [e] && [] + [whole] == [whole] && r.sack[n..] + [] == r.sack[n..];
    }
  }

  /** A FIN with this connection id. */
  ghost predicate IsFin(d: seq<byte>, connId: u16) {
    |d| >= HEADER_SIZE && GetType(d) == Fin && ConnId(d) == connId
  }

  /** A datagram that carries p. */
  ghost predicate Transmits(d: seq<byte>, p: Segment) {
    |d| >= HEADER_SIZE && View(d) == p
  }
}
