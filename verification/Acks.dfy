/** The acknowledgement test as written (utp/socket.go:623), with everything else as its comments say: a packet, of
    whatever type, whose own acknowledgement number is the one before its sequence number moves this socket's number to
    its own. */
module Acks {
  import opened Bytes
  import opened Packet
  import opened Receive
  import opened Wrap

  function StepAcking(rx: Rx, e: Event): (Rx, seq<byte>) {
    match e
    case Arrival(p, open, n) => Flush(Keep(AsCommented, rx.(ackNr := Acknowledge(AsWritten, rx.ackNr, p)), p), n)
    case Read(n) => Flush(rx, n)
    case Unanswered(p, open) => (rx.(ackNr := Acknowledge(AsWritten, rx.ackNr, p)), [])
  }

  function AfterAcking(rx: Rx, out: seq<byte>, es: seq<Event>): (Rx, seq<byte>)
    decreases |es|
  {
    if es == [] then (rx, out)
    else
      var (rx', bytes) := StepAcking(rx, es[0]);
      AfterAcking(rx', out + bytes, es[1..])
  }

  /** The first packet that arrives is 9, and it acknowledges 8: it is handed on although 6, 7 and 8 are missing. */
  lemma WrittenSkipsAGap()
    ensures StepAcking(Fresh(5), Arrival(Segment(Data, 0, 0, 9, 8, [42]), true, 100)) == (Fresh(9), [42])
  {
    var p := Segment(Data, 0, 0, 9, 8, [42]);
    assert [p][1..] == [] && p.payload[..1] == p.payload;
  }

  /** Does p acknowledge the number before its own? */
  predicate Misleading(p: Segment) {
    Sub16(p.seqNr, p.ackNr) == 1
  }

  /** Only data packets with these numbers that are answered, and other packets with those, or ones to which the reply
      fails, may acknowledge the number before their own. */
  ghost predicate Limited(es: seq<Event>, data: set<u16>, others: set<u16>) {
    forall e :: e in es && !e.Read? && Misleading(e.p) ==> e.p.seqNr in if MayStore(e) then data else others
  }

  /** A data packet that is answered, so that it may be stored. */
  predicate MayStore(e: Event) {
    e.Arrival? && e.p.ty.Data?
  }

  /** With that test as written, delivery is in order for all n chunks after base and all such runs. */
  ghost predicate AlwaysInOrderAcking(base: u16, n: nat, data: set<u16>, others: set<u16>) {
    forall st: Stream, es: seq<Event> ::
      st.base == base && |st.chunks| == n && GenuineRun(st, es) && Limited(es, data, others) ==>
        AfterAcking(Fresh(base), [], es).1 <= Flatten(st.chunks)
  }

  /** The lowest place, counted from base, at which a data packet may not be misleading. */
  function FirstBad(n: nat): nat {
    if n == 0x8002 then 1 else 2
  }

  /** No misleading data packet but the first of the stream; no other misleading packet with a number of the stream. (If
      the first packet can be taken for a new one at the end, not that one either, and not the number before it.) */
  ghost predicate HarmlessNumbers(base: u16, n: nat, data: set<u16>, others: set<u16>) {
    && (forall k :: FirstBad(n) <= k <= n ==> Add16(base, k) !in data)
    && (n >= 2 ==> forall k :: FirstBad(n) - 1 <= k <= n ==> Add16(base, k) !in others)
  }

  /** The last packet has number 0, the only one after the wrap, and there are at most 2^15 + 3 of them. */
  ghost predicate EndsAtZero(base: u16, n: nat) {
    base as int + n == 0x1_0000 && 2 <= n <= 0x8003
  }

  /** No misleading packet with a number of the stream, nor one with the number before and no data; but number 0 may be
      so far from the first packets that these do no harm: the first one if it is 2^15 after it, and the number before
      if it is that, or one less, after it. */
  ghost predicate HarmlessToZero(base: u16, n: nat, data: set<u16>, others: set<u16>) {
    && (forall k :: (if n == 0x8001 then 2 else 1) <= k <= n ==> Add16(base, k) !in data)
    && (forall k :: (if 0x8000 <= n <= 0x8001 then 1 else 0) <= k <= n ==> Add16(base, k) !in others)
  }

  /** When the test as written does no harm, exactly: wherever the repaired socket delivers in order, this one does if
      and only if the misleading packets are harmless ones. Besides, it delivers in order a stream that ends with number
      0, under a similar condition: where the repaired socket goes wrong it gets stuck. */
  lemma InOrderAckingIff(base: u16, n: nat, data: set<u16>, others: set<u16>)
    ensures AlwaysInOrderAcking(base, n, data, others) <==>
              if n == 0 || (Add16(base, 1) as int + n <= 0x1_0000 && n <= 0x8002)
              then HarmlessNumbers(base, n, data, others)
              else EndsAtZero(base, n) && HarmlessToZero(base, n, data, others)
  {
    if n == 0 || (Add16(base, 1) as int + n <= 0x1_0000 && n <= 0x8002) {
      if HarmlessNumbers(base, n, data, others) {
        HarmlessIsInOrder(base, n, data, others);
      } else {
        var st, es := Misled(base, n, data, others);
      }
    } else if EndsAtZero(base, n) && HarmlessToZero(base, n, data, others) {
      QuietIsInOrder(base, n, data, others);
    } else {
      var st, es := MisledAtWrap(base, n, data, others);
    }
  }

  lemma HarmlessIsInOrder(base: u16, n: nat, data: set<u16>, others: set<u16>)
    requires n == 0 || (Add16(base, 1) as int + n <= 0x1_0000 && n <= 0x8002)
    requires HarmlessNumbers(base, n, data, others)
    ensures AlwaysInOrderAcking(base, n, data, others)
  {
    forall st: Stream, es: seq<Event> |
      st.base == base && |st.chunks| == n && GenuineRun(st, es) && Limited(es, data, others)
      ensures AfterAcking(Fresh(base), [], es).1 <= Flatten(st.chunks)
    {
      RunKeepsAcking(st, Fresh(base), [], es, data, others);
      var (rx, out) := AfterAcking(Fresh(base), [], es);
      HandedIsPrefixAcking(st, rx, out);
    }
  }

  // ---------- harmless ----------

  /** The acknowledged number is not one of the packets to come, or there is only one packet anyway. */
  ghost predicate AckBehind(st: Stream, rx: Rx) {
    var a, c, n := Pos(st, rx.ackNr), Count(st, rx), |st.chunks|;
    n == 1 || a == c || a > n || (a < c && n < 0x8002)
  }

  ghost predicate InvAcking(st: Stream, rx: Rx, out: seq<byte>) {
    && (rx.pending == [] ==> AckBehind(st, rx))
    && (Over(st, rx.(ackNr := rx.lastDropped), out) || (BufferInv(st, rx) && Handed(st, rx, out)))
  }

  /** The same between the arrival of a packet and the flush that follows it. */
  ghost predicate ReadyAcking(st: Stream, rx: Rx, out: seq<byte>) {
    && (rx.pending == [] ==>
        AckBehind(st, rx) || (BufferInv(st, rx) && HeadDue(st, rx) && rx.ackNr == rx.buff[0].seqNr))
    && (Over(st, rx.(ackNr := rx.lastDropped), out) || (BufferInv(st, rx) && Handed(st, rx, out)))
  }

  /** What is allowed of a single packet. */
  ghost predicate Allowed(st: Stream, p: Segment, stored: bool) {
    var n := |st.chunks|;
    Misleading(p) ==>
      if stored then n < 0x8002 && (Pos(st, p.seqNr) == 1 || n == 1)
      else n <= 1 || Pos(st, p.seqNr) > n || (Pos(st, p.seqNr) == 0 && n < 0x8002)
  }

  lemma HarmlessIsAllowed(st: Stream, p: Segment, stored: bool, data: set<u16>, others: set<u16>)
    requires InRange(st) && Genuine(st, p) && HarmlessNumbers(st.base, |st.chunks|, data, others)
    requires (stored ==> p.ty.Data?) && (Misleading(p) ==> p.seqNr in if stored then data else others)
    ensures Allowed(st, p, stored)
  {
    NumberOfPos(st, p.seqNr);
    if p.ty.Data? {
      GenuineCarries(st, p);
    }
  }

  lemma ArriveKeepsAcking(st: Stream, rx: Rx, out: seq<byte>, p: Segment)
    requires InvAcking(st, rx, out) && InRange(st) && Genuine(st, p) && Allowed(st, p, p.ty.Data?)
    ensures ReadyAcking(st, Keep(AsCommented, rx.(ackNr := Acknowledge(AsWritten, rx.ackNr, p)), p), out)
  {
    var rx1 := rx.(ackNr := Acknowledge(AsWritten, rx.ackNr, p));
    if Over(st, rx.(ackNr := rx.lastDropped), out) {
      OverStays(st, false, rx.(ackNr := rx.lastDropped), out, p);
    } else {
      KeepKeeps(st, rx1, p);
      if Count(st, rx) == 0x8002 {
        NothingLeftAcking(st, rx, out);
      }
      AcknowledgeKeepsAcking(st, rx, p);
    }
  }

  lemma NothingLeftAcking(st: Stream, rx: Rx, out: seq<byte>)
    requires BufferInv(st, rx) && Handed(st, rx, out) && Count(st, rx) == 0x8002
    ensures rx.buff == [] && rx.pending == [] && Over(st, rx.(ackNr := rx.lastDropped), out)
  {
    assert forall q :: q in rx.buff ==> false;
  }

  lemma AcknowledgeKeepsAcking(st: Stream, rx: Rx, p: Segment)
    requires BufferInv(st, rx) && (rx.pending == [] ==> AckBehind(st, rx)) && Genuine(st, p)
    requires Allowed(st, p, p.ty.Data?) && (rx.pending != [] ==> HeadDue(st, rx))
    ensures var rx' := Keep(AsCommented, rx.(ackNr := Acknowledge(AsWritten, rx.ackNr, p)), p);
            rx.pending == [] ==> AckBehind(st, rx') || (HeadDue(st, rx') && rx'.ackNr == rx'.buff[0].seqNr)
  {
    var rx1 := rx.(ackNr := Acknowledge(AsWritten, rx.ackNr, p));
    if Misleading(p) && p.ty.Data? {
      GenuineCarries(st, p);
      KeepKeeps(st, rx1, p);
      if Count(st, rx) == 0 {
        SamePos(st, Keep(AsCommented, rx1, p).buff[0].seqNr, p.seqNr);
      }
    }
  }

  lemma FlushKeepsAcking(st: Stream, rx: Rx, out: seq<byte>, n: nat)
    requires ReadyAcking(st, rx, out)
    ensures InvAcking(st, Flush(rx, n).0, out + Flush(rx, n).1)
  {
    var (rx', bytes) := Flush(rx, n);
    if Over(st, rx.(ackNr := rx.lastDropped), out) {
      OverFlushedAcking(st, rx, out, n);
      assert out + bytes == out;
    } else if rx.pending != [] {
      FlushPendingKeeps(st, rx, out, n);
    } else if rx' != rx {
      OnlyDueIsHandedAcking(st, rx, out);
      if |bytes| == |rx.buff[0].payload| {
        AdvanceKeeps(st, rx);
      }
    } else {
      assert out + bytes == out;
    }
  }

  lemma OnlyDueIsHandedAcking(st: Stream, rx: Rx, out: seq<byte>)
    requires BufferInv(st, rx) && rx.pending == []
    requires AckBehind(st, rx) || (HeadDue(st, rx) && rx.ackNr == rx.buff[0].seqNr)
    requires rx.buff != [] && (rx.ackNr == rx.buff[0].seqNr || Add16(rx.ackNr, 1) == rx.buff[0].seqNr)
    ensures HeadDue(st, rx)
  {
    assert rx.buff[0] in rx.buff;
    PosOfNext(st, rx.ackNr);
  }

  lemma OverFlushedAcking(st: Stream, rx: Rx, out: seq<byte>, n: nat)
    requires Over(st, rx.(ackNr := rx.lastDropped), out) && AckBehind(st, rx)
    ensures Flush(rx, n) == (rx, [])
  {
    PosOfNext(st, rx.ackNr);
  }

  lemma StepKeepsAcking(st: Stream, rx: Rx, out: seq<byte>, e: Event)
    requires InvAcking(st, rx, out) && InRange(st) && (!e.Read? ==> Genuine(st, e.p) && Allowed(st, e.p, MayStore(e)))
    ensures InvAcking(st, StepAcking(rx, e).0, out + StepAcking(rx, e).1)
  {
    match e
    case Arrival(p, open, n) =>
      ArriveKeepsAcking(st, rx, out, p);
      FlushKeepsAcking(st, Keep(AsCommented, rx.(ackNr := Acknowledge(AsWritten, rx.ackNr, p)), p), out, n);
    case Read(n) =>
      FlushKeepsAcking(st, rx, out, n);
    case Unanswered(p, open) =>
      assert out + [] == out;
  }

  lemma {:induction false} RunKeepsAcking(st: Stream, rx: Rx, out: seq<byte>, es: seq<Event>, data: set<u16>,
      others: set<u16>)
    requires InvAcking(st, rx, out) && InRange(st) && GenuineRun(st, es) && Limited(es, data, others)
    requires HarmlessNumbers(st.base, |st.chunks|, data, others)
    ensures InvAcking(st, AfterAcking(rx, out, es).0, AfterAcking(rx, out, es).1)
    decreases |es|
  {
    if es != [] {
      assert es[0] in es;
      if !es[0].Read? {
        HarmlessIsAllowed(st, es[0].p, MayStore(es[0]), data, others);
      }
      StepKeepsAcking(st, rx, out, es[0]);
      var (rx', bytes) := StepAcking(rx, es[0]);
      RunKeepsAcking(st, rx', out + bytes, es[1..], data, others);
    }
  }

  lemma HandedIsPrefixAcking(st: Stream, rx: Rx, out: seq<byte>)
    requires InvAcking(st, rx, out)
    ensures out <= Flatten(st.chunks)
  {
    HandedIsPrefix(st, rx.(ackNr := rx.lastDropped), out);
  }

  // ---------- a stream that ends with number 0 ----------

  /** What is handed on next, if anything, is the packet that is due; once number 0 has been dropped, in its turn or
      instead of the packet that was due, nothing more is handed on. */
  ghost predicate Quiet(st: Stream, rx: Rx, out: seq<byte>) {
    && EndsAtZero(st.base, |st.chunks|) && Sorted(rx.buff) && AckIdle(st, rx)
    && (forall p :: p in rx.buff ==> Expected(st, rx.lastDropped, p))
    && if rx.lastDropped == 0 then rx.pending == [] && out <= Flatten(st.chunks)
       else Count(st, rx) < |st.chunks| && Underway(st, rx, out)
  }

  /** The acknowledged number is that of the last packet dropped, or not one of the stream, or so low that it does not
      matter. */
  ghost predicate AckIdle(st: Stream, rx: Rx) {
    var a, n := Pos(st, rx.ackNr), |st.chunks|;
    || rx.ackNr == rx.lastDropped || a > n || (a == 0 && 0x8000 <= n <= 0x8001)
    || (a == 1 && n == 0x8001 && (rx.lastDropped == st.base ==> FirstInFront(st, rx.buff)))
  }

  ghost predicate FirstInFront(st: Stream, buff: seq<Segment>) {
    buff != [] && Pos(st, buff[0].seqNr) == 1
  }

  /** What may be buffered when the last number dropped is d: packets after that one, number 0 only if it is less than
      2^15 ahead; and the first packet, if the last but one makes it seem new. After number 0 none of the first ones,
      unless they seem new then. */
  ghost predicate Expected(st: Stream, d: u16, p: Segment) {
    var i, c, n := Pos(st, p.seqNr), Pos(st, d), |st.chunks|;
    && Carries(st, p.seqNr, p.payload)
    && if d == 0 then p.seqNr != 0 && (n <= 0x8001 ==> i + 0x7FFF > n)
       else (i > c || (c == 0x8002 && i == 1)) && (p.seqNr == 0 ==> n < c + 0x8000)
  }

  /** The bytes handed on so far. The front packet is the one that is partly read, or number 0. */
  ghost predicate Underway(st: Stream, rx: Rx, out: seq<byte>)
    requires Count(st, rx) < |st.chunks|
  {
    var c := Count(st, rx);
    if rx.pending == [] then out == UpTo(st, c)
    else
      && rx.buff != [] && Pos(st, rx.buff[0].seqNr) in {c + 1, |st.chunks|}
      && |rx.pending| <= |st.chunks[c]|
      && var done := |st.chunks[c]| - |rx.pending|;
      && rx.pending == st.chunks[c][done..]
      && out == UpTo(st, c) + st.chunks[c][..done]
  }

  /** The numbers of the stream in order: those up to 65535, and then 0. */
  lemma NumbersToZero(st: Stream, s: u16)
    requires EndsAtZero(st.base, |st.chunks|)
    ensures 0 < Pos(st, s) < |st.chunks| <==> s > st.base
    ensures Pos(st, s) == |st.chunks| <==> s == 0
    ensures s >= st.base ==> Pos(st, s) == s - st.base
    ensures s < st.base ==> Pos(st, s) == s + |st.chunks|
  {
  }

  lemma AdmittedIsExpected(st: Stream, d: u16, p: Segment)
    requires EndsAtZero(st.base, |st.chunks|) && (d == 0 || Pos(st, d) < |st.chunks|)
    requires p.ty.Data? && Carries(st, p.seqNr, p.payload) && Admits(AsCommented, d, p)
    ensures Expected(st, d, p)
  {
    NumbersToZero(st, p.seqNr);
    NumbersToZero(st, d);
  }

  /** What comes in front of a packet partly read is number 0; before anything is dropped nothing comes in front of the
      first packet. */
  lemma InFrontIsZero(st: Stream, d: u16, p: Segment, q: Segment)
    requires EndsAtZero(st.base, |st.chunks|) && d != 0 && Pos(st, d) < |st.chunks|
    requires Expected(st, d, p) && Carries(st, q.seqNr, q.payload) && p.seqNr < q.seqNr
    ensures Pos(st, q.seqNr) == Pos(st, d) + 1 ==> p.seqNr == 0 && Pos(st, p.seqNr) == |st.chunks|
    ensures d == st.base && |st.chunks| >= 0x8000 ==> Pos(st, q.seqNr) != 1
  {
    NumbersToZero(st, p.seqNr);
    NumbersToZero(st, q.seqNr);
    NumbersToZero(st, d);
  }

  lemma FrontStays(buff: seq<Segment>, buff': seq<Segment>, p: Segment)
    requires Sorted(buff) && Insert(AsCommented, buff, p) == Stored(buff') && buff != []
    ensures buff' != [] && (buff'[0] == buff[0] || (buff'[0] == p && p.seqNr < buff[0].seqNr))
  {
    if p.seqNr <= buff[|buff| - 1].seqNr {
      CountBelowSplits(buff, p.seqNr);
    }
  }

  /** Storing a packet keeps what is expected, and the front as far as it matters. */
  lemma QuietInsert(st: Stream, rx: Rx, out: seq<byte>, p: Segment) returns (buff': seq<Segment>)
    requires Quiet(st, rx, out) && p.ty.Data? && Carries(st, p.seqNr, p.payload)
    requires Admits(AsCommented, rx.lastDropped, p)
    ensures Insert(AsCommented, rx.buff, p) == Stored(buff') && Sorted(buff') && Buffered(buff', p.seqNr)
    ensures forall q :: q in buff' ==> Expected(st, rx.lastDropped, q)
    ensures rx.lastDropped != 0 ==> Underway(st, rx.(buff := buff'), out)
    ensures |st.chunks| == 0x8001 && rx.lastDropped == st.base && FirstInFront(st, rx.buff) ==> FirstInFront(st, buff')
  {
    InsertIsSortedInsertion(AsCommented, rx.buff, p);
    buff' := Insert(AsCommented, rx.buff, p).buff;
    StillBuffered(rx.buff, buff');
    if !Buffered(rx.buff, p.seqNr) {
      assert p in buff';
    }
    AdmittedIsExpected(st, rx.lastDropped, p);
    if rx.buff != [] && rx.lastDropped != 0 {
      FrontStays(rx.buff, buff', p);
      assert rx.buff[0] in rx.buff;
      if p.seqNr < rx.buff[0].seqNr {
        InFrontIsZero(st, rx.lastDropped, p, rx.buff[0]);
        NumbersToZero(st, rx.buff[0].seqNr);
      }
    }
  }

  /** The number that a packet may set: one that does not matter, or its own, if it is the first one. */
  ghost predicate SetsIdle(st: Stream, rx: Rx, e: Event, a: u16) {
    var n := |st.chunks|;
    || a == rx.ackNr || Pos(st, a) > n || (Pos(st, a) == 0 && 0x8000 <= n <= 0x8001)
    || (Pos(st, a) == 1 && n == 0x8001 && MayStore(e) && a == e.p.seqNr)
  }

  lemma QuietArrival(st: Stream, rx: Rx, out: seq<byte>, e: Event, a: u16)
    requires Quiet(st, rx, out) && e.Arrival? && Genuine(st, e.p) && SetsIdle(st, rx, e, a)
    ensures Quiet(st, Keep(AsCommented, rx.(ackNr := a), e.p), out)
  {
    if Admits(AsCommented, rx.lastDropped, e.p) {
      var i: nat :| i < |st.chunks| && IsChunk(st, i, e.p);
      PosOfNumber(st, 1 + i);
      var buff' := QuietInsert(st, rx, out, e.p);
      if a != rx.ackNr && Pos(st, a) == 1 && rx.lastDropped == st.base {
        FirstIsInFront(st, buff', a);
      }
    } else if e.p.ty.Data? && a == e.p.seqNr && Pos(st, a) == 1 {
      FirstIsNew(st, a);
    }
  }

  lemma FirstIsNew(st: Stream, a: u16)
    requires Pos(st, a) == 1
    ensures Ahead(a, st.base)
  {
  }

  lemma FirstIsInFront(st: Stream, buff: seq<Segment>, a: u16)
    requires EndsAtZero(st.base, |st.chunks|) && |st.chunks| == 0x8001 && Pos(st, a) == 1
    requires Sorted(buff) && Buffered(buff, a) && forall q :: q in buff ==> Expected(st, st.base, q)
    ensures FirstInFront(st, buff)
  {
    var i :| 0 <= i < |buff| && buff[i].seqNr == a;
    if i > 0 {
      assert buff[0] in buff && buff[i] in buff;
      InFrontIsZero(st, st.base, buff[0], buff[i]);
    }
  }

  lemma StuckFlush(st: Stream, rx: Rx, out: seq<byte>, n: nat)
    requires Quiet(st, rx, out) && rx.lastDropped == 0
    ensures Flush(rx, n) == (rx, [])
  {
    NumbersToZero(st, rx.ackNr);
    if rx.buff != [] {
      assert rx.buff[0] in rx.buff;
      NumbersToZero(st, rx.buff[0].seqNr);
    }
  }

  /** Only the packet that is due is begun. */
  lemma QuietBegins(st: Stream, rx: Rx, out: seq<byte>)
    requires Quiet(st, rx, out) && rx.lastDropped != 0 && rx.pending == [] && rx.buff != []
    requires rx.ackNr == rx.buff[0].seqNr || Add16(rx.ackNr, 1) == rx.buff[0].seqNr
    ensures Pos(st, rx.buff[0].seqNr) == Count(st, rx) + 1
  {
    assert rx.buff[0] in rx.buff;
    NumbersToZero(st, rx.buff[0].seqNr);
    NumbersToZero(st, rx.ackNr);
    NumbersToZero(st, rx.lastDropped);
  }

  lemma StillExpected(st: Stream, d: u16, head: Segment, p: Segment)
    requires EndsAtZero(st.base, |st.chunks|) && d != 0 && Pos(st, d) < |st.chunks|
    requires Expected(st, d, head) && Expected(st, d, p) && p.seqNr > head.seqNr
    requires Pos(st, head.seqNr) in {Pos(st, d) + 1, |st.chunks|}
    ensures Expected(st, head.seqNr, p)
  {
    NumbersToZero(st, head.seqNr);
    NumbersToZero(st, p.seqNr);
  }

  /** The front packet is dropped when the one that is due has been handed on. */
  lemma QuietAdvance(st: Stream, rx: Rx)
    requires EndsAtZero(st.base, |st.chunks|) && Sorted(rx.buff) && rx.lastDropped != 0 && rx.buff != []
    requires forall p :: p in rx.buff ==> Expected(st, rx.lastDropped, p)
    requires Count(st, rx) < |st.chunks| && Pos(st, rx.buff[0].seqNr) in {Count(st, rx) + 1, |st.chunks|}
    ensures Quiet(st, Advance(rx.(pending := [])), UpTo(st, Count(st, rx) + 1))
  {
    var rx' := Advance(rx.(pending := []));
    var head := rx.buff[0];
    assert head in rx.buff;
    NumbersToZero(st, head.seqNr);
    UpToIsPrefix(st, Count(st, rx) + 1, |st.chunks|);
    assert st.chunks[..|st.chunks|] == st.chunks;
    forall p | p in rx'.buff ensures Expected(st, head.seqNr, p) {
      var i :| 0 <= i < |rx'.buff| && rx'.buff[i] == p;
      assert p == rx.buff[i + 1] && p in rx.buff;
      StillExpected(st, rx.lastDropped, head, p);
    }
  }

  lemma QuietFlush(st: Stream, rx: Rx, out: seq<byte>, n: nat)
    requires Quiet(st, rx, out)
    ensures Quiet(st, Flush(rx, n).0, out + Flush(rx, n).1)
  {
    assert out + [] == out;
    if rx.lastDropped == 0 {
      StuckFlush(st, rx, out, n);
    } else if rx.pending != [] {
      QuietHandsOn(st, rx, out, n, |st.chunks[Count(st, rx)]| - |rx.pending|);
    } else if rx.buff != [] && (rx.ackNr == rx.buff[0].seqNr || Add16(rx.ackNr, 1) == rx.buff[0].seqNr) {
      QuietBegins(st, rx, out);
      assert rx.buff[0] in rx.buff;
      QuietHandsOn(st, rx, out, n, 0);
    }
  }

  /** Bytes of the packet that is due are handed on, of which done have been before. */
  lemma QuietHandsOn(st: Stream, rx: Rx, out: seq<byte>, n: nat, done: nat)
    requires Quiet(st, rx, out) && rx.lastDropped != 0 && done <= |st.chunks[Count(st, rx)]|
    requires rx.buff != [] && Pos(st, rx.buff[0].seqNr) in {Count(st, rx) + 1, |st.chunks|}
    requires out == UpTo(st, Count(st, rx)) + st.chunks[Count(st, rx)][..done]
    requires var (rx', bytes) := Flush(rx, n); var data := st.chunks[Count(st, rx)];
             && done + |bytes| <= |data| && bytes == data[done..done + |bytes|]
             && rx' == if done + |bytes| == |data| then Advance(rx.(pending := []))
                       else rx.(pending := data[done + |bytes|..])
    ensures Quiet(st, Flush(rx, n).0, out + Flush(rx, n).1)
  {
    var bytes, c := Flush(rx, n).1, Count(st, rx);
    var data := st.chunks[c];
    assert out + bytes == UpTo(st, c) + data[..done + |bytes|];
    if done + |bytes| == |data| {
      QuietAdvance(st, rx);
      assert data[..|data|] == data && st.chunks[..c + 1][..c] == st.chunks[..c];
    }
  }

  lemma {:induction false} QuietRun(st: Stream, rx: Rx, out: seq<byte>, es: seq<Event>, data: set<u16>,
      others: set<u16>)
    requires Quiet(st, rx, out) && GenuineRun(st, es) && Limited(es, data, others)
    requires HarmlessToZero(st.base, |st.chunks|, data, others)
    ensures Quiet(st, AfterAcking(rx, out, es).0, AfterAcking(rx, out, es).1)
    decreases |es|
  {
    if es != [] {
      var e := es[0];
      assert e in es;
      QuietStep(st, rx, out, e, data, others);
      QuietRun(st, StepAcking(rx, e).0, out + StepAcking(rx, e).1, es[1..], data, others);
    }
  }

  lemma QuietStep(st: Stream, rx: Rx, out: seq<byte>, e: Event, data: set<u16>, others: set<u16>)
    requires Quiet(st, rx, out) && (!e.Read? ==> Genuine(st, e.p)) && Limited([e], data, others)
    requires HarmlessToZero(st.base, |st.chunks|, data, others)
    ensures Quiet(st, StepAcking(rx, e).0, out + StepAcking(rx, e).1)
  {
    assert out + [] == out;
    if e.Read? {
      QuietFlush(st, rx, out, e.n);
    } else {
      var a := Acknowledge(AsWritten, rx.ackNr, e.p);
      QuietAcknowledges(st, rx, e, data, others);
      if e.Arrival? {
        QuietArrival(st, rx, out, e, a);
        QuietFlush(st, Keep(AsCommented, rx.(ackNr := a), e.p), out, e.n);
      }
    }
  }

  lemma QuietAcknowledges(st: Stream, rx: Rx, e: Event, data: set<u16>, others: set<u16>)
    requires !e.Read? && Genuine(st, e.p) && Limited([e], data, others)
    requires HarmlessToZero(st.base, |st.chunks|, data, others)
    ensures SetsIdle(st, rx, e, Acknowledge(AsWritten, rx.ackNr, e.p))
  {
    assert e in [e];
    NumberOfPos(st, e.p.seqNr);
    if MayStore(e) {
      var i: nat :| i < |st.chunks| && IsChunk(st, i, e.p);
      PosOfSent(st, i);
    }
  }

  lemma PosOfSent(st: Stream, i: nat)
    ensures Pos(st, Add16(st.base, 1 + i)) <= 1 + i && (i < 0xFFFF ==> Pos(st, Add16(st.base, 1 + i)) == 1 + i)
  {
    if i < 0xFFFF {
      PosOfNumber(st, 1 + i);
    }
  }

  lemma QuietIsInOrder(base: u16, n: nat, data: set<u16>, others: set<u16>)
    requires EndsAtZero(base, n) && HarmlessToZero(base, n, data, others)
    ensures AlwaysInOrderAcking(base, n, data, others)
  {
    forall st: Stream, es: seq<Event> |
      st.base == base && |st.chunks| == n && GenuineRun(st, es) && Limited(es, data, others)
      ensures AfterAcking(Fresh(base), [], es).1 <= Flatten(st.chunks)
    {
      QuietRun(st, Fresh(base), [], es, data, others);
      QuietIsPrefix(st, AfterAcking(Fresh(base), [], es).0, AfterAcking(Fresh(base), [], es).1);
    }
  }

  lemma QuietIsPrefix(st: Stream, rx: Rx, out: seq<byte>)
    requires Quiet(st, rx, out)
    ensures out <= Flatten(st.chunks)
  {
    if rx.lastDropped != 0 {
      var c := Count(st, rx);
      UpToIsPrefix(st, c + 1, |st.chunks|);
      assert st.chunks[..|st.chunks|] == st.chunks && st.chunks[..c + 1][..c] == st.chunks[..c];
    }
  }

  // ---------- not harmless ----------

  lemma {:induction false} InOrderAcking(st: Stream, k: nat)
    requires Short(st) && k <= |st.chunks|
    ensures AfterAcking(Fresh(st.base), [], Ordered(st, k)) == (Fresh(Add16(st.base, k)), UpTo(st, k))
  {
    if k > 0 {
      InOrderAcking(st, k - 1);
      var last := [Carrying(st, k - 1, 2)];
      assert Ordered(st, k) == Ordered(st, k - 1) + last && last[1..] == [];
      AckingBoth(Fresh(st.base), [], Ordered(st, k - 1), last);
      OneFurther(st.base, k - 1);
      NextAcking(Add16(st.base, k - 1), PacketAt(st, k - 1));
      assert st.chunks[..k][..k - 1] == st.chunks[..k - 1];
    }
  }

  lemma NextAcking(d: u16, p: Segment)
    requires p.ty.Data? && p.seqNr == Add16(d, 1) && p.ackNr == p.seqNr && 0 < |p.payload| <= 2
    ensures StepAcking(Fresh(d), Arrival(p, true, 2)) == (Fresh(p.seqNr), p.payload)
  {
    assert Keep(AsCommented, Fresh(d), p) == Rx(d, d, [p], []);
    assert [p][1..] == [] && p.payload[..|p.payload|] == p.payload;
  }

  lemma {:induction false} AckingBoth(rx: Rx, out: seq<byte>, es: seq<Event>, fs: seq<Event>)
    ensures AfterAcking(rx, out, es + fs) == var (rx1, out1) := AfterAcking(rx, out, es); AfterAcking(rx1, out1, fs)
    decreases |es|
  {
    if es == [] {
      assert es + fs == fs;
    } else {
      var (rx', bytes) := StepAcking(rx, es[0]);
      AckingBoth(rx', out + bytes, es[1..], fs);
      assert (es + fs)[1..] == es[1..] + fs;
    }
  }

  /** A packet with number s that acknowledges the number before. */
  function Nudge(s: u16): Segment {
    Segment(State, 0, 0, s, Sub16(s, 1), [])
  }

  /** The same for data. */
  function MisleadingAt(st: Stream, i: nat): Segment
    requires i < |st.chunks|
  {
    PacketAt(st, i).(ackNr := Sub16(PacketAt(st, i).seqNr, 1))
  }

  ghost predicate MisledBy(st: Stream, es: seq<Event>, data: set<u16>, others: set<u16>) {
    && GenuineRun(st, es) && Limited(es, data, others)
    && !(AfterAcking(Fresh(st.base), [], es).1 <= Flatten(st.chunks))
  }

  lemma Misled(base: u16, n: nat, data: set<u16>, others: set<u16>) returns (st: Stream, es: seq<Event>)
    requires !HarmlessNumbers(base, n, data, others)
    requires n == 0 || (Add16(base, 1) as int + n <= 0x1_0000 && n <= 0x8002)
    ensures st.base == base && |st.chunks| == n && MisledBy(st, es, data, others)
  {
    if k: nat :| FirstBad(n) <= k <= n && Add16(base, k) in data {
      if k >= 2 {
        st, es := MisledByData(base, n, k, data, others);
      } else {
        st, es := MisledByFirst(base, n, data, others);
      }
    } else {
      var k: nat :| FirstBad(n) - 1 <= k <= n && Add16(base, k) in others;
      if k == 0 {
        st, es := MisledBeforeFirst(base, n, data, others);
      } else {
        st, es := MisledByOther(base, n, k, data, others);
      }
    }
  }

  /** Of the streams that the repaired socket does not deliver in order. */
  lemma MisledAtWrap(base: u16, n: nat, data: set<u16>, others: set<u16>) returns (st: Stream, es: seq<Event>)
    requires !(n == 0 || (Add16(base, 1) as int + n <= 0x1_0000 && n <= 0x8002))
    requires !(EndsAtZero(base, n) && HarmlessToZero(base, n, data, others))
    ensures st.base == base && |st.chunks| == n && MisledBy(st, es, data, others)
  {
    if base < 0xFFFF && base as int + n > 0x1_0000 {
      var k := 0xFFFE - base;
      NumbersAtWrap(base, k);
      st, es := DroppedInstead(base, n, k, k + 1, k + 2, data, others);
    } else if Add16(base, 1) as int + 0x8002 < 0x1_0000 && n > 0x8002 {
      NumbersFrom(base, 0x8002);
      st, es := DroppedInstead(base, n, 0x8002, 0, 1, data, others);
    } else {
      st, es := MisledToZero(base, n, data, others);
    }
  }

  lemma MisledToZero(base: u16, n: nat, data: set<u16>, others: set<u16>) returns (st: Stream, es: seq<Event>)
    requires EndsAtZero(base, n) && !HarmlessToZero(base, n, data, others)
    ensures st.base == base && |st.chunks| == n && MisledBy(st, es, data, others)
  {
    if k: nat :| 2 <= k <= n && Add16(base, k) in data {
      st, es := MisledByData(base, n, k, data, others);
    } else if k: nat :| 1 <= k <= n && Add16(base, k) in others {
      st, es := MisledByOther(base, n, k, data, others);
    } else if Add16(base, 1) in data && n != 0x8001 {
      if n < 0x8001 {
        st, es := HandedOnTwice(base, n, if n < 0x8000 then 0 else 1, false, data, others);
      } else {
        st, es := MisledByFirst(base, n, data, others);
      }
    } else {
      assert Add16(base, 0) in others;
      if n < 0x8000 {
        st, es := HandedOnTwice(base, n, 0, true, data, others);
      } else {
        st, es := MisledBeforeFirst(base, n, data, others);
      }
    }
  }

  /** Packet k is partly read when packet i arrives, which is sorted in front and dropped in its place; then packet j,
      which has the next number, is handed on. */
  lemma DroppedInstead(base: u16, n: nat, k: nat, i: nat, j: nat, data: set<u16>, others: set<u16>)
    returns (st: Stream, es: seq<Event>)
    requires k < n && i < n && j < n && i != k && j != k && j != k + 1
    requires Ahead(Add16(base, 1 + i), Add16(base, k))
    requires Add16(base, 1 + i) as int + 1 == Add16(base, 1 + j) as int < Add16(base, 1 + k) as int
    ensures st.base == base && |st.chunks| == n && MisledBy(st, es, data, others)
  {
    st := Marked(base, n, k, [1, 2], j, [3]);
    var e0, e1, e2 := Carrying(st, k, 1), Carrying(st, i, 1), Carrying(st, j, 1);
    OneFurther(base, k);
    PartlyRead(Add16(base, k), e0.p, e1.p, UpTo(st, k));
    NextHandedOn(e0.p, e1.p.seqNr, e2.p);
    MisledByThree(st, k, e0, e1, e2, 3, data, others);
    es := Ordered(st, k) + [e0, e1] + [e2];
  }

  lemma PartlyRead(d: u16, last: Segment, p: Segment, out: seq<byte>)
    requires last.ty.Data? && last.seqNr == Add16(d, 1) && last.ackNr == last.seqNr && last.payload == [1, 2]
    requires p.ty.Data? && p.ackNr == p.seqNr < last.seqNr && Ahead(p.seqNr, d)
    ensures AfterAcking(Fresh(d), out, [Arrival(last, true, 1), Arrival(p, true, 1)])
         == (Rx(p.seqNr, p.seqNr, [last], []), out + [1, 2])
  {
    var e0, e1 := Arrival(last, true, 1), Arrival(p, true, 1);
    var rx := Rx(d, d, [last], [2]);
    assert StepAcking(Fresh(d), e0) == (rx, [1]) by {
      assert [1, 2][..1] == [1] && [1, 2][1..] == [2];
    }
    assert StepAcking(rx, e1) == (Rx(p.seqNr, p.seqNr, [last], []), [2]) by {
      InFront(last, p);
      assert [2][..1] == [2];
    }
    TwoSteps(Fresh(d), out, e0, e1);
    assert out + [1] + [2] == out + [1, 2];
  }

  lemma NextHandedOn(last: Segment, d: u16, q: Segment)
    requires q.ty.Data? && q.ackNr == q.seqNr < last.seqNr && d as int + 1 == q.seqNr as int && q.payload == [3]
    ensures StepAcking(Rx(d, d, [last], []), Arrival(q, true, 1)).1 == [3]
  {
    InFront(last, q);
    assert [3][..1] == [3];
  }

  /** The first k packets in order, then one more with two bytes, the second of them together with another packet; and
      then a byte with which the next chunk does not begin. */
  lemma MisledByThree(st: Stream, k: nat, e0: Event, e1: Event, e2: Event, x: byte, data: set<u16>, others: set<u16>)
    requires Short(st) && k < |st.chunks| && st.chunks[k] == [1, 2]
    requires k + 1 < |st.chunks| ==> st.chunks[k + 1][0] != x
    requires Permitted(st, e0, data, others) && Permitted(st, e1, data, others) && Permitted(st, e2, data, others)
    requires AfterAcking(Fresh(Add16(st.base, k)), UpTo(st, k), [e0, e1]).1 == UpTo(st, k) + [1, 2]
    requires StepAcking(AfterAcking(Fresh(Add16(st.base, k)), UpTo(st, k), [e0, e1]).0, e2).1 == [x]
    ensures MisledBy(st, Ordered(st, k) + [e0, e1] + [e2], data, others)
  {
    var es := Ordered(st, k) + [e0, e1];
    InOrderAcking(st, k);
    AckingBoth(Fresh(st.base), [], Ordered(st, k), [e0, e1]);
    AckingBoth(Fresh(st.base), [], es, [e2]);
    OneStep(AfterAcking(Fresh(st.base), [], es).0, AfterAcking(Fresh(st.base), [], es).1, e2);
    assert UpTo(st, k) + [1, 2] == UpTo(st, k + 1) by {
      assert st.chunks[..k + 1][..k] == st.chunks[..k];
    }
    WrongByte(st, k + 1, x);
    PermittedRun(st, k, [e0, e1] + [e2], data, others);
    assert Ordered(st, k) + ([e0, e1] + [e2]) == es + [e2];
  }

  lemma PermittedRun(st: Stream, k: nat, es: seq<Event>, data: set<u16>, others: set<u16>)
    requires k <= |st.chunks| && forall e :: e in es ==> Permitted(st, e, data, others)
    ensures GenuineRun(st, Ordered(st, k) + es) && Limited(Ordered(st, k) + es, data, others)
  {
    var front := Ordered(st, k);
    forall e | e in front + es ensures Permitted(st, e, data, others) {
      if e in front {
        var i :| 0 <= i < |front| && front[i] == e;
        OrderedIsPermitted(st, i, data, others);
      }
    }
  }

  lemma OrderedIsPermitted(st: Stream, i: nat, data: set<u16>, others: set<u16>)
    requires i < |st.chunks|
    ensures Permitted(st, Carrying(st, i, 2), data, others)
  {
    assert IsChunk(st, i, PacketAt(st, i));
  }

  lemma OneStep(rx: Rx, out: seq<byte>, e: Event)
    ensures AfterAcking(rx, out, [e]) == (StepAcking(rx, e).0, out + StepAcking(rx, e).1)
  {
    assert [e][1..] == [];
  }

  /** Packet k, which is the first or the second one, is partly read when number 0 is dropped in its place; then its
      number or the one before is acknowledged again, and it is handed on once more. */
  lemma HandedOnTwice(base: u16, n: nat, k: nat, nudged: bool, data: set<u16>, others: set<u16>)
    returns (st: Stream, es: seq<Event>)
    requires EndsAtZero(base, n) && k + 1 < n < 0x8000 + k && k <= 1
    requires if nudged then k == 0 && Add16(base, 0) in others else Add16(base, 1) in data && (k == 1 ==> n == 0x8000)
    ensures st.base == base && |st.chunks| == n && MisledBy(st, es, data, others)
  {
    st := Marked(base, n, k, [1, 2], k, [1, 2]);
    var p := if nudged then Nudge(base) else MisleadingAt(st, 0);
    var e0, e1, e2 := Carrying(st, k, 1), Carrying(st, n - 1, 1), Arrival(p, true, 1);
    NudgeMisleads(p.seqNr);
    ZeroIsLast(base, n, k);
    ZeroInstead(st, k, p);
    assert Permitted(st, e2, data, others) by {
      assert p.ty.Data? ==> IsChunk(st, 0, p);
    }
    MisledByThree(st, k, e0, e1, e2, 1, data, others);
    es := Ordered(st, k) + [e0, e1] + [e2];
  }

  lemma ZeroInstead(st: Stream, k: nat, p: Segment)
    requires k + 1 < |st.chunks| && st.chunks[k] == [1, 2] && Add16(st.base, |st.chunks|) == 0
    requires Ahead(0, Add16(st.base, k)) && Add16(st.base, 1 + k) > 0
    requires Misleading(p) && (p.seqNr == Add16(st.base, 1 + k) || Add16(p.seqNr, 1) == Add16(st.base, 1 + k))
    requires p.ty.Data? ==> p.seqNr == Add16(st.base, 1 + k) || !Ahead(p.seqNr, 0)
    ensures var (rx, out) := AfterAcking(Fresh(Add16(st.base, k)), UpTo(st, k),
                                         [Carrying(st, k, 1), Carrying(st, |st.chunks| - 1, 1)]);
            out == UpTo(st, k) + [1, 2] && StepAcking(rx, Arrival(p, true, 1)).1 == [1]
  {
    OneFurther(st.base, k);
    PartlyRead(Add16(st.base, k), PacketAt(st, k), PacketAt(st, |st.chunks| - 1), UpTo(st, k));
    OnceMore(PacketAt(st, k), p);
  }

  lemma ZeroIsLast(base: u16, n: nat, k: nat)
    requires EndsAtZero(base, n) && k + 1 < n < 0x8000 + k && k <= 1
    ensures Add16(base, n) == 0 && Ahead(0, Add16(base, k)) && Add16(base, 1 + k) == base + 1 + k > 0
    ensures n == 0x8000 ==> Add16(base, 1) == 0x8001 && Add16(Add16(base, 1), 1) == Add16(base, 2)
    ensures Add16(base, 0) == base && !Ahead(0x8001, 0)
  {
  }

  lemma OnceMore(last: Segment, p: Segment)
    requires last.payload == [1, 2] && Misleading(p) && (p.seqNr == last.seqNr || Add16(p.seqNr, 1) == last.seqNr)
    requires p.ty.Data? ==> p.seqNr == last.seqNr || !Ahead(p.seqNr, 0)
    ensures StepAcking(Rx(0, 0, [last], []), Arrival(p, true, 1)).1 == [1]
  {
    assert CountBelow([last], p.seqNr) == if last.seqNr < p.seqNr then 1 else 0;
    assert [1, 2][..1] == [1];
  }

  /** What may happen in a run of this kind. */
  ghost predicate Permitted(st: Stream, e: Event, data: set<u16>, others: set<u16>) {
    e.Arrival? && Genuine(st, e.p) && (Misleading(e.p) ==> e.p.seqNr in if MayStore(e) then data else others)
  }

  /** The first k packets in order, and then one event or two that hand on a byte with which chunk k does not begin. */
  lemma MisledBySuffix(st: Stream, k: nat, e0: Event, e1: Event, x: byte, data: set<u16>, others: set<u16>)
    requires Short(st) && k <= |st.chunks| && (k < |st.chunks| ==> st.chunks[k][0] != x)
    requires Permitted(st, e0, data, others) && Permitted(st, e1, data, others)
    requires AfterAcking(Fresh(Add16(st.base, k)), UpTo(st, k), [e0, e1]).1 == UpTo(st, k) + [x]
    ensures MisledBy(st, Ordered(st, k) + [e0, e1], data, others)
  {
    InOrderAcking(st, k);
    PermittedRun(st, k, [e0, e1], data, others);
    AckingBoth(Fresh(st.base), [], Ordered(st, k), [e0, e1]);
    WrongByte(st, k, x);
  }

  lemma TwoSteps(rx: Rx, out: seq<byte>, e0: Event, e1: Event)
    ensures var (rx1, bytes1) := StepAcking(rx, e0); var (rx2, bytes2) := StepAcking(rx1, e1);
            AfterAcking(rx, out, [e0, e1]) == (rx2, out + bytes1 + bytes2)
  {
    var (rx1, bytes1) := StepAcking(rx, e0);
    assert [e0, e1][1..] == [e1] && [e1][1..] == [];
    assert AfterAcking(rx1, out + bytes1, [e1]).1 == out + bytes1 + StepAcking(rx1, e1).1;
  }

  lemma SecondYields(rx: Rx, out: seq<byte>, e0: Event, e1: Event, x: byte)
    requires StepAcking(rx, e0).1 == [] && StepAcking(StepAcking(rx, e0).0, e1).1 == [x]
    ensures AfterAcking(rx, out, [e0, e1]).1 == out + [x]
  {
    TwoSteps(rx, out, e0, e1);
    assert out + [] + [x] == out + [x];
  }

  lemma TwoFurther(base: u16, k: nat)
    ensures Sub16(Add16(base, k + 2), Add16(base, k)) == 2 && Add16(Add16(base, k + 1), 1) == Add16(base, k + 2)
  {
    OneFurther(base, k);
    OneFurther(base, k + 1);
    TwoApart(Add16(base, k));
  }

  lemma TwoApart(d: u16)
    ensures Sub16(Add16(Add16(d, 1), 1), d) == 2
  {
  }

  /** In order up to packet k - 2, and then packet k, which is handed on at once. */
  lemma MisledByData(base: u16, n: nat, k: nat, data: set<u16>, others: set<u16>) returns (st: Stream, es: seq<Event>)
    requires 2 <= k <= n && Add16(base, k) in data
    ensures st.base == base && |st.chunks| == n && MisledBy(st, es, data, others)
  {
    st := Marked(base, n, k - 2, [1], k - 1, [2]);
    var p := MisleadingAt(st, k - 1);
    var e0, e1 := Arrival(p, true, 1), Arrival(Idle(), true, 1);
    NudgeMisleads(p.seqNr);
    TwoFurther(base, k - 2);
    JumpsTo(Add16(base, k - 2), p);
    TwoSteps(Fresh(Add16(base, k - 2)), UpTo(st, k - 2), e0, e1);
    assert UpTo(st, k - 2) + [2] + [] == UpTo(st, k - 2) + [2];
    assert IsChunk(st, k - 1, p);
    MisledBySuffix(st, k - 2, e0, e1, 2, data, others);
    es := Ordered(st, k - 2) + [e0, e1];
  }

  /** A packet that does nothing. */
  function Idle(): Segment {
    Segment(State, 0, 0, 0, 0, [])
  }

  lemma JumpsTo(d: u16, p: Segment)
    requires p.ty.Data? && Misleading(p) && Sub16(p.seqNr, d) == 2 && p.payload == [2]
    ensures StepAcking(Fresh(d), Arrival(p, true, 1)) == (Fresh(p.seqNr), [2])
    ensures StepAcking(Fresh(p.seqNr), Arrival(Idle(), true, 1)) == (Fresh(p.seqNr), [])
  {
    assert [p][1..] == [] && p.payload[..1] == p.payload;
  }

  /** In order up to packet j, then packet j + 2, which is buffered, and then a packet that is no data but moves the
      number to that packet or the one before it. */
  lemma MisledByOther(base: u16, n: nat, k: nat, data: set<u16>, others: set<u16>) returns (st: Stream, es: seq<Event>)
    requires 1 <= k <= n && n >= 2 && Add16(base, k) in others
    ensures st.base == base && |st.chunks| == n && MisledBy(st, es, data, others)
  {
    var j := if k < n then k - 1 else n - 2;
    st := Marked(base, n, j, [1], j + 1, [2]);
    var p := PacketAt(st, j + 1);
    var e0, e1 := Arrival(p, true, 1), Arrival(Nudge(Add16(base, k)), true, 1);
    TwoFurther(base, j);
    NudgedTo(Add16(base, j), p, Add16(base, k));
    TwoSteps(Fresh(Add16(base, j)), UpTo(st, j), e0, e1);
    assert UpTo(st, j) + [] + [2] == UpTo(st, j) + [2];
    MisledBySuffix(st, j, e0, e1, 2, data, others);
    es := Ordered(st, j) + [e0, e1];
  }

  lemma NudgeMisleads(s: u16)
    ensures Misleading(Nudge(s))
  {
  }

  lemma NudgedTo(d: u16, p: Segment, s: u16)
    requires p.ty.Data? && p.ackNr == p.seqNr && Sub16(p.seqNr, d) == 2 && p.payload == [2]
    requires s == p.seqNr || Add16(s, 1) == p.seqNr
    ensures StepAcking(Fresh(d), Arrival(p, true, 1)) == (Rx(d, d, [p], []), [])
    ensures StepAcking(Rx(d, d, [p], []), Arrival(Nudge(s), true, 1)).1 == [2]
  {
    NudgeMisleads(s);
    assert p.payload[..1] == p.payload;
  }

  /** Everything in order, and then the first packet again, which now seems new. */
  lemma MisledByFirst(base: u16, n: nat, data: set<u16>, others: set<u16>) returns (st: Stream, es: seq<Event>)
    requires 0x8002 <= n <= 0x8003 && Add16(base, 1) in data
    ensures st.base == base && |st.chunks| == n && MisledBy(st, es, data, others)
  {
    st := Marked(base, n, 0, [0], 0, [0]);
    var p, d := MisleadingAt(st, 0), Add16(base, n);
    var e0, e1 := Arrival(Idle(), true, 1), Arrival(p, true, 1);
    NudgeMisleads(p.seqNr);
    FirstSeemsNew(base, n, p);
    TwoSteps(Fresh(d), UpTo(st, n), e0, e1);
    assert UpTo(st, n) + [] + [0] == UpTo(st, n) + [0];
    assert IsChunk(st, 0, p);
    MisledBySuffix(st, n, e0, e1, 0, data, others);
    es := Ordered(st, n) + [e0, e1];
  }

  lemma FirstSeemsNew(base: u16, n: nat, p: Segment)
    requires 0x8002 <= n <= 0x8003 && p.ty.Data? && p.seqNr == Add16(base, 1) && p.payload == [0]
    ensures StepAcking(Fresh(Add16(base, n)), Arrival(Idle(), true, 1)) == (Fresh(Add16(base, n)), [])
    ensures Misleading(p) ==> StepAcking(Fresh(Add16(base, n)), Arrival(p, true, 1)).1 == [0]
    ensures p.ackNr == p.seqNr ==> StepAcking(Fresh(Add16(base, n)), Arrival(p, true, 1))
                                   == (Rx(Add16(base, n), Add16(base, n), [p], []), [])
  {
    var d := Add16(base, n);
    HalfApart(base, n, d, p.seqNr);
    assert Keep(AsCommented, Rx(p.seqNr, d, [], []), p) == Rx(p.seqNr, d, [p], []);
    assert Keep(AsCommented, Rx(d, d, [], []), p) == Rx(d, d, [p], []);
    assert p.payload[..1] == p.payload;
  }

  lemma HalfApart(base: u16, n: nat, d: u16, s: u16)
    requires 0x8002 <= n <= 0x8003 && d == Add16(base, n) && s == Add16(base, 1)
    ensures Sub16(s, d) == 0x1_0001 - n && d != s && Add16(d, 1) != s
  {
    assert d as int == if base as int + n < 0x1_0000 then base as int + n else base as int + n - 0x1_0000;
  }

  /** Everything in order, the first packet again, which is buffered, and then one that moves the number back before
      it. */
  lemma MisledBeforeFirst(base: u16, n: nat, data: set<u16>, others: set<u16>) returns (st: Stream, es: seq<Event>)
    requires 0x8002 <= n <= 0x8003 && Add16(base, 0) in others
    ensures st.base == base && |st.chunks| == n && MisledBy(st, es, data, others)
  {
    st := Marked(base, n, 0, [0], 0, [0]);
    var e0, e1 := Arrival(PacketAt(st, 0), true, 1), Arrival(Nudge(base), true, 1);
    assert Permitted(st, e0, data, others) && Permitted(st, e1, data, others) by {
      assert IsChunk(st, 0, e0.p) && Add16(base, 0) == base;
    }
    FirstIsOutAgain(st, n, PacketAt(st, 0), UpTo(st, n));
    MisledBySuffix(st, n, e0, e1, 0, data, others);
    es := Ordered(st, n) + [e0, e1];
  }

  lemma FirstIsOutAgain(st: Stream, n: nat, p: Segment, out: seq<byte>)
    requires 0x8002 <= n <= 0x8003 && p.ty.Data? && p.seqNr == Add16(st.base, 1) && p.ackNr == p.seqNr
    requires p.payload == [0]
    ensures AfterAcking(Fresh(Add16(st.base, n)), out, [Arrival(p, true, 1), Arrival(Nudge(st.base), true, 1)]).1
         == out + [0]
  {
    FirstSeemsNew(st.base, n, p);
    NudgedBack(st.base, Add16(st.base, n), p);
    SecondYields(Fresh(Add16(st.base, n)), out, Arrival(p, true, 1), Arrival(Nudge(st.base), true, 1), 0);
  }

  lemma NudgedBack(base: u16, d: u16, p: Segment)
    requires p.ty.Data? && p.seqNr == Add16(base, 1) && p.payload == [0]
    ensures StepAcking(Rx(d, d, [p], []), Arrival(Nudge(base), true, 1)).1 == [0]
    ensures Misleading(Nudge(base))
  {
    NudgeMisleads(base);
    assert p.payload[..1] == p.payload;
  }
}
