/** Reassembly: the reorder buffer and the partly read packet of a uTP socket, as functions of their contents. The
    socket's methods are proved equal to these functions; what they deliver is proved here. */
module Receive {
  import opened Bytes
  import opened Packet

  /** The fields of a socket that take part in receiving data. */
  datatype Rx = Rx(ackNr: u16, lastDropped: u16, buff: seq<Segment>, pending: seq<byte>)

  datatype Inserted = Stored(buff: seq<Segment>) | OutOfBounds | Crash

  /** The acknowledgement number on arrival of p. As written the packet is compared with its own acknowledgement number;
      the comment above the test asks for a data packet that strictly follows what this socket has. */
  function Acknowledge(b: Build, ackNr: u16, p: Segment): u16 {
    if b.AsWritten? then (if Sub16(p.seqNr, p.ackNr) == 1 then p.seqNr else ackNr)
    else if p.ty.Data? && Sub16(p.seqNr, ackNr) == 1 then p.seqNr
    else ackNr
  }

  /** Is p stored, going by the last packet handed on? As written: if it is any other packet. */
  predicate Admits(b: Build, lastDropped: u16, p: Segment) {
    p.ty.Data? &&
    if b.AsWritten? then Sub16(p.seqNr, lastDropped) > 0 else Ahead(p.seqNr, lastDropped)
  }

  /** How many packets of buff have a smaller sequence number than s. */
  function CountBelow(buff: seq<Segment>, s: u16): (n: nat)
    ensures n <= |buff|
  {
    if buff == [] then 0
    else CountBelow(buff[..|buff| - 1], s) + if buff[|buff| - 1].seqNr < s then 1 else 0
  }

  /** As written, the last element of an empty buffer is read. */
  function Insert(b: Build, buff: seq<Segment>, p: Segment): (r: Inserted)
    ensures !r.OutOfBounds? && (r.Crash? <==> b.AsWritten? && buff == [])
  {
    if buff == [] then (if b.AsWritten? then Crash else Stored([p]))
    else if p.seqNr > buff[|buff| - 1].seqNr then Stored(buff + [p])
    else
      var i := CountBelow(buff, p.seqNr);
      if i < |buff| then Stored(if buff[i].seqNr != p.seqNr then buff[..i] + [p] + buff[i..] else buff)
      else OutOfBounds
  }

  /** advIncomingBuf: drop the head of the buffer and acknowledge it. */
  function Advance(rx: Rx): Rx {
    if rx.buff == [] then rx
    else rx.(buff := rx.buff[1..], ackNr := rx.buff[0].seqNr, lastDropped := rx.buff[0].seqNr)
  }

  /** flushIncomingBuffer into a buffer of n bytes: the new state and the bytes handed on. */
  function Flush(rx: Rx, n: nat): (Rx, seq<byte>) {
    if rx.pending != [] then
      var k := Min(n, |rx.pending|);
      (if k == |rx.pending| then Advance(rx.(pending := [])) else rx.(pending := rx.pending[k..]), rx.pending[..k])
    else if rx.buff != [] && (rx.ackNr == rx.buff[0].seqNr || Add16(rx.ackNr, 1) == rx.buff[0].seqNr) then
      var data := rx.buff[0].payload;
      var k := Min(n, |data|);
      (if k == |data| then Advance(rx) else rx.(pending := data[k..]), data[..k])
    else (rx, [])
  }

  /** Storing p, if it is admitted. */
  function Keep(b: Build, rx: Rx, p: Segment): Rx {
    if Admits(b, rx.lastDropped, p) && Insert(b, rx.buff, p).Stored? then rx.(buff := Insert(b, rx.buff, p).buff)
    else rx
  }

  /** The arrival of one packet, up to the flush; open says whether the connection takes data. As written the number is
      acknowledged in any case, with the repairs only if the packet can be stored. */
  function Arrive(b: Build, open: bool, rx: Rx, p: Segment): Rx {
    Keep(b, rx.(ackNr := if b.AsWritten? || open then Acknowledge(b, rx.ackNr, p) else rx.ackNr), p)
  }

  // ---------- sorted insertion ----------

  ghost predicate Sorted(buff: seq<Segment>) {
    forall i, j :: 0 <= i < j < |buff| ==> buff[i].seqNr < buff[j].seqNr
  }

  ghost predicate Buffered(buff: seq<Segment>, s: int) {
    exists i :: 0 <= i < |buff| && buff[i].seqNr == s
  }

  lemma {:induction false} CountBelowSplits(buff: seq<Segment>, s: u16)
    requires Sorted(buff)
    ensures var n := CountBelow(buff, s);
            (forall i :: 0 <= i < n ==> buff[i].seqNr < s) && (forall i :: n <= i < |buff| ==> buff[i].seqNr >= s)
  {
    if buff != [] {
      CountBelowSplits(buff[..|buff| - 1], s);
    }
  }

  /** Insertion keeps the buffer strictly sorted, adds the packet unless its number is there already, and keeps the
      rest. It crashes exactly when the code is as written and the buffer is empty; "out of bounds" never happens. */
  lemma InsertIsSortedInsertion(b: Build, buff: seq<Segment>, p: Segment)
    requires Sorted(buff)
    ensures Insert(b, buff, p).Stored? <==> b.AsCommented? || buff != []
    ensures Insert(b, buff, p).Stored? ==>
              var buff' := Insert(b, buff, p).buff;
              && Sorted(buff') && buff' != []
              && (forall q :: q in buff' <==> q in buff || (q == p && !Buffered(buff, p.seqNr)))
  {
    if buff != [] {
      CountBelowSplits(buff, p.seqNr);
      var i := CountBelow(buff, p.seqNr);
      if p.seqNr > buff[|buff| - 1].seqNr {
        assert !Buffered(buff, p.seqNr);
      } else if buff[i].seqNr == p.seqNr {
        assert Buffered(buff, p.seqNr);
      } else {
        InsertMiddle(buff, p, i);
      }
    }
  }

  lemma InsertMiddle(buff: seq<Segment>, p: Segment, i: nat)
    requires Sorted(buff) && i < |buff|
    requires forall j :: 0 <= j < i ==> buff[j].seqNr < p.seqNr
    requires forall j :: i <= j < |buff| ==> buff[j].seqNr > p.seqNr
    ensures Sorted(buff[..i] + [p] + buff[i..]) && !Buffered(buff, p.seqNr)
    ensures forall q :: q in buff[..i] + [p] + buff[i..] <==> q in buff || q == p
  {
    assert buff == buff[..i] + buff[i..];
  }

  // ---------- where the code and its comments part ways ----------

  /** The three receive-side tests agree with their comments exactly when: the packet's own acknowledgement number gives
      the same answer as this socket's; the packet is not an old one; the buffer is not empty. */
  lemma WrittenMeetsComments(rx: Rx, p: Segment)
    ensures Acknowledge(AsWritten, rx.ackNr, p) == Acknowledge(AsCommented, rx.ackNr, p) <==>
              rx.ackNr == p.seqNr ||
              (Sub16(p.seqNr, p.ackNr) == 1 <==> p.ty.Data? && Sub16(p.seqNr, rx.ackNr) == 1)
    ensures Admits(AsWritten, rx.lastDropped, p) == Admits(AsCommented, rx.lastDropped, p) <==>
              !(p.ty.Data? && Sub16(p.seqNr, rx.lastDropped) >= 0x8000)
    ensures Insert(AsWritten, rx.buff, p) == Insert(AsCommented, rx.buff, p) <==> rx.buff != []
  {
  }

  /** Sequence numbers are compared without regard to wrapping, even with the repairs. A packet from beyond the wrap
      goes to the front of the buffer, and the packet that is due, 65534, stays behind it. */
  lemma WrapStalls()
    ensures var late, due := Segment(Data, 0, 0, 0, 7, [1]), Segment(Data, 0, 0, 65534, 7, [2]);
            var rx := Arrive(AsCommented, true, Arrive(AsCommented, true, Fresh(65533), late), due);
            rx.buff == [late, due] && rx.ackNr == 65534 && Flush(rx, 100) == (rx, [])
  {
    var late, due := Segment(Data, 0, 0, 0, 7, [1]), Segment(Data, 0, 0, 65534, 7, [2]);
    assert Arrive(AsCommented, true, Fresh(65533), late).buff == [late];
  }

  // ---------- delivery ----------

  /** What the peer sends: chunk i travels in the data packet numbered base + 1 + i, modulo 2^16. */
  datatype Stream = Stream(base: u16, chunks: seq<seq<byte>>)

  ghost predicate IsChunk(st: Stream, i: nat, p: Segment)
    requires i < |st.chunks|
  {
    p.seqNr == Add16(st.base, 1 + i) && p.payload == st.chunks[i]
  }

  /** p does not contradict the stream: if it is a data packet it carries one of the chunks. */
  ghost predicate Genuine(st: Stream, p: Segment) {
    p.ty.Data? ==> exists i: nat :: i < |st.chunks| && IsChunk(st, i, p)
  }

  /** The number of the last packet is not smaller than that of the first, and there are at most 2^15 + 2 packets. */
  ghost predicate InRange(st: Stream) {
    st.chunks == [] || (Add16(st.base, 1) as int + |st.chunks| <= 0x1_0000 && |st.chunks| <= 0x8002)
  }

  /** The place of number s, counted from base. */
  ghost function Pos(st: Stream, s: u16): nat {
    Sub16(s, st.base)
  }

  /** The packet numbered s is one of the stream, and carries data. */
  ghost predicate Carries(st: Stream, s: u16, data: seq<byte>) {
    0 < Pos(st, s) <= |st.chunks| && data == st.chunks[Pos(st, s) - 1]
  }

  lemma PosOfNumber(st: Stream, k: nat)
    requires k < 0x1_0000
    ensures Pos(st, Add16(st.base, k)) == k
  {
  }

  lemma NumberOfPos(st: Stream, s: u16)
    ensures Add16(st.base, Pos(st, s)) == s
  {
  }

  lemma NextNumber(st: Stream, s: u16)
    ensures Add16(s, 1) == Add16(st.base, Pos(st, s) + 1)
  {
    assert Pos(st, s) == if s >= st.base then s - st.base else s - st.base + 0x1_0000;
  }

  lemma PosOfNext(st: Stream, s: u16)
    ensures Pos(st, Add16(s, 1)) == if Pos(st, s) == 0xFFFF then 0 else Pos(st, s) + 1
  {
    assert Pos(st, s) == if s >= st.base then s - st.base else s - st.base + 0x1_0000;
  }

  lemma SamePos(st: Stream, s: u16, t: u16)
    ensures Pos(st, s) == Pos(st, t) <==> s == t
  {
  }

  lemma GenuineCarries(st: Stream, p: Segment)
    requires InRange(st) && Genuine(st, p) && p.ty.Data?
    ensures Carries(st, p.seqNr, p.payload)
  {
    var i: nat :| i < |st.chunks| && IsChunk(st, i, p);
    PosOfNumber(st, 1 + i);
  }

  /** Within a stream that does not wrap, plain order and serial order of the numbers are the order of their places; but
      in a stream of exactly 2^15 + 2 packets the first one seems to follow the last one. */
  lemma PlainOrder(st: Stream, s: u16, t: u16)
    requires InRange(st) && 0 < Pos(st, s) <= |st.chunks| && 0 < Pos(st, t) <= |st.chunks|
    ensures s < t <==> Pos(st, s) < Pos(st, t)
    ensures s == t <==> Pos(st, s) == Pos(st, t)
  {
  }

  lemma SerialOrder(st: Stream, s: u16, d: u16)
    requires InRange(st) && 0 < Pos(st, s) <= |st.chunks| && Pos(st, d) <= |st.chunks|
    ensures Ahead(s, d) ==> Pos(st, s) > Pos(st, d) || (Pos(st, s) == 1 && Pos(st, d) == 0x8002)
    ensures Pos(st, s) > Pos(st, d) && Pos(st, s) - Pos(st, d) < 0x8000 ==> Ahead(s, d)
    ensures Sub16(s, d) == 1 <==> Pos(st, s) == Pos(st, d) + 1
  {
  }

  /** The first k chunks. */
  ghost function UpTo(st: Stream, k: nat): seq<byte>
    requires k <= |st.chunks|
  {
    Flatten(st.chunks[..k])
  }

  /** How many packets have been dropped, going by the number of the last one. */
  ghost function Count(st: Stream, rx: Rx): nat {
    Pos(st, rx.lastDropped)
  }

  ghost predicate BufferInv(st: Stream, rx: Rx) {
    && InRange(st) && Count(st, rx) <= |st.chunks|
    && Sorted(rx.buff)
    && (forall p :: p in rx.buff ==> Pos(st, p.seqNr) > Count(st, rx) && Carries(st, p.seqNr, p.payload))
  }

  /** The packet after the last dropped one is in front. */
  ghost predicate HeadDue(st: Stream, rx: Rx) {
    rx.buff != [] && Pos(st, rx.buff[0].seqNr) == Count(st, rx) + 1
  }

  /** The bytes handed on so far are out: all chunks up to the last one dropped, and the part of the next chunk that
      is no longer pending. */
  ghost predicate Handed(st: Stream, rx: Rx, out: seq<byte>)
    requires BufferInv(st, rx)
  {
    if rx.pending == [] then out == UpTo(st, Count(st, rx))
    else
      && HeadDue(st, rx)
      && |rx.pending| <= |rx.buff[0].payload|
      && var done := |rx.buff[0].payload| - |rx.pending|;
      && rx.pending == rx.buff[0].payload[done..]
      && out == UpTo(st, Count(st, rx)) + rx.buff[0].payload[..done]
  }

  /** No packet but the one that is due can be handed on next: nothing has been acknowledged after the last dropped
      packet, or the packet that is due is in front, or there is only one more. */
  ghost predicate AckSafe(st: Stream, rx: Rx) {
    rx.pending == [] ==>
      || rx.ackNr == rx.lastDropped || HeadDue(st, rx)
      || (Pos(st, rx.ackNr) == Count(st, rx) + 1 && Count(st, rx) + 1 == |st.chunks|)
  }

  /** The stream is out. If it has 2^15 + 2 packets, a repetition of the first one may be buffered for good. */
  ghost predicate Over(st: Stream, rx: Rx, out: seq<byte>) {
    && |st.chunks| == 0x8002 && InRange(st) && Count(st, rx) == 0x8002
    && rx.pending == [] && rx.ackNr == rx.lastDropped && out == UpTo(st, |st.chunks|)
    && |rx.buff| <= 1 && (rx.buff != [] ==> Pos(st, rx.buff[0].seqNr) == 1)
  }

  /** The invariant of the receive side. */
  ghost predicate RxInv(st: Stream, rx: Rx, out: seq<byte>) {
    Over(st, rx, out) || (BufferInv(st, rx) && Handed(st, rx, out) && AckSafe(st, rx))
  }

  /** The last number acknowledged is that of the last packet dropped, or that of the last packet of the stream, which
      is the only one to come. */
  ghost predicate AckExact(st: Stream, rx: Rx) {
    rx.pending == [] ==>
      rx.ackNr == rx.lastDropped || Pos(st, rx.ackNr) == |st.chunks| == Count(st, rx) + 1
  }

  /** The same between the arrival of a packet and the flush that follows it. */
  ghost predicate AckReady(st: Stream, rx: Rx) {
    AckExact(st, rx) || (HeadDue(st, rx) && rx.buff[0].seqNr == rx.ackNr)
  }

  lemma StillBuffered(buff: seq<Segment>, buff': seq<Segment>)
    requires forall q :: q in buff ==> q in buff'
    ensures forall s :: Buffered(buff, s) ==> Buffered(buff', s)
  {
    forall s | Buffered(buff, s) ensures Buffered(buff', s) {
      var i :| 0 <= i < |buff| && buff[i].seqNr == s;
      assert buff[i] in buff';
    }
  }

  /** A new packet keeps the buffer in order, and keeps the packet that is due in front. */
  lemma InsertKeeps(st: Stream, rx: Rx, p: Segment) returns (buff': seq<Segment>)
    requires BufferInv(st, rx) && Carries(st, p.seqNr, p.payload) && Pos(st, p.seqNr) > Count(st, rx)
    ensures Insert(AsCommented, rx.buff, p) == Stored(buff') && BufferInv(st, rx.(buff := buff'))
    ensures forall q :: q in rx.buff ==> q in buff'
    ensures Buffered(buff', p.seqNr)
    ensures HeadDue(st, rx) ==> buff'[0] == rx.buff[0]
    ensures Pos(st, p.seqNr) == Count(st, rx) + 1 ==> HeadDue(st, rx.(buff := buff'))
  {
    InsertIsSortedInsertion(AsCommented, rx.buff, p);
    buff' := Insert(AsCommented, rx.buff, p).buff;
    StillBuffered(rx.buff, buff');
    if !Buffered(rx.buff, p.seqNr) {
      assert p in buff';
    }
    if HeadDue(st, rx) {
      FirstIsDue(st, rx.(buff := buff'), rx.buff[0]);
    }
    if Pos(st, p.seqNr) == Count(st, rx) + 1 {
      var i :| 0 <= i < |buff'| && buff'[i].seqNr == p.seqNr;
      FirstIsDue(st, rx.(buff := buff'), buff'[i]);
    }
  }

  lemma FirstIsDue(st: Stream, rx: Rx, q: Segment)
    requires BufferInv(st, rx) && q in rx.buff && Pos(st, q.seqNr) == Count(st, rx) + 1
    ensures rx.buff[0] == q
  {
    var i :| 0 <= i < |rx.buff| && rx.buff[i] == q;
    assert rx.buff[0] in rx.buff;
    PlainOrder(st, rx.buff[0].seqNr, q.seqNr);
  }

  /** A data packet that is stored is new, or it is the first one and comes after the last. */
  lemma KeepKeeps(st: Stream, rx: Rx, p: Segment)
    requires BufferInv(st, rx) && Genuine(st, p) && (rx.pending != [] ==> HeadDue(st, rx))
    ensures var rx' := Keep(AsCommented, rx, p);
            || rx' == rx || (Count(st, rx) == 0x8002 && rx' == rx.(buff := [p]) && Pos(st, p.seqNr) == 1)
            || (BufferInv(st, rx') && (HeadDue(st, rx) ==> rx'.buff[0] == rx.buff[0]))
    ensures forall q :: q in rx.buff ==> q in Keep(AsCommented, rx, p).buff
    ensures p.ty.Data? && Pos(st, p.seqNr) == Count(st, rx) + 1 ==> HeadDue(st, Keep(AsCommented, rx, p))
    ensures p.ty.Data? && |st.chunks| < 0x8000 ==> Has(st, Keep(AsCommented, rx, p), p.seqNr)
  {
    if p.ty.Data? {
      GenuineCarries(st, p);
      SerialOrder(st, p.seqNr, rx.lastDropped);
      if Pos(st, p.seqNr) > Count(st, rx) {
        var buff' := InsertKeeps(st, rx, p);
      }
    }
  }

  /** Number s is that of a packet dropped, or it is buffered. */
  ghost predicate Has(st: Stream, rx: Rx, s: u16) {
    Pos(st, s) <= Count(st, rx) || Buffered(rx.buff, s)
  }

  /** No buffered packet gets lost between rx and rx'. */
  ghost predicate Kept(st: Stream, rx: Rx, rx': Rx) {
    forall s: u16 :: Has(st, rx, s) ==> Has(st, rx', s)
  }

  /** What acknowledging p does: a number that is new is that of p, and p is due, unless the number does not matter. */
  lemma AcknowledgeKeeps(st: Stream, open: bool, rx: Rx, out: seq<byte>, p: Segment)
    requires BufferInv(st, rx) && AckSafe(st, rx) && Genuine(st, p)
    ensures var a := if open then Acknowledge(AsCommented, rx.ackNr, p) else rx.ackNr;
            || a == rx.ackNr || rx.pending != [] || HeadDue(st, rx)
            || (a == p.seqNr && p.ty.Data? && Pos(st, p.seqNr) == Count(st, rx) + 1 && rx.ackNr == rx.lastDropped)
  {
    if p.ty.Data? && rx.pending == [] && !HeadDue(st, rx) {
      GenuineCarries(st, p);
      SerialOrder(st, p.seqNr, rx.ackNr);
    }
  }

  /** The arrival of any packet of the stream keeps the invariant. */
  lemma ArriveKeeps(st: Stream, open: bool, rx: Rx, out: seq<byte>, p: Segment)
    requires RxInv(st, rx, out) && Genuine(st, p)
    ensures RxInv(st, Arrive(AsCommented, open, rx, p), out)
  {
    if Over(st, rx, out) {
      OverStays(st, open, rx, out, p);
    } else {
      AcknowledgeKeeps(st, open, rx, out, p);
      var rx1 := rx.(ackNr := if open then Acknowledge(AsCommented, rx.ackNr, p) else rx.ackNr);
      KeepKeeps(st, rx1, p);
      if Count(st, rx) == 0x8002 {
        NothingLeft(st, rx, out, p);
      }
    }
  }

  /** Once the last of 2^15 + 2 packets has been dropped, nothing is left to be acknowledged. */
  lemma NothingLeft(st: Stream, rx: Rx, out: seq<byte>, p: Segment)
    requires BufferInv(st, rx) && Handed(st, rx, out) && AckSafe(st, rx) && Genuine(st, p) && Count(st, rx) == 0x8002
    ensures rx.buff == [] && Over(st, rx, out) && Acknowledge(AsCommented, rx.ackNr, p) == rx.ackNr
  {
    assert forall q :: q in rx.buff ==> false;
    if p.ty.Data? {
      GenuineCarries(st, p);
      SerialOrder(st, p.seqNr, rx.lastDropped);
    }
  }

  /** And it loses no packet, but may refuse one that is 2^15 numbers or more ahead. */
  lemma ArriveLosesNone(st: Stream, open: bool, rx: Rx, out: seq<byte>, p: Segment)
    requires RxInv(st, rx, out) && Genuine(st, p)
    ensures Kept(st, rx, Arrive(AsCommented, open, rx, p))
    ensures p.ty.Data? && |st.chunks| < 0x8000 ==> Has(st, Arrive(AsCommented, open, rx, p), p.seqNr)
  {
    if Over(st, rx, out) {
      OverStays(st, open, rx, out, p);
    } else {
      var rx1 := rx.(ackNr := if open then Acknowledge(AsCommented, rx.ackNr, p) else rx.ackNr);
      KeepKeeps(st, rx1, p);
      StillBuffered(rx.buff, Keep(AsCommented, rx1, p).buff);
    }
  }

  lemma ArriveIsReady(st: Stream, open: bool, rx: Rx, out: seq<byte>, p: Segment)
    requires RxInv(st, rx, out) && Genuine(st, p) && AckExact(st, rx)
    ensures AckReady(st, Arrive(AsCommented, open, rx, p))
  {
    if Over(st, rx, out) {
      OverStays(st, open, rx, out, p);
    } else if p.ty.Data? && open && Sub16(p.seqNr, rx.ackNr) == 1 && rx.pending == [] {
      GenuineCarries(st, p);
      SerialOrder(st, p.seqNr, rx.ackNr);
      assert rx.ackNr == rx.lastDropped;
      var rx1 := rx.(ackNr := p.seqNr);
      KeepKeeps(st, rx1, p);
      SamePos(st, Keep(AsCommented, rx1, p).buff[0].seqNr, p.seqNr);
    }
  }

  lemma OverStays(st: Stream, open: bool, rx: Rx, out: seq<byte>, p: Segment)
    requires Over(st, rx, out) && Genuine(st, p)
    ensures Over(st, Arrive(AsCommented, open, rx, p), out)
    ensures Arrive(AsCommented, open, rx, p).lastDropped == rx.lastDropped
    ensures rx.buff == [] || Arrive(AsCommented, open, rx, p).buff == rx.buff
  {
    if p.ty.Data? {
      GenuineCarries(st, p);
      SerialOrder(st, p.seqNr, rx.lastDropped);
      if rx.buff != [] {
        PlainOrder(st, p.seqNr, rx.buff[0].seqNr);
      }
    }
  }

  lemma UpToNext(st: Stream, p: Segment)
    requires Carries(st, p.seqNr, p.payload)
    ensures UpTo(st, Pos(st, p.seqNr)) == UpTo(st, Pos(st, p.seqNr) - 1) + p.payload
  {
    var k := Pos(st, p.seqNr);
    assert st.chunks[..k][..k - 1] == st.chunks[..k - 1];
  }

  /** Dropping the packet that is due. */
  lemma AdvanceKeeps(st: Stream, rx: Rx)
    requires BufferInv(st, rx) && HeadDue(st, rx)
    ensures RxInv(st, Advance(rx.(pending := [])), UpTo(st, Count(st, rx)) + rx.buff[0].payload)
    ensures Kept(st, rx, Advance(rx.(pending := []))) && Count(st, Advance(rx.(pending := []))) == Count(st, rx) + 1
  {
    var rx' := Advance(rx.(pending := []));
    assert rx.buff[0] in rx.buff;
    UpToNext(st, rx.buff[0]);
    forall p | p in rx'.buff ensures Pos(st, p.seqNr) > Count(st, rx') && Carries(st, p.seqNr, p.payload) {
      assert p in rx.buff;
      PlainOrder(st, rx.buff[0].seqNr, p.seqNr);
    }
    forall s: u16 | Has(st, rx, s) ensures Has(st, rx', s) {
      if Pos(st, s) > Count(st, rx) {
        var i :| 0 <= i < |rx.buff| && rx.buff[i].seqNr == s;
        assert i > 0 ==> rx'.buff[i - 1] == rx.buff[i];
      }
    }
  }

  /** The rest of a partly read packet: all of it, or a part. */
  lemma FlushPendingKeeps(st: Stream, rx: Rx, out: seq<byte>, n: nat)
    requires BufferInv(st, rx) && Handed(st, rx, out) && rx.pending != []
    ensures RxInv(st, Flush(rx, n).0, out + Flush(rx, n).1)
    ensures Kept(st, rx, Flush(rx, n).0) && AckExact(st, Flush(rx, n).0)
    ensures Count(st, rx) <= Count(st, Flush(rx, n).0) <= Count(st, rx) + 1
  {
    var bytes, data := Flush(rx, n).1, rx.buff[0].payload;
    var done := |data| - |rx.pending|;
    assert out + bytes == UpTo(st, Count(st, rx)) + (data[..done] + bytes);
    assert data[..done] + bytes == data[..done + |bytes|];
    if |bytes| == |rx.pending| {
      AdvanceKeeps(st, rx);
      assert data[..|data|] == data;
    }
  }

  /** What is handed on next, if nothing is pending, is the packet that is due. */
  lemma OnlyDueIsHanded(st: Stream, rx: Rx)
    requires BufferInv(st, rx) && AckSafe(st, rx) && rx.pending == []
    requires rx.buff != [] && (rx.ackNr == rx.buff[0].seqNr || Add16(rx.ackNr, 1) == rx.buff[0].seqNr)
    ensures HeadDue(st, rx)
  {
    assert rx.buff[0] in rx.buff;
  }

  lemma OverFlushed(st: Stream, rx: Rx, out: seq<byte>, n: nat)
    requires Over(st, rx, out)
    ensures Flush(rx, n) == (rx, [])
  {
  }

  /** A flush into any number of bytes keeps the invariant, drops at most the packet that is due, and hands on the bytes
      that come next. */
  lemma FlushKeeps(st: Stream, rx: Rx, out: seq<byte>, n: nat)
    requires RxInv(st, rx, out)
    ensures RxInv(st, Flush(rx, n).0, out + Flush(rx, n).1)
    ensures Kept(st, rx, Flush(rx, n).0) && (AckReady(st, rx) ==> AckExact(st, Flush(rx, n).0))
    ensures Count(st, rx) <= Count(st, Flush(rx, n).0) <= Count(st, rx) + 1
  {
    var (rx', bytes) := Flush(rx, n);
    if Over(st, rx, out) {
      OverFlushed(st, rx, out, n);
      assert out + bytes == out;
    } else if rx.pending != [] {
      FlushPendingKeeps(st, rx, out, n);
    } else if rx' != rx {
      OnlyDueIsHanded(st, rx);
      if |bytes| == |rx.buff[0].payload| {
        AdvanceKeeps(st, rx);
      }
    } else {
      assert out + bytes == out;
    }
  }

  /** A flush into a non-empty buffer hands on at least one byte as long as the next packet is there with data. */
  lemma FlushProgress(st: Stream, rx: Rx, out: seq<byte>, n: nat)
    requires RxInv(st, rx, out) && AckExact(st, rx) && n > 0 && Count(st, rx) < |st.chunks|
    requires st.chunks[Count(st, rx)] != []
    requires Has(st, rx, Add16(st.base, Count(st, rx) + 1))
    ensures Flush(rx, n).1 != []
  {
    NextIsDue(st, rx);
    assert rx.buff[0] in rx.buff;
    SamePos(st, rx.ackNr, rx.buff[0].seqNr);
  }

  lemma NextIsDue(st: Stream, rx: Rx)
    requires BufferInv(st, rx) && Count(st, rx) < |st.chunks| && Has(st, rx, Add16(st.base, Count(st, rx) + 1))
    ensures HeadDue(st, rx) && Add16(rx.lastDropped, 1) == rx.buff[0].seqNr
  {
    var s := Add16(st.base, Count(st, rx) + 1);
    NextNumber(st, rx.lastDropped);
    PosOfNumber(st, Count(st, rx) + 1);
    var i :| 0 <= i < |rx.buff| && rx.buff[i].seqNr == s;
    FirstIsDue(st, rx, rx.buff[i]);
  }

  // ---------- runs ----------

  /** A packet arrives while somebody reads into a buffer of n bytes; or what is buffered is read into n bytes; or a
      packet arrives, and the reply to it cannot be written: then recv returns before it stores the packet. */
  datatype Event = Arrival(p: Segment, open: bool, n: nat) | Read(n: nat) | Unanswered(p: Segment, open: bool)

  function Step(b: Build, rx: Rx, e: Event): (Rx, seq<byte>) {
    match e
    case Arrival(p, open, n) => Flush(Arrive(b, open, rx, p), n)
    case Read(n) => Flush(rx, n)
    case Unanswered(p, open) =>
      (rx.(ackNr := if b.AsWritten? || open then Acknowledge(b, rx.ackNr, p) else rx.ackNr), [])
  }

  /** The state after a run, and out followed by all the bytes that the run hands on. */
  function After(b: Build, rx: Rx, out: seq<byte>, es: seq<Event>): (Rx, seq<byte>)
    decreases |es|
  {
    if es == [] then (rx, out)
    else
      var (rx', bytes) := Step(b, rx, es[0]);
      After(b, rx', out + bytes, es[1..])
  }

  lemma {:induction false} AfterOneMore(b: Build, rx: Rx, out: seq<byte>, es: seq<Event>, e: Event)
    ensures After(b, rx, out, es + [e]) ==
              var (rx1, out1) := After(b, rx, out, es); var (rx2, bytes) := Step(b, rx1, e); (rx2, out1 + bytes)
    decreases |es|
  {
    if es == [] {
      assert [e][1..] == [];
    } else {
      var (rx', bytes) := Step(b, rx, es[0]);
      AfterOneMore(b, rx', out + bytes, es[1..], e);
      assert (es + [e])[1..] == es[1..] + [e];
    }
  }

  /** One run after the other. */
  lemma {:induction false} AfterBoth(b: Build, rx: Rx, out: seq<byte>, es: seq<Event>, fs: seq<Event>)
    ensures After(b, rx, out, es + fs) == var (rx1, out1) := After(b, rx, out, es); After(b, rx1, out1, fs)
    decreases |es|
  {
    if es == [] {
      assert es + fs == fs;
    } else {
      var (rx', bytes) := Step(b, rx, es[0]);
      AfterBoth(b, rx', out + bytes, es[1..], fs);
      assert (es + fs)[1..] == es[1..] + fs;
    }
  }

  /** What has been handed on stays. */
  lemma {:induction false} AfterGrows(b: Build, rx: Rx, out: seq<byte>, es: seq<Event>)
    ensures out <= After(b, rx, out, es).1
    decreases |es|
  {
    if es != [] {
      var (rx', bytes) := Step(b, rx, es[0]);
      AfterGrows(b, rx', out + bytes, es[1..]);
    }
  }

  /** A run of the repaired receive side: where it began, what happened, and where it is now. */
  datatype RunRecord = RunRecord(rx0: Rx, out0: seq<byte>, events: seq<Event>, rx: Rx, out: seq<byte>)

  type Trace = t: RunRecord | (t.rx, t.out) == After(AsCommented, t.rx0, t.out0, t.events)
    witness RunRecord(Rx(0, 0, [], []), [], [], Rx(0, 0, [], []), [])

  function Begin(rx: Rx, out: seq<byte>): Trace {
    RunRecord(rx, out, [], rx, out)
  }

  function Extend(t: Trace, e: Event): (t': Trace)
    ensures t'.rx == Step(AsCommented, t.rx, e).0 && t'.out == t.out + Step(AsCommented, t.rx, e).1
    ensures t'.rx0 == t.rx0 && t'.out0 == t.out0 && t'.events == t.events + [e]
  {
    AfterOneMore(AsCommented, t.rx0, t.out0, t.events, e);
    var (rx, bytes) := Step(AsCommented, t.rx, e);
    RunRecord(t.rx0, t.out0, t.events + [e], rx, t.out + bytes)
  }

  ghost predicate GenuineRun(st: Stream, es: seq<Event>) {
    forall e :: e in es && !e.Read? ==> Genuine(st, e.p)
  }

  /** Every reply could be written. */
  ghost predicate Answered(es: seq<Event>) {
    forall e :: e in es ==> !e.Unanswered?
  }

  /** A failed reply leaves the order of delivery alone, unless it is the reply to the packet that is due, with nothing
      pending, that packet not buffered and another one after it. */
  ghost predicate Harmless(st: Stream, rx: Rx, e: Event) {
    e.Unanswered? && e.open && e.p.ty.Data? && Sub16(e.p.seqNr, rx.ackNr) == 1 ==>
      rx.pending != [] || HeadDue(st, rx) || Pos(st, e.p.seqNr) == |st.chunks|
  }

  ghost predicate HarmlessRun(st: Stream, rx: Rx, es: seq<Event>)
    decreases |es|
  {
    es == [] || (Harmless(st, rx, es[0]) && HarmlessRun(st, Step(AsCommented, rx, es[0]).0, es[1..]))
  }

  /** It leaves delivery complete as well, unless that packet may also be buffered. */
  ghost predicate Prompt(st: Stream, rx: Rx, e: Event) {
    e.Unanswered? && e.open && e.p.ty.Data? && Sub16(e.p.seqNr, rx.ackNr) == 1 ==>
      rx.pending != [] || Pos(st, e.p.seqNr) == |st.chunks|
  }

  ghost predicate PromptRun(st: Stream, rx: Rx, es: seq<Event>)
    decreases |es|
  {
    es == [] || (Prompt(st, rx, es[0]) && PromptRun(st, Step(AsCommented, rx, es[0]).0, es[1..]))
  }

  lemma {:induction false} PromptIsHarmless(st: Stream, rx: Rx, es: seq<Event>)
    requires PromptRun(st, rx, es)
    ensures HarmlessRun(st, rx, es)
    decreases |es|
  {
    if es != [] {
      PromptIsHarmless(st, Step(AsCommented, rx, es[0]).0, es[1..]);
    }
  }

  lemma {:induction false} AnsweredIsPrompt(st: Stream, rx: Rx, es: seq<Event>)
    requires Answered(es)
    ensures PromptRun(st, rx, es) && HarmlessRun(st, rx, es)
    decreases |es|
  {
    if es != [] {
      assert es[0] in es;
      AnsweredIsPrompt(st, Step(AsCommented, rx, es[0]).0, es[1..]);
    }
  }

  lemma StepKeeps(st: Stream, rx: Rx, out: seq<byte>, e: Event)
    requires RxInv(st, rx, out) && (!e.Read? ==> Genuine(st, e.p)) && Harmless(st, rx, e)
    ensures var (rx', bytes) := Step(AsCommented, rx, e);
            && RxInv(st, rx', out + bytes) && Kept(st, rx, rx')
            && Count(st, rx) <= Count(st, rx') <= Count(st, rx) + 1
            && (AckExact(st, rx) && Prompt(st, rx, e) ==> AckExact(st, rx'))
            && (e.Arrival? && e.p.ty.Data? && |st.chunks| < 0x8000 ==> Has(st, rx', e.p.seqNr))
  {
    match e
    case Arrival(p, open, n) =>
      ArriveKeeps(st, open, rx, out, p);
      ArriveLosesNone(st, open, rx, out, p);
      if AckExact(st, rx) {
        ArriveIsReady(st, open, rx, out, p);
      }
      FlushKeeps(st, Arrive(AsCommented, open, rx, p), out, n);
    case Read(n) =>
      FlushKeeps(st, rx, out, n);
    case Unanswered(p, open) =>
      UnansweredKeeps(st, rx, out, e);
      if AckExact(st, rx) && Prompt(st, rx, e) {
        PromptKeepsExact(st, rx, out, e);
      }
  }

  lemma PromptKeepsExact(st: Stream, rx: Rx, out: seq<byte>, e: Event)
    requires RxInv(st, rx, out) && AckExact(st, rx) && e.Unanswered? && Genuine(st, e.p) && Prompt(st, rx, e)
    ensures AckExact(st, Step(AsCommented, rx, e).0)
  {
    if e.p.ty.Data? && rx.pending == [] {
      GenuineCarries(st, e.p);
      SerialOrder(st, e.p.seqNr, rx.ackNr);
    }
  }

  lemma UnansweredKeeps(st: Stream, rx: Rx, out: seq<byte>, e: Event)
    requires RxInv(st, rx, out) && e.Unanswered? && Genuine(st, e.p) && Harmless(st, rx, e)
    ensures RxInv(st, Step(AsCommented, rx, e).0, out + Step(AsCommented, rx, e).1)
  {
    assert out + [] == out;
    if e.p.ty.Data? {
      GenuineCarries(st, e.p);
      if Over(st, rx, out) || rx.ackNr == rx.lastDropped || Pos(st, rx.ackNr) == |st.chunks| {
        SerialOrder(st, e.p.seqNr, rx.ackNr);
      }
    }
  }

  lemma KeptTrans(st: Stream, rx: Rx, rx': Rx, rx'': Rx)
    requires Kept(st, rx, rx') && Kept(st, rx', rx'')
    ensures Kept(st, rx, rx'')
  {
  }

  /** Every run keeps the invariant as long as no failed reply does harm, and loses no buffered packet. */
  lemma {:induction false} RunKeeps(st: Stream, rx: Rx, out: seq<byte>, es: seq<Event>)
    requires RxInv(st, rx, out) && GenuineRun(st, es) && HarmlessRun(st, rx, es)
    ensures RxInv(st, After(AsCommented, rx, out, es).0, After(AsCommented, rx, out, es).1)
    ensures Kept(st, rx, After(AsCommented, rx, out, es).0)
    ensures AckExact(st, rx) && PromptRun(st, rx, es) ==> AckExact(st, After(AsCommented, rx, out, es).0)
    decreases |es|
  {
    if es != [] {
      assert es[0] in es;
      StepKeeps(st, rx, out, es[0]);
      var (rx', bytes) := Step(AsCommented, rx, es[0]);
      RunKeeps(st, rx', out + bytes, es[1..]);
      KeptTrans(st, rx, rx', After(AsCommented, rx, out, es).0);
    }
  }

  lemma {:induction false} RunHas(st: Stream, rx: Rx, out: seq<byte>, es: seq<Event>, e: Event)
    requires RxInv(st, rx, out) && GenuineRun(st, es) && HarmlessRun(st, rx, es) && |st.chunks| < 0x8000
    requires e in es && e.Arrival? && e.p.ty.Data?
    ensures Has(st, After(AsCommented, rx, out, es).0, e.p.seqNr)
    decreases |es|
  {
    assert es[0] in es;
    StepKeeps(st, rx, out, es[0]);
    var (rx', bytes) := Step(AsCommented, rx, es[0]);
    if e == es[0] {
      RunKeeps(st, rx', out + bytes, es[1..]);
    } else {
      RunHas(st, rx', out + bytes, es[1..], e);
    }
  }

  lemma {:induction false} UpToIsPrefix(st: Stream, j: nat, k: nat)
    requires j <= k <= |st.chunks|
    ensures UpTo(st, j) <= UpTo(st, k)
    decreases k
  {
    if j < k {
      UpToIsPrefix(st, j, k - 1);
      assert st.chunks[..k][..k - 1] == st.chunks[..k - 1];
    }
  }

  /** A socket that has just accepted a connection. */
  function Fresh(base: u16): Rx {
    Rx(base, base, [], [])
  }

  lemma HandedIsPrefix(st: Stream, rx: Rx, out: seq<byte>)
    requires RxInv(st, rx, out)
    ensures out <= Flatten(st.chunks)
  {
    var k := Count(st, rx);
    UpToIsPrefix(st, k, |st.chunks|);
    assert st.chunks[..|st.chunks|] == st.chunks;
    if rx.pending != [] {
      assert rx.buff[0] in rx.buff;
      UpToNext(st, rx.buff[0]);
      UpToIsPrefix(st, k + 1, |st.chunks|);
    }
  }

  /** In-order, exactly-once delivery: whatever genuine packets arrive, in whatever order and however often, and
      whatever the sizes of the reads, the bytes handed on are a prefix of the stream. */
  lemma DeliveryIsPrefix(st: Stream, es: seq<Event>)
    requires InRange(st) && GenuineRun(st, es) && HarmlessRun(st, Fresh(st.base), es)
    ensures After(AsCommented, Fresh(st.base), [], es).1 <= Flatten(st.chunks)
  {
    RunKeeps(st, Fresh(st.base), [], es);
    var (rx, out) := After(AsCommented, Fresh(st.base), [], es);
    HandedIsPrefix(st, rx, out);
  }

  ghost predicate AllArrived(st: Stream, rx: Rx) {
    forall s: u16 :: 0 < Pos(st, s) <= |st.chunks| ==> Has(st, rx, s)
  }

  ghost predicate Reads(es: seq<Event>) {
    forall e :: e in es ==> e.Read? && e.n > 0
  }

  lemma DrainStep(st: Stream, rx: Rx, out: seq<byte>, n: nat)
    requires RxInv(st, rx, out) && AckExact(st, rx) && AllArrived(st, rx) && n > 0
    requires forall c :: c in st.chunks ==> c != []
    ensures AllArrived(st, Flush(rx, n).0) && AckExact(st, Flush(rx, n).0)
    ensures Flush(rx, n).1 != [] || out == Flatten(st.chunks)
  {
    FlushKeeps(st, rx, out, n);
    var k := Count(st, rx);
    if k < |st.chunks| {
      assert st.chunks[k] in st.chunks;
      PosOfNumber(st, k + 1);
      FlushProgress(st, rx, out, n);
    } else {
      assert st.chunks[..|st.chunks|] == st.chunks;
      assert !Over(st, rx, out) ==> forall p :: p in rx.buff ==> false;
    }
  }

  lemma {:induction false} DrainAll(st: Stream, rx: Rx, out: seq<byte>, es: seq<Event>)
    requires RxInv(st, rx, out) && AckExact(st, rx) && AllArrived(st, rx) && Reads(es)
    requires forall c :: c in st.chunks ==> c != []
    requires |out| + |es| >= |Flatten(st.chunks)|
    ensures After(AsCommented, rx, out, es).1 == Flatten(st.chunks)
    decreases |es|
  {
    HandedIsPrefix(st, rx, out);
    if es != [] {
      assert es[0] in es;
      var (rx', bytes) := Flush(rx, es[0].n);
      FlushKeeps(st, rx, out, es[0].n);
      DrainStep(st, rx, out, es[0].n);
      HandedIsPrefix(st, rx', out + bytes);
      DrainAll(st, rx', out + bytes, es[1..]);
    }
  }

  /** Packet i of the stream arrives, and is answered. */
  ghost predicate Includes(st: Stream, es: seq<Event>, i: nat)
    requires i < |st.chunks|
  {
    exists e :: e in es && e.Arrival? && e.p.ty.Data? && IsChunk(st, i, e.p)
  }

  /** From any state of a connection: once every packet that is missing has arrived, as many reads as there are bytes
      hand on the rest, and the whole is the stream. */
  lemma RestIsComplete(st: Stream, rx: Rx, out: seq<byte>, es: seq<Event>, rest: seq<Event>)
    requires RxInv(st, rx, out) && AckExact(st, rx) && |st.chunks| < 0x8000 && GenuineRun(st, es)
    requires PromptRun(st, rx, es)
    requires forall c :: c in st.chunks ==> c != []
    requires forall i :: 0 <= i < |st.chunks| ==> Has(st, rx, Add16(st.base, 1 + i)) || Includes(st, es, i)
    requires Reads(rest) && |rest| >= |Flatten(st.chunks)|
    ensures After(AsCommented, rx, out, es + rest).1 == Flatten(st.chunks)
  {
    PromptIsHarmless(st, rx, es);
    RunKeeps(st, rx, out, es);
    var (rx', out') := After(AsCommented, rx, out, es);
    forall s: u16 | 0 < Pos(st, s) <= |st.chunks| ensures Has(st, rx', s) {
      NumberOfPos(st, s);
      if !Has(st, rx, s) {
        assert Includes(st, es, Pos(st, s) - 1);
        var e :| e in es && e.Arrival? && e.p.ty.Data? && IsChunk(st, Pos(st, s) - 1, e.p);
        RunHas(st, rx, out, es, e);
      }
    }
    DrainAll(st, rx', out', rest);
    AfterBoth(AsCommented, rx, out, es, rest);
  }

  /** Nothing is lost: once every packet of the stream has arrived, and as long as every failed reply is a prompt one,
      as many further reads as there are bytes hand on the rest, and the whole is the stream. */
  lemma DeliveryIsComplete(st: Stream, es: seq<Event>, rest: seq<Event>)
    requires InRange(st) && |st.chunks| < 0x8000 && GenuineRun(st, es) && PromptRun(st, Fresh(st.base), es)
    requires forall c :: c in st.chunks ==> c != []
    requires forall i :: 0 <= i < |st.chunks| ==> Includes(st, es, i)
    requires Reads(rest) && |rest| >= |Flatten(st.chunks)|
    ensures var (rx, out) := After(AsCommented, Fresh(st.base), [], es);
            After(AsCommented, rx, out, rest).1 == Flatten(st.chunks)
  {
    RestIsComplete(st, Fresh(st.base), [], es, rest);
    AfterBoth(AsCommented, Fresh(st.base), [], es, rest);
  }

  // ---------- where the bytes go ----------

  /** Where the bytes that were handed on have gone, the latest last: to somebody who reads, or into a buffer that
      nobody looks at. */
  datatype Handout =
    | Unread
    | ToReader(before: Handout, bytes: seq<byte>)
    | ToNobody(before: Handout, bytes: seq<byte>)
  {
    ghost function All(): seq<byte> {
      if Unread? then [] else before.All() + bytes
    }

    ghost function Read(): seq<byte> {
      if Unread? then [] else if ToReader? then before.Read() + bytes else before.Read()
    }

    ghost function Wasted(): seq<byte> {
      if Unread? then [] else if ToNobody? then before.Wasted() + bytes else before.Wasted()
    }

    /** These are the last bytes that were handed on. */
    ghost predicate Latest(data: seq<byte>, asked: bool) {
      !Unread? && bytes == data && (ToReader? <==> asked)
    }
  }

  /** At most these bytes have been added. */
  ghost predicate Adds(h: Handout, h': Handout, bytes: seq<byte>, asked: bool) {
    (h' == h && bytes == []) || h' == HandOn(h, bytes, asked)
  }

  function HandOn(h: Handout, bytes: seq<byte>, asked: bool): Handout {
    if asked then ToReader(h, bytes) else ToNobody(h, bytes)
  }

  lemma {:induction false} HandoutCounts(h: Handout)
    ensures |h.All()| == |h.Read()| + |h.Wasted()|
    ensures h.Wasted() == [] ==> h.Read() == h.All()
  {
    if !h.Unread? {
      HandoutCounts(h.before);
    }
  }

  /** What was read is all that was handed on if and only if nothing went to nobody. */
  lemma ReadIsAllIff(h: Handout)
    ensures h.Read() == h.All() <==> h.Wasted() == []
  {
    HandoutCounts(h);
  }
}
