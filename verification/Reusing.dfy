/** Delivery at the side that made the connection, as this code numbers packets: the peer does not count its answer to
    the SYN, and gives the first data packet the same number (utp/socket.go:644-650 and 511-519). This side has
    acknowledged that number already, so that it takes the first packet for handed on. */
module Reusing {
  import opened Bytes
  import opened Packet
  import opened Receive
  import opened Wrap
  import opened Connecting

  /** A socket whose SYN has just been acknowledged, by a packet with the number of the first data packet. */
  function Reused(base: u16): Rx {
    Dialed(Add16(base, 1))
  }

  /** The second packet, if it arrives first, is handed on, and the first one is then refused for good. */
  lemma SecondIsTakenForFirst(first: Segment, second: Segment, n: nat)
    requires first.ty.Data? && second.ty.Data? && 0 < first.seqNr < 0x7FFF && second.seqNr == first.seqNr + 1
    ensures Step(AsCommented, Dialed(first.seqNr), Arrival(second, true, |second.payload|))
         == (Fresh(second.seqNr), second.payload)
    ensures Step(AsCommented, Fresh(second.seqNr), Arrival(first, true, n)) == (Fresh(second.seqNr), [])
  {
    assert Arrive(AsCommented, true, Dialed(first.seqNr), second) == Rx(second.seqNr, 0, [second], []);
    assert [second][1..] == [] && second.payload[..|second.payload|] == second.payload;
    assert Sub16(first.seqNr, second.seqNr) == 0xFFFF;
  }

  ghost predicate AlwaysInOrderReused(base: u16, n: nat) {
    forall st: Stream, es: seq<Event> ::
      st.base == base && |st.chunks| == n && GenuineRun(st, es) && HarmlessRunDialed(st, Reused(base), es) ==>
        After(AsCommented, Reused(base), [], es).1 <= Flatten(st.chunks)
  }

  /** When the bytes can be relied on with such numbers: there is only one packet; or the numbers begin with 2^15 - 1,
      so that nothing but the first packet is taken at first, and do not wrap; or nothing is ever taken. */
  predicate Tolerates(base: u16, n: nat) {
    n <= 1 || (base == 0x7FFE && n <= 0x8001) || (base >= 0x7FFF && base as int + n <= 0x1_0000)
  }

  /** In-order delivery at the connecting side, exactly, as this code numbers packets. */
  lemma InOrderReusedIff(base: u16, n: nat)
    ensures AlwaysInOrderReused(base, n) <==> Tolerates(base, n)
  {
    if Tolerates(base, n) {
      forall st: Stream, es: seq<Event> |
        st.base == base && |st.chunks| == n && GenuineRun(st, es) && HarmlessRunDialed(st, Reused(base), es)
        ensures After(AsCommented, Reused(base), [], es).1 <= Flatten(st.chunks)
      {
        if n == 0 || base >= 0x7FFF {
          HighIsOld(st, es);
          NothingIsTaken(Add16(base, 1), es);
        } else {
          RunKeepsReused(st, Reused(base), [], es);
          ReusedIsPrefix(st, After(AsCommented, Reused(base), [], es).0, After(AsCommented, Reused(base), [], es).1);
        }
      }
    } else {
      var st, es := OutOfOrderReused(base, n);
      AnsweredIsHarmlessDialed(st, Reused(base), es);
    }
  }

  ghost predicate AlwaysCompleteReused(base: u16, n: nat) {
    forall st: Stream, es: seq<Event>, rest: seq<Event> ::
      st.base == base && |st.chunks| == n && (forall c :: c in st.chunks ==> c != []) &&
      Complete(st, Reused(base), es) && Reads(rest) && |rest| >= |Flatten(st.chunks)| ==>
        After(AsCommented, Reused(base), [], es + rest).1 == Flatten(st.chunks)
  }

  /** Complete delivery there, exactly: only of a single packet, numbered below 2^15. */
  lemma CompleteReusedIff(base: u16, n: nat)
    ensures AlwaysCompleteReused(base, n) <==> n == 0 || (n == 1 && base < 0x7FFF)
  {
    if n == 0 || (n == 1 && base < 0x7FFF) {
      forall st: Stream, es: seq<Event>, rest: seq<Event> |
        st.base == base && |st.chunks| == n && (forall c :: c in st.chunks ==> c != []) &&
        Complete(st, Reused(base), es) && Reads(rest) && |rest| >= |Flatten(st.chunks)|
        ensures After(AsCommented, Reused(base), [], es + rest).1 == Flatten(st.chunks)
      {
        if n == 0 {
          HighIsOld(st, es + rest);
          NothingIsTaken(Add16(base, 1), es + rest);
        } else {
          SingleIsPrompt(st, Fresh(base), es);
          DeliveryIsComplete(st, es, rest);
          AfterBoth(AsCommented, Fresh(base), [], es, rest);
          SameIfSingle(st, Reused(base), Fresh(base), [], es + rest);
        }
      }
    } else {
      var st, es := IncompleteReused(base, n);
      assert Complete(st, Reused(base), es) && Reads(Repeated(|Flatten(st.chunks)|));
    }
  }

  // ---------- only the first packet is taken at first ----------

  /** Nothing is dropped yet, and nothing is buffered but the first packet. Its number is acknowledged, or a later one
      is. */
  ghost predicate OnlyFirst(st: Stream, rx: Rx, out: seq<byte>) {
    var rx1 := rx.(lastDropped := st.base);
    && rx.lastDropped == 0 && BufferInv(st, rx1) && Handed(st, rx1, out)
    && forall p :: p in rx.buff ==> Pos(st, p.seqNr) == 1
  }

  ghost predicate ReusedInv(st: Stream, rx: Rx, out: seq<byte>) {
    RxInv(st, rx, out) || OnlyFirst(st, rx, out)
  }

  /** The streams of which nothing but the first packet is new in comparison with 0. */
  ghost predicate FirstIsNew(st: Stream) {
    InRange(st) && st.base < 0x7FFF && (|st.chunks| == 1 || st.base == 0x7FFE)
  }

  lemma NewIsFirst(st: Stream, p: Segment)
    requires FirstIsNew(st) && Genuine(st, p) && p.ty.Data?
    ensures Carries(st, p.seqNr, p.payload)
    ensures Ahead(p.seqNr, 0) <==> Pos(st, p.seqNr) == 1
    ensures Pos(st, p.seqNr) == 1 ==> Ahead(p.seqNr, st.base)
  {
    GenuineCarries(st, p);
    assert Pos(st, p.seqNr) == if p.seqNr >= st.base then p.seqNr - st.base else p.seqNr - st.base + 0x1_0000;
    assert Ahead(p.seqNr, 0) <==> 0 < p.seqNr < 0x8000;
  }

  lemma KeepKeepsReused(st: Stream, rx: Rx, out: seq<byte>, p: Segment)
    requires FirstIsNew(st) && OnlyFirst(st, rx, out) && Genuine(st, p)
    ensures OnlyFirst(st, Keep(AsCommented, rx, p), out)
  {
    var rx1 := rx.(lastDropped := st.base);
    if p.ty.Data? {
      NewIsFirst(st, p);
      if Ahead(p.seqNr, 0) {
        InsertIsSortedInsertion(AsCommented, rx.buff, p);
        var buff' := InsertKeeps(st, rx1, p);
      }
    }
  }

  lemma StepKeepsReused(st: Stream, rx: Rx, out: seq<byte>, e: Event)
    requires FirstIsNew(st) && OnlyFirst(st, rx, out) && (!e.Read? ==> Genuine(st, e.p))
    ensures ReusedInv(st, Step(AsCommented, rx, e).0, out + Step(AsCommented, rx, e).1)
  {
    if e.Unanswered? {
      assert out + [] == out;
      return;
    }
    var rx' := if e.Arrival? then Arrive(AsCommented, e.open, rx, e.p) else rx;
    if e.Arrival? {
      KeepKeepsReused(st, rx.(ackNr := if e.open then Acknowledge(AsCommented, rx.ackNr, e.p) else rx.ackNr), out, e.p);
    }
    FlushKeepsReused(st, rx', out, e.n);
  }

  lemma FlushKeepsReused(st: Stream, rx: Rx, out: seq<byte>, n: nat)
    requires FirstIsNew(st) && OnlyFirst(st, rx, out)
    ensures ReusedInv(st, Flush(rx, n).0, out + Flush(rx, n).1)
  {
    var rx1 := rx.(lastDropped := st.base);
    if rx.pending != [] {
      FlushIgnoresLast(rx, st.base, n);
      FlushPendingKeeps(st, rx1, out, n);
    } else if Flush(rx, n).0 != rx {
      FlushFirstKeeps(st, rx, out, n);
    } else {
      assert out + Flush(rx, n).1 == out;
    }
  }

  lemma FlushFirstKeeps(st: Stream, rx: Rx, out: seq<byte>, n: nat)
    requires FirstIsNew(st) && OnlyFirst(st, rx, out) && rx.pending == [] && Flush(rx, n).0 != rx
    ensures ReusedInv(st, Flush(rx, n).0, out + Flush(rx, n).1)
  {
    assert rx.buff[0] in rx.buff;
    if |Flush(rx, n).1| == |rx.buff[0].payload| {
      AdvanceKeeps(st, rx.(lastDropped := st.base));
    }
  }

  lemma {:induction false} RunKeepsReused(st: Stream, rx: Rx, out: seq<byte>, es: seq<Event>)
    requires FirstIsNew(st) && ReusedInv(st, rx, out) && GenuineRun(st, es) && HarmlessRunDialed(st, rx, es)
    ensures ReusedInv(st, After(AsCommented, rx, out, es).0, After(AsCommented, rx, out, es).1)
    decreases |es|
  {
    if es != [] {
      var e := es[0];
      assert e in es;
      if RxInv(st, rx, out) {
        BegunIsAlike(st, rx, out);
        StepKeeps(st, rx, out, e);
      } else {
        StepKeepsReused(st, rx, out, e);
      }
      RunKeepsReused(st, Step(AsCommented, rx, e).0, out + Step(AsCommented, rx, e).1, es[1..]);
    }
  }

  lemma ReusedIsPrefix(st: Stream, rx: Rx, out: seq<byte>)
    requires ReusedInv(st, rx, out)
    ensures out <= Flatten(st.chunks)
  {
    if RxInv(st, rx, out) {
      HandedIsPrefix(st, rx, out);
    } else if rx.pending != [] {
      assert rx.buff[0] in rx.buff;
      UpToNext(st, rx.buff[0]);
      UpToIsPrefix(st, 1, |st.chunks|);
      assert st.chunks[..|st.chunks|] == st.chunks;
    }
  }

  // ---------- a single packet ----------

  lemma {:induction false} SingleIsPrompt(st: Stream, rx: Rx, es: seq<Event>)
    requires |st.chunks| == 1 && GenuineRun(st, es)
    ensures PromptRun(st, rx, es)
    decreases |es|
  {
    if es != [] {
      assert es[0] in es;
      SingleIsPrompt(st, Step(AsCommented, rx, es[0]).0, es[1..]);
    }
  }

  /** Until the only packet is dropped, there is no difference but in what has been acknowledged and dropped. */
  ghost predicate AlikeSingle(base: u16, rx: Rx, rx': Rx) {
    rx == rx' || (
      && rx == rx'.(ackNr := Add16(base, 1), lastDropped := 0) && rx'.lastDropped == base
      && (rx'.ackNr == base || rx'.ackNr == Add16(base, 1))
      && (forall p :: p in rx'.buff ==> p.seqNr == Add16(base, 1)) && |rx'.buff| <= 1)
  }

  lemma SameStepSingle(st: Stream, rx: Rx, rx': Rx, e: Event)
    requires st.base < 0x7FFF && |st.chunks| == 1 && AlikeSingle(st.base, rx, rx')
    requires !e.Read? ==> Genuine(st, e.p)
    ensures AlikeSingle(st.base, Step(AsCommented, rx, e).0, Step(AsCommented, rx', e).0)
    ensures Step(AsCommented, rx, e).1 == Step(AsCommented, rx', e).1
  {
    if rx != rx' {
      if e.Arrival? {
        SameArrivalSingle(st, e.open, rx, rx', e.p);
        SameFlushSingle(st.base, Arrive(AsCommented, e.open, rx, e.p), Arrive(AsCommented, e.open, rx', e.p), e.n);
      } else if e.Read? {
        SameFlushSingle(st.base, rx, rx', e.n);
      }
    }
  }

  lemma SameArrivalSingle(st: Stream, open: bool, rx: Rx, rx': Rx, p: Segment)
    requires st.base < 0x7FFF && |st.chunks| == 1 && AlikeSingle(st.base, rx, rx') && rx != rx' && Genuine(st, p)
    ensures AlikeSingle(st.base, Arrive(AsCommented, open, rx, p), Arrive(AsCommented, open, rx', p))
    ensures Arrive(AsCommented, open, rx', p).lastDropped == st.base
    ensures Arrive(AsCommented, open, rx, p).lastDropped == 0
  {
    if p.ty.Data? {
      assert p.seqNr == st.base + 1 && Ahead(p.seqNr, 0) && Ahead(p.seqNr, st.base);
      if rx.buff != [] {
        assert rx.buff[0] in rx'.buff;
        assert CountBelow(rx.buff, p.seqNr) == 0;
      }
    }
  }

  lemma SameFlushSingle(base: u16, rx: Rx, rx': Rx, n: nat)
    requires base < 0x7FFF && AlikeSingle(base, rx, rx')
    ensures AlikeSingle(base, Flush(rx, n).0, Flush(rx', n).0) && Flush(rx, n).1 == Flush(rx', n).1
  {
    if rx'.buff != [] {
      assert rx'.buff[0] in rx'.buff;
    }
  }

  lemma {:induction false} SameIfSingle(st: Stream, rx: Rx, rx': Rx, out: seq<byte>, es: seq<Event>)
    requires st.base < 0x7FFF && |st.chunks| == 1 && AlikeSingle(st.base, rx, rx') && GenuineRun(st, es)
    ensures After(AsCommented, rx, out, es).1 == After(AsCommented, rx', out, es).1
    decreases |es|
  {
    if es != [] {
      var e := es[0];
      assert e in es;
      SameStepSingle(st, rx, rx', e);
      SameIfSingle(st, Step(AsCommented, rx, e).0, Step(AsCommented, rx', e).0, out + Step(AsCommented, rx, e).1,
          es[1..]);
    }
  }

  // ---------- runs for which it fails ----------

  lemma OutOfOrderReused(base: u16, n: nat) returns (st: Stream, es: seq<Event>)
    requires !Tolerates(base, n)
    ensures st.base == base && |st.chunks| == n && Short(st) && GenuineRun(st, es) && Answered(es)
    ensures !(After(AsCommented, Reused(base), [], es).1 <= Flatten(st.chunks))
  {
    if base < 0x7FFE {
      st, es := SecondIsFirst(base, n);
    } else if base == 0x7FFE {
      st, es := OutOfOrder(base, n);
      SameOnceBegunReused(st, es);
    } else {
      st, es := OneIsFirstReused(base, n, 0x1_0000 - base);
    }
  }

  lemma SecondIsFirst(base: u16, n: nat) returns (st: Stream, es: seq<Event>)
    requires base < 0x7FFE && n >= 2
    ensures st.base == base && |st.chunks| == n && Short(st) && GenuineRun(st, es) && Answered(es)
    ensures !(After(AsCommented, Reused(base), [], es).1 <= Flatten(st.chunks))
  {
    st := Marked(base, n, 0, [1], 1, [2]);
    es := [Carrying(st, 1, 1)];
    SecondIsTakenForFirst(PacketAt(st, 0), PacketAt(st, 1), 1);
    assert es[1..] == [];
    WrongAtOnce(st, 2);
  }

  /** Once the first packet has been handed on there is no difference. */
  lemma SameOnceBegunReused(st: Stream, es: seq<Event>)
    requires st.base < 0x7FFF && Short(st) && st.chunks != [] && es != [] && es[0] == Carrying(st, 0, 2)
    ensures After(AsCommented, Reused(st.base), [], es) == After(AsCommented, Fresh(st.base), [], es)
  {
    FirstEitherWay(st.base, Add16(st.base, 1), PacketAt(st, 0));
    SameAfterFirst(Reused(st.base), Fresh(st.base), es);
  }

  /** Packets up to number 0 are refused, and then number 1 is handed on. */
  lemma OneIsFirstReused(base: u16, n: nat, k: nat) returns (st: Stream, es: seq<Event>)
    requires base >= 0x7FFF && base as int + k == 0x1_0000 && k < n
    ensures st.base == base && |st.chunks| == n && Short(st) && GenuineRun(st, es) && Answered(es)
    ensures !(After(AsCommented, Reused(base), [], es).1 <= Flatten(st.chunks))
  {
    st := Marked(base, n, 0, [1], k, [2]);
    es := Ordered(st, k) + [Carrying(st, k, 1)];
    OrderedIsGenuine(st, k);
    RefusedInOrderReused(st, k);
    OneIsOut(st, Reused(base), k);
    WrongAtOnce(st, 2);
  }

  lemma {:induction false} RefusedInOrderReused(st: Stream, k: nat)
    requires st.base >= 0x7FFF && st.base as int + k <= 0x1_0000 && 0 < k <= |st.chunks|
    ensures After(AsCommented, Reused(st.base), [], Ordered(st, k)) == (Dialed(Add16(st.base, k)), [])
  {
    if k == 1 {
      FirstAlone(st, k);
    } else {
      RefusedInOrderReused(st, k - 1);
      RefusedOneMore(st, Reused(st.base), k - 1);
    }
  }

  lemma FirstAlone(st: Stream, k: nat)
    requires st.base >= 0x7FFF && k == 1 <= |st.chunks|
    ensures After(AsCommented, Reused(st.base), [], Ordered(st, k)) == (Reused(st.base), [])
  {
    assert Ordered(st, k) == [Carrying(st, 0, 2)] && Ordered(st, k)[1..] == [];
    RefusedFirst(PacketAt(st, 0));
    var none: seq<byte> := [];
    assert none + none == none;
  }

  lemma RefusedFirst(p: Segment)
    requires p.ty.Data? && (p.seqNr >= 0x8000 || p.seqNr == 0)
    ensures Step(AsCommented, Dialed(p.seqNr), Arrival(p, true, 2)) == (Dialed(p.seqNr), [])
  {
  }

  /** A complete run that no reads complete. */
  lemma IncompleteReused(base: u16, n: nat) returns (st: Stream, es: seq<Event>)
    requires n > 0 && !(n == 1 && base < 0x7FFF)
    ensures st.base == base && |st.chunks| == n && (forall c :: c in st.chunks ==> c != [])
    ensures Complete(st, Reused(base), es)
    ensures After(AsCommented, Reused(base), [], es + Repeated(|Flatten(st.chunks)|)).1 != Flatten(st.chunks)
  {
    if !Tolerates(base, n) {
      var es0;
      st, es0 := OutOfOrderReused(base, n);
      es := es0 + Ordered(st, n);
      StaysWrong(st, Reused(base), es0, Repeated(|Flatten(st.chunks)|));
    } else {
      st := Marked(base, n, 0, [0], 0, [0]);
      if base == 0x7FFE {
        NotEmpty(st);
        es := [Carrying(st, 1, 2)] + Ordered(st, n);
        CompletedBy(st, Reused(base), [Carrying(st, 1, 2)], n);
        StuckAtOnce(st, es + Repeated(|Flatten(st.chunks)|));
      } else {
        es := Ordered(st, n);
        NothingOfAll(st, Add16(base, 1));
      }
    }
  }

  /** A later number than the first one is acknowledged, and no packet but the first is ever taken. */
  ghost predicate Stuck(st: Stream, rx: Rx) {
    && rx.lastDropped == 0 && rx.pending == [] && 2 <= Pos(st, rx.ackNr) <= |st.chunks|
    && forall p :: p in rx.buff ==> Pos(st, p.seqNr) == 1
  }

  lemma StuckStep(st: Stream, rx: Rx, e: Event)
    requires FirstIsNew(st) && Stuck(st, rx) && Sorted(rx.buff) && (!e.Read? ==> Genuine(st, e.p))
    ensures Stuck(st, Step(AsCommented, rx, e).0) && Sorted(Step(AsCommented, rx, e).0.buff)
    ensures Step(AsCommented, rx, e).1 == []
  {
    var rx1 := rx;
    if !e.Read? {
      if e.p.ty.Data? {
        NewIsFirst(st, e.p);
        SerialOrder(st, e.p.seqNr, rx.ackNr);
        InsertIsSortedInsertion(AsCommented, rx.buff, e.p);
      }
      if e.Arrival? {
        rx1 := Arrive(AsCommented, e.open, rx, e.p);
      }
    }
    if rx1.buff != [] {
      assert rx1.buff[0] in rx1.buff;
      PosOfNext(st, rx1.ackNr);
    }
  }

  lemma {:induction false} StuckRun(st: Stream, rx: Rx, out: seq<byte>, es: seq<Event>)
    requires FirstIsNew(st) && Stuck(st, rx) && Sorted(rx.buff) && GenuineRun(st, es)
    ensures After(AsCommented, rx, out, es).1 == out
    decreases |es|
  {
    if es != [] {
      assert es[0] in es;
      StuckStep(st, rx, es[0]);
      assert out + [] == out;
      StuckRun(st, Step(AsCommented, rx, es[0]).0, out, es[1..]);
    }
  }

  lemma StuckAtOnce(st: Stream, es: seq<Event>)
    requires FirstIsNew(st) && st.base == 0x7FFE && |st.chunks| >= 2
    requires es != [] && es[0] == Carrying(st, 1, 2) && GenuineRun(st, es)
    ensures After(AsCommented, Reused(st.base), [], es).1 == []
  {
    var none: seq<byte> := [];
    var rx := Step(AsCommented, Reused(st.base), es[0]).0;
    assert rx == Dialed(0x8000) && Step(AsCommented, Reused(st.base), es[0]).1 == none && none + none == none;
    StuckRun(st, rx, none, es[1..]);
  }
}
