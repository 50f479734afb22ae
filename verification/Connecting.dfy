/** Delivery at the side that made the connection, from a peer that counts its answer to the SYN, as BEP 29 has it
    (section "connection setup"). The lastDropped of this side is still 0 when the connection is made, so that until it
    has dropped its first packet it takes packets for new by comparing them with 0. */
module Connecting {
  import opened Bytes
  import opened Packet
  import opened Receive
  import opened Wrap

  /** A socket whose SYN has just been acknowledged with number base. The first data packet is numbered one more. */
  function Dialed(base: u16): Rx {
    Rx(base, 0, [], [])
  }

  ghost predicate AlwaysInOrderDialed(base: u16, n: nat) {
    forall st: Stream, es: seq<Event> ::
      st.base == base && |st.chunks| == n && GenuineRun(st, es) && HarmlessRunDialed(st, Dialed(base), es) ==>
        After(AsCommented, Dialed(base), [], es).1 <= Flatten(st.chunks)
  }

  /** In-order delivery at the connecting side, exactly: as at the accepting side if the first number is below 2^15.
      Otherwise the stream has to end before number 1, and then nothing is delivered at all. */
  lemma InOrderDialedIff(base: u16, n: nat)
    ensures AlwaysInOrderDialed(base, n) <==>
              if base < 0x7FFF then n == 0 || (Add16(base, 1) as int + n <= 0x1_0000 && n <= 0x8002)
              else base as int + n <= 0x1_0000
  {
    if base < 0x7FFF {
      if n == 0 || (Add16(base, 1) as int + n <= 0x1_0000 && n <= 0x8002) {
        forall st: Stream, es: seq<Event> |
          st.base == base && |st.chunks| == n && GenuineRun(st, es) && HarmlessRunDialed(st, Dialed(base), es)
          ensures After(AsCommented, Dialed(base), [], es).1 <= Flatten(st.chunks)
        {
          RunKeepsDialed(st, Dialed(base), [], es);
          DialedIsPrefix(st, After(AsCommented, Dialed(base), [], es).0, After(AsCommented, Dialed(base), [], es).1);
        }
      } else {
        var st, es := OutOfOrder(base, n);
        SameOnceBegun(st, es);
        AnsweredIsHarmlessDialed(st, Dialed(base), es);
      }
    } else if base as int + n <= 0x1_0000 {
      forall st: Stream, es: seq<Event> |
        st.base == base && |st.chunks| == n && GenuineRun(st, es) && HarmlessRunDialed(st, Dialed(base), es)
        ensures After(AsCommented, Dialed(base), [], es).1 <= Flatten(st.chunks)
      {
        HighIsOld(st, es);
        NothingIsTaken(base, es);
      }
    } else {
      var st, es := OneIsFirst(base, n, 0x1_0000 - base);
      AnsweredIsHarmlessDialed(st, Dialed(base), es);
    }
  }

  ghost predicate AlwaysCompleteDialed(base: u16, n: nat) {
    forall st: Stream, es: seq<Event>, rest: seq<Event> ::
      st.base == base && |st.chunks| == n && (forall c :: c in st.chunks ==> c != []) &&
      Complete(st, Dialed(base), es) && Reads(rest) && |rest| >= |Flatten(st.chunks)| ==>
        After(AsCommented, Dialed(base), [], es + rest).1 == Flatten(st.chunks)
  }

  /** Complete delivery at the connecting side, exactly: if and only if all numbers are below 2^15. */
  lemma CompleteDialedIff(base: u16, n: nat)
    ensures AlwaysCompleteDialed(base, n) <==> n == 0 || base as int + n < 0x8000
  {
    if n == 0 || base as int + n < 0x8000 {
      forall st: Stream, es: seq<Event>, rest: seq<Event> |
        st.base == base && |st.chunks| == n && (forall c :: c in st.chunks ==> c != []) &&
        Complete(st, Dialed(base), es) && Reads(rest) && |rest| >= |Flatten(st.chunks)|
        ensures After(AsCommented, Dialed(base), [], es + rest).1 == Flatten(st.chunks)
      {
        if base as int + n < 0x8000 {
          SamePrompt(st, Dialed(base), Fresh(base), es);
          DeliveryIsComplete(st, es, rest);
          AfterBoth(AsCommented, Fresh(base), [], es, rest);
          SameIfLow(st, Dialed(base), Fresh(base), [], es + rest);
        } else {
          HighIsOld(st, es + rest);
          NothingIsTaken(base, es + rest);
        }
      }
    } else {
      var st, es := IncompleteDialed(base, n);
      assert Complete(st, Dialed(base), es) && Reads(Repeated(|Flatten(st.chunks)|));
    }
  }

  // ---------- numbers below 2^15 ----------

  /** Until the first packet has been dropped, 0 stands for base. */
  ghost predicate DialedInv(st: Stream, rx: Rx, out: seq<byte>) {
    RxInv(st, rx, out) || (rx.lastDropped == 0 && RxInv(st, rx.(lastDropped := st.base), out) && InRange(st))
  }

  /** The state as the accepting side would have it. */
  function AsAccepted(base: u16, rx: Rx): Rx {
    if rx.lastDropped == 0 then rx.(lastDropped := base) else rx
  }

  /** No failed reply does harm: as at the accepting side, with base in place of 0. */
  ghost predicate HarmlessRunDialed(st: Stream, rx: Rx, es: seq<Event>)
    decreases |es|
  {
    es == [] ||
    (Harmless(st, AsAccepted(st.base, rx), es[0]) && HarmlessRunDialed(st, Step(AsCommented, rx, es[0]).0, es[1..]))
  }

  lemma {:induction false} AnsweredIsHarmlessDialed(st: Stream, rx: Rx, es: seq<Event>)
    requires Answered(es)
    ensures HarmlessRunDialed(st, rx, es)
    decreases |es|
  {
    if es != [] {
      assert es[0] in es;
      AnsweredIsHarmlessDialed(st, Step(AsCommented, rx, es[0]).0, es[1..]);
    }
  }

  /** A packet that is new in comparison with 0 is new in comparison with base. */
  lemma TakenAlike(st: Stream, open: bool, rx: Rx, p: Segment)
    requires rx.lastDropped == 0 && (p.ty.Data? ==> Ahead(p.seqNr, 0) && Ahead(p.seqNr, st.base))
    ensures Arrive(AsCommented, open, rx.(lastDropped := st.base), p) ==
            Arrive(AsCommented, open, rx, p).(lastDropped := st.base)
    ensures Arrive(AsCommented, open, rx, p).lastDropped == 0
  {
  }

  lemma AheadAlike(st: Stream, p: Segment)
    requires st.base < 0x7FFF && InRange(st) && Carries(st, p.seqNr, p.payload)
    ensures Ahead(p.seqNr, 0) ==> Ahead(p.seqNr, st.base)
    ensures Pos(st, p.seqNr) == 1 || p.seqNr < 0x8000 ==> Ahead(p.seqNr, 0)
  {
    assert Pos(st, p.seqNr) == if p.seqNr >= st.base then p.seqNr - st.base else p.seqNr - st.base + 0x1_0000;
    assert Ahead(p.seqNr, 0) <==> 0 < p.seqNr < 0x8000;
  }

  lemma ArriveKeepsDialed(st: Stream, open: bool, rx: Rx, out: seq<byte>, p: Segment)
    requires st.base < 0x7FFF && Genuine(st, p) && InRange(st) && rx.lastDropped == 0
    requires RxInv(st, rx.(lastDropped := st.base), out)
    ensures RxInv(st, Arrive(AsCommented, open, rx, p).(lastDropped := st.base), out)
    ensures Arrive(AsCommented, open, rx, p).lastDropped == 0
  {
    var rx1 := rx.(lastDropped := st.base);
    if p.ty.Data? {
      GenuineCarries(st, p);
      AheadAlike(st, p);
    }
    if p.ty.Data? && !Ahead(p.seqNr, 0) {
      RefusedKeeps(st, open, rx1, out, p);
    } else {
      TakenAlike(st, open, rx, p);
      ArriveKeeps(st, open, rx1, out, p);
    }
  }

  /** A packet that is refused, and not due, does no harm. */
  lemma RefusedKeeps(st: Stream, open: bool, rx: Rx, out: seq<byte>, p: Segment)
    requires RxInv(st, rx, out) && rx.lastDropped == st.base && Genuine(st, p) && Pos(st, p.seqNr) != 1
    ensures RxInv(st, rx.(ackNr := if open then Acknowledge(AsCommented, rx.ackNr, p) else rx.ackNr), out)
  {
    AcknowledgeKeeps(st, open, rx, out, p);
  }

  /** A flush does not look at the last number dropped, and at most replaces it. */
  lemma FlushIgnoresLast(rx: Rx, d: u16, n: nat)
    ensures Flush(rx.(lastDropped := d), n).1 == Flush(rx, n).1
    ensures Flush(rx.(lastDropped := d), n).0 == Flush(rx, n).0
         || (Flush(rx.(lastDropped := d), n).0 == Flush(rx, n).0.(lastDropped := d) &&
             Flush(rx, n).0.lastDropped == rx.lastDropped)
  {
  }

  lemma {:induction false} RunKeepsDialed(st: Stream, rx: Rx, out: seq<byte>, es: seq<Event>)
    requires st.base < 0x7FFF && DialedInv(st, rx, out) && GenuineRun(st, es) && HarmlessRunDialed(st, rx, es)
    ensures DialedInv(st, After(AsCommented, rx, out, es).0, After(AsCommented, rx, out, es).1)
    decreases |es|
  {
    if es != [] {
      var e := es[0];
      assert e in es;
      if RxInv(st, rx, out) {
        BegunIsAlike(st, rx, out);
        StepKeeps(st, rx, out, e);
      } else {
        StepKeepsDialed(st, rx, out, e);
      }
      RunKeepsDialed(st, Step(AsCommented, rx, e).0, out + Step(AsCommented, rx, e).1, es[1..]);
    }
  }

  lemma BegunIsAlike(st: Stream, rx: Rx, out: seq<byte>)
    requires st.base < 0x7FFF && RxInv(st, rx, out)
    ensures AsAccepted(st.base, rx) == rx
  {
    assert Count(st, rx) ==
        if rx.lastDropped >= st.base then rx.lastDropped - st.base else rx.lastDropped - st.base + 0x1_0000;
  }

  lemma StepKeepsDialed(st: Stream, rx: Rx, out: seq<byte>, e: Event)
    requires st.base < 0x7FFF && rx.lastDropped == 0 && RxInv(st, AsAccepted(st.base, rx), out) && InRange(st)
    requires (!e.Read? ==> Genuine(st, e.p)) && Harmless(st, AsAccepted(st.base, rx), e)
    ensures DialedInv(st, Step(AsCommented, rx, e).0, out + Step(AsCommented, rx, e).1)
  {
    if e.Unanswered? {
      UnansweredKeeps(st, AsAccepted(st.base, rx), out, e);
    } else {
      var rx1 := if e.Arrival? then Arrive(AsCommented, e.open, rx, e.p) else rx;
      if e.Arrival? {
        ArriveKeepsDialed(st, e.open, rx, out, e.p);
      }
      FlushKeeps(st, rx1.(lastDropped := st.base), out, e.n);
      FlushIgnoresLast(rx1, st.base, e.n);
    }
  }

  lemma DialedIsPrefix(st: Stream, rx: Rx, out: seq<byte>)
    requires DialedInv(st, rx, out)
    ensures out <= Flatten(st.chunks)
  {
    if RxInv(st, rx, out) {
      HandedIsPrefix(st, rx, out);
    } else {
      HandedIsPrefix(st, rx.(lastDropped := st.base), out);
    }
  }

  /** The connecting side differs from the accepting side at most in the last number dropped. */
  ghost predicate Alike(base: u16, rx: Rx, rx': Rx) {
    rx == rx' || (rx == rx'.(lastDropped := 0) && rx'.lastDropped == base)
  }

  lemma {:induction false} SameIfLow(st: Stream, rx: Rx, rx': Rx, out: seq<byte>, es: seq<Event>)
    requires InRange(st) && st.base as int + |st.chunks| < 0x8000 && GenuineRun(st, es)
    requires Alike(st.base, rx, rx')
    ensures After(AsCommented, rx, out, es).1 == After(AsCommented, rx', out, es).1
    decreases |es|
  {
    if es != [] {
      var e := es[0];
      assert e in es;
      SameStep(st, rx, rx', e);
      SameIfLow(st, Step(AsCommented, rx, e).0, Step(AsCommented, rx', e).0, out + Step(AsCommented, rx, e).1, es[1..]);
    }
  }

  lemma {:induction false} SamePrompt(st: Stream, rx: Rx, rx': Rx, es: seq<Event>)
    requires InRange(st) && st.base as int + |st.chunks| < 0x8000 && GenuineRun(st, es) && Alike(st.base, rx, rx')
    ensures PromptRun(st, rx, es) <==> PromptRun(st, rx', es)
    decreases |es|
  {
    if es != [] {
      assert es[0] in es;
      SameStep(st, rx, rx', es[0]);
      SamePrompt(st, Step(AsCommented, rx, es[0]).0, Step(AsCommented, rx', es[0]).0, es[1..]);
    }
  }

  lemma SameStep(st: Stream, rx: Rx, rx': Rx, e: Event)
    requires InRange(st) && st.base as int + |st.chunks| < 0x8000 && Alike(st.base, rx, rx')
    requires !e.Read? ==> Genuine(st, e.p)
    ensures Alike(st.base, Step(AsCommented, rx, e).0, Step(AsCommented, rx', e).0)
    ensures Step(AsCommented, rx, e).1 == Step(AsCommented, rx', e).1
  {
    if rx != rx' {
      if e.Arrival? {
        if e.p.ty.Data? {
          GenuineCarries(st, e.p);
          LowIsAhead(st, e.p);
        }
        TakenAlike(st, e.open, rx, e.p);
        FlushIgnoresLast(Arrive(AsCommented, e.open, rx, e.p), st.base, e.n);
      } else if e.Read? {
        FlushIgnoresLast(rx, st.base, e.n);
      }
    }
  }

  lemma LowIsAhead(st: Stream, p: Segment)
    requires InRange(st) && st.base as int + |st.chunks| < 0x8000 && Carries(st, p.seqNr, p.payload)
    ensures st.base < 0x7FFF && Ahead(p.seqNr, 0) && Ahead(p.seqNr, st.base)
  {
    NumberOfPos(st, p.seqNr);
    assert p.seqNr == st.base + Pos(st, p.seqNr);
  }

  // ---------- runs for which it fails ----------

  /** Once the first packet has been handed on there is no difference. */
  lemma SameOnceBegun(st: Stream, es: seq<Event>)
    requires st.base < 0x7FFF && Short(st) && st.chunks != [] && es != [] && es[0] == Carrying(st, 0, 2)
    ensures After(AsCommented, Dialed(st.base), [], es) == After(AsCommented, Fresh(st.base), [], es)
  {
    FirstEitherWay(st.base, st.base, PacketAt(st, 0));
    SameAfterFirst(Dialed(st.base), Fresh(st.base), es);
  }

  lemma SameAfterFirst(rx: Rx, rx': Rx, es: seq<Event>)
    requires es != [] && Step(AsCommented, rx, es[0]) == Step(AsCommented, rx', es[0])
    ensures After(AsCommented, rx, [], es) == After(AsCommented, rx', [], es)
  {
  }

  /** The accepting side, and the connecting side whichever number it has acknowledged, hand on the first packet
      alike. */
  lemma FirstEitherWay(base: u16, a: u16, p: Segment)
    requires p.ty.Data? && 0 < p.seqNr < 0x8000 && 0 < |p.payload| <= 2
    requires p.seqNr == Add16(base, 1) && (a == base || a == p.seqNr)
    ensures Step(AsCommented, Dialed(a), Arrival(p, true, 2)) == Step(AsCommented, Fresh(base), Arrival(p, true, 2))
  {
    NextInOrder(base, p);
    FirstInOrder(a, p);
  }

  /** The first packet is handed on, whether its number has been acknowledged before or not. */
  lemma FirstInOrder(a: u16, p: Segment)
    requires p.ty.Data? && 0 < p.seqNr < 0x8000 && 0 < |p.payload| <= 2
    requires p.seqNr == Add16(a, 1) || p.seqNr == a
    ensures Step(AsCommented, Dialed(a), Arrival(p, true, 2)) == (Fresh(p.seqNr), p.payload)
  {
    assert Arrive(AsCommented, true, Dialed(a), p) == Rx(p.seqNr, 0, [p], []);
    assert [p][1..] == [] && p.payload[..|p.payload|] == p.payload;
  }

  /** Nothing arrives that is new in comparison with 0. */
  ghost predicate NothingNew(es: seq<Event>) {
    forall e :: e in es && !e.Read? && e.p.ty.Data? ==> !Ahead(e.p.seqNr, 0)
  }

  /** Nothing from 2^15 on up to 0 is new in comparison with 0. */
  lemma HighIsOld(st: Stream, es: seq<Event>)
    requires st.chunks == [] || (st.base >= 0x7FFF && st.base as int + |st.chunks| <= 0x1_0000)
    requires GenuineRun(st, es)
    ensures NothingNew(es)
  {
    forall e | e in es && !e.Read? && e.p.ty.Data? ensures !Ahead(e.p.seqNr, 0) {
      var i: nat :| i < |st.chunks| && IsChunk(st, i, e.p);
    }
  }

  lemma {:induction false} NothingIsTaken(a: u16, es: seq<Event>)
    requires NothingNew(es)
    ensures After(AsCommented, Dialed(a), [], es).1 == []
    ensures After(AsCommented, Dialed(a), [], es).0 == Dialed(After(AsCommented, Dialed(a), [], es).0.ackNr)
    decreases |es|
  {
    if es != [] {
      var e := es[0];
      assert e in es;
      var none: seq<byte> := [];
      assert none + none == none &&
          Step(AsCommented, Dialed(a), e) == (Dialed(Step(AsCommented, Dialed(a), e).0.ackNr), none);
      NothingIsTaken(Step(AsCommented, Dialed(a), e).0.ackNr, es[1..]);
    }
  }

  /** Packets up to number 0 are acknowledged and refused, and then number 1 is handed on. */
  lemma OneIsFirst(base: u16, n: nat, k: nat) returns (st: Stream, es: seq<Event>)
    requires base >= 0x7FFF && base as int + k == 0x1_0000 && k < n
    ensures st.base == base && |st.chunks| == n && Short(st) && GenuineRun(st, es) && Answered(es)
    ensures !(After(AsCommented, Dialed(base), [], es).1 <= Flatten(st.chunks))
  {
    st := Marked(base, n, 0, [1], k, [2]);
    es := Ordered(st, k) + [Carrying(st, k, 1)];
    OrderedIsGenuine(st, k);
    RefusedInOrder(st, k);
    OneIsOut(st, Dialed(base), k);
    WrongAtOnce(st, 2);
  }

  lemma OneIsOut(st: Stream, rx: Rx, k: nat)
    requires st.base as int + k == 0x1_0000 && k < |st.chunks| && st.chunks[k] == [2]
    requires After(AsCommented, rx, [], Ordered(st, k)) == (Dialed(Add16(st.base, k)), [])
    ensures var none: seq<byte> := [];
            After(AsCommented, rx, none, Ordered(st, k) + [Carrying(st, k, 1)]).1 == none + [2]
  {
    AfterOneMore(AsCommented, rx, [], Ordered(st, k), Carrying(st, k, 1));
    OneIsTaken(PacketAt(st, k));
  }

  lemma WrongAtOnce(st: Stream, x: byte)
    requires st.chunks != [] && st.chunks[0] != [] && st.chunks[0][0] != x
    ensures var none: seq<byte> := []; !(none + [x] <= Flatten(st.chunks))
  {
    var none: seq<byte> := [];
    assert st.chunks[..0] == [] && UpTo(st, 0) == none && none + [x] == [x];
    WrongByte(st, 0, x);
  }

  lemma OneIsTaken(p: Segment)
    requires p.ty.Data? && p.seqNr == 1 && p.payload == [2]
    ensures Step(AsCommented, Dialed(0), Arrival(p, true, 1)).1 == [2]
  {
    assert p.payload[..1] == p.payload;
  }

  lemma {:induction false} RefusedInOrder(st: Stream, k: nat)
    requires st.base >= 0x7FFF && st.base as int + k <= 0x1_0000 && k <= |st.chunks|
    ensures After(AsCommented, Dialed(st.base), [], Ordered(st, k)) == (Dialed(Add16(st.base, k)), [])
  {
    if k > 0 {
      RefusedInOrder(st, k - 1);
      RefusedOneMore(st, Dialed(st.base), k - 1);
    }
  }

  /** After k packets have been refused, so is the next one. */
  lemma RefusedOneMore(st: Stream, rx: Rx, k: nat)
    requires st.base >= 0x7FFF && st.base as int + k < 0x1_0000 && k < |st.chunks|
    requires After(AsCommented, rx, [], Ordered(st, k)) == (Dialed(Add16(st.base, k)), [])
    ensures After(AsCommented, rx, [], Ordered(st, k + 1)) == (Dialed(Add16(st.base, k + 1)), [])
  {
    OrderedNext(st, k);
    AfterOneMore(AsCommented, rx, [], Ordered(st, k), Carrying(st, k, 2));
    HighNumber(st.base, k);
    RefusedNext(Add16(st.base, k), PacketAt(st, k));
    var none: seq<byte> := [];
    assert none + none == none;
  }

  lemma OrderedNext(st: Stream, k: nat)
    requires k < |st.chunks|
    ensures Ordered(st, k + 1) == Ordered(st, k) + [Carrying(st, k, 2)]
  {
  }

  lemma HighNumber(base: u16, k: nat)
    requires base >= 0x7FFF && base as int + k < 0x1_0000
    ensures Add16(base, k) == base + k && Add16(Add16(base, k), 1) == Add16(base, 1 + k) == Add16(base, k + 1)
  {
  }

  lemma RefusedNext(d: u16, p: Segment)
    requires p.ty.Data? && p.seqNr == Add16(d, 1) && d >= 0x7FFF
    ensures Step(AsCommented, Dialed(d), Arrival(p, true, 2)) == (Dialed(p.seqNr), [])
  {
  }

  /** A complete run that no reads complete. */
  lemma IncompleteDialed(base: u16, n: nat) returns (st: Stream, es: seq<Event>)
    requires n > 0 && base as int + n >= 0x8000
    ensures st.base == base && |st.chunks| == n && (forall c :: c in st.chunks ==> c != [])
    ensures Complete(st, Dialed(base), es)
    ensures After(AsCommented, Dialed(base), [], es + Repeated(|Flatten(st.chunks)|)).1 != Flatten(st.chunks)
  {
    if base < 0x7FFF && Add16(base, 1) as int + n <= 0x1_0000 && n <= 0x8002 {
      st := Marked(base, n, 0, [0], 0, [0]);
      es := [Carrying(st, n - 1, 2)] + Ordered(st, n - 1);
      LastFirstIsComplete(st, Dialed(base), n - 1);
      LastRefused(st, n - 1, |Flatten(st.chunks)|);
    } else if base >= 0x7FFF && base as int + n <= 0x1_0000 {
      st := Marked(base, n, 0, [0], 0, [0]);
      es := Ordered(st, n);
      NothingOfAll(st, base);
    } else {
      var es0;
      st, es0 := OutOfOrderDialed(base, n);
      es := es0 + Ordered(st, n);
      StaysWrong(st, Dialed(base), es0, Repeated(|Flatten(st.chunks)|));
    }
  }

  /** Everything arrives in order, and nothing is taken. */
  lemma NothingOfAll(st: Stream, a: u16)
    requires st.base >= 0x7FFF && st.base as int + |st.chunks| <= 0x1_0000 && st.chunks != [] && st.chunks[0] != []
    ensures Complete(st, Dialed(a), Ordered(st, |st.chunks|))
    ensures After(AsCommented, Dialed(a), [], Ordered(st, |st.chunks|) + Repeated(|Flatten(st.chunks)|)).1
         != Flatten(st.chunks)
  {
    OrderedIsGenuine(st, |st.chunks|);
    AnsweredIsPrompt(st, Dialed(a), Ordered(st, |st.chunks|));
    HighIsOld(st, Ordered(st, |st.chunks|) + Repeated(|Flatten(st.chunks)|));
    NothingIsTaken(a, Ordered(st, |st.chunks|) + Repeated(|Flatten(st.chunks)|));
    NotEmpty(st);
  }

  lemma NotEmpty(st: Stream)
    requires st.chunks != [] && st.chunks[0] != []
    ensures Flatten(st.chunks) != []
  {
    UpToIsPrefix(st, 1, |st.chunks|);
    assert st.chunks[..|st.chunks|] == st.chunks && st.chunks[..1][..0] == [] && st.chunks[..1][0] == st.chunks[0];
  }

  /** Bytes that are wrong stay so, even if all packets arrive afterwards. */
  lemma StaysWrong(st: Stream, rx: Rx, es: seq<Event>, rest: seq<Event>)
    requires GenuineRun(st, es) && Answered(es) && !(After(AsCommented, rx, [], es).1 <= Flatten(st.chunks))
    ensures Complete(st, rx, es + Ordered(st, |st.chunks|))
    ensures After(AsCommented, rx, [], es + Ordered(st, |st.chunks|) + rest).1 != Flatten(st.chunks)
  {
    var more := Ordered(st, |st.chunks|) + rest;
    CompletedBy(st, rx, es, |st.chunks|);
    assert es + Ordered(st, |st.chunks|) + rest == es + more;
    AfterBoth(AsCommented, rx, [], es, more);
    AfterGrows(AsCommented, After(AsCommented, rx, [], es).0, After(AsCommented, rx, [], es).1, more);
  }

  lemma OutOfOrderDialed(base: u16, n: nat) returns (st: Stream, es: seq<Event>)
    requires n > 0 && base as int + n >= 0x8000
    requires if base < 0x7FFF then !(Add16(base, 1) as int + n <= 0x1_0000 && n <= 0x8002)
             else base as int + n > 0x1_0000
    ensures st.base == base && |st.chunks| == n && Short(st) && GenuineRun(st, es) && Answered(es)
    ensures !(After(AsCommented, Dialed(base), [], es).1 <= Flatten(st.chunks))
  {
    if base < 0x7FFF {
      st, es := OutOfOrder(base, n);
      SameOnceBegun(st, es);
    } else {
      st, es := OneIsFirst(base, n, 0x1_0000 - base);
    }
  }

  /** The last packet, before any other, is refused; then the others arrive. */
  lemma LastRefused(st: Stream, k: nat, m: nat)
    requires Short(st) && k + 1 == |st.chunks| && 0 < k && st.base < 0x7FFF
    requires 0x8000 <= st.base as int + k + 1 <= 0xFFFF
    ensures After(AsCommented, Dialed(st.base), [],
            [Carrying(st, k, 2)] + Ordered(st, k) + Repeated(m)).1 != Flatten(st.chunks)
  {
    var es := Ordered(st, k) + Repeated(m);
    var all := [Carrying(st, k, 2)] + Ordered(st, k) + Repeated(m);
    assert all[0] == Carrying(st, k, 2) && all[1..] == es;
    var none: seq<byte> := [];
    assert Step(AsCommented, Dialed(st.base), Carrying(st, k, 2)) == (Dialed(st.base), none) && none + none == none;
    SameOnceBegun(st, es);
    InOrder(st, k);
    AfterBoth(AsCommented, Fresh(st.base), [], Ordered(st, k), Repeated(m));
    NothingToRead(Add16(st.base, k), UpTo(st, k), m);
    assert st.chunks[..k + 1] == st.chunks && st.chunks[..k + 1][..k] == st.chunks[..k];
  }
}
