/** The test of what is stored as written (utp/socket.go:405), with everything else as its comments say: any data packet
    but the one dropped last, so that packets handed on earlier are stored again. */
module Stale {
  import opened Bytes
  import opened Packet
  import opened Receive
  import opened Wrap

  function KeepStale(rx: Rx, p: Segment): Rx {
    if Admits(AsWritten, rx.lastDropped, p) && Insert(AsCommented, rx.buff, p).Stored? then
      rx.(buff := Insert(AsCommented, rx.buff, p).buff)
    else
      rx
  }

  function StepStale(rx: Rx, e: Event): (Rx, seq<byte>) {
    match e
    case Arrival(p, open, n) =>
      Flush(KeepStale(rx.(ackNr := if open then Acknowledge(AsCommented, rx.ackNr, p) else rx.ackNr), p), n)
    case Read(_) => Step(AsCommented, rx, e)
    case Unanswered(_, _) => Step(AsCommented, rx, e)
  }

  function AfterStale(rx: Rx, out: seq<byte>, es: seq<Event>): (Rx, seq<byte>)
    decreases |es|
  {
    if es == [] then (rx, out)
    else
      var (rx', bytes) := StepStale(rx, es[0]);
      AfterStale(rx', out + bytes, es[1..])
  }

  ghost predicate AlwaysInOrderStale(base: u16, n: nat) {
    forall st: Stream, es: seq<Event> ::
      st.base == base && |st.chunks| == n && GenuineRun(st, es) && HarmlessRunStale(st, Fresh(base), es) ==>
        AfterStale(Fresh(base), [], es).1 <= Flatten(st.chunks)
  }

  ghost predicate HarmlessRunStale(st: Stream, rx: Rx, es: seq<Event>)
    decreases |es|
  {
    es == [] || (Harmless(st, rx, es[0]) && HarmlessRunStale(st, StepStale(rx, es[0]).0, es[1..]))
  }

  lemma {:induction false} AnsweredIsHarmlessStale(st: Stream, rx: Rx, es: seq<Event>)
    requires Answered(es)
    ensures HarmlessRunStale(st, rx, es)
    decreases |es|
  {
    if es != [] {
      assert es[0] in es;
      AnsweredIsHarmlessStale(st, StepStale(rx, es[0]).0, es[1..]);
    }
  }

  /** With that test as written, in-order delivery is certain exactly for streams of at most two packets that do not
      wrap. */
  lemma InOrderStaleIff(base: u16, n: nat)
    ensures AlwaysInOrderStale(base, n) <==> n == 0 || (Add16(base, 1) as int + n <= 0x1_0000 && n <= 2)
  {
    if n == 0 || (Add16(base, 1) as int + n <= 0x1_0000 && n <= 2) {
      forall st: Stream, es: seq<Event> |
        st.base == base && |st.chunks| == n && GenuineRun(st, es) && HarmlessRunStale(st, Fresh(base), es)
        ensures AfterStale(Fresh(base), [], es).1 <= Flatten(st.chunks)
      {
        RunKeepsStale(st, Fresh(base), [], es);
        StaleIsPrefix(st, AfterStale(Fresh(base), [], es).0, AfterStale(Fresh(base), [], es).1);
      }
    } else {
      var st, es := OutOfOrderStale(base, n);
      AnsweredIsHarmlessStale(st, Fresh(base), es);
    }
  }

  // ---------- at most two packets ----------

  /** Both packets are out, and the first one may be buffered again. */
  ghost predicate BothOut(st: Stream, rx: Rx, out: seq<byte>) {
    && |st.chunks| == 2 && InRange(st) && Count(st, rx) == 2
    && rx.pending == [] && rx.ackNr == rx.lastDropped && out == UpTo(st, 2)
    && |rx.buff| <= 1 && (rx.buff != [] ==> Pos(st, rx.buff[0].seqNr) == 1)
  }

  ghost predicate StaleInv(st: Stream, rx: Rx, out: seq<byte>) {
    RxInv(st, rx, out) || BothOut(st, rx, out)
  }

  lemma SameKeep(st: Stream, rx: Rx, p: Segment)
    requires InRange(st) && |st.chunks| <= 2 && Genuine(st, p) && Count(st, rx) <= |st.chunks|
    ensures Count(st, rx) < 2 ==> KeepStale(rx, p) == Keep(AsCommented, rx, p)
  {
    if p.ty.Data? {
      GenuineCarries(st, p);
      SerialOrder(st, p.seqNr, rx.lastDropped);
      SamePos(st, p.seqNr, rx.lastDropped);
    }
  }

  lemma AllIsOut(st: Stream, rx: Rx, out: seq<byte>)
    requires RxInv(st, rx, out) && |st.chunks| == 2 && Count(st, rx) == 2
    ensures BothOut(st, rx, out)
  {
    assert forall p :: p in rx.buff ==> false;
  }

  lemma StepKeepsStale(st: Stream, rx: Rx, out: seq<byte>, e: Event)
    requires InRange(st) && |st.chunks| <= 2 && StaleInv(st, rx, out)
    requires (!e.Read? ==> Genuine(st, e.p)) && Harmless(st, rx, e)
    ensures StaleInv(st, StepStale(rx, e).0, out + StepStale(rx, e).1)
  {
    if RxInv(st, rx, out) && Count(st, rx) < 2 {
      if e.Arrival? {
        SameKeep(st, rx.(ackNr := if e.open then Acknowledge(AsCommented, rx.ackNr, e.p) else rx.ackNr), e.p);
      }
      StepKeeps(st, rx, out, e);
    } else {
      if RxInv(st, rx, out) {
        AllIsOut(st, rx, out);
      }
      BothOutStays(st, rx, out, e);
    }
  }

  lemma BothOutStays(st: Stream, rx: Rx, out: seq<byte>, e: Event)
    requires BothOut(st, rx, out) && (!e.Read? ==> Genuine(st, e.p))
    ensures BothOut(st, StepStale(rx, e).0, out + StepStale(rx, e).1)
  {
    assert out + [] == out;
    PosOfNext(st, rx.ackNr);
    if !e.Read? && e.p.ty.Data? {
      GenuineCarries(st, e.p);
      SerialOrder(st, e.p.seqNr, rx.lastDropped);
      SamePos(st, e.p.seqNr, rx.lastDropped);
      if rx.buff != [] {
        SamePos(st, e.p.seqNr, rx.buff[0].seqNr);
        assert CountBelow(rx.buff, e.p.seqNr) == if rx.buff[0].seqNr < e.p.seqNr then 1 else 0;
      }
    }
  }

  lemma {:induction false} RunKeepsStale(st: Stream, rx: Rx, out: seq<byte>, es: seq<Event>)
    requires InRange(st) && |st.chunks| <= 2 && StaleInv(st, rx, out) && GenuineRun(st, es)
    requires HarmlessRunStale(st, rx, es)
    ensures StaleInv(st, AfterStale(rx, out, es).0, AfterStale(rx, out, es).1)
    decreases |es|
  {
    if es != [] {
      assert es[0] in es;
      StepKeepsStale(st, rx, out, es[0]);
      RunKeepsStale(st, StepStale(rx, es[0]).0, out + StepStale(rx, es[0]).1, es[1..]);
    }
  }

  lemma StaleIsPrefix(st: Stream, rx: Rx, out: seq<byte>)
    requires StaleInv(st, rx, out)
    ensures out <= Flatten(st.chunks)
  {
    if RxInv(st, rx, out) {
      HandedIsPrefix(st, rx, out);
    } else {
      UpToIsPrefix(st, 2, |st.chunks|);
      assert st.chunks[..|st.chunks|] == st.chunks;
    }
  }

  // ---------- all others ----------

  lemma OutOfOrderStale(base: u16, n: nat) returns (st: Stream, es: seq<Event>)
    requires n > 0 && !(Add16(base, 1) as int + n <= 0x1_0000 && n <= 2)
    ensures st.base == base && |st.chunks| == n && GenuineRun(st, es) && Answered(es)
    ensures !(AfterStale(Fresh(base), [], es).1 <= Flatten(st.chunks))
  {
    if base == 0xFFFD || base == 0xFFFE {
      st, es := OvertakenStale(base, n, 0xFFFE - base);
    } else {
      st, es := RepeatedStale(base, n, 2);
    }
  }

  lemma TwoStale(rx: Rx, out: seq<byte>, e0: Event, e1: Event)
    ensures var (rx1, bytes1) := StepStale(rx, e0); var (rx2, bytes2) := StepStale(rx1, e1);
            AfterStale(rx, out, [e0, e1]) == (rx2, out + bytes1 + bytes2)
  {
    var (rx1, bytes1) := StepStale(rx, e0);
    assert [e0, e1][1..] == [e1] && [e1][1..] == [];
    assert AfterStale(rx1, out + bytes1, [e1]).1 == out + bytes1 + StepStale(rx1, e1).1;
  }

  lemma {:induction false} StaleBoth(rx: Rx, out: seq<byte>, es: seq<Event>, fs: seq<Event>)
    ensures AfterStale(rx, out, es + fs) == var (rx1, out1) := AfterStale(rx, out, es); AfterStale(rx1, out1, fs)
    decreases |es|
  {
    if es == [] {
      assert es + fs == fs;
    } else {
      var (rx', bytes) := StepStale(rx, es[0]);
      StaleBoth(rx', out + bytes, es[1..], fs);
      assert (es + fs)[1..] == es[1..] + fs;
    }
  }

  lemma {:induction false} InOrderStale(st: Stream, k: nat)
    requires Short(st) && k <= |st.chunks|
    ensures AfterStale(Fresh(st.base), [], Ordered(st, k)) == (Fresh(Add16(st.base, k)), UpTo(st, k))
  {
    if k > 0 {
      InOrderStale(st, k - 1);
      var last := [Carrying(st, k - 1, 2)];
      assert Ordered(st, k) == Ordered(st, k - 1) + last && last[1..] == [];
      StaleBoth(Fresh(st.base), [], Ordered(st, k - 1), last);
      OneFurther(st.base, k - 1);
      NextStale(Add16(st.base, k - 1), PacketAt(st, k - 1), 2);
      assert st.chunks[..k][..k - 1] == st.chunks[..k - 1];
    }
  }

  lemma NextStale(d: u16, p: Segment, n: nat)
    requires p.ty.Data? && p.seqNr == Add16(d, 1) && 0 < |p.payload| <= n
    ensures StepStale(Fresh(d), Arrival(p, true, n)) == (Fresh(p.seqNr), p.payload)
  {
    assert KeepStale(Rx(p.seqNr, d, [], []), p) == Rx(p.seqNr, d, [p], []);
    assert [p][1..] == [] && p.payload[..|p.payload|] == p.payload;
  }

  /** 65534 or nothing in order, then 0, then 65535. */
  lemma OvertakenStale(base: u16, n: nat, k: nat) returns (st: Stream, es: seq<Event>)
    requires base as int + k == 0xFFFE && k + 1 < n
    ensures st.base == base && |st.chunks| == n && GenuineRun(st, es) && Answered(es)
    ensures !(AfterStale(Fresh(base), [], es).1 <= Flatten(st.chunks))
  {
    st := Marked(base, n, k, [1], k + 1, [2]);
    var zero, last := Carrying(st, k + 1, 1), Carrying(st, k, 1);
    es := Ordered(st, k) + [zero, last];
    InOrderStale(st, k);
    OrderedIsGenuine(st, k);
    NumbersAtWrap(base, k);
    StaleBoth(Fresh(base), [], Ordered(st, k), [zero, last]);
    WrapStale(zero.p, last.p);
    TwoStale(Fresh(0xFFFE), UpTo(st, k), zero, last);
    assert UpTo(st, k) + [] + [2] == UpTo(st, k) + [2];
    WrongByte(st, k, 2);
  }

  lemma WrapStale(zero: Segment, last: Segment)
    requires zero.ty.Data? && last.ty.Data? && zero.seqNr == 0 && last.seqNr == 0xFFFF && zero.payload == [2]
    ensures StepStale(Fresh(0xFFFE), Arrival(zero, true, 1)) == (Rx(0xFFFE, 0xFFFE, [zero], []), [])
    ensures StepStale(Rx(0xFFFE, 0xFFFE, [zero], []), Arrival(last, true, 1)) == (Rx(0, 0, [last], []), [2])
  {
    assert CountBelow([zero], 0xFFFF) == 1;
    assert [zero, last][1..] == [last] && [2][..1] == [2];
  }

  /** Two packets in order, the first byte of the third, then the first one again, which is dropped in place of the
      third when that has been read, and the second one again. */
  lemma RepeatedStale(base: u16, n: nat, k: nat) returns (st: Stream, es: seq<Event>)
    requires k == 2 < n && base != 0xFFFD && base != 0xFFFE
    ensures st.base == base && |st.chunks| == n && GenuineRun(st, es) && Answered(es)
    ensures !(AfterStale(Fresh(base), [], es).1 <= Flatten(st.chunks))
  {
    st := Marked(base, n, 1, [3], k, [1, 2]);
    es := Ordered(st, k) + Thrice(st, k);
    OrderedIsGenuine(st, k);
    RepeatedOut(st, k);
    WrongByte(st, k + 1, 3);
  }

  lemma RepeatedOut(st: Stream, k: nat)
    requires Short(st) && k == 2 < |st.chunks| && st.base != 0xFFFD && st.base != 0xFFFE
    requires st.chunks[1] == [3] && st.chunks[k] == [1, 2]
    ensures AfterStale(Fresh(st.base), [], Ordered(st, k) + Thrice(st, k)).1 == UpTo(st, k + 1) + [3]
  {
    InOrderStale(st, k);
    StaleBoth(Fresh(st.base), [], Ordered(st, k), Thrice(st, k));
    ThreeInRow(st.base);
    RepeatsStale(Add16(st.base, 1), PacketAt(st, k), PacketAt(st, 0), PacketAt(st, 1));
    ThreeStale(Fresh(Add16(st.base, k)), UpTo(st, k), Carrying(st, k, 1), Carrying(st, 0, 1), Carrying(st, 1, 1));
    ThirdAndSecond(st, k);
  }

  lemma ThirdAndSecond(st: Stream, k: nat)
    requires k < |st.chunks| && st.chunks[k] == [1, 2]
    ensures UpTo(st, k) + [1] + [2] + [3] == UpTo(st, k + 1) + [3]
  {
    assert st.chunks[..k + 1][..k] == st.chunks[..k];
    assert UpTo(st, k) + [1] + [2] == UpTo(st, k) + [1, 2];
  }

  lemma ThreeStale(rx: Rx, out: seq<byte>, e0: Event, e1: Event, e2: Event)
    ensures var (rx1, bytes1) := StepStale(rx, e0); var (rx2, bytes2) := StepStale(rx1, e1);
            AfterStale(rx, out, [e0, e1, e2]).1 == out + bytes1 + bytes2 + StepStale(rx2, e2).1
  {
    var (rx1, bytes1) := StepStale(rx, e0);
    assert [e0, e1, e2][1..] == [e1, e2];
    TwoStale(rx1, out + bytes1, e1, e2);
  }

  lemma ThreeInRow(base: u16)
    requires base != 0xFFFD && base != 0xFFFE
    ensures Add16(base, 2) == Add16(base, 1) + 1 && Add16(base, 3) == Add16(base, 1) + 2
  {
  }

  lemma RepeatsStale(f: u16, last: Segment, p: Segment, q: Segment)
    requires f as int + 2 < 0x1_0000 && last.ty.Data? && p.ty.Data? && q.ty.Data?
    requires last.seqNr == f + 2 && p.seqNr == f && q.seqNr == f + 1 && last.payload == [1, 2] && q.payload == [3]
    ensures StepStale(Fresh(f + 1), Arrival(last, true, 1)) == (Rx(f + 2, f + 1, [last], [2]), [1])
    ensures StepStale(Rx(f + 2, f + 1, [last], [2]), Arrival(p, true, 1)) == (Rx(f, f, [last], []), [2])
    ensures StepStale(Rx(f, f, [last], []), Arrival(q, true, 1)).1 == [3]
  {
    assert [1, 2][..1] == [1] && [1, 2][1..] == [2] && [2][..1] == [2] && [3][..1] == [3];
    InFront(last, p);
    InFront(last, q);
  }
}
