/** What a reply that cannot be written does to delivery: the packet counts as acknowledged, but recv returns before it
    stores it. */
module Replies {
  import opened Bytes
  import opened Packet
  import opened Receive
  import opened Wrap

  /** Packet 6 is acknowledged and its reply fails; then packet 7 is handed on, and packet 6 is refused for good. */
  lemma FailedReplySkips()
    ensures var six, seven := Segment(Data, 0, 0, 6, 0, [1]), Segment(Data, 0, 0, 7, 0, [2]);
            && After(AsCommented, Fresh(5), [], [Unanswered(six, true), Arrival(seven, true, 1)]) == (Fresh(7), [2])
            && Step(AsCommented, Fresh(7), Arrival(six, true, 1)) == (Fresh(7), [])
  {
    var six, seven := Segment(Data, 0, 0, 6, 0, [1]), Segment(Data, 0, 0, 7, 0, [2]);
    var e0, e1 := Unanswered(six, true), Arrival(seven, true, 1);
    var rx, none: seq<byte> := Rx(6, 5, [], []), [];
    assert Step(AsCommented, rx, e1) == (Fresh(7), [2]) by {
      assert [seven][1..] == [] && [2][..1] == [2];
    }
    assert [e0, e1][1..] == [e1] && [e1][1..] == [] && none + none == none && none + [2] == [2];
    assert After(AsCommented, rx, none, [e1]) == (Fresh(7), [2]);
  }

  /** Packets are dropped one after the other, none left out. */
  ghost predicate NoSkip(st: Stream, rx: Rx, es: seq<Event>)
    decreases |es|
  {
    es == [] ||
    var rx' := Step(AsCommented, rx, es[0]).0;
    Count(st, rx) <= Count(st, rx') <= Count(st, rx) + 1 && NoSkip(st, rx', es[1..])
  }

  lemma {:induction false} HarmlessSkipsNone(st: Stream, rx: Rx, out: seq<byte>, es: seq<Event>)
    requires RxInv(st, rx, out) && GenuineRun(st, es) && HarmlessRun(st, rx, es)
    ensures NoSkip(st, rx, es)
    decreases |es|
  {
    if es != [] {
      assert es[0] in es;
      StepKeeps(st, rx, out, es[0]);
      HarmlessSkipsNone(st, Step(AsCommented, rx, es[0]).0, out + Step(AsCommented, rx, es[0]).1, es[1..]);
    }
  }

  /** Whatever arrives from rx on, if all of it is answered, no packet is left out. */
  ghost predicate Safe(st: Stream, rx: Rx) {
    forall es :: GenuineRun(st, es) && Answered(es) ==> NoSkip(st, rx, es)
  }

  /** In a reachable state a failed reply can make the socket leave out a packet if and only if it is the reply to the
      packet that is due, nothing is pending, that packet is not buffered yet, and there is another one after it. */
  lemma FailedReplyIff(st: Stream, rx: Rx, out: seq<byte>, e: Event)
    requires RxInv(st, rx, out) && e.Unanswered? && Genuine(st, e.p)
    ensures Safe(st, Step(AsCommented, rx, e).0) <==> Harmless(st, rx, e)
  {
    var rx' := Step(AsCommented, rx, e).0;
    if Harmless(st, rx, e) {
      UnansweredKeeps(st, rx, out, e);
      forall es | GenuineRun(st, es) && Answered(es) ensures NoSkip(st, rx', es) {
        AnsweredIsPrompt(st, rx', es);
        HarmlessSkipsNone(st, rx', out + Step(AsCommented, rx, e).1, es);
      }
    } else {
      var next := NextIsSkippedTo(st, rx, out, e);
      assert [next][0] == next;
      assert GenuineRun(st, [next]) && Answered([next]);
    }
  }

  /** After a failed reply that does harm, the packet after the one that is due is handed on. */
  lemma NextIsSkippedTo(st: Stream, rx: Rx, out: seq<byte>, e: Event) returns (next: Event)
    requires RxInv(st, rx, out) && e.Unanswered? && Genuine(st, e.p) && !Harmless(st, rx, e)
    ensures next.Arrival? && Genuine(st, next.p)
    ensures Count(st, Step(AsCommented, Step(AsCommented, rx, e).0, next).0) == Count(st, rx) + 2
  {
    GenuineCarries(st, e.p);
    if Over(st, rx, out) {
      SerialOrder(st, e.p.seqNr, rx.ackNr);
      assert false;
    }
    var c := Count(st, rx);
    HarmIsNext(st, rx, out, e);
    var q := Segment(Data, 0, 0, Add16(st.base, c + 2), 0, st.chunks[c + 1]);
    assert IsChunk(st, c + 1, q);
    PosOfNumber(st, c + 2);
    next := Arrival(q, true, |q.payload|);
    HandsOnNext(st, Step(AsCommented, rx, e).0, q);
  }

  lemma HarmIsNext(st: Stream, rx: Rx, out: seq<byte>, e: Event)
    requires BufferInv(st, rx) && AckSafe(st, rx) && e.Unanswered? && !Harmless(st, rx, e)
    requires Carries(st, e.p.seqNr, e.p.payload)
    ensures rx.ackNr == rx.lastDropped && Pos(st, e.p.seqNr) == Count(st, rx) + 1 < |st.chunks|
  {
    SerialOrder(st, e.p.seqNr, rx.ackNr);
  }

  /** The number of the packet that is due has been acknowledged, and the packet after it arrives. */
  lemma HandsOnNext(st: Stream, rx: Rx, q: Segment)
    requires BufferInv(st, rx) && rx.pending == [] && !HeadDue(st, rx) && q.ty.Data?
    requires Pos(st, rx.ackNr) == Count(st, rx) + 1 && Pos(st, q.seqNr) == Count(st, rx) + 2
    requires Carries(st, q.seqNr, q.payload)
    ensures Count(st, Step(AsCommented, rx, Arrival(q, true, |q.payload|)).0) == Count(st, rx) + 2
  {
    SerialOrder(st, q.seqNr, rx.lastDropped);
    SerialOrder(st, q.seqNr, rx.ackNr);
    var buff' := InsertKeeps(st, rx, q);
    var rx' := Rx(q.seqNr, rx.lastDropped, buff', []);
    assert Arrive(AsCommented, true, rx, q) == rx';
    FrontIsNext(st, rx, rx', q);
  }

  lemma FrontIsNext(st: Stream, rx: Rx, rx': Rx, q: Segment)
    requires BufferInv(st, rx) && BufferInv(st, rx') && rx'.lastDropped == rx.lastDropped && !HeadDue(st, rx)
    requires Insert(AsCommented, rx.buff, q) == Stored(rx'.buff) && Buffered(rx'.buff, q.seqNr)
    requires Pos(st, q.seqNr) == Count(st, rx) + 2 && Carries(st, q.seqNr, q.payload)
    ensures rx'.buff[0].seqNr == q.seqNr && rx'.buff[0].payload == q.payload
  {
    var i :| 0 <= i < |rx'.buff| && rx'.buff[i].seqNr == q.seqNr;
    var first := rx'.buff[0];
    assert first in rx'.buff && rx'.buff[i] in rx'.buff;
    InsertIsSortedInsertion(AsCommented, rx.buff, q);
    if Pos(st, first.seqNr) == Count(st, rx) + 1 {
      assert first in rx.buff;
      FirstIsDue(st, rx, first);
      assert false;
    }
    PlainOrder(st, first.seqNr, q.seqNr);
  }

  lemma {:induction false} HarmlessBoth(st: Stream, rx: Rx, es: seq<Event>, fs: seq<Event>)
    requires HarmlessRun(st, rx, es) && Answered(fs)
    ensures HarmlessRun(st, rx, es + fs)
    decreases |es|
  {
    if es == [] {
      assert es + fs == fs;
      AnsweredIsPrompt(st, rx, fs);
    } else {
      assert (es + fs)[1..] == es[1..] + fs;
      HarmlessBoth(st, Step(AsCommented, rx, es[0]).0, es[1..], fs);
    }
  }

  /** No packet is ever left out, in this run or in any that begins like it and goes on with replies that are
      written. */
  ghost predicate InSequence(st: Stream, rx: Rx, es: seq<Event>) {
    forall k, fs :: 0 <= k <= |es| && GenuineRun(st, fs) && Answered(fs) ==> NoSkip(st, rx, es[..k] + fs)
  }

  lemma {:induction false} HarmlessPart(st: Stream, rx: Rx, es: seq<Event>, k: nat)
    requires HarmlessRun(st, rx, es) && k <= |es|
    ensures HarmlessRun(st, rx, es[..k])
    decreases |es|
  {
    if k > 0 {
      assert es[..k][1..] == es[1..][..k - 1];
      HarmlessPart(st, Step(AsCommented, rx, es[0]).0, es[1..], k - 1);
    }
  }

  /** A run that is not harmless can go on so that a packet is left out. */
  lemma {:induction false} HarmSkips(st: Stream, rx: Rx, out: seq<byte>, es: seq<Event>)
      returns (k: nat, fs: seq<Event>)
    requires RxInv(st, rx, out) && GenuineRun(st, es) && !HarmlessRun(st, rx, es)
    ensures k <= |es| && GenuineRun(st, fs) && Answered(fs) && !NoSkip(st, rx, es[..k] + fs)
    decreases |es|
  {
    assert es[0] in es;
    var (rx', bytes) := Step(AsCommented, rx, es[0]);
    if Harmless(st, rx, es[0]) {
      StepKeeps(st, rx, out, es[0]);
      k, fs := HarmSkips(st, rx', out + bytes, es[1..]);
      assert (es[..k + 1] + fs)[1..] == es[1..][..k] + fs;
      k := k + 1;
    } else {
      FailedReplyIff(st, rx, out, es[0]);
      fs :| GenuineRun(st, fs) && Answered(fs) && !NoSkip(st, rx', fs);
      k := 1;
      assert (es[..1] + fs)[1..] == fs;
    }
  }

  /** Delivery in the face of failed replies, exactly: over every run, packets are handed on in sequence if and only if
      no failed reply does harm. */
  lemma InSequenceIff(st: Stream, es: seq<Event>)
    requires InRange(st) && GenuineRun(st, es)
    ensures InSequence(st, Fresh(st.base), es) <==> HarmlessRun(st, Fresh(st.base), es)
  {
    var rx := Fresh(st.base);
    if HarmlessRun(st, rx, es) {
      forall k, fs | 0 <= k <= |es| && GenuineRun(st, fs) && Answered(fs) ensures NoSkip(st, rx, es[..k] + fs) {
        HarmlessPart(st, rx, es, k);
        HarmlessBoth(st, rx, es[..k], fs);
        HarmlessSkipsNone(st, rx, [], es[..k] + fs);
      }
    } else {
      var k, fs := HarmSkips(st, rx, [], es);
    }
  }

  // ---------- complete delivery ----------

  /** Packet 7 arrives before packet 6, and once more, and this time the reply to it fails; then packet 8 arrives. All
      of them have been answered once, and yet packet 7 stays in the buffer: the number acknowledged last is beyond it,
      and no read and no packet of the stream changes that. */
  lemma FailedReplyStalls(n: nat, more: seq<Event>)
    requires GenuineRun(Stream(5, [[1], [2], [3]]), more)
    ensures var six, seven, eight := Numbered(6, 1), Numbered(7, 2), Numbered(8, 3);
            var es := [Arrival(seven, true, 1), Arrival(six, true, 1), Unanswered(seven, true),
                Arrival(eight, true, 1)];
            && After(AsCommented, Fresh(5), [], es) == (Rx(8, 6, [seven, eight], []), [1])
            && Flush(Rx(8, 6, [seven, eight], []), n) == (Rx(8, 6, [seven, eight], []), [])
            && After(AsCommented, Rx(8, 6, [seven, eight], []), [1], more).1 == [1]
  {
    var six, seven, eight := Numbered(6, 1), Numbered(7, 2), Numbered(8, 3);
    var e0, e1, e2, e3 :=
        Arrival(seven, true, 1), Arrival(six, true, 1), Unanswered(seven, true), Arrival(eight, true, 1);
    var rx0, rx1 := Rx(5, 5, [seven], []), Rx(6, 6, [seven], []);
    var none: seq<byte> := [];
    assert none + none == none && none + [1] == [1];
    TwoEvents(Fresh(5), none, e0, e1);
    SixBeforeSeven(six, seven);
    TwoEvents(rx1, [1], e2, e3);
    EightStalls(seven, eight);
    assert [1] + none + none == [1];
    AfterBoth(AsCommented, Fresh(5), none, [e0, e1], [e2, e3]);
    assert [e0, e1] + [e2, e3] == [e0, e1, e2, e3];
    SevenIsStalled(seven, eight, more);
  }

  /** The data packet numbered s with one byte. */
  function Numbered(s: u16, x: byte): Segment {
    Segment(Data, 0, 0, s, 0, [x])
  }

  lemma SixBeforeSeven(six: Segment, seven: Segment)
    requires six == Numbered(6, 1) && seven == Numbered(7, 2)
    ensures Step(AsCommented, Fresh(5), Arrival(seven, true, 1)) == (Rx(5, 5, [seven], []), [])
    ensures Step(AsCommented, Rx(5, 5, [seven], []), Arrival(six, true, 1)) == (Rx(6, 6, [seven], []), [1])
  {
    InFront(seven, six);
    assert [1][..1] == [1];
  }

  lemma EightStalls(seven: Segment, eight: Segment)
    requires seven == Numbered(7, 2) && eight == Numbered(8, 3)
    ensures Step(AsCommented, Rx(6, 6, [seven], []), Unanswered(seven, true)) == (Rx(7, 6, [seven], []), [])
    ensures Step(AsCommented, Rx(7, 6, [seven], []), Arrival(eight, true, 1)) == (Rx(8, 6, [seven, eight], []), [])
  {
    assert Insert(AsCommented, [seven], eight) == Stored([seven, eight]) by {
      assert [seven] + [eight] == [seven, eight];
    }
    assert Arrive(AsCommented, true, Rx(7, 6, [seven], []), eight) == Rx(8, 6, [seven, eight], []);
  }

  lemma SevenIsStalled(seven: Segment, eight: Segment, more: seq<Event>)
    requires seven == Numbered(7, 2) && eight == Numbered(8, 3) && GenuineRun(Stream(5, [[1], [2], [3]]), more)
    ensures After(AsCommented, Rx(8, 6, [seven, eight], []), [1], more).1 == [1]
  {
    StalledRun(Stream(5, [[1], [2], [3]]), Rx(8, 6, [seven, eight], []), [1], more);
  }

  /** The packet that is due is in front of the buffer, and a later number has been acknowledged. */
  ghost predicate Stalled(st: Stream, rx: Rx) {
    && BufferInv(st, rx) && |st.chunks| < 0x8000 && rx.pending == [] && HeadDue(st, rx)
    && Count(st, rx) + 1 < Pos(st, rx.ackNr) <= |st.chunks|
  }

  lemma StalledFlush(st: Stream, rx: Rx, n: nat)
    requires Stalled(st, rx)
    ensures Flush(rx, n) == (rx, [])
  {
    PosOfNext(st, rx.ackNr);
  }

  lemma StalledStep(st: Stream, rx: Rx, e: Event)
    requires Stalled(st, rx) && (!e.Read? ==> Genuine(st, e.p))
    ensures Stalled(st, Step(AsCommented, rx, e).0) && Step(AsCommented, rx, e).1 == []
  {
    var rx1 := rx;
    if !e.Read? {
      if e.p.ty.Data? {
        GenuineCarries(st, e.p);
        SerialOrder(st, e.p.seqNr, rx.ackNr);
      }
      rx1 := rx.(ackNr := if e.open then Acknowledge(AsCommented, rx.ackNr, e.p) else rx.ackNr);
      if e.Arrival? {
        KeepKeeps(st, rx1, e.p);
        rx1 := Keep(AsCommented, rx1, e.p);
      }
    }
    if !e.Unanswered? {
      StalledFlush(st, rx1, e.n);
    }
  }

  lemma {:induction false} StalledRun(st: Stream, rx: Rx, out: seq<byte>, es: seq<Event>)
    requires Stalled(st, rx) && GenuineRun(st, es)
    ensures After(AsCommented, rx, out, es).1 == out
    decreases |es|
  {
    if es != [] {
      assert es[0] in es && out + [] == out;
      StalledStep(st, rx, es[0]);
      StalledRun(st, Step(AsCommented, rx, es[0]).0, out, es[1..]);
    }
  }

  lemma NotPromptIsNext(st: Stream, rx: Rx, out: seq<byte>, e: Event)
    requires RxInv(st, rx, out) && AckExact(st, rx) && |st.chunks| < 0x8000 && !e.Read? && Genuine(st, e.p)
    requires !Prompt(st, rx, e)
    ensures BufferInv(st, rx) && rx.pending == [] && rx.ackNr == rx.lastDropped && out == UpTo(st, Count(st, rx))
    ensures e.Unanswered? && Step(AsCommented, rx, e) == (rx.(ackNr := e.p.seqNr), [])
    ensures Carries(st, e.p.seqNr, e.p.payload) && Pos(st, e.p.seqNr) == Count(st, rx) + 1 < |st.chunks|
  {
    GenuineCarries(st, e.p);
    SerialOrder(st, e.p.seqNr, rx.ackNr);
  }

  /** The packet after the one that is due, read at once. */
  function Following(st: Stream, c: nat): (next: Event)
    requires c + 1 < |st.chunks|
    ensures next.Arrival? && next.p.ty.Data? && next.open && IsChunk(st, c + 1, next.p)
  {
    Arrival(Segment(Data, 0, 0, Add16(st.base, c + 2), 0, st.chunks[c + 1]), true, |st.chunks[c + 1]|)
  }

  /** If the packet that is due is buffered when the reply to it fails, and the one after it arrives next, not another
      byte is ever handed on. */
  lemma FailedReplyStallsForGood(st: Stream, rx: Rx, out: seq<byte>, e: Event, es: seq<Event>)
    requires RxInv(st, rx, out) && AckExact(st, rx) && |st.chunks| < 0x8000 && !e.Read? && Genuine(st, e.p)
    requires !Prompt(st, rx, e) && HeadDue(st, rx) && GenuineRun(st, es)
    ensures Count(st, rx) + 1 < |st.chunks|
    ensures After(AsCommented, Step(AsCommented, rx, e).0, out, [Following(st, Count(st, rx))] + es).1 == out
  {
    NotPromptIsNext(st, rx, out, e);
    var rx1, next := Step(AsCommented, rx, e).0, Following(st, Count(st, rx));
    PosOfNumber(st, Count(st, rx) + 2);
    SerialOrder(st, next.p.seqNr, rx1.ackNr);
    KeepKeeps(st, rx1.(ackNr := next.p.seqNr), next.p);
    var rx2 := Arrive(AsCommented, true, rx1, next.p);
    StalledFlush(st, rx2, next.n);
    StalledRun(st, rx2, out, es);
    assert ([next] + es)[1..] == es && out + [] == out;
  }

  /** Bytes handed on before make no difference to those handed on from now on. */
  lemma {:induction false} AfterAppends(rx: Rx, out: seq<byte>, out': seq<byte>, es: seq<Event>)
    ensures |After(AsCommented, rx, out, es).1| - |out| == |After(AsCommented, rx, out', es).1| - |out'|
    decreases |es|
  {
    if es != [] {
      var (rx', bytes) := Step(AsCommented, rx, es[0]);
      AfterAppends(rx', out + bytes, out' + bytes, es[1..]);
    }
  }

  /** If it is not buffered, that packet is left out for good. */
  lemma FailedReplySkipsForGood(st: Stream, rx: Rx, out: seq<byte>, e: Event, es: seq<Event>)
    requires RxInv(st, rx, out) && AckExact(st, rx) && |st.chunks| < 0x8000 && !e.Read? && Genuine(st, e.p)
    requires !Prompt(st, rx, e) && !HeadDue(st, rx) && (forall d :: d in st.chunks ==> d != [])
    requires GenuineRun(st, es) && Answered(es)
    ensures Count(st, rx) + 1 < |st.chunks|
    ensures |After(AsCommented, Step(AsCommented, rx, e).0, out, [Following(st, Count(st, rx))] + es).1|
          < |Flatten(st.chunks)|
  {
    NotPromptIsNext(st, rx, out, e);
    var c := Count(st, rx);
    var rx1, next := Step(AsCommented, rx, e).0, Following(st, c);
    PosOfNumber(st, c + 2);
    var rx2 := NextIsHandedOn(st, rx1, next.p);
    assert ([next] + es)[1..] == es;
    AtMostTheRest(st, rx2, c + 2, es);
    AfterAppends(rx2, UpTo(st, c + 2), out + next.p.payload, es);
    OneIsMissing(st, c);
  }

  lemma AtMostTheRest(st: Stream, rx: Rx, k: nat, es: seq<Event>)
    requires k <= |st.chunks| && RxInv(st, rx, UpTo(st, k)) && GenuineRun(st, es) && Answered(es)
    ensures |After(AsCommented, rx, UpTo(st, k), es).1| <= |Flatten(st.chunks)|
  {
    AnsweredIsPrompt(st, rx, es);
    RunKeeps(st, rx, UpTo(st, k), es);
    HandedIsPrefix(st, After(AsCommented, rx, UpTo(st, k), es).0, After(AsCommented, rx, UpTo(st, k), es).1);
  }

  lemma OneIsMissing(st: Stream, c: nat)
    requires c + 1 < |st.chunks| && forall d :: d in st.chunks ==> d != []
    ensures |UpTo(st, c)| + |st.chunks[c + 1]| < |UpTo(st, c + 2)|
  {
    assert st.chunks[..c + 2][..c + 1] == st.chunks[..c + 1] && st.chunks[..c + 1][..c] == st.chunks[..c];
    assert UpTo(st, c + 2) == UpTo(st, c + 1) + st.chunks[c + 1] && UpTo(st, c + 1) == UpTo(st, c) + st.chunks[c];
    assert st.chunks[c] in st.chunks;
  }

  /** The socket is then where it would be if it had handed on both packets. */
  lemma NextIsHandedOn(st: Stream, rx: Rx, q: Segment) returns (rx': Rx)
    requires BufferInv(st, rx) && rx.pending == [] && !HeadDue(st, rx) && q.ty.Data? && |st.chunks| < 0x8000
    requires Pos(st, rx.ackNr) == Count(st, rx) + 1 && Pos(st, q.seqNr) == Count(st, rx) + 2
    requires Carries(st, q.seqNr, q.payload)
    ensures Step(AsCommented, rx, Arrival(q, true, |q.payload|)) == (rx', q.payload)
    ensures RxInv(st, rx', UpTo(st, Count(st, rx) + 2))
  {
    SerialOrder(st, q.seqNr, rx.lastDropped);
    SerialOrder(st, q.seqNr, rx.ackNr);
    var buff' := InsertKeeps(st, rx, q);
    var arrived := Rx(q.seqNr, rx.lastDropped, buff', []);
    assert Arrive(AsCommented, true, rx, q) == arrived;
    FrontIsNext(st, rx, arrived, q);
    rx' := Advance(arrived);
    assert q.payload[..|q.payload|] == q.payload;
    var skipped := arrived.(lastDropped := rx.ackNr);
    forall p | p in buff' ensures Pos(st, p.seqNr) > Count(st, rx) + 1 {
      PlainOrder(st, buff'[0].seqNr, p.seqNr);
      FirstIsLeast(buff', p);
    }
    AdvanceKeeps(st, skipped);
    UpToNext(st, q);
  }

  lemma FirstIsLeast(buff: seq<Segment>, p: Segment)
    requires Sorted(buff) && p in buff
    ensures buff[0].seqNr <= p.seqNr
  {
    var i :| 0 <= i < |buff| && buff[i] == p;
  }

  /** As long as the replies that fail from here on are prompt, the whole stream has been handed on once every packet that
      is missing has arrived and been answered, and enough reads have taken place. */
  ghost predicate Completable(st: Stream, rx: Rx, out: seq<byte>) {
    forall es, rest :: Completes(st, rx, es, rest) ==> After(AsCommented, rx, out, es + rest).1 == Flatten(st.chunks)
  }

  ghost predicate Completes(st: Stream, rx: Rx, es: seq<Event>, rest: seq<Event>) {
    && GenuineRun(st, es) && PromptRun(st, rx, es) && Reads(rest) && |rest| >= |Flatten(st.chunks)|
    && forall i :: 0 <= i < |st.chunks| ==> Has(st, rx, Add16(st.base, 1 + i)) || Includes(st, es, i)
  }

  lemma ExactIsCompletable(st: Stream, rx: Rx, out: seq<byte>)
    requires RxInv(st, rx, out) && AckExact(st, rx) && |st.chunks| < 0x8000 && forall c :: c in st.chunks ==> c != []
    ensures Completable(st, rx, out)
  {
    forall es, rest | Completes(st, rx, es, rest)
      ensures After(AsCommented, rx, out, es + rest).1 == Flatten(st.chunks)
    {
      RestIsComplete(st, rx, out, es, rest);
    }
  }

  /** In a reachable state a failed reply can keep delivery from ever being complete if and only if it is not prompt: if
      it is the reply to the packet that is due, with nothing pending, and there is another one after it. */
  lemma FailedReplyCompletesIff(st: Stream, rx: Rx, out: seq<byte>, e: Event)
    requires RxInv(st, rx, out) && AckExact(st, rx) && |st.chunks| < 0x8000 && forall c :: c in st.chunks ==> c != []
    requires e.Unanswered? && Genuine(st, e.p)
    ensures Completable(st, Step(AsCommented, rx, e).0, out) <==> Prompt(st, rx, e)
  {
    if Prompt(st, rx, e) {
      UnansweredKeeps(st, rx, out, e);
      PromptKeepsExact(st, rx, out, e);
      assert out + [] == out;
      ExactIsCompletable(st, Step(AsCommented, rx, e).0, out);
    } else {
      NotPromptIsNext(st, rx, out, e);
      var rx1, next, all := Step(AsCommented, rx, e).0, Following(st, Count(st, rx)), Ordered(st, |st.chunks|);
      var rest := Repeated(|Flatten(st.chunks)|);
      FollowedByAll(st, rx1, next, rest);
      assert [next] + all + rest == [next] + (all + rest);
      if HeadDue(st, rx) {
        FailedReplyStallsForGood(st, rx, out, e, all + rest);
        NotOutYet(st, Count(st, rx));
      } else {
        FailedReplySkipsForGood(st, rx, out, e, all + rest);
      }
      assert Completes(st, rx1, [next] + all, rest);
    }
  }

  lemma FollowedByAll(st: Stream, rx: Rx, next: Event, rest: seq<Event>)
    requires next.Arrival? && Genuine(st, next.p) && Reads(rest) && |rest| >= |Flatten(st.chunks)|
    ensures Completes(st, rx, [next] + Ordered(st, |st.chunks|), rest)
    ensures GenuineRun(st, Ordered(st, |st.chunks|) + rest) && Answered(Ordered(st, |st.chunks|) + rest)
  {
    OrderedIsGenuine(st, |st.chunks|);
    assert Complete(st, rx, [next] + Ordered(st, |st.chunks|)) by {
      CompletedBy(st, rx, [next], |st.chunks|);
    }
  }

  lemma NotOutYet(st: Stream, c: nat)
    requires c < |st.chunks| && forall d :: d in st.chunks ==> d != []
    ensures UpTo(st, c) != Flatten(st.chunks)
  {
    UpToIsPrefix(st, c + 1, |st.chunks|);
    assert st.chunks[..|st.chunks|] == st.chunks && st.chunks[..c + 1][..c] == st.chunks[..c];
    assert st.chunks[c] in st.chunks;
  }

  /** At every point of the run. */
  ghost predicate AlwaysCompletable(st: Stream, es: seq<Event>) {
    forall k :: 0 <= k <= |es| ==>
      Completable(st, After(AsCommented, Fresh(st.base), [], es[..k]).0,
          After(AsCommented, Fresh(st.base), [], es[..k]).1)
  }

  lemma {:induction false} PromptPart(st: Stream, rx: Rx, es: seq<Event>, k: nat)
    requires PromptRun(st, rx, es) && k <= |es|
    ensures PromptRun(st, rx, es[..k])
    decreases |es|
  {
    if k > 0 {
      assert es[..k][1..] == es[1..][..k - 1];
      PromptPart(st, Step(AsCommented, rx, es[0]).0, es[1..], k - 1);
    }
  }

  lemma {:induction false} LateFails(st: Stream, rx: Rx, out: seq<byte>, es: seq<Event>) returns (k: nat)
    requires RxInv(st, rx, out) && AckExact(st, rx) && |st.chunks| < 0x8000 && forall c :: c in st.chunks ==> c != []
    requires GenuineRun(st, es) && !PromptRun(st, rx, es)
    ensures k <= |es|
    ensures !Completable(st, After(AsCommented, rx, out, es[..k]).0, After(AsCommented, rx, out, es[..k]).1)
    decreases |es|
  {
    assert es[0] in es;
    var (rx', bytes) := Step(AsCommented, rx, es[0]);
    if Prompt(st, rx, es[0]) {
      StepKeeps(st, rx, out, es[0]);
      k := LateFails(st, rx', out + bytes, es[1..]);
      assert es[..k + 1][1..] == es[1..][..k];
      k := k + 1;
    } else {
      k := 1;
      assert es[..1][1..] == [] && out + [] == out;
      FailedReplyCompletesIff(st, rx, out, es[0]);
    }
  }

  /** Complete delivery in the face of failed replies, exactly: over every run, delivery can still be completed at every
      point if and only if every failed reply is prompt. */
  lemma CompletableIff(st: Stream, es: seq<Event>)
    requires InRange(st) && |st.chunks| < 0x8000 && GenuineRun(st, es) && forall c :: c in st.chunks ==> c != []
    ensures AlwaysCompletable(st, es) <==> PromptRun(st, Fresh(st.base), es)
  {
    if PromptRun(st, Fresh(st.base), es) {
      forall k | 0 <= k <= |es|
        ensures Completable(st, After(AsCommented, Fresh(st.base), [], es[..k]).0,
                            After(AsCommented, Fresh(st.base), [], es[..k]).1)
      {
        PromptPart(st, Fresh(st.base), es, k);
        PromptIsHarmless(st, Fresh(st.base), es[..k]);
        RunKeeps(st, Fresh(st.base), [], es[..k]);
        ExactIsCompletable(st, After(AsCommented, Fresh(st.base), [], es[..k]).0,
                           After(AsCommented, Fresh(st.base), [], es[..k]).1);
      }
    } else {
      var k := LateFails(st, Fresh(st.base), [], es);
    }
  }
}
