/** How long a stream may be, and where its numbers may begin: exactly when it is delivered in order, and exactly when
    it is delivered completely. */
module Wrap {
  import opened Bytes
  import opened Packet
  import opened Receive

  /** Whatever the bytes of the n chunks after base, and whatever the run, what is read is a prefix of the stream. */
  ghost predicate AlwaysInOrder(base: u16, n: nat) {
    forall st: Stream, es: seq<Event> ::
      st.base == base && |st.chunks| == n && GenuineRun(st, es) && HarmlessRun(st, Fresh(base), es) ==>
        After(AsCommented, Fresh(base), [], es).1 <= Flatten(st.chunks)
  }

  /** In-order delivery, exactly: n packets after base are always delivered in order if and only if the number of the
      last one is not smaller than that of the first, and there are at most 2^15 + 2 of them. */
  lemma InOrderIff(base: u16, n: nat)
    ensures AlwaysInOrder(base, n) <==> n == 0 || (Add16(base, 1) as int + n <= 0x1_0000 && n <= 0x8002)
  {
    if n == 0 || (Add16(base, 1) as int + n <= 0x1_0000 && n <= 0x8002) {
      forall st: Stream, es: seq<Event> |
        st.base == base && |st.chunks| == n && GenuineRun(st, es) && HarmlessRun(st, Fresh(base), es)
        ensures After(AsCommented, Fresh(base), [], es).1 <= Flatten(st.chunks)
      {
        DeliveryIsPrefix(st, es);
      }
    } else {
      var st, es := OutOfOrder(base, n);
      AnsweredIsPrompt(st, Fresh(base), es);
    }
  }

  /** Whatever the n chunks after base, as long as none is empty: when every packet has arrived, in whatever order, as
      many reads as there are bytes complete the stream. */
  ghost predicate AlwaysComplete(base: u16, n: nat) {
    forall st: Stream, es: seq<Event>, rest: seq<Event> ::
      st.base == base && |st.chunks| == n && (forall c :: c in st.chunks ==> c != []) &&
      Complete(st, Fresh(base), es) && Reads(rest) && |rest| >= |Flatten(st.chunks)| ==>
        After(AsCommented, Fresh(base), [], es + rest).1 == Flatten(st.chunks)
  }

  /** A run from rx in which every packet of the stream arrives and is answered, nothing else arrives, and the replies
      that fail are prompt. */
  ghost predicate Complete(st: Stream, rx: Rx, es: seq<Event>) {
    GenuineRun(st, es) && PromptRun(st, rx, es) && forall i :: 0 <= i < |st.chunks| ==> Includes(st, es, i)
  }

  /** Complete delivery, exactly: if and only if the numbers do not wrap and there are fewer than 2^15 packets. One
      more, and the last packet is taken for an old one if it is the first to arrive. */
  lemma CompleteIff(base: u16, n: nat)
    ensures AlwaysComplete(base, n) <==> n == 0 || (Add16(base, 1) as int + n <= 0x1_0000 && n < 0x8000)
  {
    if n == 0 || (Add16(base, 1) as int + n <= 0x1_0000 && n < 0x8000) {
      forall st: Stream, es: seq<Event>, rest: seq<Event> |
        st.base == base && |st.chunks| == n && (forall c :: c in st.chunks ==> c != []) &&
        Complete(st, Fresh(base), es) && Reads(rest) && |rest| >= |Flatten(st.chunks)|
        ensures After(AsCommented, Fresh(base), [], es + rest).1 == Flatten(st.chunks)
      {
        DeliveryIsComplete(st, es, rest);
        AfterBoth(AsCommented, Fresh(base), [], es, rest);
      }
    } else {
      var st, es := Incomplete(base, n);
      var rest := Repeated(|Flatten(st.chunks)|);
      AfterBoth(AsCommented, Fresh(base), [], es, rest);
      assert Complete(st, Fresh(base), es) && Reads(rest);
    }
  }

  function Repeated(n: nat): (es: seq<Event>)
    ensures |es| == n && Reads(es)
  {
    seq(n, _ => Read(1))
  }

  // ---------- streams and runs for which it fails ----------

  /** n chunks: those at j and k are as given, and the others are [0]. */
  function Marked(base: u16, n: nat, j: nat, a: seq<byte>, k: nat, b: seq<byte>): (st: Stream)
    ensures st.base == base && |st.chunks| == n
    ensures forall i :: 0 <= i < n ==> st.chunks[i] == if i == j then a else if i == k then b else [0]
  {
    Stream(base, seq(n, i => if i == j then a else if i == k then b else [0]))
  }

  /** Packet i. Its acknowledgement number is its own, so that it does not acknowledge the number before. */
  function PacketAt(st: Stream, i: nat): (p: Segment)
    requires i < |st.chunks|
    ensures IsChunk(st, i, p) && p.ty.Data?
  {
    Segment(Data, 0, 0, Add16(st.base, 1 + i), Add16(st.base, 1 + i), st.chunks[i])
  }

  function Carrying(st: Stream, i: nat, n: nat): Event
    requires i < |st.chunks|
  {
    Arrival(PacketAt(st, i), true, n)
  }

  /** The first k packets, in order. */
  function Ordered(st: Stream, k: nat): (es: seq<Event>)
    requires k <= |st.chunks|
    ensures |es| == k && forall i :: 0 <= i < k ==> es[i] == Carrying(st, i, 2)
  {
    seq(k, i requires 0 <= i < k => Carrying(st, i, 2))
  }

  ghost predicate Short(st: Stream) {
    forall i :: 0 <= i < |st.chunks| ==> 0 < |st.chunks[i]| <= 2
  }

  lemma NextInOrder(d: u16, p: Segment)
    requires p.ty.Data? && p.seqNr == Add16(d, 1) && 0 < |p.payload| <= 2
    ensures Step(AsCommented, Fresh(d), Arrival(p, true, 2)) == (Fresh(p.seqNr), p.payload)
  {
    assert Arrive(AsCommented, true, Fresh(d), p) == Rx(p.seqNr, d, [p], []);
    assert [p][1..] == [] && p.payload[..|p.payload|] == p.payload;
  }

  /** In order any stream is delivered, wherever its numbers begin and however many there are. */
  lemma {:induction false} InOrder(st: Stream, k: nat)
    requires Short(st) && k <= |st.chunks|
    ensures After(AsCommented, Fresh(st.base), [], Ordered(st, k)) == (Fresh(Add16(st.base, k)), UpTo(st, k))
  {
    if k > 0 {
      InOrder(st, k - 1);
      assert Ordered(st, k) == Ordered(st, k - 1) + [Carrying(st, k - 1, 2)];
      AfterOneMore(AsCommented, Fresh(st.base), [], Ordered(st, k - 1), Carrying(st, k - 1, 2));
      OneFurther(st.base, k - 1);
      NextInOrder(Add16(st.base, k - 1), PacketAt(st, k - 1));
      assert st.chunks[..k][..k - 1] == st.chunks[..k - 1];
    }
  }

  lemma OneFurther(base: u16, k: nat)
    ensures Add16(Add16(base, k), 1) == Add16(base, k + 1)
  {
  }

  lemma OrderedIsGenuine(st: Stream, k: nat)
    requires k <= |st.chunks|
    ensures GenuineRun(st, Ordered(st, k)) && Answered(Ordered(st, k))
    ensures forall i :: 0 <= i < k ==> Includes(st, Ordered(st, k), i)
  {
    forall i | 0 <= i < k ensures Includes(st, Ordered(st, k), i) {
      assert Ordered(st, k)[i] in Ordered(st, k);
    }
  }

  lemma TwoEvents(rx: Rx, out: seq<byte>, e0: Event, e1: Event)
    ensures var (rx1, bytes1) := Step(AsCommented, rx, e0); var (rx2, bytes2) := Step(AsCommented, rx1, e1);
            After(AsCommented, rx, out, [e0, e1]) == (rx2, out + bytes1 + bytes2)
  {
    var (rx1, bytes1) := Step(AsCommented, rx, e0);
    assert [e0, e1][1..] == [e1] && [e1][1..] == [];
    assert After(AsCommented, rx1, out + bytes1, [e1]).1 == out + bytes1 + Step(AsCommented, rx1, e1).1;
  }

  /** The packets up to 65534 in order, then 0, and then 65535: the packet after the wrap is handed on before the one
      that is due. */
  lemma Overtakes(st: Stream, k: nat)
    requires Short(st) && st.base as int + k == 0xFFFE && k + 1 < |st.chunks| && st.chunks[k + 1] == [2]
    ensures var es := Ordered(st, k) + [Carrying(st, k + 1, 1), Carrying(st, k, 1)];
            After(AsCommented, Fresh(st.base), [], es).1 == UpTo(st, k) + [2]
  {
    var zero, last := Carrying(st, k + 1, 1), Carrying(st, k, 1);
    InOrder(st, k);
    NumbersAtWrap(st.base, k);
    AfterBoth(AsCommented, Fresh(st.base), [], Ordered(st, k), [zero, last]);
    OvertakesAtWrap(zero.p, last.p);
    TwoEvents(Fresh(0xFFFE), UpTo(st, k), zero, last);
    assert UpTo(st, k) + [] + [2] == UpTo(st, k) + [2];
  }

  lemma NumbersAtWrap(base: u16, k: nat)
    requires base as int + k == 0xFFFE
    ensures Add16(base, k) == 0xFFFE && Add16(base, 1 + k) == 0xFFFF && Add16(base, 1 + (k + 1)) == 0
  {
  }

  lemma OvertakesAtWrap(zero: Segment, last: Segment)
    requires zero.ty.Data? && last.ty.Data? && zero.seqNr == 0 && last.seqNr == 0xFFFF && zero.payload == [2]
    ensures Step(AsCommented, Fresh(0xFFFE), Arrival(zero, true, 1)) == (Rx(0xFFFE, 0xFFFE, [zero], []), [])
    ensures Step(AsCommented, Rx(0xFFFE, 0xFFFE, [zero], []), Arrival(last, true, 1)) == (Rx(0, 0, [last], []), [2])
  {
    assert CountBelow([zero], 0xFFFF) == 1;
    assert [zero, last][1..] == [last] && [2][..1] == [2];
  }

  /** 2^15 + 2 packets in order; the first byte of the next one; and then, once more, the first packet, which now seems
      new and is dropped when the rest has been read, and the second one. */
  lemma Repeats(st: Stream, k: nat)
    requires Short(st) && k == 0x8002 < |st.chunks| && Add16(st.base, 1) as int + k < 0x1_0000
    requires st.chunks[1] == [3] && st.chunks[k] == [1, 2]
    ensures After(AsCommented, Fresh(st.base), [], Ordered(st, k) + Thrice(st, k)).1 == UpTo(st, k + 1) + [3]
  {
    InOrder(st, k);
    AfterBoth(AsCommented, Fresh(st.base), [], Ordered(st, k), Thrice(st, k));
    NumbersFrom(st.base, k);
    RepeatsAtHalf(Add16(st.base, 1), UpTo(st, k), PacketAt(st, k), PacketAt(st, 0), PacketAt(st, 1));
    assert st.chunks[..k + 1][..k] == st.chunks[..k];
    assert UpTo(st, k) + [1] + [2] + [3] == UpTo(st, k) + [1, 2] + [3];
  }

  function Thrice(st: Stream, k: nat): seq<Event>
    requires 1 < k < |st.chunks|
  {
    [Carrying(st, k, 1), Carrying(st, 0, 1), Carrying(st, 1, 1)]
  }

  lemma NumbersFrom(base: u16, k: nat)
    requires Add16(base, 1) as int + k < 0x1_0000 && k >= 1
    ensures Add16(base, k) == Add16(base, 1) + k - 1 && Add16(base, 1 + k) == Add16(base, 1) + k
    ensures Add16(base, 2) == Add16(base, 1) + 1
  {
  }

  lemma RepeatsAtHalf(f: u16, out: seq<byte>, last: Segment, p: Segment, q: Segment)
    requires f as int + 0x8002 < 0x1_0000 && last.ty.Data? && p.ty.Data? && q.ty.Data?
    requires last.seqNr == f + 0x8002 && p.seqNr == f && q.seqNr == f + 1
    requires last.payload == [1, 2] && q.payload == [3]
    ensures After(AsCommented, Fresh(f + 0x8001), out,
            [Arrival(last, true, 1), Arrival(p, true, 1), Arrival(q, true, 1)]).1
         == out + [1] + [2] + [3]
  {
    var e0, e1, e2 := Arrival(last, true, 1), Arrival(p, true, 1), Arrival(q, true, 1);
    var rx0, rx1 := Rx(last.seqNr, f + 0x8001, [last], [2]), Rx(f, f, [last], []);
    assert Step(AsCommented, Fresh(f + 0x8001), e0) == (rx0, [1]) by {
      assert [1, 2][..1] == [1] && [1, 2][1..] == [2];
    }
    assert Step(AsCommented, rx0, e1) == (rx1, [2]) by {
      InFront(last, p);
      assert [2][..1] == [2];
    }
    assert Step(AsCommented, rx1, e2).1 == [3] by {
      InFront(last, q);
      assert [3][..1] == [3];
    }
    assert [e0, e1, e2][1..] == [e1, e2] && [e1, e2][1..] == [e2] && [e2][1..] == [];
    assert After(AsCommented, rx1, out + [1] + [2], [e2]).1 == out + [1] + [2] + [3];
    assert After(AsCommented, rx0, out + [1], [e1, e2]) == After(AsCommented, rx1, out + [1] + [2], [e2]);
  }

  lemma InFront(last: Segment, p: Segment)
    requires p.seqNr < last.seqNr
    ensures Insert(AsCommented, [last], p) == Stored([p, last]) && [p, last][1..] == [last]
  {
    assert CountBelow([last], p.seqNr) == 0;
    assert [last][..0] + [p] + [last][0..] == [p, last];
  }

  /** A stream that wraps inside, or has more than 2^15 + 2 packets, has a run that delivers the wrong bytes. */
  lemma OutOfOrder(base: u16, n: nat) returns (st: Stream, es: seq<Event>)
    requires n > 0 && !(Add16(base, 1) as int + n <= 0x1_0000 && n <= 0x8002)
    ensures st.base == base && |st.chunks| == n && Short(st) && Misdelivers(st, es)
    ensures base < 0xFFFE ==> es != [] && es[0] == Carrying(st, 0, 2)
  {
    if base < 0xFFFF && base as int + n >= 0x1_0000 {
      st, es := OutOfOrderAtWrap(base, n, 0xFFFE - base);
    } else {
      st, es := OutOfOrderAtHalf(base, n, 0x8002);
    }
  }

  ghost predicate Misdelivers(st: Stream, es: seq<Event>) {
    GenuineRun(st, es) && Answered(es) && !(After(AsCommented, Fresh(st.base), [], es).1 <= Flatten(st.chunks))
  }

  lemma OutOfOrderAtWrap(base: u16, n: nat, k: nat) returns (st: Stream, es: seq<Event>)
    requires base as int + k == 0xFFFE && k + 1 < n
    ensures st.base == base && |st.chunks| == n && Short(st) && Misdelivers(st, es)
    ensures k > 0 ==> es != [] && es[0] == Carrying(st, 0, 2)
  {
    st := Marked(base, n, k, [1], k + 1, [2]);
    es := Ordered(st, k) + [Carrying(st, k + 1, 1), Carrying(st, k, 1)];
    Overtakes(st, k);
    OrderedIsGenuine(st, k);
    WrongByte(st, k, 2);
  }

  lemma OutOfOrderAtHalf(base: u16, n: nat, k: nat) returns (st: Stream, es: seq<Event>)
    requires k == 0x8002 < n && Add16(base, 1) as int + k < 0x1_0000
    ensures st.base == base && |st.chunks| == n && Short(st) && Misdelivers(st, es)
    ensures es != [] && es[0] == Carrying(st, 0, 2)
  {
    st := Marked(base, n, 1, [3], k, [1, 2]);
    es := Ordered(st, k) + Thrice(st, k);
    Repeats(st, k);
    OrderedIsGenuine(st, k);
    WrongByte(st, k + 1, 3);
  }

  /** The first k chunks and then a byte with which chunk k does not begin. */
  lemma WrongByte(st: Stream, k: nat, x: byte)
    requires k <= |st.chunks| && (k < |st.chunks| ==> st.chunks[k] != [] && st.chunks[k][0] != x)
    ensures !(UpTo(st, k) + [x] <= Flatten(st.chunks))
  {
    var front, all := UpTo(st, k), Flatten(st.chunks);
    assert st.chunks[..|st.chunks|] == st.chunks;
    if k < |st.chunks| {
      UpToIsPrefix(st, k + 1, |st.chunks|);
      assert st.chunks[..k + 1][..k] == st.chunks[..k];
      assert all[|front|] == st.chunks[k][0] && (front + [x])[|front|] == x;
    } else {
      assert all == front;
    }
  }

  /** After this run no reads complete the stream. */
  ghost predicate Fails(st: Stream, es: seq<Event>) {
    forall m: nat ::
      After(AsCommented, After(AsCommented, Fresh(st.base), [], es).0, After(AsCommented, Fresh(st.base), [], es).1,
          Repeated(m)).1
      != Flatten(st.chunks)
  }

  lemma Incomplete(base: u16, n: nat) returns (st: Stream, es: seq<Event>)
    requires n > 0 && !(Add16(base, 1) as int + n <= 0x1_0000 && n < 0x8000)
    ensures st.base == base && |st.chunks| == n && (forall c :: c in st.chunks ==> c != [])
    ensures Complete(st, Fresh(base), es)
    ensures Fails(st, es)
  {
    if Add16(base, 1) as int + n <= 0x1_0000 && n <= 0x8002 {
      st := Marked(base, n, 0, [0], 0, [0]);
      es := [Carrying(st, n - 1, 2)] + Ordered(st, n - 1);
      LastFirst(st, n - 1);
      LastFirstIsComplete(st, Fresh(base), n - 1);
    } else {
      var es0;
      st, es0 := OutOfOrder(base, n);
      es := es0 + Ordered(st, n);
      StillOutOfOrder(st, es0, n);
    }
  }

  lemma StillOutOfOrder(st: Stream, es: seq<Event>, n: nat)
    requires n == |st.chunks| && Misdelivers(st, es)
    ensures Complete(st, Fresh(st.base), es + Ordered(st, n)) && Fails(st, es + Ordered(st, n))
  {
    var all := es + Ordered(st, n);
    CompletedBy(st, Fresh(st.base), es, n);
    AfterBoth(AsCommented, Fresh(st.base), [], es, Ordered(st, n));
    var (rx, out) := After(AsCommented, Fresh(st.base), [], es);
    AfterGrows(AsCommented, rx, out, Ordered(st, n));
    forall m: nat {
      AfterGrows(AsCommented, After(AsCommented, Fresh(st.base), [], all).0,
          After(AsCommented, Fresh(st.base), [], all).1, Repeated(m));
    }
  }

  lemma CompletedBy(st: Stream, rx: Rx, es: seq<Event>, n: nat)
    requires n == |st.chunks| && GenuineRun(st, es) && Answered(es)
    ensures Complete(st, rx, es + Ordered(st, n)) && Answered(es + Ordered(st, n))
  {
    var all := es + Ordered(st, n);
    OrderedIsGenuine(st, n);
    AnsweredIsPrompt(st, rx, all);
    forall i | 0 <= i < n ensures Includes(st, all, i) {
      assert Includes(st, Ordered(st, n), i);
      var e :| e in Ordered(st, n) && e.Arrival? && e.p.ty.Data? && IsChunk(st, i, e.p);
      assert e in all;
    }
  }

  /** The last packet, before any other, is refused; then the others arrive. */
  lemma LastFirst(st: Stream, k: nat)
    requires Short(st) && k + 1 == |st.chunks| && 0x8000 <= |st.chunks| <= 0x8002
    ensures Fails(st, [Carrying(st, k, 2)] + Ordered(st, k))
  {
    var es := [Carrying(st, k, 2)] + Ordered(st, k);
    InOrder(st, k);
    Refused(st.base, PacketAt(st, k), k + 1);
    assert es[1..] == Ordered(st, k) && es[0] == Carrying(st, k, 2);
    var none: seq<byte> := [];
    assert none + none == none;
    assert st.chunks[..k + 1] == st.chunks && st.chunks[..k + 1][..k] == st.chunks[..k];
    forall m: nat { NothingToRead(Add16(st.base, k), UpTo(st, k), m); }
  }

  lemma Refused(base: u16, p: Segment, n: nat)
    requires p.ty.Data? && p.seqNr == Add16(base, n) && 0x8000 <= n <= 0x8002
    ensures Step(AsCommented, Fresh(base), Arrival(p, true, 2)) == (Fresh(base), [])
  {
    assert Sub16(p.seqNr, base) == n;
  }

  lemma LastFirstIsComplete(st: Stream, rx: Rx, k: nat)
    requires k + 1 == |st.chunks|
    ensures Complete(st, rx, [Carrying(st, k, 2)] + Ordered(st, k))
  {
    var es := [Carrying(st, k, 2)] + Ordered(st, k);
    OrderedIsGenuine(st, k);
    AnsweredIsPrompt(st, rx, es);
    forall i | 0 <= i < |st.chunks| ensures Includes(st, es, i) {
      if i == k {
        assert es[0] in es;
      } else {
        assert Ordered(st, k)[i] in es;
      }
    }
  }

  lemma {:induction false} NothingToRead(d: u16, out: seq<byte>, m: nat)
    ensures After(AsCommented, Fresh(d), out, Repeated(m)) == (Fresh(d), out)
  {
    if m > 0 {
      assert Repeated(m)[1..] == Repeated(m - 1) && out + [] == out;
      NothingToRead(d, out, m - 1);
    }
  }
}
