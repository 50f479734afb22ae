/** What arrives before there is a connection: it is stored and handed on all the same (utp/socket.go:404-414), and what
    is left of it is still there when a connection is accepted. */
module Strangers {
  import opened Bytes
  import opened Packet
  import opened Receive

  /** A socket that nobody has connected to hands on the byte of the first data packet that happens to be numbered 1. */
  lemma StrangerIsHeard()
    ensures Step(AsCommented, Fresh(0), Arrival(Segment(Data, 0, 0, 1, 0, [7]), false, 9)) == (Fresh(1), [7])
  {
    var p := Segment(Data, 0, 0, 1, 0, [7]);
    assert Arrive(AsCommented, false, Fresh(0), p) == Rx(0, 0, [p], []);
    assert [p][1..] == [] && p.payload[..1] == p.payload;
  }

  /** Packet 6 of nobody stays in the buffer, a SYN numbered 5 is accepted, and then the byte of that packet is handed
      on as the first one of the peer. */
  lemma StrangerIsTakenForPeer()
    ensures var p := Segment(Data, 0, 0, 6, 0, [7]);
            && Step(AsCommented, Fresh(0), Arrival(p, false, 9)) == (Rx(0, 0, [p], []), [])
            && Step(AsCommented, Rx(5, 5, [p], []), Read(9)) == (Fresh(6), [7])
  {
    var p := Segment(Data, 0, 0, 6, 0, [7]);
    assert [p][1..] == [] && p.payload[..1] == p.payload;
  }

  /** No connection takes data during this run. */
  ghost predicate ClosedRun(es: seq<Event>) {
    forall e :: e in es && !e.Read? ==> !e.open
  }

  /** No data packet that is answered is new to a socket that has dropped number d last. */
  ghost predicate NoneNew(d: u16, es: seq<Event>) {
    forall e :: e in es && e.Arrival? && e.p.ty.Data? ==> !Ahead(e.p.seqNr, d)
  }

  /** At no time in this run does the socket hold or hand on anything. */
  ghost predicate Untouched(d: u16, es: seq<Event>) {
    forall k :: 0 <= k <= |es| ==> After(AsCommented, Fresh(d), [], es[..k]) == (Fresh(d), [])
  }

  lemma UntouchedStepIff(d: u16, e: Event)
    requires !e.Read? ==> !e.open
    ensures Step(AsCommented, Fresh(d), e) == (Fresh(d), []) <==> NoneNew(d, [e])
  {
    assert [e][0] == e && forall f :: f in [e] ==> f == e;
  }

  /** Before there is a connection, exactly: nothing is stored or handed on during a run if and only if no data packet
      with a new number arrives. */
  lemma {:induction false} UntouchedIff(d: u16, es: seq<Event>)
    requires ClosedRun(es)
    ensures Untouched(d, es) <==> NoneNew(d, es)
    decreases |es|
  {
    assert es[..0] == [] && es[..|es|] == es;
    if es != [] {
      var front, last := es[..|es| - 1], es[|es| - 1];
      assert es == front + [last] && last in es;
      UntouchedIff(d, front);
      UntouchedStepIff(d, last);
      assert [last][0] == last;
      AfterOneMore(AsCommented, Fresh(d), [], front, last);
      forall k | 0 <= k < |es| ensures es[..k] == front[..k] {
      }
      var none: seq<byte> := [];
      assert none + none == none;
      if Untouched(d, es) {
        forall k | 0 <= k <= |front| ensures After(AsCommented, Fresh(d), [], front[..k]) == (Fresh(d), none) {
          assert es[..k] == front[..k];
        }
        assert Untouched(d, front);
        assert After(AsCommented, Fresh(d), [], front) == (Fresh(d), none) by {
          assert front[..|front|] == front;
        }
        assert After(AsCommented, Fresh(d), [], es) == (Fresh(d), none) by {
          assert es[..|es|] == es;
        }
        assert none + Step(AsCommented, Fresh(d), last).1 == Step(AsCommented, Fresh(d), last).1;
      }
    }
  }
}
