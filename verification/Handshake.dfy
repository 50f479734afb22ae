/** Connection setup and teardown between two uTP endpoints (BEP 29, section "connection setup"). */
module Handshake {
  import opened Bytes
  import opened Packet

  datatype SocketState = New | Connected | SynSent | FinSent | ResetReceived | Closed

  datatype Error =
    | IsClosed | DeadlineExceeded | Network | InvalidReply
    | ConnectionReset | Unimplemented | Misplaced | Malformed

  /** How far a connection has come. */
  function Rank(s: SocketState): nat {
    match s
    case New => 0
    case SynSent => 0
    case Connected => 1
    case FinSent => 2
    case Closed => 3
    case ResetReceived => 4
  }

  /** The part of a socket that decides what becomes of a connection. */
  datatype Control = Control(state: SocketState, sendId: u16, rcvId: u16)

  /** What handling a packet leads to, besides a new state. */
  datatype Answer = Nothing | Reply(ty: PacketType) | Refuse(error: Error)

  /** A packet that is no SYN has to carry one of the connection ids. */
  predicate Accepts(c: Control, ty: PacketType, connId: u16) {
    ty.Syn? || c.state.SynSent? || connId == c.sendId || connId == c.rcvId
  }

  /** The branches of handlePacket; allAcked says whether the packet acknowledges the next sequence number. */
  function Handle(c: Control, ty: PacketType, connId: u16, allAcked: bool): (r: (Control, Answer))
    ensures Rank(r.0.state) >= Rank(c.state)
    ensures Rank(c.state) > 0 ==> r.0.sendId == c.sendId && r.0.rcvId == c.rcvId
  {
    var open := c.state.Connected? || c.state.FinSent?;
    if !Accepts(c, ty, connId) then (c, Reply(Reset))
    else if c.state.New? && ty.Syn? then (Control(Connected, connId, Add16(connId, 1)), Reply(State))
    else if ty.Syn? then (c, Reply(Reset))
    else if c.state.SynSent? && ty.State? then (c.(state := Connected), Nothing)
    else if c.state.SynSent? then (c, Refuse(InvalidReply))
    else if open && ty.Data? then (c, Reply(if c.state.FinSent? then Fin else State))
    else if c.state.Connected? && ty.State? then (c, Nothing)
    else if open && ty.Fin? then (c.(state := Closed), Reply(State))
    else if c.state.Closed? && ty.Fin? then (c, Reply(State))
    else if c.state.FinSent? && ty.State? then (if allAcked then c.(state := Closed) else c, Nothing)
    else if ty.Reset? then (c.(state := ResetReceived), Refuse(ConnectionReset))
    else (c, Refuse(Unimplemented))
  }

  /** The connection ids of a new socket, for sending and for receiving. As written they are the wrong way round:
      BEP 29 makes the initiator's sending id one more than its receiving id. */
  function RandSeqID(b: Build, id: u16): (u16, u16) {
    var (lo, hi) := if id == 0xFFFF then (0xFFFE, 0xFFFF) else (id, id + 1);
    if b.AsWritten? then (lo, hi) else (hi, lo)
  }

  /** A packet on its way: to the acceptor or to the initiator, with its type and connection id. */
  datatype Envelope = Envelope(toAcceptor: bool, ty: PacketType, connId: u16)

  /** Both endpoints, and every packet ever sent. A packet stays in the set when it is delivered, and need never be
      delivered: the channel may lose, repeat and reorder. */
  datatype System = System(initiator: Control, acceptor: Control, net: set<Envelope>)

  datatype Event =
    | Deliver(e: Envelope, allAcked: bool)
    | Emit(byInitiator: bool, ty: PacketType) // data, acknowledgements and FINs, at any time after the handshake
    | Resend                                  // the initiator repeats its SYN
    | Leave(byInitiator: bool, to: SocketState) // a socket closes, or gives up on its peer

  ghost predicate Enabled(s: System, v: Event) {
    match v
    case Deliver(e, _) => e in s.net
    case Emit(i, ty) => !ty.Syn? && Rank((if i then s.initiator else s.acceptor).state) > 0
    case Resend => s.initiator.state.SynSent?
    case Leave(i, to) => (to.FinSent? || to.Closed?) && Rank((if i then s.initiator else s.acceptor).state) > 0
  }

  function Answers(toAcceptor: bool, c: Control, a: Answer): set<Envelope> {
    if a.Reply? then {Envelope(!toAcceptor, a.ty, c.sendId)} else {}
  }

  ghost function Step(s: System, v: Event): System
    requires Enabled(s, v)
  {
    match v
    case Deliver(e, allAcked) =>
      var (c, a) := Handle(if e.toAcceptor then s.acceptor else s.initiator, e.ty, e.connId, allAcked);
      var net := s.net + Answers(e.toAcceptor, c, a);
      if e.toAcceptor then System(s.initiator, c, net) else System(c, s.acceptor, net)
    case Emit(i, ty) => s.(net := s.net + {Envelope(i, ty, (if i then s.initiator else s.acceptor).sendId)})
    case Resend => s.(net := s.net + {Envelope(true, Syn, s.initiator.rcvId)})
    case Leave(i, to) =>
      if i then s.(initiator := s.initiator.(state := to)) else s.(acceptor := s.acceptor.(state := to))
  }

  ghost predicate LegalRun(s: System, vs: seq<Event>)
    decreases |vs|
  {
    vs == [] || (Enabled(s, vs[0]) && LegalRun(Step(s, vs[0]), vs[1..]))
  }

  ghost function After(s: System, vs: seq<Event>): System
    requires LegalRun(s, vs)
    decreases |vs|
  {
    if vs == [] then s else After(Step(s, vs[0]), vs[1..])
  }

  /** connect: the initiator has sent a SYN with its receiving id; the acceptor is new, with ids of its own. */
  function Begin(sendId: u16, rcvId: u16, x: u16, y: u16): System {
    System(Control(SynSent, sendId, rcvId), Control(New, x, y), {Envelope(true, Syn, rcvId)})
  }

  /** Every packet that is no SYN carries an id that the endpoint it is sent to accepts. */
  ghost predicate AllAccepted(s: System) {
    forall e :: e in s.net ==> Accepts(if e.toAcceptor then s.acceptor else s.initiator, e.ty, e.connId)
  }

  /** The ids are those the handshake assigns; nothing but SYNs is sent before the acceptor has one. */
  ghost predicate IdsInv(sendId: u16, rcvId: u16, s: System) {
    && s.initiator.sendId == sendId && s.initiator.rcvId == rcvId
    && (s.initiator.state.SynSent? || Rank(s.initiator.state) > 0)
    && (s.acceptor.state.New? ||
        (Rank(s.acceptor.state) > 0 && s.acceptor.sendId == rcvId && s.acceptor.rcvId == Add16(rcvId, 1)))
    && (s.acceptor.state.New? ==> s.initiator.state.SynSent? && forall e :: e in s.net ==> e.toAcceptor && e.ty.Syn?)
    && (forall e :: e in s.net ==>
        if !e.toAcceptor then e.connId == rcvId else e.connId == if e.ty.Syn? then rcvId else sendId)
  }

  lemma StepKeepsIds(sendId: u16, rcvId: u16, s: System, v: Event)
    requires IdsInv(sendId, rcvId, s) && Enabled(s, v)
    ensures IdsInv(sendId, rcvId, Step(s, v))
  {
    if v.Deliver? {
      assert v.e in s.net;
    }
  }

  lemma {:induction false} RunKeepsIds(sendId: u16, rcvId: u16, s: System, vs: seq<Event>)
    requires IdsInv(sendId, rcvId, s) && LegalRun(s, vs)
    ensures IdsInv(sendId, rcvId, After(s, vs))
    decreases |vs|
  {
    if vs != [] {
      StepKeepsIds(sendId, rcvId, s, vs[0]);
      RunKeepsIds(sendId, rcvId, Step(s, vs[0]), vs[1..]);
    }
  }

  /** The run in which the handshake completes and the initiator sends data. */
  function FirstData(rcvId: u16): seq<Event> {
    [Deliver(Envelope(true, Syn, rcvId), false), Deliver(Envelope(false, State, rcvId), false), Emit(true, Data)]
  }

  /** In every run, over a channel that loses, repeats and reorders, everything sent is accepted: exactly when the
      initiator's sending id is its receiving id or one more. */
  lemma IdsAcceptedIff(sendId: u16, rcvId: u16, x: u16, y: u16)
    ensures (forall vs :: LegalRun(Begin(sendId, rcvId, x, y), vs) ==>
            AllAccepted(After(Begin(sendId, rcvId, x, y), vs)))
            <==> sendId == rcvId || sendId == Add16(rcvId, 1)
  {
    var s := Begin(sendId, rcvId, x, y);
    if sendId == rcvId || sendId == Add16(rcvId, 1) {
      forall vs | LegalRun(s, vs) ensures AllAccepted(After(s, vs)) {
        RunKeepsIds(sendId, rcvId, s, vs);
      }
    } else {
      FirstDataRefused(sendId, rcvId, x, y);
    }
  }

  lemma FirstDataRefused(sendId: u16, rcvId: u16, x: u16, y: u16)
    requires sendId != rcvId && sendId != Add16(rcvId, 1)
    ensures LegalRun(Begin(sendId, rcvId, x, y), FirstData(rcvId))
    ensures !AllAccepted(After(Begin(sendId, rcvId, x, y), FirstData(rcvId)))
  {
    var s0, vs := Begin(sendId, rcvId, x, y), FirstData(rcvId);
    var s1 := Step(s0, vs[0]);
    var s2 := Step(s1, vs[1]);
    var s3 := Step(s2, vs[2]);
    assert Envelope(false, State, rcvId) in s1.net;
    assert vs[1..][0] == vs[1] && vs[1..][1..][0] == vs[2];
    assert LegalRun(s3, []) && After(s3, []) == s3;
    assert LegalRun(s2, vs[2..]) && After(s2, vs[2..]) == s3;
    assert vs[1..][1..] == vs[2..];
    assert LegalRun(s1, vs[1..]) && After(s1, vs[1..]) == s3;
    assert Envelope(true, Data, sendId) in s3.net;
  }

  /** So no connection made by the code as written carries data, and every one made with the ids of BEP 29 does. */
  lemma WrittenIdsNeverWork(b: Build, id: u16, x: u16, y: u16)
    ensures var (sendId, rcvId) := RandSeqID(b, id);
            (forall vs :: LegalRun(Begin(sendId, rcvId, x, y), vs) ==>
                AllAccepted(After(Begin(sendId, rcvId, x, y), vs)))
            <==> b.AsCommented?
  {
    IdsAcceptedIff(RandSeqID(b, id).0, RandSeqID(b, id).1, x, y);
  }

  /** Delivered packets never take an endpoint back, and never change the ids of a connection. */
  lemma {:induction false} DeliveriesOnlyAdvance(s: System, vs: seq<Event>)
    requires LegalRun(s, vs) && forall v :: v in vs ==> !v.Leave?
    ensures var t := After(s, vs);
            && Rank(t.initiator.state) >= Rank(s.initiator.state) && Rank(t.acceptor.state) >= Rank(s.acceptor.state)
            && (Rank(s.initiator.state) > 0 ==> t.initiator.(state := New) == s.initiator.(state := New))
            && (Rank(s.acceptor.state) > 0 ==> t.acceptor.(state := New) == s.acceptor.(state := New))
    decreases |vs|
  {
    if vs != [] {
      DeliveriesOnlyAdvance(Step(s, vs[0]), vs[1..]);
    }
  }

  // ---------- resets ----------

  /** How many SYNs are delivered. */
  function SynsDelivered(vs: seq<Event>): nat {
    if vs == [] then 0 else (if vs[0].Deliver? && vs[0].e.ty.Syn? then 1 else 0) + SynsDelivered(vs[1..])
  }

  /** No endpoint sends a reset other than as an answer. */
  ghost predicate ResetsAreAnswers(vs: seq<Event>) {
    forall v :: v in vs && v.Emit? ==> !v.ty.Reset?
  }

  ghost predicate HasReset(s: System) {
    exists e :: e in s.net && e.ty.Reset?
  }

  /** SYNs go to the acceptor, and resets to the initiator. */
  ghost predicate Directed(s: System) {
    forall e :: e in s.net ==> (e.ty.Syn? ==> e.toAcceptor) && (e.ty.Reset? ==> !e.toAcceptor)
  }

  /** A reset is sent if and only if a SYN reaches an acceptor that has had one. */
  lemma StepResets(sendId: u16, rcvId: u16, s: System, v: Event)
    requires sendId == rcvId || sendId == Add16(rcvId, 1)
    requires IdsInv(sendId, rcvId, s) && Directed(s) && Enabled(s, v) && (v.Emit? ==> !v.ty.Reset?)
    requires s.initiator.state.ResetReceived? ==> HasReset(s)
    ensures IdsInv(sendId, rcvId, Step(s, v)) && Directed(Step(s, v))
    ensures HasReset(Step(s, v)) <==> HasReset(s) || (v.Deliver? && v.e.ty.Syn? && !s.acceptor.state.New?)
    ensures Step(s, v).acceptor.state.New? <==> s.acceptor.state.New? && !(v.Deliver? && v.e.ty.Syn?)
    ensures Step(s, v).initiator.state.ResetReceived? ==> HasReset(Step(s, v))
  {
    StepKeepsIds(sendId, rcvId, s, v);
    if v.Deliver? {
      assert v.e in s.net && Accepts(if v.e.toAcceptor then s.acceptor else s.initiator, v.e.ty, v.e.connId);
      if v.e.ty.Syn? && !s.acceptor.state.New? {
        assert Envelope(false, Reset, s.acceptor.sendId) in Step(s, v).net;
      }
    }
    if HasReset(s) {
      var e :| e in s.net && e.ty.Reset?;
      assert e in Step(s, v).net;
    }
  }

  lemma {:induction false} RunResets(sendId: u16, rcvId: u16, s: System, vs: seq<Event>)
    requires sendId == rcvId || sendId == Add16(rcvId, 1)
    requires IdsInv(sendId, rcvId, s) && Directed(s) && LegalRun(s, vs) && ResetsAreAnswers(vs)
    requires s.initiator.state.ResetReceived? ==> HasReset(s)
    ensures HasReset(After(s, vs)) <==> HasReset(s) || SynsDelivered(vs) + (if s.acceptor.state.New? then 0 else 1) >= 2
    ensures After(s, vs).initiator.state.ResetReceived? ==> HasReset(After(s, vs))
    ensures IdsInv(sendId, rcvId, After(s, vs)) && Directed(After(s, vs))
    decreases |vs|
  {
    if vs != [] {
      assert vs[0] in vs;
      StepResets(sendId, rcvId, s, vs[0]);
      RunResets(sendId, rcvId, Step(s, vs[0]), vs[1..]);
    }
  }

  /** When a connection is reset, exactly: over every run that begins with the handshake, a reset is on its way if and
      only if a SYN has been delivered a second time. Only then can the initiator have been reset; and then it will be,
      whatever its state after the handshake, as soon as that reset is delivered. */
  lemma ResetIff(sendId: u16, rcvId: u16, x: u16, y: u16, vs: seq<Event>, allAcked: bool)
    requires sendId == rcvId || sendId == Add16(rcvId, 1)
    requires LegalRun(Begin(sendId, rcvId, x, y), vs) && ResetsAreAnswers(vs)
    ensures var t, reset := After(Begin(sendId, rcvId, x, y), vs), Deliver(Envelope(false, Reset, rcvId), allAcked);
            && (HasReset(t) <==> SynsDelivered(vs) >= 2)
            && (t.initiator.state.ResetReceived? ==> SynsDelivered(vs) >= 2)
            && (SynsDelivered(vs) >= 2 <==> Enabled(t, reset))
            && (SynsDelivered(vs) >= 2 && Rank(t.initiator.state) > 0 ==> Step(t, reset).initiator.state.ResetReceived?)
  {
    RunResets(sendId, rcvId, Begin(sendId, rcvId, x, y), vs);
    var t := After(Begin(sendId, rcvId, x, y), vs);
    if HasReset(t) {
      var e :| e in t.net && e.ty.Reset?;
      assert e == Envelope(false, Reset, rcvId);
    }
  }

  /** A SYN that is delivered twice ends the connection it has set up: the second one is answered with a reset. */
  lemma RepeatedSynResets(sendId: u16, rcvId: u16, x: u16, y: u16)
    ensures var vs := [Deliver(Envelope(true, Syn, rcvId), false), Deliver(Envelope(false, State, rcvId), false),
                       Deliver(Envelope(true, Syn, rcvId), false), Deliver(Envelope(false, Reset, rcvId), false)];
            LegalRun(Begin(sendId, rcvId, x, y), vs) &&
                After(Begin(sendId, rcvId, x, y), vs).initiator.state == ResetReceived
  {
    var v0, v1 := Deliver(Envelope(true, Syn, rcvId), false), Deliver(Envelope(false, State, rcvId), false);
    var v3 := Deliver(Envelope(false, Reset, rcvId), false);
    var s0 := Begin(sendId, rcvId, x, y);
    var s1 := Step(s0, v0);
    assert v1.e in s1.net;
    var s2 := Step(s1, v1);
    var s3 := Step(s2, v0);
    assert v3.e in s3.net;
    var s4 := Step(s3, v3);
    assert After(s4, []) == s4;
    assert LegalRun(s3, [v3]) && After(s3, [v3]) == s4;
    assert [v0, v3][1..] == [v3];
    assert LegalRun(s2, [v0, v3]) && After(s2, [v0, v3]) == s4;
    assert [v1, v0, v3][1..] == [v0, v3];
    assert LegalRun(s1, [v1, v0, v3]) && After(s1, [v1, v0, v3]) == s4;
    assert [v0, v1, v0, v3][1..] == [v1, v0, v3];
  }
}
