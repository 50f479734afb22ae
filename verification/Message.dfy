/** The peer messages of BEP 3, their framing on the wire, and the bitfield of pieces. */
module Message {
  import opened Bytes
  import opened MetaInfo
  import opened Wrappers

  const CHOKE: byte := 0
  const UNCHOKE: byte := 1
  const INTERESTED: byte := 2
  const UNINTERESTED: byte := 3
  const HAVE: byte := 4
  const BITFIELD: byte := 5
  const REQUEST: byte := 6
  const PIECE: byte := 7
  const CANCEL: byte := 8
  const PORT: byte := 9
  const KEEP_ALIVE: byte := 10

  datatype Msg = Msg(len: int, id: byte, payload: seq<byte>)

  /** copy(buf[off:], src): fills what fits, and says how much that was. */
  method Copy(buf: array<byte>, off: nat, src: seq<byte>) returns (n: nat)
    requires off <= buf.Length
    modifies buf
    ensures n == Min(|src|, buf.Length - off)
    ensures buf[..] == old(buf[..off]) + src[..n] + old(buf[off + n..])
  {
    n := Min(|src|, buf.Length - off);
    forall i | 0 <= i < n {
      buf[off + i] := src[i];
    }
  }

  /** The first n bytes of p, padded with zeros if p is shorter. */
  function Fit(p: seq<byte>, n: nat): (r: seq<byte>)
    ensures |r| == n
  {
    if |p| >= n then p[..n] else p + Zeros(n - |p|)
  }

  method Frame(prefix: int, id: byte, room: nat, payload: seq<byte>) returns (b: seq<byte>)
    ensures b == PutUint32(Trunc32(prefix)) + [id] + Fit(payload, room)
  {
    var buf := new byte[room + 5](_ => 0);
    var _ := Copy(buf, 0, PutUint32(Trunc32(prefix)));
    buf[4] := id;
    var _ := Copy(buf, 5, payload);
    b := buf[..];
  }

  /** Marshall, as written: the first case is the bitwise or of four ids, which is the last of the four. */
  method Marshall(m: Msg) returns (out: seq<byte>, ok: bool)
    ensures ok <==> !(m.id == HAVE && |m.payload| != 4)
    ensures out == Written(m)
  {
    out, ok := [], true;
    if m.id == UNINTERESTED { // Choke | Unchoke | Interested | Uninterested
      out := Frame(1, m.id, 0, m.payload);
      assert Fit(m.payload, 0) == [];
    } else if m.id == HAVE {
      var buf := new byte[9](_ => 0);
      var _ := Copy(buf, 0, PutUint32(5));
      buf[4] := m.id;
      var n := Copy(buf, 4, m.payload); // over the id
      if n != 4 {
        return [], false;
      }
      out := buf[..];
      assert m.payload[..4] == m.payload;
      assert out == PutUint32(5) + m.payload + [0];
    } else if m.id == BITFIELD || m.id == PIECE {
      out := Frame(|m.payload| + 1, m.id, |m.payload|, m.payload);
      FitExact(m.payload, |m.payload|);
    } else if m.id == REQUEST || m.id == CANCEL {
      out := Frame(13, m.id, 12, m.payload);
    } else if m.id == PORT {
      out := Frame(3, m.id, 2, m.payload);
    } else if m.id == KEEP_ALIVE {
      out := Zeros(4);
    }
  }

  /** The bytes that reach the wire for m; none when Marshall fails or has no case for the id. */
  function Written(m: Msg): seq<byte> {
    if m.id == UNINTERESTED then PutUint32(1) + [m.id]
    else if m.id == HAVE then (if |m.payload| == 4 then PutUint32(5) + m.payload + [0] else [])
    else if m.id == BITFIELD || m.id == PIECE then PutUint32(Trunc32(|m.payload| + 1)) + [m.id] + m.payload
    else if m.id == REQUEST || m.id == CANCEL then PutUint32(13) + [m.id] + Fit(m.payload, 12)
    else if m.id == PORT then PutUint32(3) + [m.id] + Fit(m.payload, 2)
    else if m.id == KEEP_ALIVE then Zeros(4)
    else []
  }

  /** Reads one message from a stream, and returns it with the rest of the stream. */
  function ReadMessage(s: seq<byte>): (r: Result<(Msg, seq<byte>)>)
    ensures r.Ok? ==> |r.value.1| < |s|
  {
    if |s| < 4 then Err
    else
      var l := Uint32(s[..4]);
      if l == 0 then Ok((Msg(l, KEEP_ALIVE, []), s[4..]))
      else if |s| - 4 < l then Err
      else if l == 1 then Ok((Msg(1, s[4], []), s[5..]))
      else Ok((Msg(l, s[4], s[5..4 + l]), s[4 + l..]))
  }

  /** Reads messages until the stream ends, which it must do at the end of a message. */
  function ReadAll(s: seq<byte>): Result<seq<Msg>>
    decreases |s|
  {
    if s == [] then Ok([])
    else
      match ReadMessage(s)
      case Err => Err
      case Ok((m, rest)) =>
        match ReadAll(rest)
        case Err => Err
        case Ok(ms) => Ok([m] + ms)
  }

  function MarshalAll(ms: seq<Msg>): seq<byte> {
    if ms == [] then [] else Written(ms[0]) + MarshalAll(ms[1..])
  }

  /** What a message has to look like to survive the wire. */
  predicate Sound(m: Msg) {
    || (m.id == UNINTERESTED && m.payload == [] && m.len == 1)
    || ((m.id == BITFIELD || m.id == PIECE) && m.len == |m.payload| + 1 < 0x1_0000_0000)
    || ((m.id == REQUEST || m.id == CANCEL) && |m.payload| == 12 && m.len == 13)
    || (m.id == PORT && |m.payload| == 2 && m.len == 3)
    || (m.id == KEEP_ALIVE && m.payload == [] && m.len == 0)
  }

  /** Reading undoes framing: a prefix that counts the body delimits exactly that body. */
  lemma ReadFrame(id: byte, p: seq<byte>, rest: seq<byte>)
    requires |p| + 1 < 0x1_0000_0000
    ensures ReadMessage(PutUint32(|p| + 1) + [id] + p + rest) == Ok((Msg(|p| + 1, id, p), rest))
  {
    var s := PutUint32(|p| + 1) + [id] + p + rest;
    Uint32RoundTrip(|p| + 1);
    assert s[..4] == PutUint32(|p| + 1);
    assert s[5..5 + |p|] == p;
    assert s[5 + |p|..] == rest;
  }

  lemma ReadKeepAlive(rest: seq<byte>)
    ensures ReadMessage(Zeros(4) + rest) == Ok((Msg(0, KEEP_ALIVE, []), rest))
  {
    assert (Zeros(4) + rest)[..4] == Zeros(4);
    assert (Zeros(4) + rest)[4..] == rest;
  }

  /** What the other side reads when m is sent, if anything reaches the wire. */
  function Arrives(m: Msg): Msg {
    if m.id == HAVE && |m.payload| == 4 then Msg(5, m.payload[0], m.payload[1..] + [0])
    else if m.id == BITFIELD || m.id == PIECE then Msg(|m.payload| + 1, m.id, m.payload)
    else if m.id == REQUEST || m.id == CANCEL then Msg(13, m.id, Fit(m.payload, 12))
    else if m.id == PORT then Msg(3, m.id, Fit(m.payload, 2))
    else if m.id == KEEP_ALIVE then Msg(0, m.id, [])
    else Msg(1, m.id, [])
  }

  /** Does the length prefix hold the length of what is written? Only bitfields and pieces are written in full. */
  predicate Countable(m: Msg) {
    m.id == BITFIELD || m.id == PIECE ==> |m.payload| + 1 < 0x1_0000_0000
  }

  lemma WrittenIsOneFrame(m: Msg, rest: seq<byte>)
    requires Written(m) != [] && Countable(m)
    ensures ReadMessage(Written(m) + rest) == Ok((Arrives(m), rest))
  {
    var a := Arrives(m);
    if m.id == KEEP_ALIVE {
      ReadKeepAlive(rest);
    } else {
      assert Written(m) == PutUint32(|a.payload| + 1) + [a.id] + a.payload;
      ReadFrame(a.id, a.payload, rest);
    }
  }

  lemma FitExact(p: seq<byte>, n: nat)
    ensures Fit(p, n) == p <==> |p| == n
  {
  }

  /** A message sent is the message read, with whatever follows it left alone, exactly when it is sound. */
  lemma MessageRoundTrip(m: Msg, rest: seq<byte>)
    ensures ReadMessage(Written(m) + rest) == Ok((m, rest)) <==> Sound(m)
  {
    if Countable(m) {
      if Written(m) == [] {
        assert Written(m) + rest == rest;
      } else {
        WrittenIsOneFrame(m, rest);
        FitExact(m.payload, 12);
        FitExact(m.payload, 2);
      }
    } else {
      BigFrameIsCut(m, rest);
    }
  }

  /** A bitfield or piece too long for its prefix is read as what the prefix counts modulo 2^32, and reading goes on in
      the middle of it. */
  lemma BigFrameIsCut(m: Msg, rest: seq<byte>)
    requires !Countable(m)
    ensures var l := Trunc32(|m.payload| + 1);
            ReadMessage(Written(m) + rest) ==
              if l == 0 then Ok((Msg(0, KEEP_ALIVE, []), [m.id] + m.payload + rest))
              else Ok((Msg(l, m.id, m.payload[..l - 1]), m.payload[l - 1..] + rest))
  {
    var l, s := Trunc32(|m.payload| + 1), Written(m) + rest;
    Uint32RoundTrip(l);
    assert s[..4] == PutUint32(l) && s[4..] == [m.id] + m.payload + rest;
    if l > 0 {
      assert s[4] == m.id && s[5..4 + l] == m.payload[..l - 1] && s[4 + l..] == m.payload[l - 1..] + rest;
    }
  }

  /** The messages that reach the other side when ms are sent. */
  function Received(ms: seq<Msg>): seq<Msg> {
    if ms == [] then []
    else (if Written(ms[0]) == [] then [] else [Arrives(ms[0])]) + Received(ms[1..])
  }

  lemma {:induction false} StreamIsRead(ms: seq<Msg>)
    requires forall m :: m in ms ==> Countable(m)
    ensures ReadAll(MarshalAll(ms)) == Ok(Received(ms))
  {
    if ms != [] {
      StreamIsRead(ms[1..]);
      if Written(ms[0]) == [] {
        assert MarshalAll(ms) == MarshalAll(ms[1..]) && Received(ms) == Received(ms[1..]);
      } else {
        WrittenIsOneFrame(ms[0], MarshalAll(ms[1..]));
      }
    }
  }

  lemma {:induction false} ReceivedNoMore(ms: seq<Msg>)
    ensures |Received(ms)| <= |ms|
  {
    if ms != [] {
      ReceivedNoMore(ms[1..]);
    }
  }

  /** No message that is read is too long for its prefix. */
  lemma {:induction false} ReadIsCountable(s: seq<byte>)
    ensures ReadAll(s).Ok? ==> forall m :: m in ReadAll(s).value ==> Countable(m)
    decreases |s|
  {
    if s != [] && ReadMessage(s).Ok? {
      ReadIsCountable(ReadMessage(s).value.1);
    }
  }

  /** Reading the concatenated messages returns the list that was sent exactly when every message is sound. */
  lemma StreamRoundTrip(ms: seq<Msg>)
    ensures ReadAll(MarshalAll(ms)) == Ok(ms) <==> forall m :: m in ms ==> Sound(m)
  {
    if forall m :: m in ms ==> Countable(m) {
      CountableRoundTrip(ms);
    } else {
      ReadIsCountable(MarshalAll(ms));
    }
  }

  lemma {:induction false} CountableRoundTrip(ms: seq<Msg>)
    requires forall m :: m in ms ==> Countable(m)
    ensures ReadAll(MarshalAll(ms)) == Ok(ms) <==> forall m :: m in ms ==> Sound(m)
  {
    StreamIsRead(ms);
    if ms != [] {
      CountableRoundTrip(ms[1..]);
      StreamIsRead(ms[1..]);
      ReceivedNoMore(ms[1..]);
      MessageRoundTrip(ms[0], []);
      if Written(ms[0]) != [] {
        WrittenIsOneFrame(ms[0], []);
        assert Received(ms)[1..] == Received(ms[1..]);
      } else {
        assert Received(ms) == Received(ms[1..]);
        assert !Sound(ms[0]);
      }
      assert ms == [ms[0]] + ms[1..];
    }
  }

  function NewSignal(id: byte): Msg {
    Msg(1, id, [])
  }

  /** As written, the payload that holds the piece index is built and then dropped. */
  function NewHave(pieceIndex: u32): Msg {
    Msg(5, HAVE, [])
  }

  function Trio(ibl: Ibl): (p: seq<byte>)
    ensures |p| == 12
  {
    PutUint32(Trunc32(ibl.index)) + PutUint32(Trunc32(ibl.begin)) + PutUint32(Trunc32(ibl.length))
  }

  function NewRequest(ibl: Ibl): Msg {
    Msg(13, REQUEST, Trio(ibl))
  }

  function NewCancel(ibl: Ibl): Msg {
    Msg(13, CANCEL, Trio(ibl))
  }

  datatype PieceMsg = PieceMsg(index: u32, begin: u32, block: seq<byte>)

  /** As written: the id is that of a request, and the block overwrites the index and the offset. */
  function NewPieceMMsg(p: PieceMsg): Msg {
    var head := PutUint32(p.index) + PutUint32(p.begin) + Zeros(|p.block|);
    Msg(9 + |p.block|, REQUEST, p.block + head[|p.block|..])
  }

  function ParsePieceMsg(m: Msg): Result<PieceMsg> {
    if m.id != PIECE || |m.payload| < 8 then Err
    else Ok(PieceMsg(Uint32(m.payload[..4]), Uint32(m.payload[4..8]), m.payload[8..]))
  }

  /** Requests and cancels arrive, and name the block they were made for as long as its numbers fit 32 bits. */
  lemma RequestArrives(ibl: Ibl, rest: seq<byte>)
    requires ibl.index < 0x1_0000_0000 && ibl.begin < 0x1_0000_0000 && ibl.length < 0x1_0000_0000
    ensures ReadMessage(Written(NewRequest(ibl)) + rest) == Ok((NewRequest(ibl), rest))
    ensures ReadMessage(Written(NewCancel(ibl)) + rest) == Ok((NewCancel(ibl), rest))
    ensures var p := Trio(ibl); Ibl(Uint32(p[..4]), Uint32(p[4..8]), Uint32(p[8..])) == ibl
  {
    MessageRoundTrip(NewRequest(ibl), rest);
    MessageRoundTrip(NewCancel(ibl), rest);
    TrioNamesBlock(ibl);
  }

  lemma TrioNamesBlock(ibl: Ibl)
    requires ibl.index < 0x1_0000_0000 && ibl.begin < 0x1_0000_0000 && ibl.length < 0x1_0000_0000
    ensures var p := Trio(ibl); Ibl(Uint32(p[..4]), Uint32(p[4..8]), Uint32(p[8..])) == ibl
  {
    var a, b, c := Trunc32(ibl.index), Trunc32(ibl.begin), Trunc32(ibl.length);
    assert a == ibl.index && b == ibl.begin && c == ibl.length;
    Uint32RoundTrip(a);
    Uint32RoundTrip(b);
    Uint32RoundTrip(c);
    var p, q, r := PutUint32(a), PutUint32(b), PutUint32(c);
    assert Trio(ibl) == p + q + r;
    FieldsBack(p, q, r);
  }

  lemma FieldsBack(a: seq<byte>, b: seq<byte>, c: seq<byte>)
    requires |a| == |b| == |c| == 4
    ensures var p := a + b + c;
            Uint32(p[..4]) == Uint32(a) && Uint32(p[4..8]) == Uint32(b) && Uint32(p[8..]) == Uint32(c)
  {
    ThreeFields(a, b, c);
  }

  lemma ThreeFields(a: seq<byte>, b: seq<byte>, c: seq<byte>)
    requires |a| == |b| == 4
    ensures (a + b + c)[..4] == a && (a + b + c)[4..8] == b && (a + b + c)[8..] == c
  {
  }

  /** As written, choke, unchoke and interested write nothing, and no have or piece message can be understood. */
  lemma LostMessages(id: byte, i: u32, p: PieceMsg, rest: seq<byte>)
    requires id == CHOKE || id == UNCHOKE || id == INTERESTED
    ensures Written(NewSignal(id)) == [] && Written(NewHave(i)) == []
    ensures |p.block| < 0x1_0000_0000 ==>
              ReadMessage(Written(NewPieceMMsg(p)) + rest).Ok? &&
              ParsePieceMsg(ReadMessage(Written(NewPieceMMsg(p)) + rest).value.0) == Err
  {
    var m := NewPieceMMsg(p);
    if |p.block| < 0x1_0000_0000 {
      var m' := m.(payload := m.payload[..if |m.payload| > 12 then 12 else |m.payload|]);
      assert Written(m) == Written(m');
      WrittenIsOneFrame(m', rest);
    }
  }

  /** The reading side of a piece message: a block sent in the documented layout is parsed back. */
  lemma PieceIsParsed(p: PieceMsg, rest: seq<byte>)
    requires |p.block| + 9 < 0x1_0000_0000
    ensures var m := Msg(9 + |p.block|, PIECE, PutUint32(p.index) + PutUint32(p.begin) + p.block);
            ReadMessage(Written(m) + rest) == Ok((m, rest)) && ParsePieceMsg(m) == Ok(p)
  {
    var m := Msg(9 + |p.block|, PIECE, PutUint32(p.index) + PutUint32(p.begin) + p.block);
    MessageRoundTrip(m, rest);
    Uint32RoundTrip(p.index);
    Uint32RoundTrip(p.begin);
    ThreeFields(PutUint32(p.index), PutUint32(p.begin), p.block);
  }

  /** Bitfield.Has: the most significant bit of a byte stands for the first of its eight pieces. */
  predicate Has(b: seq<byte>, i: int) {
    if i < 0 then false
    else if i / 8 >= |b| then false
    else Bit(b[i / 8], 7 - i % 8)
  }

  /** Bitfield.Set, in place. */
  method Set(b: array<byte>, i: int) returns (ok: bool)
    modifies b
    ensures ok <==> 0 <= i < 8 * b.Length
    ensures forall j :: Has(b[..], j) <==> (ok && j == i) || Has(old(b[..]), j)
  {
    if i < 0 {
      return false;
    }
    var pos, off := i / 8, i % 8;
    if pos >= b.Length {
      return false;
    }
    ByteBits();
    ghost var was := b[pos];
    b[pos] := SetBit(b[pos], 7 - off, 8);
    ok := true;
    forall j ensures Has(b[..], j) <==> j == i || Has(old(b[..]), j) {
      if 0 <= j && j / 8 == pos {
        SetBitIsOr(was, 7 - off, 8, 7 - j % 8);
      }
    }
  }

  /** A set of pieces put into a fresh bitfield with Set and sent to the peer is the set the peer finds with Has; pieces
      that do not fit the bitfield are left out. */
  method SendPieces(pieces: seq<int>, n: nat, rest: seq<byte>) returns (m: Msg, wire: seq<byte>)
    requires n + 1 < 0x1_0000_0000
    ensures ReadMessage(wire + rest) == Ok((m, rest)) && |m.payload| == n
    ensures forall i :: Has(m.payload, i) <==> i in pieces && 0 <= i < 8 * n
  {
    var b := new byte[n](_ => 0);
    forall i ensures !Has(b[..], i) {
      if 0 <= i && i / 8 < n {
        NoBits(7 - i % 8);
      }
    }
    for k := 0 to |pieces|
      invariant forall i :: Has(b[..], i) <==> i in pieces[..k] && 0 <= i < 8 * n
    {
      var _ := Set(b, pieces[k]);
      assert pieces[..k + 1] == pieces[..k] + [pieces[k]];
    }
    assert pieces[..|pieces|] == pieces;
    m := Msg(n + 1, BITFIELD, b[..]);
    var ok;
    wire, ok := Marshall(m);
    MessageRoundTrip(m, rest);
  }
}
