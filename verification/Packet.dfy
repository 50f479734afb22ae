/** uTP packets: a 20-byte header, extensions, and a payload, all in one byte sequence. */
module Packet {
  import opened Bytes
  import opened Wrappers

  const HEADER_SIZE := 20

  datatype PacketType = Data | Fin | State | Reset | Syn | Invalid

  type Packet = p: seq<byte> | |p| >= 20 witness Zeros(20)

  function PacketByte(t: PacketType): byte {
    match t
    case Data => 0
    case Fin => 1
    case State => 2
    case Reset => 3
    case Syn => 4
    case Invalid => 5
  }

  function GetType(p: Packet): PacketType {
    match p[0] / 16
    case 0 => Data
    case 1 => Fin
    case 2 => State
    case 3 => Reset
    case 4 => Syn
    case _ => Invalid
  }

  function GetVer(p: Packet): byte { p[0] % 16 }
  function ConnId(p: Packet): u16 { Get16(p, 2) }
  function Timestamp(p: Packet): u32 { Get32(p, 4) }
  function TimestampDiff(p: Packet): u32 { Get32(p, 8) }
  function WndSize(p: Packet): u32 { Get32(p, 12) }
  function SeqNr(p: Packet): u16 { Get16(p, 16) }
  function AckNr(p: Packet): u16 { Get16(p, 18) }

  function SetType(p: Packet, t: PacketType): Packet { p[0 := PacketByte(t) * 16 + p[0] % 16] }
  function SetConnId(p: Packet, n: u16): Packet { Set16(p, 2, n) }
  function SetTimestamp(p: Packet, n: u32): Packet { Set32(p, 4, n) }
  /** As written, the difference is stored where the timestamp belongs. */
  function SetTimespanDiff(b: Build, p: Packet, n: u32): Packet { Set32(p, if b.AsWritten? then 4 else 8, n) }
  function SetWndSize(p: Packet, n: u32): Packet { Set32(p, 12, n) }
  function SetSeqNr(p: Packet, n: u16): Packet { Set16(p, 16, n) }
  function SetAckNr(p: Packet, n: u16): Packet { Set16(p, 18, n) }

  /** invEndUint16: the code swaps the bytes of a number before it stores it big-endian. */
  function InvEnd16(i: u16): u16 { i / 0x100 + i % 0x100 * 0x100 }

  /** So header fields travel little-endian, and swapping twice is no change. */
  lemma FieldsTravelLittleEndian(p: Packet, at: nat, n: u16)
    requires at + 2 <= |p|
    ensures InvEnd16(InvEnd16(n)) == n
    ensures Get16(p, at) == InvEnd16(p[at] as int * 0x100 + p[at + 1] as int)
    ensures InvEnd16(n) / 0x100 == Set16(p, at, n)[at] && InvEnd16(n) % 0x100 == Set16(p, at, n)[at + 1]
  {
  }

  /** Every setter is read back by its getter and touches no byte of another field. As written, the setter of the
      timestamp difference is the exception: it is read back as the timestamp. */
  lemma SettersReadBack(b: Build, p: Packet, t: PacketType, n: u16, m: u32)
    ensures GetType(SetType(p, t)) == t && GetVer(SetType(p, t)) == GetVer(p) && SameExcept(p, SetType(p, t), 0, 1)
    ensures ConnId(SetConnId(p, n)) == n && SameExcept(p, SetConnId(p, n), 2, 4)
    ensures Timestamp(SetTimestamp(p, m)) == m && SameExcept(p, SetTimestamp(p, m), 4, 8)
    ensures WndSize(SetWndSize(p, m)) == m && SameExcept(p, SetWndSize(p, m), 12, 16)
    ensures SeqNr(SetSeqNr(p, n)) == n && SameExcept(p, SetSeqNr(p, n), 16, 18)
    ensures AckNr(SetAckNr(p, n)) == n && SameExcept(p, SetAckNr(p, n), 18, 20)
    ensures TimestampDiff(SetTimespanDiff(b, p, m)) == m <==> b.AsCommented? || TimestampDiff(p) == m
    ensures b.AsWritten? ==> Timestamp(SetTimespanDiff(b, p, m)) == m
  {
    Set16RoundTrip(p, 2, n);
    Set32RoundTrip(p, 4, m);
    Set32RoundTrip(p, 8, m);
    Set32RoundTrip(p, 12, m);
    Set16RoundTrip(p, 16, n);
    Set16RoundTrip(p, 18, n);
  }

  /** A blank header. As written its version is 0, where the receiver insists on 1. */
  function NewPacket(b: Build): Packet {
    [if b.AsWritten? then 0 else 1] + Zeros(19)
  }

  function NewPacketWithPayload(b: Build, data: seq<byte>): Packet {
    SetType(NewPacket(b), Data) + data
  }

  /** The loop that checks the extensions, as written: the extension type never changes inside it, so it can only
      succeed for a packet that announces no extension at all. */
  method ChectExts(b: seq<byte>) returns (ok: bool)
    ensures ok <==> |b| >= HEADER_SIZE && b[1] == 0
  {
    if |b| < HEADER_SIZE {
      return false;
    }
    var i, extType := HEADER_SIZE, b[1];
    if |b| == HEADER_SIZE && extType != 0 {
      return false;
    }
    while i < |b| && extType != 0
      decreases |b| - i
    {
      if |b| < i + 2 {
        return false;
      }
      var l := b[i + 1];
      if l == 0 || l % 4 != 0 || i + 2 + l > |b| {
        return false;
      }
      i := i + l + 2;
    }
    return extType == 0;
  }

  /** PacketFromBytes: the packet, if the version, the type and the extensions are acceptable. */
  function Decode(b: seq<byte>): Result<Packet> {
    if |b| >= HEADER_SIZE && b[0] % 16 == 1 && b[0] / 16 <= 5 && b[1] == 0 then Ok(b) else Err
  }

  method PacketFromBytes(b: seq<byte>) returns (r: Result<Packet>)
    ensures r == Decode(b)
  {
    if |b| < HEADER_SIZE || b[0] % 16 != 1 || b[0] / 16 > 5 {
      return Err;
    }
    var ok := ChectExts(b);
    if !ok {
      return Err;
    }
    return Ok(b);
  }

  /** The payload of an accepted packet: no extension is in the way. */
  function Payload(p: Packet): seq<byte> {
    p[HEADER_SIZE..]
  }

  /** As written, no packet built by this code is accepted by this code. With the version put right every one is. */
  lemma BuiltPacketsAccepted(b: Build, data: seq<byte>)
    ensures Decode(NewPacketWithPayload(b, data)).Ok? <==> b.AsCommented?
    ensures Decode(NewPacket(b)).Ok? <==> b.AsCommented?
    ensures Payload(NewPacketWithPayload(b, data)) == data
    ensures GetType(NewPacketWithPayload(b, data)) == Data
  {
  }

  /** What a packet says, apart from its timestamps: the form in which a socket handles packets. */
  datatype Segment = Segment(ty: PacketType, connId: u16, wndSize: u32, seqNr: u16, ackNr: u16, payload: seq<byte>) {
    /** The length of the packet in bytes. */
    function Len(): nat {
      HEADER_SIZE + |payload|
    }
  }

  function View(p: Packet): Segment {
    Segment(GetType(p), ConnId(p), WndSize(p), SeqNr(p), AckNr(p), Payload(p))
  }

  /** The packet for a segment: a new packet with its payload, and then the setters, one field at a time. */
  function Encode(b: Build, s: Segment, timestamp: u32, diff: u32): Packet {
    var p := SetType(NewPacketWithPayload(b, s.payload), s.ty);
    var p := SetAckNr(SetSeqNr(SetWndSize(SetConnId(p, s.connId), s.wndSize), s.seqNr), s.ackNr);
    SetTimespanDiff(b, SetTimestamp(p, timestamp), diff)
  }

  /** What is encoded is decoded, whatever the timestamps; as written it is refused. */
  lemma EncodeDecode(b: Build, s: Segment, timestamp: u32, diff: u32)
    ensures Decode(Encode(b, s, timestamp, diff)) == if b.AsWritten? then Err else Ok(Encode(b, s, timestamp, diff))
    ensures View(Encode(b, s, timestamp, diff)) == s
    ensures |Encode(b, s, timestamp, diff)| == s.Len()
  {
  }
}
