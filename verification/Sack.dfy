/** Selective acknowledgements: the bit vector built from the reorder buffer, and what the peer concludes from it
    (BEP 29, section "header format"). */
module Sack {
  import opened Bytes
  import opened Packet
  import opened Receive

  datatype Vector = Vector(bytes: seq<byte>) | OutOfRange

  /** The number of the packet that place k of a vector stands for. */
  function At(ackNr: u16, k: nat): u16 {
    Add16(ackNr, 2 + k)
  }

  /** The bit positions to be set: one for each packet beyond the next expected one. As written, the packets are picked
      by comparing with the socket's own sequence number. */
  function Stash(b: Build, buff: seq<Segment>, seqNr: u16, ackNr: u16): seq<nat> {
    if buff == [] then [] else StashAt(b, buff[0], seqNr, ackNr) + Stash(b, buff[1..], seqNr, ackNr)
  }

  function StashAt(b: Build, p: Segment, seqNr: u16, ackNr: u16): seq<nat> {
    if p.seqNr > Threshold(b, seqNr, ackNr) then [Sub16(p.seqNr, ackNr as int + 2)] else []
  }

  function Threshold(b: Build, seqNr: u16, ackNr: u16): u16 {
    Add16(if b.AsWritten? then seqNr else ackNr, 1)
  }

  lemma StashStep(got: seq<nat>, b: Build, buff: seq<Segment>, i: nat, seqNr: u16, ackNr: u16)
    requires i < |buff|
    ensures got + Stash(b, buff[i..], seqNr, ackNr) ==
            got + StashAt(b, buff[i], seqNr, ackNr) + Stash(b, buff[i + 1..], seqNr, ackNr)
    ensures got + [] == got
  {
    assert buff[i..][1..] == buff[i + 1..];
  }

  /** Does the growing loop go on? As written it goes on when the length is a multiple of 4, not until it is one. */
  predicate TooShort(b: Build, len: nat, byt: nat) {
    if b.AsWritten? then byt > len || len % 4 == 0 else byt >= len || len % 4 != 0
  }

  /** How many more bytes the growing loop may append. */
  function Remaining(b: Build, len: nat, byt: nat): nat {
    if b.AsWritten? then (if byt > len then byt - len + 1 else if len % 4 == 0 then 1 else 0)
    else if byt >= len then byt - len + 4 else (4 - len % 4) % 4
  }

  function Grow(b: Build, sack: seq<byte>, byt: nat): (r: seq<byte>)
    ensures sack <= r && !TooShort(b, |r|, byt)
    ensures forall i :: |sack| <= i < |r| ==> r[i] == 0
    decreases Remaining(b, |sack|, byt)
  {
    if TooShort(b, |sack|, byt) then
      GrowingEnds(b, |sack|, byt);
      Grow(b, sack + [0], byt)
    else sack
  }

  lemma GrowingEnds(b: Build, len: nat, byt: nat)
    requires TooShort(b, len, byt)
    ensures Remaining(b, len + 1, byt) < Remaining(b, len, byt)
  {
  }

  /** Setting one bit after the other, each after making room for it. */
  function Fill(b: Build, sack: seq<byte>, stash: seq<nat>): Vector
    decreases |stash|
  {
    if stash == [] then Vector(sack)
    else
      var grown := Grow(b, sack, stash[0] / 8);
      if stash[0] / 8 < |grown| then Fill(b, PutBit(grown, stash[0]), stash[1..]) else OutOfRange
  }

  function PutBit(sack: seq<byte>, d: nat): (r: seq<byte>)
    requires d / 8 < |sack|
    ensures |r| == |sack|
  {
    ByteBits();
    sack[d / 8 := SetBit(sack[d / 8], d % 8, 8)]
  }

  /** Bit k of a vector, least significant bit of the first byte first. */
  predicate BitAt(sack: seq<byte>, k: nat) {
    k / 8 < |sack| && Bit(sack[k / 8], k % 8)
  }

  /** buildSelectiveAck: first the positions, then the vector. */
  method BuildSelectiveAck(b: Build, buff: seq<Segment>, seqNr: u16, ackNr: u16) returns (v: Vector)
    ensures v == Fill(b, [], Stash(b, buff, seqNr, ackNr))
  {
    var stashed: seq<nat> := [];
    for i := 0 to |buff|
      invariant stashed + Stash(b, buff[i..], seqNr, ackNr) == Stash(b, buff, seqNr, ackNr)
    {
      StashStep(stashed, b, buff, i, seqNr, ackNr);
      if buff[i].seqNr > Threshold(b, seqNr, ackNr) {
        stashed := stashed + [Sub16(buff[i].seqNr, ackNr as int + 2)];
      }
    }
    assert stashed == Stash(b, buff, seqNr, ackNr);
    v := SetStashed(b, stashed);
  }

  method SetStashed(b: Build, stashed: seq<nat>) returns (v: Vector)
    ensures v == Fill(b, [], stashed)
  {
    var sack: seq<byte> := [];
    for i := 0 to |stashed|
      invariant Fill(b, sack, stashed[i..]) == Fill(b, [], stashed)
    {
      sack := MakeRoom(b, sack, stashed[i] / 8);
      if stashed[i] / 8 >= |sack| {
        return OutOfRange; // index out of range
      }
      sack := PutBit(sack, stashed[i]);
    }
    return Vector(sack);
  }

  method MakeRoom(b: Build, sack: seq<byte>, byt: nat) returns (r: seq<byte>)
    ensures r == Grow(b, sack, byt)
  {
    r := sack;
    while TooShort(b, |r|, byt)
      invariant Grow(b, r, byt) == Grow(b, sack, byt)
      decreases Remaining(b, |r|, byt)
    {
      GrowingEnds(b, |r|, byt);
      r := r + [0];
    }
  }

  // ---------- as written ----------

  /** The vectors that the code as written can build: each new longest one must need a byte whose index is divisible by
      4. */
  predicate Buildable(stash: seq<nat>, len: nat) {
    stash == [] ||
    if stash[0] / 8 < len then Buildable(stash[1..], len)
    else stash[0] / 8 % 4 == 0 && Buildable(stash[1..], stash[0] / 8 + 1)
  }

  lemma {:induction false} GrowAsWritten(sack: seq<byte>, byt: nat)
    requires |sack| == 0 || |sack| % 4 == 1
    ensures var n := |Grow(AsWritten, sack, byt)|;
            if byt < |sack| then n == |sack| else n == if byt % 4 == 0 then byt + 1 else byt
  {
    var r := sack;
    if byt >= |sack| {
      if byt > |sack| {
        GrowUpTo(sack, byt, |sack|);
      }
    }
  }

  lemma {:induction false} GrowUpTo(sack: seq<byte>, byt: nat, n: nat)
    requires |sack| == n <= byt
    ensures |Grow(AsWritten, sack, byt)| == if byt % 4 == 0 then byt + 1 else byt
    decreases byt - n
  {
    if n < byt {
      GrowUpTo(sack + [0], byt, n + 1);
    }
  }

  /** As written, building the vector runs out of range exactly when it is not buildable, and what it does build is
      never a positive multiple of 4 bytes long: setSack refuses every vector, and no reply carries one. */
  lemma {:induction false} WrittenVectors(sack: seq<byte>, stash: seq<nat>)
    requires |sack| == 0 || |sack| % 4 == 1
    ensures Fill(AsWritten, sack, stash).Vector? <==> Buildable(stash, |sack|)
    ensures Fill(AsWritten, sack, stash).Vector? ==>
              var n := |Fill(AsWritten, sack, stash).bytes|; (n == 0 && stash == []) || n % 4 == 1
    decreases |stash|
  {
    if stash != [] {
      GrowAsWritten(sack, stash[0] / 8);
      var grown := Grow(AsWritten, sack, stash[0] / 8);
      if stash[0] / 8 < |grown| {
        WrittenVectors(PutBit(grown, stash[0]), stash[1..]);
      }
    }
  }

  // ---------- with the repairs ----------

  lemma PutBitSets(sack: seq<byte>, d: nat, k: nat)
    requires d / 8 < |sack|
    ensures BitAt(PutBit(sack, d), k) <==> k == d || BitAt(sack, k)
  {
    ByteBits();
    if k / 8 == d / 8 {
      SetBitIsOr(sack[d / 8], d % 8, 8, k % 8);
    }
  }

  lemma GrowKeepsBits(b: Build, sack: seq<byte>, byt: nat, k: nat)
    ensures BitAt(Grow(b, sack, byt), k) <==> BitAt(sack, k)
  {
    if |sack| <= k / 8 < |Grow(b, sack, byt)| {
      NoBits(k % 8);
    }
  }

  lemma {:induction false} FillSets(sack: seq<byte>, stash: seq<nat>, k: nat)
    requires |sack| % 4 == 0
    ensures var v := Fill(AsCommented, sack, stash);
            v.Vector? && |v.bytes| % 4 == 0 && |sack| <= |v.bytes| &&
                (BitAt(v.bytes, k) <==> k in stash || BitAt(sack, k))
    decreases |stash|
  {
    if stash != [] {
      var grown := Grow(AsCommented, sack, stash[0] / 8);
      GrowKeepsBits(AsCommented, sack, stash[0] / 8, k);
      PutBitSets(grown, stash[0], k);
      FillSets(PutBit(grown, stash[0]), stash[1..], k);
    }
  }

  lemma BufferedFirst(buff: seq<Segment>, s: u16)
    requires buff != []
    ensures Buffered(buff, s) <==> buff[0].seqNr == s || Buffered(buff[1..], s)
  {
    if Buffered(buff, s) {
      var i :| 0 <= i < |buff| && buff[i].seqNr == s;
      assert i > 0 ==> buff[1..][i - 1] == buff[i];
    }
    if Buffered(buff[1..], s) {
      var i :| 0 <= i < |buff[1..]| && buff[1..][i].seqNr == s;
      assert buff[i + 1] == buff[1..][i];
    }
  }

  lemma PositionOf(ackNr: u16, s: u16, k: nat)
    ensures k == Sub16(s, ackNr as int + 2) <==> k < 0x1_0000 && s == At(ackNr, k)
  {
    var d := s - ackNr as int - 2;
    assert Sub16(s, ackNr as int + 2) == if d >= 0 then d else if d >= -0x1_0000 then d + 0x1_0000 else d + 0x2_0000;
  }

  lemma {:induction false} StashHolds(b: Build, buff: seq<Segment>, seqNr: u16, ackNr: u16, k: nat)
    ensures k in Stash(b, buff, seqNr, ackNr) <==>
              k < 0x1_0000 && At(ackNr, k) > Threshold(b, seqNr, ackNr) && Buffered(buff, At(ackNr, k))
  {
    if buff != [] {
      StashHolds(b, buff[1..], seqNr, ackNr, k);
      BufferedFirst(buff, At(ackNr, k));
      PositionOf(ackNr, buff[0].seqNr, k);
    }
  }

  /** The vector of the buffered packets, with the repairs. */
  ghost function VectorOf(buff: seq<Segment>, seqNr: u16, ackNr: u16): (bv: seq<byte>)
    ensures Fill(AsCommented, [], Stash(AsCommented, buff, seqNr, ackNr)) == Vector(bv)
  {
    FillSets([], Stash(AsCommented, buff, seqNr, ackNr), 0);
    Fill(AsCommented, [], Stash(AsCommented, buff, seqNr, ackNr)).bytes
  }

  /** Bit k of the vector is set exactly when packet ackNr + 2 + k is buffered, and its number is greater than ackNr +
      1: what lies behind the wrap of the numbers is left out. The length is a multiple of 4. */
  lemma VectorMeansBuffered(buff: seq<Segment>, seqNr: u16, ackNr: u16, k: nat)
    ensures var bv := VectorOf(buff, seqNr, ackNr);
            && |bv| % 4 == 0 && |bv| <= 0x2000
            && (BitAt(bv, k) <==> k < 0x1_0000 && At(ackNr, k) > Add16(ackNr, 1) && Buffered(buff, At(ackNr, k)))
  {
    var stash := Stash(AsCommented, buff, seqNr, ackNr);
    FillSets([], stash, k);
    StashHolds(AsCommented, buff, seqNr, ackNr, k);
    forall d | d in stash ensures d < 0x1_0000 {
      StashHolds(AsCommented, buff, seqNr, ackNr, d);
    }
    FillBounded([], stash);
  }

  lemma {:induction false} FillBounded(sack: seq<byte>, stash: seq<nat>)
    requires |sack| % 4 == 0 && |sack| <= 0x2000 && forall d :: d in stash ==> d < 0x1_0000
    ensures Fill(AsCommented, sack, stash).Vector? ==> |Fill(AsCommented, sack, stash).bytes| <= 0x2000
    decreases |stash|
  {
    if stash != [] {
      assert stash[0] in stash && forall d :: d in stash[1..] ==> d in stash;
      GrowBounded(sack, stash[0] / 8);
      var grown := Grow(AsCommented, sack, stash[0] / 8);
      FillBounded(PutBit(grown, stash[0]), stash[1..]);
    }
  }

  lemma {:induction false} GrowBounded(sack: seq<byte>, byt: nat)
    requires |sack| <= 0x2000 && byt < 0x2000
    ensures |Grow(AsCommented, sack, byt)| <= 0x2000
    decreases Remaining(AsCommented, |sack|, byt)
  {
    if TooShort(AsCommented, |sack|, byt) {
      GrowingEnds(AsCommented, |sack|, byt);
      GrowBounded(sack + [0], byt);
    }
  }

  /** Packet 3, sent after the wrap, is buffered, but the vector does not say so. */
  lemma WrapIsLeftOut()
    ensures VectorOf([Segment(Data, 0, 0, 3, 0, [1])], 1, 65530) == []
  {
    var buff := [Segment(Data, 0, 0, 3, 0, [1])];
    assert Stash(AsCommented, buff, 1, 65530) == [];
  }

  /** The wrong base number of the code as written, with the length put right: the vector is the right one exactly if no
      buffered packet lies between the two numbers, modulo their wrap. */
  lemma WrongBaseIff(buff: seq<Segment>, seqNr: u16, ackNr: u16)
    ensures Fill(AsCommented, [], Stash(AsWritten, buff, seqNr, ackNr)) == Vector(VectorOf(buff, seqNr, ackNr)) <==>
              forall p :: p in buff ==> (p.seqNr > Add16(seqNr, 1) <==> p.seqNr > Add16(ackNr, 1))
  {
    if forall p :: p in buff ==> (p.seqNr > Add16(seqNr, 1) <==> p.seqNr > Add16(ackNr, 1)) {
      SameStash(buff, seqNr, ackNr);
    } else {
      var p :| p in buff && !(p.seqNr > Add16(seqNr, 1) <==> p.seqNr > Add16(ackNr, 1));
      var k := Sub16(p.seqNr, ackNr as int + 2);
      PositionOf(ackNr, p.seqNr, k);
      var i :| 0 <= i < |buff| && buff[i] == p;
      assert Buffered(buff, p.seqNr);
      StashHolds(AsWritten, buff, seqNr, ackNr, k);
      StashHolds(AsCommented, buff, seqNr, ackNr, k);
      FillSets([], Stash(AsWritten, buff, seqNr, ackNr), k);
      FillSets([], Stash(AsCommented, buff, seqNr, ackNr), k);
    }
  }

  lemma {:induction false} SameStash(buff: seq<Segment>, seqNr: u16, ackNr: u16)
    requires forall p :: p in buff ==> (p.seqNr > Add16(seqNr, 1) <==> p.seqNr > Add16(ackNr, 1))
    ensures Stash(AsWritten, buff, seqNr, ackNr) == Stash(AsCommented, buff, seqNr, ackNr)
  {
    if buff != [] {
      assert buff[0] in buff;
      SameStash(buff[1..], seqNr, ackNr);
    }
  }

  // ---------- the peer's side ----------

  class BitStream {
    const build: Build
    const data: seq<byte>
    var next: nat
    const end: nat

    ghost predicate Valid()
      reads this
    {
      end == 8 * |data| && next <= end
    }

    constructor (build: Build, b: seq<byte>)
      ensures Valid() && data == b && next == 0 && this.build == build
    {
      this.build, data, next, end := build, b, 0, |b| * 8;
    }

    /** The next bit, if there is one. As written the cursor stays where it is, so the first bit is read for ever. */
    method Next() returns (bit: bool, ok: bool)
      requires Valid()
      modifies this`next
      ensures Valid() && (ok <==> old(next) < end)
      ensures ok ==> (bit <==> BitAt(data, old(next)))
      ensures next == NextCursor(build, data, old(next))
    {
      ok := end != next;
      bit := ok && Bit(data[next / 8], next % 8);
      if ok && build.AsCommented? {
        next := next + 1;
      }
    }
  }

  /** Where the cursor is after one more call. */
  function NextCursor(b: Build, data: seq<byte>, next: nat): nat {
    if next != 8 * |data| && b.AsCommented? then next + 1 else next
  }

  function CursorAfter(b: Build, data: seq<byte>, calls: nat): nat {
    if calls == 0 then 0 else NextCursor(b, data, CursorAfter(b, data, calls - 1))
  }

  /** A loop that calls Next until there is no bit comes to an end exactly if, as written, there is no bit at all. */
  lemma LoopEndsIff(b: Build, data: seq<byte>)
    ensures (exists calls :: CursorAfter(b, data, calls) == 8 * |data|) <==> b.AsCommented? || data == []
  {
    if b.AsCommented? {
      CursorMoves(data, 8 * |data|);
      assert CursorAfter(b, data, 8 * |data|) == 8 * |data|;
    } else if data == [] {
      assert CursorAfter(b, data, 0) == 8 * |data|;
    } else if exists calls :: CursorAfter(b, data, calls) == 8 * |data| {
      var calls :| CursorAfter(b, data, calls) == 8 * |data|;
      CursorStays(data, calls);
    }
  }

  lemma {:induction false} CursorMoves(data: seq<byte>, calls: nat)
    requires calls <= 8 * |data|
    ensures CursorAfter(AsCommented, data, calls) == calls
  {
    if calls > 0 {
      CursorMoves(data, calls - 1);
    }
  }

  lemma {:induction false} CursorStays(data: seq<byte>, calls: nat)
    ensures CursorAfter(AsWritten, data, calls) == 0
  {
    if calls > 0 {
      CursorStays(data, calls - 1);
    }
  }

  /** As written the test compares with 1, and so holds of the lowest bit only. */
  predicate IsBitSet(b: Build, x: byte, i: nat) {
    Bit(x, i) && (b.AsWritten? ==> i == 0)
  }

  /** The positions below k of the bits that are set. */
  ghost function SetBits(data: seq<byte>, k: nat): set<nat> {
    set i: nat | i < k && BitAt(data, i)
  }

  /** Those of them that are the lowest bit of a byte. */
  ghost function LowBits(data: seq<byte>, k: nat): set<nat> {
    set i: nat | i < k && i % 8 == 0 && BitAt(data, i)
  }

  /** The number of bits that are set; as written, of those that are the lowest of a byte, which is the right number
      exactly if no other bit is set. */
  method CountOnes(b: Build, data: seq<byte>) returns (n: nat)
    ensures n == if b.AsCommented? then |SetBits(data, 8 * |data|)| else |LowBits(data, 8 * |data|)|
    ensures n == |SetBits(data, 8 * |data|)| <==>
            b.AsCommented? || forall i: nat :: i < 8 * |data| && BitAt(data, i) ==> i % 8 == 0
  {
    n := 0;
    for j := 0 to |data|
      invariant n == if b.AsCommented? then |SetBits(data, 8 * j)| else |LowBits(data, 8 * j)|
    {
      for i := 0 to 8
        invariant n == if b.AsCommented? then |SetBits(data, 8 * j + i)| else |LowBits(data, 8 * j + i)|
      {
        OneMoreBit(data, j, i);
        if IsBitSet(b, data[j], i) {
          n := n + 1;
        }
      }
    }
    OnlyLowBits(data, 8 * |data|);
  }

  lemma OneMoreBit(data: seq<byte>, j: nat, i: nat)
    requires j < |data| && i < 8
    ensures |SetBits(data, 8 * j + i + 1)| == |SetBits(data, 8 * j + i)| + if Bit(data[j], i) then 1 else 0
    ensures |LowBits(data, 8 * j + i + 1)| == |LowBits(data, 8 * j + i)| + if Bit(data[j], i) && i == 0 then 1 else 0
  {
    var k := 8 * j + i;
    assert BitAt(data, k) <==> Bit(data[j], i);
    assert k % 8 == 0 <==> i == 0;
    OneMoreSet(data, k);
    OneMoreLow(data, k);
  }

  lemma OneMoreSet(data: seq<byte>, k: nat)
    ensures |SetBits(data, k + 1)| == |SetBits(data, k)| + if BitAt(data, k) then 1 else 0
  {
    assert SetBits(data, k + 1) == SetBits(data, k) + if BitAt(data, k) then {k} else {};
  }

  lemma OneMoreLow(data: seq<byte>, k: nat)
    ensures |LowBits(data, k + 1)| == |LowBits(data, k)| + if BitAt(data, k) && k % 8 == 0 then 1 else 0
  {
    assert LowBits(data, k + 1) == LowBits(data, k) + if BitAt(data, k) && k % 8 == 0 then {k} else {};
  }

  lemma OnlyLowBits(data: seq<byte>, k: nat)
    ensures |LowBits(data, k)| == |SetBits(data, k)| <==> forall i: nat :: i < k && BitAt(data, i) ==> i % 8 == 0
  {
    var low, all := LowBits(data, k), SetBits(data, k);
    assert low <= all && all == low + (all - low);
    if |low| == |all| {
      assert |all - low| == 0;
      forall i: nat | i < k && BitAt(data, i) ensures i % 8 == 0 {
        assert i in all;
        assert i in low;
      }
    } else {
      assert all != low;
    }
  }

  /** The numbers that a vector reports as lost: unset bits for packets before the last one sent. */
  function Lost(sack: seq<byte>, ackNr: u16, lastSeqNr: u16, i: nat): seq<u16>
    decreases 8 * |sack| - i
  {
    if i >= 8 * |sack| then [] else LostAt(sack, ackNr, lastSeqNr, i) + Lost(sack, ackNr, lastSeqNr, i + 1)
  }

  function LostAt(sack: seq<byte>, ackNr: u16, lastSeqNr: u16, i: nat): seq<u16> {
    if !BitAt(sack, i) && At(ackNr, i) < lastSeqNr then [At(ackNr, i)] else []
  }

  /** Counts packet i as lost if its bit is not set and it comes before the last one sent. */
  method Report(got: seq<u16>, sack: seq<byte>, ackNr: u16, lastSeqNr: u16, i: nat, rcvd: bool) returns (lost: seq<u16>)
    requires i < 8 * |sack| && (rcvd <==> BitAt(sack, i))
    ensures lost + Lost(sack, ackNr, lastSeqNr, i + 1) == got + Lost(sack, ackNr, lastSeqNr, i)
  {
    LostStep(got, sack, ackNr, lastSeqNr, i);
    lost := got;
    if !rcvd {
      var s := At(ackNr, i);
      if s < lastSeqNr {
        lost := lost + [s];
      }
    }
  }

  lemma LostStep(lost: seq<u16>, sack: seq<byte>, ackNr: u16, lastSeqNr: u16, i: nat)
    requires i < 8 * |sack|
    ensures lost + Lost(sack, ackNr, lastSeqNr, i) ==
            lost + LostAt(sack, ackNr, lastSeqNr, i) + Lost(sack, ackNr, lastSeqNr, i + 1)
    ensures lost + [] == lost
  {
  }

  /** The loop over the bits of a received vector, with the cursor put right. */
  method LostPackets(sack: seq<byte>, ackNr: u16, lastSeqNr: u16) returns (lost: seq<u16>)
    ensures lost == Lost(sack, ackNr, lastSeqNr, 0)
  {
    var bits := new BitStream(AsCommented, sack);
    lost := [];
    var rcvd, ok := bits.Next();
    var i := 0;
    while ok
      invariant fresh(bits) && bits.Valid() && bits.data == sack && bits.build == AsCommented
      invariant if ok then bits.next == i + 1 && i < 8 * |sack| && (rcvd <==> BitAt(sack, i)) else i == 8 * |sack|
      invariant lost + Lost(sack, ackNr, lastSeqNr, i) == Lost(sack, ackNr, lastSeqNr, 0)
      decreases 8 * |sack| - i
    {
      lost := Report(lost, sack, ackNr, lastSeqNr, i, rcvd);
      i := i + 1;
      rcvd, ok := bits.Next();
    }
  }

  /** A number is reported exactly if it belongs to an unset bit, and is below the last one sent. */
  lemma {:induction false} LostHolds(sack: seq<byte>, ackNr: u16, lastSeqNr: u16, i: nat, s: u16)
    ensures s in Lost(sack, ackNr, lastSeqNr, i) <==>
              exists j :: i <= j < 8 * |sack| && s == At(ackNr, j) && s < lastSeqNr && !BitAt(sack, j)
    decreases 8 * |sack| - i
  {
    if i < 8 * |sack| {
      LostHolds(sack, ackNr, lastSeqNr, i + 1, s);
      if s in LostAt(sack, ackNr, lastSeqNr, i) {
        assert s == At(ackNr, i) && !BitAt(sack, i);
      }
    }
  }

  /** The peer has sent packet ackNr + 2 + j, and another one after it. */
  ghost predicate SentBeforeLast(ackNr: u16, lastSeqNr: u16, j: nat) {
    Ahead(lastSeqNr, Add16(ackNr, 1)) && j + 1 < Sub16(lastSeqNr, Add16(ackNr, 1))
  }

  /** Of the packets in the span of the vector, the peer takes for lost exactly those that it has sent before its last
      one and that are not buffered here. */
  ghost predicate ReportIsExact(buff: seq<Segment>, seqNr: u16, ackNr: u16, lastSeqNr: u16) {
    var bv := VectorOf(buff, seqNr, ackNr);
    forall j: nat :: j < 8 * |bv| ==>
      (At(ackNr, j) in Lost(bv, ackNr, lastSeqNr, 0) <==>
        SentBeforeLast(ackNr, lastSeqNr, j) && !Buffered(buff, At(ackNr, j)))
  }

  /** When that is so. With f the number after ackNr, and w the place at which the numbers wrap: if the last number sent
      is plainly greater than f, the span must end before the wrap, and if that number is not ahead, what seems to come
      before it must be buffered; if it is plainly smaller but ahead, everything before the wrap must be buffered, and
      nothing between the wrap and it; and otherwise the span must end before the wrap, or the last number be 0. */
  ghost predicate Tellable(buff: seq<Segment>, ackNr: u16, lastSeqNr: u16, span: nat) {
    var f := Add16(ackNr, 1);
    var w := 0xFFFF - f;
    if lastSeqNr > f then
      span <= w &&
      (Ahead(lastSeqNr, f) || forall j: nat :: j < span && At(ackNr, j) < lastSeqNr ==> Buffered(buff, At(ackNr, j)))
    else if Ahead(lastSeqNr, f) then
      && (forall j: nat :: j < span && j < w ==> Buffered(buff, At(ackNr, j)))
      && (forall j: nat :: w <= j < span && At(ackNr, j) < lastSeqNr ==> !Buffered(buff, At(ackNr, j)))
    else
      span <= w || lastSeqNr == 0
  }

  lemma NumberAt(ackNr: u16, j: nat)
    requires j < 0x1_0000
    ensures var f := Add16(ackNr, 1); At(ackNr, j) == if j < 0xFFFF - f then f + 1 + j else j - (0xFFFF - f)
  {
    assert Add16(ackNr, 1) == if ackNr == 0xFFFF then 0 else ackNr + 1;
  }

  /** Place j of the vector is reported if its number is below the last one, and is behind the wrap or not buffered. */
  lemma Reported(buff: seq<Segment>, seqNr: u16, ackNr: u16, lastSeqNr: u16, j: nat)
    requires j < 8 * |VectorOf(buff, seqNr, ackNr)|
    ensures j < 0x1_0000
    ensures var s := At(ackNr, j);
            s in Lost(VectorOf(buff, seqNr, ackNr), ackNr, lastSeqNr, 0) <==>
              s < lastSeqNr && (j >= 0xFFFF - Add16(ackNr, 1) || !Buffered(buff, s))
  {
    var bv, s := VectorOf(buff, seqNr, ackNr), At(ackNr, j);
    VectorMeansBuffered(buff, seqNr, ackNr, j);
    LostHolds(bv, ackNr, lastSeqNr, 0, s);
    NumberAt(ackNr, j);
    if k: nat :| k < 8 * |bv| && s == At(ackNr, k) && s < lastSeqNr && !BitAt(bv, k) {
      PositionOf(ackNr, s, j);
      PositionOf(ackNr, s, k);
    }
  }

  /** Encoding and decoding are inverse, exactly: the peer's report is exact if and only if the wrap of the numbers is
      not in the way. */
  lemma SackRoundTrip(buff: seq<Segment>, seqNr: u16, ackNr: u16, lastSeqNr: u16)
    ensures ReportIsExact(buff, seqNr, ackNr, lastSeqNr) <==>
            Tellable(buff, ackNr, lastSeqNr, 8 * |VectorOf(buff, seqNr, ackNr)|)
  {
    var bv := VectorOf(buff, seqNr, ackNr);
    var span := 8 * |bv|;
    VectorMeansBuffered(buff, seqNr, ackNr, 0);
    forall j: nat | j < span ensures j < 0x1_0000 && Judged(buff, ackNr, lastSeqNr, j) ==
        (At(ackNr, j) in Lost(bv, ackNr, lastSeqNr, 0) <==>
          SentBeforeLast(ackNr, lastSeqNr, j) && !Buffered(buff, At(ackNr, j)))
    {
      Reported(buff, seqNr, ackNr, lastSeqNr, j);
      NumberAt(ackNr, j);
      JudgedIs(buff, ackNr, lastSeqNr, j);
    }
    assert ReportIsExact(buff, seqNr, ackNr, lastSeqNr) <==>
        forall j: nat :: j < span ==> Judged(buff, ackNr, lastSeqNr, j);
    AllJudged(buff, ackNr, lastSeqNr, span);
  }

  /** Is place j judged rightly? */
  ghost predicate Judged(buff: seq<Segment>, ackNr: u16, lastSeqNr: u16, j: nat) {
    var f, s := Add16(ackNr, 1), At(ackNr, j);
    if j < 0xFFFF - f then
      if lastSeqNr > f then s < lastSeqNr && !Ahead(lastSeqNr, f) ==> Buffered(buff, s)
      else Ahead(lastSeqNr, f) ==> Buffered(buff, s)
    else
      if lastSeqNr > f then s >= lastSeqNr
      else s < lastSeqNr ==> Ahead(lastSeqNr, f) && !Buffered(buff, s)
  }

  lemma JudgedIs(buff: seq<Segment>, ackNr: u16, lastSeqNr: u16, j: nat)
    requires j < 0x1_0000
    ensures var f, s := Add16(ackNr, 1), At(ackNr, j);
            Judged(buff, ackNr, lastSeqNr, j) ==
              (s < lastSeqNr && (j >= 0xFFFF - f || !Buffered(buff, s)) <==>
                SentBeforeLast(ackNr, lastSeqNr, j) && !Buffered(buff, s))
  {
    NumberAt(ackNr, j);
    var f := Add16(ackNr, 1);
    assert Sub16(lastSeqNr, f) == if lastSeqNr >= f then lastSeqNr - f else lastSeqNr - f + 0x1_0000;
  }

  lemma AllJudged(buff: seq<Segment>, ackNr: u16, lastSeqNr: u16, span: nat)
    requires span <= 0x1_0000
    ensures (forall j: nat :: j < span ==> Judged(buff, ackNr, lastSeqNr, j)) <==>
            Tellable(buff, ackNr, lastSeqNr, span)
  {
    var f := Add16(ackNr, 1);
    var w := 0xFFFF - f;
    if span > w {
      NumberAt(ackNr, w);
    }
    if Tellable(buff, ackNr, lastSeqNr, span) {
      forall j: nat | j < span ensures Judged(buff, ackNr, lastSeqNr, j) {
        NumberAt(ackNr, j);
      }
    }
    if forall j: nat :: j < span ==> Judged(buff, ackNr, lastSeqNr, j) {
      assert span > w ==> Judged(buff, ackNr, lastSeqNr, w);
      forall j: nat | j < span
        ensures j < w && lastSeqNr > f && At(ackNr, j) < lastSeqNr && !Ahead(lastSeqNr, f) ==>
                Buffered(buff, At(ackNr, j))
        ensures j < w && lastSeqNr <= f && Ahead(lastSeqNr, f) ==> Buffered(buff, At(ackNr, j))
        ensures w <= j && lastSeqNr <= f && At(ackNr, j) < lastSeqNr ==> !Buffered(buff, At(ackNr, j))
      {
        assert Judged(buff, ackNr, lastSeqNr, j);
      }
    }
  }
}
