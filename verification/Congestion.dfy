/** The size of the congestion window (section 2.4.2 of RFC 6817): how it depends on the queuing delay, over the
    reals. */
module Congestion {
  import opened Bytes
  import opened Packet
  import opened Window

  const TARGET: real := 100_000.0
  const MAX_DELAY: u32 := 0xFFFF_FFFF

  /** How far the queuing delay is below its target. The comment has it between -1 and 1; as written only the delay is
      divided by the target. */
  function OffTarget(b: Build, delay: u32): real {
    if b.AsWritten? then TARGET - delay as real / TARGET else (TARGET - delay as real) / TARGET
  }

  /** The window after so many bytes have been acknowledged, before it is cut. */
  function Grown(cwnd: u32, offTarget: real, bytes: nat): real
    requires cwnd > 0
  {
    cwnd as real + offTarget * bytes as real * MSS as real / cwnd as real
  }

  /** At most one packet more than what is in flight, and at least two packets. */
  function Cut(x: int, flight: u32): (r: nat)
    ensures MIN_CWND * MSS <= r <= Max(MIN_CWND * MSS, Trunc32(flight + ALLOWED_INCREASE * MSS))
  {
    Max(MIN_CWND * MSS, Min(x, Trunc32(flight + ALLOWED_INCREASE * MSS)))
  }

  /** cwnd' is what becomes of the window. Unless the real number fits the counter, its conversion is not specified. */
  ghost predicate Follows(cwnd: u32, offTarget: real, bytes: nat, flight: u32, cwnd': u32)
    requires cwnd > 0
  {
    var grown := Grown(cwnd, offTarget, bytes).Floor;
    if 0 <= grown < 0x1_0000_0000 then cwnd' == Cut(grown, flight) else exists x: u32 :: cwnd' == Cut(x, flight)
  }

  lemma QuotientSign(x: real, y: real)
    requires y > 0.0
    ensures x / y > 0.0 <==> x > 0.0
    ensures x / y < 0.0 <==> x < 0.0
  {
    assert x == x / y * y;
    if x / y > 0.0 {
      assert x / y * y > 0.0;
    } else if x / y < 0.0 {
      assert (0.0 - x / y) * y > 0.0;
    }
  }

  lemma ProductSign(x: real, y: real)
    requires y > 0.0
    ensures x * y > 0.0 <==> x > 0.0
    ensures x * y < 0.0 <==> x < 0.0
  {
    if x < 0.0 {
      assert (0.0 - x) * y > 0.0;
    }
  }

  /** With the formula put right the window grows exactly below the target and shrinks exactly above it, and the factor
      is in the documented range exactly up to twice the target. As written it grows at every delay. */
  lemma GrowsIff(b: Build, cwnd: u32, delay: u32, bytes: nat)
    requires cwnd > 0 && bytes > 0
    ensures Grown(cwnd, OffTarget(b, delay), bytes) > cwnd as real <==> b.AsWritten? || delay as real < TARGET
    ensures Grown(cwnd, OffTarget(b, delay), bytes) < cwnd as real <==> b.AsCommented? && delay as real > TARGET
    ensures -1.0 <= OffTarget(b, delay) <= 1.0 <==> b.AsCommented? && delay as real <= 2.0 * TARGET
  {
    var off := OffTarget(b, delay);
    ProductSign(off, bytes as real);
    ProductSign(off * bytes as real, MSS as real);
    QuotientSign(off * bytes as real * MSS as real, cwnd as real);
    if b.AsWritten? {
      WrittenOffTarget(delay);
    }
  }

  /** As written the factor is tens of thousands, whatever the delay. */
  lemma WrittenOffTarget(delay: u32)
    ensures 57_050.0 < OffTarget(AsWritten, delay) <= TARGET
  {
  }

  lemma MonotoneProduct(x: real, y: real, z: real)
    requires x <= y && z >= 0.0
    ensures x * z <= y * z
  {
    assert (y - x) * z >= 0.0;
  }

  lemma MonotoneQuotient(x: real, y: real, z: real)
    requires x <= y && z > 0.0
    ensures x / z <= y / z
  {
    QuotientSign(y - x, z);
    assert y / z - x / z == (y - x) / z;
  }

  lemma GrownMonotone(cwnd: u32, off: real, off': real, bytes: nat)
    requires cwnd > 0 && off <= off'
    ensures Grown(cwnd, off, bytes) <= Grown(cwnd, off', bytes)
  {
    MonotoneProduct(off, off', bytes as real);
    MonotoneProduct(off * bytes as real, off' * bytes as real, MSS as real);
    MonotoneQuotient(off * bytes as real * MSS as real, off' * bytes as real * MSS as real, cwnd as real);
  }

  /** What becomes of the window at this delay. */
  ghost function Resized(b: Build, cwnd: u32, delay: u32, bytes: nat, flight: u32): int
    requires cwnd > 0
  {
    Cut(Grown(cwnd, OffTarget(b, delay), bytes).Floor, flight)
  }

  /** The delay makes no difference to what becomes of the window. */
  ghost predicate IgnoresDelay(b: Build, cwnd: u32, bytes: nat, flight: u32)
    requires cwnd > 0
  {
    forall delay: u32, delay': u32 :: Resized(b, cwnd, delay, bytes, flight) == Resized(b, cwnd, delay', bytes, flight)
  }

  lemma LongerDelay(b: Build, cwnd: u32, delay: u32, delay': u32, bytes: nat, flight: u32)
    requires cwnd > 0 && delay <= delay'
    ensures Resized(b, cwnd, delay', bytes, flight) <= Resized(b, cwnd, delay, bytes, flight)
  {
    MonotoneQuotient(delay as real, delay' as real, TARGET);
    MonotoneQuotient(TARGET - delay' as real, TARGET - delay as real, TARGET);
    GrownMonotone(cwnd, OffTarget(b, delay'), OffTarget(b, delay), bytes);
  }

  /** A longer delay never gives a larger window; so the delay makes no difference exactly if none at all and the
      greatest one give the same. */
  lemma IgnoresDelayIff(b: Build, cwnd: u32, bytes: nat, flight: u32)
    requires cwnd > 0
    ensures forall delay: u32, delay': u32 :: delay <= delay' ==>
              Resized(b, cwnd, delay', bytes, flight) <= Resized(b, cwnd, delay, bytes, flight)
    ensures IgnoresDelay(b, cwnd, bytes, flight) <==>
              Resized(b, cwnd, 0, bytes, flight) == Resized(b, cwnd, MAX_DELAY, bytes, flight)
  {
    forall delay: u32, delay': u32 | delay <= delay'
      ensures Resized(b, cwnd, delay', bytes, flight) <= Resized(b, cwnd, delay, bytes, flight)
    {
      LongerDelay(b, cwnd, delay, delay', bytes, flight);
    }
  }

  /** As written it makes none for any window as long as at most 56 packets are in flight: the window is then always the
      largest that is allowed. */
  lemma SmallFlightIgnoresDelay(cwnd: u32, bytes: nat, flight: u32)
    requires cwnd > 0 && bytes >= HEADER_SIZE && flight <= 56 * MSS
    ensures forall delay: u32 :: Resized(AsWritten, cwnd, delay, bytes, flight) == Cut(MAX_DELAY, flight)
    ensures IgnoresDelay(AsWritten, cwnd, bytes, flight)
  {
    forall delay: u32 ensures Resized(AsWritten, cwnd, delay, bytes, flight) == Cut(MAX_DELAY, flight) {
      WrittenOffTarget(delay);
      LeastIncrease(OffTarget(AsWritten, delay), bytes as real);
      SumOfQuotient(cwnd as real, OffTarget(AsWritten, delay) * bytes as real * MSS as real, 79_900.0);
      assert Grown(cwnd, OffTarget(AsWritten, delay), bytes).Floor >= 79_900;
    }
  }

  lemma LeastIncrease(off: real, bytes: real)
    requires off >= 57_050.0 && bytes >= 20.0
    ensures 4.0 * (off * bytes * MSS as real) >= 79_900.0 * 79_900.0
  {
    MonotoneProduct(57_050.0, off, bytes);
    MonotoneProduct(20.0, bytes, 57_050.0);
    assert off * bytes >= 1_141_000.0;
    MonotoneProduct(1_141_000.0, off * bytes, MSS as real);
  }

  lemma SumOfQuotient(x: real, c: real, t: real)
    requires x > 0.0 && 4.0 * c >= t * t
    ensures x + c / x >= t
  {
    var q := c / x;
    assert q * x == c;
    Square(x, c, t);
    assert (x + q - t) * x == x * x + q * x - t * x;
    ProductSign(x + q - t, x);
  }

  lemma Square(x: real, c: real, t: real)
    requires 4.0 * c >= t * t
    ensures x * x + c - t * x >= 0.0
  {
    var d := x - t / 2.0;
    assert d * d == x * x - t * x + t * t / 4.0;
    assert d * d >= 0.0;
  }
}
