/** Bytes, fixed-width unsigned integers, and the byte orders in which they are stored. */
module Bytes {
  /** The code as it stands, or with the defects its own comments and BEP 29 contradict put right.
      Each branch on this type is one repair, and README.md lists them. */
  datatype Build = AsWritten | AsCommented

  type byte = x: int | 0 <= x < 0x100
  type u16 = x: int | 0 <= x < 0x1_0000
  type u32 = x: int | 0 <= x < 0x1_0000_0000

  /** Truncation to an unsigned integer, as a Go conversion does it. */
  function Trunc16(x: int): u16 { x % 0x1_0000 }
  function Trunc32(x: int): u32 { x % 0x1_0000_0000 }

  /** Wrapping 16-bit arithmetic, as sequence numbers use it. */
  function Add16(a: int, b: int): u16 { Trunc16(a + b) }
  function Sub16(a: int, b: int): u16 { Trunc16(a - b) }

  /** a comes after b in serial number arithmetic (section 3.2 of RFC 1982). */
  predicate Ahead(a: u16, b: u16) { 0 < Sub16(a, b) < 0x8000 }

  function Min(x: int, y: int): int { if x > y then y else x }
  function Max(x: int, y: int): int { if x < y then y else x }

  /** Big-endian, as binary.BigEndian stores an integer. */
  function PutUint32(n: u32): (b: seq<byte>)
    ensures |b| == 4
  {
    [n / 0x100_0000, n / 0x1_0000 % 0x100, n / 0x100 % 0x100, n % 0x100]
  }

  function Uint32(b: seq<byte>): u32
    requires |b| == 4
  {
    b[0] as int * 0x100_0000 + b[1] as int * 0x1_0000 + b[2] as int * 0x100 + b[3]
  }

  lemma Uint32RoundTrip(n: u32)
    ensures Uint32(PutUint32(n)) == n
  {
    var a, b := n / 0x100, n / 0x1_0000;
    assert b == a / 0x100 && n / 0x100_0000 == b / 0x100;
  }

  /** Little-endian pairs and quadruples, at an offset of a longer sequence. */
  function Get16(p: seq<byte>, at: nat): u16
    requires at + 2 <= |p|
  {
    p[at] as int + p[at + 1] as int * 0x100
  }

  function Set16(p: seq<byte>, at: nat, n: u16): (q: seq<byte>)
    requires at + 2 <= |p|
    ensures |q| == |p|
  {
    p[at := n % 0x100][at + 1 := n / 0x100]
  }

  function Get32(p: seq<byte>, at: nat): u32
    requires at + 4 <= |p|
  {
    Get16(p, at) as int + Get16(p, at + 2) as int * 0x1_0000
  }

  function Set32(p: seq<byte>, at: nat, n: u32): (q: seq<byte>)
    requires at + 4 <= |p|
    ensures |q| == |p|
  {
    Set16(Set16(p, at, n % 0x1_0000), at + 2, n / 0x1_0000)
  }

  /** p and q differ at most at positions lo, ..., hi - 1. */
  ghost predicate SameExcept(p: seq<byte>, q: seq<byte>, lo: nat, hi: nat) {
    |p| == |q| && forall i :: 0 <= i < |p| && !(lo <= i < hi) ==> p[i] == q[i]
  }

  lemma Set16RoundTrip(p: seq<byte>, at: nat, n: u16)
    requires at + 2 <= |p|
    ensures Get16(Set16(p, at, n), at) == n && SameExcept(p, Set16(p, at, n), at, at + 2)
  {
  }

  lemma Set32RoundTrip(p: seq<byte>, at: nat, n: u32)
    requires at + 4 <= |p|
    ensures Get32(Set32(p, at, n), at) == n && SameExcept(p, Set32(p, at, n), at, at + 4)
  {
    var q := Set16(p, at, n % 0x1_0000);
    Set16RoundTrip(p, at, n % 0x1_0000);
    Set16RoundTrip(q, at + 2, n / 0x1_0000);
  }

  /** All the bytes, one sequence after the other. */
  function Flatten(chunks: seq<seq<byte>>): seq<byte> {
    if chunks == [] then [] else Flatten(chunks[..|chunks| - 1]) + chunks[|chunks| - 1]
  }

  function Zeros(n: nat): (b: seq<byte>)
    ensures |b| == n && forall i :: 0 <= i < n ==> b[i] == 0
  {
    seq(n, i => 0)
  }

  function Pow2(k: nat): nat {
    if k == 0 then 1 else 2 * Pow2(k - 1)
  }

  /** b >> k & 1. */
  predicate Bit(b: nat, k: nat) {
    if k == 0 then b % 2 == 1 else Bit(b / 2, k - 1)
  }

  /** b | 1 << k, for numbers of w bits. */
  function SetBit(b: nat, k: nat, w: nat): (r: nat)
    requires k < w && b < Pow2(w)
    ensures r < Pow2(w)
    decreases k
  {
    assert Pow2(w) == 2 * Pow2(w - 1);
    if k == 0 then b / 2 * 2 + 1 else SetBit(b / 2, k - 1, w - 1) * 2 + b % 2
  }

  lemma {:induction false} SetBitIsOr(b: nat, k: nat, w: nat, j: nat)
    requires k < w && b < Pow2(w)
    ensures Bit(SetBit(b, k, w), j) <==> j == k || Bit(b, j)
    decreases k
  {
    if j > 0 {
      if k > 0 {
        SetBitIsOr(b / 2, k - 1, w - 1, j - 1);
      }
    }
  }

  lemma ByteBits()
    ensures Pow2(8) == 0x100
  {
    assert Pow2(4) == 16;
    assert Pow2(6) == 64;
  }

  lemma {:induction false} NoBits(j: nat)
    ensures !Bit(0, j)
  {
    if j > 0 {
      NoBits(j - 1);
    }
  }
}
