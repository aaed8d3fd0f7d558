/** The fixed-width integers of the C sources, as ranges of int, and their little-endian bytes. */
module Bytes {
  type Byte = x: int | 0 <= x < 0x100
  type Word = x: int | 0 <= x < 0x1_0000
  type DWord = x: int | 0 <= x < 0x1_0000_0000

  function U16(lo: Byte, hi: Byte): Word {
    lo + 0x100 * hi
  }

  function U32(b0: Byte, b1: Byte, b2: Byte, b3: Byte): DWord {
    b0 + 0x100 * b1 + 0x1_0000 * b2 + 0x100_0000 * b3
  }

  /** Byte number i of a 32-bit value stored little-endian. */
  function ByteOf(v: DWord, i: nat): Byte
    requires i < 4
  {
    if i == 0 then v % 0x100
    else if i == 1 then v / 0x100 % 0x100
    else if i == 2 then v / 0x100 / 0x100 % 0x100
    else v / 0x100 / 0x100 / 0x100
  }

  /** The four bytes of a 32-bit value in memory order. */
  function Bytes4(v: DWord): (q: seq<Byte>)
    ensures |q| == 4 && forall i | 0 <= i < 4 :: q[i] == ByteOf(v, i)
  {
    [ByteOf(v, 0), ByteOf(v, 1), ByteOf(v, 2), ByteOf(v, 3)]
  }

  function Zeros(n: nat): (z: seq<Byte>)
    ensures |z| == n && forall i | 0 <= i < n :: z[i] == 0
  {
    seq(n, _ => 0)
  }

  /** s with the bytes of p put over it from offset at. */
  function Patch(s: seq<Byte>, at: nat, p: seq<Byte>): (r: seq<Byte>)
    requires at + |p| <= |s|
    ensures |r| == |s|
    ensures forall i | 0 <= i < |s| :: r[i] == if at <= i < at + |p| then p[i - at] else s[i]
  {
    s[..at] + p + s[at + |p|..]
  }

  /** Two adjacent patches are one. */
  lemma {:induction false} PatchExtend(s: seq<Byte>, at: nat, p: seq<Byte>, q: seq<Byte>)
    requires at + |p| + |q| <= |s|
    ensures Patch(Patch(s, at, p), at + |p|, q) == Patch(s, at, p + q)
  {
  }

  lemma {:induction false} PatchInFront(s: seq<Byte>, back: seq<Byte>, at: nat, p: seq<Byte>)
    requires at + |p| <= |s|
    ensures Patch(s + back, at, p) == Patch(s, at, p) + back
  {
  }

  lemma {:induction false} U32RoundTrip(v: DWord)
    ensures U32(ByteOf(v, 0), ByteOf(v, 1), ByteOf(v, 2), ByteOf(v, 3)) == v
  {
  }

  lemma {:induction false} BytesOfU16(lo: Byte, hi: Byte)
    ensures U16(lo, hi) % 0x100 == lo && U16(lo, hi) / 0x100 == hi
  {
  }

  lemma {:induction false} BytesOfU32(b0: Byte, b1: Byte, b2: Byte, b3: Byte)
    ensures var v := U32(b0, b1, b2, b3);
            ByteOf(v, 0) == b0 && ByteOf(v, 1) == b1 && ByteOf(v, 2) == b2 && ByteOf(v, 3) == b3
  {
  }
}
