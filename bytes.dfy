/** Bytes as Python's `bytearray` holds them, and the arithmetic the frame
    builders do on them. */
module Bytes {

  /** One element of a Python `bytearray`: an integer in 0..255. */
  type Byte = x: int | 0 <= x < 256

  /** Python's `sum()` over a byte sequence. */
  function Sum(s: seq<Byte>): (r: nat)
    ensures r <= 255 * |s|
  {
    if s == [] then 0 else Sum(s[..|s| - 1]) + s[|s| - 1]
  }

  lemma {:induction false} SumAppend(s: seq<Byte>, t: seq<Byte>)
    ensures Sum(s + t) == Sum(s) + Sum(t)
    decreases |t|
  {
    if t == [] {
      assert s + t == s;
    } else {
      var u := t[..|t| - 1];
      assert (s + t)[..|s + t| - 1] == s + u;
      SumAppend(s, u);
    }
  }

  /** The sum of a short sequence, written out. */
  lemma SumUpToFour(s: seq<Byte>)
    requires 1 <= |s| <= 4
    ensures |s| == 1 ==> Sum(s) == s[0]
    ensures |s| == 2 ==> Sum(s) == s[0] as int + s[1] as int
    ensures |s| == 3 ==> Sum(s) == s[0] as int + s[1] as int + s[2] as int
    ensures |s| == 4 ==> Sum(s) == s[0] as int + s[1] as int + s[2] as int + s[3] as int
  {
  }

  /** Python's `x & 0xFF` for any integer `x` (two's complement of unbounded
      width): the Euclidean remainder by 256. */
  function LowByte(x: int): (r: Byte)
    ensures (x - r) % 256 == 0
  {
    x % 256
  }

  /** Python's `x >> 8`, an arithmetic shift: floor division by 256. */
  function ShiftRight8(x: int): (r: int)
    ensures 256 * r <= x < 256 * r + 256
  {
    x / 256
  }

  /** The two bytes `[(x >> 8) & 0xFF, x & 0xFF]`: x as a big-endian 16-bit value. */
  function BigEndian16(x: int): (r: seq<Byte>)
    ensures |r| == 2
    ensures 0 <= x < 0x1_0000 ==> r[0] as int * 256 + r[1] as int == x
  {
    [LowByte(ShiftRight8(x)), LowByte(x)]
  }

  predicate IsByte(x: int) { 0 <= x < 256 }

  /** The `ValueError` Python's `bytearray` raises for an element outside 0..255. */
  datatype ByteError = ByteOutOfRange(value: int)
}
