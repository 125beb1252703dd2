/** Bytes, sectors and the little-endian loads and stores of ff.c. */
module Bytes {

  type byte = x: int | 0 <= x < 256

  /** FF_MIN_SS == FF_MAX_SS == 512. */
  type Sector = s: seq<byte> | |s| == 512 witness seq(512, i => 0)

  const MAX_DWORD: nat := 0xFFFF_FFFF

  /** Where 32-bit sums wrap. */
  const WRAP: nat := 0x1_0000_0000

  /** Subtraction of two DWORD values with the wrap of the C type. */
  function Sub32(a: nat, b: nat): (r: nat)
    requires a <= MAX_DWORD && b <= MAX_DWORD
    ensures b <= a ==> r == a - b
    ensures a < b ==> r == a - b + 0x1_0000_0000
  {
    (a - b) % 0x1_0000_0000
  }

  lemma WholeSlice<T>(s: seq<T>)
    ensures s[..|s|] == s
  {
  }

  function LdWord(s: seq<byte>, o: nat): (r: nat)
    requires o + 2 <= |s|
    ensures r <= 0xFFFF
  {
    s[o] as int + 256 * s[o + 1] as int
  }

  function LdDword(s: seq<byte>, o: nat): (r: nat)
    requires o + 4 <= |s|
    ensures r <= MAX_DWORD
  {
    s[o] as int + 0x100 * s[o + 1] as int + 0x1_0000 * s[o + 2] as int + 0x100_0000 * s[o + 3] as int
  }

  /** The unsigned test a - b < n tells whether a lies in [b, b + n). */
  lemma Sub32InRange(a: nat, b: nat, n: nat)
    requires a <= MAX_DWORD && b + n <= MAX_DWORD
    ensures Sub32(a, b) < n <==> b <= a < b + n
    ensures b <= a < b + n ==> Sub32(a, b) == a - b
  {
  }
}
