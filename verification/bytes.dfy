/** Bytes, fixed-width little-endian integers and Go byte strings. */
module Bytes {

  newtype byte = x: int | 0 <= x < 256

  /** 2^32: the modulus of Go's `uint32(n)` conversion. */
  const U32: int := 0x1_0000_0000

  function Zeros(n: nat): (r: seq<byte>)
    ensures |r| == n
    ensures forall i | 0 <= i < n :: r[i] == 0
  {
    seq(n, _ => 0 as byte)
  }

  /** Reads four bytes as an unsigned little-endian integer. */
  function DecodeLE32(b: seq<byte>): (n: int)
    requires |b| == 4
    ensures 0 <= n < U32
  {
    b[0] as int + 256 * (b[1] as int + 256 * (b[2] as int + 256 * b[3] as int))
  }

  /**
   * `binary.LittleEndian.PutUint32(b, uint32(n))`: the Go `int` is first
   * truncated to 32 bits, so values that differ by a multiple of 2^32 encode
   * identically.
   */
  function LE32(n: int): (r: seq<byte>)
    ensures |r| == 4
    ensures DecodeLE32(r) == n % U32
  {
    var u := n % U32;
    var b0 := u % 256;
    var q0 := u / 256;
    var b1 := q0 % 256;
    var q1 := q0 / 256;
    var b2 := q1 % 256;
    var b3 := q1 / 256;
    assert q1 < 256 * 256;
    assert b3 < 256;
    [b0 as byte, b1 as byte, b2 as byte, b3 as byte]
  }

  /** Two encodings are equal exactly when the values agree modulo 2^32. */
  lemma LE32Injective(a: int, b: int)
    ensures LE32(a) == LE32(b) <==> a % U32 == b % U32
  {
    if a % U32 == b % U32 {
      assert LE32(a) == LE32(b);
    }
  }

  /** A byte of a Go string; Go strings are byte strings, one char per byte here. */
  function CharByte(c: char): byte {
    ((c as int) % 256) as byte
  }

  /** `[]byte(s)` for a Go string `s`. */
  function StrBytes(s: string): (r: seq<byte>)
    ensures |r| == |s|
    ensures forall i | 0 <= i < |s| :: r[i] == CharByte(s[i])
  {
    seq(|s|, i requires 0 <= i < |s| => CharByte(s[i]))
  }
}
