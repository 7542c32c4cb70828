/** Bytes and the big-endian 32-bit layout that Buffer.writeUInt32BE produces. */
module Bytes {

  type uint8 = x: int | 0 <= x < 0x100

  type uint32 = x: int | 0 <= x < 0x1_0000_0000

  /**
   * Four bytes, most significant first; reading them back as a big-endian
   * integer gives the value that was written, for every 32-bit value.
   */
  function Uint32ToBE(n: uint32): (b: seq<uint8>)
    ensures |b| == 4
    ensures BEToUint32(b) == n
  {
    var q1, r0 := n / 0x100, n % 0x100;
    var q2, r1 := q1 / 0x100, q1 % 0x100;
    var q3, r2 := q2 / 0x100, q2 % 0x100;
    assert n == q1 * 0x100 + r0;
    assert q1 == q2 * 0x100 + r1;
    assert q2 == q3 * 0x100 + r2;
    assert n / 0x1_0000 == q2;
    assert n / 0x100_0000 == q3;
    [n / 0x100_0000, n / 0x1_0000 % 0x100, n / 0x100 % 0x100, n % 0x100]
  }

  /** Reads four bytes back as a big-endian unsigned integer. */
  function BEToUint32(b: seq<uint8>): (n: uint32)
    requires |b| == 4
  {
    b[0] as int * 0x100_0000 + b[1] as int * 0x1_0000 + b[2] as int * 0x100 + b[3] as int
  }

  /** Every four-byte sequence is the encoding of exactly one 32-bit value. */
  lemma EncodeDecodeUint32(b: seq<uint8>)
    requires |b| == 4
    ensures Uint32ToBE(BEToUint32(b)) == b
  {
    var n := BEToUint32(b);
    assert n == ((b[0] as int * 0x100 + b[1]) * 0x100 + b[2]) * 0x100 + b[3];
    assert n % 0x100 == b[3] && n / 0x100 == (b[0] as int * 0x100 + b[1]) * 0x100 + b[2];
    var q1 := n / 0x100;
    assert q1 % 0x100 == b[2] && q1 / 0x100 == b[0] as int * 0x100 + b[1];
    var q2 := q1 / 0x100;
    assert q2 % 0x100 == b[1] && q2 / 0x100 == b[0];
    assert n / 0x1_0000 == q2;
    assert n / 0x100_0000 == b[0];
  }
}
