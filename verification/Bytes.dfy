/** Little-endian integers, as memcpy stores them. */
module Bytes {
  type byte = x: int | 0 <= x < 256
  type bytes = seq<byte>

  const TWO32: int := 0x1_0000_0000
  const TWO31: int := 0x8000_0000

  ghost predicate IsInt32(x: int) {
    -TWO31 <= x < TWO31
  }

  function Power256(n: nat): nat {
    if n == 0 then 1 else 256 * Power256(n - 1)
  }

  function EncodeNat(x: nat, n: nat): (b: bytes)
    ensures |b| == n
  {
    if n == 0 then [] else [x % 256] + EncodeNat(x / 256, n - 1)
  }

  function DecodeNat(b: bytes): nat {
    if |b| == 0 then 0 else b[0] + 256 * DecodeNat(b[1..])
  }

  lemma {:induction false} NatRoundTrip(x: nat, n: nat)
    requires x < Power256(n)
    ensures DecodeNat(EncodeNat(x, n)) == x
  {
    if n > 0 {
      NatRoundTrip(x / 256, n - 1);
      assert EncodeNat(x, n)[1..] == EncodeNat(x / 256, n - 1);
    }
  }

  /** A 32-bit two's complement integer. */
  function EncodeInt(x: int): (b: bytes)
    requires -TWO31 <= x < TWO31
    ensures |b| == 4
  {
    EncodeNat(if x < 0 then x + TWO32 else x, 4)
  }

  function DecodeInt(b: bytes): int {
    var u := DecodeNat(b);
    if u >= TWO31 then u - TWO32 else u
  }

  lemma {:induction false} Powers()
    ensures Power256(4) == TWO32 && Power256(8) == TWO32 * TWO32
  {
    assert Power256(1) == 256 && Power256(2) == 0x1_0000 && Power256(3) == 0x100_0000;
    assert Power256(4) == TWO32;
    assert Power256(5) == TWO32 * 256 && Power256(6) == TWO32 * 0x1_0000 && Power256(7) == TWO32 * 0x100_0000;
  }

  lemma {:induction false} IntRoundTrip(x: int)
    requires IsInt32(x)
    ensures DecodeInt(EncodeInt(x)) == x
  {
    Powers();
    NatRoundTrip(if x < 0 then x + TWO32 else x, 4);
  }
}
