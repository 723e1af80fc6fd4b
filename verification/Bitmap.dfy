/** The occupancy bitmap of a page, bit by bit in bytes, highest bit first. */
module Bitmap {

  function Mask(k: nat): bv8
    requires k < 8
  {
    0x80 >> k
  }

  predicate Bit(x: bv8, k: nat)
    requires k < 8
  {
    x & Mask(k) != 0
  }

  function WithBit(x: bv8, k: nat): bv8
    requires k < 8
  {
    x | Mask(k)
  }

  function WithoutBit(x: bv8, k: nat): bv8
    requires k < 8
  {
    x & !Mask(k)
  }

  /** The first bit of a byte is the highest. */
  lemma {:induction false} HighestFirst(k: nat)
    requires k < 7
    ensures Mask(0) == 0x80 && Mask(k) == 2 * Mask(k + 1)
  {
    HalfMask(k as bv8);
    assert (k + 1) as bv8 == k as bv8 + 1;
  }

  lemma {:induction false} HalfMask(a: bv8)
    requires a < 7
    ensures (0x80 as bv8) >> a == 2 * ((0x80 as bv8) >> (a + 1))
  {
  }

  lemma {:induction false} ByteBits(x: bv8, k: nat, l: nat)
    requires k < 8 && l < 8
    ensures Bit(WithBit(x, k), l) <==> k == l || Bit(x, l)
    ensures Bit(WithoutBit(x, k), l) <==> k != l && Bit(x, l)
  {
    MaskBits(k as bv8, l as bv8, x);
  }

  lemma {:induction false} MaskBits(a: bv8, b: bv8, x: bv8)
    requires a < 8 && b < 8
    ensures (x | (0x80 >> a)) & (0x80 >> b) != 0 <==> a == b || x & (0x80 >> b) != 0
    ensures (x & !(0x80 >> a)) & (0x80 >> b) != 0 <==> a != b && x & (0x80 >> b) != 0
  {
  }

  predicate IsSet(bm: seq<bv8>, pos: nat)
    requires pos / 8 < |bm|
  {
    Bit(bm[pos / 8], pos % 8)
  }

  /** The first `n` bits, as a page of the record file has them. */
  ghost function Bits(bm: seq<bv8>, n: nat): (r: seq<bool>)
    requires n <= 8 * |bm|
    ensures |r| == n && forall q: nat :: q < n ==> (r[q] <==> IsSet(bm, q))
  {
    seq(n, q requires 0 <= q < n => IsSet(bm, q))
  }

  lemma {:induction false} SameBit(p: nat, q: nat)
    ensures p == q <==> p / 8 == q / 8 && p % 8 == q % 8
  {
  }

  /** Sets one bit and no other. */
  method Set(bm: array<bv8>, pos: nat)
    requires pos / 8 < bm.Length
    modifies bm
    ensures forall q: nat :: q / 8 < bm.Length ==> (IsSet(bm[..], q) <==> q == pos || old(IsSet(bm[..], q)))
    ensures forall n :: pos < n <= 8 * bm.Length ==> Bits(bm[..], n) == old(Bits(bm[..], n))[pos := true]
  {
    hide Bit, WithBit, WithoutBit;
    ghost var before := bm[..];
    bm[pos / 8] := WithBit(bm[pos / 8], pos % 8);
    forall q: nat | q / 8 < bm.Length
      ensures IsSet(bm[..], q) <==> q == pos || IsSet(before, q)
    {
      ByteBits(before[q / 8], pos % 8, q % 8);
      SameBit(pos, q);
    }
  }

  /** Clears one bit and no other. */
  method Reset(bm: array<bv8>, pos: nat)
    requires pos / 8 < bm.Length
    modifies bm
    ensures forall q: nat :: q / 8 < bm.Length ==> (IsSet(bm[..], q) <==> q != pos && old(IsSet(bm[..], q)))
    ensures forall n :: pos < n <= 8 * bm.Length ==> Bits(bm[..], n) == old(Bits(bm[..], n))[pos := false]
  {
    hide Bit, WithBit, WithoutBit;
    ghost var before := bm[..];
    bm[pos / 8] := WithoutBit(bm[pos / 8], pos % 8);
    forall q: nat | q / 8 < bm.Length
      ensures IsSet(bm[..], q) <==> q != pos && IsSet(before, q)
    {
      ByteBits(before[q / 8], pos % 8, q % 8);
      SameBit(pos, q);
    }
  }

  /** The next position behind `curr` whose bit is `bit`, or `max` if there is none. */
  method NextBit(bit: bool, bm: array<bv8>, max: nat, curr: int) returns (r: nat)
    requires -1 <= curr && max <= 8 * bm.Length && curr < max
    ensures curr < r <= max && (r < max ==> (IsSet(bm[..], r) <==> bit))
    ensures forall q: nat :: curr < q < r ==> (IsSet(bm[..], q) <==> !bit)
    ensures r < max ==> Bits(bm[..], max)[r] == bit
    ensures forall q: nat :: curr < q < r ==> Bits(bm[..], max)[q] != bit
  {
    hide Bit;
    r := curr + 1;
    while r < max
      invariant curr < r <= max
      invariant forall q: nat :: curr < q < r ==> (IsSet(bm[..], q) <==> !bit)
    {
      if IsSet(bm[..], r) == bit {
        return;
      }
      r := r + 1;
    }
  }
}
