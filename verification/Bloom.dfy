/** The optional Bloom filter of lib/uthash.h over hash values. */
module Bloom {
  import opened Bytes
  import opened Bits

  // 1U << k
  function BitMask(k: nat): byte
    requires k < 8
  {
    if k == 0 then 0x01 else if k == 1 then 0x02 else if k == 2 then 0x04 else if k == 3 then 0x08
    else if k == 4 then 0x10 else if k == 5 then 0x20 else if k == 6 then 0x40 else 0x80
  }

  lemma BitMaskIsShift(k: nat)
    requires k < 8
    ensures BitMask(k) == (1 as byte) << k
  {}

  // HASH_BLOOM_BYTELEN for a filter of 2^nbits bits
  function ByteLen(nbits: nat): nat {
    Pow2(nbits) / 8 + (if Pow2(nbits) % 8 != 0 then 1 else 0)
  }

  // The bit of the filter that a hash value selects.
  function BitOf(nbits: nat, hashv: nat): (idx: nat)
    ensures idx / 8 < ByteLen(nbits)
  {
    AndBound(hashv, Pow2(nbits) - 1);
    And(hashv, Pow2(nbits) - 1)
  }

  // Room for all bits and no more bytes than that takes; and the bit is the remainder.
  lemma FilterSize(nbits: nat, hashv: nat)
    ensures 8 * ByteLen(nbits) - 8 < Pow2(nbits) <= 8 * ByteLen(nbits)
    ensures BitOf(nbits, hashv) == hashv % Pow2(nbits)
  {
    MaskIsMod(hashv, nbits);
  }

  predicate BitAt(bv: seq<byte>, i: nat, k: nat)
    requires k < 8
  {
    i < |bv| && bv[i] & BitMask(k) != 0
  }

  // HASH_BLOOM_BITTEST
  predicate BitTest(bv: seq<byte>, idx: nat) {
    BitAt(bv, idx / 8, idx % 8)
  }

  // HASH_BLOOM_BITSET sets one bit and leaves every other bit as it was.
  method BitSet(bv: array<byte>, idx: nat)
    requires idx / 8 < bv.Length
    modifies bv
    ensures forall j: nat :: BitTest(bv[..], j) <==> j == idx || BitTest(old(bv[..]), j)
  {
    hide BitMask, BitTest;
    ghost var before := bv[..];
    bv[idx / 8] := bv[idx / 8] | BitMask(idx % 8);
    assert bv[..] == before[idx / 8 := before[idx / 8] | BitMask(idx % 8)];
    forall j: nat ensures BitTest(bv[..], j) <==> j == idx || BitTest(before, j) {
      AfterBitSet(before, idx, j);
    }
  }

  lemma AfterBitSet(s: seq<byte>, idx: nat, j: nat)
    requires idx / 8 < |s|
    ensures BitTest(s[idx / 8 := s[idx / 8] | BitMask(idx % 8)], j) <==> j == idx || BitTest(s, j)
  {
    hide BitMask, BitAt;
    SameBit(idx, j);
    AfterBit(s, idx / 8, idx % 8, j / 8, j % 8);
  }

  lemma AfterBit(s: seq<byte>, a: nat, k: nat, b: nat, j: nat)
    requires a < |s| && k < 8 && j < 8
    ensures BitAt(s[a := s[a] | BitMask(k)], b, j) <==> (a == b && k == j) || BitAt(s, b, j)
  {
    hide BitMask;
    if a == b {
      OrMask(s[a], k, j);
    }
  }

  lemma SameBit(i: nat, j: nat)
    ensures i == j <==> i / 8 == j / 8 && i % 8 == j % 8
  {}

  lemma OrMask(x: byte, k: nat, j: nat)
    requires k < 8 && j < 8
    ensures (x | BitMask(k)) & BitMask(j) != 0 <==> k == j || x & BitMask(j) != 0
  {}
}
