/** The parts of the Borsh binary format the two drafts rely on: an unsigned integer is
    its little-endian bytes, a signed one its two's complement bytes, a `[u8; 32]` its
    raw bytes. Decoders read from the front of a byte string; how much of the input must
    be consumed is decided by the record codecs that use them. */
module Borsh {
  import opened Int

  type Bytes = seq<u8>

  /** A 32-byte array, such as a public key. */
  type Bytes32 = b: Bytes | |b| == 32 witness seq(32, _ => 0)

  /** `n` zero bytes. */
  function Zeros(n: nat): (r: Bytes)
    ensures |r| == n
    ensures forall i :: 0 <= i < n ==> r[i] == 0
  {
    seq(n, _ => 0)
  }

  function Pow256(n: nat): (r: nat)
    ensures r >= 1
  {
    if n == 0 then 1 else 256 * Pow256(n - 1)
  }

  lemma Pow256Eight()
    ensures Pow256(8) == U64_LIMIT
  {
  }

  /** The `n` low-order bytes of `x`, least significant first. */
  function LittleEndian(x: nat, n: nat): (r: Bytes)
    ensures |r| == n
  {
    if n == 0 then [] else [x % 256] + LittleEndian(x / 256, n - 1)
  }

  /** The number whose little-endian bytes are `b`. */
  function FromLittleEndian(b: Bytes): (r: nat)
    ensures r < Pow256(|b|)
  {
    if b == [] then 0 else b[0] + 256 * FromLittleEndian(b[1..])
  }

  /** Reading back what was written gives the number, when it fits in `n` bytes. */
  lemma {:induction false} FromLittleEndianOfLittleEndian(x: nat, n: nat)
    requires x < Pow256(n)
    ensures FromLittleEndian(LittleEndian(x, n)) == x
  {
    if n > 0 {
      FromLittleEndianOfLittleEndian(x / 256, n - 1);
      assert LittleEndian(x, n)[1..] == LittleEndian(x / 256, n - 1);
    }
  }

  /** Writing back what was read gives the bytes. */
  lemma {:induction false} LittleEndianOfFromLittleEndian(b: Bytes)
    ensures LittleEndian(FromLittleEndian(b), |b|) == b
  {
    if b != [] {
      LittleEndianOfFromLittleEndian(b[1..]);
      var x := FromLittleEndian(b);
      assert x % 256 == b[0] && x / 256 == FromLittleEndian(b[1..]);
    }
  }

  /** A run of zero bytes reads as the number 0. */
  lemma {:induction false} FromLittleEndianZeros(n: nat)
    ensures FromLittleEndian(Zeros(n)) == 0
  {
    if n > 0 {
      assert Zeros(n)[1..] == Zeros(n - 1);
      FromLittleEndianZeros(n - 1);
    }
  }

  /** Borsh `u64`: 8 little-endian bytes. */
  function EncodeU64(x: u64): (r: Bytes)
    ensures |r| == 8
  {
    LittleEndian(x, 8)
  }

  /** Reads a `u64` from exactly 8 bytes. */
  function DecodeU64(b: Bytes): (r: u64)
    requires |b| == 8
    ensures r == FromLittleEndian(b)
  {
    Pow256Eight();
    FromLittleEndian(b)
  }

  lemma DecodeEncodeU64(x: u64)
    ensures DecodeU64(EncodeU64(x)) == x
  {
    Pow256Eight();
    FromLittleEndianOfLittleEndian(x, 8);
  }

  lemma EncodeDecodeU64(b: Bytes)
    requires |b| == 8
    ensures EncodeU64(DecodeU64(b)) == b
  {
    LittleEndianOfFromLittleEndian(b);
  }

  /** Borsh `i64`: the 8 little-endian bytes of its two's complement. */
  function EncodeI64(x: i64): (r: Bytes)
    ensures |r| == 8
  {
    EncodeU64(AsU64(x))
  }

  function DecodeI64(b: Bytes): (r: i64)
    requires |b| == 8
  {
    AsI64(DecodeU64(b))
  }

  lemma DecodeEncodeI64(x: i64)
    ensures DecodeI64(EncodeI64(x)) == x
  {
    DecodeEncodeU64(AsU64(x));
  }

  lemma EncodeDecodeI64(b: Bytes)
    requires |b| == 8
    ensures EncodeI64(DecodeI64(b)) == b
  {
    EncodeDecodeU64(b);
  }
}
