/**
 * AES in counter mode (NIST SP 800-38A, section 6.5), as PyCryptodome lays it
 * out when a nonce is given: counter block j is the nonce followed by j as a
 * big-endian integer filling the rest of the 16-byte block. The AES forward
 * function itself is left abstract: it is a value of type `BlockCipher`.
 */
module Ctr {
  import opened Common

  type Block = s: seq<byte> | |s| == 16 witness seq(16, _ => 0)

  /** The block cipher's forward function: key, input block -> output block. */
  type BlockCipher = (seq<byte>, Block) -> Block

  function Pow2(n: nat): (r: nat)
    ensures r >= 1
  {
    if n == 0 then 1 else 2 * Pow2(n - 1)
  }

  /** Bitwise exclusive or of the low `width` bits of `a` and `b`. */
  function XorBits(a: nat, b: nat, width: nat): (r: nat)
    ensures r < Pow2(width)
    decreases width
  {
    if width == 0 then 0
    else (if a % 2 == b % 2 then 0 else 1) + 2 * XorBits(a / 2, b / 2, width - 1)
  }

  /** XOR with the same mask twice gives back the original value. */
  lemma {:induction false} XorBitsCancel(a: nat, k: nat, width: nat)
    requires a < Pow2(width)
    ensures XorBits(XorBits(a, k, width), k, width) == a
    decreases width
  {
    if width > 0 {
      var x := XorBits(a, k, width);
      var rest := XorBits(a / 2, k / 2, width - 1);
      assert x % 2 == (if a % 2 == k % 2 then 0 else 1) && x / 2 == rest;
      XorBitsCancel(a / 2, k / 2, width - 1);
    }
  }

  /** Two values masked with the same mask differ by exactly what the originals differ by. */
  lemma {:induction false} XorBitsSameMask(a: nat, b: nat, k: nat, width: nat)
    ensures XorBits(XorBits(a, k, width), XorBits(b, k, width), width) == XorBits(a, b, width)
    decreases width
  {
    if width > 0 {
      var x := XorBits(a, k, width);
      var y := XorBits(b, k, width);
      assert x % 2 == (if a % 2 == k % 2 then 0 else 1) && x / 2 == XorBits(a / 2, k / 2, width - 1);
      assert y % 2 == (if b % 2 == k % 2 then 0 else 1) && y / 2 == XorBits(b / 2, k / 2, width - 1);
      XorBitsSameMask(a / 2, b / 2, k / 2, width - 1);
    }
  }

  function Xor(a: byte, b: byte): byte {
    assert Pow2(8) == 256;
    XorBits(a, b, 8)
  }

  /** `v` as a big-endian integer of `width` bytes (only its low `8 * width` bits). */
  function BigEndian(v: nat, width: nat): (r: seq<byte>)
    ensures |r| == width
  {
    if width == 0 then [] else BigEndian(v / 256, width - 1) + [v % 256]
  }

  /** The j-th counter block: nonce followed by the big-endian counter. */
  function CounterBlock(nonce: seq<byte>, j: nat): (t: Block)
    requires |nonce| < 16
    ensures t[..|nonce|] == nonce
  {
    nonce + BigEndian(j, 16 - |nonce|)
  }

  /** The first `n` bytes of the keystream: the cipher's outputs on the counter blocks, concatenated. */
  function KeyStream(aes: BlockCipher, key: seq<byte>, nonce: seq<byte>, n: nat): (ks: seq<byte>)
    requires |nonce| < 16
    ensures |ks| == n
  {
    seq(n, i requires 0 <= i < n => aes(key, CounterBlock(nonce, i / 16))[i % 16])
  }

  /** CTR encryption and decryption are the same operation: XOR with the keystream. */
  function Crypt(aes: BlockCipher, key: seq<byte>, nonce: seq<byte>, data: seq<byte>): (r: seq<byte>)
    requires |nonce| < 16
    ensures |r| == |data|
  {
    var ks := KeyStream(aes, key, nonce, |data|);
    seq(|data|, i requires 0 <= i < |data| => Xor(data[i], ks[i]))
  }

  /** Under one key and nonce, applying CTR twice is the identity. */
  lemma CryptInvolutive(aes: BlockCipher, key: seq<byte>, nonce: seq<byte>, data: seq<byte>)
    requires |nonce| < 16
    ensures Crypt(aes, key, nonce, Crypt(aes, key, nonce, data)) == data
  {
    var c := Crypt(aes, key, nonce, data);
    var ks := KeyStream(aes, key, nonce, |data|);
    assert Pow2(8) == 256;
    forall i | 0 <= i < |data|
      ensures Crypt(aes, key, nonce, c)[i] == data[i]
    {
      XorBitsCancel(data[i], ks[i], 8);
    }
  }

  /**
   * Reusing one key and nonce for two messages: the XOR of the two ciphertexts
   * equals the XOR of the two plaintexts, whatever the key is.
   */
  lemma NonceReuseLeaksXor(aes: BlockCipher, key: seq<byte>, nonce: seq<byte>, d1: seq<byte>, d2: seq<byte>, i: nat)
    requires |nonce| < 16 && i < |d1| && i < |d2|
    ensures Xor(Crypt(aes, key, nonce, d1)[i], Crypt(aes, key, nonce, d2)[i]) == Xor(d1[i], d2[i])
  {
    var k := aes(key, CounterBlock(nonce, i / 16))[i % 16];
    assert KeyStream(aes, key, nonce, |d1|)[i] == k == KeyStream(aes, key, nonce, |d2|)[i];
    XorBitsSameMask(d1[i], d2[i], k, 8);
  }
}
