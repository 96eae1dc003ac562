/**
 The SHA-256 hash of FIPS 180-4, written from the standard: constants (sections 4.2.2 and 5.3.3),
 functions (4.1.2), padding (5.1.1), parsing (5.2.1) and the hash computation (6.2.2).
 */
module Sha256Spec {
  import opened Prelude

  /** Both the eight working variables and the eight words of an intermediate hash value. */
  datatype Vars = Vars(a: bv32, b: bv32, c: bv32, d: bv32, e: bv32, f: bv32, g: bv32, h: bv32)

  const H0 := Vars(0x6a09e667, 0xbb67ae85, 0x3c6ef372, 0xa54ff53a,
                   0x510e527f, 0x9b05688c, 0x1f83d9ab, 0x5be0cd19)

  const K: seq<bv32> := [
    0x428a2f98, 0x71374491, 0xb5c0fbcf, 0xe9b5dba5,
    0x3956c25b, 0x59f111f1, 0x923f82a4, 0xab1c5ed5,
    0xd807aa98, 0x12835b01, 0x243185be, 0x550c7dc3,
    0x72be5d74, 0x80deb1fe, 0x9bdc06a7, 0xc19bf174
  ] + [
    0xe49b69c1, 0xefbe4786, 0x0fc19dc6, 0x240ca1cc,
    0x2de92c6f, 0x4a7484aa, 0x5cb0a9dc, 0x76f988da,
    0x983e5152, 0xa831c66d, 0xb00327c8, 0xbf597fc7,
    0xc6e00bf3, 0xd5a79147, 0x06ca6351, 0x14292967
  ] + [
    0x27b70a85, 0x2e1b2138, 0x4d2c6dfc, 0x53380d13,
    0x650a7354, 0x766a0abb, 0x81c2c92e, 0x92722c85,
    0xa2bfe8a1, 0xa81a664b, 0xc24b8b70, 0xc76c51a3,
    0xd192e819, 0xd6990624, 0xf40e3585, 0x106aa070
  ] + [
    0x19a4c116, 0x1e376c08, 0x2748774c, 0x34b0bcb5,
    0x391c0cb3, 0x4ed8aa4a, 0x5b9cca4f, 0x682e6ff3,
    0x748f82ee, 0x78a5636f, 0x84c87814, 0x8cc70208,
    0x90befffa, 0xa4506ceb, 0xbef9a3f7, 0xc67178f2
  ]

  /** Section 3.2: rotate right. */
  function RotR(x: bv32, n: bv6): bv32
    requires 0 < n < 32
  {
    (x >> n) | (x << (32 - n))
  }

  /** Section 2.2.2: addition modulo 2^32. */
  function Add(x: bv32, y: bv32): bv32 { x + y }
  function Add4(x: bv32, y: bv32, z: bv32, u: bv32): bv32 { x + y + z + u }

  function Ch(x: bv32, y: bv32, z: bv32): bv32 { (x & y) ^ (!x & z) }
  function Maj(x: bv32, y: bv32, z: bv32): bv32 { (x & y) ^ (x & z) ^ (y & z) }
  function BigSigma0(x: bv32): bv32 { RotR(x, 2) ^ RotR(x, 13) ^ RotR(x, 22) }
  function BigSigma1(x: bv32): bv32 { RotR(x, 6) ^ RotR(x, 11) ^ RotR(x, 25) }
  function SmallSigma0(x: bv32): bv32 { RotR(x, 7) ^ RotR(x, 18) ^ (x >> 3) }
  function SmallSigma1(x: bv32): bv32 { RotR(x, 17) ^ RotR(x, 19) ^ (x >> 10) }

  /** Section 5.2.1: four bytes, most significant first, as a word. */
  function WordOf(b0: byte, b1: byte, b2: byte, b3: byte): bv32 {
    ((b0 as bv32) << 24) | ((b1 as bv32) << 16) | ((b2 as bv32) << 8) | (b3 as bv32)
  }

  /** Section 6.2.2, step 1: the message schedule. */
  function W(block: seq<byte>, t: nat): bv32
    requires |block| == 64 && t < 64
  {
    if t < 16 then
      WordOf(block[4 * t], block[4 * t + 1], block[4 * t + 2], block[4 * t + 3])
    else
      Add4(SmallSigma1(W(block, t - 2)), W(block, t - 7), SmallSigma0(W(block, t - 15)), W(block, t - 16))
  }

  /** Section 6.2.2, step 3: one round, with its constant and its schedule word. */
  function Round(v: Vars, k: bv32, w: bv32): Vars {
    var t1 := Add(Add(Add(Add(v.h, BigSigma1(v.e)), Ch(v.e, v.f, v.g)), k), w);
    var t2 := Add(BigSigma0(v.a), Maj(v.a, v.b, v.c));
    Vars(Add(t1, t2), v.a, v.b, v.c, Add(v.d, t1), v.e, v.f, v.g)
  }

  /** The working variables after the first `t` rounds. */
  function Rounds(block: seq<byte>, v: Vars, t: nat): Vars
    requires |block| == 64 && t <= 64
  {
    if t == 0 then v else Round(Rounds(block, v, t - 1), K[t - 1], W(block, t - 1))
  }

  function Sum(x: Vars, y: Vars): Vars {
    Vars(Add(x.a, y.a), Add(x.b, y.b), Add(x.c, y.c), Add(x.d, y.d),
         Add(x.e, y.e), Add(x.f, y.f), Add(x.g, y.g), Add(x.h, y.h))
  }

  /** Section 6.2.2, step 4: the next intermediate hash value. */
  function Compress(h: Vars, block: seq<byte>): Vars
    requires |block| == 64
  {
    Sum(h, Rounds(block, h, 64))
  }

  /** The hash value after all the blocks of `bytes`. */
  function HashBlocks(h: Vars, bytes: seq<byte>): Vars
    requires |bytes| % 64 == 0
  {
    if |bytes| == 0 then h
    else Compress(HashBlocks(h, bytes[..|bytes| - 64]), bytes[|bytes| - 64..])
  }

  /** The number of zero bytes between the byte 0x80 and the length field. */
  function ZeroCount(n: nat): nat { (119 - n % 64) % 64 }

  function Zeros(n: nat): (z: seq<byte>)
    ensures |z| == n
  {
    seq(n, _ => 0)
  }

  /** The low byte of the number `n`. */
  function LowByte(n: nat): byte { (n % 256) as byte }

  /** The 64-bit big-endian representation of a number of bits. */
  function LengthField(bits: nat): (field: seq<byte>)
    ensures |field| == 8
  {
    [LowByte(bits / 0x100_0000_0000_0000), LowByte(bits / 0x1_0000_0000_0000),
     LowByte(bits / 0x100_0000_0000), LowByte(bits / 0x1_0000_0000),
     LowByte(bits / 0x100_0000), LowByte(bits / 0x1_0000), LowByte(bits / 0x100), LowByte(bits)]
  }

  /** Section 5.1.1: the padded message. */
  function Pad(msg: seq<byte>): (padded: seq<byte>)
    ensures |padded| % 64 == 0
  {
    assert (|msg| + 1 + ZeroCount(|msg|)) % 64 == 56;
    msg + [0x80] + Zeros(ZeroCount(|msg|)) + LengthField(8 * |msg|)
  }

  /** The low byte of a word. */
  function WordLow(w: bv32): byte { ((w & 0xff) as bv8) as byte }

  function WordBytes(w: bv32): (b: seq<byte>)
    ensures |b| == 4
  {
    [WordLow(w >> 24), WordLow(w >> 16), WordLow(w >> 8), WordLow(w)]
  }

  function DigestBytes(h: Vars): (d: seq<byte>)
    ensures |d| == 32
  {
    WordBytes(h.a) + WordBytes(h.b) + WordBytes(h.c) + WordBytes(h.d) +
    WordBytes(h.e) + WordBytes(h.f) + WordBytes(h.g) + WordBytes(h.h)
  }

  /** The message digest. */
  function Sha256(msg: seq<byte>): (d: seq<byte>)
    ensures |d| == 32
  {
    DigestBytes(HashBlocks(H0, Pad(msg)))
  }

  /** Section 5.1.1 asks for the least non-negative number of zero bits; the padding uses exactly that. */
  lemma PaddingIsLeast(n: nat, k: nat)
    ensures (8 * n + 1 + (7 + 8 * ZeroCount(n))) % 512 == 448
    ensures (8 * n + 1 + k) % 512 == 448 ==> 7 + 8 * ZeroCount(n) <= k
  {
    var q, r := n / 64, n % 64;
    assert 8 * n == 512 * q + 8 * r;
  }

  /** The value of a length field, read back as a big-endian number. */
  function FieldValue(field: seq<byte>): nat {
    if |field| == 0 then 0 else FieldValue(field[..|field| - 1]) * 256 + field[|field| - 1] as nat
  }

  lemma FieldValueStep(field: seq<byte>, k: nat, n: nat)
    requires k < |field| && field[k] == LowByte(n) && FieldValue(field[..k]) == n / 256
    ensures FieldValue(field[..k + 1]) == n
  {
    assert field[..k + 1][..k] == field[..k];
  }

  /** Below 2^64 bits, that is below 2^61 bytes, the field holds the length itself. */
  lemma LengthFieldIsExact(bits: nat)
    requires bits < 0x1_0000_0000_0000_0000
    ensures FieldValue(LengthField(bits)) == bits
  {
    var f := LengthField(bits);
    FieldValueStep(f, 0, bits / 0x100_0000_0000_0000);
    FieldValueStep(f, 1, bits / 0x1_0000_0000_0000);
    FieldValueStep(f, 2, bits / 0x100_0000_0000);
    FieldValueStep(f, 3, bits / 0x1_0000_0000);
    FieldValueStep(f, 4, bits / 0x100_0000);
    FieldValueStep(f, 5, bits / 0x1_0000);
    FieldValueStep(f, 6, bits / 0x100);
    FieldValueStep(f, 7, bits);
    assert f[..8] == f;
  }

  /** Hashing a concatenation continues from the hash value of the first part. */
  lemma {:induction false} HashBlocksConcat(h: Vars, xs: seq<byte>, ys: seq<byte>)
    requires |xs| % 64 == 0 && |ys| % 64 == 0
    ensures HashBlocks(h, xs + ys) == HashBlocks(HashBlocks(h, xs), ys)
    decreases |ys|
  {
    if |ys| == 0 {
      assert xs + ys == xs;
    } else {
      var n := |ys| - 64;
      HashBlocksConcat(h, xs, ys[..n]);
      assert (xs + ys)[..|xs + ys| - 64] == xs + ys[..n];
      assert (xs + ys)[|xs + ys| - 64..] == ys[n..];
    }
  }
}
