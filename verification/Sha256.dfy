/** The streaming SHA-256 context of src/common/sha256.c, refining the function of FIPS 180-4. */
module Sha256 {
  import opened Prelude
  import opened Sha256Spec

  /** The width of the C field `bit_len`. */
  const TWO_TO_THE_64 := 0x1_0000_0000_0000_0000

  ghost predicate HoldsVars(words: seq<bv32>, v: Vars) {
    words == [v.a, v.b, v.c, v.d, v.e, v.f, v.g, v.h]
  }

  /** The code and the standard add the four schedule words in opposite orders. */
  lemma AddReordered(a: bv32, b: bv32, c: bv32, d: bv32)
    ensures Add4(a, b, c, d) == Add4(d, c, b, a)
  {
  }

  lemma OneBlock(h: Vars, block: seq<byte>)
    requires |block| == 64
    ensures HashBlocks(h, block) == Compress(h, block)
  {
    assert block[..0] == [] && block[0..] == block;
    assert HashBlocks(h, block[..0]) == h;
  }

  /** Hashing one more full block. */
  lemma NextBlock(h: Vars, full: seq<byte>, block: seq<byte>)
    requires |full| % 64 == 0 && |block| == 64
    ensures HashBlocks(h, full + block) == Compress(HashBlocks(h, full), block)
  {
    HashBlocksConcat(h, full, block);
    OneBlock(HashBlocks(h, full), block);
  }

  /** A message splits into full blocks and a tail shorter than a block. */
  function Full(msg: seq<byte>): (full: seq<byte>)
    ensures |full| % 64 == 0 && full <= msg
  {
    msg[..|msg| - |msg| % 64]
  }

  function Tail(msg: seq<byte>): (tail: seq<byte>)
    ensures |tail| == |msg| % 64
    ensures Full(msg) + tail == msg
  {
    msg[|msg| - |msg| % 64..]
  }

  /** When the tail and the byte 0x80 leave room for the length, the padding ends in the same block. */
  lemma PadInOneBlock(msg: seq<byte>)
    requires |msg| % 64 <= 55
    ensures Pad(msg) == Full(msg) + (Tail(msg) + [0x80] + Zeros(55 - |msg| % 64) + LengthField(8 * |msg|))
  {
    assert ZeroCount(|msg|) == 55 - |msg| % 64;
  }

  /** Otherwise the padding fills that block with zeros and takes one more. */
  lemma PadInTwoBlocks(msg: seq<byte>)
    requires 56 <= |msg| % 64
    ensures Pad(msg) == Full(msg) + (Tail(msg) + [0x80] + Zeros(63 - |msg| % 64)) + (Zeros(56) + LengthField(8 * |msg|))
  {
    assert ZeroCount(|msg|) == (63 - |msg| % 64) + 56;
    assert Zeros(ZeroCount(|msg|)) == Zeros(63 - |msg| % 64) + Zeros(56);
  }

  /** The counter wraps at 2^64, which the eight bytes of the length field do not see. */
  lemma LengthFieldWraps(bits: nat)
    ensures LengthField(bits % TWO_TO_THE_64) == LengthField(bits)
  {
    var q, r := bits / TWO_TO_THE_64, bits % TWO_TO_THE_64;
    assert bits == r + q * TWO_TO_THE_64;
    LowByteShift(r, q * 0x100_0000_0000_0000);
    LowByteShift(r / 0x100, q * 0x1_0000_0000_0000);
    assert bits / 0x100 == r / 0x100 + q * 0x100_0000_0000_0000;
    assert bits / 0x1_0000 == r / 0x1_0000 + q * 0x1_0000_0000_0000;
    assert bits / 0x100_0000 == r / 0x100_0000 + q * 0x100_0000_0000;
    assert bits / 0x1_0000_0000 == r / 0x1_0000_0000 + q * 0x1_0000_0000;
    assert bits / 0x100_0000_0000 == r / 0x100_0000_0000 + q * 0x100_0000;
    assert bits / 0x1_0000_0000_0000 == r / 0x1_0000_0000_0000 + q * 0x1_0000;
    assert bits / 0x100_0000_0000_0000 == r / 0x100_0000_0000_0000 + q * 0x100;
    LowByteShift(r / 0x1_0000, q * 0x100_0000_0000);
    LowByteShift(r / 0x100_0000, q * 0x1_0000_0000);
    LowByteShift(r / 0x1_0000_0000, q * 0x100_0000);
    LowByteShift(r / 0x100_0000_0000, q * 0x1_0000);
    LowByteShift(r / 0x1_0000_0000_0000, q * 0x100);
    LowByteShift(r / 0x100_0000_0000_0000, q);
  }

  lemma LowByteShift(r: nat, q: nat)
    ensures LowByte(r + q * 0x100) == LowByte(r)
  {
  }

  /** The first two loops of `sha256_transform`: the message schedule. */
  method Schedule(block: array<byte>) returns (m: array<bv32>)
    requires block.Length == 64
    ensures fresh(m) && m.Length == 64
    ensures forall j: nat | j < 64 :: m[j] == W(block[..], j)
  {
    hide Add4, SmallSigma0, SmallSigma1, WordOf;
    ghost var bytes := block[..];
    m := new bv32[64];
    for i := 0 to 16
      invariant forall j: nat | j < i :: m[j] == W(bytes, j)
    {
      m[i] := WordOf(block[i * 4], block[i * 4 + 1], block[i * 4 + 2], block[i * 4 + 3]);
    }
    for i := 16 to 64
      invariant forall j: nat | j < i :: m[j] == W(bytes, j)
    {
      var s0 := SmallSigma0(m[i - 15]);
      var s1 := SmallSigma1(m[i - 2]);
      AddReordered(m[i - 16], s0, m[i - 7], s1);
      m[i] := Add4(m[i - 16], s0, m[i - 7], s1);
    }
  }

  /** The third loop of `sha256_transform`: the rotating working variables. */
  method RunRounds(ghost block: seq<byte>, m: array<bv32>, start: Vars) returns (v: Vars)
    requires |block| == 64 && m.Length == 64
    requires forall j: nat | j < 64 :: m[j] == W(block, j)
    ensures v == Rounds(block, start, 64)
  {
    hide Add, BigSigma0, BigSigma1, Ch, Maj, W;
    var a, b, c, d := start.a, start.b, start.c, start.d;
    var e, f, g, h := start.e, start.f, start.g, start.h;
    for i := 0 to 64
      invariant Vars(a, b, c, d, e, f, g, h) == Rounds(block, start, i)
    {
      ghost var before := Vars(a, b, c, d, e, f, g, h);
      var s1 := BigSigma1(e);
      var ch := Ch(e, f, g);
      var temp1 := Add(Add(Add(Add(h, s1), ch), K[i]), m[i]);
      var s0 := BigSigma0(a);
      var maj := Maj(a, b, c);
      var temp2 := Add(s0, maj);
      h := g;
      g := f;
      f := e;
      e := Add(d, temp1);
      d := c;
      c := b;
      b := a;
      a := Add(temp1, temp2);
      assert Vars(a, b, c, d, e, f, g, h) == Round(before, K[i], W(block, i));
    }
    v := Vars(a, b, c, d, e, f, g, h);
  }

  lemma TotalBits(msg: seq<byte>)
    ensures ((8 * |Full(msg)|) % TWO_TO_THE_64 + |msg| % 64 * 8) % TWO_TO_THE_64 == (8 * |msg|) % TWO_TO_THE_64
  {
    assert |Full(msg)| == |msg| - |msg| % 64;
  }

  lemma NextBits(msg: seq<byte>, b: byte)
    requires |msg| % 64 == 63
    ensures ((8 * |Full(msg)|) % TWO_TO_THE_64 + 512) % TWO_TO_THE_64 == (8 * |Full(msg + [b])|) % TWO_TO_THE_64
  {
    assert |Full(msg)| == |msg| - 63 && |Full(msg + [b])| == |msg| + 1;
  }

  class Context {
    const state: array<bv32>
    const data: array<byte>
    var dataLen: nat
    var bitLen: nat
    ghost var absorbed: seq<byte>

    ghost predicate Valid()
      reads this, state, data
    {
      && state.Length == 8 && data.Length == 64
      && dataLen == |absorbed| % 64
      && bitLen == (8 * |Full(absorbed)|) % TWO_TO_THE_64
      && data[..dataLen] == Tail(absorbed)
      && HoldsVars(state[..], HashBlocks(H0, Full(absorbed)))
    }

    constructor ()
      ensures Valid() && absorbed == []
      ensures fresh(state) && fresh(data)
    {
      state := new bv32[8] [0x6a09e667, 0xbb67ae85, 0x3c6ef372, 0xa54ff53a,
                            0x510e527f, 0x9b05688c, 0x1f83d9ab, 0x5be0cd19];
      data := new byte[64];
      dataLen := 0;
      bitLen := 0;
      absorbed := [];
    }

    /** Folds one block into the state. */
    method Transform(block: array<byte>)
      requires state.Length == 8 && block.Length == 64
      modifies state
      ensures forall v :: old(HoldsVars(state[..], v)) ==> HoldsVars(state[..], Compress(v, block[..]))
    {
      hide Add, W, Rounds;
      var m := Schedule(block);
      var v := RunRounds(block[..], m, Vars(state[0], state[1], state[2], state[3], state[4], state[5], state[6], state[7]));
      state[0] := Add(state[0], v.a);
      state[1] := Add(state[1], v.b);
      state[2] := Add(state[2], v.c);
      state[3] := Add(state[3], v.d);
      state[4] := Add(state[4], v.e);
      state[5] := Add(state[5], v.f);
      state[6] := Add(state[6], v.g);
      state[7] := Add(state[7], v.h);
    }

    /** One byte at a time; a full buffer is folded at once. */
    method Update(input: seq<byte>)
      requires Valid()
      modifies this, state, data
      ensures Valid() && absorbed == old(absorbed) + input
    {
      hide HashBlocks, Full, Tail;
      for i := 0 to |input|
        invariant Valid() && absorbed == old(absorbed) + input[..i]
      {
        UpdateByte(input[i]);
        assert input[..i + 1] == input[..i] + [input[i]];
      }
      assert input[..|input|] == input;
    }

    method UpdateByte(b: byte)
      requires Valid()
      modifies this, state, data
      ensures Valid() && absorbed == old(absorbed) + [b]
    {
      hide HashBlocks, Compress, Full, Tail;
      ghost var next := absorbed + [b];
      AbsorbByte(absorbed, b);
      data[dataLen] := b;
      dataLen := dataLen + 1;
      assert data[..dataLen] == Tail(absorbed) + [b];
      if dataLen == 64 {
        assert data[..] == Tail(absorbed) + [b];
        Transform(data);
        NextBits(absorbed, b);
        bitLen := (bitLen + 512) % TWO_TO_THE_64;
        dataLen := 0;
      }
      absorbed := next;
    }

    /** Pads in place, in one block or in two, and writes the digest. */
    method Final(digest: array<byte>)
      requires Valid() && digest.Length == 32 && digest != data
      modifies this, state, data, digest
      ensures digest[..] == Sha256(old(absorbed))
    {
      hide HashBlocks, Compress, Full, Tail, Pad, LengthField, Sha256Spec.Sha256, DigestBytes;
      ghost var tail := data[..dataLen];
      ghost var full := HashBlocks(H0, Full(absorbed));
      var i := dataLen;
      data[i] := 0x80;
      i := i + 1;
      if i > 56 {
        FillZeros(i, 64);
        assert data[..] == tail + [0x80] + Zeros(63 - dataLen);
        Transform(data);
        ghost var first := data[..];
        FillZeros(0, 56);
        StoreLength();
        assert data[..] == Zeros(56) + LengthField(8 * |absorbed|);
        PadInTwoBlocks(absorbed);
        NextBlock(H0, Full(absorbed), first);
        NextBlock(H0, Full(absorbed) + first, data[..]);
      } else {
        FillZeros(i, 56);
        StoreLength();
        assert data[..] == tail + [0x80] + Zeros(55 - dataLen) + LengthField(8 * |absorbed|);
        PadInOneBlock(absorbed);
        NextBlock(H0, Full(absorbed), data[..]);
      }
      Transform(data);
      WriteDigest(digest, HashBlocks(H0, Pad(absorbed)));
      DigestOf(absorbed);
    }

    method FillZeros(from: nat, to: nat)
      requires data.Length == 64 && from <= to <= 64
      modifies data
      ensures data[..] == old(data[..from]) + Zeros(to - from) + old(data[to..])
    {
      var i := from;
      while i < to
        invariant from <= i <= to
        invariant data[..from] == old(data[..from])
        invariant forall j | from <= j < i :: data[j] == 0
        invariant data[to..] == old(data[to..])
      {
        data[i] := 0;
        i := i + 1;
      }
    }

    /** Adds the bits of the unfolded bytes and stores the wrapped counter in the last eight bytes. */
    method StoreLength()
      requires data.Length == 64 && dataLen == |absorbed| % 64
      requires bitLen == (8 * |Full(absorbed)|) % TWO_TO_THE_64
      modifies this`bitLen, data
      ensures data[..] == old(data[..56]) + LengthField(8 * |absorbed|)
    {
      hide Full, LowByte;
      TotalBits(absorbed);
      bitLen := (bitLen + dataLen * 8) % TWO_TO_THE_64;
      LengthFieldWraps(8 * |absorbed|);
      data[56] := LowByte(bitLen / 0x100_0000_0000_0000);
      data[57] := LowByte(bitLen / 0x1_0000_0000_0000);
      data[58] := LowByte(bitLen / 0x100_0000_0000);
      data[59] := LowByte(bitLen / 0x1_0000_0000);
      data[60] := LowByte(bitLen / 0x100_0000);
      data[61] := LowByte(bitLen / 0x1_0000);
      data[62] := LowByte(bitLen / 0x100);
      data[63] := LowByte(bitLen);
    }

    method WriteDigest(digest: array<byte>, ghost v: Vars)
      requires state.Length == 8 && digest.Length == 32 && HoldsVars(state[..], v)
      modifies digest
      ensures digest[..] == DigestBytes(v)
    {
      hide WordBytes, DigestBytes;
      ghost var words := state[..];
      for j := 0 to 8
        invariant digest[..4 * j] == Joined(words, j)
      {
        var b := WordBytes(state[j]);
        digest[j * 4], digest[j * 4 + 1], digest[j * 4 + 2], digest[j * 4 + 3] := b[0], b[1], b[2], b[3];
        assert digest[..4 * j + 4] == digest[..4 * j] + b;
      }
      JoinWords(words, v);
      assert digest[..] == digest[..32];
    }
  }

  lemma DigestOf(msg: seq<byte>)
    ensures Sha256(msg) == DigestBytes(HashBlocks(H0, Pad(msg)))
  {
  }

  /** One more byte either lengthens the tail or completes a block. */
  lemma AbsorbByte(msg: seq<byte>, b: byte)
    ensures |msg| % 64 < 63 ==> Full(msg + [b]) == Full(msg) && Tail(msg + [b]) == Tail(msg) + [b]
    ensures |msg| % 64 == 63 ==> Full(msg + [b]) == Full(msg) + (Tail(msg) + [b]) && Tail(msg + [b]) == []
    ensures |msg| % 64 == 63 ==>
      HashBlocks(H0, Full(msg + [b])) == Compress(HashBlocks(H0, Full(msg)), Tail(msg) + [b])
  {
    if |msg| % 64 == 63 {
      assert Full(msg + [b]) == msg + [b] == Full(msg) + (Tail(msg) + [b]);
      NextBlock(H0, Full(msg), Tail(msg) + [b]);
    }
  }

  /** The bytes of the first `n` words. */
  function Joined(words: seq<bv32>, n: nat): (b: seq<byte>)
    requires n <= |words|
    ensures |b| == 4 * n
  {
    if n == 0 then [] else Joined(words, n - 1) + WordBytes(words[n - 1])
  }

  lemma JoinWords(words: seq<bv32>, v: Vars)
    requires HoldsVars(words, v)
    ensures Joined(words, 8) == DigestBytes(v)
  {
    hide WordBytes;
    assert Joined(words, 2) == WordBytes(v.a) + WordBytes(v.b);
    assert Joined(words, 4) == Joined(words, 2) + WordBytes(v.c) + WordBytes(v.d);
    assert Joined(words, 6) == Joined(words, 4) + WordBytes(v.e) + WordBytes(v.f);
    assert Joined(words, 8) == Joined(words, 6) + WordBytes(v.g) + WordBytes(v.h);
  }

  /** `sha256_buffer`: the digest of one buffer. */
  method HashBuffer(input: seq<byte>) returns (digest: seq<byte>)
    ensures digest == Sha256(input)
  {
    hide Full, Tail, HashBlocks, Sha256Spec.Sha256;
    var ctx := new Context();
    ctx.Update(input);
    assert [] + input == input;
    var out := new byte[32];
    ctx.Final(out);
    digest := out[..];
  }

  /**
   The read loop of `sha256_file_hex`: reads of 64 KiB, ended by a short one. A read that touches
   the position `errorAt` (the last one always touches the end of the file) stops there with an error.
   */
  method HashFile(file: seq<byte>, errorAt: Option<nat>) returns (digest: Option<seq<byte>>)
    ensures digest.Some? <==> errorAt.None? || |file| < errorAt.value
    ensures digest.Some? ==> digest.value == Sha256(file)
  {
    hide Full, Tail, HashBlocks, Sha256Spec.Sha256;
    var ctx := new Context();
    var pos := 0;
    var ok := true;
    while true
      invariant ctx.Valid() && fresh(ctx) && fresh(ctx.state) && fresh(ctx.data)
      invariant 0 <= pos <= |file| && ctx.absorbed == file[..pos]
      invariant errorAt.Some? ==> pos <= errorAt.value
      invariant ok
      decreases |file| - pos
    {
      var n := if |file| - pos < 65536 then |file| - pos else 65536;
      var short := n < 65536;
      if errorAt.Some? && (errorAt.value < pos + n || (short && errorAt.value == pos + n)) {
        n := errorAt.value - pos;
        short := true;
        ok := false;
      }
      if n > 0 {
        ctx.Update(file[pos..pos + n]);
        assert file[..pos] + file[pos..pos + n] == file[..pos + n];
      }
      pos := pos + n;
      if short {
        break;
      }
    }
    if !ok {
      return None;
    }
    assert file[..pos] == file;
    var out := new byte[32];
    ctx.Final(out);
    digest := Some(out[..]);
  }
}
