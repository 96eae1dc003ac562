/**
 What the constants of SHA-256 are, and a known answer, the first example that NIST gives for FIPS 180-4: the digest
 of "abc". Each lemma of the known answer goes eight words of the schedule, or eight rounds, further.
 */
module Sha256Vectors {
  import opened Prelude
  import opened Sha256Spec
  import Sha256

  // ---- The primes up to 311 ----

  const PRIMES: seq<nat> := [
    2, 3, 5, 7, 11, 13, 17, 19, 23, 29, 31, 37, 41, 43, 47, 53
  ] + [
    59, 61, 67, 71, 73, 79, 83, 89, 97, 101, 103, 107, 109, 113, 127, 131
  ] + [
    137, 139, 149, 151, 157, 163, 167, 173, 179, 181, 191, 193, 197, 199, 211, 223
  ] + [
    227, 229, 233, 239, 241, 251, 257, 263, 269, 271, 277, 281, 283, 293, 307, 311
  ]

  ghost predicate IsPrime(n: nat) {
    n >= 2 && forall d: nat | 2 <= d < n :: n % d != 0
  }

  /** No prime divisor below 19, except the number itself. */
  predicate Sieved(n: nat) {
    && (n % 2 != 0 || n == 2) && (n % 3 != 0 || n == 3) && (n % 5 != 0 || n == 5) && (n % 7 != 0 || n == 7)
    && (n % 11 != 0 || n == 11) && (n % 13 != 0 || n == 13) && (n % 17 != 0 || n == 17)
  }

  lemma MultipleOf(n: nat, p: nat, z: nat)
    requires n == p * z && (p == 2 || p == 3 || p == 5 || p == 7 || p == 11 || p == 13 || p == 17)
    ensures n % p == 0
  {
  }

  lemma SmallDivisor(n: nat, x: nat, y: nat)
    requires n == x * y && 2 <= x < 19 && x < n
    ensures !Sieved(n)
  {
    var p := if x % 2 == 0 then 2 else if x % 3 == 0 then 3 else x;
    assert x == p * (x / p);
    assert n == p * ((x / p) * y);
    MultipleOf(n, p, (x / p) * y);
  }

  /** Below 19 * 19 the sieve finds exactly the primes. */
  lemma SieveIs(n: nat)
    requires 2 <= n < 361
    ensures IsPrime(n) <==> Sieved(n)
  {
    if Sieved(n) {
      hide Sieved;
      forall d: nat | 2 <= d < n ensures n % d != 0 {
        if n % d == 0 {
          NoDivisor(n, d);
        }
      }
    } else {
      assert n % 2 == 0 || n % 3 == 0 || n % 5 == 0 || n % 7 == 0 || n % 11 == 0 || n % 13 == 0 || n % 17 == 0;
    }
  }

  lemma NoDivisor(n: nat, d: nat)
    requires 2 <= d < n < 361 && n % d == 0
    ensures !Sieved(n)
  {
    hide Sieved;
    var q := n / d;
    assert n == d * q;
    if d < 19 {
      SmallDivisor(n, d, q);
    } else {
      assert q < 19;
      SmallDivisor(n, q, d);
    }
  }

  lemma Sorted(i: nat)
    requires 0 < i < 64
    ensures PRIMES[i - 1] < PRIMES[i]
  {
  }

  lemma Bounds(i: nat)
    requires i < 64
    ensures PRIMES[0] == 2 && 2 <= PRIMES[i] < 361
  {
  }

  // ---- The constants ----

  /** The cube roots of the primes, with 32 binary places, as integers. */
  const ROOTS: seq<nat> := [
    0x1_428a2f98, 0x1_71374491, 0x1_b5c0fbcf, 0x1_e9b5dba5, 0x2_3956c25b, 0x2_59f111f1, 0x2_923f82a4, 0x2_ab1c5ed5,
    0x2_d807aa98, 0x3_12835b01, 0x3_243185be, 0x3_550c7dc3, 0x3_72be5d74, 0x3_80deb1fe, 0x3_9bdc06a7, 0x3_c19bf174
  ] + [
    0x3_e49b69c1, 0x3_efbe4786, 0x4_0fc19dc6, 0x4_240ca1cc, 0x4_2de92c6f, 0x4_4a7484aa, 0x4_5cb0a9dc, 0x4_76f988da,
    0x4_983e5152, 0x4_a831c66d, 0x4_b00327c8, 0x4_bf597fc7, 0x4_c6e00bf3, 0x4_d5a79147, 0x5_06ca6351, 0x5_14292967
  ] + [
    0x5_27b70a85, 0x5_2e1b2138, 0x5_4d2c6dfc, 0x5_53380d13, 0x5_650a7354, 0x5_766a0abb, 0x5_81c2c92e, 0x5_92722c85,
    0x5_a2bfe8a1, 0x5_a81a664b, 0x5_c24b8b70, 0x5_c76c51a3, 0x5_d192e819, 0x5_d6990624, 0x5_f40e3585, 0x6_106aa070
  ] + [
    0x6_19a4c116, 0x6_1e376c08, 0x6_2748774c, 0x6_34b0bcb5, 0x6_391c0cb3, 0x6_4ed8aa4a, 0x6_5b9cca4f, 0x6_682e6ff3,
    0x6_748f82ee, 0x6_78a5636f, 0x6_84c87814, 0x6_8cc70208, 0x6_90befffa, 0x6_a4506ceb, 0x6_bef9a3f7, 0x6_c67178f2
  ]

  /** `c` is the cube root of `p` with 32 binary places, rounded down. */
  predicate CubeRoot(p: nat, c: nat) {
    c * c * c <= p * 0x1_0000_0000_0000_0000_0000_0000 < (c + 1) * (c + 1) * (c + 1)
  }

  /** The same for the square root. */
  predicate SquareRoot(p: nat, c: nat) {
    c * c <= p * 0x1_0000_0000_0000_0000 < (c + 1) * (c + 1)
  }

  lemma RootsTo16(i: nat)
    requires 0 <= i < 16
    ensures Sieved(PRIMES[i]) && CubeRoot(PRIMES[i], ROOTS[i])
  {
  }

  lemma RootsTo32(i: nat)
    requires 16 <= i < 32
    ensures Sieved(PRIMES[i]) && CubeRoot(PRIMES[i], ROOTS[i])
  {
  }

  lemma RootsTo48(i: nat)
    requires 32 <= i < 48
    ensures Sieved(PRIMES[i]) && CubeRoot(PRIMES[i], ROOTS[i])
  {
  }

  lemma RootsTo56(i: nat)
    requires 48 <= i < 56
    ensures Sieved(PRIMES[i]) && CubeRoot(PRIMES[i], ROOTS[i])
  {
  }

  lemma RootsTo64(i: nat)
    requires 56 <= i < 64
    ensures Sieved(PRIMES[i]) && CubeRoot(PRIMES[i], ROOTS[i])
  {
  }

  lemma PlacesTo8(i: nat)
    requires 0 <= i < 8
    ensures K[i] as nat == ROOTS[i] % 0x1_0000_0000
  {
  }

  lemma PlacesTo16(i: nat)
    requires 8 <= i < 16
    ensures K[i] as nat == ROOTS[i] % 0x1_0000_0000
  {
  }

  lemma PlacesTo24(i: nat)
    requires 16 <= i < 24
    ensures K[i] as nat == ROOTS[i] % 0x1_0000_0000
  {
  }

  lemma PlacesTo32(i: nat)
    requires 24 <= i < 32
    ensures K[i] as nat == ROOTS[i] % 0x1_0000_0000
  {
  }

  lemma PlacesTo40(i: nat)
    requires 32 <= i < 40
    ensures K[i] as nat == ROOTS[i] % 0x1_0000_0000
  {
  }

  lemma PlacesTo48(i: nat)
    requires 40 <= i < 48
    ensures K[i] as nat == ROOTS[i] % 0x1_0000_0000
  {
  }

  lemma PlacesTo56(i: nat)
    requires 48 <= i < 56
    ensures K[i] as nat == ROOTS[i] % 0x1_0000_0000
  {
  }

  lemma PlacesTo64(i: nat)
    requires 56 <= i < 64
    ensures K[i] as nat == ROOTS[i] % 0x1_0000_0000
  {
  }

  lemma RootIs(i: nat)
    requires i < 64
    ensures Sieved(PRIMES[i]) && CubeRoot(PRIMES[i], ROOTS[i])
  {
    hide PRIMES, ROOTS, Sieved, CubeRoot;
    if i < 32 {
      if i < 16 { RootsTo16(i); } else { RootsTo32(i); }
    } else {
      if i < 48 { RootsTo48(i); } else if i < 56 { RootsTo56(i); } else { RootsTo64(i); }
    }
  }

  lemma PlacesAre(i: nat)
    requires i < 64
    ensures K[i] as nat == ROOTS[i] % 0x1_0000_0000
  {
    hide K, ROOTS;
    if i < 32 {
      if i < 8 { PlacesTo8(i); } else if i < 16 { PlacesTo16(i); } else if i < 24 { PlacesTo24(i); } else { PlacesTo32(i); }
    } else {
      if i < 40 { PlacesTo40(i); } else if i < 48 { PlacesTo48(i); } else if i < 56 { PlacesTo56(i); } else { PlacesTo64(i); }
    }
  }

  /** The table: primes only, in increasing order, from two on. */
  lemma TableOfPrimes(i: nat)
    requires i < 64
    ensures |PRIMES| == 64 && PRIMES[0] == 2 && IsPrime(PRIMES[i]) && (i > 0 ==> PRIMES[i - 1] < PRIMES[i])
  {
    assert |PRIMES| == 64;
    hide PRIMES, Sieved, ROOTS, CubeRoot, IsPrime;
    Bounds(i);
    RootIs(i);
    SieveIs(PRIMES[i]);
    if i > 0 {
      Sorted(i);
    }
  }

  /** Section 4.2.2: the constants are the first 32 bits of the fractional parts of the cube roots of these primes. */
  lemma RoundConstants(i: nat)
    requires i < 64
    ensures CubeRoot(PRIMES[i], ROOTS[i]) && K[i] as nat == ROOTS[i] % 0x1_0000_0000
  {
    hide PRIMES, ROOTS, K, Sieved, CubeRoot;
    RootIs(i);
    PlacesAre(i);
  }

  /** Section 5.3.3: the initial hash value, by the square roots of the first eight primes. */
  lemma InitialHashValue(i: nat)
    requires i < 8
    ensures var h := [H0.a, H0.b, H0.c, H0.d, H0.e, H0.f, H0.g, H0.h];
      var c := [0x1_6a09e667, 0x1_bb67ae85, 0x2_3c6ef372, 0x2_a54ff53a, 0x3_510e527f, 0x3_9b05688c, 0x4_1f83d9ab, 0x4_5be0cd19][i];
      SquareRoot(PRIMES[i], c) && h[i] as nat == c % 0x1_0000_0000
  {
  }

  // ---- A known answer: the message "abc" ----

  // The words of its schedule, and the working variables after every eight rounds.

  function Words0(): Vars { Vars(0x61626380, 0x00000000, 0x00000000, 0x00000000, 0x00000000, 0x00000000, 0x00000000, 0x00000000) }
  function Words8(): Vars { Vars(0x00000000, 0x00000000, 0x00000000, 0x00000000, 0x00000000, 0x00000000, 0x00000000, 0x00000018) }
  function Words16(): Vars { Vars(0x61626380, 0x000f0000, 0x7da86405, 0x600003c6, 0x3e9d7b78, 0x0183fc00, 0x12dcbfdb, 0xe2e2c38e) }
  function Words24(): Vars { Vars(0xc8215c1a, 0xb73679a2, 0xe5bc3909, 0x32663c5b, 0x9d209d67, 0xec8726cb, 0x702138a4, 0xd3b7973b) }
  function Words32(): Vars { Vars(0x93f5997f, 0x3b68ba73, 0xaff4ffc1, 0xf10a5c62, 0x0a8b3996, 0x72af830a, 0x9409e33e, 0x24641522) }
  function Words40(): Vars { Vars(0x9f47bf94, 0xf0a64f5a, 0x3e246a79, 0x27333ba3, 0x0c4763f2, 0x840abf27, 0x7a290d5d, 0x065c43da) }
  function Words48(): Vars { Vars(0xfb3e89cb, 0xcc7617db, 0xb9e66c34, 0xa9993667, 0x84badedd, 0xc21462bc, 0x1487472c, 0xb20f7a99) }
  function Words56(): Vars { Vars(0xef57b9cd, 0xebe6b238, 0x9fe3095e, 0x78bc8d4b, 0xa43fcf15, 0x668b2ff8, 0xeeaba2cc, 0x12b1edeb) }

  function State0(): Vars { Vars(0x6a09e667, 0xbb67ae85, 0x3c6ef372, 0xa54ff53a, 0x510e527f, 0x9b05688c, 0x1f83d9ab, 0x5be0cd19) }
  function State8(): Vars { Vars(0x85a07b5f, 0xe5030380, 0x2b4209f5, 0x04409a6a, 0x0c657a79, 0x9b27a401, 0x714260ad, 0x43ada245) }
  function State16(): Vars { Vars(0xb0fa238e, 0xc0645fde, 0xd932eb16, 0x87912990, 0x07590dcd, 0x0b92f20c, 0x745a48de, 0x1e578218) }
  function State24(): Vars { Vars(0xc5d53d8d, 0xa7a3623f, 0xc2606d6d, 0x9dc68b63, 0xaa47c347, 0x49f5114a, 0xe1257970, 0x8ada8930) }
  function State32(): Vars { Vars(0x73b33bf5, 0xea992a22, 0xa0060b30, 0x363482c9, 0xba591112, 0x0109ab3a, 0xade79437, 0x6112a3b7) }
  function State40(): Vars { Vars(0x79ea687a, 0x6dc57a8a, 0x34df1604, 0x41a65cb1, 0x1efbc0a0, 0xf0781bc8, 0xa507a53d, 0x0772a26b) }
  function State48(): Vars { Vars(0x4172328d, 0xa14c14b0, 0x72ab4b91, 0x26628815, 0xfecf0bc6, 0xd57b94a9, 0xb7755da1, 0xa80f11f0) }
  function State56(): Vars { Vars(0x38cc9913, 0x3ec45cdb, 0xf5702fdb, 0x101fd28f, 0x54cb266b, 0xe50e1b4f, 0x9f4787c3, 0x529e7d00) }
  function State64(): Vars { Vars(0x506e3058, 0xd39a2165, 0x04d24d6c, 0xb85e2ce9, 0x5ef50f24, 0xfb121210, 0x948d25b6, 0x961f4894) }

  function WordsAt(j: nat): Vars {
    match j
    case 0 => Words0()
    case 1 => Words8()
    case 2 => Words16()
    case 3 => Words24()
    case 4 => Words32()
    case 5 => Words40()
    case 6 => Words48()
    case _ => Words56()
  }

  function StateAt(j: nat): Vars {
    match j
    case 0 => State0()
    case 1 => State8()
    case 2 => State16()
    case 3 => State24()
    case 4 => State32()
    case 5 => State40()
    case 6 => State48()
    case 7 => State56()
    case _ => State64()
  }

  /** Eight words of a schedule. */
  function Words(block: seq<byte>, t: nat): Vars
    requires |block| == 64 && t + 8 <= 64
  {
    Vars(W(block, t), W(block, t + 1), W(block, t + 2), W(block, t + 3),
         W(block, t + 4), W(block, t + 5), W(block, t + 6), W(block, t + 7))
  }

  function Next(w2: bv32, w7: bv32, w15: bv32, w16: bv32): bv32 {
    Add4(SmallSigma1(w2), w7, SmallSigma0(w15), w16)
  }

  /** The eight words behind sixteen. */
  function NextEight(x: Vars, y: Vars): Vars {
    var a := Next(y.g, y.b, x.b, x.a);
    var b := Next(y.h, y.c, x.c, x.b);
    var c := Next(a, y.d, x.d, x.c);
    var d := Next(b, y.e, x.e, x.d);
    var e := Next(c, y.f, x.f, x.e);
    var f := Next(d, y.g, x.g, x.f);
    Vars(a, b, c, d, e, f, Next(e, y.h, x.h, x.g), Next(f, a, y.a, x.h))
  }

  lemma NextWord(block: seq<byte>, t: nat)
    requires |block| == 64 && 16 <= t < 64
    ensures W(block, t) == Next(W(block, t - 2), W(block, t - 7), W(block, t - 15), W(block, t - 16))
  {
    hide Add4, SmallSigma0, SmallSigma1;
  }

  lemma NextWords(block: seq<byte>, t: nat)
    requires |block| == 64 && 16 <= t && t + 8 <= 64
    ensures Words(block, t) == NextEight(Words(block, t - 16), Words(block, t - 8))
  {
    hide W, Next;
    NextWord(block, t);
    NextWord(block, t + 1);
    NextWord(block, t + 2);
    NextWord(block, t + 3);
    NextWord(block, t + 4);
    NextWord(block, t + 5);
    NextWord(block, t + 6);
    NextWord(block, t + 7);
  }

  lemma WordsFrom16()
    ensures NextEight(Words0(), Words8()) == Words16()
  {
    assert Next(0x00000000, 0x00000000, 0x00000000, 0x61626380) == 0x61626380;
    assert Next(0x00000018, 0x00000000, 0x00000000, 0x00000000) == 0x000f0000;
    assert Next(0x61626380, 0x00000000, 0x00000000, 0x00000000) == 0x7da86405;
    assert Next(0x000f0000, 0x00000000, 0x00000000, 0x00000000) == 0x600003c6;
    assert Next(0x7da86405, 0x00000000, 0x00000000, 0x00000000) == 0x3e9d7b78;
    assert Next(0x600003c6, 0x00000000, 0x00000000, 0x00000000) == 0x0183fc00;
    assert Next(0x3e9d7b78, 0x00000018, 0x00000000, 0x00000000) == 0x12dcbfdb;
    assert Next(0x0183fc00, 0x61626380, 0x00000000, 0x00000000) == 0xe2e2c38e;
    hide Next;
  }

  lemma WordsFrom24()
    ensures NextEight(Words8(), Words16()) == Words24()
  {
    assert Next(0x12dcbfdb, 0x000f0000, 0x00000000, 0x00000000) == 0xc8215c1a;
    assert Next(0xe2e2c38e, 0x7da86405, 0x00000000, 0x00000000) == 0xb73679a2;
    assert Next(0xc8215c1a, 0x600003c6, 0x00000000, 0x00000000) == 0xe5bc3909;
    assert Next(0xb73679a2, 0x3e9d7b78, 0x00000000, 0x00000000) == 0x32663c5b;
    assert Next(0xe5bc3909, 0x0183fc00, 0x00000000, 0x00000000) == 0x9d209d67;
    assert Next(0x32663c5b, 0x12dcbfdb, 0x00000000, 0x00000000) == 0xec8726cb;
    assert Next(0x9d209d67, 0xe2e2c38e, 0x00000018, 0x00000000) == 0x702138a4;
    assert Next(0xec8726cb, 0xc8215c1a, 0x61626380, 0x00000018) == 0xd3b7973b;
    hide Next;
  }

  lemma WordsFrom32()
    ensures NextEight(Words16(), Words24()) == Words32()
  {
    assert Next(0x702138a4, 0xb73679a2, 0x000f0000, 0x61626380) == 0x93f5997f;
    assert Next(0xd3b7973b, 0xe5bc3909, 0x7da86405, 0x000f0000) == 0x3b68ba73;
    assert Next(0x93f5997f, 0x32663c5b, 0x600003c6, 0x7da86405) == 0xaff4ffc1;
    assert Next(0x3b68ba73, 0x9d209d67, 0x3e9d7b78, 0x600003c6) == 0xf10a5c62;
    assert Next(0xaff4ffc1, 0xec8726cb, 0x0183fc00, 0x3e9d7b78) == 0x0a8b3996;
    assert Next(0xf10a5c62, 0x702138a4, 0x12dcbfdb, 0x0183fc00) == 0x72af830a;
    assert Next(0x0a8b3996, 0xd3b7973b, 0xe2e2c38e, 0x12dcbfdb) == 0x9409e33e;
    assert Next(0x72af830a, 0x93f5997f, 0xc8215c1a, 0xe2e2c38e) == 0x24641522;
    hide Next;
  }

  lemma WordsFrom40()
    ensures NextEight(Words24(), Words32()) == Words40()
  {
    assert Next(0x9409e33e, 0x3b68ba73, 0xb73679a2, 0xc8215c1a) == 0x9f47bf94;
    assert Next(0x24641522, 0xaff4ffc1, 0xe5bc3909, 0xb73679a2) == 0xf0a64f5a;
    assert Next(0x9f47bf94, 0xf10a5c62, 0x32663c5b, 0xe5bc3909) == 0x3e246a79;
    assert Next(0xf0a64f5a, 0x0a8b3996, 0x9d209d67, 0x32663c5b) == 0x27333ba3;
    assert Next(0x3e246a79, 0x72af830a, 0xec8726cb, 0x9d209d67) == 0x0c4763f2;
    assert Next(0x27333ba3, 0x9409e33e, 0x702138a4, 0xec8726cb) == 0x840abf27;
    assert Next(0x0c4763f2, 0x24641522, 0xd3b7973b, 0x702138a4) == 0x7a290d5d;
    assert Next(0x840abf27, 0x9f47bf94, 0x93f5997f, 0xd3b7973b) == 0x065c43da;
    hide Next;
  }

  lemma WordsFrom48()
    ensures NextEight(Words32(), Words40()) == Words48()
  {
    assert Next(0x7a290d5d, 0xf0a64f5a, 0x3b68ba73, 0x93f5997f) == 0xfb3e89cb;
    assert Next(0x065c43da, 0x3e246a79, 0xaff4ffc1, 0x3b68ba73) == 0xcc7617db;
    assert Next(0xfb3e89cb, 0x27333ba3, 0xf10a5c62, 0xaff4ffc1) == 0xb9e66c34;
    assert Next(0xcc7617db, 0x0c4763f2, 0x0a8b3996, 0xf10a5c62) == 0xa9993667;
    assert Next(0xb9e66c34, 0x840abf27, 0x72af830a, 0x0a8b3996) == 0x84badedd;
    assert Next(0xa9993667, 0x7a290d5d, 0x9409e33e, 0x72af830a) == 0xc21462bc;
    assert Next(0x84badedd, 0x065c43da, 0x24641522, 0x9409e33e) == 0x1487472c;
    assert Next(0xc21462bc, 0xfb3e89cb, 0x9f47bf94, 0x24641522) == 0xb20f7a99;
    hide Next;
  }

  lemma WordsFrom56()
    ensures NextEight(Words40(), Words48()) == Words56()
  {
    assert Next(0x1487472c, 0xcc7617db, 0xf0a64f5a, 0x9f47bf94) == 0xef57b9cd;
    assert Next(0xb20f7a99, 0xb9e66c34, 0x3e246a79, 0xf0a64f5a) == 0xebe6b238;
    assert Next(0xef57b9cd, 0xa9993667, 0x27333ba3, 0x3e246a79) == 0x9fe3095e;
    assert Next(0xebe6b238, 0x84badedd, 0x0c4763f2, 0x27333ba3) == 0x78bc8d4b;
    assert Next(0x9fe3095e, 0xc21462bc, 0x840abf27, 0x0c4763f2) == 0xa43fcf15;
    assert Next(0x78bc8d4b, 0x1487472c, 0x7a290d5d, 0x840abf27) == 0x668b2ff8;
    assert Next(0xa43fcf15, 0xb20f7a99, 0x065c43da, 0x7a290d5d) == 0xeeaba2cc;
    assert Next(0x668b2ff8, 0xef57b9cd, 0xfb3e89cb, 0x065c43da) == 0x12b1edeb;
    hide Next;
  }

  /** Eight rounds from `t` on. */
  function Eight(v: Vars, t: nat, w: Vars): Vars
    requires t + 8 <= 64
  {
    var v4 := Round(Round(Round(Round(v, K[t], w.a), K[t + 1], w.b), K[t + 2], w.c), K[t + 3], w.d);
    Round(Round(Round(Round(v4, K[t + 4], w.e), K[t + 5], w.f), K[t + 6], w.g), K[t + 7], w.h)
  }

  lemma OneRound(block: seq<byte>, v: Vars, t: nat)
    requires |block| == 64 && t < 64
    ensures Rounds(block, v, t + 1) == Round(Rounds(block, v, t), K[t], W(block, t))
  {
    hide Round, W;
  }

  lemma RoundsByEight(block: seq<byte>, v: Vars, t: nat)
    requires |block| == 64 && t + 8 <= 64
    ensures Rounds(block, v, t + 8) == Eight(Rounds(block, v, t), t, Words(block, t))
  {
    hide Rounds, Round, W, K;
    OneRound(block, v, t);
    OneRound(block, v, t + 1);
    OneRound(block, v, t + 2);
    OneRound(block, v, t + 3);
    OneRound(block, v, t + 4);
    OneRound(block, v, t + 5);
    OneRound(block, v, t + 6);
    OneRound(block, v, t + 7);
  }

  lemma KeysFrom0()
    ensures K[0] == 0x428a2f98 && K[1] == 0x71374491 && K[2] == 0xb5c0fbcf && K[3] == 0xe9b5dba5
    ensures K[4] == 0x3956c25b && K[5] == 0x59f111f1 && K[6] == 0x923f82a4 && K[7] == 0xab1c5ed5
  {
  }

  lemma RoundsFrom0()
    ensures Eight(State0(), 0, Words0()) == State8()
  {
    hide K;
    var s0 := Vars(0x6a09e667, 0xbb67ae85, 0x3c6ef372, 0xa54ff53a, 0x510e527f, 0x9b05688c, 0x1f83d9ab, 0x5be0cd19);
    var s1 := Vars(0x5d6aebcd, 0x6a09e667, 0xbb67ae85, 0x3c6ef372, 0xfa2a4622, 0x510e527f, 0x9b05688c, 0x1f83d9ab);
    assert Round(s0, 0x428a2f98, 0x61626380) == s1;
    var s2 := Vars(0x5a6ad9ad, 0x5d6aebcd, 0x6a09e667, 0xbb67ae85, 0x78ce7989, 0xfa2a4622, 0x510e527f, 0x9b05688c);
    assert Round(s1, 0x71374491, 0x00000000) == s2;
    var s3 := Vars(0xc8c347a7, 0x5a6ad9ad, 0x5d6aebcd, 0x6a09e667, 0xf92939eb, 0x78ce7989, 0xfa2a4622, 0x510e527f);
    assert Round(s2, 0xb5c0fbcf, 0x00000000) == s3;
    var s4 := Vars(0xd550f666, 0xc8c347a7, 0x5a6ad9ad, 0x5d6aebcd, 0x24e00850, 0xf92939eb, 0x78ce7989, 0xfa2a4622);
    assert Round(s3, 0xe9b5dba5, 0x00000000) == s4;
    var s5 := Vars(0x04409a6a, 0xd550f666, 0xc8c347a7, 0x5a6ad9ad, 0x43ada245, 0x24e00850, 0xf92939eb, 0x78ce7989);
    assert Round(s4, 0x3956c25b, 0x00000000) == s5;
    var s6 := Vars(0x2b4209f5, 0x04409a6a, 0xd550f666, 0xc8c347a7, 0x714260ad, 0x43ada245, 0x24e00850, 0xf92939eb);
    assert Round(s5, 0x59f111f1, 0x00000000) == s6;
    var s7 := Vars(0xe5030380, 0x2b4209f5, 0x04409a6a, 0xd550f666, 0x9b27a401, 0x714260ad, 0x43ada245, 0x24e00850);
    assert Round(s6, 0x923f82a4, 0x00000000) == s7;
    var s8 := Vars(0x85a07b5f, 0xe5030380, 0x2b4209f5, 0x04409a6a, 0x0c657a79, 0x9b27a401, 0x714260ad, 0x43ada245);
    assert Round(s7, 0xab1c5ed5, 0x00000000) == s8;
    KeysFrom0();
    hide Round;
  }

  lemma KeysFrom8()
    ensures K[8] == 0xd807aa98 && K[9] == 0x12835b01 && K[10] == 0x243185be && K[11] == 0x550c7dc3
    ensures K[12] == 0x72be5d74 && K[13] == 0x80deb1fe && K[14] == 0x9bdc06a7 && K[15] == 0xc19bf174
  {
  }

  lemma RoundsFrom8()
    ensures Eight(State8(), 8, Words8()) == State16()
  {
    hide K;
    var s0 := Vars(0x85a07b5f, 0xe5030380, 0x2b4209f5, 0x04409a6a, 0x0c657a79, 0x9b27a401, 0x714260ad, 0x43ada245);
    var s1 := Vars(0x8e04ecb9, 0x85a07b5f, 0xe5030380, 0x2b4209f5, 0x32ca2d8c, 0x0c657a79, 0x9b27a401, 0x714260ad);
    assert Round(s0, 0xd807aa98, 0x00000000) == s1;
    var s2 := Vars(0x8c87346b, 0x8e04ecb9, 0x85a07b5f, 0xe5030380, 0x1cc92596, 0x32ca2d8c, 0x0c657a79, 0x9b27a401);
    assert Round(s1, 0x12835b01, 0x00000000) == s2;
    var s3 := Vars(0x4798a3f4, 0x8c87346b, 0x8e04ecb9, 0x85a07b5f, 0x436b23e8, 0x1cc92596, 0x32ca2d8c, 0x0c657a79);
    assert Round(s2, 0x243185be, 0x00000000) == s3;
    var s4 := Vars(0xf71fc5a9, 0x4798a3f4, 0x8c87346b, 0x8e04ecb9, 0x816fd6e9, 0x436b23e8, 0x1cc92596, 0x32ca2d8c);
    assert Round(s3, 0x550c7dc3, 0x00000000) == s4;
    var s5 := Vars(0x87912990, 0xf71fc5a9, 0x4798a3f4, 0x8c87346b, 0x1e578218, 0x816fd6e9, 0x436b23e8, 0x1cc92596);
    assert Round(s4, 0x72be5d74, 0x00000000) == s5;
    var s6 := Vars(0xd932eb16, 0x87912990, 0xf71fc5a9, 0x4798a3f4, 0x745a48de, 0x1e578218, 0x816fd6e9, 0x436b23e8);
    assert Round(s5, 0x80deb1fe, 0x00000000) == s6;
    var s7 := Vars(0xc0645fde, 0xd932eb16, 0x87912990, 0xf71fc5a9, 0x0b92f20c, 0x745a48de, 0x1e578218, 0x816fd6e9);
    assert Round(s6, 0x9bdc06a7, 0x00000000) == s7;
    var s8 := Vars(0xb0fa238e, 0xc0645fde, 0xd932eb16, 0x87912990, 0x07590dcd, 0x0b92f20c, 0x745a48de, 0x1e578218);
    assert Round(s7, 0xc19bf174, 0x00000018) == s8;
    KeysFrom8();
    hide Round;
  }

  lemma KeysFrom16()
    ensures K[16] == 0xe49b69c1 && K[17] == 0xefbe4786 && K[18] == 0x0fc19dc6 && K[19] == 0x240ca1cc
    ensures K[20] == 0x2de92c6f && K[21] == 0x4a7484aa && K[22] == 0x5cb0a9dc && K[23] == 0x76f988da
  {
  }

  lemma RoundsFrom16()
    ensures Eight(State16(), 16, Words16()) == State24()
  {
    hide K;
    var s0 := Vars(0xb0fa238e, 0xc0645fde, 0xd932eb16, 0x87912990, 0x07590dcd, 0x0b92f20c, 0x745a48de, 0x1e578218);
    var s1 := Vars(0x21da9a9b, 0xb0fa238e, 0xc0645fde, 0xd932eb16, 0x8034229c, 0x07590dcd, 0x0b92f20c, 0x745a48de);
    assert Round(s0, 0xe49b69c1, 0x61626380) == s1;
    var s2 := Vars(0xc2fbd9d1, 0x21da9a9b, 0xb0fa238e, 0xc0645fde, 0x846ee454, 0x8034229c, 0x07590dcd, 0x0b92f20c);
    assert Round(s1, 0xefbe4786, 0x000f0000) == s2;
    var s3 := Vars(0xfe777bbf, 0xc2fbd9d1, 0x21da9a9b, 0xb0fa238e, 0xcc899961, 0x846ee454, 0x8034229c, 0x07590dcd);
    assert Round(s2, 0x0fc19dc6, 0x7da86405) == s3;
    var s4 := Vars(0xe1f20c33, 0xfe777bbf, 0xc2fbd9d1, 0x21da9a9b, 0xb0638179, 0xcc899961, 0x846ee454, 0x8034229c);
    assert Round(s3, 0x240ca1cc, 0x600003c6) == s4;
    var s5 := Vars(0x9dc68b63, 0xe1f20c33, 0xfe777bbf, 0xc2fbd9d1, 0x8ada8930, 0xb0638179, 0xcc899961, 0x846ee454);
    assert Round(s4, 0x2de92c6f, 0x3e9d7b78) == s5;
    var s6 := Vars(0xc2606d6d, 0x9dc68b63, 0xe1f20c33, 0xfe777bbf, 0xe1257970, 0x8ada8930, 0xb0638179, 0xcc899961);
    assert Round(s5, 0x4a7484aa, 0x0183fc00) == s6;
    var s7 := Vars(0xa7a3623f, 0xc2606d6d, 0x9dc68b63, 0xe1f20c33, 0x49f5114a, 0xe1257970, 0x8ada8930, 0xb0638179);
    assert Round(s6, 0x5cb0a9dc, 0x12dcbfdb) == s7;
    var s8 := Vars(0xc5d53d8d, 0xa7a3623f, 0xc2606d6d, 0x9dc68b63, 0xaa47c347, 0x49f5114a, 0xe1257970, 0x8ada8930);
    assert Round(s7, 0x76f988da, 0xe2e2c38e) == s8;
    KeysFrom16();
    hide Round;
  }

  lemma KeysFrom24()
    ensures K[24] == 0x983e5152 && K[25] == 0xa831c66d && K[26] == 0xb00327c8 && K[27] == 0xbf597fc7
    ensures K[28] == 0xc6e00bf3 && K[29] == 0xd5a79147 && K[30] == 0x06ca6351 && K[31] == 0x14292967
  {
  }

  lemma RoundsFrom24()
    ensures Eight(State24(), 24, Words24()) == State32()
  {
    hide K;
    var s0 := Vars(0xc5d53d8d, 0xa7a3623f, 0xc2606d6d, 0x9dc68b63, 0xaa47c347, 0x49f5114a, 0xe1257970, 0x8ada8930);
    var s1 := Vars(0x1c2c2838, 0xc5d53d8d, 0xa7a3623f, 0xc2606d6d, 0x2823ef91, 0xaa47c347, 0x49f5114a, 0xe1257970);
    assert Round(s0, 0x983e5152, 0xc8215c1a) == s1;
    var s2 := Vars(0xcde8037d, 0x1c2c2838, 0xc5d53d8d, 0xa7a3623f, 0x14383d8e, 0x2823ef91, 0xaa47c347, 0x49f5114a);
    assert Round(s1, 0xa831c66d, 0xb73679a2) == s2;
    var s3 := Vars(0xb62ec4bc, 0xcde8037d, 0x1c2c2838, 0xc5d53d8d, 0xc74c6516, 0x14383d8e, 0x2823ef91, 0xaa47c347);
    assert Round(s2, 0xb00327c8, 0xe5bc3909) == s3;
    var s4 := Vars(0x77d37528, 0xb62ec4bc, 0xcde8037d, 0x1c2c2838, 0xedffbff8, 0xc74c6516, 0x14383d8e, 0x2823ef91);
    assert Round(s3, 0xbf597fc7, 0x32663c5b) == s4;
    var s5 := Vars(0x363482c9, 0x77d37528, 0xb62ec4bc, 0xcde8037d, 0x6112a3b7, 0xedffbff8, 0xc74c6516, 0x14383d8e);
    assert Round(s4, 0xc6e00bf3, 0x9d209d67) == s5;
    var s6 := Vars(0xa0060b30, 0x363482c9, 0x77d37528, 0xb62ec4bc, 0xade79437, 0x6112a3b7, 0xedffbff8, 0xc74c6516);
    assert Round(s5, 0xd5a79147, 0xec8726cb) == s6;
    var s7 := Vars(0xea992a22, 0xa0060b30, 0x363482c9, 0x77d37528, 0x0109ab3a, 0xade79437, 0x6112a3b7, 0xedffbff8);
    assert Round(s6, 0x06ca6351, 0x702138a4) == s7;
    var s8 := Vars(0x73b33bf5, 0xea992a22, 0xa0060b30, 0x363482c9, 0xba591112, 0x0109ab3a, 0xade79437, 0x6112a3b7);
    assert Round(s7, 0x14292967, 0xd3b7973b) == s8;
    KeysFrom24();
    hide Round;
  }

  lemma KeysFrom32()
    ensures K[32] == 0x27b70a85 && K[33] == 0x2e1b2138 && K[34] == 0x4d2c6dfc && K[35] == 0x53380d13
    ensures K[36] == 0x650a7354 && K[37] == 0x766a0abb && K[38] == 0x81c2c92e && K[39] == 0x92722c85
  {
  }

  lemma RoundsFrom32()
    ensures Eight(State32(), 32, Words32()) == State40()
  {
    hide K;
    var s0 := Vars(0x73b33bf5, 0xea992a22, 0xa0060b30, 0x363482c9, 0xba591112, 0x0109ab3a, 0xade79437, 0x6112a3b7);
    var s1 := Vars(0x98e12507, 0x73b33bf5, 0xea992a22, 0xa0060b30, 0x9cd9f5f6, 0xba591112, 0x0109ab3a, 0xade79437);
    assert Round(s0, 0x27b70a85, 0x93f5997f) == s1;
    var s2 := Vars(0xfe604df5, 0x98e12507, 0x73b33bf5, 0xea992a22, 0x59249dd3, 0x9cd9f5f6, 0xba591112, 0x0109ab3a);
    assert Round(s1, 0x2e1b2138, 0x3b68ba73) == s2;
    var s3 := Vars(0xa9a7738c, 0xfe604df5, 0x98e12507, 0x73b33bf5, 0x085f3833, 0x59249dd3, 0x9cd9f5f6, 0xba591112);
    assert Round(s2, 0x4d2c6dfc, 0xaff4ffc1) == s3;
    var s4 := Vars(0x65a0cfe4, 0xa9a7738c, 0xfe604df5, 0x98e12507, 0xf4b002d6, 0x085f3833, 0x59249dd3, 0x9cd9f5f6);
    assert Round(s3, 0x53380d13, 0xf10a5c62) == s4;
    var s5 := Vars(0x41a65cb1, 0x65a0cfe4, 0xa9a7738c, 0xfe604df5, 0x0772a26b, 0xf4b002d6, 0x085f3833, 0x59249dd3);
    assert Round(s4, 0x650a7354, 0x0a8b3996) == s5;
    var s6 := Vars(0x34df1604, 0x41a65cb1, 0x65a0cfe4, 0xa9a7738c, 0xa507a53d, 0x0772a26b, 0xf4b002d6, 0x085f3833);
    assert Round(s5, 0x766a0abb, 0x72af830a) == s6;
    var s7 := Vars(0x6dc57a8a, 0x34df1604, 0x41a65cb1, 0x65a0cfe4, 0xf0781bc8, 0xa507a53d, 0x0772a26b, 0xf4b002d6);
    assert Round(s6, 0x81c2c92e, 0x9409e33e) == s7;
    var s8 := Vars(0x79ea687a, 0x6dc57a8a, 0x34df1604, 0x41a65cb1, 0x1efbc0a0, 0xf0781bc8, 0xa507a53d, 0x0772a26b);
    assert Round(s7, 0x92722c85, 0x24641522) == s8;
    KeysFrom32();
    hide Round;
  }

  lemma KeysFrom40()
    ensures K[40] == 0xa2bfe8a1 && K[41] == 0xa81a664b && K[42] == 0xc24b8b70 && K[43] == 0xc76c51a3
    ensures K[44] == 0xd192e819 && K[45] == 0xd6990624 && K[46] == 0xf40e3585 && K[47] == 0x106aa070
  {
  }

  lemma RoundsFrom40()
    ensures Eight(State40(), 40, Words40()) == State48()
  {
    hide K;
    var s0 := Vars(0x79ea687a, 0x6dc57a8a, 0x34df1604, 0x41a65cb1, 0x1efbc0a0, 0xf0781bc8, 0xa507a53d, 0x0772a26b);
    var s1 := Vars(0xd6670766, 0x79ea687a, 0x6dc57a8a, 0x34df1604, 0x26352d63, 0x1efbc0a0, 0xf0781bc8, 0xa507a53d);
    assert Round(s0, 0xa2bfe8a1, 0x9f47bf94) == s1;
    var s2 := Vars(0xdf46652f, 0xd6670766, 0x79ea687a, 0x6dc57a8a, 0x838b2711, 0x26352d63, 0x1efbc0a0, 0xf0781bc8);
    assert Round(s1, 0xa81a664b, 0xf0a64f5a) == s2;
    var s3 := Vars(0x17aa0dfe, 0xdf46652f, 0xd6670766, 0x79ea687a, 0xdecd4715, 0x838b2711, 0x26352d63, 0x1efbc0a0);
    assert Round(s2, 0xc24b8b70, 0x3e246a79) == s3;
    var s4 := Vars(0x9d4baf93, 0x17aa0dfe, 0xdf46652f, 0xd6670766, 0xfda24c2e, 0xdecd4715, 0x838b2711, 0x26352d63);
    assert Round(s3, 0xc76c51a3, 0x27333ba3) == s4;
    var s5 := Vars(0x26628815, 0x9d4baf93, 0x17aa0dfe, 0xdf46652f, 0xa80f11f0, 0xfda24c2e, 0xdecd4715, 0x838b2711);
    assert Round(s4, 0xd192e819, 0x0c4763f2) == s5;
    var s6 := Vars(0x72ab4b91, 0x26628815, 0x9d4baf93, 0x17aa0dfe, 0xb7755da1, 0xa80f11f0, 0xfda24c2e, 0xdecd4715);
    assert Round(s5, 0xd6990624, 0x840abf27) == s6;
    var s7 := Vars(0xa14c14b0, 0x72ab4b91, 0x26628815, 0x9d4baf93, 0xd57b94a9, 0xb7755da1, 0xa80f11f0, 0xfda24c2e);
    assert Round(s6, 0xf40e3585, 0x7a290d5d) == s7;
    var s8 := Vars(0x4172328d, 0xa14c14b0, 0x72ab4b91, 0x26628815, 0xfecf0bc6, 0xd57b94a9, 0xb7755da1, 0xa80f11f0);
    assert Round(s7, 0x106aa070, 0x065c43da) == s8;
    KeysFrom40();
    hide Round;
  }

  lemma KeysFrom48()
    ensures K[48] == 0x19a4c116 && K[49] == 0x1e376c08 && K[50] == 0x2748774c && K[51] == 0x34b0bcb5
    ensures K[52] == 0x391c0cb3 && K[53] == 0x4ed8aa4a && K[54] == 0x5b9cca4f && K[55] == 0x682e6ff3
  {
  }

  lemma RoundsFrom48()
    ensures Eight(State48(), 48, Words48()) == State56()
  {
    hide K;
    var s0 := Vars(0x4172328d, 0xa14c14b0, 0x72ab4b91, 0x26628815, 0xfecf0bc6, 0xd57b94a9, 0xb7755da1, 0xa80f11f0);
    var s1 := Vars(0x05757ceb, 0x4172328d, 0xa14c14b0, 0x72ab4b91, 0xbd714038, 0xfecf0bc6, 0xd57b94a9, 0xb7755da1);
    assert Round(s0, 0x19a4c116, 0xfb3e89cb) == s1;
    var s2 := Vars(0xf11bfaa8, 0x05757ceb, 0x4172328d, 0xa14c14b0, 0x6e5c390c, 0xbd714038, 0xfecf0bc6, 0xd57b94a9);
    assert Round(s1, 0x1e376c08, 0xcc7617db) == s2;
    var s3 := Vars(0x7a0508a1, 0xf11bfaa8, 0x05757ceb, 0x4172328d, 0x52f1ccf7, 0x6e5c390c, 0xbd714038, 0xfecf0bc6);
    assert Round(s2, 0x2748774c, 0xb9e66c34) == s3;
    var s4 := Vars(0x886e7a22, 0x7a0508a1, 0xf11bfaa8, 0x05757ceb, 0x49231c1e, 0x52f1ccf7, 0x6e5c390c, 0xbd714038);
    assert Round(s3, 0x34b0bcb5, 0xa9993667) == s4;
    var s5 := Vars(0x101fd28f, 0x886e7a22, 0x7a0508a1, 0xf11bfaa8, 0x529e7d00, 0x49231c1e, 0x52f1ccf7, 0x6e5c390c);
    assert Round(s4, 0x391c0cb3, 0x84badedd) == s5;
    var s6 := Vars(0xf5702fdb, 0x101fd28f, 0x886e7a22, 0x7a0508a1, 0x9f4787c3, 0x529e7d00, 0x49231c1e, 0x52f1ccf7);
    assert Round(s5, 0x4ed8aa4a, 0xc21462bc) == s6;
    var s7 := Vars(0x3ec45cdb, 0xf5702fdb, 0x101fd28f, 0x886e7a22, 0xe50e1b4f, 0x9f4787c3, 0x529e7d00, 0x49231c1e);
    assert Round(s6, 0x5b9cca4f, 0x1487472c) == s7;
    var s8 := Vars(0x38cc9913, 0x3ec45cdb, 0xf5702fdb, 0x101fd28f, 0x54cb266b, 0xe50e1b4f, 0x9f4787c3, 0x529e7d00);
    assert Round(s7, 0x682e6ff3, 0xb20f7a99) == s8;
    KeysFrom48();
    hide Round;
  }

  lemma KeysFrom56()
    ensures K[56] == 0x748f82ee && K[57] == 0x78a5636f && K[58] == 0x84c87814 && K[59] == 0x8cc70208
    ensures K[60] == 0x90befffa && K[61] == 0xa4506ceb && K[62] == 0xbef9a3f7 && K[63] == 0xc67178f2
  {
  }

  lemma RoundsFrom56()
    ensures Eight(State56(), 56, Words56()) == State64()
  {
    hide K;
    var s0 := Vars(0x38cc9913, 0x3ec45cdb, 0xf5702fdb, 0x101fd28f, 0x54cb266b, 0xe50e1b4f, 0x9f4787c3, 0x529e7d00);
    var s1 := Vars(0xfcd1887b, 0x38cc9913, 0x3ec45cdb, 0xf5702fdb, 0x9b5e906c, 0x54cb266b, 0xe50e1b4f, 0x9f4787c3);
    assert Round(s0, 0x748f82ee, 0xef57b9cd) == s1;
    var s2 := Vars(0xc062d46f, 0xfcd1887b, 0x38cc9913, 0x3ec45cdb, 0x7e44008e, 0x9b5e906c, 0x54cb266b, 0xe50e1b4f);
    assert Round(s1, 0x78a5636f, 0xebe6b238) == s2;
    var s3 := Vars(0xffb70472, 0xc062d46f, 0xfcd1887b, 0x38cc9913, 0x6d83bfc6, 0x7e44008e, 0x9b5e906c, 0x54cb266b);
    assert Round(s2, 0x84c87814, 0x9fe3095e) == s3;
    var s4 := Vars(0xb6ae8fff, 0xffb70472, 0xc062d46f, 0xfcd1887b, 0xb21bad3d, 0x6d83bfc6, 0x7e44008e, 0x9b5e906c);
    assert Round(s3, 0x8cc70208, 0x78bc8d4b) == s4;
    var s5 := Vars(0xb85e2ce9, 0xb6ae8fff, 0xffb70472, 0xc062d46f, 0x961f4894, 0xb21bad3d, 0x6d83bfc6, 0x7e44008e);
    assert Round(s4, 0x90befffa, 0xa43fcf15) == s5;
    var s6 := Vars(0x04d24d6c, 0xb85e2ce9, 0xb6ae8fff, 0xffb70472, 0x948d25b6, 0x961f4894, 0xb21bad3d, 0x6d83bfc6);
    assert Round(s5, 0xa4506ceb, 0x668b2ff8) == s6;
    var s7 := Vars(0xd39a2165, 0x04d24d6c, 0xb85e2ce9, 0xb6ae8fff, 0xfb121210, 0x948d25b6, 0x961f4894, 0xb21bad3d);
    assert Round(s6, 0xbef9a3f7, 0xeeaba2cc) == s7;
    var s8 := Vars(0x506e3058, 0xd39a2165, 0x04d24d6c, 0xb85e2ce9, 0x5ef50f24, 0xfb121210, 0x948d25b6, 0x961f4894);
    assert Round(s7, 0xc67178f2, 0x12b1edeb) == s8;
    KeysFrom56();
    hide Round;
  }

  const ABC: seq<byte> := [0x61, 0x62, 0x63]

  /** The one block of the padded message. */
  predicate IsAbcBlock(block: seq<byte>) {
    && |block| == 64 && block[0] == 0x61 && block[1] == 0x62 && block[2] == 0x63 && block[3] == 0x80
    && (forall i | 4 <= i < 63 :: block[i] == 0) && block[63] == 24
  }

  lemma AbcIsPadded()
    ensures IsAbcBlock(Pad(ABC))
  {
    assert ABC + [0x80] == [0x61, 0x62, 0x63, 0x80];
  }

  lemma WordsOfBytes()
    ensures WordOf(0x61, 0x62, 0x63, 0x80) == 0x61626380 && WordOf(0, 0, 0, 0) == 0 && WordOf(0, 0, 0, 24) == 24
  {
  }

  lemma FirstWords(block: seq<byte>)
    requires IsAbcBlock(block)
    ensures |block| == 64 && Words(block, 0) == Words0() && Words(block, 8) == Words8()
  {
    hide WordOf;
    WordsOfBytes();
  }

  lemma MoreWords(j: nat)
    requires 2 <= j < 8
    ensures NextEight(WordsAt(j - 2), WordsAt(j - 1)) == WordsAt(j)
  {
    hide NextEight, Words0, Words8, Words16, Words24, Words32, Words40, Words48, Words56;
    match j
    case 2 => WordsFrom16();
    case 3 => WordsFrom24();
    case 4 => WordsFrom32();
    case 5 => WordsFrom40();
    case 6 => WordsFrom48();
    case _ => WordsFrom56();
  }

  lemma MoreRounds(j: nat)
    requires j < 8
    ensures Eight(StateAt(j), 8 * j, WordsAt(j)) == StateAt(j + 1)
  {
    hide Eight, Words0, Words8, Words16, Words24, Words32, Words40, Words48, Words56;
    hide State0, State8, State16, State24, State32, State40, State48, State56, State64;
    match j
    case 0 => RoundsFrom0();
    case 1 => RoundsFrom8();
    case 2 => RoundsFrom16();
    case 3 => RoundsFrom24();
    case 4 => RoundsFrom32();
    case 5 => RoundsFrom40();
    case 6 => RoundsFrom48();
    case _ => RoundsFrom56();
  }

  /** The schedule of the block, eight words at a time. */
  lemma {:induction false} AbcWords(block: seq<byte>, j: nat)
    requires IsAbcBlock(block) && j < 8
    ensures |block| == 64 && Words(block, 8 * j) == WordsAt(j)
  {
    hide IsAbcBlock, Words, NextEight, Words0, Words8, Words16, Words24, Words32, Words40, Words48, Words56;
    if j < 2 {
      FirstWords(block);
    } else {
      hide WordsAt;
      AbcWords(block, j - 2);
      AbcWords(block, j - 1);
      NextWords(block, 8 * j);
      MoreWords(j);
    }
  }

  lemma NoRounds(block: seq<byte>, h: Vars)
    requires |block| == 64
    ensures Rounds(block, h, 0) == h && StateAt(0) == State0()
  {
  }

  /** The working variables, eight rounds at a time. */
  lemma {:induction false} AbcRounds(block: seq<byte>, h: Vars, j: nat)
    requires IsAbcBlock(block) && h == State0() && j <= 8
    ensures |block| == 64 && Rounds(block, h, 8 * j) == StateAt(j)
  {
    hide WordsAt, StateAt, IsAbcBlock, Words, Eight, Rounds;
    hide State0, State8, State16, State24, State32, State40, State48, State56, State64;
    AbcWords(block, 0);
    if j == 0 {
      NoRounds(block, h);
    } else {
      AbcRounds(block, h, j - 1);
      AbcWords(block, j - 1);
      RoundsByEight(block, h, 8 * (j - 1));
      MoreRounds(j - 1);
    }
  }

  lemma AbcBytes()
    ensures DigestBytes(Vars(0xba7816bf, 0x8f01cfea, 0x414140de, 0x5dae2223, 0xb00361a3, 0x96177a9c, 0xb410ff61, 0xf20015ad)) ==
    [0xba, 0x78, 0x16, 0xbf, 0x8f, 0x01, 0xcf, 0xea, 0x41, 0x41, 0x40, 0xde, 0x5d, 0xae, 0x22, 0x23,
     0xb0, 0x03, 0x61, 0xa3, 0x96, 0x17, 0x7a, 0x9c, 0xb4, 0x10, 0xff, 0x61, 0xf2, 0x00, 0x15, 0xad]
  {
    assert WordBytes(0xba7816bf) == [0xba, 0x78, 0x16, 0xbf];
    assert WordBytes(0x8f01cfea) == [0x8f, 0x01, 0xcf, 0xea];
    assert WordBytes(0x414140de) == [0x41, 0x41, 0x40, 0xde];
    assert WordBytes(0x5dae2223) == [0x5d, 0xae, 0x22, 0x23];
    assert WordBytes(0xb00361a3) == [0xb0, 0x03, 0x61, 0xa3];
    assert WordBytes(0x96177a9c) == [0x96, 0x17, 0x7a, 0x9c];
    assert WordBytes(0xb410ff61) == [0xb4, 0x10, 0xff, 0x61];
    assert WordBytes(0xf20015ad) == [0xf2, 0x00, 0x15, 0xad];
    hide WordBytes;
  }

  /** The digest of "abc". */
  lemma DigestOfAbc()
    ensures Sha256Spec.Sha256(ABC) ==
    [0xba, 0x78, 0x16, 0xbf, 0x8f, 0x01, 0xcf, 0xea, 0x41, 0x41, 0x40, 0xde, 0x5d, 0xae, 0x22, 0x23,
     0xb0, 0x03, 0x61, 0xa3, 0x96, 0x17, 0x7a, 0x9c, 0xb4, 0x10, 0xff, 0x61, 0xf2, 0x00, 0x15, 0xad]
  {
    hide Pad, Rounds, DigestBytes, W, K, IsAbcBlock;
    var block := Pad(ABC);
    AbcIsPadded();
    AbcRounds(block, H0, 8);
    Sha256.OneBlock(H0, block);
    AbcBytes();
  }
}
