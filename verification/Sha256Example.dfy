/**
 What the constants of SHA-256 are, by section 4.2.2 and section 5.3.3 of FIPS 180-4, and the digest of the one-block
 message "abc" that the standard's examples give, computed round by round.
 */
module Sha256Example {
  import opened Bytes
  import opened Sha256

  // ---- The constants ----

  const PRIMES: seq<nat> := P0 + P1 + P2 + P3 + P4 + P5 + P6 + P7
  const P0: seq<nat> := [2, 3, 5, 7, 11, 13, 17, 19]
  const P1: seq<nat> := [23, 29, 31, 37, 41, 43, 47, 53]
  const P2: seq<nat> := [59, 61, 67, 71, 73, 79, 83, 89]
  const P3: seq<nat> := [97, 101, 103, 107, 109, 113, 127, 131]
  const P4: seq<nat> := [137, 139, 149, 151, 157, 163, 167, 173]
  const P5: seq<nat> := [179, 181, 191, 193, 197, 199, 211, 223]
  const P6: seq<nat> := [227, 229, 233, 239, 241, 251, 257, 263]
  const P7: seq<nat> := [269, 271, 277, 281, 283, 293, 307, 311]

  const FRACTION: nat := 0x1_0000_0000

  /** x holds the first 32 bits of the fraction of the cube root of p. */
  ghost predicate CubeRootBits(p: nat, x: nat) {
    x < FRACTION && exists m: nat :: CubeRootOf(p, m * FRACTION + x)
  }

  /** r is the cube root of p in units of 2^-32, rounded down. */
  predicate CubeRootOf(p: nat, r: nat) {
    r * r * r <= p * 0x1_0000_0000_0000_0000_0000_0000 < (r + 1) * (r + 1) * (r + 1)
  }

  ghost predicate SquareRootBits(p: nat, x: nat) {
    x < FRACTION && exists m: nat :: SquareRootOf(p, m * FRACTION + x)
  }

  predicate SquareRootOf(p: nat, r: nat) {
    r * r <= p * 0x1_0000_0000_0000_0000 < (r + 1) * (r + 1)
  }

  /** The bits are determined by the number: no other constant would do. */
  lemma CubeRootBitsUnique(p: nat, x: nat, y: nat)
    requires CubeRootBits(p, x) && CubeRootBits(p, y)
    ensures x == y
  {
    hide CubeRootOf;
    var m: nat :| CubeRootOf(p, m * FRACTION + x);
    var n: nat :| CubeRootOf(p, n * FRACTION + y);
    OneCubeRoot(p, m * FRACTION + x, n * FRACTION + y);
  }

  lemma OneCubeRoot(p: nat, r: nat, s: nat)
    requires CubeRootOf(p, r) && CubeRootOf(p, s)
    ensures r == s
  {
    if r < s {
      CubesGrow(r + 1, s);
    } else if s < r {
      CubesGrow(s + 1, r);
    }
  }

  lemma CubesGrow(a: nat, b: nat)
    requires a <= b
    ensures a * a * a <= b * b * b
  {
    assert a * a <= b * b by {
      Grow(a, a, b);
      Grow(b, a, b);
    }
    Grow(a, a * a, b * b);
    Grow(b * b, a, b);
  }

  lemma Grow(k: nat, x: nat, y: nat)
    requires x <= y
    ensures k * x <= k * y && x * k <= y * k
  {
  }

  lemma ThisCubeRoot(p: nat, m: nat, x: nat)
    requires x < FRACTION && CubeRootOf(p, m * FRACTION + x)
    ensures CubeRootBits(p, x)
  {
    hide CubeRootOf;
  }

  lemma ThisSquareRoot(p: nat, m: nat, x: nat)
    requires x < FRACTION && SquareRootOf(p, m * FRACTION + x)
    ensures SquareRootBits(p, x)
  {
    hide SquareRootOf;
  }

  lemma CubeRoots0()
    ensures forall i :: 0 <= i < 8 ==> CubeRootBits(P0[i], K0[i] as nat)
  {
    hide CubeRootBits;
    ThisCubeRoot(2, 1, 0x428a2f98);
    ThisCubeRoot(3, 1, 0x71374491);
    ThisCubeRoot(5, 1, 0xb5c0fbcf);
    ThisCubeRoot(7, 1, 0xe9b5dba5);
    ThisCubeRoot(11, 2, 0x3956c25b);
    ThisCubeRoot(13, 2, 0x59f111f1);
    ThisCubeRoot(17, 2, 0x923f82a4);
    ThisCubeRoot(19, 2, 0xab1c5ed5);
  }

  lemma CubeRoots1()
    ensures forall i :: 0 <= i < 8 ==> CubeRootBits(P1[i], K1[i] as nat)
  {
    hide CubeRootBits;
    ThisCubeRoot(23, 2, 0xd807aa98);
    ThisCubeRoot(29, 3, 0x12835b01);
    ThisCubeRoot(31, 3, 0x243185be);
    ThisCubeRoot(37, 3, 0x550c7dc3);
    ThisCubeRoot(41, 3, 0x72be5d74);
    ThisCubeRoot(43, 3, 0x80deb1fe);
    ThisCubeRoot(47, 3, 0x9bdc06a7);
    ThisCubeRoot(53, 3, 0xc19bf174);
  }

  lemma CubeRoots2()
    ensures forall i :: 0 <= i < 8 ==> CubeRootBits(P2[i], K2[i] as nat)
  {
    hide CubeRootBits;
    ThisCubeRoot(59, 3, 0xe49b69c1);
    ThisCubeRoot(61, 3, 0xefbe4786);
    ThisCubeRoot(67, 4, 0x0fc19dc6);
    ThisCubeRoot(71, 4, 0x240ca1cc);
    ThisCubeRoot(73, 4, 0x2de92c6f);
    ThisCubeRoot(79, 4, 0x4a7484aa);
    ThisCubeRoot(83, 4, 0x5cb0a9dc);
    ThisCubeRoot(89, 4, 0x76f988da);
  }

  lemma CubeRoots3()
    ensures forall i :: 0 <= i < 8 ==> CubeRootBits(P3[i], K3[i] as nat)
  {
    hide CubeRootBits;
    ThisCubeRoot(97, 4, 0x983e5152);
    ThisCubeRoot(101, 4, 0xa831c66d);
    ThisCubeRoot(103, 4, 0xb00327c8);
    ThisCubeRoot(107, 4, 0xbf597fc7);
    ThisCubeRoot(109, 4, 0xc6e00bf3);
    ThisCubeRoot(113, 4, 0xd5a79147);
    ThisCubeRoot(127, 5, 0x06ca6351);
    ThisCubeRoot(131, 5, 0x14292967);
  }

  lemma CubeRoots4()
    ensures forall i :: 0 <= i < 8 ==> CubeRootBits(P4[i], K4[i] as nat)
  {
    hide CubeRootBits;
    ThisCubeRoot(137, 5, 0x27b70a85);
    ThisCubeRoot(139, 5, 0x2e1b2138);
    ThisCubeRoot(149, 5, 0x4d2c6dfc);
    ThisCubeRoot(151, 5, 0x53380d13);
    ThisCubeRoot(157, 5, 0x650a7354);
    ThisCubeRoot(163, 5, 0x766a0abb);
    ThisCubeRoot(167, 5, 0x81c2c92e);
    ThisCubeRoot(173, 5, 0x92722c85);
  }

  lemma CubeRoots5()
    ensures forall i :: 0 <= i < 8 ==> CubeRootBits(P5[i], K5[i] as nat)
  {
    hide CubeRootBits;
    ThisCubeRoot(179, 5, 0xa2bfe8a1);
    ThisCubeRoot(181, 5, 0xa81a664b);
    ThisCubeRoot(191, 5, 0xc24b8b70);
    ThisCubeRoot(193, 5, 0xc76c51a3);
    ThisCubeRoot(197, 5, 0xd192e819);
    ThisCubeRoot(199, 5, 0xd6990624);
    ThisCubeRoot(211, 5, 0xf40e3585);
    ThisCubeRoot(223, 6, 0x106aa070);
  }

  lemma CubeRoots6()
    ensures forall i :: 0 <= i < 8 ==> CubeRootBits(P6[i], K6[i] as nat)
  {
    hide CubeRootBits;
    ThisCubeRoot(227, 6, 0x19a4c116);
    ThisCubeRoot(229, 6, 0x1e376c08);
    ThisCubeRoot(233, 6, 0x2748774c);
    ThisCubeRoot(239, 6, 0x34b0bcb5);
    ThisCubeRoot(241, 6, 0x391c0cb3);
    ThisCubeRoot(251, 6, 0x4ed8aa4a);
    ThisCubeRoot(257, 6, 0x5b9cca4f);
    ThisCubeRoot(263, 6, 0x682e6ff3);
  }

  lemma CubeRoots7()
    ensures forall i :: 0 <= i < 8 ==> CubeRootBits(P7[i], K7[i] as nat)
  {
    hide CubeRootBits;
    ThisCubeRoot(269, 6, 0x748f82ee);
    ThisCubeRoot(271, 6, 0x78a5636f);
    ThisCubeRoot(277, 6, 0x84c87814);
    ThisCubeRoot(281, 6, 0x8cc70208);
    ThisCubeRoot(283, 6, 0x90befffa);
    ThisCubeRoot(293, 6, 0xa4506ceb);
    ThisCubeRoot(307, 6, 0xbef9a3f7);
    ThisCubeRoot(311, 6, 0xc67178f2);
  }

  lemma ConstantRow(t: nat)
    requires t < 64
    ensures 0 <= t < 8 ==> K[t] == K0[t] && PRIMES[t] == P0[t]
    ensures 8 <= t < 16 ==> K[t] == K1[t - 8] && PRIMES[t] == P1[t - 8]
    ensures 16 <= t < 24 ==> K[t] == K2[t - 16] && PRIMES[t] == P2[t - 16]
    ensures 24 <= t < 32 ==> K[t] == K3[t - 24] && PRIMES[t] == P3[t - 24]
    ensures 32 <= t < 40 ==> K[t] == K4[t - 32] && PRIMES[t] == P4[t - 32]
    ensures 40 <= t < 48 ==> K[t] == K5[t - 40] && PRIMES[t] == P5[t - 40]
    ensures 48 <= t < 56 ==> K[t] == K6[t - 48] && PRIMES[t] == P6[t - 48]
    ensures 56 <= t < 64 ==> K[t] == K7[t - 56] && PRIMES[t] == P7[t - 56]
  {
  }

  /** Every constant of a round is the fraction of the cube root of its prime, to 32 bits. */
  lemma RoundConstants(t: nat)
    requires t < 64
    ensures |PRIMES| == 64 && CubeRootBits(PRIMES[t], Constant(t) as nat)
  {
    hide CubeRootBits;
    ConstantRow(t);
    CubeRoots0();
    CubeRoots1();
    CubeRoots2();
    CubeRoots3();
    CubeRoots4();
    CubeRoots5();
    CubeRoots6();
    CubeRoots7();
  }

  /** And the initial hash is made of the fractions of the square roots of the first eight. */
  lemma InitialHash(i: nat)
    requires i < 8
    ensures SquareRootBits(P0[i], Initial()[i] as nat)
  {
    hide SquareRootBits;
    ThisSquareRoot(2, 1, 0x6a09e667);
    ThisSquareRoot(3, 1, 0xbb67ae85);
    ThisSquareRoot(5, 2, 0x3c6ef372);
    ThisSquareRoot(7, 2, 0xa54ff53a);
    ThisSquareRoot(11, 3, 0x510e527f);
    ThisSquareRoot(13, 3, 0x9b05688c);
    ThisSquareRoot(17, 4, 0x1f83d9ab);
    ThisSquareRoot(19, 4, 0x5be0cd19);
  }

  // ---- The message "abc" ----

  const ABC: seq<byte> := [0x61, 0x62, 0x63]

  lemma AbcBlock()
    ensures Pad(ABC) == [0x61, 0x62, 0x63, 0x80] + Zeros(52) + [0, 0, 0, 0] + [0, 0, 0, 24] && |Pad(ABC)| == 64
  {
    assert ZeroCount(3) == 52;
    assert Four(0) == [0, 0, 0, 0] && Four(24) == [0, 0, 0, 24];
  }

  /** The words of the block itself. */
  lemma FirstWords(t: nat)
    requires t < 16
    ensures |Pad(ABC)| == 64 && W(Pad(ABC), t) == if t == 0 then 0x61626380 else if t == 15 then 24 else 0
  {
    hide WordOf, Pad;
    AbcBlock();
    WordValues();
    var b := Pad(ABC);
    assert b[4 * t] == 0 || t == 0;
    assert b[4 * t + 1] == 0 || t == 0;
    assert b[4 * t + 2] == 0 || t == 0;
    assert b[4 * t + 3] == if t == 0 then 0x80 else if t == 15 then 24 else 0;
  }

  lemma WordValues()
    ensures WordOf(0x61, 0x62, 0x63, 0x80) == 0x61626380 && WordOf(0, 0, 0, 24) == 24 && WordOf(0, 0, 0, 0) == 0
  {
  }

  lemma NextWord(b: seq<byte>, t: nat)
    requires |b| == 64 && 16 <= t < 64
    ensures W(b, t) == ScheduleWord(W(b, t - 2), W(b, t - 7), W(b, t - 15), W(b, t - 16))
  {
    hide ScheduleWord;
  }

  lemma Words16(b: seq<byte>)
    requires |b| == 64 && b == Pad(ABC)
    ensures W(b, 16) == 0x61626380 && W(b, 17) == 0x000f0000
    ensures W(b, 18) == 0x7da86405 && W(b, 19) == 0x600003c6
    ensures W(b, 20) == 0x3e9d7b78 && W(b, 21) == 0x0183fc00
    ensures W(b, 22) == 0x12dcbfdb && W(b, 23) == 0xe2e2c38e
  {
    hide W, Pad;
    FirstWords(0);
    FirstWords(1);
    FirstWords(2);
    FirstWords(3);
    FirstWords(4);
    FirstWords(5);
    FirstWords(6);
    FirstWords(7);
    FirstWords(8);
    FirstWords(9);
    FirstWords(10);
    FirstWords(11);
    FirstWords(12);
    FirstWords(13);
    FirstWords(14);
    FirstWords(15);
    NextWord(b, 16);
    NextWord(b, 17);
    NextWord(b, 18);
    NextWord(b, 19);
    NextWord(b, 20);
    NextWord(b, 21);
    NextWord(b, 22);
    NextWord(b, 23);
  }

  lemma Words24(b: seq<byte>)
    requires |b| == 64 && b == Pad(ABC)
    ensures W(b, 24) == 0xc8215c1a && W(b, 25) == 0xb73679a2
    ensures W(b, 26) == 0xe5bc3909 && W(b, 27) == 0x32663c5b
    ensures W(b, 28) == 0x9d209d67 && W(b, 29) == 0xec8726cb
    ensures W(b, 30) == 0x702138a4 && W(b, 31) == 0xd3b7973b
  {
    hide W, Pad;
    FirstWords(8);
    FirstWords(9);
    FirstWords(10);
    FirstWords(11);
    FirstWords(12);
    FirstWords(13);
    FirstWords(14);
    FirstWords(15);
    Words16(b);
    NextWord(b, 24);
    NextWord(b, 25);
    NextWord(b, 26);
    NextWord(b, 27);
    NextWord(b, 28);
    NextWord(b, 29);
    NextWord(b, 30);
    NextWord(b, 31);
  }

  lemma Words32(b: seq<byte>)
    requires |b| == 64 && b == Pad(ABC)
    ensures W(b, 32) == 0x93f5997f && W(b, 33) == 0x3b68ba73
    ensures W(b, 34) == 0xaff4ffc1 && W(b, 35) == 0xf10a5c62
    ensures W(b, 36) == 0x0a8b3996 && W(b, 37) == 0x72af830a
    ensures W(b, 38) == 0x9409e33e && W(b, 39) == 0x24641522
  {
    hide W, Pad;
    Words16(b);
    Words24(b);
    NextWord(b, 32);
    NextWord(b, 33);
    NextWord(b, 34);
    NextWord(b, 35);
    NextWord(b, 36);
    NextWord(b, 37);
    NextWord(b, 38);
    NextWord(b, 39);
  }

  lemma Words40(b: seq<byte>)
    requires |b| == 64 && b == Pad(ABC)
    ensures W(b, 40) == 0x9f47bf94 && W(b, 41) == 0xf0a64f5a
    ensures W(b, 42) == 0x3e246a79 && W(b, 43) == 0x27333ba3
    ensures W(b, 44) == 0x0c4763f2 && W(b, 45) == 0x840abf27
    ensures W(b, 46) == 0x7a290d5d && W(b, 47) == 0x065c43da
  {
    hide W, Pad;
    Words24(b);
    Words32(b);
    NextWord(b, 40);
    NextWord(b, 41);
    NextWord(b, 42);
    NextWord(b, 43);
    NextWord(b, 44);
    NextWord(b, 45);
    NextWord(b, 46);
    NextWord(b, 47);
  }

  lemma Words48(b: seq<byte>)
    requires |b| == 64 && b == Pad(ABC)
    ensures W(b, 48) == 0xfb3e89cb && W(b, 49) == 0xcc7617db
    ensures W(b, 50) == 0xb9e66c34 && W(b, 51) == 0xa9993667
    ensures W(b, 52) == 0x84badedd && W(b, 53) == 0xc21462bc
    ensures W(b, 54) == 0x1487472c && W(b, 55) == 0xb20f7a99
  {
    hide W, Pad;
    Words32(b);
    Words40(b);
    NextWord(b, 48);
    NextWord(b, 49);
    NextWord(b, 50);
    NextWord(b, 51);
    NextWord(b, 52);
    NextWord(b, 53);
    NextWord(b, 54);
    NextWord(b, 55);
  }

  lemma Words56(b: seq<byte>)
    requires |b| == 64 && b == Pad(ABC)
    ensures W(b, 56) == 0xef57b9cd && W(b, 57) == 0xebe6b238
    ensures W(b, 58) == 0x9fe3095e && W(b, 59) == 0x78bc8d4b
    ensures W(b, 60) == 0xa43fcf15 && W(b, 61) == 0x668b2ff8
    ensures W(b, 62) == 0xeeaba2cc && W(b, 63) == 0x12b1edeb
  {
    hide W, Pad;
    Words40(b);
    Words48(b);
    NextWord(b, 56);
    NextWord(b, 57);
    NextWord(b, 58);
    NextWord(b, 59);
    NextWord(b, 60);
    NextWord(b, 61);
    NextWord(b, 62);
    NextWord(b, 63);
  }

  lemma NextRound(b: seq<byte>, n: nat)
    requires |b| == 64 && n < 64
    ensures Rounds(Initial(), b, n + 1) == Round(Rounds(Initial(), b, n), Constant(n), W(b, n))
  {
    hide Round, W, Constant;
  }

  lemma Constants0()
    ensures Constant(0) == 0x428a2f98 && Constant(1) == 0x71374491
    ensures Constant(2) == 0xb5c0fbcf && Constant(3) == 0xe9b5dba5
    ensures Constant(4) == 0x3956c25b && Constant(5) == 0x59f111f1
    ensures Constant(6) == 0x923f82a4 && Constant(7) == 0xab1c5ed5
  {
    hide K, PRIMES;
    ConstantRow(0);
    ConstantRow(1);
    ConstantRow(2);
    ConstantRow(3);
    ConstantRow(4);
    ConstantRow(5);
    ConstantRow(6);
    ConstantRow(7);
  }

  lemma Constants8()
    ensures Constant(8) == 0xd807aa98 && Constant(9) == 0x12835b01
    ensures Constant(10) == 0x243185be && Constant(11) == 0x550c7dc3
    ensures Constant(12) == 0x72be5d74 && Constant(13) == 0x80deb1fe
    ensures Constant(14) == 0x9bdc06a7 && Constant(15) == 0xc19bf174
  {
    hide K, PRIMES;
    ConstantRow(8);
    ConstantRow(9);
    ConstantRow(10);
    ConstantRow(11);
    ConstantRow(12);
    ConstantRow(13);
    ConstantRow(14);
    ConstantRow(15);
  }

  lemma Constants16()
    ensures Constant(16) == 0xe49b69c1 && Constant(17) == 0xefbe4786
    ensures Constant(18) == 0x0fc19dc6 && Constant(19) == 0x240ca1cc
    ensures Constant(20) == 0x2de92c6f && Constant(21) == 0x4a7484aa
    ensures Constant(22) == 0x5cb0a9dc && Constant(23) == 0x76f988da
  {
    hide K, PRIMES;
    ConstantRow(16);
    ConstantRow(17);
    ConstantRow(18);
    ConstantRow(19);
    ConstantRow(20);
    ConstantRow(21);
    ConstantRow(22);
    ConstantRow(23);
  }

  lemma Constants24()
    ensures Constant(24) == 0x983e5152 && Constant(25) == 0xa831c66d
    ensures Constant(26) == 0xb00327c8 && Constant(27) == 0xbf597fc7
    ensures Constant(28) == 0xc6e00bf3 && Constant(29) == 0xd5a79147
    ensures Constant(30) == 0x06ca6351 && Constant(31) == 0x14292967
  {
    hide K, PRIMES;
    ConstantRow(24);
    ConstantRow(25);
    ConstantRow(26);
    ConstantRow(27);
    ConstantRow(28);
    ConstantRow(29);
    ConstantRow(30);
    ConstantRow(31);
  }

  lemma Constants32()
    ensures Constant(32) == 0x27b70a85 && Constant(33) == 0x2e1b2138
    ensures Constant(34) == 0x4d2c6dfc && Constant(35) == 0x53380d13
    ensures Constant(36) == 0x650a7354 && Constant(37) == 0x766a0abb
    ensures Constant(38) == 0x81c2c92e && Constant(39) == 0x92722c85
  {
    hide K, PRIMES;
    ConstantRow(32);
    ConstantRow(33);
    ConstantRow(34);
    ConstantRow(35);
    ConstantRow(36);
    ConstantRow(37);
    ConstantRow(38);
    ConstantRow(39);
  }

  lemma Constants40()
    ensures Constant(40) == 0xa2bfe8a1 && Constant(41) == 0xa81a664b
    ensures Constant(42) == 0xc24b8b70 && Constant(43) == 0xc76c51a3
    ensures Constant(44) == 0xd192e819 && Constant(45) == 0xd6990624
    ensures Constant(46) == 0xf40e3585 && Constant(47) == 0x106aa070
  {
    hide K, PRIMES;
    ConstantRow(40);
    ConstantRow(41);
    ConstantRow(42);
    ConstantRow(43);
    ConstantRow(44);
    ConstantRow(45);
    ConstantRow(46);
    ConstantRow(47);
  }

  lemma Constants48()
    ensures Constant(48) == 0x19a4c116 && Constant(49) == 0x1e376c08
    ensures Constant(50) == 0x2748774c && Constant(51) == 0x34b0bcb5
    ensures Constant(52) == 0x391c0cb3 && Constant(53) == 0x4ed8aa4a
    ensures Constant(54) == 0x5b9cca4f && Constant(55) == 0x682e6ff3
  {
    hide K, PRIMES;
    ConstantRow(48);
    ConstantRow(49);
    ConstantRow(50);
    ConstantRow(51);
    ConstantRow(52);
    ConstantRow(53);
    ConstantRow(54);
    ConstantRow(55);
  }

  lemma Constants56()
    ensures Constant(56) == 0x748f82ee && Constant(57) == 0x78a5636f
    ensures Constant(58) == 0x84c87814 && Constant(59) == 0x8cc70208
    ensures Constant(60) == 0x90befffa && Constant(61) == 0xa4506ceb
    ensures Constant(62) == 0xbef9a3f7 && Constant(63) == 0xc67178f2
  {
    hide K, PRIMES;
    ConstantRow(56);
    ConstantRow(57);
    ConstantRow(58);
    ConstantRow(59);
    ConstantRow(60);
    ConstantRow(61);
    ConstantRow(62);
    ConstantRow(63);
  }

  lemma Rounds4(b: seq<byte>)
    requires |b| == 64 && b == Pad(ABC)
    ensures Rounds(Initial(), b, 4) ==
      [0xd550f666, 0xc8c347a7, 0x5a6ad9ad, 0x5d6aebcd,
       0x24e00850, 0xf92939eb, 0x78ce7989, 0xfa2a4622]
  {
    hide Rounds, W, Pad, Constant;
    assert Rounds(Initial(), b, 0) == H0 by {
      NoRounds(b);
    }
    Constants0();
    FirstWords(0);
    FirstWords(1);
    FirstWords(2);
    FirstWords(3);
    NextRound(b, 0);
    NextRound(b, 1);
    NextRound(b, 2);
    NextRound(b, 3);
  }

  lemma Rounds8(b: seq<byte>)
    requires |b| == 64 && b == Pad(ABC)
    ensures Rounds(Initial(), b, 8) ==
      [0x85a07b5f, 0xe5030380, 0x2b4209f5, 0x04409a6a,
       0x0c657a79, 0x9b27a401, 0x714260ad, 0x43ada245]
  {
    hide Rounds, W, Pad, Constant;
    Rounds4(b);
    Constants0();
    FirstWords(4);
    FirstWords(5);
    FirstWords(6);
    FirstWords(7);
    NextRound(b, 4);
    NextRound(b, 5);
    NextRound(b, 6);
    NextRound(b, 7);
  }

  lemma Rounds12(b: seq<byte>)
    requires |b| == 64 && b == Pad(ABC)
    ensures Rounds(Initial(), b, 12) ==
      [0xf71fc5a9, 0x4798a3f4, 0x8c87346b, 0x8e04ecb9,
       0x816fd6e9, 0x436b23e8, 0x1cc92596, 0x32ca2d8c]
  {
    hide Rounds, W, Pad, Constant;
    Rounds8(b);
    Constants8();
    FirstWords(8);
    FirstWords(9);
    FirstWords(10);
    FirstWords(11);
    NextRound(b, 8);
    NextRound(b, 9);
    NextRound(b, 10);
    NextRound(b, 11);
  }

  lemma Rounds16(b: seq<byte>)
    requires |b| == 64 && b == Pad(ABC)
    ensures Rounds(Initial(), b, 16) ==
      [0xb0fa238e, 0xc0645fde, 0xd932eb16, 0x87912990,
       0x07590dcd, 0x0b92f20c, 0x745a48de, 0x1e578218]
  {
    hide Rounds, W, Pad, Constant;
    Rounds12(b);
    Constants8();
    FirstWords(12);
    FirstWords(13);
    FirstWords(14);
    FirstWords(15);
    NextRound(b, 12);
    NextRound(b, 13);
    NextRound(b, 14);
    NextRound(b, 15);
  }

  lemma Rounds20(b: seq<byte>)
    requires |b| == 64 && b == Pad(ABC)
    ensures Rounds(Initial(), b, 20) ==
      [0xe1f20c33, 0xfe777bbf, 0xc2fbd9d1, 0x21da9a9b,
       0xb0638179, 0xcc899961, 0x846ee454, 0x8034229c]
  {
    hide Rounds, W, Pad, Constant;
    Rounds16(b);
    Constants16();
    Words16(b);
    NextRound(b, 16);
    NextRound(b, 17);
    NextRound(b, 18);
    NextRound(b, 19);
  }

  lemma Rounds24(b: seq<byte>)
    requires |b| == 64 && b == Pad(ABC)
    ensures Rounds(Initial(), b, 24) ==
      [0xc5d53d8d, 0xa7a3623f, 0xc2606d6d, 0x9dc68b63,
       0xaa47c347, 0x49f5114a, 0xe1257970, 0x8ada8930]
  {
    hide Rounds, W, Pad, Constant;
    Rounds20(b);
    Constants16();
    Words16(b);
    NextRound(b, 20);
    NextRound(b, 21);
    NextRound(b, 22);
    NextRound(b, 23);
  }

  lemma Rounds28(b: seq<byte>)
    requires |b| == 64 && b == Pad(ABC)
    ensures Rounds(Initial(), b, 28) ==
      [0x77d37528, 0xb62ec4bc, 0xcde8037d, 0x1c2c2838,
       0xedffbff8, 0xc74c6516, 0x14383d8e, 0x2823ef91]
  {
    hide Rounds, W, Pad, Constant;
    Rounds24(b);
    Constants24();
    Words24(b);
    NextRound(b, 24);
    NextRound(b, 25);
    NextRound(b, 26);
    NextRound(b, 27);
  }

  lemma Rounds32(b: seq<byte>)
    requires |b| == 64 && b == Pad(ABC)
    ensures Rounds(Initial(), b, 32) ==
      [0x73b33bf5, 0xea992a22, 0xa0060b30, 0x363482c9,
       0xba591112, 0x0109ab3a, 0xade79437, 0x6112a3b7]
  {
    hide Rounds, W, Pad, Constant;
    Rounds28(b);
    Constants24();
    Words24(b);
    NextRound(b, 28);
    NextRound(b, 29);
    NextRound(b, 30);
    NextRound(b, 31);
  }

  lemma Rounds36(b: seq<byte>)
    requires |b| == 64 && b == Pad(ABC)
    ensures Rounds(Initial(), b, 36) ==
      [0x65a0cfe4, 0xa9a7738c, 0xfe604df5, 0x98e12507,
       0xf4b002d6, 0x085f3833, 0x59249dd3, 0x9cd9f5f6]
  {
    hide Rounds, W, Pad, Constant;
    Rounds32(b);
    Constants32();
    Words32(b);
    NextRound(b, 32);
    NextRound(b, 33);
    NextRound(b, 34);
    NextRound(b, 35);
  }

  lemma Rounds40(b: seq<byte>)
    requires |b| == 64 && b == Pad(ABC)
    ensures Rounds(Initial(), b, 40) ==
      [0x79ea687a, 0x6dc57a8a, 0x34df1604, 0x41a65cb1,
       0x1efbc0a0, 0xf0781bc8, 0xa507a53d, 0x0772a26b]
  {
    hide Rounds, W, Pad, Constant;
    Rounds36(b);
    Constants32();
    Words32(b);
    NextRound(b, 36);
    NextRound(b, 37);
    NextRound(b, 38);
    NextRound(b, 39);
  }

  lemma Rounds44(b: seq<byte>)
    requires |b| == 64 && b == Pad(ABC)
    ensures Rounds(Initial(), b, 44) ==
      [0x9d4baf93, 0x17aa0dfe, 0xdf46652f, 0xd6670766,
       0xfda24c2e, 0xdecd4715, 0x838b2711, 0x26352d63]
  {
    hide Rounds, W, Pad, Constant;
    Rounds40(b);
    Constants40();
    Words40(b);
    NextRound(b, 40);
    NextRound(b, 41);
    NextRound(b, 42);
    NextRound(b, 43);
  }

  lemma Rounds48(b: seq<byte>)
    requires |b| == 64 && b == Pad(ABC)
    ensures Rounds(Initial(), b, 48) ==
      [0x4172328d, 0xa14c14b0, 0x72ab4b91, 0x26628815,
       0xfecf0bc6, 0xd57b94a9, 0xb7755da1, 0xa80f11f0]
  {
    hide Rounds, W, Pad, Constant;
    Rounds44(b);
    Constants40();
    Words40(b);
    NextRound(b, 44);
    NextRound(b, 45);
    NextRound(b, 46);
    NextRound(b, 47);
  }

  lemma Rounds52(b: seq<byte>)
    requires |b| == 64 && b == Pad(ABC)
    ensures Rounds(Initial(), b, 52) ==
      [0x886e7a22, 0x7a0508a1, 0xf11bfaa8, 0x05757ceb,
       0x49231c1e, 0x52f1ccf7, 0x6e5c390c, 0xbd714038]
  {
    hide Rounds, W, Pad, Constant;
    Rounds48(b);
    Constants48();
    Words48(b);
    NextRound(b, 48);
    NextRound(b, 49);
    NextRound(b, 50);
    NextRound(b, 51);
  }

  lemma Rounds56(b: seq<byte>)
    requires |b| == 64 && b == Pad(ABC)
    ensures Rounds(Initial(), b, 56) ==
      [0x38cc9913, 0x3ec45cdb, 0xf5702fdb, 0x101fd28f,
       0x54cb266b, 0xe50e1b4f, 0x9f4787c3, 0x529e7d00]
  {
    hide Rounds, W, Pad, Constant;
    Rounds52(b);
    Constants48();
    Words48(b);
    NextRound(b, 52);
    NextRound(b, 53);
    NextRound(b, 54);
    NextRound(b, 55);
  }

  lemma Rounds60(b: seq<byte>)
    requires |b| == 64 && b == Pad(ABC)
    ensures Rounds(Initial(), b, 60) ==
      [0xb6ae8fff, 0xffb70472, 0xc062d46f, 0xfcd1887b,
       0xb21bad3d, 0x6d83bfc6, 0x7e44008e, 0x9b5e906c]
  {
    hide Rounds, W, Pad, Constant;
    Rounds56(b);
    Constants56();
    Words56(b);
    NextRound(b, 56);
    NextRound(b, 57);
    NextRound(b, 58);
    NextRound(b, 59);
  }

  lemma Rounds64(b: seq<byte>)
    requires |b| == 64 && b == Pad(ABC)
    ensures Rounds(Initial(), b, 64) ==
      [0x506e3058, 0xd39a2165, 0x04d24d6c, 0xb85e2ce9,
       0x5ef50f24, 0xfb121210, 0x948d25b6, 0x961f4894]
  {
    hide Rounds, W, Pad, Constant;
    Rounds60(b);
    Constants56();
    Words56(b);
    NextRound(b, 60);
    NextRound(b, 61);
    NextRound(b, 62);
    NextRound(b, 63);
  }

  lemma NoRounds(b: seq<byte>)
    requires |b| == 64
    ensures Rounds(Initial(), b, 0) == H0
  {
  }

  lemma AbcHash(b: seq<byte>)
    requires |b| == 64 && b == Pad(ABC)
    ensures Compress(Initial(), b) ==
      [0xba7816bf, 0x8f01cfea, 0x414140de, 0x5dae2223,
       0xb00361a3, 0x96177a9c, 0xb410ff61, 0xf20015ad]
  {
    hide Rounds, Pad;
    Rounds64(b);
    LastSum();
  }

  lemma LastSum()
    ensures Sum(H0, [0x506e3058, 0xd39a2165, 0x04d24d6c, 0xb85e2ce9, 0x5ef50f24, 0xfb121210, 0x948d25b6, 0x961f4894]) ==
      [0xba7816bf, 0x8f01cfea, 0x414140de, 0x5dae2223,
       0xb00361a3, 0x96177a9c, 0xb410ff61, 0xf20015ad]
  {
  }

  /** The digest of "abc" is the one of the standard's example. */
  lemma AbcDigest()
    ensures DigestOf(Pad(ABC)) ==
      [0xba, 0x78, 0x16, 0xbf, 0x8f, 0x01, 0xcf, 0xea, 0x41, 0x41, 0x40, 0xde, 0x5d, 0xae, 0x22, 0x23,
       0xb0, 0x03, 0x61, 0xa3, 0x96, 0x17, 0x7a, 0x9c, 0xb4, 0x10, 0xff, 0x61, 0xf2, 0x00, 0x15, 0xad]
  {
    hide Compress, Pad;
    AbcBlock();
    var b := Pad(ABC);
    AbcHash(b);
    assert BlockAt(b, 0) == b;
    assert Fold(Initial(), b, 1) == Compress(Fold(Initial(), b, 0), BlockAt(b, 0));
    AbcBytes();
  }

  lemma AbcBytes()
    ensures HashBytes([0xba7816bf, 0x8f01cfea, 0x414140de, 0x5dae2223,
                      0xb00361a3, 0x96177a9c, 0xb410ff61, 0xf20015ad]) ==
      [0xba, 0x78, 0x16, 0xbf, 0x8f, 0x01, 0xcf, 0xea, 0x41, 0x41, 0x40, 0xde, 0x5d, 0xae, 0x22, 0x23,
       0xb0, 0x03, 0x61, 0xa3, 0x96, 0x17, 0x7a, 0x9c, 0xb4, 0x10, 0xff, 0x61, 0xf2, 0x00, 0x15, 0xad]
  {
  }
}
