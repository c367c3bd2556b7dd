/**
 SHA-256 as section 6.2 of FIPS 180-4 defines it, and the two implementations under benchmarks/sha256: the
 buffered one with a 64-word schedule (cgminer.cpp) and the one with a rolling 16-word schedule (intrinsics.cpp).
 */
module Sha256 {
  import opened Bytes

  type Word = bv32

  // ---- Words ----

  function Plus(x: Word, y: Word): Word {
    x + y
  }

  function Ch(x: Word, y: Word, z: Word): Word {
    (x & y) ^ (!x & z)
  }

  function Maj(x: Word, y: Word, z: Word): Word {
    (x & y) ^ (x & z) ^ (y & z)
  }

  // The rotations of section 4.1.2, each by a fixed number of bits.

  function BigSigma0(x: Word): Word {
    ((x >> 2) | (x << 30)) ^ ((x >> 13) | (x << 19)) ^ ((x >> 22) | (x << 10))
  }

  function BigSigma1(x: Word): Word {
    ((x >> 6) | (x << 26)) ^ ((x >> 11) | (x << 21)) ^ ((x >> 25) | (x << 7))
  }

  function SmallSigma0(x: Word): Word {
    ((x >> 7) | (x << 25)) ^ ((x >> 18) | (x << 14)) ^ (x >> 3)
  }

  function SmallSigma1(x: Word): Word {
    ((x >> 17) | (x << 15)) ^ ((x >> 19) | (x << 13)) ^ (x >> 10)
  }

  /** The word of four bytes, most significant first. */
  function WordOf(b0: byte, b1: byte, b2: byte, b3: byte): Word {
    (b3 as bv32) | (b2 as bv32 << 8) | (b1 as bv32 << 16) | (b0 as bv32 << 24)
  }

  /** The same word, put together from the other end. */
  function WordFrom(b0: byte, b1: byte, b2: byte, b3: byte): Word {
    (b0 as bv32 << 24) | (b1 as bv32 << 16) | (b2 as bv32 << 8) | (b3 as bv32)
  }

  lemma OrReversed(a: Word, b: Word, c: Word, d: Word)
    ensures a | b | c | d == d | c | b | a
  {
  }

  lemma WordFromIsWordOf(b0: byte, b1: byte, b2: byte, b3: byte)
    ensures WordFrom(b0, b1, b2, b3) == WordOf(b0, b1, b2, b3)
  {
    OrReversed(b0 as bv32 << 24, b1 as bv32 << 16, b2 as bv32 << 8, b3 as bv32);
  }

  function LowByte(x: Word): byte {
    ((x & 0xFF) as bv8) as byte
  }

  function WordBytes(x: Word): (r: seq<byte>)
    ensures |r| == 4
  {
    [LowByte(x >> 24), LowByte(x >> 16), LowByte(x >> 8), LowByte(x)]
  }

  // The 64 constants, in rows of eight.
  const K0: seq<Word> := [0x428a2f98, 0x71374491, 0xb5c0fbcf, 0xe9b5dba5, 0x3956c25b, 0x59f111f1, 0x923f82a4, 0xab1c5ed5]
  const K1: seq<Word> := [0xd807aa98, 0x12835b01, 0x243185be, 0x550c7dc3, 0x72be5d74, 0x80deb1fe, 0x9bdc06a7, 0xc19bf174]
  const K2: seq<Word> := [0xe49b69c1, 0xefbe4786, 0x0fc19dc6, 0x240ca1cc, 0x2de92c6f, 0x4a7484aa, 0x5cb0a9dc, 0x76f988da]
  const K3: seq<Word> := [0x983e5152, 0xa831c66d, 0xb00327c8, 0xbf597fc7, 0xc6e00bf3, 0xd5a79147, 0x06ca6351, 0x14292967]
  const K4: seq<Word> := [0x27b70a85, 0x2e1b2138, 0x4d2c6dfc, 0x53380d13, 0x650a7354, 0x766a0abb, 0x81c2c92e, 0x92722c85]
  const K5: seq<Word> := [0xa2bfe8a1, 0xa81a664b, 0xc24b8b70, 0xc76c51a3, 0xd192e819, 0xd6990624, 0xf40e3585, 0x106aa070]
  const K6: seq<Word> := [0x19a4c116, 0x1e376c08, 0x2748774c, 0x34b0bcb5, 0x391c0cb3, 0x4ed8aa4a, 0x5b9cca4f, 0x682e6ff3]
  const K7: seq<Word> := [0x748f82ee, 0x78a5636f, 0x84c87814, 0x8cc70208, 0x90befffa, 0xa4506ceb, 0xbef9a3f7, 0xc67178f2]
  const K: seq<Word> := K0 + K1 + K2 + K3 + K4 + K5 + K6 + K7

  const H0: seq<Word> := [0x6a09e667, 0xbb67ae85, 0x3c6ef372, 0xa54ff53a, 0x510e527f, 0x9b05688c, 0x1f83d9ab, 0x5be0cd19]

  function Constant(t: nat): Word
    requires t < 64
  {
    K[t]
  }

  function Initial(): (r: seq<Word>)
    ensures |r| == 8
  {
    H0
  }

  // ---- FIPS 180-4, section 6.2.2 ----

  function ScheduleWord(w2: Word, w7: Word, w15: Word, w16: Word): Word {
    SmallSigma1(w2) + w7 + SmallSigma0(w15) + w16
  }

  /** The message schedule of one 64-byte block. */
  function W(block: seq<byte>, t: nat): Word
    requires |block| == 64 && t < 64
  {
    if t < 16 then WordOf(block[4 * t], block[4 * t + 1], block[4 * t + 2], block[4 * t + 3])
    else ScheduleWord(W(block, t - 2), W(block, t - 7), W(block, t - 15), W(block, t - 16))
  }

  function T1(e: Word, f: Word, g: Word, h: Word, k: Word, w: Word): Word {
    Plus(Plus(Plus(Plus(h, BigSigma1(e)), Ch(e, f, g)), k), w)
  }

  function T2(a: Word, b: Word, c: Word): Word {
    Plus(BigSigma0(a), Maj(a, b, c))
  }

  /** One round on the eight working variables a to h. */
  function Round(v: seq<Word>, k: Word, w: Word): (r: seq<Word>)
    requires |v| == 8
    ensures |r| == 8
  {
    var t1, t2 := T1(v[4], v[5], v[6], v[7], k, w), T2(v[0], v[1], v[2]);
    [Plus(t1, t2), v[0], v[1], v[2], Plus(v[3], t1), v[4], v[5], v[6]]
  }

  function Rounds(h: seq<Word>, block: seq<byte>, n: nat): (r: seq<Word>)
    requires |h| == 8 && |block| == 64 && n <= 64
    ensures |r| == 8
  {
    if n == 0 then h else Round(Rounds(h, block, n - 1), Constant(n - 1), W(block, n - 1))
  }

  function Sum(a: seq<Word>, b: seq<Word>): (r: seq<Word>)
    requires |a| == |b| == 8
    ensures |r| == 8
  {
    seq(8, i requires 0 <= i < 8 => Plus(a[i], b[i]))
  }

  function Compress(h: seq<Word>, block: seq<byte>): (r: seq<Word>)
    requires |h| == 8 && |block| == 64
    ensures |r| == 8
  {
    Sum(h, Rounds(h, block, 64))
  }

  /** The i-th 64-byte block. */
  function BlockAt(s: seq<byte>, i: nat): (r: seq<byte>)
    requires 64 * i + 64 <= |s|
    ensures |r| == 64
  {
    s[64 * i..64 * i + 64]
  }

  /** Compression folded over the first n blocks. */
  function Fold(h: seq<Word>, s: seq<byte>, n: nat): (r: seq<Word>)
    requires |h| == 8 && 64 * n <= |s|
    ensures |r| == 8
  {
    if n == 0 then h else Compress(Fold(h, s, n - 1), BlockAt(s, n - 1))
  }

  // ---- Padding, section 5.1.1 ----

  function Zeros(n: nat): (r: seq<byte>)
    ensures |r| == n
  {
    seq(n, _ => 0)
  }

  /** The four low bytes of n, most significant first. */
  function Four(n: nat): (r: seq<byte>)
    ensures |r| == 4
  {
    [(n / 0x100_0000 % 256) as byte, (n / 0x1_0000 % 256) as byte, (n / 256 % 256) as byte, (n % 256) as byte]
  }

  const U32: nat := 0x1_0000_0000

  /** The fewest zero bytes that fill the last block after the bit 1 and before the 64-bit length. */
  function ZeroCount(n: nat): nat {
    (64 - (n + 9) % 64) % 64
  }

  predicate Fills(n: nat, k: nat) {
    (n + 1 + k + 8) % 64 == 0
  }

  lemma ZeroCountIsLeast(n: nat)
    ensures Fills(n, ZeroCount(n)) && ZeroCount(n) < 64
    ensures forall k: nat :: Fills(n, k) ==> ZeroCount(n) <= k
  {
    var z := ZeroCount(n);
    forall k: nat | Fills(n, k) ensures z <= k {
      FillsApart(n, k, z);
    }
  }

  lemma FillsApart(n: nat, k: nat, z: nat)
    requires Fills(n, k) && Fills(n, z)
    ensures k < z ==> z - k >= 64
  {
  }

  /** The padded message: the message, the bit 1, zeros, and the length in bits as 64 bits. */
  function Pad(m: seq<byte>): seq<byte> {
    m + [0x80] + Zeros(ZeroCount(|m|)) + Four(8 * |m| / U32) + Four(8 * |m| % U32)
  }

  /** What the buffered implementation pads with: only the low 32 bits of the length are written. */
  function PadLow(m: seq<byte>): seq<byte> {
    m + [0x80] + Zeros(ZeroCount(|m|)) + Zeros(4) + Four(8 * |m| % U32)
  }

  lemma FourZero(n: nat)
    requires n < U32
    ensures Four(n) == Zeros(4) <==> n == 0
  {
    if Four(n) == Zeros(4) {
      assert Four(n)[0] == 0 && Four(n)[1] == 0 && Four(n)[2] == 0 && Four(n)[3] == 0;
    }
  }

  /** The padding is the standard one exactly for messages under 2^29 bytes. */
  lemma PadLowIff(m: seq<byte>)
    requires |m| < 0x2000_0000_0000_0000
    ensures PadLow(m) == Pad(m) <==> |m| < 0x2000_0000
  {
    hide Four, Zeros;
    var q := 8 * |m| / U32;
    FourZero(q);
    var front, back := m + [0x80] + Zeros(ZeroCount(|m|)), Four(8 * |m| % U32);
    Middle(front, Zeros(4), Four(q), back);
  }

  lemma Middle(a: seq<byte>, x: seq<byte>, y: seq<byte>, b: seq<byte>)
    requires |x| == |y|
    ensures a + x + b == a + y + b <==> x == y
  {
    assert (a + x + b)[|a|..|a| + |x|] == x && (a + y + b)[|a|..|a| + |y|] == y;
  }

  /** The digest of section 6.2: compression folded over the padded message, as bytes. */
  function DigestOf(s: seq<byte>): seq<byte> {
    HashBytes(Fold(Initial(), s, |s| / 64))
  }

  function HashBytes(h: seq<Word>): (r: seq<byte>)
    requires |h| == 8
    ensures |r| == 32
  {
    WordBytes(h[0]) + WordBytes(h[1]) + WordBytes(h[2]) + WordBytes(h[3]) +
    WordBytes(h[4]) + WordBytes(h[5]) + WordBytes(h[6]) + WordBytes(h[7])
  }

  // ---- Folding ----

  lemma PrefixParts(s: seq<byte>, i: nat, j: nat)
    requires i <= j <= |s|
    ensures s[..i] == s[..j][..i] && s[i..j] == s[..j][i..]
  {
  }

  lemma SameBlocks(s: seq<byte>, t: seq<byte>, n: nat)
    requires 0 < n && 64 * n <= |s| && 64 * n <= |t| && s[..64 * n] == t[..64 * n]
    ensures s[..64 * (n - 1)] == t[..64 * (n - 1)] && BlockAt(s, n - 1) == BlockAt(t, n - 1)
  {
    PrefixParts(s, 64 * (n - 1), 64 * n);
    PrefixParts(t, 64 * (n - 1), 64 * n);
  }

  lemma AppendParts(s: seq<byte>, t: seq<byte>, i: nat, j: nat)
    requires i <= j <= |t|
    ensures (s + t)[|s| + i..|s| + j] == t[i..j]
  {
  }

  lemma {:induction false} FoldPrefix(h: seq<Word>, s: seq<byte>, t: seq<byte>, n: nat)
    requires |h| == 8 && 64 * n <= |s| && 64 * n <= |t| && s[..64 * n] == t[..64 * n]
    ensures Fold(h, s, n) == Fold(h, t, n)
  {
    hide Compress, BlockAt;
    if n > 0 {
      SameBlocks(s, t, n);
      FoldPrefix(h, s, t, n - 1);
    }
  }

  /** Folding over one string and then over the next is folding over both. */
  lemma {:induction false} FoldAppend(h: seq<Word>, s: seq<byte>, n: nat, t: seq<byte>, k: nat)
    requires |h| == 8 && |s| == 64 * n && 64 * k <= |t|
    ensures Fold(Fold(h, s, n), t, k) == Fold(h, s + t, n + k)
  {
    hide Compress;
    if k == 0 {
      assert (s + t)[..64 * n] == s[..64 * n];
      FoldPrefix(h, s, s + t, n);
    } else {
      FoldAppend(h, s, n, t, k - 1);
      AppendParts(s, t, 64 * (k - 1), 64 * k);
    }
  }

  // ---- The 64-word schedule (cgminer.cpp) ----

  ghost predicate Scheduled(w: seq<Word>, block: seq<byte>, n: nat)
    requires |w| == 64 && |block| == 64 && n <= 64
  {
    forall t :: 0 <= t < n ==> w[t] == W(block, t)
  }

  lemma ScheduleStep(w: seq<Word>, block: seq<byte>, n: nat, x: Word)
    requires |w| == 64 && |block| == 64 && n < 64 && Scheduled(w, block, n) && x == W(block, n)
    ensures Scheduled(w[n := x], block, n + 1)
  {
  }

  /** The schedule word at n, from the words before it. */
  lemma ScheduleNext(w: seq<Word>, block: seq<byte>, n: nat)
    requires |w| == 64 && |block| == 64 && 16 <= n < 64 && Scheduled(w, block, n)
    ensures W(block, n) == ScheduleWord(w[n - 2], w[n - 7], w[n - 15], w[n - 16])
  {
    hide ScheduleWord;
  }

  lemma FirstWords(block: seq<byte>, t: nat)
    requires |block| == 64 && t < 16
    ensures W(block, t) == WordOf(block[4 * t], block[4 * t + 1], block[4 * t + 2], block[4 * t + 3])
  {
  }

  method FillSchedule(w: array<Word>, message: seq<byte>, at: nat)
    requires w.Length == 64 && at + 64 <= |message|
    modifies w
    ensures Scheduled(w[..], message[at..at + 64], 64)
  {
    hide W, WordOf, ScheduleWord, Scheduled;
    ghost var block := message[at..at + 64];
    ScheduledNothing(w[..], block);
    for j := 0 to 16
      invariant Scheduled(w[..], block, j)
    {
      FirstWords(block, j);
      ScheduleStep(w[..], block, j, W(block, j));
      var x := WordOf(message[at + 4 * j], message[at + 4 * j + 1], message[at + 4 * j + 2], message[at + 4 * j + 3]);
      ghost var was := w[..];
      w[j] := x;
      assert w[..] == was[j := x];
    }
    for j := 16 to 64
      invariant Scheduled(w[..], block, j)
    {
      ScheduleNext(w[..], block, j);
      ScheduleStep(w[..], block, j, W(block, j));
      var x := ScheduleWord(w[j - 2], w[j - 7], w[j - 15], w[j - 16]);
      ghost var was := w[..];
      w[j] := x;
      assert w[..] == was[j := x];
    }
  }

  lemma ScheduledNothing(w: seq<Word>, block: seq<byte>)
    requires |w| == 64 && |block| == 64
    ensures Scheduled(w, block, 0)
  {
  }

  lemma ScheduledAt(w: seq<Word>, block: seq<byte>, t: nat)
    requires |w| == 64 && |block| == 64 && t < 64 && Scheduled(w, block, 64)
    ensures w[t] == W(block, t)
  {
  }

  /** One round in place: the working variables shift down by one. */
  method RoundInPlace(wv: array<Word>, k: Word, x: Word)
    requires wv.Length == 8
    modifies wv
    ensures wv[..] == Round(old(wv[..]), k, x)
  {
    hide T1, T2, Plus;
    var t1 := T1(wv[4], wv[5], wv[6], wv[7], k, x);
    var t2 := T2(wv[0], wv[1], wv[2]);
    wv[7] := wv[6];
    wv[6] := wv[5];
    wv[5] := wv[4];
    wv[4] := Plus(wv[3], t1);
    wv[3] := wv[2];
    wv[2] := wv[1];
    wv[1] := wv[0];
    wv[0] := Plus(t1, t2);
    assert wv[..] == [wv[0], wv[1], wv[2], wv[3], wv[4], wv[5], wv[6], wv[7]];
  }

  lemma RoundsStep(h: seq<Word>, block: seq<byte>, n: nat)
    requires |h| == 8 && |block| == 64 && n < 64
    ensures Rounds(h, block, n + 1) == Round(Rounds(h, block, n), Constant(n), W(block, n))
    ensures Rounds(h, block, 0) == h
  {
  }

  method AddInto(h: array<Word>, wv: seq<Word>)
    requires h.Length == 8 && |wv| == 8
    modifies h
    ensures h[..] == Sum(old(h[..]), wv)
  {
    hide Plus;
    for j := 0 to 8
      invariant forall i :: 0 <= i < 8 ==> h[i] == if i < j then Plus(old(h[i]), wv[i]) else old(h[i])
    {
      h[j] := Plus(h[j], wv[j]);
    }
  }

  method TransformBlock(h: array<Word>, message: seq<byte>, at: nat)
    requires h.Length == 8 && at + 64 <= |message|
    modifies h
    ensures h[..] == Compress(old(h[..]), message[at..at + 64])
  {
    hide Scheduled, Round, Rounds, W, Constant, Sum;
    ghost var block := message[at..at + 64];
    var w := new Word[64];
    FillSchedule(w, message, at);
    var wv := new Word[8];
    CopyInto(wv, h);
    ghost var start := h[..];
    RoundsStep(start, block, 0);
    for j := 0 to 64
      invariant h[..] == start && Scheduled(w[..], block, 64)
      invariant wv[..] == Rounds(start, block, j)
    {
      RoundsStep(start, block, j);
      ScheduledAt(w[..], block, j);
      ghost var was := w[..];
      RoundInPlace(wv, Constant(j), w[j]);
      assert w[..] == was;
      assert h[..] == start;
    }
    AddInto(h, wv[..]);
  }

  method CopyInto(wv: array<Word>, h: array<Word>)
    requires wv.Length == 8 && h.Length == 8 && wv != h
    modifies wv
    ensures wv[..] == h[..]
  {
    for j := 0 to 8
      invariant forall i :: 0 <= i < j ==> wv[i] == h[i]
    {
      wv[j] := h[j];
    }
  }

  /** Compression folded over whole blocks. */
  method Transform(h: array<Word>, message: seq<byte>, blockCount: nat)
    requires h.Length == 8 && 64 * blockCount <= |message|
    modifies h
    ensures h[..] == Fold(old(h[..]), message, blockCount)
  {
    hide Compress;
    for i := 0 to blockCount
      invariant h[..] == Fold(old(h[..]), message, i)
    {
      TransformBlock(h, message, 64 * i);
    }
  }

  // ---- The rolling schedule (intrinsics.cpp) ----

  ghost predicate Rolling(x: seq<Word>, block: seq<byte>, n: nat)
    requires |x| == 16 && |block| == 64 && n <= 64
  {
    forall t :: 0 <= t < n && n - 16 <= t ==> x[t % 16] == W(block, t)
  }

  lemma RollingStep(x: seq<Word>, block: seq<byte>, n: nat, y: Word)
    requires |x| == 16 && |block| == 64 && n < 64 && Rolling(x, block, n) && y == W(block, n)
    ensures Rolling(x[n % 16 := y], block, n + 1)
  {
    hide W;
    forall t | 0 <= t < n + 1 && n + 1 - 16 <= t ensures x[n % 16 := y][t % 16] == W(block, t) {
      if t < n {
        assert 0 < n - t < 16;
        assert t % 16 != n % 16;
      }
    }
  }

  lemma RollingAt(x: seq<Word>, block: seq<byte>, n: nat, back: nat)
    requires |x| == 16 && |block| == 64 && 16 <= n < 64 && 0 < back <= 16 && Rolling(x, block, n)
    ensures x[(n + 16 - back) % 16] == W(block, n - back)
  {
    hide W;
    assert (n - back) % 16 == (n + 16 - back) % 16;
  }

  lemma PlusComm(x: Word, y: Word)
    ensures Plus(x, y) == Plus(y, x)
  {
  }

  /** The word the rolling schedule adds up in place. */
  function RollingWord(w2: Word, w7: Word, w15: Word, w16: Word): Word {
    w16 + ((SmallSigma0(w15) + SmallSigma1(w2)) + w7)
  }

  lemma RollingWordIs(w2: Word, w7: Word, w15: Word, w16: Word)
    ensures RollingWord(w2, w7, w15, w16) == ScheduleWord(w2, w7, w15, w16)
  {
    hide SmallSigma0, SmallSigma1;
  }

  /** The word added in place in the window of sixteen is the schedule word. */
  lemma RollingNext(x: seq<Word>, block: seq<byte>, n: nat)
    requires |x| == 16 && |block| == 64 && 16 <= n < 64 && Rolling(x, block, n)
    ensures W(block, n) == RollingWord(x[(n + 14) % 16], x[(n + 9) % 16], x[(n + 1) % 16], x[n % 16])
  {
    hide W, Rolling, RollingWord, ScheduleWord;
    RollingWords(x, block, n);
    RollingWordIs(W(block, n - 2), W(block, n - 7), W(block, n - 15), W(block, n - 16));
    ScheduleUnfold(block, n);
  }

  lemma RollingWords(x: seq<Word>, block: seq<byte>, n: nat)
    requires |x| == 16 && |block| == 64 && 16 <= n < 64 && Rolling(x, block, n)
    ensures x[n % 16] == W(block, n - 16) && x[(n + 1) % 16] == W(block, n - 15)
    ensures x[(n + 14) % 16] == W(block, n - 2) && x[(n + 9) % 16] == W(block, n - 7)
  {
    hide W, Rolling;
    RollingAt(x, block, n, 16);
    RollingAt(x, block, n, 15);
    RollingAt(x, block, n, 2);
    RollingAt(x, block, n, 7);
  }

  lemma ScheduleUnfold(block: seq<byte>, n: nat)
    requires |block| == 64 && 16 <= n < 64
    ensures W(block, n) == ScheduleWord(W(block, n - 2), W(block, n - 7), W(block, n - 15), W(block, n - 16))
  {
    hide ScheduleWord;
  }

  /** The first temporary of the second loop adds the schedule word first. */
  lemma T1Reordered(e: Word, f: Word, g: Word, h: Word, k: Word, w: Word)
    ensures Plus(w, Plus(Plus(Plus(h, BigSigma1(e)), Ch(e, f, g)), k)) == T1(e, f, g, h, k, w)
  {
    hide BigSigma1, Ch, Plus;
    PlusComm(w, Plus(Plus(Plus(h, BigSigma1(e)), Ch(e, f, g)), k));
  }

  /** The eight working variables after i rounds. */
  ghost predicate AfterRounds(start: seq<Word>, block: seq<byte>, i: nat,
                              a: Word, b: Word, c: Word, d: Word, e: Word, f: Word, g: Word, h: Word)
    requires |start| == 8 && |block| == 64 && i <= 64
  {
    [a, b, c, d, e, f, g, h] == Rounds(start, block, i)
  }

  lemma NextRound(start: seq<Word>, block: seq<byte>, i: nat,
                  a: Word, b: Word, c: Word, d: Word, e: Word, f: Word, g: Word, h: Word)
    requires |start| == 8 && |block| == 64 && i < 64 && AfterRounds(start, block, i, a, b, c, d, e, f, g, h)
    ensures var t1, t2 := T1(e, f, g, h, Constant(i), W(block, i)), T2(a, b, c);
      AfterRounds(start, block, i + 1, Plus(t1, t2), a, b, c, Plus(d, t1), e, f, g)
  {
    hide T1, T2, Plus, Rounds, W, Constant;
    RoundsStep(start, block, i);
  }

  method ProcessBlock(state: array<Word>, data: seq<byte>, at: nat)
    requires state.Length == 8 && at + 64 <= |data|
    modifies state
    ensures state[..] == Compress(old(state[..]), data[at..at + 64])
  {
    hide W, WordOf, WordFrom, Rolling, AfterRounds, Rounds, Constant, T1, T2, Plus, BigSigma1, RollingWord, Ch, Sum;
    ghost var block := data[at..at + 64];
    ghost var start := state[..];
    var a, b, c, d := state[0], state[1], state[2], state[3];
    var e, f, g, h := state[4], state[5], state[6], state[7];
    var x := new Word[16];
    RollingNothing(x[..], block);
    assert start == [a, b, c, d, e, f, g, h];
    BeforeRounds(block, a, b, c, d, e, f, g, h);
    for i := 0 to 16
      invariant state[..] == start && Rolling(x[..], block, i)
      invariant AfterRounds(start, block, i, a, b, c, d, e, f, g, h)
    {
      var o := at + 4 * i;
      var y := WordFrom(data[o], data[o + 1], data[o + 2], data[o + 3]);
      WordFromIsWordOf(data[o], data[o + 1], data[o + 2], data[o + 3]);
      FirstWords(block, i);
      RollingStep(x[..], block, i, y);
      ghost var was := x[..];
      x[i] := y;
      assert x[..] == was[i % 16 := y];
      NextRound(start, block, i, a, b, c, d, e, f, g, h);
      var t1, t2 := T1(e, f, g, h, Constant(i), y), T2(a, b, c);
      h, g, f, e := g, f, e, Plus(d, t1);
      d, c, b, a := c, b, a, Plus(t1, t2);
    }
    for i := 16 to 64
      invariant state[..] == start && Rolling(x[..], block, i)
      invariant AfterRounds(start, block, i, a, b, c, d, e, f, g, h)
    {
      RollingNext(x[..], block, i);
      var y := RollingWord(x[(i + 14) % 16], x[(i + 9) % 16], x[(i + 1) % 16], x[i % 16]);
      RollingStep(x[..], block, i, y);
      ghost var was := x[..];
      x[i % 16] := y;
      assert x[..] == was[i % 16 := y];
      NextRound(start, block, i, a, b, c, d, e, f, g, h);
      T1Reordered(e, f, g, h, Constant(i), y);
      var t1 := Plus(y, Plus(Plus(Plus(h, BigSigma1(e)), Ch(e, f, g)), Constant(i)));
      var t2 := T2(a, b, c);
      h, g, f, e := g, f, e, Plus(d, t1);
      d, c, b, a := c, b, a, Plus(t1, t2);
    }
    AfterAll(start, block, a, b, c, d, e, f, g, h);
    AddInto(state, [a, b, c, d, e, f, g, h]);
  }

  lemma BeforeRounds(block: seq<byte>, a: Word, b: Word, c: Word, d: Word, e: Word, f: Word, g: Word, h: Word)
    requires |block| == 64
    ensures AfterRounds([a, b, c, d, e, f, g, h], block, 0, a, b, c, d, e, f, g, h)
  {
  }

  lemma AfterAll(start: seq<Word>, block: seq<byte>,
                 a: Word, b: Word, c: Word, d: Word, e: Word, f: Word, g: Word, h: Word)
    requires |start| == 8 && |block| == 64 && AfterRounds(start, block, 64, a, b, c, d, e, f, g, h)
    ensures Compress(start, block) == Sum(start, [a, b, c, d, e, f, g, h])
  {
    hide Rounds, Sum;
  }

  lemma RollingNothing(x: seq<Word>, block: seq<byte>)
    requires |x| == 16 && |block| == 64
    ensures Rolling(x, block, 0)
  {
  }

  /** Whole blocks only: the rolling schedule computes the same fold as the 64-word one. */
  method Process(state: array<Word>, data: seq<byte>)
    requires state.Length == 8
    modifies state
    ensures state[..] == Fold(old(state[..]), data, |data| / 64)
  {
    hide Compress;
    var blocks := |data| / 64;
    for i := 0 to blocks
      invariant state[..] == Fold(old(state[..]), data, i)
    {
      ProcessBlock(state, data, 64 * i);
    }
  }
}
