/** The buffered SHA-256 context (benchmarks/sha256/cgminer.cpp): hashing a message given in chunks. */
module Sha256Stream {
  import opened Bytes
  import opened Sha256

  // ---- What the context stands for ----

  /**
   A context that has taken in the message m: whole blocks are folded into the hash, the rest is at the front of
   the buffer, and the length of the folded part is kept modulo 2^32.
   */
  ghost predicate Holds(m: seq<byte>, totLen: nat, len: nat, buf: seq<byte>, h: seq<Word>) {
    && |buf| == 128 && |h| == 8
    && len == |m| % 64 && totLen == (|m| - len) % U32
    && buf[..len] == m[|m| - len..]
    && h == Fold(Initial(), m, |m| / 64)
  }

  lemma StartHolds(buf: seq<byte>)
    requires |buf| == 128
    ensures Holds([], 0, 0, buf, Initial())
  {
  }

  lemma Split64(n: nat)
    ensures n == 64 * (n / 64) + n % 64
  {
  }

  /** Too little for a block: only the buffer grows. */
  lemma ShortHolds(m: seq<byte>, totLen: nat, len: nat, buf: seq<byte>, h: seq<Word>, chunk: seq<byte>, buf': seq<byte>)
    requires Holds(m, totLen, len, buf, h) && len + |chunk| < 64
    requires |buf'| == 128 && buf'[..len + |chunk|] == buf[..len] + chunk
    ensures Holds(m + chunk, totLen, len + |chunk|, buf', h)
  {
    hide Fold, Initial;
    var n := |m| / 64;
    Split64(|m|);
    DivisionIs(|m + chunk|, n, len + |chunk|);
    assert (m + chunk)[|m + chunk| - (len + |chunk|)..] == m[|m| - len..] + chunk;
    FoldShort(m, chunk, n);
  }

  lemma DivisionIs(x: nat, q: nat, r: nat)
    requires x == 64 * q + r && r < 64
    ensures x / 64 == q && x % 64 == r
  {
  }

  lemma FoldShort(m: seq<byte>, chunk: seq<byte>, n: nat)
    requires 64 * n <= |m|
    ensures Fold(Initial(), m + chunk, n) == Fold(Initial(), m, n)
  {
    hide Fold, Initial;
    assert (m + chunk)[..64 * n] == m[..64 * n];
    FoldPrefix(Initial(), m + chunk, m, n);
  }

  /** The filled buffer and then the whole blocks of the rest, folded in, are the blocks of the longer message. */
  lemma LongFold(m: seq<byte>, chunk: seq<byte>, n: nat, rem: nat, k: nat, buf: seq<byte>)
    requires 64 * n <= |m| && |m| - 64 * n + rem == 64 && rem <= |chunk| && 64 * k <= |chunk| - rem
    requires |buf| >= 64 && buf[..64] == m[64 * n..] + chunk[..rem]
    ensures |m + chunk| >= 64 * (n + 1 + k)
    ensures Fold(Fold(Fold(Initial(), m, n), buf, 1), chunk[rem..], k) == Fold(Initial(), m + chunk, n + 1 + k)
  {
    hide Fold, Initial;
    var m0, b, s := m[..64 * n], buf[..64], chunk[rem..];
    assert m0[..64 * n] == m[..64 * n];
    FoldPrefix(Initial(), m, m0, n);
    assert buf[..64 * 1] == b[..64 * 1];
    FoldPrefix(Fold(Initial(), m, n), buf, b, 1);
    FoldAppend(Initial(), m0, n, b, 1);
    FoldAppend(Initial(), m0 + b, n + 1, s, k);
    Parts(m, chunk, n, rem);
  }

  lemma Parts(m: seq<byte>, chunk: seq<byte>, n: nat, rem: nat)
    requires 64 * n <= |m| && rem <= |chunk|
    ensures m[..64 * n] + (m[64 * n..] + chunk[..rem]) + chunk[rem..] == m + chunk
  {
    assert m[..64 * n] + m[64 * n..] == m;
    assert chunk[..rem] + chunk[rem..] == chunk;
  }

  lemma LongHolds(m: seq<byte>, totLen: nat, len: nat, h: seq<Word>, chunk: seq<byte>, rem: nat, k: nat,
                  buf: seq<byte>, buf': seq<byte>)
    requires |m| % 64 == len && totLen == (|m| - len) % U32
    requires len < 64 && rem == 64 - len <= |chunk| && k == (|chunk| - rem) / 64
    requires h == Fold(Initial(), m, |m| / 64)
    requires |buf| == 128 && buf[..64] == m[|m| - len..] + chunk[..rem]
    requires |buf'| == 128 && buf'[..(|chunk| - rem) % 64] == chunk[rem + 64 * k..]
    ensures Holds(m + chunk, (totLen + (k + 1) * 64) % U32, (|chunk| - rem) % 64, buf',
      Fold(Fold(h, buf, 1), chunk[rem..], k))
  {
    hide Fold, Initial;
    var n, r := |m| / 64, (|chunk| - rem) % 64;
    Split64(|m|);
    Split64(|chunk| - rem);
    DivisionIs(|m + chunk|, n + 1 + k, r);
    LongFold(m, chunk, n, rem, k, buf);
    assert |m + chunk| - r == (|m| - len) + (k + 1) * 64;
    assert (m + chunk)[|m + chunk| - r..] == chunk[rem + 64 * k..];
    LengthSum(|m| - len, (k + 1) * 64);
  }

  lemma LengthSum(a: nat, b: nat)
    ensures (a % U32 + b) % U32 == (a + b) % U32
  {
  }

  // ---- The last blocks ----

  function LastBlocks(m: seq<byte>, len: nat, size: nat): seq<byte>
    requires len <= |m| && len + 9 <= size
  {
    m[|m| - len..] + [0x80] + Zeros(size - len - 9) + Zeros(4) + Four(8 * |m| % U32)
  }

  lemma ZeroCountIs(n: nat, len: nat, size: nat)
    requires len == n % 64 && size == if 55 < len then 128 else 64
    ensures len + 9 <= size && ZeroCount(n) == size - len - 9
  {
    Split64(n);
    if len <= 54 {
      DivisionIs(n + 9, n / 64, len + 9);
    } else {
      DivisionIs(n + 9, n / 64 + 1, len - 55);
    }
  }

  lemma FinalFold(m: seq<byte>, len: nat, size: nat)
    requires len == |m| % 64 && size == if 55 < len then 128 else 64
    ensures len + 9 <= size
    ensures |PadLow(m)| == 64 * (|m| / 64 + size / 64)
    ensures Fold(Initial(), PadLow(m), |m| / 64 + size / 64) ==
      Fold(Fold(Initial(), m, |m| / 64), LastBlocks(m, len, size), size / 64)
  {
    hide Fold, Initial, Zeros, Four;
    var n := |m| / 64;
    Split64(|m|);
    ZeroCountIs(|m|, len, size);
    var m0, last := m[..64 * n], LastBlocks(m, len, size);
    assert m0[..64 * n] == m[..64 * n];
    FoldPrefix(Initial(), m, m0, n);
    FoldAppend(Initial(), m0, n, last, size / 64);
    assert m == m0 + m[|m| - len..];
    PadParts(m0, m[|m| - len..], Zeros(size - len - 9), Zeros(4), Four(8 * |m| % U32));
  }

  lemma PadParts(a: seq<byte>, b: seq<byte>, z: seq<byte>, y: seq<byte>, f: seq<byte>)
    ensures (a + b) + [0x80] + z + y + f == a + (b + [0x80] + z + y + f)
  {
  }

  lemma BitLength(n: nat, totLen: nat, len: nat)
    requires len == n % 64 && totLen == (n - len) % U32
    ensures ((totLen + len) % U32) * 8 % U32 == 8 * n % U32
  {
    LengthSum(n - len, len);
    assert (totLen + len) % U32 == n % U32;
    TimesEight(n);
  }

  lemma TimesEight(n: nat)
    ensures (n % U32) * 8 % U32 == 8 * n % U32
  {
    assert n == U32 * (n / U32) + n % U32;
    assert 8 * n == (n % U32) * 8 + U32 * (8 * (n / U32));
    Multiple((n % U32) * 8, 8 * (n / U32));
  }

  lemma Multiple(a: nat, q: nat)
    ensures (a + U32 * q) % U32 == a % U32
  {
  }

  // ---- Buffers ----

  method CopyBytes(dst: array<byte>, at: nat, src: seq<byte>)
    requires at + |src| <= dst.Length
    modifies dst
    ensures dst[..] == old(dst[..at]) + src + old(dst[at + |src|..])
  {
    for i := 0 to |src|
      invariant forall j :: 0 <= j < dst.Length ==>
        dst[j] == if at <= j < at + i then src[j - at] else old(dst[j])
    {
      dst[at + i] := src[i];
    }
  }

  method FillZero(dst: array<byte>, from: nat, to: nat)
    requires from <= to <= dst.Length
    modifies dst
    ensures dst[..] == old(dst[..from]) + Zeros(to - from) + old(dst[to..])
  {
    for i := from to to
      invariant forall j :: 0 <= j < dst.Length ==> dst[j] == if from <= j < i then 0 else old(dst[j])
    {
      dst[i] := 0;
    }
  }

  lemma Overwritten(s: seq<byte>, at: nat, src: seq<byte>, t: seq<byte>)
    requires at + |src| <= |s| && t == s[..at] + src + s[at + |src|..]
    ensures |t| == |s| && t[..at + |src|] == s[..at] + src
  {
  }

  /** The buffer after the three writes of the last step is the last blocks, and something behind them. */
  lemma LastBuffer(s: seq<byte>, len: nat, size: nat, bits: seq<byte>)
    requires |s| == 128 && len + 9 <= size <= 128 && |bits| == 4
    ensures var z := s[..len] + Zeros(size - len) + s[size..];
      var o := z[..len] + [0x80] + z[len + 1..];
      var t := o[..size - 4] + bits + o[size..];
      |t| == 128 && t[..size] == s[..len] + [0x80] + Zeros(size - len - 9) + Zeros(4) + bits
  {
    var z := s[..len] + Zeros(size - len) + s[size..];
    var o := z[..len] + [0x80] + z[len + 1..];
    assert z[len + 1..size - 4] == Zeros(size - len - 9) + Zeros(4);
    assert o[..size - 4] == s[..len] + [0x80] + z[len + 1..size - 4];
  }

  class Sha256Context {
    var totLen: nat
    var len: nat
    const block: array<byte>
    const h: array<Word>
    /** The message taken in so far. */
    ghost var message: seq<byte>

    ghost predicate Valid()
      reads this, block, h
    {
      block.Length == 128 && h.Length == 8 && Holds(message, totLen, len, block[..], h[..])
    }

    constructor ()
      ensures Valid() && message == [] && fresh(block) && fresh(h)
    {
      block := new byte[128](_ => 0);
      h := new Word[8](i requires 0 <= i < 8 => H0[i]);
      len, totLen, message := 0, 0, [];
      new;
      assert h[..] == Initial();
      StartHolds(block[..]);
    }

    /** Takes in one more chunk, of any length whose byte offsets fit a signed 32-bit integer. */
    method Update(chunk: seq<byte>)
      requires Valid() && |chunk| <= 0x8000_0000
      modifies this, block, h
      ensures Valid() && message == old(message) + chunk
    {
      hide Holds, Fold, Initial;
      ghost var m, t, buf, hash := message, totLen, block[..], h[..];
      HoldsParts(m, t, len, buf, hash);
      var room := 64 - len;
      var rem := if |chunk| < room then |chunk| else room;
      CopyBytes(block, len, chunk[..rem]);
      Overwritten(buf, len, chunk[..rem], block[..]);
      assert h[..] == hash;
      message := m + chunk;
      if len + |chunk| < 64 {
        assert chunk[..rem] == chunk;
        ShortHolds(m, t, len, buf, hash, chunk, block[..]);
        len := len + |chunk|;
        return;
      }
      UpdateBlocks(chunk, rem, m);
    }

    /** The buffer is full: folds it and the whole blocks that follow, and keeps the rest. */
    method UpdateBlocks(chunk: seq<byte>, rem: nat, ghost m: seq<byte>)
      requires block.Length == 128 && h.Length == 8 && len < 64 && rem == 64 - len <= |chunk|
      requires |m| % 64 == len && totLen == (|m| - len) % U32 && h[..] == Fold(Initial(), m, |m| / 64)
      requires block[..][..64] == m[|m| - len..] + chunk[..rem] && message == m + chunk
      modifies this, block, h
      ensures Valid() && message == m + chunk
    {
      hide Holds, Fold, Initial;
      ghost var t, l, buf, hash := totLen, len, block[..], h[..];
      var newLen := |chunk| - rem;
      var blockCount := newLen / 64;
      var shifted := chunk[rem..];
      Split64(newLen);
      Transform(h, block[..], 1);
      assert block[..] == buf;
      Transform(h, shifted, blockCount);
      ghost var hash' := h[..];
      var rest := shifted[64 * blockCount..];
      CopyBytes(block, 0, rest);
      Overwritten(buf, 0, rest, block[..]);
      assert rest == chunk[rem + 64 * blockCount..];
      assert h[..] == hash';
      LongHolds(m, t, l, hash, chunk, rem, blockCount, buf, block[..]);
      len := newLen % 64;
      totLen := (totLen + (blockCount + 1) * 64) % U32;
    }

    /** The bit 1, zeros, and the low half of the length, behind the bytes that are left. */
    method PadBuffer(size: nat, bits: nat)
      requires block.Length == 128 && len + 9 <= size <= 128
      modifies block
      ensures block[..][..size] == old(block[..])[..len] + [0x80] + Zeros(size - len - 9) + Zeros(4) + Four(bits)
    {
      hide Four, Zeros;
      ghost var buf := block[..];
      FillZero(block, len, size);
      CopyBytes(block, len, [0x80]);
      CopyBytes(block, size - 4, Four(bits));
      LastBuffer(buf, len, size, Four(bits));
    }

    /**
     The digest: the hash of the message as padded here, which is the SHA-256 of the message whenever it is shorter
     than 2^29 bytes.
     */
    method Final() returns (digest: seq<byte>)
      requires Valid()
      modifies block, h
      ensures digest == DigestOf(PadLow(message))
      ensures |message| < 0x2000_0000 ==> digest == DigestOf(Pad(message))
    {
      hide Holds, Fold, Initial, Four, Zeros, LastBlocks, PadLow, Pad, HashBytes;
      ghost var m, buf, hash := message, block[..], h[..];
      HoldsParts(m, totLen, len, buf, hash);
      var blockCount := if 55 < len % 64 then 2 else 1;
      var bits := ((totLen + len) % U32) * 8 % U32;
      BitLength(|m|, totLen, len);
      var size := 64 * blockCount;
      FinalFold(m, len, size);
      PadBuffer(size, bits);
      LastBlocksAre(m, len, size, buf, block[..]);
      assert h[..] == hash;
      Transform(h, block[..], blockCount);
      FoldBuffer(hash, block[..], LastBlocks(m, len, size), blockCount);
      DigestIs(m, size, h[..]);
      digest := HashBytes(h[..]);
      if |m| < 0x2000_0000 {
        PadLowIff(m);
      }
    }
  }

  lemma HoldsParts(m: seq<byte>, totLen: nat, len: nat, buf: seq<byte>, h: seq<Word>)
    requires Holds(m, totLen, len, buf, h)
    ensures len == |m| % 64 && len < 64 && len <= |m| && totLen == (|m| - len) % U32 && |buf| == 128 && |h| == 8
    ensures buf[..len] == m[|m| - len..] && h == Fold(Initial(), m, |m| / 64)
  {
    hide Fold, Initial;
    Split64(|m|);
  }

  lemma LastBlocksAre(m: seq<byte>, len: nat, size: nat, buf: seq<byte>, t: seq<byte>)
    requires len <= |m| && len + 9 <= size <= 128 && |buf| == 128 && |t| == 128 && buf[..len] == m[|m| - len..]
    requires t[..size] == buf[..len] + [0x80] + Zeros(size - len - 9) + Zeros(4) + Four(8 * |m| % U32)
    ensures t[..size] == LastBlocks(m, len, size)
  {
  }

  lemma FoldBuffer(h: seq<Word>, t: seq<byte>, last: seq<byte>, n: nat)
    requires |h| == 8 && |t| >= 64 * n && t[..64 * n] == last
    ensures |last| == 64 * n && Fold(h, t, n) == Fold(h, last, n)
  {
    hide Fold;
    assert last[..64 * n] == last;
    FoldPrefix(h, t, last, n);
  }

  lemma DigestIs(m: seq<byte>, size: nat, h: seq<Word>)
    requires size % 64 == 0 && |PadLow(m)| == 64 * (|m| / 64 + size / 64)
    requires h == Fold(Initial(), PadLow(m), |m| / 64 + size / 64)
    ensures DigestOf(PadLow(m)) == HashBytes(h)
  {
    hide Fold, Initial, HashBytes, PadLow;
  }

  /** Takes in all the chunks, one after the other. */
  function Joined(chunks: seq<seq<byte>>): seq<byte> {
    if chunks == [] then [] else Joined(chunks[..|chunks| - 1]) + chunks[|chunks| - 1]
  }

  /** The digest does not depend on how the message is cut into chunks. */
  method HashChunks(chunks: seq<seq<byte>>) returns (digest: seq<byte>)
    requires forall i :: 0 <= i < |chunks| ==> |chunks[i]| <= 0x8000_0000
    ensures digest == DigestOf(PadLow(Joined(chunks)))
    ensures |Joined(chunks)| < 0x2000_0000 ==> digest == DigestOf(Pad(Joined(chunks)))
  {
    hide PadLow, Pad, DigestOf, Joined, Holds;
    var ctx := new Sha256Context();
    assert chunks[..0] == [];
    NoChunks();
    for i := 0 to |chunks|
      invariant ctx.Valid() && ctx.message == Joined(chunks[..i])
      invariant fresh(ctx) && fresh(ctx.block) && fresh(ctx.h)
    {
      JoinStep(chunks, i);
      ctx.Update(chunks[i]);
    }
    assert chunks[..|chunks|] == chunks;
    digest := ctx.Final();
  }

  lemma NoChunks()
    ensures Joined([]) == []
  {
  }

  lemma JoinStep(chunks: seq<seq<byte>>, i: nat)
    requires i < |chunks|
    ensures Joined(chunks[..i + 1]) == Joined(chunks[..i]) + chunks[i]
  {
    assert chunks[..i + 1][..i] == chunks[..i];
  }
}
