/**
 Shamir secret sharing of a 32-byte key over GF(2^8), on bitsliced words (libraries/sss/hazmat.c).
 Operands that the source reads and never overlaps with the result are passed as values.
 */
module SecretSharing {
  import opened Gf256
  import opened Bitslice
  import opened Lagrange

  datatype KeyShare = KeyShare(x: bv8, y: seq<bv8>)

  // ---- Conversion between bytes and slices ----

  /** The bit `from` of `w`, moved to bit `to`. */
  function MoveBit(w: bv32, from: nat, to: nat): bv32
    requires from < LANES && to < LANES
  {
    Extract(w, from) << to
  }

  lemma BitOfMoved(w: bv32, from: nat, to: nat, i: nat)
    requires from < LANES && to < LANES && i < LANES
    ensures Bit(MoveBit(w, from, to), i) == (i == to && Bit(w, from))
  {
    hide Bit, Extract;
    ExtractIs(w, from);
    BitOfShifted(Extract(w, from), to, i);
  }

  /** The bit `from` of `w`, moved to bit 0. */
  function Extract(w: bv32, from: nat): bv32
    requires from < LANES
  {
    (w & (1 << from)) >> from
  }

  lemma RawExtract(w: bv32, from: nat)
    requires from < LANES
    ensures (w & (1 << from)) >> from == if w & (1 << from) != 0 then 1 else 0
  {
  }

  lemma ExtractIs(w: bv32, from: nat)
    requires from < LANES
    ensures Extract(w, from) == if Bit(w, from) then 1 else 0
  {
    RawExtract(w, from);
  }

  lemma MovedIsByte(w: bv32, from: nat, to: nat)
    requires from < LANES && to < 8
    ensures MoveBit(w, from, to) < 256
  {
  }

  /** The low byte of `m`, or'ed into `r`. */
  function OrByte(r: bv8, m: bv32): bv8 {
    r | ((m & 0xff) as bv8)
  }

  lemma OrAsWord(r: bv8, m: bv32)
    requires m < 256
    ensures OrByte(r, m) as bv32 == OrWord(r as bv32, m)
  {
  }

  /** Bit j of a byte. */
  predicate ByteBit(x: bv8, j: nat)
    requires j < 8
  {
    Bit(x as bv32, j)
  }

  lemma PackByteBits(x: bv8)
    ensures Pack(ByteBit(x, 0), ByteBit(x, 1), ByteBit(x, 2), ByteBit(x, 3),
                 ByteBit(x, 4), ByteBit(x, 5), ByteBit(x, 6), ByteBit(x, 7)) == x
  {
  }

  lemma PackEqual(a0: bool, a1: bool, a2: bool, a3: bool, a4: bool, a5: bool, a6: bool, a7: bool,
                  b0: bool, b1: bool, b2: bool, b3: bool, b4: bool, b5: bool, b6: bool, b7: bool)
    requires a0 == b0 && a1 == b1 && a2 == b2 && a3 == b3 && a4 == b4 && a5 == b5 && a6 == b6 && a7 == b7
    ensures Pack(a0, a1, a2, a3, a4, a5, a6, a7) == Pack(b0, b1, b2, b3, b4, b5, b6, b7)
  {
  }

  /** A lane is a byte when their eight bits agree. */
  lemma LaneIsByte(s: seq<bv32>, i: nat, x: bv8)
    requires |s| == 8 && i < LANES
    requires forall j :: 0 <= j < 8 ==> Bit(s[j], i) == ByteBit(x, j)
    ensures Lane(s, i) == x
  {
    hide Bit, ByteBit, Pack;
    PackEqual(Bit(s[0], i), Bit(s[1], i), Bit(s[2], i), Bit(s[3], i), Bit(s[4], i), Bit(s[5], i), Bit(s[6], i), Bit(s[7], i),
              ByteBit(x, 0), ByteBit(x, 1), ByteBit(x, 2), ByteBit(x, 3), ByteBit(x, 4), ByteBit(x, 5), ByteBit(x, 6), ByteBit(x, 7));
    PackByteBits(x);
  }

  lemma BitslicedStep(w: bv32, x: bv8, j: nat, a: nat, i: nat)
    requires j < 8 && a < LANES && i < LANES
    ensures Bit(OrWord(w, MoveBit(x as bv32, j, a)), i) == (Bit(w, i) || (i == a && ByteBit(x, j)))
  {
    hide Bit, MoveBit, OrWord, OrByte;
    BitOr(w, MoveBit(x as bv32, j, a), i);
    BitOfMoved(x as bv32, j, a, i);
  }

  lemma UnbitslicedStep(r: bv8, w: bv32, i: nat, j: nat, b: nat)
    requires i < LANES && j < 8 && b < 8
    ensures ByteBit(OrByte(r, MoveBit(w, i, j)), b) == (ByteBit(r, b) || (b == j && Bit(w, i)))
  {
    hide Bit, MoveBit, OrWord, OrByte;
    MovedIsByte(w, i, j);
    OrAsWord(r, MoveBit(w, i, j));
    BitOr(r as bv32, MoveBit(w, i, j), b);
    BitOfMoved(w, i, j, b);
  }

  /** The bits of bytes 0..a-1 of `x`, and the bits below b of byte a, are in their lanes; the rest is zero. */
  ghost predicate SlicedUpTo(s: seq<bv32>, x: seq<bv8>, a: nat, b: nat) {
    && |s| == 8 && |x| == LANES
    && forall i, j :: 0 <= i < LANES && 0 <= j < 8 ==>
      Bit(s[j], i) == ((i < a || (i == a && j < b)) && ByteBit(x[i], j))
  }

  lemma SlicedStep(s: seq<bv32>, x: seq<bv8>, a: nat, b: nat)
    requires SlicedUpTo(s, x, a, b) && a < LANES && b < 8
    ensures SlicedUpTo(s[b := OrWord(s[b], MoveBit(x[a] as bv32, b, a))], x, a, b + 1)
  {
    hide Bit, MoveBit, ByteBit, OrWord;
    forall i | 0 <= i < LANES
      ensures Bit(OrWord(s[b], MoveBit(x[a] as bv32, b, a)), i) == (Bit(s[b], i) || (i == a && ByteBit(x[a], b)))
    {
      BitslicedStep(s[b], x[a], b, a, i);
    }
  }

  /** Writes the 32 bytes of `x` to the lanes of `r`. */
  method ToSlices(r: array<bv32>, x: seq<bv8>)
    requires r.Length == 8 && |x| == LANES
    modifies r
    ensures forall i :: 0 <= i < LANES ==> Lane(r[..], i) == x[i]
  {
    hide Bit, MoveBit, ByteBit, Lane, OrWord, SlicedUpTo;
    for j := 0 to 8
      invariant forall m :: 0 <= m < j ==> r[m] == 0
    {
      r[j] := 0;
    }
    SlicedStart(r[..], x);
    for a := 0 to LANES
      invariant SlicedUpTo(r[..], x, a, 0)
    {
      for b := 0 to 8
        invariant SlicedUpTo(r[..], x, a, b)
      {
        SlicedStep(r[..], x, a, b);
        ghost var before := r[..];
        r[b] := OrWord(r[b], MoveBit(x[a] as bv32, b, a));
        assert r[..] == before[b := r[b]];
      }
      SlicedNext(r[..], x, a);
    }
    SlicedEnd(r[..], x);
  }

  lemma SlicedStart(s: seq<bv32>, x: seq<bv8>)
    requires |s| == 8 && |x| == LANES && forall m :: 0 <= m < 8 ==> s[m] == 0
    ensures SlicedUpTo(s, x, 0, 0)
  {
    hide Bit, ByteBit;
    forall i | 0 <= i < LANES ensures !Bit(0, i) {
      BitConstants(i);
    }
  }

  lemma SlicedNext(s: seq<bv32>, x: seq<bv8>, a: nat)
    requires SlicedUpTo(s, x, a, 8)
    ensures SlicedUpTo(s, x, a + 1, 0)
  {
    hide Bit, ByteBit;
  }

  lemma SlicedEnd(s: seq<bv32>, x: seq<bv8>)
    requires SlicedUpTo(s, x, LANES, 0)
    ensures forall i :: 0 <= i < LANES ==> Lane(s, i) == x[i]
  {
    hide Bit, ByteBit, Lane;
    forall i | 0 <= i < LANES ensures Lane(s, i) == x[i] {
      LaneIsByte(s, i, x[i]);
    }
  }

  /** Bits 0..b-1 of every lane of `x`, and bit b of the lanes below a, are in the bytes; the rest is zero. */
  ghost predicate BytesUpTo(r: seq<bv8>, x: seq<bv32>, b: nat, a: nat) {
    && |r| == LANES && |x| == 8
    && forall i, j :: 0 <= i < LANES && 0 <= j < 8 ==>
      ByteBit(r[i], j) == ((j < b || (j == b && i < a)) && Bit(x[j], i))
  }

  lemma BytesStep(r: seq<bv8>, x: seq<bv32>, b: nat, a: nat)
    requires BytesUpTo(r, x, b, a) && a < LANES && b < 8
    ensures BytesUpTo(r[a := OrByte(r[a], MoveBit(x[b], a, b))], x, b, a + 1)
  {
    hide Bit, MoveBit, ByteBit, OrByte;
    forall j | 0 <= j < 8
      ensures ByteBit(OrByte(r[a], MoveBit(x[b], a, b)), j) == (ByteBit(r[a], j) || (j == b && Bit(x[b], a)))
    {
      UnbitslicedStep(r[a], x[b], a, b, j);
    }
  }

  /** Writes the lanes of `x` to the 32 bytes of `r`. */
  method FromSlices(r: array<bv8>, x: seq<bv32>)
    requires r.Length == LANES && |x| == 8
    modifies r
    ensures forall i :: 0 <= i < LANES ==> r[i] == Lane(x, i)
  {
    hide Bit, MoveBit, ByteBit, Lane, OrByte, BytesUpTo;
    for i := 0 to LANES
      invariant forall m :: 0 <= m < i ==> r[m] == 0
    {
      r[i] := 0;
    }
    BytesStart(r[..], x);
    for b := 0 to 8
      invariant BytesUpTo(r[..], x, b, 0)
    {
      for a := 0 to LANES
        invariant BytesUpTo(r[..], x, b, a)
      {
        BytesStep(r[..], x, b, a);
        ghost var before := r[..];
        r[a] := OrByte(r[a], MoveBit(x[b], a, b));
        assert r[..] == before[a := r[a]];
      }
      BytesNext(r[..], x, b);
    }
    BytesEnd(r[..], x);
    assert forall i :: 0 <= i < LANES ==> r[..][i] == r[i];
  }

  lemma BytesStart(r: seq<bv8>, x: seq<bv32>)
    requires |r| == LANES && |x| == 8 && forall m :: 0 <= m < LANES ==> r[m] == 0
    ensures BytesUpTo(r, x, 0, 0)
  {
    hide Bit, ByteBit;
    forall j | 0 <= j < 8 ensures !ByteBit(0, j) {
      ZeroByte(j);
    }
  }

  lemma BytesNext(r: seq<bv8>, x: seq<bv32>, b: nat)
    requires BytesUpTo(r, x, b, LANES)
    ensures BytesUpTo(r, x, b + 1, 0)
  {
    hide Bit, ByteBit;
  }

  lemma BytesEnd(r: seq<bv8>, x: seq<bv32>)
    requires BytesUpTo(r, x, 8, 0)
    ensures forall i :: 0 <= i < LANES ==> r[i] == Lane(x, i)
  {
    hide Bit, ByteBit, Lane;
    forall i | 0 <= i < LANES ensures r[i] == Lane(x, i) {
      LaneIsByte(x, i, r[i]);
    }
  }

  lemma ZeroByte(j: nat)
    requires j < 8
    ensures !ByteBit(0, j)
  {
    BitConstants(j);
  }

  /** The bit shifted to the sign position and spread by an arithmetic shift: all ones or all zeros. */
  function SpreadBit(x: bv8, j: nat): bv32
    requires j < 8
  {
    if (((x as bv32) & (1 << j)) << (31 - j)) & 0x8000_0000 != 0 then 0xffff_ffff else 0
  }

  lemma BitOfSpread(x: bv8, j: nat, i: nat)
    requires j < 8 && i < LANES
    ensures Bit(SpreadBit(x, j), i) == ByteBit(x, j)
  {
    BitConstants(i);
    assert SpreadBit(x, j) == if ByteBit(x, j) then 0xffff_ffff else 0;
  }

  /** Puts the byte `x` in every lane. */
  method SetAll(r: array<bv32>, x: bv8)
    requires r.Length == 8
    modifies r
    ensures forall i :: 0 <= i < LANES ==> Lane(r[..], i) == x
  {
    hide SpreadBit, Bit, ByteBit, Lane;
    for j := 0 to 8
      invariant forall m :: 0 <= m < j ==> r[m] == SpreadBit(x, m)
    {
      r[j] := SpreadBit(x, j);
    }
    forall i | 0 <= i < LANES ensures Lane(r[..], i) == x {
      forall j | 0 <= j < 8 ensures Bit(r[..][j], i) == ByteBit(x, j) { BitOfSpread(x, j, i); }
      LaneIsByte(r[..], i, x);
    }
  }

  // ---- Field arithmetic on all lanes ----

  /** The bit formula of squaring, on slices. */
  function SquareSlices(x: seq<bv32>): (s: seq<bv32>)
    requires |x| == 8
    ensures |s| == 8
  {
    var r8, r10 := XorWord(x[4], x[6]), XorWord(x[5], x[7]);
    [XorWord(x[0], r8), XorWord(x[7], r8), XorWord(XorWord(x[1], r10), x[7]), XorWord(r10, r8),
     XorWord(XorWord(XorWord(x[2], x[6]), x[7]), r8), XorWord(XorWord(x[6], r10), x[7]),
     XorWord(XorWord(x[3], x[7]), r10), XorWord(x[7], x[6])]
  }

  lemma LaneSquare(x: seq<bv32>, i: nat)
    requires |x| == 8 && i < LANES
    ensures Lane(SquareSlices(x), i) == Mul(Lane(x, i), Lane(x, i))
  {
    hide Bit, Pack, XorWord, Square, Mul;
    var r8, r10 := XorWord(x[4], x[6]), XorWord(x[5], x[7]);
    BitXor(x[4], x[6], i);
    BitXor(x[5], x[7], i);
    BitXor(x[0], r8, i);
    BitXor(x[7], r8, i);
    BitXor(x[1], r10, i);
    BitXor(XorWord(x[1], r10), x[7], i);
    BitXor(r10, r8, i);
    BitXor(x[2], x[6], i);
    BitXor(XorWord(x[2], x[6]), x[7], i);
    BitXor(XorWord(XorWord(x[2], x[6]), x[7]), r8, i);
    BitXor(x[6], r10, i);
    BitXor(XorWord(x[6], r10), x[7], i);
    BitXor(x[3], x[7], i);
    BitXor(XorWord(x[3], x[7]), r10, i);
    BitXor(x[7], x[6], i);
    PackSquare(Bit(x[0], i), Bit(x[1], i), Bit(x[2], i), Bit(x[3], i), Bit(x[4], i), Bit(x[5], i), Bit(x[6], i), Bit(x[7], i));
    SquareIsMul(Lane(x, i));
  }

  method GfAdd(r: array<bv32>, x: seq<bv32>)
    requires r.Length == |x| == 8
    modifies r
    ensures r[..] == Xor(old(r[..]), x)
    ensures forall i :: 0 <= i < LANES ==> Lane(r[..], i) == Add(Lane(old(r[..]), i), Lane(x, i))
  {
    hide XorWord, Lane, Add;
    for j := 0 to 8
      invariant forall m :: 0 <= m < 8 ==> r[m] == if m < j then XorWord(old(r[m]), x[m]) else old(r[m])
    {
      r[j] := XorWord(r[j], x[j]);
    }
    assert r[..] == Xor(old(r[..]), x);
    forall i | 0 <= i < LANES ensures Lane(r[..], i) == Add(Lane(old(r[..]), i), Lane(x, i)) {
      LaneXor(old(r[..]), x, i);
    }
  }

  /** An index counted round the eight slices. */
  function Round(n: nat): (m: nat)
    requires n < 16
    ensures m < 8
  {
    if n < 8 then n else n - 8
  }

  /** Slice j of the running multiple of `a` is kept k places further round. */
  function Rotate(s: seq<bv32>, k: nat): (t: seq<bv32>)
    requires |s| == 8 && k < 8
    ensures |t| == 8
  {
    [s[Round(8 - k)], s[Round(9 - k)], s[Round(10 - k)], s[Round(11 - k)],
     s[Round(12 - k)], s[Round(13 - k)], s[Round(14 - k)], s[Round(15 - k)]]
  }

  /** The top slice added into three slices, seen one place further round, is the multiple by x. */
  ghost predicate RotatesByTimes(s: seq<bv32>, k: nat)
    requires |s| == 8 && 1 <= k < 8
  {
    var top := s[8 - k];
    var u := s[Round(9 - k) := XorWord(s[Round(9 - k)], top)];
    var v := u[Round(11 - k) := XorWord(s[Round(11 - k)], top)];
    var w := v[Round(12 - k) := XorWord(s[Round(12 - k)], top)];
    Rotate(w, k) == Times(Rotate(s, k - 1))
  }

  lemma RotateTimes(s: seq<bv32>, k: nat)
    requires |s| == 8 && 1 <= k < 8
    ensures RotatesByTimes(s, k)
  {
    hide RotatesByTimes;
    if k <= 2 {
      RotateTimesLow(s, k);
    } else if k <= 4 {
      RotateTimesMiddle(s, k);
    } else if k <= 6 {
      RotateTimesHigh(s, k);
    } else {
      RotateTimesLast(s, k);
    }
  }

  lemma RotateTimesLow(s: seq<bv32>, k: nat)
    requires |s| == 8 && 1 <= k <= 2
    ensures RotatesByTimes(s, k)
  {
    hide XorWord;
    if k == 1 {
    }
  }

  lemma RotateTimesMiddle(s: seq<bv32>, k: nat)
    requires |s| == 8 && 3 <= k <= 4
    ensures RotatesByTimes(s, k)
  {
    hide XorWord;
    if k == 3 {
    }
  }

  lemma RotateTimesHigh(s: seq<bv32>, k: nat)
    requires |s| == 8 && 5 <= k <= 6
    ensures RotatesByTimes(s, k)
  {
    hide XorWord;
    if k == 5 {
    }
  }

  lemma RotateTimesLast(s: seq<bv32>, k: nat)
    requires |s| == 8 && k == 7
    ensures RotatesByTimes(s, k)
  {
    hide XorWord;
  }

  /** Reduction in place: the top slice is added to slices 0, 2 and 3 and, one place further round, becomes slice 0. */
  method Reduce(a2: array<bv32>, k: nat)
    requires a2.Length == 8 && 1 <= k < 8
    modifies a2
    ensures Rotate(a2[..], k) == Times(Rotate(old(a2[..]), k - 1))
  {
    hide XorWord, Rotate, Times;
    ghost var s := a2[..];
    a2[Round(9 - k)] := XorWord(a2[Round(9 - k)], a2[8 - k]);
    ghost var u := s[Round(9 - k) := XorWord(s[Round(9 - k)], s[8 - k])];
    assert a2[..] == u;
    a2[Round(11 - k)] := XorWord(a2[Round(11 - k)], a2[8 - k]);
    ghost var v := u[Round(11 - k) := XorWord(s[Round(11 - k)], s[8 - k])];
    assert a2[..] == v;
    a2[Round(12 - k)] := XorWord(a2[Round(12 - k)], a2[8 - k]);
    assert a2[..] == v[Round(12 - k) := XorWord(s[Round(12 - k)], s[8 - k])];
    RotateTimes(s, k);
  }

  /** Adds the running multiple to the accumulator, in the lanes whose bit in `w` is set. */
  method Accumulate(r: array<bv32>, a2: array<bv32>, w: bv32, k: nat)
    requires r.Length == a2.Length == 8 && r != a2 && 1 <= k < 8
    modifies r
    ensures r[..] == Xor(old(r[..]), Mask(Rotate(a2[..], k), w))
  {
    hide XorWord, AndWord;
    forall j | 0 <= j < 8 {
      r[j] := XorWord(r[j], AndWord(a2[Round(j + 8 - k)], w));
    }
  }

  /** The accumulator holds the terms of the product below bit k; the remaining ones build on x times `t`. */
  ghost predicate PartialProduct(r: seq<bv32>, t: seq<bv32>, a: seq<bv32>, b: seq<bv32>, k: nat)
    requires |r| == |t| == |a| == |b| == 8 && k <= 8
  {
    forall i :: 0 <= i < LANES ==>
      Add(Lane(r, i), Mul(Xtime(Lane(t, i)), ShiftRight(Lane(b, i), k))) == Mul(Lane(a, i), Lane(b, i))
  }

  lemma FirstRound(a: seq<bv32>, b: seq<bv32>)
    requires |a| == |b| == 8
    ensures PartialProduct(Mask(a, b[0]), a, a, b, 1)
  {
    hide Lane, Mul, Add, Xtime, ShiftRight, Mask;
    forall i | 0 <= i < LANES
      ensures Add(Lane(Mask(a, b[0]), i), Mul(Xtime(Lane(a, i)), ShiftRight(Lane(b, i), 1))) == Mul(Lane(a, i), Lane(b, i))
    {
      MulLaneFirst(a, b, i);
    }
  }

  lemma NextRound(r: seq<bv32>, t: seq<bv32>, a: seq<bv32>, b: seq<bv32>, k: nat)
    requires |r| == |t| == |a| == |b| == 8 && k < 8 && PartialProduct(r, t, a, b, k)
    ensures PartialProduct(Xor(r, Mask(Times(t), b[k])), Times(t), a, b, k + 1)
  {
    hide Lane, Mul, Add, Xtime, ShiftRight, Times, Xor, Mask;
    var r' := Xor(r, Mask(Times(t), b[k]));
    forall i | 0 <= i < LANES
      ensures Add(Lane(r', i), Mul(Xtime(Lane(Times(t), i)), ShiftRight(Lane(b, i), k + 1))) == Mul(Lane(a, i), Lane(b, i))
    {
      LaneTimes(t, i);
      MulLaneStep(r, Times(t), b, k, i);
    }
  }

  lemma LastRound(r: seq<bv32>, t: seq<bv32>, a: seq<bv32>, b: seq<bv32>)
    requires |r| == |t| == |a| == |b| == 8 && PartialProduct(r, t, a, b, 8)
    ensures forall i :: 0 <= i < LANES ==> Lane(r, i) == Mul(Lane(a, i), Lane(b, i))
  {
    hide Lane, Mul, Add, Xtime, ShiftRight;
    forall i | 0 <= i < LANES ensures Lane(r, i) == Mul(Lane(a, i), Lane(b, i)) {
      ShiftEnds(Lane(b, i));
      MulZeroRight(Xtime(Lane(t, i)));
      AddZero(Lane(r, i));
    }
  }

  /**
   The eight rounds of Russian peasant multiplication. The source unrolls them; the slices of the running
   multiple rotate by one place in each round. `r` may be the array `a`.
   */
  method GfMul(r: array<bv32>, a: array<bv32>, b: seq<bv32>)
    requires r.Length == a.Length == |b| == 8
    modifies r
    ensures forall i :: 0 <= i < LANES ==> Lane(r[..], i) == Mul(Lane(old(a[..]), i), Lane(b, i))
  {
    hide AndWord, Lane, Mul, PartialProduct, Times, Xor;
    ghost var a0 := a[..];
    var a2 := new bv32[8];
    forall j | 0 <= j < 8 {
      a2[j] := a[j];
    }
    assert a2[..] == a0 && Rotate(a2[..], 0) == a0;
    forall j | 0 <= j < 8 {
      r[j] := AndWord(a2[j], b[0]);
    }
    assert r[..] == Mask(a0, b[0]);
    FirstRound(a0, b);
    for k := 1 to 8
      invariant PartialProduct(r[..], Rotate(a2[..], k - 1), a0, b, k)
    {
      ghost var t, r0 := Rotate(a2[..], k - 1), r[..];
      Reduce(a2, k);
      Accumulate(r, a2, b[k], k);
      NextRound(r0, t, a0, b, k);
    }
    LastRound(r[..], Rotate(a2[..], 7), a0, b);
  }

  /** The four low coefficients move to the even places; `r` may be the array `x`. */
  method SpreadLow(r: array<bv32>, x: array<bv32>)
    requires r.Length == x.Length == 8
    modifies r
    ensures r[0] == old(x[0]) && r[2] == old(x[1]) && r[4] == old(x[2]) && r[6] == old(x[3])
  {
    r[6] := x[3];
    r[4] := x[2];
    r[2] := x[1];
    r[0] := x[0];
  }

  /** Reduction of the coefficients of x^14, x^12, x^10 and x^8 into the low eight. */
  method ReduceSquare(r: array<bv32>, r14: bv32, r12: bv32, x10: bv32, x8: bv32)
    requires r.Length == 8
    modifies r
    ensures r[0] == XorWord(old(r[0]), XorWord(x8, r12))
    ensures r[1] == XorWord(r14, XorWord(x8, r12))
    ensures r[2] == XorWord(XorWord(old(r[2]), XorWord(x10, r14)), r14)
    ensures r[3] == XorWord(XorWord(x10, r14), XorWord(x8, r12))
    ensures r[4] == XorWord(XorWord(XorWord(old(r[4]), r12), r14), XorWord(x8, r12))
    ensures r[5] == XorWord(XorWord(r12, XorWord(x10, r14)), r14)
    ensures r[6] == XorWord(XorWord(old(r[6]), r14), XorWord(x10, r14))
    ensures r[7] == XorWord(r14, r12)
  {
    hide XorWord;
    ReduceHigh(r, r14, r12, XorWord(x10, r14));
    ReduceLow(r, r14, XorWord(x10, r14), XorWord(x8, r12));
  }

  /** The first half: the coefficients of x^14, x^12 and, once, x^10. */
  method ReduceHigh(r: array<bv32>, r14: bv32, r12: bv32, r10: bv32)
    requires r.Length == 8
    modifies r
    ensures r[0] == old(r[0]) && r[2] == XorWord(old(r[2]), r10) && r[3] == r10
    ensures r[4] == XorWord(old(r[4]), r12) && r[5] == XorWord(r12, r10)
    ensures r[6] == XorWord(old(r[6]), r14) && r[7] == XorWord(r14, r12)
  {
    hide XorWord;
    r[7] := r14;
    r[6] := XorWord(r[6], r14);
    r[4] := XorWord(r[4], r12);
    r[5] := r12;
    r[7] := XorWord(r[7], r12);
    r[2] := XorWord(r[2], r10);
    r[3] := r10;
    r[5] := XorWord(r[5], r10);
  }

  /** The second half: what the reduction of these adds again, and x^8. */
  method ReduceLow(r: array<bv32>, r14: bv32, r10: bv32, r8: bv32)
    requires r.Length == 8
    modifies r
    ensures r[0] == XorWord(old(r[0]), r8) && r[1] == XorWord(r14, r8) && r[2] == XorWord(old(r[2]), r14)
    ensures r[3] == XorWord(old(r[3]), r8) && r[4] == XorWord(XorWord(old(r[4]), r14), r8)
    ensures r[5] == XorWord(old(r[5]), r14) && r[6] == XorWord(old(r[6]), r10) && r[7] == old(r[7])
  {
    hide XorWord;
    r[6] := XorWord(r[6], r10);
    r[1] := r14;
    r[2] := XorWord(r[2], r14);
    r[4] := XorWord(r[4], r14);
    r[5] := XorWord(r[5], r14);
    r[0] := XorWord(r[0], r8);
    r[1] := XorWord(r[1], r8);
    r[3] := XorWord(r[3], r8);
    r[4] := XorWord(r[4], r8);
  }

  /** Squares every lane; `r` may be the array `x`. */
  method GfSquare(r: array<bv32>, x: array<bv32>)
    requires r.Length == x.Length == 8
    modifies r
    ensures forall i :: 0 <= i < LANES ==> Lane(r[..], i) == Mul(Lane(old(x[..]), i), Lane(old(x[..]), i))
  {
    hide Lane, Mul, XorWord;
    ghost var x0 := x[..];
    var r14, r12, r10, r8 := x[7], x[6], x[5], x[4];
    SpreadLow(r, x);
    ReduceSquare(r, r14, r12, r10, r8);
    assert r[..] == SquareSlices(x0);
    forall i | 0 <= i < LANES ensures Lane(r[..], i) == Mul(Lane(x0, i), Lane(x0, i)) {
      LaneSquare(x0, i);
    }
  }

  // ---- Inversion ----

  ghost predicate LanesArePowers(s: seq<bv32>, x: seq<bv32>, n: nat)
    requires |s| == |x| == 8
  {
    forall i :: 0 <= i < LANES ==> Lane(s, i) == Pow(Lane(x, i), n)
  }

  lemma MultiplyPowers(u: seq<bv32>, s: seq<bv32>, t: seq<bv32>, x: seq<bv32>, m: nat, n: nat)
    requires |u| == |s| == |t| == |x| == 8
    requires LanesArePowers(s, x, m) && LanesArePowers(t, x, n)
    requires forall i :: 0 <= i < LANES ==> Lane(u, i) == Mul(Lane(s, i), Lane(t, i))
    ensures LanesArePowers(u, x, m + n)
  {
    hide Lane, Mul, Pow;
    forall i | 0 <= i < LANES ensures Lane(u, i) == Pow(Lane(x, i), m + n) {
      PowAdd(Lane(x, i), m, n);
    }
  }

  lemma FirstPower(x: seq<bv32>)
    requires |x| == 8
    ensures LanesArePowers(x, x, 1)
  {
    hide Lane, Pow;
    forall i | 0 <= i < LANES ensures Lane(x, i) == Pow(Lane(x, i), 1) {
      PowOne(Lane(x, i));
    }
  }

  method SquarePower(r: array<bv32>, x: array<bv32>, ghost base: seq<bv32>, ghost n: nat)
    requires r.Length == x.Length == |base| == 8 && LanesArePowers(x[..], base, n)
    modifies r
    ensures LanesArePowers(r[..], base, 2 * n)
  {
    hide Lane, Mul, LanesArePowers;
    ghost var x0 := x[..];
    GfSquare(r, x);
    MultiplyPowers(r[..], x0, x0, base, n, n);
  }

  method MulPower(r: array<bv32>, a: array<bv32>, b: seq<bv32>, ghost base: seq<bv32>, ghost m: nat, ghost n: nat)
    requires r.Length == a.Length == |b| == |base| == 8
    requires LanesArePowers(a[..], base, m) && LanesArePowers(b, base, n)
    modifies r
    ensures LanesArePowers(r[..], base, m + n)
  {
    hide Lane, Mul, LanesArePowers;
    ghost var a0 := a[..];
    GfMul(r, a, b);
    MultiplyPowers(r[..], a0, b, base, m, n);
  }

  method PowerTo25(r: array<bv32>, x: array<bv32>, y: array<bv32>, ghost base: seq<bv32>)
    requires r.Length == x.Length == y.Length == |base| == 8 && r != x && r != y && x != y
    requires LanesArePowers(x[..], base, 1)
    modifies r, y
    ensures LanesArePowers(y[..], base, 4) && LanesArePowers(r[..], base, 25)
  {
    hide LanesArePowers;
    var z := new bv32[8];
    SquarePower(y, x, base, 1);
    SquarePower(y, y, base, 2);
    SquarePower(r, y, base, 4);
    MulPower(z, r, x[..], base, 8, 1);
    SquarePower(r, r, base, 8);
    MulPower(r, r, z[..], base, 16, 9);
  }

  /** The addition chain 2, 4, 8, 9, 16, 25, 50, 100, 200, 250, 254. */
  method GfInv(r: array<bv32>, x: array<bv32>)
    requires r.Length == x.Length == 8 && r != x
    modifies r
    ensures forall i :: 0 <= i < LANES ==> Lane(r[..], i) == Inv(Lane(old(x[..]), i))
  {
    hide Lane, Pow, LanesArePowers;
    var y, z := new bv32[8], new bv32[8];
    ghost var base := x[..];
    FirstPower(base);
    PowerTo25(r, x, y, base);
    SquarePower(r, r, base, 25);
    SquarePower(z, r, base, 50);
    SquarePower(z, z, base, 100);
    MulPower(r, r, z[..], base, 50, 200);
    MulPower(r, r, y[..], base, 250, 4);
    PowersAreInverses(r[..], base);
  }

  lemma PowersAreInverses(r: seq<bv32>, x: seq<bv32>)
    requires |r| == |x| == 8 && LanesArePowers(r, x, 254)
    ensures forall i :: 0 <= i < LANES ==> Lane(r, i) == Inv(Lane(x, i))
  {
    hide Lane, Pow;
  }

  // ---- Sharing ----

  /** The polynomial of lane i: the key byte, then the lane of every random coefficient. */
  function LanePoly(key: seq<bv8>, poly: seq<seq<bv32>>, i: nat): (p: seq<bv8>)
    requires |key| == LANES && i < LANES && forall c :: 0 <= c < |poly| ==> |poly[c]| == 8
    ensures |p| == |poly| + 1 && p[0] == key[i]
  {
    [key[i]] + seq(|poly|, c requires 0 <= c < |poly| => Lane(poly[c], i))
  }

  /** The sum of p[j] x^j over j < n, with the powers built up from the left. */
  function PowerSum(p: seq<bv8>, x: bv8, n: nat): bv8
    requires n <= |p|
  {
    if n == 0 then 0 else Add(PowerSum(p, x, n - 1), Mul(Pow(x, n - 1), p[n - 1]))
  }

  lemma {:induction false} PowerSumShift(p: seq<bv8>, x: bv8, n: nat)
    requires 1 <= n <= |p|
    ensures PowerSum(p, x, n) == Add(p[0], Mul(x, PowerSum(p[1..], x, n - 1)))
  {
    if n == 1 {
      MulOneLeft(p[0]);
      AddZero(p[0]);
      MulZeroRight(x);
      assert PowerSum(p, x, 0) == 0;
    } else {
      hide Add, Mul, Pow;
      var q := p[1..];
      PowerSumShift(p, x, n - 1);
      PowAdd(x, 1, n - 2);
      PowOne(x);
      MulAssoc(x, Pow(x, n - 2), p[n - 1]);
      MulAddRight(x, PowerSum(q, x, n - 2), Mul(Pow(x, n - 2), q[n - 2]));
      AddAssoc(p[0], Mul(x, PowerSum(q, x, n - 2)), Mul(x, Mul(Pow(x, n - 2), q[n - 2])));
    }
  }

  lemma {:induction false} PowerSumIsEval(p: seq<bv8>, x: bv8)
    ensures PowerSum(p, x, |p|) == Eval(p, x)
  {
    if p != [] {
      hide Add, Mul, Pow;
      PowerSumShift(p, x, |p|);
      PowerSumIsEval(p[1..], x);
    }
  }

  /** The share with abscissa x: in every lane, the value of the lane's polynomial at x. */
  function ShareAt(key: seq<bv8>, poly: seq<seq<bv32>>, x: bv8): KeyShare
    requires |key| == LANES && forall c :: 0 <= c < |poly| ==> |poly[c]| == 8
  {
    KeyShare(x, seq(LANES, i requires 0 <= i < LANES => Eval(LanePoly(key, poly, i), x)))
  }

  ghost predicate LanesArePartialShare(y: seq<bv32>, xpow: seq<bv32>, key: seq<bv8>, poly: seq<seq<bv32>>, x: bv8, c: nat)
    requires |y| == |xpow| == 8 && |key| == LANES && c <= |poly| && forall d :: 0 <= d < |poly| ==> |poly[d]| == 8
  {
    forall i :: 0 <= i < LANES ==>
      && Lane(xpow, i) == Pow(x, c)
      && Lane(y, i) == PowerSum(LanePoly(key, poly, i), x, c + 1)
  }

  method FillOne(r: array<bv32>)
    requires r.Length == 8
    modifies r
    ensures forall i :: 0 <= i < LANES ==> Lane(r[..], i) == 1
  {
    r[0] := 0xffff_ffff;
    for j := 1 to 8
      invariant r[0] == 0xffff_ffff && forall m :: 1 <= m < j ==> r[m] == 0
    {
      r[j] := 0;
    }
    hide Bit, Pack;
    forall i | 0 <= i < LANES ensures Lane(r[..], i) == 1 {
      BitConstants(i);
      PackConstants();
    }
  }

  method FillZero(r: array<bv32>)
    requires r.Length == 8
    modifies r
    ensures forall i :: 0 <= i < LANES ==> Lane(r[..], i) == 0
  {
    for j := 0 to 8
      invariant forall m :: 0 <= m < j ==> r[m] == 0
    {
      r[j] := 0;
    }
    hide Bit, Pack;
    forall i | 0 <= i < LANES ensures Lane(r[..], i) == 0 {
      BitConstants(i);
      PackConstants();
    }
  }

  /** The term of the next coefficient. */
  method AddTerm(y: array<bv32>, xpow: array<bv32>, xs: seq<bv32>, ghost key: seq<bv8>, poly: seq<seq<bv32>>, ghost x: bv8, c: nat)
    requires y.Length == xpow.Length == |xs| == 8 && y != xpow && |key| == LANES
    requires c < |poly| && forall d :: 0 <= d < |poly| ==> |poly[d]| == 8
    requires forall i :: 0 <= i < LANES ==> Lane(xs, i) == x
    requires LanesArePartialShare(y[..], xpow[..], key, poly, x, c)
    modifies y, xpow
    ensures LanesArePartialShare(y[..], xpow[..], key, poly, x, c + 1)
  {
    hide Lane, Mul, Add, LanesArePartialShare;
    ghost var y0, xpow0 := y[..], xpow[..];
    var tmp := new bv32[8];
    GfMul(xpow, xpow, xs);
    ghost var xpow1 := xpow[..];
    GfMul(tmp, xpow, poly[c]);
    assert y[..] == y0 && xpow[..] == xpow1;
    GfAdd(y, tmp[..]);
    assert xpow[..] == xpow1;
    NextTerm(y0, xpow0, y[..], xpow1, tmp[..], key, poly, x, c);
  }

  /** The value of every lane's polynomial at x, coefficient by coefficient. */
  method EvaluateLanes(y: array<bv32>, key: seq<bv8>, poly0: seq<bv32>, poly: seq<seq<bv32>>, x: bv8)
    requires y.Length == |poly0| == 8 && |key| == LANES && forall c :: 0 <= c < |poly| ==> |poly[c]| == 8
    requires forall i :: 0 <= i < LANES ==> Lane(poly0, i) == key[i]
    modifies y
    ensures forall i :: 0 <= i < LANES ==> Lane(y[..], i) == Eval(LanePoly(key, poly, i), x)
  {
    hide Lane, Mul, Add, Pow, Eval;
    var xs, xpow := new bv32[8], new bv32[8];
    SetAll(xs, x);
    FillZero(y);
    FillOne(xpow);
    GfAdd(y, poly0);
    FirstTerm(y[..], xpow[..], key, poly, x);
    for c := 0 to |poly|
      invariant forall i :: 0 <= i < LANES ==> Lane(xs[..], i) == x
      invariant LanesArePartialShare(y[..], xpow[..], key, poly, x, c)
    {
      AddTerm(y, xpow, xs[..], key, poly, x, c);
    }
    forall i | 0 <= i < LANES ensures Lane(y[..], i) == Eval(LanePoly(key, poly, i), x) {
      PowerSumIsEval(LanePoly(key, poly, i), x);
    }
  }

  lemma FirstTerm(y: seq<bv32>, xpow: seq<bv32>, key: seq<bv8>, poly: seq<seq<bv32>>, x: bv8)
    requires |y| == |xpow| == 8 && |key| == LANES && forall c :: 0 <= c < |poly| ==> |poly[c]| == 8
    requires forall i :: 0 <= i < LANES ==> Lane(xpow, i) == 1 && Lane(y, i) == Add(0, key[i])
    ensures LanesArePartialShare(y, xpow, key, poly, x, 0)
  {
    hide Lane;
    forall i | 0 <= i < LANES
      ensures Lane(xpow, i) == Pow(x, 0) && Lane(y, i) == PowerSum(LanePoly(key, poly, i), x, 1)
    {
      var p := LanePoly(key, poly, i);
      assert PowerSum(p, x, 1) == Add(PowerSum(p, x, 0), Mul(Pow(x, 0), p[0]));
      MulOneLeft(p[0]);
    }
  }

  lemma NextTerm(y0: seq<bv32>, xpow0: seq<bv32>, y: seq<bv32>, xpow: seq<bv32>, tmp: seq<bv32>,
                 key: seq<bv8>, poly: seq<seq<bv32>>, x: bv8, c: nat)
    requires |y0| == |xpow0| == |y| == |xpow| == |tmp| == 8 && |key| == LANES
    requires c < |poly| && forall d :: 0 <= d < |poly| ==> |poly[d]| == 8
    requires LanesArePartialShare(y0, xpow0, key, poly, x, c)
    requires forall i :: 0 <= i < LANES ==> Lane(xpow, i) == Mul(Lane(xpow0, i), x)
    requires forall i :: 0 <= i < LANES ==> Lane(tmp, i) == Mul(Lane(xpow, i), Lane(poly[c], i))
    requires forall i :: 0 <= i < LANES ==> Lane(y, i) == Add(Lane(y0, i), Lane(tmp, i))
    ensures LanesArePartialShare(y, xpow, key, poly, x, c + 1)
  {
    hide Lane, Add, Mul;
    forall i | 0 <= i < LANES
      ensures Lane(xpow, i) == Pow(x, c + 1) && Lane(y, i) == PowerSum(LanePoly(key, poly, i), x, c + 2)
    {
      assert LanePoly(key, poly, i)[c + 1] == Lane(poly[c], i);
    }
  }

  /** The abscissa of the share with index s. */
  function Abscissa(s: nat): bv8
    requires s < 255
  {
    if s == 0 then 1 else Abscissa(s - 1) + 1
  }

  /** Shares `key` among n holders so that k of them recover it; `poly` are the k - 1 random coefficients. */
  method CreateKeyShares(out: array<KeyShare>, key: seq<bv8>, n: nat, k: nat, poly: seq<seq<bv32>>)
    requires 1 <= k <= n <= 255 && out.Length >= n
    requires |key| == LANES && |poly| == k - 1 && forall c :: 0 <= c < |poly| ==> |poly[c]| == 8
    modifies out
    ensures forall s :: 0 <= s < n ==> out[s] == ShareAt(key, poly, Abscissa(s))
    ensures forall s :: n <= s < out.Length ==> out[s] == old(out[s])
  {
    hide Lane, Eval, Abscissa, LanePoly;
    var poly0, y, bytes := new bv32[8], new bv32[8], new bv8[LANES];
    ToSlices(poly0, key);
    for s := 0 to n
      invariant forall i :: 0 <= i < LANES ==> Lane(poly0[..], i) == key[i]
      invariant forall t :: 0 <= t < s ==> out[t] == ShareAt(key, poly, Abscissa(t))
      invariant forall t :: n <= t < out.Length ==> out[t] == old(out[t])
    {
      EvaluateLanes(y, key, poly0[..], poly, Abscissa(s));
      FromSlices(bytes, y[..]);
      out[s] := KeyShare(Abscissa(s), bytes[..]);
      assert bytes[..] == ShareAt(key, poly, Abscissa(s)).y;
    }
  }

  // ---- Recovery ----

  function Xs(shares: seq<KeyShare>): seq<bv8> {
    seq(|shares|, j requires 0 <= j < |shares| => shares[j].x)
  }

  function Ys(shares: seq<KeyShare>, i: nat): seq<bv8>
    requires i < LANES && forall j :: 0 <= j < |shares| ==> |shares[j].y| == LANES
  {
    seq(|shares|, j requires 0 <= j < |shares| => shares[j].y[i])
  }

  /** Numerator and denominator of the basis polynomial of index a, at zero. */
  method BasisParts(num: array<bv32>, denom: array<bv32>, xs: seq<seq<bv32>>, a: nat, ghost vs: seq<bv8>)
    requires num.Length == denom.Length == 8 && num != denom && a < |xs| == |vs|
    requires forall j :: 0 <= j < |xs| ==> |xs[j]| == 8
    requires forall i, j :: 0 <= i < LANES && 0 <= j < |xs| ==> Lane(xs[j], i) == vs[j]
    modifies num, denom
    ensures forall i :: 0 <= i < LANES ==> Lane(num[..], i) == ProductExcept(vs, a, 0, |vs|)
    ensures forall i :: 0 <= i < LANES ==> Lane(denom[..], i) == ProductExcept(vs, a, vs[a], |vs|)
  {
    hide Lane, Mul, Add;
    var tmp := new bv32[8];
    FillOne(num);
    FillOne(denom);
    for b := 0 to |xs|
      invariant forall i :: 0 <= i < LANES ==> Lane(num[..], i) == ProductExcept(vs, a, 0, b)
      invariant forall i :: 0 <= i < LANES ==> Lane(denom[..], i) == ProductExcept(vs, a, vs[a], b)
    {
      if a != b {
        ghost var num0, denom0 := num[..], denom[..];
        GfMul(num, num, xs[b]);
        ghost var num1 := num[..];
        forall j | 0 <= j < 8 {
          tmp[j] := xs[a][j];
        }
        assert tmp[..] == xs[a];
        GfAdd(tmp, xs[b]);
        ghost var tmp1 := tmp[..];
        assert denom[..] == denom0;
        GfMul(denom, denom, tmp[..]);
        assert num[..] == num1;
        forall i | 0 <= i < LANES
          ensures Lane(num[..], i) == ProductExcept(vs, a, 0, b + 1)
          ensures Lane(denom[..], i) == ProductExcept(vs, a, vs[a], b + 1)
        {
          AddZero(vs[b]);
          assert ProductExcept(vs, a, vs[a], b + 1) == Mul(ProductExcept(vs, a, vs[a], b), Add(vs[a], vs[b]));
          assert Lane(tmp1, i) == Add(Lane(xs[a], i), Lane(xs[b], i));
          assert Lane(num0, i) == ProductExcept(vs, a, 0, b) && Lane(denom0, i) == ProductExcept(vs, a, vs[a], b);
          assert Lane(xs[b], i) == vs[b] && Lane(xs[a], i) == vs[a];
        }
      }
    }
  }

  /** One term of Lagrange's formula, in every lane. */
  method LagrangeTerm(num: array<bv32>, xs: seq<seq<bv32>>, y: seq<bv32>, a: nat, ghost vs: seq<bv8>)
    requires num.Length == |y| == 8 && a < |xs| == |vs|
    requires forall j :: 0 <= j < |xs| ==> |xs[j]| == 8
    requires forall i, j :: 0 <= i < LANES && 0 <= j < |xs| ==> Lane(xs[j], i) == vs[j]
    modifies num
    ensures forall i :: 0 <= i < LANES ==> Lane(num[..], i) == Mul(BasisAt(vs, a, 0), Lane(y, i))
  {
    hide Lane, Mul, Inv, ProductExcept;
    var denom, tmp := new bv32[8], new bv32[8];
    BasisParts(num, denom, xs, a, vs);
    GfInv(tmp, denom);
    GfMul(num, num, tmp[..]);
    GfMul(num, num, y);
  }

  /** Combines shares into a key by Lagrange's formula at zero. */
  method CombineKeyShares(key: array<bv8>, shares: seq<KeyShare>)
    requires key.Length == LANES && forall j :: 0 <= j < |shares| ==> |shares[j].y| == LANES
    modifies key
    ensures forall i :: 0 <= i < LANES ==> key[i] == InterpolateAt(Xs(shares), Ys(shares, i), 0, |shares|)
  {
    hide Lane, Mul, Add, BasisAt;
    var xs: seq<seq<bv32>>, ys: seq<seq<bv32>> := [], [];
    ghost var vs := Xs(shares);
    var slices, secret := new bv32[8], new bv32[8];
    for s := 0 to |shares|
      invariant |xs| == |ys| == s
      invariant forall j :: 0 <= j < s ==> |xs[j]| == |ys[j]| == 8
      invariant forall i, j :: 0 <= i < LANES && 0 <= j < s ==> Lane(xs[j], i) == vs[j]
      invariant forall i, j :: 0 <= i < LANES && 0 <= j < s ==> Lane(ys[j], i) == shares[j].y[i]
    {
      SetAll(slices, shares[s].x);
      xs := xs + [slices[..]];
      ToSlices(slices, shares[s].y);
      ys := ys + [slices[..]];
    }
    FillZero(secret);
    for a := 0 to |shares|
      invariant forall i :: 0 <= i < LANES ==> Lane(secret[..], i) == InterpolateAt(vs, Ys(shares, i), 0, a)
    {
      LagrangeTerm(slices, xs, ys[a], a, vs);
      GfAdd(secret, slices[..]);
    }
    FromSlices(key, secret[..]);
  }

  /** The shares were all made from the same key and coefficients. */
  ghost predicate SharesOf(shares: seq<KeyShare>, key: seq<bv8>, poly: seq<seq<bv32>>)
    requires |key| == LANES && forall c :: 0 <= c < |poly| ==> |poly[c]| == 8
  {
    forall j :: 0 <= j < |shares| ==> shares[j] == ShareAt(key, poly, shares[j].x)
  }

  /** Lagrange's formula at zero, on k created shares with distinct abscissae, is the key byte of every lane. */
  lemma SharesDetermineKey(shares: seq<KeyShare>, key: seq<bv8>, poly: seq<seq<bv32>>, i: nat)
    requires |key| == LANES && (forall c :: 0 <= c < |poly| ==> |poly[c]| == 8) && i < LANES
    requires |shares| == |poly| + 1 && SharesOf(shares, key, poly) && Distinct(Xs(shares))
    ensures InterpolateAt(Xs(shares), Ys(shares, i), 0, |shares|) == key[i]
  {
    hide Eval, InterpolateAt;
    var p := LanePoly(key, poly, i);
    InterpolationRecovers(p, Xs(shares), Ys(shares, i), 0);
    EvalAtZero(p);
  }

  lemma AbscissaeDiffer(s: nat, t: nat)
    requires s < 255 && t < 255 && s != t
    ensures Abscissa(s) != Abscissa(t)
  {
    hide Abscissa;
    AbscissaValue(s);
    AbscissaValue(t);
  }

  lemma {:induction false} AbscissaValue(s: nat)
    requires s < 255
    ensures Abscissa(s) as int == s + 1
  {
    if s > 0 {
      AbscissaValue(s - 1);
      AbscissaNext(s);
      Successor(Abscissa(s - 1));
    }
  }

  lemma AbscissaNext(s: nat)
    requires 0 < s < 255
    ensures Abscissa(s) == Abscissa(s - 1) + 1
  {
  }

  lemma Successor(b: bv8)
    requires b as int != 255
    ensures (b + 1) as int == b as int + 1
  {
  }

  /** Sharing a key among n holders and combining any k different shares gives the key back. */
  method ShareAndRecover(key: seq<bv8>, n: nat, k: nat, poly: seq<seq<bv32>>, chosen: seq<nat>) returns (recovered: seq<bv8>)
    requires 1 <= k <= n <= 255
    requires |key| == LANES && |poly| == k - 1 && forall c :: 0 <= c < |poly| ==> |poly[c]| == 8
    requires |chosen| == k && forall j :: 0 <= j < k ==> chosen[j] < n
    requires forall i, j :: 0 <= i < j < k ==> chosen[i] != chosen[j]
    ensures recovered == key
  {
    hide Eval, InterpolateAt, Abscissa;
    var out := new KeyShare[n](_ => KeyShare(0, []));
    CreateKeyShares(out, key, n, k, poly);
    var shares := seq(k, j requires 0 <= j < k reads out => out[chosen[j]]);
    var bytes := new bv8[LANES];
    assert forall j :: 0 <= j < k ==> shares[j] == ShareAt(key, poly, Abscissa(chosen[j]));
    forall i, j | 0 <= i < j < k ensures Xs(shares)[i] != Xs(shares)[j] {
      AbscissaeDiffer(chosen[i], chosen[j]);
    }
    CombineKeyShares(bytes, shares);
    forall i | 0 <= i < LANES ensures bytes[i] == key[i] {
      SharesDetermineKey(shares, key, poly, i);
    }
    recovered := bytes[..];
  }

  // ---- Fewer shares reveal nothing ----

  /** Slices whose lanes are the given bytes, bit by bit in the order of `ToSlices`. */
  ghost function SlicesUpTo(x: seq<bv8>, a: nat, b: nat): (s: seq<bv32>)
    requires |x| == LANES && a <= LANES && b <= 8 && (a == LANES ==> b == 0)
    ensures SlicedUpTo(s, x, a, b)
    decreases a, b
  {
    if b > 0 then
      var s := SlicesUpTo(x, a, b - 1);
      SlicedStep(s, x, a, b - 1);
      s[b - 1 := OrWord(s[b - 1], MoveBit(x[a] as bv32, b - 1, a))]
    else if a > 0 then
      SlicesUpTo(x, a - 1, 8)
    else
      ZeroSlices(x);
      [0, 0, 0, 0, 0, 0, 0, 0]
  }

  lemma ZeroSlices(x: seq<bv8>)
    requires |x| == LANES
    ensures SlicedUpTo([0, 0, 0, 0, 0, 0, 0, 0], x, 0, 0)
  {
    hide Bit, ByteBit;
    forall i | 0 <= i < LANES ensures !Bit(0, i) { BitConstants(i); }
  }

  lemma SlicesExist(x: seq<bv8>) returns (s: seq<bv32>)
    requires |x| == LANES
    ensures |s| == 8 && forall i :: 0 <= i < LANES ==> Lane(s, i) == x[i]
  {
    hide Bit, ByteBit, Lane;
    s := SlicesUpTo(x, LANES, 0);
    forall i | 0 <= i < LANES ensures Lane(s, i) == x[i] {
      LaneIsByte(s, i, x[i]);
    }
  }

  lemma {:induction false} PolyFromLanes(coeffs: seq<seq<bv8>>, n: nat) returns (poly: seq<seq<bv32>>)
    requires |coeffs| == LANES && forall i :: 0 <= i < LANES ==> |coeffs[i]| == n + 1
    ensures |poly| == n && forall c :: 0 <= c < n ==> |poly[c]| == 8
    ensures forall i, c :: 0 <= i < LANES && 0 <= c < n ==> Lane(poly[c], i) == coeffs[i][c + 1]
  {
    hide Lane;
    poly := [];
    for c := 0 to n
      invariant |poly| == c && forall d :: 0 <= d < c ==> |poly[d]| == 8
      invariant forall i, d :: 0 <= i < LANES && 0 <= d < c ==> Lane(poly[d], i) == coeffs[i][d + 1]
    {
      var s := SlicesExist(seq(LANES, i requires 0 <= i < LANES => coeffs[i][c + 1]));
      poly := poly + [s];
    }
  }

  /** The one polynomial with constant `secret` through the given values at distinct nonzero points. */
  lemma PolyWithConstant(xs: seq<bv8>, ys: seq<bv8>, secret: bv8) returns (p: seq<bv8>)
    requires |xs| == |ys| && Distinct([0] + xs)
    ensures |p| == |xs| + 1 && p[0] == secret
    ensures forall j :: 0 <= j < |xs| ==> Eval(p, xs[j]) == ys[j]
  {
    hide Eval;
    p := InterpolationExists([0] + xs, [secret] + ys);
    assert Eval(p, ([0] + xs)[0]) == ([secret] + ys)[0];
    EvalAtZero(p);
    forall j | 0 <= j < |xs| ensures Eval(p, xs[j]) == ys[j] {
      assert ([0] + xs)[j + 1] == xs[j] && ([secret] + ys)[j + 1] == ys[j];
    }
  }

  /**
   k - 1 shares are consistent with every key: for each other key there are coefficients that give exactly
   these shares.
   */
  lemma FewerSharesFitEveryKey(key: seq<bv8>, poly: seq<seq<bv32>>, xs: seq<bv8>, other: seq<bv8>)
    returns (poly': seq<seq<bv32>>)
    requires |key| == |other| == LANES && forall c :: 0 <= c < |poly| ==> |poly[c]| == 8
    requires |xs| == |poly| && Distinct([0] + xs)
    ensures |poly'| == |poly| && forall c :: 0 <= c < |poly'| ==> |poly'[c]| == 8
    ensures forall j :: 0 <= j < |xs| ==> ShareAt(other, poly', xs[j]) == ShareAt(key, poly, xs[j])
  {
    hide Eval, Lane;
    var n := |poly|;
    var coeffs: seq<seq<bv8>> := [];
    for i := 0 to LANES
      invariant |coeffs| == i
      invariant forall l :: 0 <= l < i ==> |coeffs[l]| == n + 1 && coeffs[l][0] == other[l]
      invariant forall l, j :: 0 <= l < i && 0 <= j < n ==> Eval(coeffs[l], xs[j]) == Eval(LanePoly(key, poly, l), xs[j])
    {
      var ys := seq(n, j requires 0 <= j < n => Eval(LanePoly(key, poly, i), xs[j]));
      var p := PolyWithConstant(xs, ys, other[i]);
      coeffs := coeffs + [p];
    }
    poly' := PolyFromLanes(coeffs, n);
    forall i | 0 <= i < LANES ensures LanePoly(other, poly', i) == coeffs[i] {
    }
    forall j | 0 <= j < n ensures ShareAt(other, poly', xs[j]) == ShareAt(key, poly, xs[j]) {
      assert ShareAt(other, poly', xs[j]).y == ShareAt(key, poly, xs[j]).y;
    }
  }

  /** And the lane coefficients that do so are unique, so every key is equally likely given k - 1 shares. */
  lemma FittingCoefficientsUnique(key: seq<bv8>, p: seq<seq<bv32>>, q: seq<seq<bv32>>, xs: seq<bv8>, i: nat)
    requires |key| == LANES && i < LANES && |p| == |q| == |xs| && Distinct([0] + xs)
    requires forall c :: 0 <= c < |p| ==> |p[c]| == |q[c]| == 8
    requires forall j :: 0 <= j < |xs| ==> ShareAt(key, p, xs[j]) == ShareAt(key, q, xs[j])
    ensures LanePoly(key, p, i) == LanePoly(key, q, i)
  {
    hide Eval, Lane;
    var points := [0] + xs;
    forall j | 0 <= j < |points| ensures Eval(LanePoly(key, p, i), points[j]) == Eval(LanePoly(key, q, i), points[j]) {
      if j == 0 {
        EvalAtZero(LanePoly(key, p, i));
        EvalAtZero(LanePoly(key, q, i));
      } else {
        assert ShareAt(key, p, xs[j - 1]).y[i] == ShareAt(key, q, xs[j - 1]).y[i];
      }
    }
    CoefficientsDetermined(LanePoly(key, p, i), LanePoly(key, q, i), points);
  }
}
