/**
 The bitsliced arithmetic of the secret sharing code. Thirty-two field elements are held in eight
 32-bit words: word j holds bit j of every element, and element i is lane i of the eight words.
 */
module Bitslice {
  import opened Gf256

  const LANES: nat := 32

  predicate Bit(w: bv32, i: nat)
    requires i < LANES
  {
    Hit(w, MaskOf(i))
  }

  predicate Hit(w: bv32, m: bv32) {
    w & m != 0
  }

  function MaskOf(i: nat): bv32
    requires i < LANES
  {
    1 << i
  }

  function Nibble(b0: bool, b1: bool, b2: bool, b3: bool): bv8 {
    (if b0 then 1 else 0) | (if b1 then 2 else 0) | (if b2 then 4 else 0) | (if b3 then 8 else 0)
  }

  function Pack(b0: bool, b1: bool, b2: bool, b3: bool, b4: bool, b5: bool, b6: bool, b7: bool): bv8 {
    Join(Nibble(b0, b1, b2, b3), Nibble(b4, b5, b6, b7))
  }

  function Join(low: bv8, high: bv8): bv8 {
    low ^ (high << 4)
  }

  function XorWord(a: bv32, b: bv32): bv32 {
    a ^ b
  }

  function AndWord(a: bv32, b: bv32): bv32 {
    a & b
  }

  /** The field element in lane i. */
  function Lane(s: seq<bv32>, i: nat): bv8
    requires |s| == 8 && i < LANES
  {
    Pack(Bit(s[0], i), Bit(s[1], i), Bit(s[2], i), Bit(s[3], i),
         Bit(s[4], i), Bit(s[5], i), Bit(s[6], i), Bit(s[7], i))
  }

  function OrWord(a: bv32, b: bv32): bv32 {
    a | b
  }

  function Xor(s: seq<bv32>, t: seq<bv32>): (u: seq<bv32>)
    requires |s| == |t| == 8
    ensures |u| == 8
  {
    seq(8, k requires 0 <= k < 8 => XorWord(s[k], t[k]))
  }

  /** The lanes of `s` whose bit in `w` is set; zero in the other lanes. */
  function Mask(s: seq<bv32>, w: bv32): (u: seq<bv32>)
    requires |s| == 8
    ensures |u| == 8
  {
    seq(8, k requires 0 <= k < 8 => AndWord(s[k], w))
  }

  /** Multiplication of every lane by x. */
  function Times(s: seq<bv32>): (u: seq<bv32>)
    requires |s| == 8
    ensures |u| == 8
  {
    seq(8, k requires 0 <= k < 8 =>
      if k == 0 then s[7] else if k == 1 || k == 3 || k == 4 then XorWord(s[k - 1], s[7]) else s[k - 1])
  }

  // ---- Word operations act on every lane at once ----

  predicate OneBit(m: bv32) {
    m != 0 && m & (m - 1) == 0
  }

  lemma OneBitMask(i: nat)
    requires i < LANES
    ensures OneBit(MaskOf(i))
  {
  }

  lemma RawXor(a: bv32, b: bv32, m: bv32)
    requires OneBit(m)
    ensures Hit(a ^ b, m) == (Hit(a, m) != Hit(b, m))
  {
  }

  lemma RawAnd(a: bv32, b: bv32, m: bv32)
    requires OneBit(m)
    ensures Hit(a & b, m) == (Hit(a, m) && Hit(b, m))
  {
  }

  lemma RawOr(a: bv32, b: bv32, m: bv32)
    ensures Hit(a | b, m) == (Hit(a, m) || Hit(b, m))
  {
    assert (a | b) & m == (a & m) | (b & m);
    OrNonzero(a & m, b & m);
  }

  lemma OrNonzero(x: bv32, y: bv32)
    ensures (x | y != 0) == (x != 0 || y != 0)
  {
  }

  lemma OneBitXor(a: bv32, b: bv32, m: bv32)
    requires OneBit(m)
    ensures Hit(XorWord(a, b), m) == (Hit(a, m) != Hit(b, m))
  {
    hide Hit, OneBit;
    RawXor(a, b, m);
  }

  lemma OneBitAnd(a: bv32, b: bv32, m: bv32)
    requires OneBit(m)
    ensures Hit(AndWord(a, b), m) == (Hit(a, m) && Hit(b, m))
  {
    hide Hit, OneBit;
    RawAnd(a, b, m);
  }

  lemma AnyBitOr(a: bv32, b: bv32, m: bv32)
    ensures Hit(OrWord(a, b), m) == (Hit(a, m) || Hit(b, m))
  {
    hide Hit;
    RawOr(a, b, m);
  }

  lemma BitAnd(a: bv32, b: bv32, i: nat)
    requires i < LANES
    ensures Bit(AndWord(a, b), i) == (Bit(a, i) && Bit(b, i))
  {
    hide OneBit, Hit, MaskOf, AndWord;
    OneBitMask(i);
    OneBitAnd(a, b, MaskOf(i));
  }

  lemma BitXor(a: bv32, b: bv32, i: nat)
    requires i < LANES
    ensures Bit(XorWord(a, b), i) == (Bit(a, i) != Bit(b, i))
  {
    hide OneBit, Hit, MaskOf, XorWord;
    OneBitMask(i);
    OneBitXor(a, b, MaskOf(i));
  }

  lemma BitOr(a: bv32, b: bv32, i: nat)
    requires i < LANES
    ensures Bit(OrWord(a, b), i) == (Bit(a, i) || Bit(b, i))
  {
    hide Hit, MaskOf, OrWord;
    AnyBitOr(a, b, MaskOf(i));
  }

  lemma BitConstants(i: nat)
    requires i < LANES
    ensures !Bit(0, i) && Bit(0xffff_ffff, i)
  {
  }

  lemma BitOfShifted(c: bv32, k: nat, i: nat)
    requires i < LANES && k < LANES && c <= 1
    ensures Bit(c << k, i) == (i == k && c == 1)
  {
  }

  lemma JoinAdd(x: bv8, y: bv8, u: bv8, v: bv8)
    ensures Join(Add(x, y), Add(u, v)) == Add(Join(x, u), Join(y, v))
  {
  }

  lemma PackConstants()
    ensures Pack(false, false, false, false, false, false, false, false) == 0
    ensures Pack(true, false, false, false, false, false, false, false) == 1
  {
  }

  lemma PackMask(b0: bool, b1: bool, b2: bool, b3: bool, b4: bool, b5: bool, b6: bool, b7: bool, m: bool,
                 c0: bool, c1: bool, c2: bool, c3: bool, c4: bool, c5: bool, c6: bool, c7: bool)
    requires c0 == (b0 && m) && c1 == (b1 && m) && c2 == (b2 && m) && c3 == (b3 && m)
    requires c4 == (b4 && m) && c5 == (b5 && m) && c6 == (b6 && m) && c7 == (b7 && m)
    ensures Pack(c0, c1, c2, c3, c4, c5, c6, c7) == if m then Pack(b0, b1, b2, b3, b4, b5, b6, b7) else 0
  {
  }

  lemma PackXtime(b0: bool, b1: bool, b2: bool, b3: bool, b4: bool, b5: bool, b6: bool, b7: bool,
                  c1: bool, c3: bool, c4: bool)
    requires c1 == (b0 != b7) && c3 == (b2 != b7) && c4 == (b3 != b7)
    ensures Pack(b7, c1, b1, c3, c4, b4, b5, b6) == Xtime(Pack(b0, b1, b2, b3, b4, b5, b6, b7))
  {
  }

  /** The square of a byte, bit by bit, as the source computes it. */
  lemma PackSquare(b0: bool, b1: bool, b2: bool, b3: bool, b4: bool, b5: bool, b6: bool, b7: bool)
    ensures var c8, c10 := b4 != b6, b5 != b7;
            Pack(b0 != c8, b7 != c8, (b1 != c10) != b7, c10 != c8,
                 ((b2 != b6) != b7) != c8, (b6 != c10) != b7, (b3 != b7) != c10, b7 != b6) ==
            Square(Pack(b0, b1, b2, b3, b4, b5, b6, b7))
  {
    if b7 {
      if b6 {
      }
    }
  }

  /** Bit i of each of the eight words. */
  function Bits(s: seq<bv32>, i: nat): (b: seq<bool>)
    requires |s| == 8 && i < LANES
    ensures |b| == 8
  {
    seq(8, k requires 0 <= k < 8 => Bit(s[k], i))
  }

  function PackBits(b: seq<bool>): bv8
    requires |b| == 8
  {
    Pack(b[0], b[1], b[2], b[3], b[4], b[5], b[6], b[7])
  }

  lemma LaneBits(s: seq<bv32>, i: nat)
    requires |s| == 8 && i < LANES
    ensures Lane(s, i) == PackBits(Bits(s, i))
  {
    hide Bit, Pack;
  }

  function XorBits(p: seq<bool>, q: seq<bool>): (b: seq<bool>)
    requires |p| == |q| == 8
    ensures |b| == 8
  {
    seq(8, k requires 0 <= k < 8 => p[k] != q[k])
  }

  lemma BitsOfXor(s: seq<bv32>, t: seq<bv32>, i: nat)
    requires |s| == |t| == 8 && i < LANES
    ensures Bits(Xor(s, t), i) == XorBits(Bits(s, i), Bits(t, i))
  {
    hide Bit, XorWord;
    forall k | 0 <= k < 8 ensures Bit(Xor(s, t)[k], i) == (Bit(s[k], i) != Bit(t[k], i)) {
      BitXor(s[k], t[k], i);
    }
  }

  /** The weight of a bit that is set, or nothing. */
  function Weight(b: bool, w: bv8): bv8 {
    if b then w else 0
  }

  function NibbleOf(b: seq<bool>, k: nat): bv8
    requires k + 4 <= |b|
  {
    Add(Add(Weight(b[k], 1), Weight(b[k + 1], 2)), Add(Weight(b[k + 2], 4), Weight(b[k + 3], 8)))
  }

  lemma WeightXor(p: bool, q: bool, w: bv8)
    ensures Weight(p != q, w) == Add(Weight(p, w), Weight(q, w))
  {
  }

  lemma WeightOfXor(p: seq<bool>, q: seq<bool>, k: nat, w: bv8)
    requires |p| == |q| == 8 && k < 8
    ensures Weight(XorBits(p, q)[k], w) == Add(Weight(p[k], w), Weight(q[k], w))
  {
    hide Weight, Add;
    WeightXor(p[k], q[k], w);
  }

  lemma NibbleXor(p: seq<bool>, q: seq<bool>, k: nat)
    requires |p| == |q| == 8 && k <= 4
    ensures NibbleOf(XorBits(p, q), k) == Add(NibbleOf(p, k), NibbleOf(q, k))
  {
    hide Weight, Add, XorBits;
    WeightOfXor(p, q, k, 1);
    WeightOfXor(p, q, k + 1, 2);
    WeightOfXor(p, q, k + 2, 4);
    WeightOfXor(p, q, k + 3, 8);
    AddSwap(Weight(p[k], 1), Weight(q[k], 1), Weight(p[k + 1], 2), Weight(q[k + 1], 2));
    AddSwap(Weight(p[k + 2], 4), Weight(q[k + 2], 4), Weight(p[k + 3], 8), Weight(q[k + 3], 8));
    AddSwap(Add(Weight(p[k], 1), Weight(p[k + 1], 2)), Add(Weight(q[k], 1), Weight(q[k + 1], 2)),
            Add(Weight(p[k + 2], 4), Weight(p[k + 3], 8)), Add(Weight(q[k + 2], 4), Weight(q[k + 3], 8)));
  }

  lemma NibbleIsSum(b0: bool, b1: bool, b2: bool, b3: bool)
    ensures Nibble(b0, b1, b2, b3) == Add(Add(Weight(b0, 1), Weight(b1, 2)), Add(Weight(b2, 4), Weight(b3, 8)))
  {
  }

  lemma TwoNibbles(b: seq<bool>)
    requires |b| == 8
    ensures PackBits(b) == Join(NibbleOf(b, 0), NibbleOf(b, 4))
  {
    hide Nibble, Join, Weight, Add;
    NibbleIsSum(b[0], b[1], b[2], b[3]);
    NibbleIsSum(b[4], b[5], b[6], b[7]);
  }

  lemma PackXor(p: seq<bool>, q: seq<bool>)
    requires |p| == |q| == 8
    ensures PackBits(XorBits(p, q)) == Add(PackBits(p), PackBits(q))
  {
    hide *;
    NibbleXor(p, q, 0);
    NibbleXor(p, q, 4);
    TwoNibbles(p);
    TwoNibbles(q);
    TwoNibbles(XorBits(p, q));
    JoinAdd(NibbleOf(p, 0), NibbleOf(q, 0), NibbleOf(p, 4), NibbleOf(q, 4));
  }

  lemma LaneXor(s: seq<bv32>, t: seq<bv32>, i: nat)
    requires |s| == |t| == 8 && i < LANES
    ensures Lane(Xor(s, t), i) == Add(Lane(s, i), Lane(t, i))
  {
    hide *;
    LaneBits(s, i);
    LaneBits(t, i);
    LaneBits(Xor(s, t), i);
    BitsOfXor(s, t, i);
    PackXor(Bits(s, i), Bits(t, i));
  }

  function MaskBits(p: seq<bool>, m: bool): (b: seq<bool>)
    requires |p| == 8
    ensures |b| == 8
  {
    seq(8, k requires 0 <= k < 8 => p[k] && m)
  }

  lemma BitsOfMask(s: seq<bv32>, w: bv32, i: nat)
    requires |s| == 8 && i < LANES
    ensures Bits(Mask(s, w), i) == MaskBits(Bits(s, i), Bit(w, i))
  {
    hide Bit, AndWord;
    forall k | 0 <= k < 8 ensures Bit(Mask(s, w)[k], i) == (Bit(s[k], i) && Bit(w, i)) {
      BitAnd(s[k], w, i);
    }
  }

  lemma PackMasked(p: seq<bool>, m: bool)
    requires |p| == 8
    ensures PackBits(MaskBits(p, m)) == if m then PackBits(p) else 0
  {
    hide Pack;
    var c := MaskBits(p, m);
    PackMask(p[0], p[1], p[2], p[3], p[4], p[5], p[6], p[7], m, c[0], c[1], c[2], c[3], c[4], c[5], c[6], c[7]);
  }

  lemma LaneMask(s: seq<bv32>, w: bv32, i: nat)
    requires |s| == 8 && i < LANES
    ensures Lane(Mask(s, w), i) == if Bit(w, i) then Lane(s, i) else 0
  {
    hide *;
    LaneBits(s, i);
    LaneBits(Mask(s, w), i);
    BitsOfMask(s, w, i);
    PackMasked(Bits(s, i), Bit(w, i));
  }

  function TimesBits(p: seq<bool>): (b: seq<bool>)
    requires |p| == 8
    ensures |b| == 8
  {
    seq(8, k requires 0 <= k < 8 =>
      if k == 0 then p[7] else if k == 1 || k == 3 || k == 4 then p[k - 1] != p[7] else p[k - 1])
  }

  lemma BitsOfTimes(s: seq<bv32>, i: nat)
    requires |s| == 8 && i < LANES
    ensures Bits(Times(s), i) == TimesBits(Bits(s, i))
  {
    hide Bit, XorWord;
    forall k | 0 <= k < 8 ensures Bit(Times(s)[k], i) == TimesBits(Bits(s, i))[k] {
      if k > 0 {
        BitXor(s[k - 1], s[7], i);
      }
    }
  }

  lemma PackTimes(p: seq<bool>)
    requires |p| == 8
    ensures PackBits(TimesBits(p)) == Xtime(PackBits(p))
  {
    hide Pack, Xtime;
    var c := TimesBits(p);
    PackXtime(p[0], p[1], p[2], p[3], p[4], p[5], p[6], p[7], c[1], c[3], c[4]);
  }

  lemma LaneTimes(s: seq<bv32>, i: nat)
    requires |s| == 8 && i < LANES
    ensures Lane(Times(s), i) == Xtime(Lane(s, i))
  {
    hide *;
    LaneBits(s, i);
    LaneBits(Times(s), i);
    BitsOfTimes(s, i);
    PackTimes(Bits(s, i));
  }

  function ShiftRight(b: bv8, k: nat): bv8
    requires k <= 8
  {
    b >> k
  }

  /** Bit k of the element in lane i is bit i of word k. */
  lemma LaneBit(s: seq<bv32>, i: nat, k: nat, a: bv8)
    requires |s| == 8 && i < LANES && k < 8
    ensures Term(a, ShiftRight(Lane(s, i), k)) == if Bit(s[k], i) then a else 0
  {
    hide Bit;
  }

  lemma ShiftOnce(b: bv8, k: nat)
    requires k < 8
    ensures ShiftRight(b, k) >> 1 == ShiftRight(b, k + 1)
  {
  }

  lemma ShiftEnds(b: bv8)
    ensures ShiftRight(b, 0) == b && ShiftRight(b, 8) == 0
  {
  }

  /** One more bit of `b` in the product: what the accumulator gains, the rest of the product loses. */
  lemma MulLaneStep(r: seq<bv32>, t: seq<bv32>, b: seq<bv32>, k: nat, i: nat)
    requires |r| == |t| == |b| == 8 && k < 8 && i < LANES
    ensures Add(Lane(Xor(r, Mask(t, b[k])), i), Mul(Xtime(Lane(t, i)), ShiftRight(Lane(b, i), k + 1))) ==
            Add(Lane(r, i), Mul(Lane(t, i), ShiftRight(Lane(b, i), k)))
  {
    hide *;
    var a, c := Lane(t, i), ShiftRight(Lane(b, i), k);
    MulUnfold(a, c);
    ShiftOnce(Lane(b, i), k);
    LaneXor(r, Mask(t, b[k]), i);
    LaneMask(t, b[k], i);
    LaneBit(b, i, k, a);
    AddAssoc(Lane(r, i), Term(a, c), Mul(Xtime(a), ShiftRight(Lane(b, i), k + 1)));
  }

  lemma MulLaneFirst(t: seq<bv32>, b: seq<bv32>, i: nat)
    requires |t| == |b| == 8 && i < LANES
    ensures Add(Lane(Mask(t, b[0]), i), Mul(Xtime(Lane(t, i)), ShiftRight(Lane(b, i), 1))) == Mul(Lane(t, i), Lane(b, i))
  {
    hide *;
    var a, c := Lane(t, i), Lane(b, i);
    MulUnfold(a, c);
    ShiftEnds(c);
    ShiftOnce(c, 0);
    LaneMask(t, b[0], i);
    LaneBit(b, i, 0, a);
  }
}
