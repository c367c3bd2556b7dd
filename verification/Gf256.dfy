/**
 The field GF(2^8) that the secret sharing code computes in: bytes as polynomials over GF(2),
 reduced by x^8 + x^4 + x^3 + x + 1 (section 4.2 of FIPS 197).

 The laws of one bit are left to the solver. Everything built on them hides the definitions, so
 that the proofs are equational.
 */
module Gf256 {

  function Add(a: bv8, b: bv8): bv8 {
    a ^ b
  }

  /** Multiplication by x: a shift, with the bit shifted out replaced by x^4 + x^3 + x + 1. */
  function Xtime(a: bv8): bv8 {
    var t := a >> 7;
    (a << 1) ^ t ^ (t << 1) ^ (t << 3) ^ (t << 4)
  }

  /** One term of a product: `a` when the lowest bit of `b` is set. */
  function Term(a: bv8, b: bv8): bv8 {
    if b & 1 != 0 then a else 0
  }

  /** The field product, one bit of `b` at a time. */
  function Mul(a: bv8, b: bv8): bv8
    decreases b
  {
    if b == 0 then 0 else Add(Term(a, b), Mul(Xtime(a), b >> 1))
  }

  function Pow(a: bv8, n: nat): bv8 {
    if n == 0 then 1 else Mul(Pow(a, n - 1), a)
  }

  /** The value that the addition chain of the source computes as the inverse. */
  function Inv(a: bv8): bv8 {
    Pow(a, 254)
  }

  /** Squaring written out on the bits: bit i moves to x^(2i), reduced. */
  function Square(a: bv8): bv8 {
    (a & 1) ^ ((a & 2) << 1) ^ ((a & 4) << 2) ^ ((a & 8) << 3) ^ SquareHigh(a >> 4)
  }

  function SquareHigh(h: bv8): bv8 {
    Term(0x1b, h) ^ Term(0x6c, h >> 1) ^ Term(0xab, h >> 2) ^ Term(0x9a, h >> 3)
  }

  // ---- Laws of one step, on the bits ----

  lemma AddComm(a: bv8, b: bv8)
    ensures Add(a, b) == Add(b, a)
  {
  }

  lemma AddAssoc(a: bv8, b: bv8, c: bv8)
    ensures Add(Add(a, b), c) == Add(a, Add(b, c))
  {
  }

  lemma AddZero(a: bv8)
    ensures Add(a, 0) == a && Add(0, a) == a
  {
  }

  lemma AddSelf(a: bv8)
    ensures Add(a, a) == 0
  {
  }

  lemma AddZeroIsEqual(a: bv8, b: bv8)
    requires Add(a, b) == 0
    ensures a == b
  {
  }

  lemma AddSwap(a: bv8, b: bv8, c: bv8, d: bv8)
    ensures Add(Add(a, b), Add(c, d)) == Add(Add(a, c), Add(b, d))
  {
    hide Add;
    AddAssoc(a, b, Add(c, d));
    AddAssoc(b, c, d);
    AddComm(b, c);
    AddAssoc(c, b, d);
    AddAssoc(a, c, Add(b, d));
  }

  lemma XtimeAdd(a: bv8, b: bv8)
    ensures Xtime(Add(a, b)) == Add(Xtime(a), Xtime(b))
  {
  }

  lemma XtimeTerm(a: bv8, b: bv8)
    ensures Xtime(Term(a, b)) == Term(Xtime(a), b)
  {
  }

  lemma TermAdd(a: bv8, b: bv8, c: bv8)
    ensures Term(Add(a, b), c) == Add(Term(a, c), Term(b, c))
  {
  }

  lemma TermTerm(a: bv8, b: bv8)
    ensures Term(Term(a, b), b) == Term(a, b)
  {
  }

  lemma SplitByte(b: bv8)
    ensures b == Add(Term(1, b), Xtime(b >> 1))
    ensures b != 0 ==> b >> 1 < b
  {
  }

  lemma MulZeroRight(a: bv8)
    ensures Mul(a, 0) == 0
  {
  }

  lemma MulUnfold(a: bv8, b: bv8)
    ensures Mul(a, b) == Add(Term(a, b), Mul(Xtime(a), b >> 1))
  {
  }

  // ---- Commutative ring laws ----

  lemma {:induction false} MulZeroLeft(b: bv8)
    ensures Mul(0, b) == 0
    decreases b
  {
    if b != 0 {
      MulZeroLeft(b >> 1);
    }
  }

  lemma {:induction false} MulXtimeLeft(a: bv8, b: bv8)
    ensures Mul(Xtime(a), b) == Xtime(Mul(a, b))
    decreases b
  {
    if b != 0 {
      hide *;
      SplitByte(b);
      MulUnfold(a, b);
      MulUnfold(Xtime(a), b);
      MulXtimeLeft(Xtime(a), b >> 1);
      XtimeTerm(a, b);
      XtimeAdd(Term(a, b), Mul(Xtime(a), b >> 1));
    }
  }

  /** The product unfolds on its right operand as Horner's rule. */
  lemma MulStep(a: bv8, b: bv8)
    ensures Mul(a, b) == Add(Term(a, b), Xtime(Mul(a, b >> 1)))
  {
    hide *;
    MulUnfold(a, b);
    MulXtimeLeft(a, b >> 1);
  }

  lemma {:induction false} MulAddLeft(a: bv8, b: bv8, c: bv8)
    ensures Mul(Add(a, b), c) == Add(Mul(a, c), Mul(b, c))
    decreases c
  {
    if c != 0 {
      hide *;
      SplitByte(c);
      MulUnfold(a, c);
      MulUnfold(b, c);
      MulUnfold(Add(a, b), c);
      XtimeAdd(a, b);
      MulAddLeft(Xtime(a), Xtime(b), c >> 1);
      TermAdd(a, b, c);
      AddSwap(Term(a, c), Term(b, c), Mul(Xtime(a), c >> 1), Mul(Xtime(b), c >> 1));
    }
  }

  lemma {:induction false} MulOneLeft(b: bv8)
    ensures Mul(1, b) == b
    decreases b
  {
    if b != 0 {
      hide *;
      SplitByte(b);
      MulStep(1, b);
      MulOneLeft(b >> 1);
    }
  }

  lemma MulTermLeft(a: bv8, b: bv8)
    ensures Mul(Term(1, b), a) == Term(a, b)
  {
    MulOneLeft(a);
    MulZeroLeft(a);
  }

  /** Horner's rule on the left operand. */
  lemma MulStepLeft(b: bv8, a: bv8)
    ensures Mul(b, a) == Add(Term(a, b), Xtime(Mul(b >> 1, a)))
  {
    hide *;
    SplitByte(b);
    MulAddLeft(Term(1, b), Xtime(b >> 1), a);
    MulXtimeLeft(b >> 1, a);
    MulTermLeft(a, b);
  }

  lemma {:induction false} MulComm(a: bv8, b: bv8)
    ensures Mul(a, b) == Mul(b, a)
    decreases b
  {
    hide *;
    if b == 0 {
      MulZeroLeft(a);
      MulZeroRight(a);
    } else {
      SplitByte(b);
      MulComm(a, b >> 1);
      MulStep(a, b);
      MulStepLeft(b, a);
    }
  }

  lemma MulAddRight(a: bv8, b: bv8, c: bv8)
    ensures Mul(a, Add(b, c)) == Add(Mul(a, b), Mul(a, c))
  {
    hide *;
    MulComm(a, Add(b, c));
    MulComm(a, b);
    MulComm(a, c);
    MulAddLeft(b, c, a);
  }

  lemma MulOneRight(a: bv8)
    ensures Mul(a, 1) == a
  {
    hide *;
    MulComm(a, 1);
    MulOneLeft(a);
  }

  lemma MulTermRight(a: bv8, b: bv8, c: bv8)
    ensures Mul(a, Term(b, c)) == Term(Mul(a, b), c)
  {
    MulZeroRight(a);
  }

  lemma MulXtimeRight(a: bv8, b: bv8)
    ensures Mul(a, Xtime(b)) == Xtime(Mul(a, b))
  {
    hide *;
    MulComm(a, Xtime(b));
    MulComm(a, b);
    MulXtimeLeft(b, a);
  }

  lemma {:induction false} MulAssoc(a: bv8, b: bv8, c: bv8)
    ensures Mul(Mul(a, b), c) == Mul(a, Mul(b, c))
    decreases c
  {
    hide *;
    if c == 0 {
      MulZeroRight(a);
      MulZeroRight(b);
      MulZeroRight(Mul(a, b));
    } else {
      SplitByte(c);
      MulAssoc(a, b, c >> 1);
      MulStep(Mul(a, b), c);
      MulStep(b, c);
      MulAddRight(a, Term(b, c), Xtime(Mul(b, c >> 1)));
      MulTermRight(a, b, c);
      MulXtimeRight(a, Mul(b, c >> 1));
    }
  }

  // ---- Powers, squares and inverses ----

  lemma {:induction false} PowAdd(a: bv8, m: nat, n: nat)
    ensures Pow(a, m + n) == Mul(Pow(a, m), Pow(a, n))
  {
    if n == 0 {
      MulOneRight(Pow(a, m));
    } else {
      PowAdd(a, m, n - 1);
      assert Pow(a, m + n) == Mul(Pow(a, m + n - 1), a);
      hide Mul;
      MulAssoc(Pow(a, m), Pow(a, n - 1), a);
    }
  }

  lemma SquareZero()
    ensures Square(0) == 0
  {
  }

  lemma SquareStep(a: bv8)
    ensures Square(a) == Add(Term(1, a), Xtime(Xtime(Square(a >> 1))))
  {
  }

  lemma CrossTermsCancel(a: bv8, b: bv8)
    ensures Mul(Add(a, b), Add(a, b)) == Add(Mul(a, a), Mul(b, b))
  {
    hide *;
    var p := Mul(a, b);
    MulAddLeft(a, b, Add(a, b));
    MulAddRight(a, a, b);
    MulAddRight(b, a, b);
    MulComm(a, b);
    AddAssoc(Mul(a, a), p, Add(p, Mul(b, b)));
    AddAssoc(p, p, Mul(b, b));
    AddSelf(p);
    AddZero(Mul(b, b));
  }

  /** Freshman's dream: the bit formula is the product of an element with itself. */
  lemma {:induction false} SquareIsMul(a: bv8)
    ensures Square(a) == Mul(a, a)
    decreases a
  {
    hide *;
    if a == 0 {
      SquareZero();
      MulZeroRight(0);
    } else {
      var c := a >> 1;
      SplitByte(a);
      SquareIsMul(c);
      SquareStep(a);
      CrossTermsCancel(Term(1, a), Xtime(c));
      MulTermLeft(Term(1, a), a);
      TermTerm(1, a);
      MulXtimeLeft(c, Xtime(c));
      MulXtimeRight(c, c);
    }
  }

  lemma PowOne(a: bv8)
    ensures Pow(a, 1) == a
  {
    assert Pow(a, 1) == Mul(Pow(a, 0), a);
    MulOneLeft(a);
  }

  lemma PowSquare(a: bv8, n: nat)
    ensures Square(Pow(a, n)) == Pow(a, 2 * n)
  {
    hide *;
    SquareIsMul(Pow(a, n));
    PowAdd(a, n, n);
  }

  /** Squaring is linear on the bits, and its eighth power is the identity. */
  lemma EightSquares(a: bv8)
    ensures Square(Square(Square(Square(Square(Square(Square(Square(a)))))))) == a
  {
  }

  lemma FixedBySquare(e: bv8)
    requires Square(e) == e
    ensures e == 0 || e == 1
  {
  }

  lemma Pow256(a: bv8)
    ensures Pow(a, 256) == a
  {
    hide *;
    PowOne(a);
    PowSquare(a, 1);
    PowSquare(a, 2);
    PowSquare(a, 4);
    PowSquare(a, 8);
    PowSquare(a, 16);
    PowSquare(a, 32);
    PowSquare(a, 64);
    PowSquare(a, 128);
    EightSquares(a);
  }

  /** x^255 is fixed by squaring, so it is 0 or 1, and it is 0 only when x is. */
  lemma Pow255(a: bv8)
    requires a != 0
    ensures Pow(a, 255) == 1
  {
    hide *;
    var e := Pow(a, 255);
    PowSquare(a, 255);
    PowAdd(a, 256, 254);
    PowAdd(a, 1, 254);
    Pow256(a);
    PowOne(a);
    FixedBySquare(e);
    PowAdd(a, 255, 1);
    MulZeroLeft(a);
  }

  /** Every nonzero element times its 254th power is 1. */
  lemma MulInverse(a: bv8)
    requires a != 0
    ensures Mul(a, Inv(a)) == 1
  {
    PowAdd(a, 1, 254);
    PowOne(a);
    Pow255(a);
  }

  lemma NoZeroDivisors(a: bv8, b: bv8)
    requires Mul(a, b) == 0 && a != 0
    ensures b == 0
  {
    hide *;
    MulInverse(a);
    MulComm(a, Inv(a));
    MulAssoc(Inv(a), a, b);
    MulOneLeft(b);
    MulZeroRight(Inv(a));
  }
}
