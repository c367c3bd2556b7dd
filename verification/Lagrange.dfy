/**
 Polynomials over GF(2^8) and their interpolation: the mathematics that makes Shamir's scheme work.
 A polynomial is the sequence of its coefficients, the constant first.
 */
module Lagrange {
  import opened Gf256

  function Eval(p: seq<bv8>, z: bv8): bv8 {
    if p == [] then 0 else Add(p[0], Mul(z, Eval(p[1..], z)))
  }

  function PolyAdd(p: seq<bv8>, q: seq<bv8>): (s: seq<bv8>)
    requires |p| == |q|
    ensures |s| == |p|
  {
    if p == [] then [] else [Add(p[0], q[0])] + PolyAdd(p[1..], q[1..])
  }

  function Scale(c: bv8, p: seq<bv8>): (s: seq<bv8>)
    ensures |s| == |p|
  {
    if p == [] then [] else [Mul(c, p[0])] + Scale(c, p[1..])
  }

  /** The product of `p` and the linear polynomial z + r. */
  function MulLinear(p: seq<bv8>, r: bv8): (s: seq<bv8>)
    ensures |s| == |p| + 1
  {
    PolyAdd([0] + p, Scale(r, p) + [0])
  }

  /** The quotient of `p` by z + r. */
  function DivLinear(p: seq<bv8>, r: bv8): (q: seq<bv8>)
    requires p != []
    ensures |q| == |p| - 1
  {
    if |p| == 1 then [] else [Eval(p[1..], r)] + DivLinear(p[1..], r)
  }

  ghost predicate Distinct(xs: seq<bv8>) {
    forall i, j :: 0 <= i < j < |xs| ==> xs[i] != xs[j]
  }

  // ---- Evaluation is a homomorphism ----

  lemma EvalCons(p: seq<bv8>, z: bv8)
    requires p != []
    ensures Eval(p, z) == Add(p[0], Mul(z, Eval(p[1..], z)))
  {
  }

  lemma {:induction false} EvalAdd(p: seq<bv8>, q: seq<bv8>, z: bv8)
    requires |p| == |q|
    ensures Eval(PolyAdd(p, q), z) == Add(Eval(p, z), Eval(q, z))
  {
    if p == [] {
      AddZero(0);
    } else {
      var s := PolyAdd(p, q);
      assert s[0] == Add(p[0], q[0]) && s[1..] == PolyAdd(p[1..], q[1..]);
      hide *;
      EvalCons(s, z);
      EvalCons(p, z);
      EvalCons(q, z);
      EvalAdd(p[1..], q[1..], z);
      MulAddRight(z, Eval(p[1..], z), Eval(q[1..], z));
      AddSwap(p[0], q[0], Mul(z, Eval(p[1..], z)), Mul(z, Eval(q[1..], z)));
    }
  }

  lemma {:induction false} EvalScale(c: bv8, p: seq<bv8>, z: bv8)
    ensures Eval(Scale(c, p), z) == Mul(c, Eval(p, z))
  {
    if p == [] {
      MulZeroRight(c);
    } else {
      var s := Scale(c, p);
      assert s[0] == Mul(c, p[0]) && s[1..] == Scale(c, p[1..]);
      hide *;
      var t := Eval(p[1..], z);
      EvalCons(s, z);
      EvalCons(p, z);
      EvalScale(c, p[1..], z);
      MulAddRight(c, p[0], Mul(z, t));
      MulAssoc(z, c, t);
      MulAssoc(c, z, t);
      MulComm(z, c);
    }
  }

  lemma {:induction false} EvalAppendZero(p: seq<bv8>, z: bv8)
    ensures Eval(p + [0], z) == Eval(p, z)
  {
    if p == [] {
      EvalCons([0], z);
      assert Eval([0][1..], z) == 0;
      MulZeroRight(z);
      AddZero(0);
    } else {
      hide *;
      EvalCons(p, z);
      EvalCons(p + [0], z);
      assert (p + [0])[1..] == p[1..] + [0];
      EvalAppendZero(p[1..], z);
    }
  }

  lemma EvalPrependZero(p: seq<bv8>, z: bv8)
    ensures Eval([0] + p, z) == Mul(z, Eval(p, z))
  {
    hide *;
    EvalCons([0] + p, z);
    assert ([0] + p)[1..] == p;
    AddZero(Mul(z, Eval(p, z)));
  }

  lemma EvalMulLinear(p: seq<bv8>, r: bv8, z: bv8)
    ensures Eval(MulLinear(p, r), z) == Mul(Add(z, r), Eval(p, z))
  {
    assert MulLinear(p, r) == PolyAdd([0] + p, Scale(r, p) + [0]);
    hide *;
    EvalAdd([0] + p, Scale(r, p) + [0], z);
    EvalPrependZero(p, z);
    EvalAppendZero(Scale(r, p), z);
    EvalScale(r, p, z);
    MulAddLeft(z, r, Eval(p, z));
  }

  lemma EvalAtZero(p: seq<bv8>)
    requires p != []
    ensures Eval(p, 0) == p[0]
  {
    EvalCons(p, 0);
    MulZeroLeft(Eval(p[1..], 0));
    AddZero(p[0]);
  }

  // ---- Roots ----

  /** Division with remainder by z + r: the remainder is the value at r. */
  lemma {:induction false} EvalDivLinear(p: seq<bv8>, r: bv8, z: bv8)
    requires p != []
    ensures Eval(p, z) == Add(Mul(Add(z, r), Eval(DivLinear(p, r), z)), Eval(p, r))
  {
    if |p| == 1 {
      assert Eval(p[1..], z) == 0 && Eval(p[1..], r) == 0 && Eval(DivLinear(p, r), z) == 0;
      EvalCons(p, z);
      EvalCons(p, r);
      hide *;
      MulZeroRight(z);
      MulZeroRight(r);
      MulZeroRight(Add(z, r));
      AddZero(Add(p[0], 0));
    } else {
      var q := DivLinear(p, r);
      assert q[0] == Eval(p[1..], r) && q[1..] == DivLinear(p[1..], r);
      hide *;
      EvalDivLinear(p[1..], r, z);
      EvalCons(p, z);
      EvalCons(p, r);
      EvalCons(q, z);
      DivisionStep(p[0], z, r, Eval(q[1..], z), q[0]);
    }
  }

  /** c + z((z+r)t + v) == (z+r)(v + zt) + (c + rv) */
  lemma DivisionStep(c: bv8, z: bv8, r: bv8, t: bv8, v: bv8)
    ensures Add(c, Mul(z, Add(Mul(Add(z, r), t), v))) ==
            Add(Mul(Add(z, r), Add(v, Mul(z, t))), Add(c, Mul(r, v)))
  {
    hide *;
    var s := Add(z, r);
    var zst := Mul(z, Mul(s, t));
    MulAddRight(z, Mul(s, t), v);
    MulAddRight(s, v, Mul(z, t));
    MulAssoc(z, s, t);
    MulAssoc(s, z, t);
    MulComm(z, s);
    MulAddLeft(z, r, v);
    Regroup(c, zst, Mul(z, v), Mul(r, v));
  }

  /** c + (a + b) == ((b + d) + a) + (c + d) */
  lemma Regroup(c: bv8, a: bv8, b: bv8, d: bv8)
    ensures Add(c, Add(a, b)) == Add(Add(Add(b, d), a), Add(c, d))
  {
  }

  /** A polynomial with as many distinct roots as coefficients is zero everywhere. */
  lemma {:induction false} TooManyRoots(p: seq<bv8>, roots: seq<bv8>, z: bv8)
    requires |p| <= |roots| && Distinct(roots)
    requires forall i :: 0 <= i < |roots| ==> Eval(p, roots[i]) == 0
    ensures Eval(p, z) == 0
    decreases |p|
  {
    if p != [] {
      hide Eval, DivLinear, Mul, Add;
      var r, rest := roots[0], roots[1..];
      var q := DivLinear(p, r);
      forall i | 0 <= i < |rest| ensures Eval(q, rest[i]) == 0 {
        var x := rest[i];
        EvalDivLinear(p, r, x);
        AddZero(Mul(Add(x, r), Eval(q, x)));
        assert x == roots[i + 1];
        if Add(x, r) == 0 {
          AddZeroIsEqual(x, r);
        }
        NoZeroDivisors(Add(x, r), Eval(q, x));
      }
      TooManyRoots(q, rest, z);
      EvalDivLinear(p, r, z);
      MulZeroRight(Add(z, r));
      AddZero(0);
    }
  }

  // ---- Interpolation ----

  /** The product of z + xs[j] over all j < n other than `skip`, in the order of the indices. */
  function ProductExcept(xs: seq<bv8>, skip: nat, z: bv8, n: nat): bv8
    requires n <= |xs|
  {
    if n == 0 then 1
    else if n - 1 == skip then ProductExcept(xs, skip, z, n - 1)
    else Mul(ProductExcept(xs, skip, z, n - 1), Add(z, xs[n - 1]))
  }

  /** The value at z of the basis polynomial of index i: 1 at xs[i], 0 at the other points. */
  function BasisAt(xs: seq<bv8>, i: nat, z: bv8): bv8
    requires i < |xs|
  {
    Mul(ProductExcept(xs, i, z, |xs|), Inv(ProductExcept(xs, i, xs[i], |xs|)))
  }

  /** Lagrange's formula at z, summed over the first n points. */
  function InterpolateAt(xs: seq<bv8>, ys: seq<bv8>, z: bv8, n: nat): bv8
    requires n <= |xs| == |ys|
  {
    if n == 0 then 0
    else Add(InterpolateAt(xs, ys, z, n - 1), Mul(BasisAt(xs, n - 1, z), ys[n - 1]))
  }

  /** The coefficients of the product of z + xs[j] over all j < n other than `skip`. */
  function ProductPoly(xs: seq<bv8>, skip: nat, n: nat): (p: seq<bv8>)
    requires n <= |xs|
    ensures |p| == if skip < n then n else n + 1
  {
    if n == 0 then [1]
    else if n - 1 == skip then ProductPoly(xs, skip, n - 1)
    else MulLinear(ProductPoly(xs, skip, n - 1), xs[n - 1])
  }

  function Zeros(n: nat): (p: seq<bv8>)
    ensures |p| == n
  {
    if n == 0 then [] else [0] + Zeros(n - 1)
  }

  /** The coefficients of Lagrange's formula, summed over the first n points. */
  function InterpolationPoly(xs: seq<bv8>, ys: seq<bv8>, n: nat): (p: seq<bv8>)
    requires n <= |xs| == |ys|
    ensures |p| == |xs|
  {
    if n == 0 then Zeros(|xs|)
    else
      var i := n - 1;
      var c := Mul(Inv(ProductExcept(xs, i, xs[i], |xs|)), ys[i]);
      PolyAdd(InterpolationPoly(xs, ys, i), Scale(c, ProductPoly(xs, i, |xs|)))
  }

  lemma {:induction false} EvalProductPoly(xs: seq<bv8>, skip: nat, n: nat, z: bv8)
    requires n <= |xs|
    ensures Eval(ProductPoly(xs, skip, n), z) == ProductExcept(xs, skip, z, n)
  {
    if n == 0 {
      EvalCons([1], z);
      assert Eval([1][1..], z) == 0;
      MulZeroRight(z);
      AddZero(1);
    } else {
      hide Eval, MulLinear, Mul, Add;
      EvalProductPoly(xs, skip, n - 1, z);
      if n - 1 != skip {
        EvalMulLinear(ProductPoly(xs, skip, n - 1), xs[n - 1], z);
        MulComm(ProductExcept(xs, skip, z, n - 1), Add(z, xs[n - 1]));
      }
    }
  }

  lemma {:induction false} EvalZeros(n: nat, z: bv8)
    ensures Eval(Zeros(n), z) == 0
  {
    if n != 0 {
      EvalZeros(n - 1, z);
      EvalPrependZero(Zeros(n - 1), z);
      MulZeroRight(z);
    }
  }

  lemma {:induction false} EvalInterpolationPoly(xs: seq<bv8>, ys: seq<bv8>, n: nat, z: bv8)
    requires n <= |xs| == |ys|
    ensures Eval(InterpolationPoly(xs, ys, n), z) == InterpolateAt(xs, ys, z, n)
  {
    if n == 0 {
      EvalZeros(|xs|, z);
    } else {
      hide Eval, PolyAdd, Scale, Mul, Add, Inv, ProductExcept, ProductPoly;
      var i := n - 1;
      var w := Inv(ProductExcept(xs, i, xs[i], |xs|));
      var c, b := Mul(w, ys[i]), ProductPoly(xs, i, |xs|);
      EvalInterpolationPoly(xs, ys, i, z);
      EvalAdd(InterpolationPoly(xs, ys, i), Scale(c, b), z);
      EvalScale(c, b, z);
      EvalProductPoly(xs, i, |xs|, z);
      MulComm(c, ProductExcept(xs, i, z, |xs|));
      MulAssoc(ProductExcept(xs, i, z, |xs|), w, ys[i]);
    }
  }

  lemma {:induction false} ProductZero(xs: seq<bv8>, skip: nat, m: nat, n: nat)
    requires m < n <= |xs| && m != skip
    ensures ProductExcept(xs, skip, xs[m], n) == 0
  {
    hide Mul, Add;
    var z := xs[m];
    if n - 1 == m {
      AddSelf(z);
      MulZeroRight(ProductExcept(xs, skip, z, n - 1));
    } else {
      ProductZero(xs, skip, m, n - 1);
      MulZeroLeft(Add(z, xs[n - 1]));
    }
  }

  lemma {:induction false} ProductNonzero(xs: seq<bv8>, i: nat, n: nat)
    requires n <= |xs| && i < |xs| && Distinct(xs)
    ensures ProductExcept(xs, i, xs[i], n) != 0
  {
    hide Mul, Add;
    if n != 0 {
      ProductNonzero(xs, i, n - 1);
      if n - 1 != i {
        var a, b := ProductExcept(xs, i, xs[i], n - 1), Add(xs[i], xs[n - 1]);
        if b == 0 {
          AddZeroIsEqual(xs[i], xs[n - 1]);
        }
        if Mul(a, b) == 0 {
          NoZeroDivisors(a, b);
        }
      }
    }
  }

  lemma BasisAtPoint(xs: seq<bv8>, i: nat, m: nat)
    requires i < |xs| && m < |xs| && Distinct(xs)
    ensures BasisAt(xs, i, xs[m]) == if i == m then 1 else 0
  {
    hide Mul, Add, Inv;
    if i == m {
      ProductNonzero(xs, i, |xs|);
      MulInverse(ProductExcept(xs, i, xs[i], |xs|));
    } else {
      ProductZero(xs, i, m, |xs|);
      MulZeroLeft(Inv(ProductExcept(xs, i, xs[i], |xs|)));
    }
  }

  /** Lagrange's formula passes through the given points. */
  lemma {:induction false} InterpolateAtPoint(xs: seq<bv8>, ys: seq<bv8>, m: nat, n: nat)
    requires n <= |xs| == |ys| && m < |xs| && Distinct(xs)
    ensures InterpolateAt(xs, ys, xs[m], n) == if m < n then ys[m] else 0
  {
    hide Mul, Add, BasisAt;
    if n != 0 {
      InterpolateAtPoint(xs, ys, m, n - 1);
      BasisAtPoint(xs, n - 1, m);
      MulOneLeft(ys[n - 1]);
      MulZeroLeft(ys[n - 1]);
      AddZero(ys[m]);
      AddZero(0);
    }
  }

  /** Two polynomials with k coefficients that agree on k distinct points agree everywhere. */
  lemma PolynomialsAgree(p: seq<bv8>, q: seq<bv8>, xs: seq<bv8>, z: bv8)
    requires |p| == |q| == |xs| && Distinct(xs)
    requires forall i :: 0 <= i < |xs| ==> Eval(p, xs[i]) == Eval(q, xs[i])
    ensures Eval(p, z) == Eval(q, z)
  {
    hide Eval, PolyAdd, Add;
    var d := PolyAdd(p, q);
    forall i | 0 <= i < |xs| ensures Eval(d, xs[i]) == 0 {
      EvalAdd(p, q, xs[i]);
      AddSelf(Eval(p, xs[i]));
    }
    TooManyRoots(d, xs, z);
    EvalAdd(p, q, z);
    AddZeroIsEqual(Eval(p, z), Eval(q, z));
  }

  /** Interpolating k values of a polynomial with k coefficients gives the polynomial back. */
  lemma InterpolationRecovers(p: seq<bv8>, xs: seq<bv8>, ys: seq<bv8>, z: bv8)
    requires |p| == |xs| == |ys| && Distinct(xs)
    requires forall i :: 0 <= i < |xs| ==> ys[i] == Eval(p, xs[i])
    ensures InterpolateAt(xs, ys, z, |xs|) == Eval(p, z)
  {
    hide Eval, InterpolationPoly, InterpolateAt;
    var q := InterpolationPoly(xs, ys, |xs|);
    forall i | 0 <= i < |xs| ensures Eval(q, xs[i]) == Eval(p, xs[i]) {
      EvalInterpolationPoly(xs, ys, |xs|, xs[i]);
      InterpolateAtPoint(xs, ys, i, |xs|);
    }
    PolynomialsAgree(q, p, xs, z);
    EvalInterpolationPoly(xs, ys, |xs|, z);
  }

  /** A polynomial that vanishes on as many distinct points as it has coefficients has only zero coefficients. */
  lemma {:induction false} ZeroCoefficients(p: seq<bv8>, xs: seq<bv8>)
    requires |p| <= |xs| && Distinct(xs)
    requires forall i :: 0 <= i < |xs| ==> Eval(p, xs[i]) == 0
    ensures forall j :: 0 <= j < |p| ==> p[j] == 0
    decreases |p|
  {
    if p != [] {
      hide Eval, Mul, Add;
      TooManyRoots(p, xs, 0);
      EvalAtZero(p);
      var z := if 0 in xs then var i :| 0 <= i < |xs| && xs[i] == 0; i else 0;
      var rest := xs[..z] + xs[z + 1..];
      forall i | 0 <= i < |rest| ensures Eval(p[1..], rest[i]) == 0 {
        var x := rest[i];
        assert x == if i < z then xs[i] else xs[i + 1];
        EvalCons(p, x);
        AddZero(Mul(x, Eval(p[1..], x)));
        NoZeroDivisors(x, Eval(p[1..], x));
      }
      ZeroCoefficients(p[1..], rest);
    }
  }

  lemma {:induction false} PolyAddAt(p: seq<bv8>, q: seq<bv8>, j: nat)
    requires |p| == |q| && j < |p|
    ensures PolyAdd(p, q)[j] == Add(p[j], q[j])
  {
    hide Add;
    if j > 0 {
      PolyAddAt(p[1..], q[1..], j - 1);
    }
  }

  /** The values at k distinct points determine the k coefficients. */
  lemma CoefficientsDetermined(p: seq<bv8>, q: seq<bv8>, xs: seq<bv8>)
    requires |p| == |q| == |xs| && Distinct(xs)
    requires forall i :: 0 <= i < |xs| ==> Eval(p, xs[i]) == Eval(q, xs[i])
    ensures p == q
  {
    hide Eval, PolyAdd, Add;
    var d := PolyAdd(p, q);
    forall i | 0 <= i < |xs| ensures Eval(d, xs[i]) == 0 {
      EvalAdd(p, q, xs[i]);
      AddSelf(Eval(p, xs[i]));
    }
    ZeroCoefficients(d, xs);
    forall j | 0 <= j < |p| ensures p[j] == q[j] {
      PolyAddAt(p, q, j);
      AddZeroIsEqual(p[j], q[j]);
    }
  }

  /** Through any k points with distinct abscissae there is exactly one polynomial with k coefficients. */
  lemma InterpolationExists(xs: seq<bv8>, ys: seq<bv8>) returns (p: seq<bv8>)
    requires |xs| == |ys| && Distinct(xs)
    ensures |p| == |xs| && forall i :: 0 <= i < |xs| ==> Eval(p, xs[i]) == ys[i]
  {
    hide Eval, InterpolationPoly, InterpolateAt;
    p := InterpolationPoly(xs, ys, |xs|);
    forall i | 0 <= i < |xs| ensures Eval(p, xs[i]) == ys[i] {
      EvalInterpolationPoly(xs, ys, |xs|, xs[i]);
      InterpolateAtPoint(xs, ys, i, |xs|);
    }
  }
}
