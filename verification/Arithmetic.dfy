/** Facts on products and quotients of natural numbers. */
module Arithmetic {

  lemma Positive(q: nat, p: nat)
    requires q > 0 && p > 0
    ensures q * p > 0
  {
  }

  lemma Assoc(x: nat, y: nat, z: nat)
    ensures x * (y * z) == (x * y) * z
  {
  }

  lemma DivDiv(x: nat, a: nat, b: nat)
    requires a > 0 && b > 0
    ensures a * b > 0 && x / a / b == x / (a * b)
  {
    Positive(a, b);
    DivParts(x, a);
    DivParts(x / a, b);
    DivDivParts(x, a, b, x / a, x % a, x / a / b, (x / a) % b);
  }

  lemma DivParts(x: nat, a: nat)
    requires a > 0
    ensures x == a * (x / a) + x % a && x % a < a
  {
  }

  lemma DivDivParts(x: nat, a: nat, b: nat, q: nat, r: nat, s: nat, t: nat)
    requires x == a * q + r && r < a && q == b * s + t && t < b && a * b > 0
    ensures x / (a * b) == s
  {
    Regroup(a, b, s, t, r, x);
    SmallRest(a, b, t, r);
    DivisionUnique(x, a * b, s, a * t + r);
  }

  lemma Regroup(a: nat, b: nat, s: nat, t: nat, r: nat, x: nat)
    requires x == a * (b * s + t) + r
    ensures x == (a * b) * s + (a * t + r)
  {
    calc {
      a * (b * s + t);
      a * (b * s) + a * t;
      { Assoc(a, b, s); }
      (a * b) * s + a * t;
    }
  }

  lemma SmallRest(a: nat, b: nat, t: nat, r: nat)
    requires t < b && r < a
    ensures a * t + r < a * b
  {
    assert a * t + a == a * (t + 1);
    Monotone(a, t + 1, b);
  }

  lemma Monotone(a: nat, x: nat, y: nat)
    requires x <= y
    ensures a * x <= a * y
  {
  }

  lemma DivisionUnique(x: nat, m: nat, q: nat, r: nat)
    requires m > 0 && x == m * q + r && r < m
    ensures x / m == q
  {
    var q', r' := x / m, x % m;
    assert x == m * q' + r';
    Apart(m, q, q');
    Apart(m, q', q);
  }

  lemma Apart(m: nat, x: nat, y: nat)
    ensures x < y ==> m * x + m <= m * y
  {
    if x < y {
      Monotone(m, x + 1, y);
      assert m * (x + 1) == m * x + m;
    }
  }
}
