// Polynomials over the field of order r, as coefficient sequences with the constant
// first: evaluation, division by a linear factor, and the bound on roots.
module Polynomials {
  import opened Field

  /** The value over the integers: p[0] + x * (p[1] + x * (p[2] + ...)). */
  function Eval(p: seq<int>, x: int): int {
    if p == [] then 0 else p[0] + x * Eval(p[1..], x)
  }

  /** The value in the field, as Horner's rule computes it from the top coefficient down. */
  function Horner(r: nat, p: seq<int>, x: int): (v: nat)
    requires r > 0
    ensures v < r
  {
    if p == [] then 0 else Add(r, p[0], Mul(r, Horner(r, p[1..], x), x))
  }

  lemma HornerStep(r: nat, c: int, h: int, e: int, x: int)
    requires r > 0 && Zero(r, h - e)
    ensures Add(r, c, Mul(r, h, x)) == (c + x * e) % r
  {
    hide Zero, Mul, Add;
    var m := Mul(r, h, x);
    var s := Add(r, c, m);
    MulIs(r, h, x);
    AddIs(r, c, m);
    ZeroScale(r, x, h - e);
    Spread(x, h, e);
    ZeroSum(r, m - h * x, x * (h - e));
    ZeroSum(r, s - (c + m), m - h * x + x * (h - e));
    ResidueOf(r, s, c + x * e);
  }

  lemma MulIs(r: nat, a: int, b: int)
    requires r > 0
    ensures Zero(r, Mul(r, a, b) - a * b)
  {
    Reduced(r, a * b);
  }

  lemma AddIs(r: nat, a: int, b: int)
    requires r > 0
    ensures Zero(r, Add(r, a, b) - (a + b))
  {
    Reduced(r, a + b);
  }

  lemma Spread(x: int, h: int, e: int)
    ensures x * (h - e) == h * x - x * e
  {
  }

  lemma {:induction false} HornerIsEval(r: nat, p: seq<int>, x: int)
    requires r > 0
    ensures Horner(r, p, x) == Eval(p, x) % r
  {
    if p != [] {
      HornerIsEval(r, p[1..], x);
      Reduced(r, Eval(p[1..], x));
      HornerStep(r, p[0], Horner(r, p[1..], x), Eval(p[1..], x), x);
    }
  }

  /** The quotient of p by (x - a). */
  function Quotient(p: seq<int>, a: int): (q: seq<int>)
    ensures |q| == if p == [] then 0 else |p| - 1
  {
    if |p| <= 1 then [] else [Eval(p[1..], a)] + Quotient(p[1..], a)
  }

  lemma DivisionStep(c: int, e: int, q: int, v: int, a: int, x: int)
    requires e == (x - a) * q + v
    ensures c + x * e == (x - a) * (v + x * q) + (c + a * v)
  {
    calc {
      c + x * e;
      c + x * ((x - a) * q) + x * v;
      { assert x * ((x - a) * q) == (x - a) * (x * q); }
      c + (x - a) * (x * q) + (x - a) * v + a * v;
    }
  }

  lemma {:induction false} DivideByRoot(p: seq<int>, a: int, x: int)
    ensures Eval(p, x) == (x - a) * Eval(Quotient(p, a), x) + Eval(p, a)
  {
    if p == [] {
    } else if |p| == 1 {
      assert p[1..] == [];
    } else {
      var rest, q := p[1..], Quotient(p[1..], a);
      DivideByRoot(rest, a, x);
      assert Quotient(p, a)[1..] == q;
      DivisionStep(p[0], Eval(rest, x), Eval(q, x), Eval(rest, a), a, x);
    }
  }

  ghost predicate AllZero(r: nat, p: seq<int>)
    requires r > 0
  {
    forall j :: 0 <= j < |p| ==> Zero(r, p[j])
  }

  /** A polynomial whose value at a and whose quotient by (x - a) vanish is zero. */
  lemma {:induction false} ZeroQuotient(r: nat, p: seq<int>, a: int)
    requires r > 0 && AllZero(r, Quotient(p, a)) && Zero(r, Eval(p, a))
    ensures AllZero(r, p)
  {
    if p != [] {
      var rest := p[1..];
      assert Zero(r, Eval(rest, a)) by {
        if |p| > 1 {
          assert Quotient(p, a)[0] == Eval(rest, a);
        }
      }
      ZeroScale(r, a, Eval(rest, a));
      ZeroSum(r, Eval(p, a), a * Eval(rest, a));
      assert AllZero(r, Quotient(rest, a)) by {
        if |p| > 1 {
          assert Quotient(rest, a) == Quotient(p, a)[1..];
        }
      }
      ZeroQuotient(r, rest, a);
      forall j | 0 <= j < |p| ensures Zero(r, p[j]) {
        if j > 0 { assert p[j] == rest[j - 1]; }
      }
    }
  }

  /** No two of the points are equal in the field. */
  ghost predicate DistinctPoints(r: nat, points: seq<int>)
    requires r > 0
  {
    forall i, j :: 0 <= i < j < |points| ==> !Zero(r, points[j] - points[i])
  }

  /** A second root is a root of the quotient. */
  lemma RootOfQuotient(r: nat, p: seq<int>, a: int, x: int)
    requires IsPrime(r) && p != [] && Zero(r, Eval(p, a)) && Zero(r, Eval(p, x)) && !Zero(r, x - a)
    ensures Zero(r, Eval(Quotient(p, a), x))
  {
    assert r > 1;
    hide Zero, IsPrime, Quotient;
    DivideByRoot(p, a, x);
    ZeroSum(r, Eval(p, x), Eval(p, a));
    NoZeroDivisors(r, x - a, Eval(Quotient(p, a), x));
  }

  /** A polynomial with as many distinct roots as coefficients is zero. */
  lemma {:induction false} TooManyRoots(r: nat, p: seq<int>, points: seq<int>)
    requires IsPrime(r) && |p| == |points| && DistinctPoints(r, points)
    requires forall i :: 0 <= i < |points| ==> Zero(r, Eval(p, points[i]))
    ensures AllZero(r, p)
    decreases |p|
  {
    hide Zero;
    if p != [] {
      var a, rest, q := points[0], points[1..], Quotient(p, points[0]);
      forall i | 0 <= i < |rest| ensures Zero(r, Eval(q, rest[i])) {
        RootOfQuotient(r, p, a, rest[i]);
      }
      TooManyRoots(r, q, rest);
      ZeroQuotient(r, p, a);
    }
  }

  lemma {:induction false} EvalDifference(p: seq<int>, q: seq<int>, x: int)
    requires |p| == |q|
    ensures Eval(seq(|p|, i requires 0 <= i < |p| => p[i] - q[i]), x) == Eval(p, x) - Eval(q, x)
  {
    if p != [] {
      EvalDifference(p[1..], q[1..], x);
      var d := seq(|p|, i requires 0 <= i < |p| => p[i] - q[i]);
      assert d[1..] == seq(|p[1..]|, i requires 0 <= i < |p[1..]| => p[1..][i] - q[1..][i]);
      assert x * (Eval(p[1..], x) - Eval(q[1..], x)) == x * Eval(p[1..], x) - x * Eval(q[1..], x);
    }
  }
}
