// The prime field of order r, as the integers below r. Proofs are done on plain
// integers: an integer stands for zero when r divides it.
module Field {
  import opened Bits

  ghost predicate Divides(d: nat, n: int) {
    d > 0 && n % d == 0
  }

  ghost predicate IsPrime(r: nat) {
    r >= 2 && forall d :: 2 <= d < r ==> !Divides(d, r)
  }

  /** The integer x is zero in the field. */
  ghost predicate Zero(r: nat, x: int)
    requires r > 0
  {
    x % r == 0
  }

  function Add(r: nat, a: int, b: int): (c: nat)
    requires r > 0
    ensures c < r
  {
    (a + b) % r
  }

  function Sub(r: nat, a: int, b: int): (c: nat)
    requires r > 0
    ensures c < r
  {
    (a - b) % r
  }

  function Mul(r: nat, a: int, b: int): (c: nat)
    requires r > 0
    ensures c < r
  {
    (a * b) % r
  }

  // ---------------------------------------------------------------- divisibility

  lemma MultipleIsLarge(r: int, k: int)
    requires r >= 0
    ensures k >= 1 ==> k * r >= r
    ensures k <= -1 ==> k * r <= -r
  {
  }

  lemma ZeroMultiple(r: nat, k: int)
    requires r > 0
    ensures Zero(r, k * r)
  {
    var q, m := (k * r) / r, (k * r) % r;
    assert (k - q) * r == m;
    MultipleIsLarge(r, k - q);
  }

  lemma ZeroSum(r: nat, x: int, y: int)
    requires r > 0 && Zero(r, x) && Zero(r, y)
    ensures Zero(r, x + y) && Zero(r, x - y)
  {
    var p, q := x / r, y / r;
    assert x + y == (p + q) * r && x - y == (p - q) * r;
    ZeroMultiple(r, p + q);
    ZeroMultiple(r, p - q);
  }

  lemma ZeroScale(r: nat, k: int, x: int)
    requires r > 0 && Zero(r, x)
    ensures Zero(r, k * x)
  {
    assert k * x == (k * (x / r)) * r;
    ZeroMultiple(r, k * (x / r));
  }

  /** Reducing changes a number by something that is zero in the field. */
  lemma Reduced(r: nat, x: int)
    requires r > 0
    ensures Zero(r, x % r - x)
  {
    assert x % r - x == (-(x / r)) * r;
    ZeroMultiple(r, -(x / r));
  }

  lemma SmallResidue(r: nat, x: nat)
    requires x < r
    ensures x % r == x
  {
    DivisionIs(x, r, 0, x);
  }

  /** Numbers below r that differ by zero are the same. */
  lemma SameResidue(r: nat, a: nat, b: nat)
    requires r > 0 && a < r && b < r && Zero(r, a - b)
    ensures a == b
  {
    var q := (a - b) / r;
    assert a - b == q * r;
    MultipleIsLarge(r, q);
  }

  /** Remainders are equal exactly when the difference is zero. */
  lemma SameRemainder(r: nat, x: int, y: int)
    requires r > 0
    ensures x % r == y % r <==> Zero(r, x - y)
  {
    hide Zero;
    var a, b := x % r, y % r;
    Reduced(r, x);
    Reduced(r, y);
    if a == b {
      ZeroSum(r, b - y, a - x);
    }
    if Zero(r, x - y) {
      ZeroSum(r, a - x, b - y);
      ZeroSum(r, (a - x) - (b - y), x - y);
      SameResidue(r, a, b);
    }
  }

  lemma ResidueOf(r: nat, a: nat, b: int)
    requires r > 0 && a < r && Zero(r, a - b)
    ensures b % r == a
  {
    Reduced(r, b);
    ZeroSum(r, a - b, b % r - b);
    SameResidue(r, a, b % r);
  }

  /** A number is prime exactly when it is no product of two larger than one. */
  lemma PrimeMeans(r: nat)
    requires r >= 2
    ensures IsPrime(r) <==> forall a: nat, b: nat :: a >= 2 && b >= 2 ==> a * b != r
  {
    forall a: nat, b: nat | a >= 2 && b >= 2 && a * b == r
      ensures !IsPrime(r)
    {
      MultipleIsLarge(a, b - 1);
      DivisionIs(r, a, b, 0);
      assert Divides(a, r);
    }
    forall d: nat | 2 <= d < r && Divides(d, r)
      ensures exists a: nat, b: nat :: a >= 2 && b >= 2 && a * b == r
    {
      var q := r / d;
      assert d * q == r;
      MultipleIsLarge(d, q);
      assert d * q == r && q >= 2;
    }
  }

  // -------------------------------------------------------------------- inverses

  lemma {:induction false} ExtendedGcd(a: nat, b: nat) returns (g: nat, x: int, y: int)
    requires a > 0
    ensures g > 0 && Divides(g, a) && Divides(g, b)
    ensures a * x + b * y == g
    decreases b
  {
    if b == 0 {
      g, x, y := a, 1, 0;
    } else {
      var q, m := a / b, a % b;
      var y';
      g, x, y' := ExtendedGcd(b, m);
      assert a == q * b + m;
      ZeroScale(g, q, b);
      ZeroSum(g, q * b, m);
      calc {
        g;
        b * x + m * y';
        b * x + (a - q * b) * y';
        { assert (q * b) * y' == b * (q * y'); }
        a * y' + b * (x - q * y');
      }
      x, y := y', x - q * y';
    }
  }

  lemma InverseExists(r: nat, a: nat)
    requires IsPrime(r) && 0 < a < r
    ensures exists b: nat :: b < r && Mul(r, a, b) == 1
  {
    var g, x, y := ExtendedGcd(a, r);
    DivisorBound(g, a);
    var b := x % r;
    Reduced(r, x);
    ZeroScale(r, a, b - x);
    ZeroMultiple(r, y);
    ZeroSum(r, y * r, a * (b - x));
    assert 1 - a * b == y * r - a * (b - x);
    ResidueOf(r, 1, a * b);
    assert Mul(r, a, b) == 1;
  }

  lemma DivisorBound(d: nat, n: nat)
    requires n > 0 && Divides(d, n)
    ensures d <= n
  {
    var q := n / d;
    assert n == q * d;
    MultipleIsLarge(d, q);
  }

  /** The multiplicative inverse; defined for every element but zero. */
  ghost function Inverse(r: nat, a: nat): (b: nat)
    requires IsPrime(r) && 0 < a < r
    ensures b < r && Mul(r, a, b) == 1
  {
    InverseExists(r, a);
    var b: nat :| b < r && Mul(r, a, b) == 1;
    b
  }

  /** A product is zero only if a factor is. */
  lemma NoZeroDivisors(r: nat, a: int, b: int)
    requires IsPrime(r) && Zero(r, a * b)
    ensures Zero(r, a) || Zero(r, b)
  {
    var m := a % r;
    if m != 0 {
      var i := Inverse(r, m);
      Reduced(r, a);
      Reduced(r, m * i);
      // b = (1 - m * i) * b + i * (m - a) * b + i * (a * b)
      ZeroScale(r, b, 1 - m * i);
      ZeroScale(r, i * b, m - a);
      ZeroScale(r, i, a * b);
      ZeroSum(r, b * (1 - m * i), (i * b) * (m - a));
      ZeroSum(r, b * (1 - m * i) + (i * b) * (m - a), i * (a * b));
      assert b == b * (1 - m * i) + (i * b) * (m - a) + i * (a * b);
    }
  }
}
