// The interpolation of an S-box table: Gauss-Jordan elimination of the Vandermonde
// system in place. Row operations keep every vector that the rows annihilate, and a
// column without a pivot would give a non-zero polynomial with too many roots.
module Interpolation {
  import opened Field
  import opened Polynomials

  type Row = seq<int>

  /** The sum of row[j] * v[j] over the first k positions. */
  function Dot(row: Row, v: Row, k: nat): int
    requires k <= |row| && |row| == |v|
  {
    if k == 0 then 0 else Dot(row, v, k - 1) + row[k - 1] * v[k - 1]
  }

  ghost predicate Annihilates(r: nat, row: Row, v: Row)
    requires r > 0
  {
    |row| == |v| && Zero(r, Dot(row, v, |row|))
  }

  ghost predicate Solves(r: nat, rows: seq<Row>, v: Row)
    requires r > 0
  {
    forall i :: 0 <= i < |rows| ==> Annihilates(r, rows[i], v)
  }

  // ------------------------------------------------------------- row operations

  /** new[j] and f * a[j] + g * b[j] agree in the field at every position. */
  ghost predicate Combines(r: nat, row: Row, a: Row, f: int, b: Row, g: int)
    requires r > 0
  {
    && |row| == |a| == |b|
    && forall j :: 0 <= j < |row| ==> Zero(r, row[j] - (f * a[j] + g * b[j]))
  }

  /** How far d is from the combination of da and db. */
  function Deviation(d: int, da: int, f: int, db: int, g: int): int {
    d - (f * da + g * db)
  }

  lemma CombinedTerm(d: int, da: int, f: int, db: int, g: int, x: int, y: int, z: int, w: int)
    ensures Deviation(d + x * w, da + y * w, f, db + z * w, g)
            == Deviation(d, da, f, db, g) + w * Deviation(x, y, f, z, g)
  {
    Distribute(da, db, f, g, y, z, w);
    assert w * (x - (f * y + g * z)) == x * w - w * (f * y + g * z);
  }

  lemma CombinesAt(r: nat, row: Row, a: Row, f: int, b: Row, g: int, k: nat)
    requires r > 0 && Combines(r, row, a, f, b, g) && k < |a|
    ensures Zero(r, Deviation(row[k], a[k], f, b[k], g))
  {
    hide Zero;
  }

  lemma {:induction false} DotDeviation(r: nat, row: Row, a: Row, f: int, b: Row, g: int, v: Row, k: nat)
    requires r > 0 && Combines(r, row, a, f, b, g) && |v| == |a| && k <= |a|
    ensures Zero(r, Deviation(Dot(row, v, k), Dot(a, v, k), f, Dot(b, v, k), g))
  {
    if k == 0 {
      assert Deviation(0, 0, f, 0, g) == 0;
      ZeroMultiple(r, 0);
    } else {
      hide Zero, Deviation, Combines;
      var x, y, z, w := row[k - 1], a[k - 1], b[k - 1], v[k - 1];
      DotDeviation(r, row, a, f, b, g, v, k - 1);
      CombinesAt(r, row, a, f, b, g, k - 1);
      ZeroScale(r, w, Deviation(x, y, f, z, g));
      var d, da, db := Dot(row, v, k - 1), Dot(a, v, k - 1), Dot(b, v, k - 1);
      ZeroSum(r, Deviation(d, da, f, db, g), w * Deviation(x, y, f, z, g));
      CombinedTerm(d, da, f, db, g, x, y, z, w);
    }
  }

  lemma DotOfCombination(r: nat, row: Row, a: Row, f: int, b: Row, g: int, v: Row, k: nat)
    requires r > 0 && Combines(r, row, a, f, b, g) && |v| == |a| && k <= |a|
    ensures Zero(r, Dot(row, v, k) - (f * Dot(a, v, k) + g * Dot(b, v, k)))
  {
    hide Zero, Dot;
    DotDeviation(r, row, a, f, b, g, v, k);
  }

  lemma Distribute(da: int, db: int, f: int, g: int, y: int, z: int, w: int)
    ensures f * (da + y * w) + g * (db + z * w) == f * da + g * db + w * (f * y + g * z)
  {
    assert w * (f * y + g * z) == f * (y * w) + g * (z * w);
    assert f * (da + y * w) == f * da + f * (y * w);
    assert g * (db + z * w) == g * db + g * (z * w);
  }

  /** Whatever annihilates two rows annihilates every combination of them. */
  lemma CombinationAnnihilates(r: nat, row: Row, a: Row, f: int, b: Row, g: int, v: Row)
    requires r > 0 && Combines(r, row, a, f, b, g)
    requires Annihilates(r, a, v) && Annihilates(r, b, v)
    ensures Annihilates(r, row, v)
  {
    hide Zero;
    var n := |a|;
    DotOfCombination(r, row, a, f, b, g, v, n);
    var s := f * Dot(a, v, n) + g * Dot(b, v, n);
    ZeroScale(r, f, Dot(a, v, n));
    ZeroScale(r, g, Dot(b, v, n));
    ZeroSum(r, f * Dot(a, v, n), g * Dot(b, v, n));
    ZeroSum(r, Dot(row, v, n) - s, s);
  }

  /** The row with the entries from `from` on multiplied by f. */
  function Scaled(r: nat, row: Row, f: int, from: nat): (s: Row)
    requires r > 0
    ensures |s| == |row|
  {
    seq(|row|, j requires 0 <= j < |row| => if j < from then row[j] else Mul(r, row[j], f))
  }

  /** The row with f times the pivot row subtracted from the entries from `from` on. */
  function Cleared(r: nat, row: Row, pivot: Row, f: int, from: nat): (s: Row)
    requires r > 0 && |row| == |pivot|
    ensures |s| == |row|
  {
    seq(|row|, j requires 0 <= j < |row| => if j < from then row[j] else Sub(r, row[j], Mul(r, pivot[j], f)))
  }

  ghost predicate InField(r: nat, row: Row) {
    forall j :: 0 <= j < |row| ==> 0 <= row[j] < r
  }

  ghost predicate ZeroBefore(row: Row, col: nat) {
    forall j :: 0 <= j < col && j < |row| ==> row[j] == 0
  }

  lemma ScaledEntry(r: nat, x: int, p: int, inv: nat)
    requires r > 0 && Mul(r, p, inv) == 1
    ensures Zero(r, x - p * Mul(r, x, inv))
  {
    hide Zero;
    var s := Mul(r, x, inv);
    // x - p * s = x * (1 - p * inv) - p * (s - x * inv)
    Reduced(r, x * inv);
    Reduced(r, p * inv);
    ZeroScale(r, p, s - x * inv);
    ZeroScale(r, x, 1 - p * inv);
    ZeroSum(r, x * (1 - p * inv), p * (s - x * inv));
    assert x * (1 - p * inv) - p * (s - x * inv) == x - p * s;
  }

  /** The row before scaling is the pivot value times the row after it. */
  lemma ScaledBack(r: nat, row: Row, col: nat, inv: nat)
    requires r > 0 && InField(r, row) && ZeroBefore(row, col) && col < |row|
    requires Mul(r, row[col], inv) == 1
    ensures Combines(r, row, Scaled(r, row, inv, col), row[col], Scaled(r, row, inv, col), 0)
    ensures InField(r, Scaled(r, row, inv, col)) && ZeroBefore(Scaled(r, row, inv, col), col)
  {
    hide Zero, Mul;
    var s, p := Scaled(r, row, inv, col), row[col];
    forall j | 0 <= j < |row| ensures Zero(r, row[j] - (p * s[j] + 0 * s[j])) {
      if j < col {
        ZeroMultiple(r, 0);
      } else {
        ScaledEntry(r, row[j], p, inv);
      }
    }
  }

  lemma ClearedBack(r: nat, row: Row, pivot: Row, f: int, col: nat)
    requires r > 0 && |row| == |pivot| && InField(r, row) && ZeroBefore(pivot, col)
    ensures Combines(r, row, Cleared(r, row, pivot, f, col), 1, pivot, f)
    ensures InField(r, Cleared(r, row, pivot, f, col))
  {
    hide Zero;
    var s := Cleared(r, row, pivot, f, col);
    forall j | 0 <= j < |row| ensures Zero(r, row[j] - (1 * s[j] + f * pivot[j])) {
      if j < col {
        ZeroMultiple(r, 0);
      } else {
        Reduced(r, pivot[j] * f);
        Reduced(r, row[j] - Mul(r, pivot[j], f));
        ZeroSum(r, s[j] - (row[j] - Mul(r, pivot[j], f)), Mul(r, pivot[j], f) - pivot[j] * f);
        ZeroSum(r, 0, s[j] - row[j] + pivot[j] * f);
      }
    }
  }

  // -------------------------------------------------- the system and its reduction

  /** The first n powers of x in the field. */
  function Powers(r: nat, x: int, n: nat): (p: Row)
    requires r > 1
    ensures |p| == n
    ensures InField(r, p)
  {
    if n == 0 then []
    else if n == 1 then [1]
    else
      var p := Powers(r, x, n - 1);
      p + [Mul(r, p[n - 2], x)]
  }

  /** Row i of the Vandermonde system with its right-hand side. */
  function SystemRow(r: nat, table: seq<nat>, i: nat): (row: Row)
    requires r > 1 && i < |table|
    ensures |row| == |table| + 1
  {
    Powers(r, i, |table|) + [table[i]]
  }

  function System(r: nat, table: seq<nat>): (rows: seq<Row>)
    requires r > 1
    ensures |rows| == |table|
  {
    seq(|table|, i requires 0 <= i < |table| => SystemRow(r, table, i))
  }

  /** Integer powers, to compare Powers with Eval. */
  function Power(x: int, n: nat): int {
    if n == 0 then 1 else x * Power(x, n - 1)
  }

  /** The value of the polynomial with the first k coefficients of v, power by power. */
  function PowerSum(v: Row, x: int, k: nat): int
    requires k <= |v|
  {
    if k == 0 then 0 else PowerSum(v, x, k - 1) + Power(x, k - 1) * v[k - 1]
  }

  lemma Distributed(x: int, s: int, p: int, w: int)
    ensures x * (s + p * w) == x * s + (x * p) * w
  {
    assert x * (p * w) == (x * p) * w;
  }

  lemma {:induction false} PowerSumShift(v: Row, x: int, k: nat)
    requires 1 <= k <= |v|
    ensures PowerSum(v, x, k) == v[0] + x * PowerSum(v[1..], x, k - 1)
  {
    if k > 1 {
      PowerSumShift(v, x, k - 1);
      var s, p, w := PowerSum(v[1..], x, k - 2), Power(x, k - 2), v[k - 1];
      Distributed(x, s, p, w);
    }
  }

  lemma {:induction false} PowerSumIsEval(v: Row, x: int)
    ensures PowerSum(v, x, |v|) == Eval(v, x)
  {
    if v != [] {
      PowerSumShift(v, x, |v|);
      PowerSumIsEval(v[1..], x);
    }
  }

  lemma PowerStep(r: nat, p: int, e: int, x: int)
    requires r > 0 && Zero(r, p - e)
    ensures Zero(r, Mul(r, p, x) - x * e)
  {
    hide Zero;
    Reduced(r, p * x);
    ZeroScale(r, x, p - e);
    ZeroSum(r, Mul(r, p, x) - p * x, x * (p - e));
    assert x * (p - e) == p * x - x * e;
  }

  lemma {:induction false} PowersAt(r: nat, x: int, n: nat, j: nat)
    requires r > 1 && j < n
    ensures Zero(r, Powers(r, x, n)[j] - Power(x, j))
  {
    hide Zero, Mul;
    if n == 1 {
      ZeroMultiple(r, 0);
    } else if j < n - 1 {
      PowersAt(r, x, n - 1, j);
    } else {
      PowersAt(r, x, n - 1, n - 2);
      PowerStep(r, Powers(r, x, n - 1)[n - 2], Power(x, n - 2), x);
    }
  }

  lemma {:induction false} DotIsPowerSum(r: nat, row: Row, v: Row, x: int, k: nat)
    requires r > 1 && |row| == |v| && k <= |v|
    requires forall j :: 0 <= j < k ==> Zero(r, row[j] - Power(x, j))
    ensures Zero(r, Dot(row, v, k) - PowerSum(v, x, k))
  {
    hide Zero;
    if k == 0 {
      ZeroMultiple(r, 0);
    } else {
      DotIsPowerSum(r, row, v, x, k - 1);
      ZeroScale(r, v[k - 1], row[k - 1] - Power(x, k - 1));
      ZeroSum(r, Dot(row, v, k - 1) - PowerSum(v, x, k - 1), v[k - 1] * (row[k - 1] - Power(x, k - 1)));
      assert v[k - 1] * (row[k - 1] - Power(x, k - 1)) == row[k - 1] * v[k - 1] - Power(x, k - 1) * v[k - 1];
    }
  }

  /** A solution of row i says what the polynomial is worth at i. */
  lemma SystemRowMeaning(r: nat, table: seq<nat>, i: nat, v: Row)
    requires r > 1 && i < |table| && |v| == |table| + 1
    requires Annihilates(r, SystemRow(r, table, i), v)
    ensures Zero(r, Eval(v[..|table|], i) + table[i] * v[|table|])
  {
    hide Zero;
    var n, row := |table|, SystemRow(r, table, i);
    forall j | 0 <= j < n ensures Zero(r, row[j] - Power(i, j)) {
      PowersAt(r, i, n, j);
    }
    DotIsPowerSum(r, row, v, i, n);
    PowerSumPrefix(v, i, n);
    PowerSumIsEval(v[..n], i);
    ZeroSum(r, Dot(row, v, n + 1), Dot(row, v, n) - PowerSum(v, i, n));
  }

  lemma {:induction false} PowerSumPrefix(v: Row, x: int, k: nat)
    requires k <= |v|
    ensures PowerSum(v, x, k) == PowerSum(v[..k], x, k)
  {
    PowerSumTake(v, v[..k], x, k);
  }

  lemma {:induction false} PowerSumTake(v: Row, w: Row, x: int, k: nat)
    requires k <= |w| <= |v| && forall j :: 0 <= j < k ==> v[j] == w[j]
    ensures PowerSum(v, x, k) == PowerSum(w, x, k)
  {
    if k > 0 { PowerSumTake(v, w, x, k - 1); }
  }

  // --------------------------------------------------------- reduced matrices

  /** The first col columns are those of the identity matrix. */
  ghost predicate IsReduced(rows: seq<Row>, col: nat) {
    forall i, k :: 0 <= i < |rows| && 0 <= k < col && k < |rows[i]| ==> rows[i][k] == if i == k then 1 else 0
  }

  /** The combination of the first columns that equals column `col`. */
  function Relation(rows: seq<Row>, col: nat, width: nat): (v: Row)
    requires col < width && col <= |rows|
    requires forall i :: 0 <= i < |rows| ==> |rows[i]| == width
    ensures |v| == width
  {
    seq(width, j requires 0 <= j < width => if j < col then -rows[j][col] else if j == col then 1 else 0)
  }

  lemma {:induction false} DotOfReduced(rows: seq<Row>, col: nat, i: nat, v: Row, k: nat)
    requires IsReduced(rows, col) && i < |rows| && |v| == |rows[i]| && k <= col <= |v|
    ensures Dot(rows[i], v, k) == if i < k then v[i] else 0
  {
    if k > 0 {
      DotOfReduced(rows, col, i, v, k - 1);
      assert rows[i][k - 1] == if i == k - 1 then 1 else 0;
    }
  }

  lemma {:induction false} DotBeyond(row: Row, v: Row, from: nat, k: nat)
    requires |row| == |v| && from <= k <= |row|
    requires forall j :: from <= j < |v| ==> v[j] == 0
    ensures Dot(row, v, k) == Dot(row, v, from)
  {
    if k > from { DotBeyond(row, v, from, k - 1); }
  }

  /** Without a pivot in column col, the relation among the columns solves the whole system. */
  lemma NoPivotRelation(r: nat, rows: seq<Row>, col: nat, width: nat)
    requires r > 0 && col < width && col <= |rows|
    requires forall i :: 0 <= i < |rows| ==> |rows[i]| == width
    requires IsReduced(rows, col)
    requires forall i :: col <= i < |rows| ==> rows[i][col] == 0
    ensures Solves(r, rows, Relation(rows, col, width))
  {
    var v := Relation(rows, col, width);
    forall i | 0 <= i < |rows| ensures Annihilates(r, rows[i], v) {
      DotOfReduced(rows, col, i, v, col);
      DotBeyond(rows[i], v, col + 1, width);
      ZeroMultiple(r, 0);
    }
  }

  /** Every vector the matrix annihilates is a solution of the original system. */
  ghost predicate KeepsSolutions(r: nat, table: seq<nat>, rows: seq<Row>)
    requires r > 1
  {
    forall v: Row :: Solves(r, rows, v) ==> Solves(r, System(r, table), v)
  }

  /** The pivot search never fails: every column has a non-zero entry at or below the diagonal. */
  lemma PivotExists(r: nat, table: seq<nat>, rows: seq<Row>, col: nat)
    requires IsPrime(r) && |table| <= r && col < |table| == |rows|
    requires forall i :: 0 <= i < |rows| ==> |rows[i]| == |table| + 1
    requires IsReduced(rows, col)
    requires KeepsSolutions(r, table, rows)
    ensures exists i :: col <= i < |rows| && rows[i][col] != 0
  {
    hide Zero;
    if forall i :: col <= i < |rows| ==> rows[i][col] == 0 {
      var n := |table|;
      var v := Relation(rows, col, n + 1);
      NoPivotRelation(r, rows, col, n + 1);
      var points := seq(n, i => i);
      forall i | 0 <= i < n ensures Zero(r, Eval(v[..n], points[i])) {
        assert Annihilates(r, System(r, table)[i], v);
        SystemRowMeaning(r, table, i, v);
      }
      FirstPointsDistinct(r, points);
      TooManyRoots(r, v[..n], points);
      assert Zero(r, v[..n][col]);
      SmallIsNotZero(r, 1);
      assert false;
    }
  }

  lemma SmallIsNotZero(r: nat, d: nat)
    requires 0 < d < r
    ensures !Zero(r, d)
  {
    SmallResidue(r, d);
  }

  lemma FirstPointsDistinct(r: nat, points: seq<int>)
    requires r > 0 && |points| <= r && forall i :: 0 <= i < |points| ==> points[i] == i
    ensures DistinctPoints(r, points)
  {
    hide Zero;
    forall i, j | 0 <= i < j < |points| ensures !Zero(r, points[j] - points[i]) {
      SmallIsNotZero(r, points[j] - points[i]);
    }
  }

  /** Once the matrix is the identity, its last column is the solution. */
  lemma LastColumnSolves(r: nat, rows: seq<Row>, n: nat, c: Row)
    requires r > 0 && |rows| == n && |c| == n
    requires forall i :: 0 <= i < n ==> |rows[i]| == n + 1 && rows[i][n] == c[i]
    requires IsReduced(rows, n)
    ensures Solves(r, rows, c + [-1])
  {
    var v := c + [-1];
    forall i | 0 <= i < n ensures Annihilates(r, rows[i], v) {
      DotOfReduced(rows, n, i, v, n);
      assert Dot(rows[i], v, n + 1) == c[i] - rows[i][n];
      ZeroMultiple(r, 0);
    }
  }

  // -------------------------------------------------------------- the algorithm

  ghost predicate Interpolates(r: nat, coeffs: seq<int>, table: seq<nat>)
    requires r > 0
  {
    && |coeffs| == |table|
    && InField(r, coeffs)
    && forall i :: 0 <= i < |table| ==> Horner(r, coeffs, i) == table[i]
  }

  /** Horner's rule gives the sum of the coefficients times the powers of x. */
  lemma HornerMeans(r: nat, c: seq<int>, x: int)
    requires r > 0
    ensures Horner(r, c, x) == PowerSum(c, x, |c|) % r
  {
    HornerIsEval(r, c, x);
    PowerSumIsEval(c, x);
  }

  /** Interpolating coefficients are as many as the entries, and give entry i as their power sum at i. */
  lemma InterpolatesMeans(r: nat, coeffs: seq<int>, table: seq<nat>)
    requires r > 0
    ensures Interpolates(r, coeffs, table) <==>
            && |coeffs| == |table| && (forall k :: 0 <= k < |coeffs| ==> 0 <= coeffs[k] < r)
            && forall i :: 0 <= i < |table| ==> PowerSum(coeffs, i, |coeffs|) % r == table[i]
  {
    forall i | 0 <= i < |table| ensures Horner(r, coeffs, i) == PowerSum(coeffs, i, |coeffs|) % r {
      HornerMeans(r, coeffs, i);
    }
  }

  lemma SolutionInterpolates(r: nat, table: seq<nat>, c: Row)
    requires r > 1 && |c| == |table| && InField(r, c)
    requires forall i :: 0 <= i < |table| ==> table[i] < r
    requires Solves(r, System(r, table), c + [-1])
    ensures Interpolates(r, c, table)
  {
    hide Zero;
    var v, n := c + [-1], |table|;
    assert v[..n] == c;
    forall i | 0 <= i < n ensures Horner(r, c, i) == table[i] {
      assert Annihilates(r, System(r, table)[i], v);
      SystemRowMeaning(r, table, i, v);
      ZeroMultiple(r, 0);
      ZeroSum(r, 0, Eval(c, i) - table[i]);
      ResidueOf(r, table[i], Eval(c, i));
      HornerIsEval(r, c, i);
    }
  }

  /** At most one polynomial with n coefficients takes n given values at 0 .. n-1. */
  lemma InterpolationIsUnique(r: nat, p: seq<int>, q: seq<int>, table: seq<nat>)
    requires IsPrime(r) && |table| <= r
    requires Interpolates(r, p, table) && Interpolates(r, q, table)
    ensures p == q
  {
    hide Zero;
    var n := |table|;
    var d := seq(n, i requires 0 <= i < n => p[i] - q[i]);
    var points := seq(n, i => i);
    forall i | 0 <= i < n ensures Zero(r, Eval(d, points[i])) {
      EvalDifference(p, q, i);
      HornerIsEval(r, p, i);
      HornerIsEval(r, q, i);
      Reduced(r, Eval(p, i));
      Reduced(r, Eval(q, i));
      ZeroSum(r, Eval(q, i) % r - Eval(q, i), Eval(p, i) % r - Eval(p, i));
    }
    FirstPointsDistinct(r, points);
    TooManyRoots(r, d, points);
    forall i | 0 <= i < n ensures p[i] == q[i] {
      assert Zero(r, d[i]);
      SameResidue(r, p[i], q[i]);
    }
  }

  ghost predicate IsMatrix(r: nat, rows: seq<Row>, n: nat) {
    && |rows| == n
    && forall i :: 0 <= i < n ==> |rows[i]| == n + 1 && InField(r, rows[i])
  }

  lemma SwapKeepsSolutions(r: nat, table: seq<nat>, rows: seq<Row>, a: nat, b: nat)
    requires r > 1 && a < |rows| && b < |rows| && KeepsSolutions(r, table, rows)
    ensures KeepsSolutions(r, table, rows[a := rows[b]][b := rows[a]])
  {
    var swapped := rows[a := rows[b]][b := rows[a]];
    forall v: Row | Solves(r, swapped, v) ensures Solves(r, rows, v) {
      forall i | 0 <= i < |rows| ensures Annihilates(r, rows[i], v) {
        assert Annihilates(r, swapped[if i == a then b else if i == b then a else i], v);
      }
    }
  }

  /** Replacing row i keeps the solutions if row i is a combination of the new row and row k. */
  lemma ReplaceKeepsSolutions(r: nat, table: seq<nat>, rows: seq<Row>, i: nat, row: Row, f: int, k: nat, g: int)
    requires r > 1 && i < |rows| && k < |rows| && KeepsSolutions(r, table, rows)
    requires Combines(r, rows[i], row, f, rows[i := row][k], g)
    ensures KeepsSolutions(r, table, rows[i := row])
  {
    var updated := rows[i := row];
    forall v: Row | Solves(r, updated, v) ensures Solves(r, rows, v) {
      assert Annihilates(r, updated[i], v) && Annihilates(r, updated[k], v);
      CombinationAnnihilates(r, rows[i], row, f, updated[k], g, v);
      forall j | 0 <= j < |rows| ensures Annihilates(r, rows[j], v) {
        if j != i { assert Annihilates(r, updated[j], v); }
      }
    }
  }

  /** What holds between two columns of the elimination. */
  ghost predicate Stage(r: nat, table: seq<nat>, rows: seq<Row>, col: nat)
    requires r > 1
  {
    IsMatrix(r, rows, |table|) && KeepsSolutions(r, table, rows) && IsReduced(rows, col)
  }

  lemma SystemStage(r: nat, table: seq<nat>)
    requires r > 1 && forall i :: 0 <= i < |table| ==> table[i] < r
    ensures Stage(r, table, System(r, table), 0)
  {
    forall i | 0 <= i < |table| ensures InField(r, System(r, table)[i]) {
    }
  }

  lemma SwapStage(r: nat, table: seq<nat>, rows: seq<Row>, col: nat, pivot: nat)
    requires r > 1 && Stage(r, table, rows, col) && col <= pivot < |table|
    ensures Stage(r, table, rows[col := rows[pivot]][pivot := rows[col]], col)
  {
    SwapKeepsSolutions(r, table, rows, col, pivot);
    hide KeepsSolutions;
  }

  lemma ScaleStage(r: nat, table: seq<nat>, rows: seq<Row>, col: nat, inv: nat)
    requires r > 1 && Stage(r, table, rows, col) && col < |table| && Mul(r, rows[col][col], inv) == 1
    ensures Stage(r, table, rows[col := Scaled(r, rows[col], inv, col)], col)
    ensures Scaled(r, rows[col], inv, col)[col] == 1
  {
    hide KeepsSolutions, Combines;
    ScaledBack(r, rows[col], col, inv);
    ReplaceKeepsSolutions(r, table, rows, col, Scaled(r, rows[col], inv, col), rows[col][col], col, 0);
  }

  lemma ClearStage(r: nat, table: seq<nat>, rows: seq<Row>, row: nat, col: nat)
    requires r > 1 && Stage(r, table, rows, col) && col < |table| && row < |table| && row != col
    requires rows[col][col] == 1
    ensures Stage(r, table, rows[row := Cleared(r, rows[row], rows[col], rows[row][col], col)], col)
    ensures Cleared(r, rows[row], rows[col], rows[row][col], col)[col] == 0
  {
    hide KeepsSolutions, Combines;
    var f := rows[row][col];
    ClearedBack(r, rows[row], rows[col], f, col);
    ReplaceKeepsSolutions(r, table, rows, row, Cleared(r, rows[row], rows[col], f, col), 1, col, f);
    assert Mul(r, 1, f) == f && Sub(r, f, f) == 0;
  }

  lemma PowersStep(r: nat, x: int, j: nat)
    requires r > 1
    ensures j == 0 ==> Powers(r, x, j + 1) == [1]
    ensures j > 0 ==> Powers(r, x, j + 1) == Powers(r, x, j) + [Mul(r, Powers(r, x, j)[j - 1], x)]
  {
  }

  lemma RowIsBuilt(r: nat, table: seq<nat>, i: nat)
    requires r > 1 && i < |table|
    ensures SystemRow(r, table, i) == Powers(r, i, |table|) + [table[i]]
  {
  }

  method BuildSystem(r: nat, table: seq<nat>) returns (mat: array<Row>)
    requires IsPrime(r)
    ensures fresh(mat) && mat[..] == System(r, table)
  {
    var n := |table|;
    mat := new Row[n](i => []);
    hide Powers, Mul;
    for i := 0 to n
      invariant forall k :: 0 <= k < i ==> mat[k] == SystemRow(r, table, k)
    {
      mat[i] := seq(n + 1, j => 0);
      var pow := 1;
      hide SystemRow;
      for j := 0 to n
        invariant |mat[i]| == n + 1
        invariant mat[i][..j] == Powers(r, i, j)
        invariant j == 0 ==> pow == 1
        invariant j > 0 ==> pow == Mul(r, Powers(r, i, j)[j - 1], i)
        invariant forall k :: 0 <= k < i ==> mat[k] == SystemRow(r, table, k)
      {
        PowersStep(r, i, j);
        mat[i] := mat[i][j := pow];
        pow := Mul(r, pow, i);
      }
      mat[i] := mat[i][n := table[i]];
      assert mat[i] == Powers(r, i, n) + [table[i]];
      RowIsBuilt(r, table, i);
    }
  }

  /** Scales row col of the matrix in place so that its pivot becomes one. */
  method ScaleRow(r: nat, mat: array<Row>, col: nat, inv: nat)
    requires r > 0 && col < mat.Length && |mat[col]| == mat.Length + 1
    modifies mat
    ensures mat[..] == old(mat[..])[col := Scaled(r, old(mat[col]), inv, col)]
  {
    ghost var row := mat[col];
    for j := col to mat.Length + 1
      invariant |mat[col]| == |row|
      invariant forall k :: 0 <= k < |row| ==> mat[col][k] == if k < j then Scaled(r, row, inv, col)[k] else row[k]
      invariant forall k :: 0 <= k < mat.Length && k != col ==> mat[k] == old(mat[k])
    {
      mat[col] := mat[col][j := Mul(r, mat[col][j], inv)];
    }
    assert mat[col] == Scaled(r, row, inv, col);
  }

  /** Subtracts factor times row col from another row in place. */
  method ClearRow(r: nat, mat: array<Row>, row: nat, col: nat, factor: nat)
    requires r > 0 && col < mat.Length && row < mat.Length && row != col
    requires |mat[col]| == |mat[row]| == mat.Length + 1
    modifies mat
    ensures mat[..] == old(mat[..])[row := Cleared(r, old(mat[row]), old(mat[col]), factor, col)]
  {
    ghost var before := mat[row];
    for j := col to mat.Length + 1
      invariant |mat[row]| == |before|
      invariant forall k :: 0 <= k < |before| ==>
        mat[row][k] == if k < j then Cleared(r, before, old(mat[col]), factor, col)[k] else before[k]
      invariant forall k :: 0 <= k < mat.Length && k != row ==> mat[k] == old(mat[k])
    {
      var sub := Mul(r, mat[col][j], factor);
      mat[row] := mat[row][j := Sub(r, mat[row][j], sub)];
    }
    assert mat[row] == Cleared(r, before, old(mat[col]), factor, col);
  }

  /** Clears column col in every row but the pivot row. */
  method EliminateColumn(r: nat, table: seq<nat>, mat: array<Row>, col: nat)
    requires r > 1 && mat.Length == |table| && col < mat.Length
    requires Stage(r, table, mat[..], col) && mat[col][col] == 1
    modifies mat
    ensures Stage(r, table, mat[..], col + 1)
  {
    hide KeepsSolutions, Cleared;
    for row := 0 to mat.Length
      invariant Stage(r, table, mat[..], col) && mat[col][col] == 1
      invariant forall i :: 0 <= i < row && i != col ==> mat[i][col] == 0
    {
      if row != col {
        var factor := mat[row][col];
        if factor != 0 {
          ghost var before := mat[..];
          ClearStage(r, table, before, row, col);
          ClearRow(r, mat, row, col, factor);
          assert mat[..] == before[row := Cleared(r, before[row], before[col], factor, col)];
          assert forall i :: 0 <= i < mat.Length ==> mat[i] == mat[..][i];
        }
      }
    }
  }

  /** Finds the pivot of column col, brings it to the diagonal and scales it to one. */
  method NormalizePivot(r: nat, table: seq<nat>, mat: array<Row>, col: nat)
    requires IsPrime(r) && |table| <= r && mat.Length == |table| && col < mat.Length
    requires Stage(r, table, mat[..], col)
    modifies mat
    ensures Stage(r, table, mat[..], col) && mat[col][col] == 1
  {
    hide KeepsSolutions, Scaled, Solves, IsReduced, Mul;
    var n := mat.Length;
    var pivot := col;
    while pivot < n && mat[pivot][col] == 0
      invariant col <= pivot <= n
      invariant forall i :: col <= i < pivot ==> mat[..][i][col] == 0
    {
      pivot := pivot + 1;
    }
    PivotExists(r, table, mat[..], col);
    assert pivot < n;
    SwapStage(r, table, mat[..], col, pivot);
    ghost var before := mat[..];
    mat[col], mat[pivot] := mat[pivot], mat[col];
    assert mat[..] == before[col := before[pivot]][pivot := before[col]];
    assert mat[col] == before[pivot];
    InverseExists(r, mat[col][col]);
    var inv: nat :| inv < r && Mul(r, mat[col][col], inv) == 1;
    ScaleStage(r, table, mat[..], col, inv);
    ScaleRow(r, mat, col, inv);
    assert mat[col] == mat[..][col];
  }

  lemma LastStage(r: nat, table: seq<nat>, rows: seq<Row>, c: Row)
    requires r > 1 && |c| == |table| && Stage(r, table, rows, |table|)
    requires forall i :: 0 <= i < |table| ==> table[i] < r && rows[i][|table|] == c[i]
    ensures Interpolates(r, c, table)
  {
    LastColumnSolves(r, rows, |table|, c);
    assert Solves(r, System(r, table), c + [-1]);
    SolutionInterpolates(r, table, c);
  }

  /** The coefficients of the polynomial of degree below n through the n table entries. */
  method Interpolate(r: nat, table: seq<nat>) returns (coeffs: seq<nat>)
    requires IsPrime(r) && |table| <= r
    requires forall i :: 0 <= i < |table| ==> table[i] < r
    ensures Interpolates(r, coeffs, table)
    ensures |coeffs| == |table| && forall k :: 0 <= k < |coeffs| ==> coeffs[k] < r
    ensures forall i :: 0 <= i < |table| ==> PowerSum(coeffs, i, |coeffs|) % r == table[i]
  {
    hide KeepsSolutions, IsReduced, PowerSum, Interpolates, Horner;
    var n := |table|;
    var mat := BuildSystem(r, table);
    SystemStage(r, table);
    for col := 0 to n
      invariant mat.Length == n && Stage(r, table, mat[..], col)
    {
      NormalizePivot(r, table, mat, col);
      EliminateColumn(r, table, mat, col);
    }
    coeffs := [];
    for i := 0 to n
      invariant |coeffs| == i && forall k :: 0 <= k < i ==> coeffs[k] == mat[..][k][n]
    {
      assert InField(r, mat[..][i]);
      coeffs := coeffs + [mat[i][n]];
    }
    LastStage(r, table, mat[..], coeffs);
    InterpolatesMeans(r, coeffs, table);
  }
}
