// The card-face binarizer: luminance, integral image, local threshold, and the
// inversion that makes text black on white. The reference is the naive rule: a pixel
// is white when it is no darker than the mean of its window, less the offset.
module Binarizer {
  import opened Bits

  const OFFSET := 8.0

  /** Luminance values of a w by h image, row by row. */
  datatype Gray = Gray(w: nat, h: nat, lum: seq<Byte>)
  {
    predicate Valid() {
      |lum| == w * h
    }

    predicate Inside(x: int, y: int) {
      0 <= x < w && 0 <= y < h
    }

    /** The luminance at (x, y), and nothing outside the image. */
    function Lum(x: int, y: int): (l: int)
      requires Valid()
      ensures !Inside(x, y) ==> l == 0
    {
      if Inside(x, y) then (InBounds(x, y, w, h); lum[At(w, x, y)]) else 0
    }

    function Lums(): (int, int) -> int
      requires Valid()
    {
      (x: int, y: int) => if Valid() then Lum(x, y) else 0
    }

    /** One for every image pixel, nothing outside. */
    function Ones(): (int, int) -> int {
      (x: int, y: int) => if Inside(x, y) then 1 else 0
    }

    function Radius(): nat {
      if w / 32 > 10 then w / 32 else 10
    }

    /** Summed luminance of every image pixel at most the radius away in each direction. */
    function WindowSum(x: int, y: int): int
      requires Valid()
    {
      RectSum(Lums(), x - Radius(), x + Radius() + 1, y - Radius(), y + Radius() + 1)
    }

    /** How many image pixels that window holds. */
    function WindowCount(x: int, y: int): int {
      RectSum(Ones(), x - Radius(), x + Radius() + 1, y - Radius(), y + Radius() + 1)
    }

    /** The naive rule. */
    predicate White(x: int, y: int)
      requires Valid() && Inside(x, y)
    {
      WindowHoldsItsCentre(this, x, y);
      Lum(x, y) as real >= WindowSum(x, y) as real / WindowCount(x, y) as real - OFFSET
    }
  }

  // ---------------------------------------------------------------- index arithmetic

  /** The cell of (x, y) in rows of the given length. */
  function At(stride: int, x: int, y: int): int {
    y * stride + x
  }

  lemma Stepping(stride: int, x: int, y: int)
    ensures At(stride, x + 1, y) == At(stride, x, y) + 1
    ensures At(stride, 0, y + 1) == At(stride, stride, y)
  {
  }

  lemma RowZero(stride: int, x: int)
    ensures At(stride, x, 0) == x
  {
  }

  lemma Ends(stride: nat, rows: nat)
    ensures At(stride, 0, 0) == 0 && At(stride, 0, rows) == stride * rows >= 0
  {
  }

  lemma InBounds(x: int, y: int, w: int, h: int)
    requires 0 <= x < w && 0 <= y < h
    ensures 0 <= At(w, x, y) < w * h
  {
    assert (y + 1) * w <= h * w;
  }

  lemma Positive(a: int, b: int)
    requires a > 0 && b > 0
    ensures a * b > 0
  {
  }

  lemma RowAndColumn(x: int, y: int, w: int)
    requires 0 <= x < w
    ensures At(w, x, y) / w == y && At(w, x, y) % w == x
  {
    DivisionIs(At(w, x, y), w, y, x);
  }

  lemma IndexSplits(p: int, w: int, h: int)
    requires 0 <= p < w * h && w > 0
    ensures 0 <= p % w < w && 0 <= p / w < h && p == At(w, p % w, p / w)
  {
    var q, m := p / w, p % w;
    assert q * w + m == p;
    assert q < 0 ==> (-q - 1) * w >= 0;
    assert q >= h ==> (q - h) * w >= 0;
  }

  // ---------------------------------------------------------------- sums over rectangles

  function RowSum(f: (int, int) -> int, x0: int, x1: int, y: int): int
    decreases x1 - x0
  {
    if x1 <= x0 then 0 else RowSum(f, x0, x1 - 1, y) + f(x1 - 1, y)
  }

  function RectSum(f: (int, int) -> int, x0: int, x1: int, y0: int, y1: int): int
    decreases y1 - y0
  {
    if y1 <= y0 then 0 else RectSum(f, x0, x1, y0, y1 - 1) + RowSum(f, x0, x1, y1 - 1)
  }

  lemma {:induction false} RowSplits(f: (int, int) -> int, a: int, b: int, c: int, y: int)
    requires a <= b <= c
    ensures RowSum(f, a, c, y) == RowSum(f, a, b, y) + RowSum(f, b, c, y)
    decreases c - b
  {
    if b < c { RowSplits(f, a, b, c - 1, y); }
  }

  lemma {:induction false} ColumnsSplit(f: (int, int) -> int, a: int, b: int, c: int, y0: int, y1: int)
    requires a <= b <= c && y0 <= y1
    ensures RectSum(f, a, c, y0, y1) == RectSum(f, a, b, y0, y1) + RectSum(f, b, c, y0, y1)
    decreases y1 - y0
  {
    if y0 < y1 {
      ColumnsSplit(f, a, b, c, y0, y1 - 1);
      RowSplits(f, a, b, c, y1 - 1);
    }
  }

  lemma {:induction false} RowsSplit(f: (int, int) -> int, x0: int, x1: int, a: int, b: int, c: int)
    requires a <= b <= c
    ensures RectSum(f, x0, x1, a, c) == RectSum(f, x0, x1, a, b) + RectSum(f, x0, x1, b, c)
    decreases c - b
  {
    if b < c { RowsSplit(f, x0, x1, a, b, c - 1); }
  }

  /** A rectangle from four corner sums: what the integral image is for. */
  lemma FourCorners(f: (int, int) -> int, x0: int, x1: int, y0: int, y1: int)
    requires 0 <= x0 <= x1 && 0 <= y0 <= y1
    ensures RectSum(f, x0, x1, y0, y1)
         == RectSum(f, 0, x1, 0, y1) - RectSum(f, 0, x1, 0, y0) - RectSum(f, 0, x0, 0, y1) + RectSum(f, 0, x0, 0, y0)
  {
    RowsSplit(f, 0, x1, 0, y0, y1);
    RowsSplit(f, 0, x0, 0, y0, y1);
    ColumnsSplit(f, 0, x0, x1, y0, y1);
  }

  lemma {:induction false} RowOfZeros(f: (int, int) -> int, x0: int, x1: int, y: int)
    requires forall x :: x0 <= x < x1 ==> f(x, y) == 0
    ensures RowSum(f, x0, x1, y) == 0
    decreases x1 - x0
  {
    if x0 < x1 { RowOfZeros(f, x0, x1 - 1, y); }
  }

  lemma {:induction false} RectOfZeros(f: (int, int) -> int, x0: int, x1: int, y0: int, y1: int)
    requires forall x, y :: x0 <= x < x1 && y0 <= y < y1 ==> f(x, y) == 0
    ensures RectSum(f, x0, x1, y0, y1) == 0
    decreases y1 - y0
  {
    if y0 < y1 {
      RectOfZeros(f, x0, x1, y0, y1 - 1);
      RowOfZeros(f, x0, x1, y1 - 1);
    }
  }

  function Max(a: int, b: int): int { if a > b then a else b }
  function Min(a: int, b: int): int { if a < b then a else b }

  /** Values that vanish outside an inner rectangle have the same sum over it and over any rectangle around it. */
  lemma Shrinking(f: (int, int) -> int, x0: int, x1: int, y0: int, y1: int, a: int, b: int, c: int, d: int)
    requires x0 <= a <= b <= x1 && y0 <= c <= d <= y1
    requires forall x, y :: x0 <= x < x1 && y0 <= y < y1 && !(a <= x < b && c <= y < d) ==> f(x, y) == 0
    ensures RectSum(f, x0, x1, y0, y1) == RectSum(f, a, b, c, d)
  {
    RowsSplit(f, x0, x1, y0, c, y1);
    RowsSplit(f, x0, x1, c, d, y1);
    RectOfZeros(f, x0, x1, y0, c);
    RectOfZeros(f, x0, x1, d, y1);
    ColumnsSplit(f, x0, a, x1, c, d);
    ColumnsSplit(f, a, b, x1, c, d);
    RectOfZeros(f, x0, a, c, d);
    RectOfZeros(f, b, x1, c, d);
  }

  /** Clipping a rectangle to the image changes no sum of values that vanish outside it. */
  lemma Clipping(g: Gray, f: (int, int) -> int, x0: int, x1: int, y0: int, y1: int)
    requires forall x, y :: !g.Inside(x, y) ==> f(x, y) == 0
    requires x0 < g.w && 0 < x1 && y0 < g.h && 0 < y1 && x0 < x1 && y0 < y1
    ensures RectSum(f, x0, x1, y0, y1) == RectSum(f, Max(0, x0), Min(g.w, x1), Max(0, y0), Min(g.h, y1))
  {
    hide RectSum;
    Shrinking(f, x0, x1, y0, y1, Max(0, x0), Min(g.w, x1), Max(0, y0), Min(g.h, y1));
  }

  lemma {:induction false} RowOfOnes(f: (int, int) -> int, x0: int, x1: int, y: int)
    requires x0 <= x1 && forall x :: x0 <= x < x1 ==> f(x, y) == 1
    ensures RowSum(f, x0, x1, y) == x1 - x0
    decreases x1 - x0
  {
    if x0 < x1 { RowOfOnes(f, x0, x1 - 1, y); }
  }

  lemma {:induction false} RectOfOnes(f: (int, int) -> int, x0: int, x1: int, y0: int, y1: int)
    requires x0 <= x1 && y0 <= y1
    requires forall x, y :: x0 <= x < x1 && y0 <= y < y1 ==> f(x, y) == 1
    ensures RectSum(f, x0, x1, y0, y1) == (x1 - x0) * (y1 - y0)
    decreases y1 - y0
  {
    if y0 < y1 {
      RectOfOnes(f, x0, x1, y0, y1 - 1);
      RowOfOnes(f, x0, x1, y1 - 1);
      assert (x1 - x0) * (y1 - y0) == (x1 - x0) * (y1 - 1 - y0) + (x1 - x0);
    }
  }

  function ClippedArea(g: Gray, x: int, y: int): int {
    (Min(g.w - 1, x + g.Radius()) - Max(0, x - g.Radius()) + 1)
    * (Min(g.h - 1, y + g.Radius()) - Max(0, y - g.Radius()) + 1)
  }

  /** The area the code divides by is the number of image pixels in the window. */
  lemma WindowHoldsItsCentre(g: Gray, x: int, y: int)
    requires g.Inside(x, y)
    ensures g.WindowCount(x, y) == ClippedArea(g, x, y) > 0
  {
    hide RectSum, Gray.Radius;
    var r := g.Radius();
    var x0, x1, y0, y1 := Max(0, x - r), Min(g.w, x + r + 1), Max(0, y - r), Min(g.h, y + r + 1);
    Clipping(g, g.Ones(), x - r, x + r + 1, y - r, y + r + 1);
    RectOfOnes(g.Ones(), x0, x1, y0, y1);
    Positive(x1 - x0, y1 - y0);
  }

  // ---------------------------------------------------------------- the window, pixel by pixel

  /** A distance along one axis that the window covers: at most ten, or at most a 32nd of the width. */
  predicate Near(w: nat, d: int) {
    -10 <= d <= 10 || (32 * d <= w && -32 * d <= w)
  }

  /** The values of those of the first n pixels, row by row, that are near (x, y) in both directions. */
  function NearSum(values: seq<int>, w: nat, x: int, y: int, n: nat): int
    requires w > 0 && n <= |values|
  {
    if n == 0 then 0
    else
      NearSum(values, w, x, y, n - 1)
      + if Near(w, (n - 1) % w - x) && Near(w, (n - 1) / w - y) then values[n - 1] else 0
  }

  lemma RadiusMeans(g: Gray, d: int)
    ensures -(g.Radius() as int) <= d <= g.Radius() <==> -10 <= d <= 10 || (32 * d <= g.w && -32 * d <= g.w)
  {
  }

  lemma {:induction false} SameRow(f: (int, int) -> int, m: (int, int) -> int, x0: int, x1: int, y: int)
    requires forall x :: x0 <= x < x1 ==> f(x, y) == m(x, y)
    ensures RowSum(f, x0, x1, y) == RowSum(m, x0, x1, y)
    decreases x1 - x0
  {
    if x0 < x1 { SameRow(f, m, x0, x1 - 1, y); }
  }

  lemma {:induction false} SameRect(f: (int, int) -> int, m: (int, int) -> int, x0: int, x1: int, y0: int, y1: int)
    requires forall x, y :: x0 <= x < x1 && y0 <= y < y1 ==> f(x, y) == m(x, y)
    ensures RectSum(f, x0, x1, y0, y1) == RectSum(m, x0, x1, y0, y1)
    decreases y1 - y0
  {
    if y0 < y1 {
      SameRect(f, m, x0, x1, y0, y1 - 1);
      SameRow(f, m, x0, x1, y1 - 1);
    }
  }

  /** The function is the values of the pixels near (x, y), and nothing elsewhere. */
  ghost predicate Masks(g: Gray, values: seq<int>, x: int, y: int, m: (int, int) -> int) {
    && |values| == g.w * g.h
    && (forall a, b :: !g.Inside(a, b) ==> m(a, b) == 0)
    && (forall a, b :: g.Inside(a, b) ==>
          && 0 <= At(g.w, a, b) < |values|
          && m(a, b) == if Near(g.w, a - x) && Near(g.w, b - y) then values[At(g.w, a, b)] else 0)
  }

  lemma {:induction false} NearRow(g: Gray, values: seq<int>, x: int, y: int, m: (int, int) -> int, a: nat, b: nat)
    requires Masks(g, values, x, y, m) && g.w > 0 && a <= g.w && b < g.h
    ensures 0 <= At(g.w, 0, b) <= At(g.w, a, b) <= |values|
    ensures NearSum(values, g.w, x, y, At(g.w, a, b))
         == NearSum(values, g.w, x, y, At(g.w, 0, b)) + RowSum(m, 0, a, b)
    decreases a
  {
    hide At, Near;
    InBounds(0, b, g.w, g.h);
    if a > 0 {
      NearRow(g, values, x, y, m, a - 1, b);
      InBounds(a - 1, b, g.w, g.h);
      Stepping(g.w, a - 1, b);
      RowAndColumn(a - 1, b, g.w);
    }
  }

  lemma {:induction false} NearRows(g: Gray, values: seq<int>, x: int, y: int, m: (int, int) -> int, b: nat)
    requires Masks(g, values, x, y, m) && g.w > 0 && b <= g.h
    ensures 0 <= At(g.w, 0, b) <= |values|
    ensures NearSum(values, g.w, x, y, At(g.w, 0, b)) == RectSum(m, 0, g.w, 0, b)
    decreases b
  {
    hide At, Near, Masks, RowSum;
    Ends(g.w, g.h);
    if b > 0 {
      NearRows(g, values, x, y, m, b - 1);
      NearRow(g, values, x, y, m, g.w, b - 1);
      Stepping(g.w, 0, b - 1);
    }
  }

  /** The values of f at the pixels near (x, y). */
  function Mask(g: Gray, f: (int, int) -> int, x: int, y: int): (int, int) -> int {
    (a: int, b: int) => if g.Inside(a, b) && Near(g.w, a - x) && Near(g.w, b - y) then f(a, b) else 0
  }

  /** Being near is being at most the radius away. */
  lemma NearMeans(g: Gray)
    ensures forall d :: Near(g.w, d) <==> -(g.Radius() as int) <= d <= g.Radius()
  {
    forall d ensures Near(g.w, d) <==> -(g.Radius() as int) <= d <= g.Radius() {
      RadiusMeans(g, d);
    }
  }

  lemma MaskedWindow(g: Gray, f: (int, int) -> int, x: int, y: int)
    requires g.Inside(x, y)
    requires forall a, b :: !g.Inside(a, b) ==> f(a, b) == 0
    ensures RectSum(f, x - g.Radius(), x + g.Radius() + 1, y - g.Radius(), y + g.Radius() + 1)
         == RectSum(Mask(g, f, x, y), 0, g.w, 0, g.h)
  {
    hide RectSum, Near, Gray.Radius;
    NearMeans(g);
    var r, m := g.Radius(), Mask(g, f, x, y);
    SameRect(f, m, x - r, x + r + 1, y - r, y + r + 1);
    Clipping(g, m, x - r, x + r + 1, y - r, y + r + 1);
    Shrinking(m, 0, g.w, 0, g.h, Max(0, x - r), Min(g.w, x + r + 1), Max(0, y - r), Min(g.h, y + r + 1));
  }

  /** A window sum is the sum over the near pixels. */
  lemma WindowIsNear(g: Gray, values: seq<int>, f: (int, int) -> int, x: int, y: int)
    requires g.Inside(x, y) && |values| == g.w * g.h
    requires forall a, b :: !g.Inside(a, b) ==> f(a, b) == 0
    requires forall a, b :: g.Inside(a, b) ==> 0 <= At(g.w, a, b) < |values| && f(a, b) == values[At(g.w, a, b)]
    ensures RectSum(f, x - g.Radius(), x + g.Radius() + 1, y - g.Radius(), y + g.Radius() + 1)
         == NearSum(values, g.w, x, y, g.w * g.h)
  {
    hide RectSum, At, NearSum, Near, Gray.Radius;
    MaskedWindow(g, f, x, y);
    NearRows(g, values, x, y, Mask(g, f, x, y), g.h);
    Ends(g.w, g.h);
  }

  /** The pixels that the window counts and sums are those at most ten, or a 32nd of the width, away on both axes. */
  lemma WindowMeans(g: Gray, x: int, y: int)
    requires g.Valid() && g.Inside(x, y)
    ensures g.WindowSum(x, y) == NearSum(g.lum, g.w, x, y, g.w * g.h)
    ensures g.WindowCount(x, y) == NearSum(seq(g.w * g.h, _ => 1), g.w, x, y, g.w * g.h)
  {
    hide RectSum, At, NearSum, Gray.Radius;
    forall a, b | g.Inside(a, b) ensures 0 <= At(g.w, a, b) < g.w * g.h {
      InBounds(a, b, g.w, g.h);
    }
    WindowIsNear(g, g.lum, g.Lums(), x, y);
    WindowIsNear(g, seq(g.w * g.h, _ => 1), g.Ones(), x, y);
  }

  // ---------------------------------------------------------------- luminance

  function Luma(d: seq<Byte>, p: nat): (l: Byte)
    requires 4 * p + 2 < |d|
  {
    var r: int, g: int, b: int := d[4 * p], d[4 * p + 1], d[4 * p + 2];
    (r + g * 6 + b * 3) / 10
  }

  function LumaPlane(d: seq<Byte>): (lum: seq<Byte>)
    requires |d| % 4 == 0
    ensures |lum| == |d| / 4
  {
    seq(|d| / 4, p requires 0 <= p < |d| / 4 => Luma(d, p))
  }

  /** RGBA bytes to one luminance byte a pixel. */
  method Luminance(d: seq<Byte>, w: nat, h: nat) returns (lum: array<Byte>)
    requires |d| == 4 * (w * h)
    ensures fresh(lum) && lum[..] == LumaPlane(d) && lum.Length == w * h
    ensures forall p :: 0 <= p < w * h ==>
              var r: int, g: int, b: int, l: int := d[4 * p], d[4 * p + 1], d[4 * p + 2], lum[p];
              10 * l <= r + 6 * g + 3 * b < 10 * l + 10
  {
    lum := new Byte[w * h];
    var i, p := 0, 0;
    while i < |d|
      invariant i == 4 * p && i <= |d|
      invariant forall k :: 0 <= k < p ==> lum[k] == Luma(d, k)
    {
      var r: int, g: int, b: int := d[i], d[i + 1], d[i + 2];
      lum[p] := (r + g * 6 + b * 3) / 10;
      i, p := i + 4, p + 1;
    }
  }

  // ---------------------------------------------------------------- integral image

  /** What cell q of the integral image holds: everything above and to the left. */
  ghost function Corner(g: Gray, q: nat): int
    requires g.Valid()
  {
    RectSum(g.Lums(), 0, q % (g.w + 1), 0, q / (g.w + 1))
  }

  ghost predicate IsIntegral(g: Gray, integ: array<int>)
    requires g.Valid()
    reads integ
  {
    && integ.Length == (g.w + 1) * (g.h + 1)
    && forall q :: 0 <= q < integ.Length ==> integ[q] == Corner(g, q)
  }

  lemma CornerIs(g: Gray, x: int, y: int)
    requires g.Valid() && 0 <= x <= g.w && 0 <= y <= g.h
    ensures 0 <= At(g.w + 1, x, y) < (g.w + 1) * (g.h + 1)
    ensures Corner(g, At(g.w + 1, x, y)) == RectSum(g.Lums(), 0, x, 0, y)
  {
    hide RectSum;
    InBounds(x, y, g.w + 1, g.h + 1);
    RowAndColumn(x, y, g.w + 1);
  }

  lemma CornerOnEdges(g: Gray, k: int)
    requires g.Valid()
    ensures 0 <= k <= g.w ==> Corner(g, k) == 0
    ensures 0 <= k <= g.h ==> 0 <= At(g.w + 1, 0, k) < (g.w + 1) * (g.h + 1) && Corner(g, At(g.w + 1, 0, k)) == 0
  {
    if 0 <= k <= g.w { CornerIs(g, k, 0); }
    if 0 <= k <= g.h {
      CornerIs(g, 0, k);
      RectOfZeros(g.Lums(), 0, 0, 0, k);
    }
  }

  lemma CornerStep(g: Gray, x: int, y: int)
    requires g.Valid() && g.Inside(x, y)
    ensures 0 <= At(g.w + 1, x + 1, y) < At(g.w + 1, x + 1, y + 1) < (g.w + 1) * (g.h + 1)
    ensures Corner(g, At(g.w + 1, x + 1, y + 1))
         == Corner(g, At(g.w + 1, x + 1, y)) + RowSum(g.Lums(), 0, x + 1, y)
  {
    hide Corner;
    CornerIs(g, x + 1, y);
    CornerIs(g, x + 1, y + 1);
    assert At(g.w + 1, x + 1, y + 1) == At(g.w + 1, x + 1, y) + g.w + 1;
  }

  /** Filled up to and including the given cell, zero after it. */
  ghost predicate IntegralUpTo(g: Gray, integ: array<int>, last: int)
    requires g.Valid()
    reads integ
  {
    && integ.Length == (g.w + 1) * (g.h + 1)
    && (forall q :: 0 <= q <= last && q < integ.Length ==> integ[q] == Corner(g, q))
    && (forall q :: last < q && 0 <= q < integ.Length ==> integ[q] == 0)
  }

  method IntegrateRow(g: Gray, integ: array<int>, y: nat)
    requires g.Valid() && y < g.h && IntegralUpTo(g, integ, At(g.w + 1, g.w, y))
    modifies integ
    ensures IntegralUpTo(g, integ, At(g.w + 1, g.w, y + 1))
  {
    hide Corner, At;
    var w, h := g.w, g.h;
    var row := 0;
    var x := 0;
    Stepping(w + 1, w, y);
    CornerOnEdges(g, y + 1);
    while x < w
      invariant 0 <= x <= w
      invariant row == RowSum(g.Lums(), 0, x, y)
      invariant 0 <= At(w + 1, x, y + 1)
      invariant IntegralUpTo(g, integ, At(w + 1, x, y + 1))
    {
      InBounds(x, y, w, h);
      CornerStep(g, x, y);
      Stepping(w + 1, x, y + 1);
      row := row + g.lum[At(w, x, y)];
      integ[At(w + 1, x + 1, y + 1)] := integ[At(w + 1, x + 1, y)] + row;
      x := x + 1;
    }
  }

  /** The integral image; cell (x, y) of it is in row y of w + 1 cells. */
  method Integrate(g: Gray) returns (integ: array<int>)
    requires g.Valid()
    ensures fresh(integ) && IsIntegral(g, integ)
  {
    hide Corner, At;
    Ends(g.w + 1, g.h + 1);
    integ := new int[(g.w + 1) * (g.h + 1)](_ => 0);
    forall q | 0 <= q <= g.w ensures Corner(g, q) == 0 { CornerOnEdges(g, q); }
    assert At(g.w + 1, g.w, 0) == g.w by { RowZero(g.w + 1, g.w); }
    var y := 0;
    while y < g.h
      invariant 0 <= y <= g.h
      invariant IntegralUpTo(g, integ, At(g.w + 1, g.w, y))
    {
      IntegrateRow(g, integ, y);
      y := y + 1;
    }
    Stepping(g.w + 1, g.w, g.h);
  }

  // ---------------------------------------------------------------- thresholding

  /** The naive rule at cell p. */
  function IdealAt(g: Gray, p: nat): Byte
    requires g.Valid() && p < g.w * g.h
  {
    assert g.w == 0 ==> g.w * g.h == 0;
    IndexSplits(p, g.w, g.h);
    if g.White(p % g.w, p / g.w) then 255 else 0
  }

  /** The image that the naive rule gives. */
  function Ideal(g: Gray): (bin: seq<Byte>)
    requires g.Valid()
    ensures |bin| == g.w * g.h
  {
    seq(g.w * g.h, p requires 0 <= p < g.w * g.h => IdealAt(g, p))
  }

  lemma Compared(l: int, sum: int, count: int)
    requires count > 0
    ensures l as real >= sum as real / count as real - OFFSET <==> (l + 8) * count >= sum
  {
    var mean := sum as real / count as real;
    assert mean * count as real == sum as real;
    Scaled((l + 8) as real, mean, count as real);
    assert ((l + 8) * count) as real == (l + 8) as real * count as real;
  }

  lemma Scaled(a: real, b: real, c: real)
    requires c > 0.0
    ensures a >= b <==> a * c >= b * c
  {
    assert a * c - b * c == (a - b) * c;
  }

  /** A pixel is white exactly when it, and 8 more, times the number of near pixels is at least their sum. */
  lemma IdealMeans(g: Gray, p: nat)
    requires g.Valid() && g.w > 0 && p < g.w * g.h
    ensures var sum := NearSum(g.lum, g.w, p % g.w, p / g.w, g.w * g.h);
            var count := NearSum(seq(g.w * g.h, _ => 1), g.w, p % g.w, p / g.w, g.w * g.h);
            Ideal(g)[p] == if (g.lum[p] + 8) * count >= sum then 255 else 0
  {
    hide NearSum, Near, RectSum, At, Gray.WindowSum, Gray.WindowCount, Gray.Radius;
    IndexSplits(p, g.w, g.h);
    var x, y := p % g.w, p / g.w;
    WindowMeans(g, x, y);
    WindowHoldsItsCentre(g, x, y);
    Compared(g.lum[p], g.WindowSum(x, y), g.WindowCount(x, y));
  }

  function Blacks(bin: seq<Byte>): (n: nat)
    ensures n <= |bin|
  {
    if bin == [] then 0 else Blacks(bin[..|bin| - 1]) + if bin[|bin| - 1] == 0 then 1 else 0
  }

  /** How many of the pixels are zero. */
  lemma {:induction false} BlacksMean(bin: seq<Byte>)
    ensures Blacks(bin) == |set p | 0 <= p < |bin| && bin[p] == 0|
  {
    var all := set p | 0 <= p < |bin| && bin[p] == 0;
    if bin != [] {
      var n := |bin| - 1;
      BlacksMean(bin[..n]);
      var before := set p | 0 <= p < n && bin[..n][p] == 0;
      assert before == set p | 0 <= p < |bin[..n]| && bin[..n][p] == 0;
      assert all == before + if bin[n] == 0 then {n} else {};
    }
  }

  /** Four cells of the integral image give the naive window sum; the area is the window's. */
  lemma WindowFromCorners(g: Gray, x: int, y: int, x0: int, x1: int, y0: int, y1: int)
    requires g.Valid() && g.Inside(x, y)
    requires x0 == Max(0, x - g.Radius()) && x1 == Min(g.w - 1, x + g.Radius())
    requires y0 == Max(0, y - g.Radius()) && y1 == Min(g.h - 1, y + g.Radius())
    ensures 0 <= At(g.w + 1, x1 + 1, y1 + 1) < (g.w + 1) * (g.h + 1)
    ensures 0 <= At(g.w + 1, x1 + 1, y0) < (g.w + 1) * (g.h + 1)
    ensures 0 <= At(g.w + 1, x0, y1 + 1) < (g.w + 1) * (g.h + 1)
    ensures 0 <= At(g.w + 1, x0, y0) < (g.w + 1) * (g.h + 1)
    ensures Corner(g, At(g.w + 1, x1 + 1, y1 + 1)) - Corner(g, At(g.w + 1, x1 + 1, y0))
          - Corner(g, At(g.w + 1, x0, y1 + 1)) + Corner(g, At(g.w + 1, x0, y0)) == g.WindowSum(x, y)
  {
    hide Corner, At, RectSum, Gray.Radius;
    CornerIs(g, x1 + 1, y1 + 1);
    CornerIs(g, x1 + 1, y0);
    CornerIs(g, x0, y1 + 1);
    CornerIs(g, x0, y0);
    FourCorners(g.Lums(), x0, x1 + 1, y0, y1 + 1);
    var r := g.Radius();
    Clipping(g, g.Lums(), x - r, x + r + 1, y - r, y + r + 1);
  }

  /** One pixel, as the code decides it. */
  method Decide(g: Gray, integ: array<int>, r: int, x: int, y: int) returns (white: bool)
    requires g.Valid() && g.Inside(x, y) && r == g.Radius()
    requires IsIntegral(g, integ)
    ensures white == g.White(x, y)
  {
    hide Corner, At, RectSum, Gray.Radius, Gray.WindowSum, Gray.WindowCount;
    var w, h := g.w, g.h;
    var y0, y1 := Max(0, y - r), Min(h - 1, y + r);
    var x0, x1 := Max(0, x - r), Min(w - 1, x + r);
    WindowFromCorners(g, x, y, x0, x1, y0, y1);
    WindowHoldsItsCentre(g, x, y);
    InBounds(x, y, w, h);
    var area := (x1 - x0 + 1) * (y1 - y0 + 1);
    var sum := integ[At(w + 1, x1 + 1, y1 + 1)] - integ[At(w + 1, x1 + 1, y0)]
             - integ[At(w + 1, x0, y1 + 1)] + integ[At(w + 1, x0, y0)];
    white := g.lum[At(w, x, y)] as real >= sum as real / area as real - OFFSET;
  }

  /** One row, with the count of black pixels carried along. */
  method ThresholdRow(g: Gray, integ: array<int>, y: nat, bin: array<Byte>, before: nat) returns (blacks: nat)
    requires g.Valid() && y < g.h && IsIntegral(g, integ)
    requires bin.Length == |Ideal(g)| && 0 <= At(g.w, 0, y) <= bin.Length
    requires bin[..At(g.w, 0, y)] == Ideal(g)[..At(g.w, 0, y)]
    requires before == Blacks(Ideal(g)[..At(g.w, 0, y)])
    modifies bin
    ensures 0 <= At(g.w, 0, y + 1) <= bin.Length
    ensures bin[..At(g.w, 0, y + 1)] == Ideal(g)[..At(g.w, 0, y + 1)]
    ensures blacks == Blacks(Ideal(g)[..At(g.w, 0, y + 1)])
  {
    hide At, Ideal, IsIntegral, Gray.White, Gray.Radius, Gray.Valid, Blacks;
    ghost var ideal := Ideal(g);
    var w, r := g.w, g.Radius();
    blacks := before;
    var x := 0;
    ghost var k := At(w, 0, y);
    while x < w
      invariant 0 <= x <= w && k == At(w, x, y) && 0 <= k <= bin.Length
      invariant forall q :: 0 <= q < k ==> bin[q] == ideal[q]
      invariant blacks == Blacks(ideal[..k])
    {
      var white := Decide(g, integ, r, x, y);
      IdealOfPixel(g, x, y);
      Stepping(w, x, y);
      BlacksOfPrefix(ideal, k);
      bin[At(w, x, y)] := if white then 255 else 0;
      if !white { blacks := blacks + 1; }
      x := x + 1;
      k := k + 1;
    }
    Stepping(w, x, y);
  }

  /** The thresholded image is the one the naive rule gives, and its black pixels are counted. */
  method Threshold(g: Gray, integ: array<int>) returns (bin: array<Byte>, blacks: nat)
    requires g.Valid() && IsIntegral(g, integ)
    ensures fresh(bin) && bin[..] == Ideal(g)
    ensures blacks == Blacks(Ideal(g))
  {
    hide At, IsIntegral;
    Ends(g.w, g.h);
    bin := new Byte[g.w * g.h];
    blacks := 0;
    var y := 0;
    while y < g.h
      invariant 0 <= y <= g.h
      invariant 0 <= At(g.w, 0, y) <= bin.Length
      invariant bin[..At(g.w, 0, y)] == Ideal(g)[..At(g.w, 0, y)]
      invariant blacks == Blacks(Ideal(g)[..At(g.w, 0, y)])
    {
      blacks := ThresholdRow(g, integ, y, bin, blacks);
      y := y + 1;
    }
    assert Ideal(g)[..bin.Length] == Ideal(g) && bin[..bin.Length] == bin[..];
  }

  lemma BlacksOfPrefix(bin: seq<Byte>, p: nat)
    requires p < |bin|
    ensures Blacks(bin[..p + 1]) == Blacks(bin[..p]) + if bin[p] == 0 then 1 else 0
  {
    assert bin[..p + 1][..p] == bin[..p];
  }

  lemma IdealOfPixel(g: Gray, x: int, y: int)
    requires g.Valid() && g.Inside(x, y)
    ensures 0 <= At(g.w, x, y) < g.w * g.h
    ensures Ideal(g)[At(g.w, x, y)] == if g.White(x, y) then 255 else 0
  {
    InBounds(x, y, g.w, g.h);
    RowAndColumn(x, y, g.w);
  }

  // ---------------------------------------------------------------- inversion

  predicate BlackAndWhite(bin: seq<Byte>) {
    forall p :: 0 <= p < |bin| ==> bin[p] == 0 || bin[p] == 255
  }

  /** Inverted when black pixels are the majority. */
  function Normalized(bin: seq<Byte>): (out: seq<Byte>) {
    if 2 * Blacks(bin) > |bin| then Invert(bin) else bin
  }

  lemma {:induction false} BlacksOfInverse(bin: seq<Byte>)
    requires BlackAndWhite(bin)
    ensures Blacks(Invert(bin)) == |bin| - Blacks(bin)
  {
    if bin != [] {
      BlacksOfInverse(bin[..|bin| - 1]);
      assert Invert(bin)[..|bin| - 1] == Invert(bin[..|bin| - 1]);
    }
  }

  /** After the optional inversion at most half of the pixels are black. */
  lemma MostlyWhite(g: Gray)
    requires g.Valid()
    ensures BlackAndWhite(Normalized(Ideal(g)))
    ensures 2 * Blacks(Normalized(Ideal(g))) <= g.w * g.h
  {
    BlacksOfInverse(Ideal(g));
  }

  method InvertInPlace(bin: array<Byte>)
    modifies bin
    ensures bin[..] == Invert(old(bin[..]))
  {
    var p := 0;
    while p < bin.Length
      invariant 0 <= p <= bin.Length
      invariant forall k :: 0 <= k < p ==> bin[k] == 255 - old(bin[k])
      invariant forall k :: p <= k < bin.Length ==> bin[k] == old(bin[k])
    {
      bin[p] := 255 - bin[p];
      p := p + 1;
    }
  }

  /** From RGBA bytes to the black-on-white image that is handed to the text recognizer. */
  method Preprocess(d: seq<Byte>, w: nat, h: nat) returns (bin: array<Byte>)
    requires |d| == 4 * (w * h)
    ensures var ideal := Ideal(Gray(w, h, LumaPlane(d)));
            && bin.Length == |ideal| && bin[..] == Normalized(ideal)
            && (forall p :: 0 <= p < bin.Length ==>
                  bin[p] == if 2 * Blacks(ideal) > w * h then 255 - ideal[p] else ideal[p])
    ensures 2 * Blacks(bin[..]) <= w * h
  {
    var lum := Luminance(d, w, h);
    var g := Gray(w, h, lum[..]);
    var integ := Integrate(g);
    var blacks;
    bin, blacks := Threshold(g, integ);
    if 2 * blacks > w * h {
      InvertInPlace(bin);
    }
    MostlyWhite(g);
  }
}
