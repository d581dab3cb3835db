/**
 * The integral-image box mean and the structural similarity of scripts/diffusion_quality.py,
 * over the reals.  Arrays are values: a shape and an entry for every index.
 *
 * First come sums over rows and rectangles.  The four shifted slices of the integral image are
 * then shown to give the sum over the edge-clamped window (`BoxMeanIsWindowMean`).  Because the
 * local moments are window means, the variances are non-negative and bound the covariance
 * (`LocalStatistical`), which keeps every entry of the map between -1 and 1 (`SsimAtBounds`)
 * and so the mean (`SimilarityRange`).
 *
 * Products of reals are passed around as named parameters, each with the equation it satisfies.
 */
module Ssim {
  datatype Grid = Grid(rows: nat, cols: nat, at: (int, int) -> real)

  function At(g: Grid, i: int, j: int): real
    requires 0 <= i < g.rows && 0 <= j < g.cols
  {
    g.at(i, j)
  }

  // ---------------------------------------------------------------- sums

  function Sum(f: int -> real, lo: int, hi: int): real
    requires lo <= hi
    decreases hi - lo
  {
    if lo == hi then 0.0 else Sum(f, lo, hi - 1) + f(hi - 1)
  }

  lemma {:induction false} SumSplit(f: int -> real, lo: int, mid: int, hi: int)
    requires lo <= mid <= hi
    ensures Sum(f, lo, hi) == Sum(f, lo, mid) + Sum(f, mid, hi)
    decreases hi - mid
  {
    if mid < hi { SumSplit(f, lo, mid, hi - 1); }
  }

  lemma {:induction false} SumExt(f: int -> real, g: int -> real, lo: int, hi: int)
    requires lo <= hi && forall k :: lo <= k < hi ==> f(k) == g(k)
    ensures Sum(f, lo, hi) == Sum(g, lo, hi)
    decreases hi - lo
  {
    if lo < hi { SumExt(f, g, lo, hi - 1); }
  }

  /** Summing f + c * g + d. */
  lemma {:induction false} SumLinear(f: int -> real, c: real, g: int -> real, d: real, h: int -> real, lo: int, hi: int)
    requires lo <= hi && forall k :: lo <= k < hi ==> h(k) == f(k) + c * g(k) + d
    ensures Sum(h, lo, hi) == Sum(f, lo, hi) + c * Sum(g, lo, hi) + d * (hi - lo) as real
    decreases hi - lo
  {
    if lo < hi {
      SumLinear(f, c, g, d, h, lo, hi - 1);
      Distribute(c, Sum(g, lo, hi - 1), g(hi - 1));
      Distribute(d, (hi - 1 - lo) as real, 1.0);
    }
  }

  lemma Distribute(c: real, x: real, y: real)
    ensures c * (x + y) == c * x + c * y
  {
  }

  lemma {:induction false} SumBounds(f: int -> real, lo: int, hi: int, a: real, b: real)
    requires lo <= hi && forall k :: lo <= k < hi ==> a <= f(k) <= b
    ensures a * (hi - lo) as real <= Sum(f, lo, hi) <= b * (hi - lo) as real
    decreases hi - lo
  {
    if lo < hi {
      SumBounds(f, lo, hi - 1, a, b);
      Distribute(a, (hi - 1 - lo) as real, 1.0);
      Distribute(b, (hi - 1 - lo) as real, 1.0);
    }
  }

  type Entries = (int, int) -> real

  /** Column by column over rows `i0..i1` and columns `j0..j1`. */
  function Column(x: Entries, i0: int, i1: int): int -> real
    requires i0 <= i1
  {
    j => Sum(i => x(i, j), i0, i1)
  }

  function RectSum(x: Entries, i0: int, i1: int, j0: int, j1: int): real
    requires i0 <= i1 && j0 <= j1
  {
    Sum(Column(x, i0, i1), j0, j1)
  }

  lemma RectExt(x: Entries, y: Entries, i0: int, i1: int, j0: int, j1: int)
    requires i0 <= i1 && j0 <= j1
    requires forall i, j :: i0 <= i < i1 && j0 <= j < j1 ==> x(i, j) == y(i, j)
    ensures RectSum(x, i0, i1, j0, j1) == RectSum(y, i0, i1, j0, j1)
  {
    forall j | j0 <= j < j1 ensures Column(x, i0, i1)(j) == Column(y, i0, i1)(j) {
      SumExt(i => x(i, j), i => y(i, j), i0, i1);
    }
    SumExt(Column(x, i0, i1), Column(y, i0, i1), j0, j1);
  }

  lemma ColumnLinear(f: Entries, c: real, g: Entries, d: real, h: Entries, i0: int, i1: int, j: int, e: real)
    requires i0 <= i1 && e == d * (i1 - i0) as real
    requires forall i :: i0 <= i < i1 ==> h(i, j) == f(i, j) + c * g(i, j) + d
    ensures Column(h, i0, i1)(j) == Column(f, i0, i1)(j) + c * Column(g, i0, i1)(j) + e
  {
    SumLinear(i => f(i, j), c, i => g(i, j), d, i => h(i, j), i0, i1);
  }

  lemma ColumnsLinear(f: Entries, c: real, g: Entries, d: real, h: Entries, i0: int, i1: int, j0: int, j1: int, e: real)
    requires i0 <= i1 && j0 <= j1 && e == d * (i1 - i0) as real
    requires forall i, j :: i0 <= i < i1 && j0 <= j < j1 ==> h(i, j) == f(i, j) + c * g(i, j) + d
    ensures forall j :: j0 <= j < j1 ==>
      Column(h, i0, i1)(j) == Column(f, i0, i1)(j) + c * Column(g, i0, i1)(j) + e
  {
    forall j | j0 <= j < j1
      ensures Column(h, i0, i1)(j) == Column(f, i0, i1)(j) + c * Column(g, i0, i1)(j) + e
    {
      ColumnLinear(f, c, g, d, h, i0, i1, j, e);
    }
  }

  lemma RectLinear(f: Entries, c: real, g: Entries, d: real, h: Entries, i0: int, i1: int, j0: int, j1: int, e: real)
    requires i0 <= i1 && j0 <= j1 && e == d * (i1 - i0) as real
    requires forall i, j :: i0 <= i < i1 && j0 <= j < j1 ==> h(i, j) == f(i, j) + c * g(i, j) + d
    ensures RectSum(h, i0, i1, j0, j1)
      == RectSum(f, i0, i1, j0, j1) + c * RectSum(g, i0, i1, j0, j1) + e * (j1 - j0) as real
  {
    ColumnsLinear(f, c, g, d, h, i0, i1, j0, j1, e);
    RectFromColumns(f, c, g, h, i0, i1, j0, j1, e);
  }

  lemma RectFromColumns(f: Entries, c: real, g: Entries, h: Entries, i0: int, i1: int, j0: int, j1: int, e: real)
    requires i0 <= i1 && j0 <= j1
    requires forall j :: j0 <= j < j1 ==>
      Column(h, i0, i1)(j) == Column(f, i0, i1)(j) + c * Column(g, i0, i1)(j) + e
    ensures RectSum(h, i0, i1, j0, j1)
      == RectSum(f, i0, i1, j0, j1) + c * RectSum(g, i0, i1, j0, j1) + e * (j1 - j0) as real
  {
    SumLinear(Column(f, i0, i1), c, Column(g, i0, i1), e, Column(h, i0, i1), j0, j1);
  }

  lemma RectBounds(x: Entries, i0: int, i1: int, j0: int, j1: int, a: real, b: real)
    requires i0 <= i1 && j0 <= j1
    requires forall i, j :: i0 <= i < i1 && j0 <= j < j1 ==> a <= x(i, j) <= b
    ensures a * (i1 - i0) as real * (j1 - j0) as real <= RectSum(x, i0, i1, j0, j1)
    ensures RectSum(x, i0, i1, j0, j1) <= b * (i1 - i0) as real * (j1 - j0) as real
  {
    forall j | j0 <= j < j1
      ensures a * (i1 - i0) as real <= Column(x, i0, i1)(j) <= b * (i1 - i0) as real
    {
      SumBounds(i => x(i, j), i0, i1, a, b);
    }
    SumBounds(Column(x, i0, i1), j0, j1, a * (i1 - i0) as real, b * (i1 - i0) as real);
  }

  // ---------------------------------------------------------------- the array expressions

  function Clamp(k: int, n: nat): int
    requires n > 0
    ensures 0 <= Clamp(k, n) < n
  {
    if k < 0 then 0 else if k >= n then n - 1 else k
  }

  /** `np.pad(x, r, mode="edge")` */
  function PadEdge(x: Grid, r: nat): Grid
    requires x.rows > 0 && x.cols > 0
  {
    Grid(x.rows + 2 * r, x.cols + 2 * r, (i, j) => x.at(Clamp(i - r, x.rows), Clamp(j - r, x.cols)))
  }

  /** `np.cumsum(x, axis=0)` and `np.cumsum(x, axis=1)`; entries outside the array are not used. */
  function CumSumDown(x: Grid): Grid {
    x.(at := (i, j) => if i < 0 then 0.0 else Sum(k => x.at(k, j), 0, i + 1))
  }

  function CumSumAcross(x: Grid): Grid {
    x.(at := (i, j) => if j < 0 then 0.0 else Sum(k => x.at(i, k), 0, j + 1))
  }

  /** `np.pad(x, ((1, 0), (1, 0)), mode="constant")` */
  function PadZero(x: Grid): Grid {
    Grid(x.rows + 1, x.cols + 1, (i, j) => if i <= 0 || j <= 0 then 0.0 else x.at(i - 1, j - 1))
  }

  function Integral(x: Grid): Grid {
    PadZero(CumSumAcross(CumSumDown(x)))
  }

  /** The four shifted slices of `_box_mean`, whose index ranges are checked. */
  function BoxTotal(x: Grid, w: nat, i: nat, j: nat): real
    requires w > 0 && i < x.rows && j < x.cols
  {
    var ii := Integral(PadEdge(x, w / 2));
    At(ii, i + w, j + w) - At(ii, i, j + w) - At(ii, i + w, j) + At(ii, i, j)
  }

  function BoxMean(x: Grid, w: nat): Grid
    requires w > 0 && x.rows > 0 && x.cols > 0
  {
    x.(at := (i, j) => if 0 <= i < x.rows && 0 <= j < x.cols then BoxTotal(x, w, i, j) / (w * w) as real else 0.0)
  }

  // ---------------------------------------------------------------- the box mean is the window mean

  lemma IntegralIsRect(x: Grid, i: nat, j: nat)
    requires i <= x.rows && j <= x.cols
    ensures At(Integral(x), i, j) == RectSum(x.at, 0, i, 0, j)
  {
    if i == 0 {
      SumExt(Column(x.at, 0, 0), _ => 0.0, 0, j);
      SumZero(j);
    } else if j > 0 {
      var down := CumSumDown(x);
      SumExt(k => down.at(i - 1, k), Column(x.at, 0, i), 0, j);
    }
  }

  lemma {:induction false} SumZero(n: nat)
    ensures Sum(_ => 0.0, 0, n) == 0.0
  {
    if n > 0 { SumZero(n - 1); }
  }

  lemma RectSplit(x: Entries, i: nat, w: nat, j: nat)
    ensures RectSum(x, 0, i + w, 0, j) == RectSum(x, 0, i, 0, j) + RectSum(x, i, i + w, 0, j)
  {
    forall k ensures Column(x, 0, i + w)(k) == Column(x, 0, i)(k) + 1.0 * Column(x, i, i + w)(k) + 0.0 {
      SumSplit(r => x(r, k), 0, i, i + w);
    }
    SumLinear(Column(x, 0, i), 1.0, Column(x, i, i + w), 0.0, Column(x, 0, i + w), 0, j);
  }

  /** The direct sum over the edge-clamped w by w window at (i, j). */
  function WindowSum(x: Grid, w: nat, i: nat, j: nat): real
    requires x.rows > 0 && x.cols > 0
  {
    RectSum(PadEdge(x, w / 2).at, i, i + w, j, j + w)
  }

  /** The integral image gives the window mean, for every non-empty image and window. */
  lemma BoxMeanIsWindowMean(x: Grid, w: nat, i: nat, j: nat)
    requires w > 0 && i < x.rows && j < x.cols
    ensures BoxTotal(x, w, i, j) == WindowSum(x, w, i, j)
  {
    var xp := PadEdge(x, w / 2);
    assert i + w <= xp.rows && j + w <= xp.cols;
    IntegralIsRect(xp, i + w, j + w);
    IntegralIsRect(xp, i, j + w);
    IntegralIsRect(xp, i + w, j);
    IntegralIsRect(xp, i, j);
    CornersGiveWindow(xp.at, i, j, w);
  }

  lemma CornersGiveWindow(x: Entries, i: nat, j: nat, w: nat)
    ensures RectSum(x, 0, i + w, 0, j + w) - RectSum(x, 0, i, 0, j + w) - RectSum(x, 0, i + w, 0, j) + RectSum(x, 0, i, 0, j)
      == RectSum(x, i, i + w, j, j + w)
  {
    RectSplit(x, i, w, j + w);
    RectSplit(x, i, w, j);
    SumSplit(Column(x, i, i + w), 0, j, j + w);
  }

  // ---------------------------------------------------------------- window statistics

  /** The squared deviations from `m` sum to something non-negative; `c` is -2m, `mm` is m * m. */
  lemma DeviationSum(f: Entries, sq: Entries, m: real, c: real, mm: real, i0: int, i1: int, j0: int, j1: int, e: real)
    requires i0 <= i1 && j0 <= j1 && c == -2.0 * m && mm == m * m && e == mm * (i1 - i0) as real
    requires forall i, j :: i0 <= i < i1 && j0 <= j < j1 ==> sq(i, j) == f(i, j) * f(i, j)
    ensures RectSum(sq, i0, i1, j0, j1) + c * RectSum(f, i0, i1, j0, j1) + e * (j1 - j0) as real >= 0.0
  {
    var dev: Entries := (i, j) => sq(i, j) + c * f(i, j) + mm;
    forall i, j | i0 <= i < i1 && j0 <= j < j1 ensures 0.0 <= dev(i, j) {
      SquareOfDifference(f(i, j), m);
    }
    RectLinear(sq, c, f, mm, dev, i0, i1, j0, j1, e);
    RectNonNegative(dev, i0, i1, j0, j1);
  }

  /** Over a window of `n` entries, the mean of the squares is at least the square of the mean. */
  lemma VarianceNonNegative(f: Entries, sq: Entries, i0: int, i1: int, j0: int, j1: int, n: real)
    requires i0 < i1 && j0 < j1 && n == (i1 - i0) as real * (j1 - j0) as real
    requires forall i, j :: i0 <= i < i1 && j0 <= j < j1 ==> sq(i, j) == f(i, j) * f(i, j)
    ensures n > 0.0
    ensures Variance(RectSum(f, i0, i1, j0, j1), RectSum(sq, i0, i1, j0, j1), n) >= 0.0
  {
    var a, b := (i1 - i0) as real, (j1 - j0) as real;
    Positive(a, b);
    var s, q := RectSum(f, i0, i1, j0, j1), RectSum(sq, i0, i1, j0, j1);
    var m := s / n;
    DeviationSum(f, sq, m, -2.0 * m, m * m, i0, i1, j0, j1, m * m * a);
    Regroup(m * m, a, b);
    MeanOfSquares(q, s, m, n);
  }

  /** The variance from a sum `s` and a sum of squares `q` of `n` entries. */
  function Variance(s: real, q: real, n: real): real
    requires n != 0.0
  {
    q / n - (s / n) * (s / n)
  }

  function Covariance(sa: real, sb: real, sab: real, n: real): real
    requires n != 0.0
  {
    sab / n - (sa / n) * (sb / n)
  }

  lemma Positive(a: real, b: real)
    requires a > 0.0 && b > 0.0
    ensures a * b > 0.0
  {
  }

  lemma Regroup(a: real, b: real, c: real)
    ensures a * b * c == a * (b * c)
  {
  }

  lemma SquareOfDifference(x: real, m: real)
    ensures x * x + (-2.0 * m) * x + m * m == (x - m) * (x - m)
    ensures (x - m) * (x - m) >= 0.0
  {
  }

  lemma MeanOfSquares(q: real, s: real, m: real, n: real)
    requires n > 0.0 && m == s / n && q + (-2.0 * m) * s + m * m * n >= 0.0
    ensures q / n - m * m >= 0.0
  {
    assert s == m * n;
    assert (-2.0 * m) * s == -2.0 * (m * m * n) by {
      Regroup(m, m, n);
    }
    assert q >= m * m * n;
    Quotient(q, m * m, n);
  }

  lemma Quotient(q: real, a: real, n: real)
    requires n > 0.0 && q >= a * n
    ensures q / n >= a
  {
  }

  lemma {:induction false} SumNonNegative(f: int -> real, lo: int, hi: int)
    requires lo <= hi && forall k :: lo <= k < hi ==> 0.0 <= f(k)
    ensures 0.0 <= Sum(f, lo, hi)
    decreases hi - lo
  {
    if lo < hi { SumNonNegative(f, lo, hi - 1); }
  }

  lemma RectNonNegative(x: Entries, i0: int, i1: int, j0: int, j1: int)
    requires i0 <= i1 && j0 <= j1
    requires forall i, j :: i0 <= i < i1 && j0 <= j < j1 ==> 0.0 <= x(i, j)
    ensures 0.0 <= RectSum(x, i0, i1, j0, j1)
  {
    forall j | j0 <= j < j1 ensures 0.0 <= Column(x, i0, i1)(j) {
      SumNonNegative(i => x(i, j), i0, i1);
    }
    SumNonNegative(Column(x, i0, i1), j0, j1);
  }

  lemma SumOfQuotients(x: real, y: real, t: real, n: real)
    requires n != 0.0
    ensures (x + t * y) / n == x / n + t * (y / n)
  {
    var p, q := x / n, y / n;
    assert x == p * n && y == q * n;
    assert x + t * y == (p + t * q) * n by {
      assert t * (q * n) == (t * q) * n;
    }
  }

  /** Var(a + t b) = Var a + Var b + 2 t Cov(a, b), for t = 1 or -1. */
  lemma VarianceOfSum(sa: real, sb: real, qa: real, qb: real, sab: real, t: real, n: real)
    requires n > 0.0 && (t == 1.0 || t == -1.0)
    ensures Variance(sa + t * sb, (qa + 2.0 * t * sab) + qb, n)
      == Variance(sa, qa, n) + Variance(sb, qb, n) + 2.0 * t * Covariance(sa, sb, sab, n)
  {
    SumOfQuotients(sa, sb, t, n);
    SumOfQuotients(qa, sab, 2.0 * t, n);
    SumOfQuotients(qa + 2.0 * t * sab, qb, 1.0, n);
    var x, y := sa / n, sb / n;
    assert (x + t * y) * (x + t * y) == x * x + y * y + 2.0 * t * (x * y);
  }

  /** `p` is the entrywise product of `x` and `y` on the rectangle. */
  ghost predicate IsProduct(p: Entries, x: Entries, y: Entries, i0: int, i1: int, j0: int, j1: int) {
    forall i, j :: i0 <= i < i1 && j0 <= j < j1 ==> p(i, j) == x(i, j) * y(i, j)
  }

  lemma SquareOfSum(x: real, y: real, t: real, xx: real, yy: real, xy: real)
    requires t == 1.0 || t == -1.0
    requires xx == x * x && yy == y * y && xy == x * y
    ensures (xx + (2.0 * t) * xy + 0.0) + 1.0 * yy + 0.0 == (x + t * y + 0.0) * (x + t * y + 0.0)
  {
  }

  lemma CombinedIsSquare(a: Entries, b: Entries, aa: Entries, bb: Entries, ab: Entries, t: real, d: Entries, dd: Entries, i0: int, i1: int, j0: int, j1: int)
    requires t == 1.0 || t == -1.0
    requires IsProduct(aa, a, a, i0, i1, j0, j1) && IsProduct(bb, b, b, i0, i1, j0, j1) && IsProduct(ab, a, b, i0, i1, j0, j1)
    requires forall i, j :: d(i, j) == a(i, j) + t * b(i, j) + 0.0
    requires forall i, j :: dd(i, j) == (aa(i, j) + (2.0 * t) * ab(i, j) + 0.0) + 1.0 * bb(i, j) + 0.0
    ensures IsProduct(dd, d, d, i0, i1, j0, j1)
  {
    forall i, j | i0 <= i < i1 && j0 <= j < j1 ensures dd(i, j) == d(i, j) * d(i, j) {
      SquareOfSum(a(i, j), b(i, j), t, aa(i, j), bb(i, j), ab(i, j));
    }
  }

  lemma Plus(f: Entries, c: real, g: Entries, i0: int, i1: int, j0: int, j1: int) returns (h: Entries)
    requires i0 <= i1 && j0 <= j1
    ensures forall i, j :: h(i, j) == f(i, j) + c * g(i, j) + 0.0
    ensures RectSum(h, i0, i1, j0, j1) == RectSum(f, i0, i1, j0, j1) + c * RectSum(g, i0, i1, j0, j1)
  {
    h := (i, j) => f(i, j) + c * g(i, j) + 0.0;
    RectLinear(f, c, g, 0.0, h, i0, i1, j0, j1, 0.0);
  }

  /** The entries of a + t b and their squares, with their sums over the window. */
  lemma Combined(a: Entries, b: Entries, aa: Entries, bb: Entries, ab: Entries, i0: int, i1: int, j0: int, j1: int, t: real)
    returns (d: Entries, dd: Entries)
    requires i0 < i1 && j0 < j1 && (t == 1.0 || t == -1.0)
    requires IsProduct(aa, a, a, i0, i1, j0, j1) && IsProduct(bb, b, b, i0, i1, j0, j1) && IsProduct(ab, a, b, i0, i1, j0, j1)
    ensures IsProduct(dd, d, d, i0, i1, j0, j1)
    ensures RectSum(d, i0, i1, j0, j1) == RectSum(a, i0, i1, j0, j1) + t * RectSum(b, i0, i1, j0, j1)
    ensures RectSum(dd, i0, i1, j0, j1)
      == (RectSum(aa, i0, i1, j0, j1) + 2.0 * t * RectSum(ab, i0, i1, j0, j1)) + RectSum(bb, i0, i1, j0, j1)
  {
    d := Plus(a, t, b, i0, i1, j0, j1);
    var cross := Plus(aa, 2.0 * t, ab, i0, i1, j0, j1);
    dd := Plus(cross, 1.0, bb, i0, i1, j0, j1);
    CombinedIsSquare(a, b, aa, bb, ab, t, d, dd, i0, i1, j0, j1);
  }

  /** Twice the covariance lies between plus and minus the sum of the variances. */
  lemma CovarianceBound(a: Entries, b: Entries, aa: Entries, bb: Entries, ab: Entries, i0: int, i1: int, j0: int, j1: int, n: real, t: real)
    requires i0 < i1 && j0 < j1 && n == (i1 - i0) as real * (j1 - j0) as real && n > 0.0 && (t == 1.0 || t == -1.0)
    requires IsProduct(aa, a, a, i0, i1, j0, j1) && IsProduct(bb, b, b, i0, i1, j0, j1) && IsProduct(ab, a, b, i0, i1, j0, j1)
    ensures Variance(RectSum(a, i0, i1, j0, j1), RectSum(aa, i0, i1, j0, j1), n)
      + Variance(RectSum(b, i0, i1, j0, j1), RectSum(bb, i0, i1, j0, j1), n)
      + 2.0 * t * Covariance(RectSum(a, i0, i1, j0, j1), RectSum(b, i0, i1, j0, j1), RectSum(ab, i0, i1, j0, j1), n) >= 0.0
  {
    var d, dd := Combined(a, b, aa, bb, ab, i0, i1, j0, j1, t);
    VarianceNonNegative(d, dd, i0, i1, j0, j1, n);
    VarianceOfSum(RectSum(a, i0, i1, j0, j1), RectSum(b, i0, i1, j0, j1), RectSum(aa, i0, i1, j0, j1),
                  RectSum(bb, i0, i1, j0, j1), RectSum(ab, i0, i1, j0, j1), t, n);
  }

  // ---------------------------------------------------------------- structural similarity

  const C1 := 6.5025     // (0.01 * 255) ** 2
  const C2 := 58.5225    // (0.03 * 255) ** 2

  predicate SameShape(a: Grid, b: Grid) {
    a.rows == b.rows && a.cols == b.cols
  }

  function Product(a: Grid, b: Grid): Grid
    requires SameShape(a, b)
  {
    a.(at := (i, j) => a.at(i, j) * b.at(i, j))
  }

  /** The five box means at one entry. */
  datatype Local = Local(muA: real, muB: real, meanAA: real, meanBB: real, meanAB: real) {
    function VarA(): real { meanAA - muA * muA }
    function VarB(): real { meanBB - muB * muB }
    function Cov(): real { meanAB - muA * muB }
    function Numerator(): real { (2.0 * (muA * muB) + C1) * (2.0 * Cov() + C2) }
    function Denominator(): real { (muA * muA + muB * muB + C1) * (VarA() + VarB() + C2) }
  }

  /** No negative variance, and a covariance within the variances. */
  predicate Statistical(l: Local) {
    && l.VarA() >= 0.0 && l.VarB() >= 0.0
    && -(l.VarA() + l.VarB()) <= 2.0 * l.Cov() <= l.VarA() + l.VarB()
  }

  lemma AbsProduct(x: real, a: real, y: real, b: real)
    requires -a <= x <= a && -b <= y <= b
    ensures -(a * b) <= x * y <= a * b
  {
    NonNegativeProduct(a - x, b + y);
    NonNegativeProduct(a + x, b - y);
    NonNegativeProduct(a - x, b - y);
    NonNegativeProduct(a + x, b + y);
  }

  lemma NonNegativeProduct(x: real, y: real)
    requires x >= 0.0 && y >= 0.0
    ensures x * y >= 0.0
  {
  }

  lemma TwiceProduct(x: real, y: real)
    ensures -(x * x + y * y) <= 2.0 * (x * y) <= x * x + y * y
  {
    SquareOfDifference(x, y);
    SquareOfDifference(x, -y);
  }

  lemma RatioBounds(num: real, den: real)
    requires den > 0.0 && -den <= num <= den
    ensures -1.0 <= num / den <= 1.0
    ensures num == den ==> num / den == 1.0
  {
  }

  lemma LocalBounds(l: Local)
    requires Statistical(l)
    ensures l.Denominator() > 0.0
    ensures -l.Denominator() <= l.Numerator() <= l.Denominator()
  {
    TwiceProduct(l.muA, l.muB);
    SquareOfDifference(l.muA, 0.0);
    SquareOfDifference(l.muB, 0.0);
    var x, a := 2.0 * (l.muA * l.muB) + C1, l.muA * l.muA + l.muB * l.muB + C1;
    var y, b := 2.0 * l.Cov() + C2, l.VarA() + l.VarB() + C2;
    Positive(a, b);
    AbsProduct(x, a, y, b);
  }

  function LocalAt(a: Grid, b: Grid, w: nat, i: nat, j: nat): Local
    requires w > 0 && SameShape(a, b) && i < a.rows && j < a.cols
  {
    Local(BoxMean(a, w).at(i, j), BoxMean(b, w).at(i, j),
          BoxMean(Product(a, a), w).at(i, j), BoxMean(Product(b, b), w).at(i, j), BoxMean(Product(a, b), w).at(i, j))
  }

  /** The same five numbers as direct means over a window of `n` entries. */
  function WindowLocal(a: Entries, b: Entries, aa: Entries, bb: Entries, ab: Entries, i0: int, i1: int, j0: int, j1: int, n: real): Local
    requires i0 < i1 && j0 < j1 && n > 0.0
  {
    Local(RectSum(a, i0, i1, j0, j1) / n, RectSum(b, i0, i1, j0, j1) / n,
          RectSum(aa, i0, i1, j0, j1) / n, RectSum(bb, i0, i1, j0, j1) / n, RectSum(ab, i0, i1, j0, j1) / n)
  }

  lemma WindowStatistical(a: Entries, b: Entries, aa: Entries, bb: Entries, ab: Entries, i0: int, i1: int, j0: int, j1: int, n: real)
    requires i0 < i1 && j0 < j1 && n == (i1 - i0) as real * (j1 - j0) as real && n > 0.0
    requires IsProduct(aa, a, a, i0, i1, j0, j1) && IsProduct(bb, b, b, i0, i1, j0, j1) && IsProduct(ab, a, b, i0, i1, j0, j1)
    ensures Statistical(WindowLocal(a, b, aa, bb, ab, i0, i1, j0, j1, n))
  {
    VarianceNonNegative(a, aa, i0, i1, j0, j1, n);
    VarianceNonNegative(b, bb, i0, i1, j0, j1, n);
    CovarianceBound(a, b, aa, bb, ab, i0, i1, j0, j1, n, 1.0);
    CovarianceBound(a, b, aa, bb, ab, i0, i1, j0, j1, n, -1.0);
  }

  lemma BoxMeanAt(x: Grid, w: nat, i: nat, j: nat)
    requires w > 0 && i < x.rows && j < x.cols
    ensures (w * w) as real > 0.0
    ensures BoxMean(x, w).at(i, j) == RectSum(PadEdge(x, w / 2).at, i, i + w, j, j + w) / (w * w) as real
  {
    Positive(w as real, w as real);
    BoxMeanIsWindowMean(x, w, i, j);
  }

  lemma PadProduct(a: Grid, b: Grid, r: nat, i0: int, i1: int, j0: int, j1: int)
    requires SameShape(a, b) && a.rows > 0 && a.cols > 0
    ensures IsProduct(PadEdge(Product(a, b), r).at, PadEdge(a, r).at, PadEdge(b, r).at, i0, i1, j0, j1)
  {
  }

  /** The five numbers at an entry are the direct means over its window. */
  lemma LocalIsWindow(a: Grid, b: Grid, w: nat, i: nat, j: nat)
    requires w > 0 && SameShape(a, b) && i < a.rows && j < a.cols
    ensures (w * w) as real > 0.0
    ensures LocalAt(a, b, w, i, j) == WindowLocal(
      PadEdge(a, w / 2).at, PadEdge(b, w / 2).at, PadEdge(Product(a, a), w / 2).at,
      PadEdge(Product(b, b), w / 2).at, PadEdge(Product(a, b), w / 2).at, i, i + w, j, j + w, (w * w) as real)
  {
    BoxMeanAt(a, w, i, j);
    BoxMeanAt(b, w, i, j);
    BoxMeanAt(Product(a, a), w, i, j);
    BoxMeanAt(Product(b, b), w, i, j);
    BoxMeanAt(Product(a, b), w, i, j);
  }

  lemma SquareWindow(a: Entries, b: Entries, aa: Entries, bb: Entries, ab: Entries, w: nat, i: nat, j: nat)
    requires w > 0 && (w * w) as real > 0.0
    requires IsProduct(aa, a, a, i, i + w, j, j + w) && IsProduct(bb, b, b, i, i + w, j, j + w) && IsProduct(ab, a, b, i, i + w, j, j + w)
    ensures Statistical(WindowLocal(a, b, aa, bb, ab, i, i + w, j, j + w, (w * w) as real))
  {
    WindowArea(w, i, j);
    WindowStatistical(a, b, aa, bb, ab, i, i + w, j, j + w, (w * w) as real);
  }

  lemma WindowArea(w: nat, i: nat, j: nat)
    ensures (w * w) as real == (i + w - i) as real * (j + w - j) as real
  {
  }

  /** Local variances are non-negative and the covariance is bounded by them, at every entry of every pair of images. */
  lemma LocalStatistical(a: Grid, b: Grid, w: nat, i: nat, j: nat)
    requires w > 0 && SameShape(a, b) && i < a.rows && j < a.cols
    ensures Statistical(LocalAt(a, b, w, i, j))
  {
    LocalIsWindow(a, b, w, i, j);
    PadProduct(a, a, w / 2, i, i + w, j, j + w);
    PadProduct(b, b, w / 2, i, i + w, j, j + w);
    PadProduct(a, b, w / 2, i, i + w, j, j + w);
    SquareWindow(PadEdge(a, w / 2).at, PadEdge(b, w / 2).at, PadEdge(Product(a, a), w / 2).at,
                      PadEdge(Product(b, b), w / 2).at, PadEdge(Product(a, b), w / 2).at, w, i, j);
  }

  /** `ssim_map` at one entry. */
  function SsimAt(a: Grid, b: Grid, w: nat, i: nat, j: nat): real
    requires w > 0 && SameShape(a, b) && i < a.rows && j < a.cols
  {
    var l := LocalAt(a, b, w, i, j);
    LocalStatistical(a, b, w, i, j);
    LocalBounds(l);
    l.Numerator() / l.Denominator()
  }

  lemma SsimAtBounds(a: Grid, b: Grid, w: nat, i: nat, j: nat)
    requires w > 0 && SameShape(a, b) && i < a.rows && j < a.cols
    ensures -1.0 <= SsimAt(a, b, w, i, j) <= 1.0
    ensures SameImage(a, b) ==> SsimAt(a, b, w, i, j) == 1.0
  {
    var l := LocalAt(a, b, w, i, j);
    LocalStatistical(a, b, w, i, j);
    LocalBounds(l);
    RatioBounds(l.Numerator(), l.Denominator());
    if SameImage(a, b) {
      SameLocal(a, b, w, i, j);
      EqualLocal(l);
    }
  }

  lemma SameLocal(a: Grid, b: Grid, w: nat, i: nat, j: nat)
    requires w > 0 && SameImage(a, b) && i < a.rows && j < a.cols
    ensures var l := LocalAt(a, b, w, i, j);
      l.muA == l.muB && l.meanAA == l.meanBB == l.meanAB
  {
    SameBoxMean(a, b, w, i, j);
    SameProducts(a, b);
    SameBoxMean(Product(a, a), Product(a, b), w, i, j);
    SameBoxMean(Product(b, b), Product(a, b), w, i, j);
  }

  lemma SameProducts(a: Grid, b: Grid)
    requires SameImage(a, b)
    ensures SameImage(Product(a, a), Product(a, b)) && SameImage(Product(b, b), Product(a, b))
  {
  }

  /** Two images are identical when they agree inside their common shape. */
  ghost predicate SameImage(a: Grid, b: Grid) {
    SameShape(a, b) && forall i, j :: 0 <= i < a.rows && 0 <= j < a.cols ==> a.at(i, j) == b.at(i, j)
  }

  /** The box mean looks only inside the image. */
  lemma SameBoxMean(a: Grid, b: Grid, w: nat, i: nat, j: nat)
    requires w > 0 && SameImage(a, b) && i < a.rows && j < a.cols
    ensures BoxMean(a, w).at(i, j) == BoxMean(b, w).at(i, j)
  {
    BoxMeanAt(a, w, i, j);
    BoxMeanAt(b, w, i, j);
    SamePadded(a, b, w / 2);
    RectExt(PadEdge(a, w / 2).at, PadEdge(b, w / 2).at, i, i + w, j, j + w);
  }

  lemma SamePadded(a: Grid, b: Grid, r: nat)
    requires SameImage(a, b) && a.rows > 0 && a.cols > 0
    ensures forall i, j :: PadEdge(a, r).at(i, j) == PadEdge(b, r).at(i, j)
  {
    forall i, j ensures PadEdge(a, r).at(i, j) == PadEdge(b, r).at(i, j) {
      assert a.at(Clamp(i - r, a.rows), Clamp(j - r, a.cols)) == b.at(Clamp(i - r, b.rows), Clamp(j - r, b.cols));
    }
  }

  lemma EqualLocal(l: Local)
    requires l.muA == l.muB && l.meanAA == l.meanBB == l.meanAB
    ensures l.Numerator() == l.Denominator()
  {
  }

  function MeanOf(x: Grid): real
    requires x.rows > 0 && x.cols > 0
  {
    RectSum(x.at, 0, x.rows, 0, x.cols) / (x.rows * x.cols) as real
  }

  function SsimMap(a: Grid, b: Grid, w: nat): Grid
    requires w > 0 && SameShape(a, b)
  {
    a.(at := (i, j) => if 0 <= i < a.rows && 0 <= j < a.cols then SsimAt(a, b, w, i, j) else 0.0)
  }

  /** Mean structural similarity; 0 when the shapes differ. */
  function Similarity(a: Grid, b: Grid, w: nat): real
    requires w > 0 && a.rows > 0 && a.cols > 0
  {
    if !SameShape(a, b) then 0.0 else MeanOf(SsimMap(a, b, w))
  }

  lemma MeanBounds(x: Grid, lo: real, hi: real)
    requires x.rows > 0 && x.cols > 0
    requires forall i, j :: 0 <= i < x.rows && 0 <= j < x.cols ==> lo <= x.at(i, j) <= hi
    ensures lo <= MeanOf(x) <= hi
  {
    RectBounds(x.at, 0, x.rows, 0, x.cols, lo, hi);
    var a, b, s := x.rows as real, x.cols as real, RectSum(x.at, 0, x.rows, 0, x.cols);
    assert (x.rows * x.cols) as real == a * b;
    Positive(a, b);
    Regroup(lo, a, b);
    Regroup(hi, a, b);
    Quotient(s, lo, a * b);
    QuotientAbove(s, hi, a * b);
  }

  lemma QuotientAbove(q: real, a: real, n: real)
    requires n > 0.0 && q <= a * n
    ensures q / n <= a
  {
  }

  /** The similarity lies in [-1, 1] and is 1 on identical images. */
  lemma SimilarityRange(a: Grid, b: Grid, w: nat)
    requires w > 0 && a.rows > 0 && a.cols > 0
    ensures -1.0 <= Similarity(a, b, w) <= 1.0
    ensures SameImage(a, b) ==> Similarity(a, b, w) == 1.0
  {
    if SameShape(a, b) {
      forall i, j | 0 <= i < a.rows && 0 <= j < a.cols
        ensures -1.0 <= SsimMap(a, b, w).at(i, j) <= 1.0 && (SameImage(a, b) ==> SsimMap(a, b, w).at(i, j) == 1.0)
      {
        SsimAtBounds(a, b, w, i, j);
      }
      MeanBounds(SsimMap(a, b, w), -1.0, 1.0);
      if SameImage(a, b) {
        MeanBounds(SsimMap(a, b, w), 1.0, 1.0);
      }
    }
  }

  lemma ProductCommutes(a: Grid, b: Grid, w: nat, i: nat, j: nat)
    requires w > 0 && SameShape(a, b) && i < a.rows && j < a.cols
    ensures BoxMean(Product(a, b), w).at(i, j) == BoxMean(Product(b, a), w).at(i, j)
  {
    ProductsCommute(a, b);
    SameBoxMean(Product(a, b), Product(b, a), w, i, j);
  }

  lemma ProductsCommute(a: Grid, b: Grid)
    requires SameShape(a, b)
    ensures SameImage(Product(a, b), Product(b, a))
  {
  }

  lemma SsimAtSymmetric(a: Grid, b: Grid, w: nat, i: nat, j: nat)
    requires w > 0 && SameShape(a, b) && i < a.rows && j < a.cols
    ensures SsimAt(a, b, w, i, j) == SsimAt(b, a, w, i, j)
  {
    ProductCommutes(a, b, w, i, j);
    LocalSymmetric(LocalAt(a, b, w, i, j), LocalAt(b, a, w, i, j));
  }

  lemma LocalSymmetric(l: Local, m: Local)
    requires m == Local(l.muB, l.muA, l.meanBB, l.meanAA, l.meanAB)
    ensures l.Numerator() == m.Numerator() && l.Denominator() == m.Denominator()
  {
    assert l.muA * l.muB == m.muA * m.muB;
    assert l.VarA() == m.VarB() && l.VarB() == m.VarA();
  }

  lemma SimilaritySymmetric(a: Grid, b: Grid, w: nat)
    requires w > 0 && a.rows > 0 && a.cols > 0 && b.rows > 0 && b.cols > 0
    ensures Similarity(a, b, w) == Similarity(b, a, w)
  {
    if SameShape(a, b) {
      forall i, j | 0 <= i < a.rows && 0 <= j < a.cols ensures SsimMap(a, b, w).at(i, j) == SsimMap(b, a, w).at(i, j) {
        SsimAtSymmetric(a, b, w, i, j);
      }
      RectExt(SsimMap(a, b, w).at, SsimMap(b, a, w).at, 0, a.rows, 0, a.cols);
    }
  }
}
