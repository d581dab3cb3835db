/**
 * What a similarity of 1 means: an entry of the map of scripts/diffusion_quality.py is 1 exactly if
 * the two images agree on its window, and their mean is 1 exactly if they are the same image.
 *
 * Both rest on equality in the bounds of module Ssim: no variance is left in the difference.
 */
module SsimIdentity {
  import opened Ssim

  // ---------------------------------------------------------------- sums of nothing but zeros

  lemma {:induction false} SumZeroEach(f: int -> real, lo: int, hi: int, k: int)
    requires lo <= k < hi && (forall i :: lo <= i < hi ==> 0.0 <= f(i)) && Sum(f, lo, hi) == 0.0
    ensures f(k) == 0.0
    decreases hi - lo
  {
    SumNonNegative(f, lo, hi - 1);
    if k < hi - 1 { SumZeroEach(f, lo, hi - 1, k); }
  }

  lemma ColumnNonNegative(x: Entries, i0: int, i1: int, j: int)
    requires i0 <= i1 && forall i :: i0 <= i < i1 ==> 0.0 <= x(i, j)
    ensures 0.0 <= Column(x, i0, i1)(j)
  {
    SumNonNegative(i => x(i, j), i0, i1);
  }

  lemma RectZeroEach(x: Entries, i0: int, i1: int, j0: int, j1: int, i: int, j: int)
    requires i0 <= i < i1 && j0 <= j < j1 && RectSum(x, i0, i1, j0, j1) == 0.0
    requires forall k, l :: i0 <= k < i1 && j0 <= l < j1 ==> 0.0 <= x(k, l)
    ensures x(i, j) == 0.0
  {
    forall l | j0 <= l < j1 ensures 0.0 <= Column(x, i0, i1)(l) { ColumnNonNegative(x, i0, i1, l); }
    SumZeroEach(Column(x, i0, i1), j0, j1, j);
    SumZeroEach(k => x(k, j), i0, i1, i);
  }

  // ---------------------------------------------------------------- equality in the bounds

  lemma BothExtreme(x: real, a: real, y: real, b: real)
    requires a > 0.0 && b > 0.0 && -a <= x <= a && -b <= y <= b && x * y == a * b
    ensures (x == a && y == b) || (x == -a && y == -b)
  {
    if x >= 0.0 {
      ProductBelow(x, y, a, b);
    } else {
      Negated(x, y);
      ProductBelow(-x, -y, a, b);
    }
  }

  lemma ProductBelow(x: real, y: real, a: real, b: real)
    requires a > 0.0 && b > 0.0 && 0.0 <= x <= a && -b <= y <= b && x * y == a * b
    ensures x == a && y == b
  {
    NonNegativeProduct(x, b - y);
    NonNegativeProduct(a - x, b);
    assert x * (b - y) == x * b - x * y && (a - x) * b == a * b - x * b;
    assert (a - x) * b == 0.0 && x * (b - y) == 0.0;
    if a - x > 0.0 { Positive(a - x, b); }
    if b - y > 0.0 { Positive(x, b - y); }
  }

  lemma Negated(x: real, y: real)
    ensures (-x) * (-y) == x * y
  {
  }

  lemma ZeroProduct(x: real, y: real, xy: real)
    requires x * y == xy == 0.0
    ensures x == 0.0 || y == 0.0
  {
    if y != 0.0 { assert x == xy / y; }
  }

  lemma SquareIsZero(x: real)
    requires x * x == 0.0
    ensures x == 0.0
  {
    ZeroProduct(x, x, 0.0);
  }

  predicate NoDifference(l: Local) {
    l.muA == l.muB && 2.0 * l.Cov() == l.VarA() + l.VarB()
  }

  /** Numerator and denominator agree exactly if the means do and the covariance exhausts the variances. */
  lemma OneIff(l: Local)
    requires Statistical(l)
    ensures l.Numerator() == l.Denominator() <==> NoDifference(l)
  {
    var x, a := 2.0 * (l.muA * l.muB) + C1, l.muA * l.muA + l.muB * l.muB + C1;
    var y, b := 2.0 * l.Cov() + C2, l.VarA() + l.VarB() + C2;
    TwiceProduct(l.muA, l.muB);
    SquareOfDifference(l.muA, 0.0);
    SquareOfDifference(l.muB, 0.0);
    if l.Numerator() == l.Denominator() {
      BothExtreme(x, a, y, b);
      SquareOfDifference(l.muA, -l.muB);
      SquareOfDifference(l.muA, l.muB);
      assert x == a;
      assert (l.muA - l.muB) * (l.muA - l.muB) == 0.0;
      SquareIsZero(l.muA - l.muB);
    }
  }

  lemma QuotientIsOne(num: real, den: real)
    requires den > 0.0
    ensures num / den == 1.0 <==> num == den
  {
    var q := num / den;
    assert num == q * den;
  }

  /** A sum of squares whose mean and variance vanish has nothing but zeros. */
  lemma NoDeviation(d: Entries, dd: Entries, i0: int, i1: int, j0: int, j1: int, n: real, i: int, j: int)
    requires i0 <= i < i1 && j0 <= j < j1 && n > 0.0 && IsProduct(dd, d, d, i0, i1, j0, j1)
    requires RectSum(d, i0, i1, j0, j1) == 0.0
    requires Variance(RectSum(d, i0, i1, j0, j1), RectSum(dd, i0, i1, j0, j1), n) == 0.0
    ensures d(i, j) == 0.0
  {
    var q := RectSum(dd, i0, i1, j0, j1);
    assert q / n == 0.0;
    assert q == (q / n) * n;
    forall k, l | i0 <= k < i1 && j0 <= l < j1 ensures 0.0 <= dd(k, l) { SquareOfDifference(d(k, l), 0.0); }
    RectZeroEach(dd, i0, i1, j0, j1, i, j);
    SquareIsZero(d(i, j));
  }

  // ---------------------------------------------------------------- one entry of the map

  ghost predicate AgreeOn(a: Entries, b: Entries, i0: int, i1: int, j0: int, j1: int) {
    forall i, j :: i0 <= i < i1 && j0 <= j < j1 ==> a(i, j) == b(i, j)
  }

  /** Equal means, and a covariance that exhausts the variances, leave no difference on the window. */
  lemma WindowsAgree(a: Entries, b: Entries, aa: Entries, bb: Entries, ab: Entries, i0: int, i1: int, j0: int, j1: int, n: real)
    requires i0 < i1 && j0 < j1 && n > 0.0
    requires IsProduct(aa, a, a, i0, i1, j0, j1) && IsProduct(bb, b, b, i0, i1, j0, j1) && IsProduct(ab, a, b, i0, i1, j0, j1)
    requires var l := WindowLocal(a, b, aa, bb, ab, i0, i1, j0, j1, n);
      NoDifference(l)
    ensures AgreeOn(a, b, i0, i1, j0, j1)
  {
    var d, dd := Differences(a, b, aa, bb, ab, i0, i1, j0, j1);
    var sa, sb := RectSum(a, i0, i1, j0, j1), RectSum(b, i0, i1, j0, j1);
    VarianceOfSum(sa, sb, RectSum(aa, i0, i1, j0, j1), RectSum(bb, i0, i1, j0, j1), RectSum(ab, i0, i1, j0, j1), -1.0, n);
    assert sa == (sa / n) * n && sb == (sb / n) * n;
    forall i, j | i0 <= i < i1 && j0 <= j < j1 ensures a(i, j) == b(i, j) {
      NoDeviation(d, dd, i0, i1, j0, j1, n, i, j);
    }
  }

  lemma Differences(a: Entries, b: Entries, aa: Entries, bb: Entries, ab: Entries, i0: int, i1: int, j0: int, j1: int)
    returns (d: Entries, dd: Entries)
    requires i0 < i1 && j0 < j1
    requires IsProduct(aa, a, a, i0, i1, j0, j1) && IsProduct(bb, b, b, i0, i1, j0, j1) && IsProduct(ab, a, b, i0, i1, j0, j1)
    ensures IsProduct(dd, d, d, i0, i1, j0, j1) && forall i, j :: d(i, j) == a(i, j) - b(i, j)
    ensures RectSum(d, i0, i1, j0, j1) == RectSum(a, i0, i1, j0, j1) + -1.0 * RectSum(b, i0, i1, j0, j1)
    ensures RectSum(dd, i0, i1, j0, j1)
      == (RectSum(aa, i0, i1, j0, j1) + 2.0 * -1.0 * RectSum(ab, i0, i1, j0, j1)) + RectSum(bb, i0, i1, j0, j1)
  {
    d := Plus(a, -1.0, b, i0, i1, j0, j1);
    var cross := Plus(aa, 2.0 * -1.0, ab, i0, i1, j0, j1);
    dd := Plus(cross, 1.0, bb, i0, i1, j0, j1);
    CombinedIsSquare(a, b, aa, bb, ab, -1.0, d, dd, i0, i1, j0, j1);
  }

  /** Agreement on the window makes the five numbers those of one image with itself. */
  lemma AgreeingLocal(a: Entries, b: Entries, aa: Entries, bb: Entries, ab: Entries, i0: int, i1: int, j0: int, j1: int, n: real)
    requires i0 < i1 && j0 < j1 && n > 0.0 && AgreeOn(a, b, i0, i1, j0, j1)
    requires IsProduct(aa, a, a, i0, i1, j0, j1) && IsProduct(bb, b, b, i0, i1, j0, j1) && IsProduct(ab, a, b, i0, i1, j0, j1)
    ensures var l := WindowLocal(a, b, aa, bb, ab, i0, i1, j0, j1, n);
      NoDifference(l)
  {
    RectExt(a, b, i0, i1, j0, j1);
    RectExt(aa, ab, i0, i1, j0, j1);
    RectExt(bb, ab, i0, i1, j0, j1);
  }

  /** The two images agree on the edge-clamped window of the entry. */
  ghost predicate AgreeAt(a: Grid, b: Grid, w: nat, i: nat, j: nat)
    requires SameShape(a, b) && a.rows > 0 && a.cols > 0
  {
    AgreeOn(PadEdge(a, w / 2).at, PadEdge(b, w / 2).at, i, i + w, j, j + w)
  }

  /** An entry of the map is 1 if and only if the images agree on its window. */
  lemma SsimAtIsOneIff(a: Grid, b: Grid, w: nat, i: nat, j: nat)
    requires w > 0 && SameShape(a, b) && i < a.rows && j < a.cols
    ensures SsimAt(a, b, w, i, j) == 1.0 <==> AgreeAt(a, b, w, i, j)
  {
    var l := LocalAt(a, b, w, i, j);
    LocalStatistical(a, b, w, i, j);
    LocalBounds(l);
    QuotientIsOne(l.Numerator(), l.Denominator());
    OneIff(l);
    LocalIsOneIff(a, b, w, i, j, l);
  }

  lemma WindowIsOneIff(a: Entries, b: Entries, aa: Entries, bb: Entries, ab: Entries, i0: int, i1: int, j0: int, j1: int, n: real)
    requires i0 < i1 && j0 < j1 && n > 0.0
    requires IsProduct(aa, a, a, i0, i1, j0, j1) && IsProduct(bb, b, b, i0, i1, j0, j1) && IsProduct(ab, a, b, i0, i1, j0, j1)
    ensures var l := WindowLocal(a, b, aa, bb, ab, i0, i1, j0, j1, n);
      NoDifference(l) <==> AgreeOn(a, b, i0, i1, j0, j1)
  {
    var l := WindowLocal(a, b, aa, bb, ab, i0, i1, j0, j1, n);
    if AgreeOn(a, b, i0, i1, j0, j1) {
      AgreeingLocal(a, b, aa, bb, ab, i0, i1, j0, j1, n);
    } else if NoDifference(l) {
      WindowsAgree(a, b, aa, bb, ab, i0, i1, j0, j1, n);
    }
  }

  lemma SquareWindowIsOneIff(l: Local, a: Entries, b: Entries, aa: Entries, bb: Entries, ab: Entries, w: nat, i: nat, j: nat)
    requires w > 0 && (w * w) as real > 0.0 && l == WindowLocal(a, b, aa, bb, ab, i, i + w, j, j + w, (w * w) as real)
    requires IsProduct(aa, a, a, i, i + w, j, j + w) && IsProduct(bb, b, b, i, i + w, j, j + w) && IsProduct(ab, a, b, i, i + w, j, j + w)
    ensures NoDifference(l) <==> AgreeOn(a, b, i, i + w, j, j + w)
  {
    WindowIsOneIff(a, b, aa, bb, ab, i, i + w, j, j + w, (w * w) as real);
  }

  lemma LocalIsOneIff(a: Grid, b: Grid, w: nat, i: nat, j: nat, l: Local)
    requires w > 0 && SameShape(a, b) && i < a.rows && j < a.cols && l == LocalAt(a, b, w, i, j)
    ensures NoDifference(l) <==> AgreeAt(a, b, w, i, j)
  {
    var r := w / 2;
    LocalIsWindow(a, b, w, i, j);
    PadProduct(a, a, r, i, i + w, j, j + w);
    PadProduct(b, b, r, i, i + w, j, j + w);
    PadProduct(a, b, r, i, i + w, j, j + w);
    SquareWindowIsOneIff(l, PadEdge(a, r).at, PadEdge(b, r).at, PadEdge(Product(a, a), r).at,
                         PadEdge(Product(b, b), r).at, PadEdge(Product(a, b), r).at, w, i, j);
  }

  /** Where the means agree, only covariance and variances count, with the constant of contrast. */
  lemma EqualMeans(l: Local)
    requires Statistical(l) && l.muA == l.muB
    ensures l.Denominator() > 0.0 && l.VarA() + l.VarB() + 58.5225 > 0.0
    ensures l.Numerator() / l.Denominator() == (2.0 * l.Cov() + 58.5225) / (l.VarA() + l.VarB() + 58.5225)
  {
    LocalBounds(l);
    SquareOfDifference(l.muA, 0.0);
    assert l.muA * l.muB == l.muA * l.muA == l.muB * l.muB;
    CancelFactor(l.Numerator(), l.Denominator(), 2.0 * (l.muA * l.muB) + C1, l.muA * l.muA + l.muB * l.muB + C1,
                 2.0 * l.Cov() + C2, l.VarA() + l.VarB() + C2);
  }

  /** Where nothing varies, only the means count, with the constant of luminance. */
  lemma FlatWindows(l: Local)
    requires Statistical(l) && l.VarA() == 0.0 && l.VarB() == 0.0
    ensures l.Denominator() > 0.0 && l.muA * l.muA + l.muB * l.muB + 6.5025 > 0.0
    ensures l.Numerator() / l.Denominator() == (2.0 * (l.muA * l.muB) + 6.5025) / (l.muA * l.muA + l.muB * l.muB + 6.5025)
  {
    LocalBounds(l);
    SquareOfDifference(l.muA, 0.0);
    SquareOfDifference(l.muB, 0.0);
    var x, a := 2.0 * (l.muA * l.muB) + C1, l.muA * l.muA + l.muB * l.muB + C1;
    var y, b := 2.0 * l.Cov() + C2, l.VarA() + l.VarB() + C2;
    Commute(x, y);
    Commute(a, b);
    CancelFactor(l.Numerator(), l.Denominator(), y, b, x, a);
  }

  lemma Commute(x: real, y: real)
    ensures x * y == y * x
  {
  }

  lemma CancelFactor(num: real, den: real, x: real, a: real, y: real, b: real)
    requires x == a > 0.0 && b > 0.0 && num == x * y && den == a * b
    ensures den > 0.0 && num / den == y / b
  {
    Positive(a, b);
    var q := y / b;
    assert y == q * b;
    assert num == a * (q * b) == q * den;
  }

  // ---------------------------------------------------------------- the mean of the map

  lemma MeanIsOneEach(x: Grid, i: nat, j: nat)
    requires i < x.rows && j < x.cols && MeanOf(x) == 1.0
    requires forall k, l :: 0 <= k < x.rows && 0 <= l < x.cols ==> x.at(k, l) <= 1.0
    ensures x.at(i, j) == 1.0
  {
    var gap: Entries := (k, l) => 1.0 - x.at(k, l);
    GapSum(x.at, gap, x.rows, x.cols);
    SumOfOnes(RectSum(x.at, 0, x.rows, 0, x.cols), x.rows, x.cols);
    RectZeroEach(gap, 0, x.rows, 0, x.cols, i, j);
  }

  lemma GapSum(x: Entries, gap: Entries, rows: nat, cols: nat)
    requires forall k, l :: gap(k, l) == 1.0 - x(k, l)
    ensures RectSum(gap, 0, rows, 0, cols) == (rows as real) * (cols as real) - RectSum(x, 0, rows, 0, cols)
  {
    var zero: Entries := (k, l) => 0.0;
    forall k, l ensures gap(k, l) == zero(k, l) + -1.0 * x(k, l) + 1.0 {}
    RectLinear(zero, -1.0, x, 1.0, gap, 0, rows, 0, cols, rows as real);
    ZeroRect(zero, 0, rows, 0, cols);
  }

  /** A mean of 1 is a sum of as many ones. */
  lemma SumOfOnes(s: real, rows: nat, cols: nat)
    requires rows > 0 && cols > 0 && (rows * cols) as real != 0.0 && s / (rows * cols) as real == 1.0
    ensures s == (rows as real) * (cols as real)
  {
    var n := (rows * cols) as real;
    assert s == (s / n) * n;
    assert n == (rows as real) * (cols as real);
  }

  lemma ZeroRect(x: Entries, i0: int, i1: int, j0: int, j1: int)
    requires i0 <= i1 && j0 <= j1 && forall i, j :: x(i, j) == 0.0
    ensures RectSum(x, i0, i1, j0, j1) == 0.0
  {
    RectBounds(x, i0, i1, j0, j1, 0.0, 0.0);
  }

  /** The similarity is 1 if and only if the two are the same image. */
  lemma SimilarityIsOneIff(a: Grid, b: Grid, w: nat)
    requires w > 0 && a.rows > 0 && a.cols > 0
    ensures Similarity(a, b, w) == 1.0 <==> SameImage(a, b)
  {
    SimilarityRange(a, b, w);
    if SameShape(a, b) && Similarity(a, b, w) == 1.0 {
      forall i, j | 0 <= i < a.rows && 0 <= j < a.cols ensures a.at(i, j) == b.at(i, j) {
        forall k, l | 0 <= k < a.rows && 0 <= l < a.cols ensures SsimMap(a, b, w).at(k, l) <= 1.0 {
          SsimAtBounds(a, b, w, k, l);
        }
        MeanIsOneEach(SsimMap(a, b, w), i, j);
        SsimAtIsOneIff(a, b, w, i, j);
        CentreIsInWindow(a, b, w, i, j);
      }
    }
  }

  lemma CentreIsInWindow(a: Grid, b: Grid, w: nat, i: nat, j: nat)
    requires w > 0 && SameShape(a, b) && i < a.rows && j < a.cols && AgreeAt(a, b, w, i, j)
    ensures a.at(i, j) == b.at(i, j)
  {
    var r := w / 2;
    assert PadEdge(a, r).at(i + r, j + r) == PadEdge(b, r).at(i + r, j + r);
    assert Clamp(i, a.rows) == i && Clamp(j, a.cols) == j;
  }
}
