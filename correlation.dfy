/** Pearson correlation and the least-squares line through paired data
    (`calculateCorrelation` and `calculateRegression`).

    Both work on the closed-form sums of `Series`. The only call the model
    cannot express is `Math.sqrt`: `Correlation` takes the square root of its
    radicand as a parameter, and everything said about the correlation is said
    through its square, the coefficient of determination shown as R^2. */
module Correlation {
  import opened Series

  datatype Option<T> = None | Some(value: T)

  /** The fitted line `y = a + b x`. */
  datatype Line = Line(a: real, b: real)

  /** `n * sumXY - sumX * sumY`, shared by the correlation and the slope. */
  function Numerator(x: seq<real>, y: seq<real>): real
    requires |x| == |y|
  {
    |x| as real * SumOfProducts(x, y) - Sum(x) * Sum(y)
  }

  /** `n * sumX2 - sumX * sumX`: one factor under the square root, and the
      slope's denominator. It is the numerator of x paired with itself. */
  function Spread(x: seq<real>): real
  {
    Numerator(x, x)
  }

  /** `denominator === 0 ? 0 : numerator / denominator`. */
  function GuardedQuotient(num: real, den: real): real
  {
    if den == 0.0 then 0.0 else num / den
  }

  /** The value whose square root is the correlation's denominator. */
  function Radicand(x: seq<real>, y: seq<real>): (d: real)
    requires |x| == |y|
    ensures d >= 0.0
  {
    SpreadNonNegative(x);
    SpreadNonNegative(y);
    ProductNonNegative(Spread(x), Spread(y));
    Spread(x) * Spread(y)
  }

  /** What `Math.sqrt(v)` returns: the non-negative root of `v`. */
  predicate IsSquareRoot(root: real, v: real)
  {
    root >= 0.0 && Square(root) == v
  }

  /** `calculateCorrelation`, given `root`, the value `Math.sqrt` returns for
      the radicand: 0 when the denominator is 0, the quotient otherwise. Its
      square is the R^2 of the data, it lies in [-1, 1], and whenever the
      denominator is not 0 it has the sign of the numerator. */
  function Correlation(x: seq<real>, y: seq<real>, root: real): (r: real)
    requires |x| == |y| > 0
    requires IsSquareRoot(root, Radicand(x, y))
    ensures Square(r) == CorrelationSquared(x, y)
    ensures -1.0 <= r <= 1.0
    ensures Radicand(x, y) == 0.0 ==> r == 0.0
    ensures Radicand(x, y) != 0.0 ==>
      (r > 0.0 <==> Numerator(x, y) > 0.0) && (r < 0.0 <==> Numerator(x, y) < 0.0)
  {
    NumeratorBound(x, y);
    GuardedCorrelation(Numerator(x, y), root, Radicand(x, y))
  }

  /** r^2 = numerator^2 / ((n Σx^2 - (Σx)^2)(n Σy^2 - (Σy)^2)), the R^2 of the
      fitted line, with the source's guard: 0 when the denominator is 0.
      It lies in [0, 1] (Cauchy-Schwarz). */
  function CorrelationSquared(x: seq<real>, y: seq<real>): (r2: real)
    requires |x| == |y| > 0
    ensures 0.0 <= r2 <= 1.0
    ensures Radicand(x, y) != 0.0 ==> r2 * Radicand(x, y) == Square(Numerator(x, y))
    ensures Radicand(x, y) == 0.0 ==> r2 == 0.0
  {
    NumeratorBound(x, y);
    SquareRatio(Numerator(x, y), Radicand(x, y))
  }

  /** `calculateRegression`: slope `b = numerator / spread(x)` and intercept
      `a = meanY - b * meanX`. With all x equal the source divides 0 by 0 and
      returns NaN; here the result is `None`. */
  function Regression(x: seq<real>, y: seq<real>): (line: Option<Line>)
    requires |x| == |y| > 0
    ensures line.Some? <==> Spread(x) != 0.0
  {
    if Spread(x) == 0.0 then None
    else
      var b := Numerator(x, y) / Spread(x);
      Some(Line(Mean(y) - b * Mean(x), b))
  }

  /** The predicted value `a + b x_i` of every x. */
  function Predicted(x: seq<real>, line: Line): (p: seq<real>)
  {
    seq(|x|, i requires 0 <= i < |x| => line.a + line.b * x[i])
  }

  /** The residual `y_i - (a + b x_i)` of every pair. */
  function Residuals(x: seq<real>, y: seq<real>, line: Line): (res: seq<real>)
    requires |x| == |y|
  {
    seq(|x|, i requires 0 <= i < |x| => y[i] - (line.a + line.b * x[i]))
  }

  // ---------------------------------------------------------------------
  // The factors as centred sums
  // ---------------------------------------------------------------------

  /** The numerator is n times the centred sum of products Σ (x - x̄)(y - ȳ),
      for centres `mx`, `my` that are the means (`n mx = Σx`, `n my = Σy`). */
  lemma {:induction false} NumeratorIsCentred(x: seq<real>, y: seq<real>, mx: real, my: real)
    requires |x| == |y|
    requires |x| as real * mx == Sum(x) && |y| as real * my == Sum(y)
    ensures Numerator(x, y) == |x| as real * CentredProducts(x, y, mx, my)
  {
    CentredProductsExpanded(x, y, mx, my);
    CentredAtMean(x, y, mx, my);
    CentredNumerator(x, y, mx, my);
  }

  /** Σ (x - mx)(y - my) == Σ x y - my Σ x when `my` is the mean of y. */
  lemma {:induction false} CentredAtMean(x: seq<real>, y: seq<real>, mx: real, my: real)
    requires |x| == |y|
    requires |y| as real * my == Sum(y)
    ensures CentredProducts(x, y, mx, my) == SumOfProducts(x, y) - my * Sum(x)
  {
    CentredProductsExpanded(x, y, mx, my);
    AtMeanStep(|x| as real, SumOfProducts(x, y), Sum(x), Sum(y), mx, my, CentredProducts(x, y, mx, my));
  }

  lemma AtMeanStep(n: real, p: real, sx: real, sy: real, mx: real, my: real, cp: real)
    requires n * my == sy
    requires cp == p - my * sx - mx * sy + n * mx * my
    ensures cp == p - my * sx
  {
    assert n * mx * my == mx * (n * my);
  }

  /** n Σ (x - mx)(y - my) == n Σ x y - Σ x Σ y when `my` is the mean of y. */
  lemma {:induction false} CentredNumerator(x: seq<real>, y: seq<real>, mx: real, my: real)
    requires |x| == |y|
    requires |x| as real * my == Sum(y)
    requires CentredProducts(x, y, mx, my) == SumOfProducts(x, y) - my * Sum(x)
    ensures |x| as real * CentredProducts(x, y, mx, my) == |x| as real * SumOfProducts(x, y) - Sum(x) * Sum(y)
  {
    CentringStep(|x| as real, SumOfProducts(x, y), Sum(x), Sum(y), my, CentredProducts(x, y, mx, my));
  }

  lemma CentringStep(n: real, p: real, sx: real, sy: real, my: real, cp: real)
    requires n * my == sy
    requires cp == p - my * sx
    ensures n * cp == n * p - sx * sy
  {
    assert n * cp == n * p - (n * my) * sx;
  }

  /** The spread is n times the sum of squared deviations from the mean. */
  lemma {:induction false} SpreadIsCentred(x: seq<real>)
    requires |x| > 0
    ensures Spread(x) == |x| as real * CentredProducts(x, x, Mean(x), Mean(x))
  {
    MeanTimesLength(x);
    NumeratorIsCentred(x, x, Mean(x), Mean(x));
  }

  /** Each factor under the square root is non-negative. */
  lemma {:induction false} SpreadNonNegative(x: seq<real>)
    ensures Spread(x) >= 0.0
  {
    if x != [] {
      SpreadIsCentred(x);
      CentredSquaresNonNegative(x, Mean(x));
      ProductNonNegative(|x| as real, CentredProducts(x, x, Mean(x), Mean(x)));
    }
  }

  /** numerator^2 <= spread(x) spread(y): Cauchy-Schwarz for the deviations. */
  lemma {:induction false} NumeratorBound(x: seq<real>, y: seq<real>)
    requires |x| == |y| > 0
    ensures Square(Numerator(x, y)) <= Radicand(x, y)
  {
    MeanTimesLength(x);
    MeanTimesLength(y);
    CentredNumeratorBound(x, y, Mean(x), Mean(y));
  }

  /** `NumeratorBound` for centres `mx`, `my` that are the means. */
  lemma {:induction false} CentredNumeratorBound(x: seq<real>, y: seq<real>, mx: real, my: real)
    requires |x| == |y|
    requires |x| as real * mx == Sum(x) && |y| as real * my == Sum(y)
    ensures Square(Numerator(x, y)) <= Spread(x) * Spread(y)
  {
    NumeratorIsCentred(x, y, mx, my);
    NumeratorIsCentred(x, x, mx, mx);
    NumeratorIsCentred(y, y, my, my);
    CentredCauchySchwarz(x, y, mx, my);
    assert CentredProducts(x, y, mx, my) * CentredProducts(x, y, mx, my) <= CentredProducts(x, x, mx, mx) * CentredProducts(y, y, my, my);
    ScaledBound(|x| as real, CentredProducts(x, y, mx, my), CentredProducts(x, x, mx, mx),
      CentredProducts(y, y, my, my));
  }

  /** Constant x gives a zero spread, hence a zero denominator. */
  lemma {:induction false} SpreadOfConstant(x: seq<real>)
    requires Constant(x)
    ensures Spread(x) == 0.0
  {
    if x != [] {
      SumsOfConstant(x, x[0]);
      ConstantStep(|x| as real, x[0]);
    }
  }

  /** The spread is 0 exactly when all values are equal. */
  lemma {:induction false} SpreadZeroIffConstant(x: seq<real>)
    requires |x| > 0
    ensures Spread(x) == 0.0 <==> Constant(x)
  {
    if Constant(x) {
      SpreadOfConstant(x);
    }
    if Spread(x) == 0.0 {
      SpreadIsCentred(x);
      ZeroFactor(|x| as real, CentredProducts(x, x, Mean(x), Mean(x)));
      CentredSquaresZero(x, Mean(x));
    }
  }

  /** The denominator's radicand is 0 exactly when the x values or the y
      values are all equal. */
  lemma {:induction false} RadicandZeroIffConstant(x: seq<real>, y: seq<real>)
    requires |x| == |y| > 0
    ensures Radicand(x, y) == 0.0 <==> Constant(x) || Constant(y)
  {
    SpreadZeroIffConstant(x);
    SpreadZeroIffConstant(y);
    SpreadNonNegative(x);
    SpreadNonNegative(y);
    ProductZero(Spread(x), Spread(y));
  }

  lemma ConstantStep(n: real, c: real)
    ensures n * (n * (c * c)) - (n * c) * (n * c) == 0.0
  {
  }

  // ---------------------------------------------------------------------
  // Properties of the correlation
  // ---------------------------------------------------------------------

  /** When all x or all y are equal, the correlation is exactly 0. */
  lemma {:induction false} CorrelationOfConstant(x: seq<real>, y: seq<real>, root: real)
    requires |x| == |y| > 0
    requires IsSquareRoot(root, Radicand(x, y))
    requires Constant(x) || Constant(y)
    ensures Correlation(x, y, root) == 0.0
  {
    if Constant(x) {
      SpreadOfConstant(x);
    } else {
      SpreadOfConstant(y);
    }
    ZeroProduct(Spread(x), Spread(y));
  }

  /** The correlation does not change when the pairs are read as (y, x). */
  lemma {:induction false} CorrelationSymmetric(x: seq<real>, y: seq<real>, root: real)
    requires |x| == |y| > 0
    requires IsSquareRoot(root, Radicand(x, y))
    ensures Radicand(y, x) == Radicand(x, y)
    ensures Correlation(y, x, root) == Correlation(x, y, root)
  {
    SumOfProductsSymmetric(x, y);
    assert Numerator(y, x) == Numerator(x, y);
  }

  lemma {:induction false} SumOfProductsSymmetric(a: seq<real>, b: seq<real>)
    requires |a| == |b|
    ensures SumOfProducts(a, b) == SumOfProducts(b, a)
  {
    if a != [] {
      SumOfProductsSymmetric(a[..|a| - 1], b[..|b| - 1]);
    }
  }

  // ---------------------------------------------------------------------
  // Properties of the regression line
  // ---------------------------------------------------------------------

  /** The fitted line passes through the mean point (x̄, ȳ). */
  lemma {:induction false} MeanPointOnLine(x: seq<real>, y: seq<real>)
    requires |x| == |y| > 0
    requires Regression(x, y).Some?
    ensures var line := Regression(x, y).value;
      line.a + line.b * Mean(x) == Mean(y)
  {
  }

  /** Σ (y_i - a - b x_i) = Σy - n a - b Σx, for any line. */
  lemma {:induction false} SumOfResiduals(x: seq<real>, y: seq<real>, line: Line)
    requires |x| == |y|
    ensures Sum(Residuals(x, y, line)) == Sum(y) - |x| as real * line.a - line.b * Sum(x)
  {
    SumOfAffine(x, y, Residuals(x, y, line), line.a, line.b);
  }

  lemma {:induction false} SumOfAffine(x: seq<real>, y: seq<real>, e: seq<real>, a: real, b: real)
    requires |x| == |y| == |e|
    requires forall i :: 0 <= i < |e| ==> e[i] == y[i] - (a + b * x[i])
    ensures Sum(e) == Sum(y) - |x| as real * a - b * Sum(x)
  {
    if e != [] {
      var n := |e|;
      SumOfAffine(x[..n - 1], y[..n - 1], e[..n - 1], a, b);
      SumLast(e);
      SumLast(y);
      SumLast(x);
      ResidualStep(Sum(e[..n - 1]), Sum(y[..n - 1]), Sum(x[..n - 1]), (n - 1) as real, x[n - 1], y[n - 1],
        a, b, e[n - 1], Sum(e), Sum(y), Sum(x), n as real);
    }
  }

  /** One step of `SumOfAffine`, as arithmetic on the partial sums. */
  lemma ResidualStep(r: real, sy: real, sx: real, m: real, x: real, y: real, a: real, b: real,
                     e: real, r1: real, sy1: real, sx1: real, m1: real)
    requires r == sy - m * a - b * sx && e == y - (a + b * x)
    requires r1 == r + e && sy1 == sy + y && sx1 == sx + x && m1 == m + 1.0
    ensures r1 == sy1 - m1 * a - b * sx1
  {
  }

  /** The residuals of the fitted line sum to zero. */
  lemma {:induction false} ResidualsSumToZero(x: seq<real>, y: seq<real>)
    requires |x| == |y| > 0
    requires Regression(x, y).Some?
    ensures Sum(Residuals(x, y, Regression(x, y).value)) == 0.0
  {
    MeanPointOnLine(x, y);
    ResidualsOfLineThroughMeans(x, y, Regression(x, y).value);
  }

  /** Any line through the mean point leaves residuals that sum to zero. */
  lemma {:induction false} ResidualsOfLineThroughMeans(x: seq<real>, y: seq<real>, line: Line)
    requires |x| == |y| > 0
    requires line.a + line.b * Mean(x) == Mean(y)
    ensures Sum(Residuals(x, y, line)) == 0.0
  {
    SumOfResiduals(x, y, line);
    MeanTimesLength(x);
    MeanTimesLength(y);
    InterceptStep(|x| as real, Sum(x), Sum(y), Mean(x), Mean(y), line.a, line.b);
  }

  lemma InterceptStep(n: real, sx: real, sy: real, mx: real, my: real, a: real, b: real)
    requires n * mx == sx && n * my == sy && a + b * mx == my
    ensures sy - n * a - b * sx == 0.0
  {
    assert n * a == n * my - b * (n * mx);
  }

  /** A line through the mean point has n a = Σy - b Σx. */
  lemma {:induction false} InterceptEquation(x: seq<real>, y: seq<real>, line: Line)
    requires |x| == |y| > 0
    requires line.a + line.b * Mean(x) == Mean(y)
    ensures |x| as real * line.a == Sum(y) - line.b * Sum(x)
  {
    MeanTimesLength(x);
    MeanTimesLength(y);
    InterceptStep(|x| as real, Sum(x), Sum(y), Mean(x), Mean(y), line.a, line.b);
  }

  /** Σ x_i (y_i - a - b x_i) = Σxy - a Σx - b Σx^2, for any line. */
  lemma {:induction false} SumOfXResiduals(x: seq<real>, y: seq<real>, line: Line)
    requires |x| == |y|
    ensures SumOfProducts(x, Residuals(x, y, line))
         == SumOfProducts(x, y) - line.a * Sum(x) - line.b * SumOfProducts(x, x)
  {
    ProductsOfDifference(x, y, Predicted(x, line), Residuals(x, y, line));
    SumOfXPredicted(x, line);
  }

  /** Σ x_i (a + b x_i) = a Σx + b Σx^2. */
  lemma {:induction false} SumOfXPredicted(x: seq<real>, line: Line)
    ensures SumOfProducts(x, Predicted(x, line)) == line.a * Sum(x) + line.b * SumOfProducts(x, x)
  {
    var h := seq(|x|, i => line.a);
    var k := seq(|x|, i requires 0 <= i < |x| => line.b * x[i]);
    ProductsOfAffine(x, h, k, Predicted(x, line), line.a, line.b);
  }

  /** Σ x p = a Σx + b Σx^2 when p = h + k, h is the constant a and k = b x. */
  lemma {:induction false} ProductsOfAffine(x: seq<real>, h: seq<real>, k: seq<real>, p: seq<real>, a: real, b: real)
    requires |x| == |h| == |k| == |p|
    requires forall i :: 0 <= i < |h| ==> h[i] == a
    requires forall i :: 0 <= i < |k| ==> k[i] == b * x[i]
    requires forall i :: 0 <= i < |p| ==> p[i] == h[i] + k[i]
    ensures SumOfProducts(x, p) == a * Sum(x) + b * SumOfProducts(x, x)
  {
    ProductsOfSum(x, h, k, p);
    ProductsOfConstant(x, h, a);
    ProductsOfScaled(x, x, k, b);
  }

  /** The fitted slope solves b Spread = Numerator. */
  lemma {:induction false} SlopeEquation(x: seq<real>, y: seq<real>)
    requires |x| == |y| > 0
    requires Regression(x, y).Some?
    ensures Regression(x, y).value.b * Spread(x) == Numerator(x, y)
  {
    QuotientTimesDivisor(Numerator(x, y), Spread(x));
  }

  /** For a line with n a = Σy - b Σx,
      n (Σxy - a Σx - b Σx^2) = Numerator - b Spread. */
  lemma {:induction false} OrthogonalityInSums(x: seq<real>, y: seq<real>, line: Line)
    requires |x| == |y|
    requires |x| as real * line.a == Sum(y) - line.b * Sum(x)
    ensures |x| as real * (SumOfProducts(x, y) - line.a * Sum(x) - line.b * SumOfProducts(x, x))
            == Numerator(x, y) - line.b * Spread(x)
  {
    OrthogonalStep(|x| as real, Sum(x), Sum(y), SumOfProducts(x, y), SumOfProducts(x, x),
      Numerator(x, y), Spread(x), line.a, line.b);
  }

  lemma OrthogonalStep(n: real, sx: real, sy: real, sxy: real, sxx: real,
                       num: real, spread: real, a: real, b: real)
    requires num == n * sxy - sx * sy && spread == n * sxx - sx * sx
    requires n * a == sy - b * sx
    ensures n * (sxy - a * sx - b * sxx) == num - b * spread
  {
    assert n * (sxy - a * sx - b * sxx) == n * sxy - (n * a) * sx - b * (n * sxx);
  }

  /** n r = num - b spread with b = num / spread and n > 0 forces r = 0. */
  lemma OrthogonalFinish(n: real, r: real, num: real, spread: real, b: real)
    requires n > 0.0 && spread != 0.0 && b == num / spread
    requires n * r == num - b * spread
    ensures r == 0.0
  {
    assert b * spread == num;
    ZeroFactor(n, r);
  }

  /** The second normal equation: the residuals of the fitted line are
      orthogonal to the x values, Σ x_i e_i = 0. */
  lemma {:induction false} ResidualsOrthogonalToX(x: seq<real>, y: seq<real>)
    requires |x| == |y| > 0
    requires Regression(x, y).Some?
    ensures SumOfProducts(x, Residuals(x, y, Regression(x, y).value)) == 0.0
  {
    var line := Regression(x, y).value;
    LineOrthogonality(x, y, line, SumOfProducts(x, y) - line.a * Sum(x) - line.b * SumOfProducts(x, x));
    SumOfXResiduals(x, y, line);
  }

  /** The line with slope Numerator / Spread through the mean point has
      r = Σxy - a Σx - b Σx^2 = 0. */
  lemma {:induction false} LineOrthogonality(x: seq<real>, y: seq<real>, line: Line, r: real)
    requires |x| == |y| > 0
    requires Spread(x) != 0.0
    requires line.b == Numerator(x, y) / Spread(x)
    requires line.a == Mean(y) - line.b * Mean(x)
    requires r == SumOfProducts(x, y) - line.a * Sum(x) - line.b * SumOfProducts(x, x)
    ensures r == 0.0
  {
    InterceptEquation(x, y, line);
    OrthogonalityInSums(x, y, line);
    OrthogonalFinish(|x| as real, r, Numerator(x, y), Spread(x), line.b);
  }

  /** Numerator and Spread written out in sums. */
  lemma {:induction false} NumeratorInSums(x: seq<real>, y: seq<real>)
    requires |x| == |y|
    ensures Numerator(x, y) == |x| as real * SumOfProducts(x, y) - Sum(x) * Sum(y)
    ensures Spread(x) == |x| as real * SumOfProducts(x, x) - Sum(x) * Sum(x)
  {
  }

  /** A line whose residuals sum to zero and are orthogonal to the x values
      has Σy - n a - b Σx = 0 and Σxy - a Σx - b Σx^2 = 0. */
  lemma {:induction false} NormalEquationsInSums(x: seq<real>, y: seq<real>, line: Line)
    requires |x| == |y|
    requires Sum(Residuals(x, y, line)) == 0.0
    requires SumOfProducts(x, Residuals(x, y, line)) == 0.0
    ensures Sum(y) - |x| as real * line.a - line.b * Sum(x) == 0.0
    ensures SumOfProducts(x, y) - line.a * Sum(x) - line.b * SumOfProducts(x, x) == 0.0
  {
    SumOfResiduals(x, y, line);
    SumOfXResiduals(x, y, line);
  }

  /** The normal equations in sums give b spread = num and n a = Σy - b Σx.
      Here and below, `num` and `spread` stand for Numerator(x, y) and
      Spread(x) written out in sums, which keeps the arithmetic small. */
  lemma {:induction false} NormalEquations(x: seq<real>, y: seq<real>, line: Line, num: real, spread: real)
    requires |x| == |y| > 0
    requires num == |x| as real * SumOfProducts(x, y) - Sum(x) * Sum(y)
    requires spread == |x| as real * SumOfProducts(x, x) - Sum(x) * Sum(x)
    requires Sum(y) - |x| as real * line.a - line.b * Sum(x) == 0.0
    requires SumOfProducts(x, y) - line.a * Sum(x) - line.b * SumOfProducts(x, x) == 0.0
    ensures line.b * spread == num
    ensures |x| as real * line.a == Sum(y) - line.b * Sum(x)
  {
    NormalStep(|x| as real, Sum(x), Sum(y), SumOfProducts(x, y), SumOfProducts(x, x),
      num, spread, line.a, line.b);
  }

  /** When the spread is not zero, b Spread = Numerator and n a = Σy - b Σx
      give the fitted slope and intercept. */
  lemma {:induction false} LineFromEquations(x: seq<real>, y: seq<real>, line: Line, num: real, spread: real)
    requires |x| == |y| > 0
    requires spread != 0.0
    requires line.b * spread == num
    requires |x| as real * line.a == Sum(y) - line.b * Sum(x)
    ensures line.b == num / spread
    ensures line.a == Mean(y) - line.b * Mean(x)
  {
    SlopeFromProduct(line.b, num, spread);
    InterceptFromSums(x, y, line);
  }

  lemma NormalStep(n: real, sx: real, sy: real, sxy: real, sxx: real,
                   num: real, spread: real, a: real, b: real)
    requires num == n * sxy - sx * sy && spread == n * sxx - sx * sx
    requires sy - n * a - b * sx == 0.0
    requires sxy - a * sx - b * sxx == 0.0
    ensures b * spread == num && n * a == sy - b * sx
  {
    assert num - b * spread == n * (sxy - a * sx - b * sxx) by {
      assert n * (sxy - a * sx - b * sxx) == n * sxy - (n * a) * sx - b * (n * sxx);
    }
  }

  /** A line with n a = Σy - b Σx passes through the mean point. */
  lemma {:induction false} InterceptFromSums(x: seq<real>, y: seq<real>, line: Line)
    requires |x| == |y| > 0
    requires |x| as real * line.a == Sum(y) - line.b * Sum(x)
    ensures line.a == Mean(y) - line.b * Mean(x)
  {
    MeanTimesLength(x);
    MeanTimesLength(y);
    MeanInterceptStep(|x| as real, Sum(x), Sum(y), Mean(x), Mean(y), line.a, line.b);
  }

  lemma MeanInterceptStep(n: real, sx: real, sy: real, mx: real, my: real, a: real, b: real)
    requires n > 0.0 && n * mx == sx && n * my == sy
    requires n * a == sy - b * sx
    ensures a == my - b * mx
  {
    assert (my - b * mx) * n == n * my - b * (n * mx);
    Cancel(a, my - b * mx, n, n * a);
  }

  /** b Spread = Numerator fixes b when the spread is not zero. */
  lemma SlopeFromProduct(b: real, num: real, spread: real)
    requires spread != 0.0 && b * spread == num
    ensures b == num / spread
  {
  }

  /** The two normal equations fix the line: a line whose residuals sum to
      zero and are orthogonal to the x values is the fitted one. */
  lemma {:induction false} NormalEquationsFixLine(x: seq<real>, y: seq<real>, line: Line)
    requires |x| == |y| > 0
    requires Spread(x) != 0.0
    requires Sum(Residuals(x, y, line)) == 0.0
    requires SumOfProducts(x, Residuals(x, y, line)) == 0.0
    ensures Regression(x, y) == Some(line)
  {
    NumeratorInSums(x, y);
    SolveNormalEquations(x, y, line, Numerator(x, y), Spread(x));
    assert line == Regression(x, y).value;
  }

  /** A line satisfying both normal equations has slope num / spread and
      passes through the mean point. */
  lemma {:induction false} SolveNormalEquations(x: seq<real>, y: seq<real>, line: Line, num: real, spread: real)
    requires |x| == |y| > 0
    requires num == |x| as real * SumOfProducts(x, y) - Sum(x) * Sum(y)
    requires spread == |x| as real * SumOfProducts(x, x) - Sum(x) * Sum(x)
    requires spread != 0.0
    requires Sum(Residuals(x, y, line)) == 0.0
    requires SumOfProducts(x, Residuals(x, y, line)) == 0.0
    ensures line.b == num / spread
    ensures line.a == Mean(y) - line.b * Mean(x)
  {
    NormalEquationsInSums(x, y, line);
    NormalEquations(x, y, line, num, spread);
    LineFromEquations(x, y, line, num, spread);
  }

  /** The sum of squared residuals of a line. */
  function SquaredResiduals(x: seq<real>, y: seq<real>, line: Line): real
    requires |x| == |y|
  {
    var e := Residuals(x, y, line);
    SumOfProducts(e, e)
  }

  /** Σ (e + d)^2 = Σ e^2 + 2 Σ e d + Σ d^2. */
  lemma {:induction false} SquaresOfShifted(e: seq<real>, d: seq<real>, f: seq<real>)
    requires |e| == |d| == |f|
    requires forall i :: 0 <= i < |f| ==> f[i] == e[i] + d[i]
    ensures SumOfProducts(f, f) == SumOfProducts(e, e) + 2.0 * SumOfProducts(e, d) + SumOfProducts(d, d)
  {
    ProductsOfSum(f, e, d, f);
    SumOfProductsSymmetric(f, e);
    ProductsOfSum(e, e, d, f);
    SumOfProductsSymmetric(f, d);
    ProductsOfSum(d, e, d, f);
    SumOfProductsSymmetric(d, e);
  }

  /** Least squares: no line leaves a smaller sum of squared residuals than
      the fitted one. */
  lemma {:induction false} LeastSquares(x: seq<real>, y: seq<real>, other: Line)
    requires |x| == |y| > 0
    requires Regression(x, y).Some?
    ensures SquaredResiduals(x, y, Regression(x, y).value) <= SquaredResiduals(x, y, other)
  {
    ResidualsSumToZero(x, y);
    ResidualsOrthogonalToX(x, y);
    NormalLineIsMinimal(x, y, Regression(x, y).value, other);
  }

  /** A line solving the normal equations leaves no more squared error than
      any other line. */
  lemma {:induction false} NormalLineIsMinimal(x: seq<real>, y: seq<real>, line: Line, other: Line)
    requires |x| == |y|
    requires Sum(Residuals(x, y, line)) == 0.0
    requires SumOfProducts(x, Residuals(x, y, line)) == 0.0
    ensures SquaredResiduals(x, y, line) <= SquaredResiduals(x, y, other)
  {
    var d := Predicted(x, Line(line.a - other.a, line.b - other.b));
    ResidualsOfOtherLine(x, y, line, other);
    SquaresOfShifted(Residuals(x, y, line), d, Residuals(x, y, other));
    ShiftOrthogonalToResiduals(x, Residuals(x, y, line), d, line.a - other.a, line.b - other.b);
    SumOfSquaresNonNegative(d);
  }

  /** The residuals of another line are those of `line` plus the difference
      of the two predictions. */
  lemma ResidualsOfOtherLine(x: seq<real>, y: seq<real>, line: Line, other: Line)
    requires |x| == |y|
    ensures var e, f, d := Residuals(x, y, line), Residuals(x, y, other),
                           Predicted(x, Line(line.a - other.a, line.b - other.b));
      forall i :: 0 <= i < |f| ==> f[i] == e[i] + d[i]
  {
  }

  /** Residuals that sum to zero and are orthogonal to x are orthogonal to
      every affine shift p + q x. */
  lemma {:induction false} ShiftOrthogonalToResiduals(x: seq<real>, e: seq<real>, d: seq<real>, p: real, q: real)
    requires |x| == |e| == |d|
    requires forall i :: 0 <= i < |d| ==> d[i] == p + q * x[i]
    requires Sum(e) == 0.0 && SumOfProducts(x, e) == 0.0
    ensures SumOfProducts(e, d) == 0.0
  {
    var h := seq(|x|, i => p);
    var k := seq(|x|, i requires 0 <= i < |x| => q * x[i]);
    ProductsOfSum(e, h, k, d);
    ProductsOfConstant(e, h, p);
    ProductsOfScaled(e, x, k, q);
    SumOfProductsSymmetric(e, x);
  }

  /** The correlation and the slope have the same sign whenever both exist. */
  lemma {:induction false} SlopeSignMatchesCorrelation(x: seq<real>, y: seq<real>, root: real)
    requires |x| == |y| > 0
    requires IsSquareRoot(root, Radicand(x, y))
    requires Regression(x, y).Some?
    ensures var b := Regression(x, y).value.b;
      (b > 0.0 <==> Correlation(x, y, root) > 0.0) && (b < 0.0 <==> Correlation(x, y, root) < 0.0)
  {
    SpreadNonNegative(x);
    QuotientSign(Numerator(x, y), Spread(x));
    if Radicand(x, y) == 0.0 {
      NumeratorBound(x, y);
      SquareNonPositive(Numerator(x, y));
    }
  }

  /** With no spread in x the source's slope is 0 / 0: all x are then equal. */
  lemma {:induction false} NoLineForConstant(x: seq<real>, y: seq<real>)
    requires |x| == |y| > 0 && Constant(x)
    ensures Regression(x, y) == None
    ensures Numerator(x, y) == 0.0
  {
    SpreadOfConstant(x);
    NumeratorBound(x, y);
    ZeroProduct(Spread(x), Spread(y));
    SquareNonPositive(Numerator(x, y));
  }

  /** A regression line exists exactly when the x values are not all equal. */
  lemma {:induction false} LineIffNotConstant(x: seq<real>, y: seq<real>)
    requires |x| == |y| > 0
    ensures Regression(x, y).Some? <==> !Constant(x)
  {
    SpreadZeroIffConstant(x);
  }

  // ---------------------------------------------------------------------
  // Arithmetic on plain reals
  // ---------------------------------------------------------------------

  lemma ZeroProduct(p: real, q: real)
    requires p == 0.0 || q == 0.0
    ensures p * q == 0.0
  {
  }

  lemma ZeroFactor(n: real, p: real)
    requires n > 0.0 && n * p == 0.0
    ensures p == 0.0
  {
    assert p == (n * p) / n;
  }

  lemma ProductZero(p: real, q: real)
    requires p >= 0.0 && q >= 0.0
    ensures p * q == 0.0 <==> p == 0.0 || q == 0.0
  {
    if p > 0.0 && q > 0.0 {
      assert p * q > 0.0;
    }
  }

  /** The guarded ratio num^2 / d of `CorrelationSquared`, for num^2 <= d. */
  function SquareRatio(num: real, d: real): (r2: real)
    requires Square(num) <= d
    ensures 0.0 <= r2 <= 1.0
    ensures d != 0.0 ==> r2 * d == Square(num)
    ensures d == 0.0 ==> r2 == 0.0
  {
    SquareSign(num, Square(num));
    if d != 0.0 then
      RatioBounds(Square(num), d);
      GuardedQuotient(Square(num), d)
    else
      GuardedQuotient(Square(num), d)
  }

  lemma RatioBounds(s: real, d: real)
    requires 0.0 <= s <= d && d > 0.0
    ensures 0.0 <= s / d <= 1.0 && (s / d) * d == s
  {
  }

  /** Scaling both sides of c^2 <= a b by n^2. */
  lemma ScaledBound(n: real, c: real, a: real, b: real)
    requires n >= 0.0 && c * c <= a * b
    ensures Square(n * c) <= (n * a) * (n * b)
  {
    var num, sa, sb := n * c, n * a, n * b;
    assert num * num == (n * n) * (c * c);
    assert sa * sb == (n * n) * (a * b);
    ProductNonNegative(n, n);
    ProductNonNegative(n * n, a * b - c * c);
  }

  /** The square root of 0 is 0. */
  lemma SquareRootOfZero(root: real, v: real)
    requires IsSquareRoot(root, v) && !(v > 0.0)
    ensures root == 0.0
  {
    SquareSign(root, v);
  }

  /** The square root of a non-zero value is positive, and so is the value. */
  lemma SquareRootOfNonZero(root: real, v: real)
    requires IsSquareRoot(root, v) && v != 0.0
    ensures root > 0.0 && v > 0.0
  {
    SquareSign(root, v);
  }

  /** A value outside [-1, 1] has a square above 1. */
  lemma SquareAboveOne(r: real, s: real)
    requires Square(r) == s
    ensures r > 1.0 ==> s > 1.0
    ensures r < -1.0 ==> s > 1.0
  {
    if r > 1.0 {
      assert r * r > 1.0 * r;
    } else if r < -1.0 {
      assert (-r) * (-r) > 1.0 * (-r);
    }
  }

  lemma QuotientSign(num: real, d: real)
    requires d > 0.0
    ensures (num / d > 0.0 <==> num > 0.0) && (num / d < 0.0 <==> num < 0.0)
  {
  }

  /** Cancelling a positive factor `d` from `u d == v d`. */
  lemma Cancel(u: real, v: real, d: real, w: real)
    requires d > 0.0 && u * d == w && v * d == w
    ensures u == v
  {
    assert (u - v) * d == 0.0;
  }

  /** (num / root)^2 root^2 == num^2. */
  lemma QuotientSquared(num: real, root: real, d: real)
    requires root > 0.0 && Square(root) == d
    ensures Square(num / root) * d == Square(num)
  {
    var r := num / root;
    assert r * root == num;
    assert (r * r) * (root * root) == (r * root) * (r * root);
  }

  /** The guarded quotient num / root of `Correlation`, where `root` is the
      square root of `d` and num^2 <= d: its square is the guarded num^2 / d. */
  function GuardedCorrelation(num: real, root: real, d: real): (r: real)
    requires IsSquareRoot(root, d) && Square(num) <= d
    ensures Square(r) == SquareRatio(num, d)
    ensures -1.0 <= r <= 1.0
    ensures d == 0.0 ==> r == 0.0
    ensures d != 0.0 ==> (r > 0.0 <==> num > 0.0) && (r < 0.0 <==> num < 0.0)
  {
    if d == 0.0 then
      SquareRootOfZero(root, d);
      GuardedQuotient(num, root)
    else
      SquareRootOfNonZero(root, d);
      var r := num / root;
      QuotientSquared(num, root, d);
      Cancel(Square(r), SquareRatio(num, d), d, Square(num));
      QuotientSign(num, root);
      SquareAboveOne(r, SquareRatio(num, d));
      GuardedQuotient(num, root)
  }
}
