/** Finite sequences of reals: the `reduce` sums, `Math.min(...)` and
    `Math.max(...)` that both utility files use, together with the algebra of
    sums (centred sums of products, Cauchy-Schwarz) that the statistics and
    regression proofs rest on.

    Every sum recurses on the LAST element, so `Sum(s)` is exactly the left fold
    `s.reduce((sum, val) => sum + val, 0)`. The arithmetic of each induction
    step is stated once, over plain reals, in a small `...Step` lemma. */
module Series {

  /** `data.reduce((sum, val) => sum + val, 0)`. */
  function Sum(s: seq<real>): real
  {
    if s == [] then 0.0 else Sum(s[..|s| - 1]) + s[|s| - 1]
  }

  /** `data.reduce(...) / n`, defined for non-empty data only. */
  function Mean(s: seq<real>): real
    requires |s| > 0
  {
    Sum(s) / |s| as real
  }

  /** `x.reduce((sum, val, i) => sum + val * y[i], 0)`; with `a == b` it is the
      sum of squares `x.reduce((sum, val) => sum + val * val, 0)`. */
  function SumOfProducts(a: seq<real>, b: seq<real>): real
    requires |a| == |b|
  {
    if a == [] then 0.0
    else SumOfProducts(a[..|a| - 1], b[..|b| - 1]) + a[|a| - 1] * b[|b| - 1]
  }

  /** `Sum` split at the last element. */
  lemma SumLast(s: seq<real>)
    requires |s| > 0
    ensures Sum(s) == Sum(s[..|s| - 1]) + s[|s| - 1]
  {
  }

  /** `Math.min(...data)`: an element of the data below every other. */
  function Min(s: seq<real>): (m: real)
    requires |s| > 0
    ensures m in s
    ensures forall i :: 0 <= i < |s| ==> m <= s[i]
  {
    if |s| == 1 then s[0]
    else
      var rest := Min(s[..|s| - 1]);
      if s[|s| - 1] < rest then s[|s| - 1] else rest
  }

  /** `Math.max(...data)`: an element of the data above every other. */
  function Max(s: seq<real>): (m: real)
    requires |s| > 0
    ensures m in s
    ensures forall i :: 0 <= i < |s| ==> s[i] <= m
  {
    if |s| == 1 then s[0]
    else
      var rest := Max(s[..|s| - 1]);
      if s[|s| - 1] > rest then s[|s| - 1] else rest
  }

  /** `v * v`. Contracts write squares through this function, so that a square
      stays one term for the solver wherever it appears. */
  function Square(v: real): real
  {
    v * v
  }

  /** All values equal. */
  predicate Constant(s: seq<real>)
  {
    forall i, j :: 0 <= i < |s| && 0 <= j < |s| ==> s[i] == s[j]
  }

  /** Σ (a_i - ca)(b_i - cb): the sum of products of deviations from two centres. */
  function CentredProducts(a: seq<real>, b: seq<real>, ca: real, cb: real): real
    requires |a| == |b|
  {
    if a == [] then 0.0
    else CentredProducts(a[..|a| - 1], b[..|b| - 1], ca, cb) + (a[|a| - 1] - ca) * (b[|b| - 1] - cb)
  }

  /** Data between `lo` and `hi` sum to between `n * lo` and `n * hi`. */
  lemma {:induction false} SumBounds(s: seq<real>, lo: real, hi: real)
    requires forall i :: 0 <= i < |s| ==> lo <= s[i] <= hi
    ensures |s| as real * lo <= Sum(s) <= |s| as real * hi
  {
    if s != [] {
      SumBounds(s[..|s| - 1], lo, hi);
    }
  }

  /** The mean lies between the smallest and the largest datum. */
  lemma {:induction false} MeanWithinRange(s: seq<real>)
    requires |s| > 0
    ensures Min(s) <= Mean(s) <= Max(s)
  {
    var lo, hi := Min(s), Max(s);
    SumBounds(s, lo, hi);
    MeanBounds(s, lo, hi);
  }

  lemma {:induction false} MeanBounds(s: seq<real>, lo: real, hi: real)
    requires |s| > 0
    requires |s| as real * lo <= Sum(s) <= |s| as real * hi
    ensures lo <= Mean(s) <= hi
  {
    QuotientBounds(Sum(s), |s| as real, lo, hi);
  }

  lemma QuotientBounds(total: real, n: real, lo: real, hi: real)
    requires n > 0.0 && n * lo <= total <= n * hi
    ensures lo <= total / n <= hi
  {
    assert total / n - lo == (total - n * lo) / n;
    assert hi - total / n == (n * hi - total) / n;
  }

  /** `n` times the mean is the sum. */
  lemma {:induction false} MeanTimesLength(s: seq<real>)
    requires |s| > 0
    ensures |s| as real * Mean(s) == Sum(s)
  {
    QuotientTimesDivisor(Sum(s), |s| as real);
  }

  lemma QuotientTimesDivisor(total: real, n: real)
    requires n != 0.0
    ensures n * (total / n) == total
  {
  }

  /** The sums of constant data: `n c` and `n c^2`. */
  lemma {:induction false} SumsOfConstant(s: seq<real>, c: real)
    requires forall i :: 0 <= i < |s| ==> s[i] == c
    ensures Sum(s) == |s| as real * c
    ensures SumOfProducts(s, s) == |s| as real * (c * c)
  {
    if s != [] {
      SumsOfConstant(s[..|s| - 1], c);
    }
  }

  /** Constant data have that constant as their mean. */
  lemma {:induction false} MeanOfConstant(s: seq<real>)
    requires |s| > 0 && Constant(s)
    ensures Mean(s) == s[0]
  {
    SumsOfConstant(s, s[0]);
    QuotientOfMultiple(|s| as real, s[0]);
  }

  lemma QuotientOfMultiple(n: real, c: real)
    requires n != 0.0
    ensures (n * c) / n == c
  {
  }

  /** The centred sum of products, expanded:
      Σ (a_i - ca)(b_i - cb) = Σ a_i b_i - cb Σ a - ca Σ b + n ca cb. */
  lemma {:induction false} CentredProductsExpanded(a: seq<real>, b: seq<real>, ca: real, cb: real)
    requires |a| == |b|
    ensures CentredProducts(a, b, ca, cb)
         == SumOfProducts(a, b) - cb * Sum(a) - ca * Sum(b) + |a| as real * ca * cb
  {
    if a != [] {
      var a', b' := a[..|a| - 1], b[..|b| - 1];
      CentredProductsExpanded(a', b', ca, cb);
      CentredStep(CentredProducts(a', b', ca, cb), SumOfProducts(a', b'), Sum(a'), Sum(b'), |a'| as real,
        a[|a| - 1], b[|b| - 1], ca, cb,
        CentredProducts(a, b, ca, cb), SumOfProducts(a, b), Sum(a), Sum(b), |a| as real);
    }
  }

  /** One step of `CentredProductsExpanded`, as arithmetic on the partial sums. */
  lemma CentredStep(d: real, p: real, sa: real, sb: real, m: real, x: real, y: real, ca: real, cb: real,
                    d1: real, p1: real, sa1: real, sb1: real, m1: real)
    requires d == p - cb * sa - ca * sb + m * ca * cb
    requires d1 == d + (x - ca) * (y - cb)
    requires p1 == p + x * y && sa1 == sa + x && sb1 == sb + y && m1 == m + 1.0
    ensures d1 == p1 - cb * sa1 - ca * sb1 + m1 * ca * cb
  {
    assert (x - ca) * (y - cb) == x * y - cb * x - ca * y + ca * cb;
    assert m1 * ca * cb == m * ca * cb + ca * cb;
  }

  /** Adding a square never decreases a value. */
  lemma AddSquare(s: real, d: real)
    ensures s + d * d >= s
  {
    if d > 0.0 {
      assert d * d > 0.0;
    } else if d < 0.0 {
      assert (-d) * (-d) > 0.0;
    }
  }

  /** A centred sum of squares is never negative. */
  lemma {:induction false} CentredSquaresNonNegative(s: seq<real>, c: real)
    ensures CentredProducts(s, s, c, c) >= 0.0
  {
    if s != [] {
      var s' := s[..|s| - 1];
      CentredSquaresNonNegative(s', c);
      AddSquare(CentredProducts(s', s', c, c), s[|s| - 1] - c);
    }
  }

  /** A centred sum of squares is 0 only when every value is the centre. */
  lemma {:induction false} CentredSquaresZero(s: seq<real>, c: real)
    requires CentredProducts(s, s, c, c) == 0.0
    ensures forall i :: 0 <= i < |s| ==> s[i] == c
  {
    if s != [] {
      var s', d := s[..|s| - 1], s[|s| - 1] - c;
      CentredSquaresNonNegative(s', c);
      AddSquare(0.0, d);
      assert CentredProducts(s', s', c, c) == 0.0 && Square(d) == 0.0;
      SquareSign(d, Square(d));
      CentredSquaresZero(s', c);
    }
  }

  /** Every value minus a centre `c`. */
  function Deviations(s: seq<real>, c: real): (d: seq<real>)
    ensures |d| == |s|
  {
    if s == [] then [] else Deviations(s[..|s| - 1], c) + [s[|s| - 1] - c]
  }

  /** The centred sum of products is the sum of products of the deviations. */
  lemma {:induction false} CentredProductsOfDeviations(a: seq<real>, b: seq<real>, ca: real, cb: real)
    requires |a| == |b|
    ensures CentredProducts(a, b, ca, cb) == SumOfProducts(Deviations(a, ca), Deviations(b, cb))
  {
    if a != [] {
      var da, db := Deviations(a, ca), Deviations(b, cb);
      assert da[..|a| - 1] == Deviations(a[..|a| - 1], ca);
      assert db[..|b| - 1] == Deviations(b[..|b| - 1], cb);
      CentredProductsOfDeviations(a[..|a| - 1], b[..|b| - 1], ca, cb);
    }
  }

  /** A sum of squares is never negative. */
  lemma {:induction false} SumOfSquaresNonNegative(s: seq<real>)
    ensures SumOfProducts(s, s) >= 0.0
  {
    if s != [] {
      var s' := s[..|s| - 1];
      SumOfSquaresNonNegative(s');
      AddSquare(SumOfProducts(s', s'), s[|s| - 1]);
    }
  }

  /** `SumOfProducts` split at the last pair. */
  lemma {:induction false} SumOfProductsLast(a: seq<real>, b: seq<real>)
    requires |a| == |b| > 0
    ensures SumOfProducts(a, b) == SumOfProducts(a[..|a| - 1], b[..|b| - 1]) + a[|a| - 1] * b[|b| - 1]
  {
  }

  /** Σ x (u + v) = Σ x u + Σ x v. */
  lemma {:induction false} ProductsOfSum(x: seq<real>, u: seq<real>, v: seq<real>, e: seq<real>)
    requires |x| == |u| == |v| == |e|
    requires forall i :: 0 <= i < |e| ==> e[i] == u[i] + v[i]
    ensures SumOfProducts(x, e) == SumOfProducts(x, u) + SumOfProducts(x, v)
  {
    if e != [] {
      var n := |e|;
      ProductsOfSum(x[..n - 1], u[..n - 1], v[..n - 1], e[..n - 1]);
      SumStep(x[n - 1], u[n - 1], v[n - 1], e[n - 1]);
    }
  }

  lemma SumStep(x: real, u: real, v: real, e: real)
    requires e == u + v
    ensures x * e == x * u + x * v
  {
  }

  /** Σ x (u - v) = Σ x u - Σ x v. */
  lemma {:induction false} ProductsOfDifference(x: seq<real>, u: seq<real>, v: seq<real>, e: seq<real>)
    requires |x| == |u| == |v| == |e|
    requires forall i :: 0 <= i < |e| ==> e[i] == u[i] - v[i]
    ensures SumOfProducts(x, e) == SumOfProducts(x, u) - SumOfProducts(x, v)
  {
    if e != [] {
      var n := |e|;
      ProductsOfDifference(x[..n - 1], u[..n - 1], v[..n - 1], e[..n - 1]);
      DifferenceStep(x[n - 1], u[n - 1], v[n - 1], e[n - 1]);
    }
  }

  lemma DifferenceStep(x: real, u: real, v: real, e: real)
    requires e == u - v
    ensures x * e == x * u - x * v
  {
  }

  /** Σ x c = c Σ x. */
  lemma {:induction false} ProductsOfConstant(x: seq<real>, v: seq<real>, c: real)
    requires |x| == |v|
    requires forall i :: 0 <= i < |v| ==> v[i] == c
    ensures SumOfProducts(x, v) == c * Sum(x)
  {
    if v != [] {
      var n := |v|;
      ProductsOfConstant(x[..n - 1], v[..n - 1], c);
      ConstantFactorStep(SumOfProducts(x[..n - 1], v[..n - 1]), Sum(x[..n - 1]), x[n - 1], c,
        SumOfProducts(x, v), Sum(x));
    }
  }

  lemma ConstantFactorStep(p: real, s: real, x: real, c: real, p1: real, s1: real)
    requires p == c * s && p1 == p + x * c && s1 == s + x
    ensures p1 == c * s1
  {
  }

  /** Σ x (c w) = c Σ x w. */
  lemma {:induction false} ProductsOfScaled(x: seq<real>, w: seq<real>, v: seq<real>, c: real)
    requires |x| == |w| == |v|
    requires forall i :: 0 <= i < |v| ==> v[i] == c * w[i]
    ensures SumOfProducts(x, v) == c * SumOfProducts(x, w)
  {
    if v != [] {
      var n := |v|;
      ProductsOfScaled(x[..n - 1], w[..n - 1], v[..n - 1], c);
      ScaleStep(SumOfProducts(x[..n - 1], v[..n - 1]), SumOfProducts(x[..n - 1], w[..n - 1]), x[n - 1], w[n - 1],
        v[n - 1], c, SumOfProducts(x, v), SumOfProducts(x, w));
    }
  }

  lemma ScaleStep(p: real, q: real, x: real, w: real, v: real, c: real, p1: real, q1: real)
    requires p == c * q && v == c * w && p1 == p + x * v && q1 == q + x * w
    ensures p1 == c * q1
  {
    assert x * v == c * (x * w);
  }

  /** Cauchy-Schwarz: (Σ a b)^2 <= (Σ a^2)(Σ b^2), by induction on the length. */
  lemma {:induction false} CauchySchwarz(a: seq<real>, b: seq<real>)
    requires |a| == |b|
    ensures SumOfProducts(a, b) * SumOfProducts(a, b) <= SumOfProducts(a, a) * SumOfProducts(b, b)
  {
    if a != [] {
      var a', b' := a[..|a| - 1], b[..|b| - 1];
      CauchySchwarz(a', b');
      SumOfSquaresNonNegative(a');
      SumOfSquaresNonNegative(b');
      SumOfProductsLast(a, a);
      SumOfProductsLast(b, b);
      SumOfProductsLast(a, b);
      CauchySchwarzStep(SumOfProducts(a', a'), SumOfProducts(b', b'), SumOfProducts(a', b'), a[|a| - 1], b[|b| - 1],
        SumOfProducts(a, a), SumOfProducts(b, b), SumOfProducts(a, b));
    }
  }

  /** One step of `CauchySchwarz`: C^2 <= A B is kept when the pair `x`, `y`
      is added to the sums `A` = Σ a^2, `B` = Σ b^2 and `C` = Σ a b. */
  lemma CauchySchwarzStep(A: real, B: real, C: real, x: real, y: real, A1: real, B1: real, C1: real)
    requires A >= 0.0 && B >= 0.0 && C * C <= A * B
    requires A1 == A + x * x && B1 == B + y * y && C1 == C + x * y
    ensures C1 * C1 <= A1 * B1
  {
    CrossTermBound(A, B, C, x, y);
    assert C1 * C1 == C * C + 2.0 * (C * (x * y)) + (x * x) * (y * y);
    assert A1 * B1 == A * B + A * (y * y) + B * (x * x) + (x * x) * (y * y);
  }

  /** 2 C x y <= A y^2 + B x^2 whenever C^2 <= A B with A, B >= 0. */
  lemma CrossTermBound(A: real, B: real, C: real, x: real, y: real)
    requires A >= 0.0 && B >= 0.0 && C * C <= A * B
    ensures 2.0 * (C * (x * y)) <= A * (y * y) + B * (x * x)
  {
    SquareSign(x, Square(x));
    SquareSign(y, Square(y));
    if A == 0.0 {
      SquareNonPositive(C);
      ProductNonNegative(B, x * x);
    } else {
      var D := A * (y * y) + B * (x * x) - 2.0 * (C * (x * y));
      CompletedSquare(A, B, C, x, y, D);
      SquareSign(A * y - C * x, Square(A * y - C * x));
      ProductNonNegative(A * B - C * C, x * x);
      NonNegativeFactor(A, D);
    }
  }

  /** A (A y^2 + B x^2 - 2 C x y) == (A y - C x)^2 + (A B - C^2) x^2. */
  lemma CompletedSquare(A: real, B: real, C: real, x: real, y: real, D: real)
    requires D == A * (y * y) + B * (x * x) - 2.0 * (C * (x * y))
    ensures A * D == Square(A * y - C * x) + (A * B - C * C) * (x * x)
  {
  }

  lemma NonNegativeFactor(a: real, d: real)
    requires a > 0.0 && a * d >= 0.0
    ensures d >= 0.0
  {
    assert d == (a * d) / a;
  }

  lemma ProductNonNegative(a: real, b: real)
    requires a >= 0.0 && b >= 0.0
    ensures a * b >= 0.0
  {
  }

  /** The square of a non-zero value is positive, the square of 0 is 0. */
  lemma SquareSign(v: real, s: real)
    requires Square(v) == s
    ensures v != 0.0 ==> s > 0.0
    ensures v == 0.0 ==> s == 0.0
  {
    if v > 0.0 {
      assert v == (v * v) / v;
    } else if v < 0.0 {
      assert -v == ((-v) * (-v)) / (-v);
    }
  }

  /** A value whose square is at most 0 is 0. */
  lemma SquareNonPositive(v: real)
    requires Square(v) <= 0.0
    ensures v == 0.0
  {
    SquareSign(v, Square(v));
  }

  /** Cauchy-Schwarz for deviations from any two centres. */
  lemma {:induction false} CentredCauchySchwarz(a: seq<real>, b: seq<real>, ca: real, cb: real)
    requires |a| == |b|
    ensures CentredProducts(a, b, ca, cb) * CentredProducts(a, b, ca, cb)
         <= CentredProducts(a, a, ca, ca) * CentredProducts(b, b, cb, cb)
  {
    CentredProductsOfDeviations(a, b, ca, cb);
    CentredProductsOfDeviations(a, a, ca, ca);
    CentredProductsOfDeviations(b, b, cb, cb);
    CauchySchwarz(Deviations(a, ca), Deviations(b, cb));
  }
}
