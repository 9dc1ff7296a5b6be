# Statistics & Probability tool: verified model of the numeric core

This project models the two utility modules that do the arithmetic in the
Statistics-Probability-tool web app.

`src/utils/statisticsUtils.ts` has two functions:

- `calculateStatistics` gives the mean, the median, the modes, the range and
  the grouped-data variance of a list of numbers.
- `generateFrequencyTable` bins the data into classes by Sturges' rule.

`src/utils/correlationUtils.ts` has two functions:

- `calculateCorrelation` gives the Pearson correlation of paired data.
- `calculateRegression` gives the least-squares line `y = a + b x`.

Numbers are mathematical reals. Every `reduce` sum is a left fold over the
data (`Series.Sum`, `Series.SumOfProducts`).

The files and modules:

- `series.dfy` (module `Series`) holds the shared sums, `Math.min`/`Math.max`,
  and the algebra of centred sums, including Cauchy-Schwarz.
- `sorting.dfy` (module `Sorting`) holds the ascending copy of the data and
  the fact that any sorted rearrangement of the data equals it.
- `frequency_table.dfy` (module `FrequencyTable`) holds Sturges' rule and the
  frequency table. `GenerateFrequencyTable` runs the source's `for` loop that
  pushes rows, followed by the `filter` of empty rows. It is proved to return
  `Table(data)`. The lemmas about `Table` show:
  - every datum lies in exactly one class;
  - the frequencies add up to `n`;
  - the rows are exactly the classes with data, in increasing order, at most
    one per class;
  - data without spread give the single closed class `[v, v]`.
- `statistics.dfy` (module `Statistics`) holds `calculateStatistics`.
  - The `forEach` that fills the `frequency` object is the method
    `CountFrequencies`.
  - The `varianceSum`/`totalFreq` loop is `AccumulateDeviations`.
  - `CalculateStatistics` computes every value in the source's order and is
    proved to return `StatisticsOf(data)`.
  - The lemmas place the mean and the median between the smallest and the
    largest datum.
  - They characterise "No mode" and the set of modes.
  - They show that the grouped variance is a non-negative average over `n`
    data.
- `correlation.dfy` (module `Correlation`) holds correlation and regression.
  - The numerator `nΣxy − ΣxΣy` and the factors `nΣx² − (Σx)²` are shown to
    be `n` times centred sums.
  - `r² ≤ 1` follows from Cauchy-Schwarz.
  - The fitted line passes through the mean point.
  - Its residuals sum to zero and are orthogonal to the x values (the two
    normal equations of least squares).
  - It is the only line whose residuals do both.
  - No line leaves a smaller sum of squared residuals. The app's help text
    promises this at src/components/CorrelationRegression.tsx:301.
  - The slope has the sign of the correlation.

The grouped variance uses the class midpoint `(lower + upper − 1) / 2` of
line 105. For constant data the single class is `[v, v]`, its midpoint is
`v − 1/2`, and the grouped variance is therefore `1/4`, not 0. The model
keeps this behaviour: `Statistics.GroupedVarianceOfConstant` states it.

## Model

| member | source | states |
|---|---|---|
| Series.Sum | src/utils/correlationUtils.ts:8-9 | the `reduce((sum, val) => sum + val, 0)` sum: a left fold from 0 that adds each value in order |
| Series.SumOfProducts | src/utils/correlationUtils.ts:10-12 | the `reduce` sum of `val * y[i]` over paired positions, also used with x for y to give `Σx²` and `Σy²` |
| Series.Mean | src/utils/statisticsUtils.ts:23 | the mean is the sum of the data divided by `n`, for `n > 0` |
| Series.Min | src/utils/statisticsUtils.ts:77 | `Math.min(...data)` is one of the data and at most every datum |
| Series.Max | src/utils/statisticsUtils.ts:78 | `Math.max(...data)` is one of the data and at least every datum |
| Series.MeanWithinRange | src/utils/statisticsUtils.ts:23 | the mean `Σ data / n` lies between the smallest and the largest datum |
| Series.MeanTimesLength | src/utils/statisticsUtils.ts:23 | `n` times the mean is the sum of the data |
| Series.MeanOfConstant | src/utils/statisticsUtils.ts:23 | the mean of constant data is that constant |
| Series.SumOfSquaresNonNegative | src/utils/correlationUtils.ts:11-12 | a sum of squares `Σ v·v` is never negative |
| Series.CauchySchwarz | src/utils/correlationUtils.ts:10-15 | `(Σ a b)² ≤ Σ a² · Σ b²` for paired sequences of equal length, proved by induction on the length |
| Series.CentredCauchySchwarz | src/utils/correlationUtils.ts:14-15 | Cauchy-Schwarz for the deviations from any two centres |
| Series.ProductsOfSum | src/utils/correlationUtils.ts:24 | `Σ x (u + v) = Σ x u + Σ x v` for paired sequences |
| Series.ProductsOfDifference | src/utils/correlationUtils.ts:24 | `Σ x (u − v) = Σ x u − Σ x v` for paired sequences |
| Series.ProductsOfConstant | src/utils/correlationUtils.ts:22-24 | `Σ x c = c Σx` when every entry of the second sequence is `c` |
| Series.ProductsOfScaled | src/utils/correlationUtils.ts:24-25 | `Σ x (c w) = c Σ x w` |
| Series.CentredSquaresZero | src/utils/correlationUtils.ts:15 | a sum of squared deviations from a centre is 0 only when every value equals that centre |
| Sorting.Sort | src/utils/statisticsUtils.ts:19 | the ascending copy has the same length and the same multiset of values as the data, and is sorted |
| Sorting.SortedUnique | src/utils/statisticsUtils.ts:19 | two sorted sequences with the same multiset of values are equal, so the sorted copy does not depend on the sort used |
| FrequencyTable.CeilLog2 | src/utils/statisticsUtils.ts:82 | `Math.ceil(Math.log2(n))` is the least `e` with `2^e ≥ n` |
| FrequencyTable.NumClasses | src/utils/statisticsUtils.ts:82 | Sturges' `k = ceil(log2 n + 1)` is at least 1 and is the least `k` with `2^(k−1) ≥ n` |
| FrequencyTable.Ceil | src/utils/statisticsUtils.ts:83 | `Math.ceil(r)` is the least integer not below `r` |
| FrequencyTable.ClassWidth | src/utils/statisticsUtils.ts:83 | `ceil(range / k)` gives `k · width ≥ range`, and the width is 0 exactly when the range is 0 |
| FrequencyTable.Sturges | src/utils/statisticsUtils.ts:77-83 | the classes start at the minimum, there is at least one, and `[min, min + k·width]` holds every datum |
| FrequencyTable.Members | src/utils/statisticsUtils.ts:92-99 | the filter keeps exactly the data in `[lower, upper)`, or in `[lower, upper]` for the last class, and never returns more values than it was given |
| FrequencyTable.MembersMultiplicity | src/utils/statisticsUtils.ts:92-99 | the filter keeps every occurrence of each value within the bounds and no occurrence of any other value |
| FrequencyTable.Frequency | src/utils/statisticsUtils.ts:92-99 | the frequency of class `i` is the length of the filtered data, with the closed upper bound for the last class only |
| FrequencyTable.ClassOf | src/utils/statisticsUtils.ts:87-99 | the class index computed from a covered value is one of the `k` classes |
| FrequencyTable.ClassOfUnique | src/utils/statisticsUtils.ts:87-99 | a value in the covered range lies in class `i` exactly when `i` is its `ClassOf` index, so the classes are disjoint |
| FrequencyTable.OneClassEach | src/utils/statisticsUtils.ts:87-99 | every covered value lies in exactly one of the `k` classes |
| FrequencyTable.NothingBelowLast | src/utils/statisticsUtils.ts:87-99 | with width 0 (range 0) every class before the last counts nothing |
| FrequencyTable.ClassTotalIsLength | src/utils/statisticsUtils.ts:87-99 | when the classes cover the data, their frequencies add up to `n` |
| FrequencyTable.Row | src/utils/statisticsUtils.ts:102-107 | the pushed row of class `i` has bounds `min + i·width` and `min + (i+1)·width`, midpoint `(lower + upper − 1)/2` and the class frequency |
| FrequencyTable.Pushed | src/utils/statisticsUtils.ts:87-108 | the rows the loop has pushed after `j` classes: the row of each class that has data or is not the last |
| FrequencyTable.PushedRows | src/utils/statisticsUtils.ts:87-108 | row `a` of the pushed rows is the row of class `a`, there are at most `k`, and every class the `if` admits is pushed |
| FrequencyTable.PushedTotal | src/utils/statisticsUtils.ts:101-108 | skipping the empty last class loses no count: the pushed rows carry all class frequencies |
| FrequencyTable.NonEmpty | src/utils/statisticsUtils.ts:111 | the final filter keeps exactly the rows with positive frequency |
| FrequencyTable.NonEmptyTotal | src/utils/statisticsUtils.ts:111 | dropping the empty rows keeps the total frequency |
| FrequencyTable.Table | src/utils/statisticsUtils.ts:76-111 | the returned table is the pushed rows of all `k` Sturges classes with the empty rows filtered out |
| FrequencyTable.GenerateFrequencyTable | src/utils/statisticsUtils.ts:76-112 | the loop and the filter return `Table(data)` |
| FrequencyTable.FrequenciesSumToLength | src/utils/statisticsUtils.ts:76-112 | the frequencies of the returned table add up to the number of data |
| FrequencyTable.TableOrdered | src/utils/statisticsUtils.ts:87-111 | the rows of the table have strictly increasing lower bounds |
| FrequencyTable.TableSize | src/utils/statisticsUtils.ts:87-111 | the table has at most `numClasses` rows |
| FrequencyTable.TableRows | src/utils/statisticsUtils.ts:101-111 | a row is in the table exactly when it is the row of a class holding data; each has a positive frequency and midpoint `(lower + upper − 1)/2` |
| FrequencyTable.TableOfConstant | src/utils/statisticsUtils.ts:76-112 | data without spread give the single row `[v, v]` with midpoint `v − 1/2` and frequency `n` |
| Statistics.Middle | src/utils/statisticsUtils.ts:26-28 | of a sorted list of even length, the average of the two middle values; of odd length, the value at `floor(n/2)` |
| Statistics.Median | src/utils/statisticsUtils.ts:19-28 | the median is the middle of the ascending copy of the data |
| Statistics.MedianWithinRange | src/utils/statisticsUtils.ts:26-28 | the median lies between the smallest and the largest datum |
| Statistics.MiddleSplits | src/utils/statisticsUtils.ts:26-28 | in a sorted sequence, the first half lies at or below the middle value and the second half at or above it |
| Statistics.MedianSplits | src/utils/statisticsUtils.ts:19-28 | at least half of the sorted data lies at or below the median and at least half at or above it |
| Statistics.MedianOfRearrangement | src/utils/statisticsUtils.ts:19-28 | rearranging the data does not change the median |
| Statistics.Counts | src/utils/statisticsUtils.ts:31-34 | the `frequency` object: each distinct datum mapped to its number of occurrences, and no other key |
| Statistics.CountFrequencies | src/utils/statisticsUtils.ts:31-34 | the `forEach` leaves in `frequency` exactly the data values, each with its number of occurrences |
| Statistics.CountsAppend | src/utils/statisticsUtils.ts:33 | one more datum adds 1 to its own count and changes no other |
| Statistics.MostOccurrences | src/utils/statisticsUtils.ts:36 | `maxFreq` is the count of some datum and no datum occurs more often |
| Statistics.ModeOf | src/utils/statisticsUtils.ts:36-41 | "No mode" when the largest count is 1, otherwise the set of keys whose count is the largest |
| Statistics.NoModeIffDistinct | src/utils/statisticsUtils.ts:36-41 | the mode is "No mode" exactly when no value occurs twice |
| Statistics.ModesAreMostFrequent | src/utils/statisticsUtils.ts:36-41 | when there are modes, they are exactly the data values that occur at least as often as every other, and each occurs at least twice |
| Statistics.DistinctCounts | src/utils/statisticsUtils.ts:31-34 | in data without repeats every value is counted once |
| Statistics.RepeatedCount | src/utils/statisticsUtils.ts:31-34 | a value found at two positions is counted at least twice |
| Statistics.Range | src/utils/statisticsUtils.ts:44 | the range is not negative, bounds every difference of two data, and is attained by one |
| Statistics.WeightedSquares | src/utils/statisticsUtils.ts:51-55 | `Σ row.frequency · (row.midpoint − mean)²` over the rows of the table, added in row order |
| Statistics.AccumulateDeviations | src/utils/statisticsUtils.ts:48-55 | the loop leaves `varianceSum = Σ f·(midpoint − mean)²` and `totalFreq = Σ f` over the table rows |
| Statistics.WeightedSquaresNonNegative | src/utils/statisticsUtils.ts:48-55 | `Σ f·(midpoint − mean)²` is never negative |
| Statistics.GroupedVariance | src/utils/statisticsUtils.ts:47-57 | the variance is `varianceSum / totalFreq` over the frequency table of the data, with the mean of line 23 |
| Statistics.GroupedVarianceIsAverage | src/utils/statisticsUtils.ts:47-57 | the grouped variance is `Σ f·(midpoint − mean)² / n`: its divisor `Σ f` is `n`, and it is not negative |
| Statistics.GroupedVarianceOfConstant | src/utils/statisticsUtils.ts:47-57 | constant data have grouped variance exactly 1/4, because of the `− 1` in the midpoint |
| Statistics.StatisticsOf | src/utils/statisticsUtils.ts:18-74 | the record of mean, median, mode, range and grouped variance that the source returns, without the two `Math.sqrt` values |
| Statistics.StatisticsBounds | src/utils/statisticsUtils.ts:18-74 | mean and median lie within the data, "No mode" exactly without repeats, range and variance not negative |
| Statistics.CalculateStatistics | src/utils/statisticsUtils.ts:18-74 | the whole computation returns the mean, median, mode, range and grouped variance of the data |
| Correlation.Numerator | src/utils/correlationUtils.ts:14 | the numerator `n Σxy − Σx Σy`, with the sums of lines 8-10 |
| Correlation.Spread | src/utils/correlationUtils.ts:15 | each factor `n Σv² − (Σv)²` under the square root; for x it is also the slope denominator of line 31 |
| Correlation.Radicand | src/utils/correlationUtils.ts:15 | the value under `Math.sqrt` is not negative, so the square root exists |
| Correlation.SpreadNonNegative | src/utils/correlationUtils.ts:15 | each factor `n Σv² − (Σv)²` is not negative |
| Correlation.SpreadIsCentred | src/utils/correlationUtils.ts:15 | `n Σx² − (Σx)² = n Σ (x − x̄)²` |
| Correlation.NumeratorIsCentred | src/utils/correlationUtils.ts:14 | `n Σxy − Σx Σy = n Σ (x − x̄)(y − ȳ)` |
| Correlation.NumeratorBound | src/utils/correlationUtils.ts:14-15 | the squared numerator is at most the radicand |
| Correlation.Correlation | src/utils/correlationUtils.ts:6-18 | the correlation is 0 when the denominator is 0; otherwise it has the sign of the numerator; it lies in [−1, 1]; and its square is `CorrelationSquared` |
| Correlation.CorrelationSquared | src/utils/correlationUtils.ts:14-17 | `r² = numerator² / radicand` lies in [0, 1] and is 0 when the denominator is 0 |
| Correlation.CorrelationOfConstant | src/utils/correlationUtils.ts:14-17 | when all x or all y are equal the correlation is exactly 0 |
| Correlation.SpreadOfConstant | src/utils/correlationUtils.ts:15 | constant values have a zero factor |
| Correlation.SpreadZeroIffConstant | src/utils/correlationUtils.ts:15 | a factor is 0 exactly when all its values are equal |
| Correlation.RadicandZeroIffConstant | src/utils/correlationUtils.ts:15-17 | the denominator is 0, and the correlation falls back to 0, exactly when all x or all y are equal |
| Correlation.CorrelationSymmetric | src/utils/correlationUtils.ts:6-18 | swapping x and y changes neither the radicand nor the correlation |
| Correlation.Regression | src/utils/correlationUtils.ts:20-37 | a line is returned exactly when the x values have a non-zero spread; which line it is, is stated by Correlation.NormalEquationsFixLine and Correlation.LeastSquares |
| Correlation.MeanPointOnLine | src/utils/correlationUtils.ts:27-34 | the fitted line passes through the mean point: `a + b x̄ = ȳ` |
| Correlation.Residuals | src/components/CorrelationRegression.tsx:370-373 | the residual `y − (a + b x)` of each pair, in the order of the data |
| Correlation.SumOfResiduals | src/components/CorrelationRegression.tsx:370-373 | for any line, the residuals sum to `Σy − n a − b Σx` |
| Correlation.ResidualsSumToZero | src/utils/correlationUtils.ts:27-34 | the residuals of the fitted line sum to zero |
| Correlation.ResidualsOfLineThroughMeans | src/utils/correlationUtils.ts:34 | any line through the mean point leaves residuals that sum to zero |
| Correlation.SumOfXResiduals | src/components/CorrelationRegression.tsx:370-373 | for any line, `Σ x·(y − a − b x) = Σxy − a Σx − b Σx²` |
| Correlation.SumOfXPredicted | src/components/CorrelationRegression.tsx:372 | for any line, `Σ x·(a + b x) = a Σx + b Σx²` |
| Correlation.SlopeEquation | src/utils/correlationUtils.ts:31 | the fitted slope solves `b (n Σx² − (Σx)²) = n Σxy − Σx Σy` |
| Correlation.InterceptEquation | src/utils/correlationUtils.ts:27-34 | a line through the mean point has `n a = Σy − b Σx` |
| Correlation.OrthogonalityInSums | src/utils/correlationUtils.ts:22-31 | for a line with `n a = Σy − b Σx`, `n (Σxy − a Σx − b Σx²)` equals the slope numerator minus `b` times the slope denominator |
| Correlation.LineOrthogonality | src/utils/correlationUtils.ts:31-34 | the line with the slope of line 31 and the intercept of line 34 has `Σxy − a Σx − b Σx² = 0` |
| Correlation.ResidualsOrthogonalToX | src/utils/correlationUtils.ts:20-37 | the second normal equation: the residuals of the fitted line are orthogonal to the x values, `Σ x·e = 0` |
| Correlation.NormalEquationsInSums | src/utils/correlationUtils.ts:22-25 | residuals that sum to zero and are orthogonal to x give `Σy − n a − b Σx = 0` and `Σxy − a Σx − b Σx² = 0` |
| Correlation.NormalEquations | src/utils/correlationUtils.ts:22-31 | those two equations in sums give `b (n Σx² − (Σx)²) = n Σxy − Σx Σy` and `n a = Σy − b Σx` |
| Correlation.LineFromEquations | src/utils/correlationUtils.ts:31-34 | with a non-zero denominator, those give exactly the slope of line 31 and the intercept of line 34 |
| Correlation.InterceptFromSums | src/utils/correlationUtils.ts:27-34 | `n a = Σy − b Σx` means `a = ȳ − b x̄` |
| Correlation.SolveNormalEquations | src/utils/correlationUtils.ts:20-37 | a line satisfying both normal equations has the slope of line 31 and the intercept of line 34 |
| Correlation.NormalEquationsFixLine | src/utils/correlationUtils.ts:20-37 | when the x values are not constant, a line whose residuals sum to zero and are orthogonal to x is the line returned: the slope and intercept the source computes are the only solution of the normal equations |
| Correlation.SquaresOfShifted | src/components/CorrelationRegression.tsx:301 | `Σ (e + d)² = Σ e² + 2 Σ e d + Σ d²` |
| Correlation.ShiftOrthogonalToResiduals | src/components/CorrelationRegression.tsx:301 | residuals that sum to zero and are orthogonal to x are orthogonal to every `p + q x` |
| Correlation.NormalLineIsMinimal | src/components/CorrelationRegression.tsx:301 | a line solving both normal equations leaves no larger sum of squared residuals than any other line |
| Correlation.LeastSquares | src/components/CorrelationRegression.tsx:301 | the fitted line minimises the sum of squared residuals: no line leaves a smaller one |
| Correlation.SlopeSignMatchesCorrelation | src/utils/correlationUtils.ts:14-31 | whenever the slope exists, it is positive or negative exactly when the correlation is |
| Correlation.NoLineForConstant | src/utils/correlationUtils.ts:31 | when all x are equal there is no slope: the numerator of line 31 is 0 as well as its denominator, so the source divides 0 by 0 |
| Correlation.LineIffNotConstant | src/utils/correlationUtils.ts:20-37 | a line is returned exactly when the x values are not all equal |
| Correlation.GuardedCorrelation | src/utils/correlationUtils.ts:17 | `denominator === 0 ? 0 : numerator / denominator` lies in [−1, 1] and keeps the sign of the numerator |

## Left out

- Correlation.Correlation takes the value of `Math.sqrt` as a parameter `root`, with `root ≥ 0` and `root² = radicand`. Dafny's reals have no square root, so the model does not compute it.
- Correlation.Regression returns `None` when all x are equal. At that point the source computes `0 / 0` and returns `NaN` for both `a` and `b`.
- Statistics.CalculateStatistics leaves out the standard deviation and the coefficient of variation (lines 60-63). Both are `Math.sqrt` of the variance.
- Statistics.ModeOf describes the modes as a set. The model does not capture the order in which `Object.keys` lists them, or the conversion of numbers to string keys and back.
- Statistics.MostOccurrences takes the largest count over the data. The source takes it over `Object.values(frequency)`; the two are the same set of counts.
- The `interval` and `boundaries` label strings of each row (lines 103-104) are left out. They depend on JavaScript's number-to-string conversion.
- IEEE-754 rounding is not modelled, and `Math.log2` is taken as exact. Every value is a mathematical real.
- Sorting.Sort is an insertion sort. The engine's `Array.prototype.sort` is not modelled, but `Sorting.SortedUnique` shows that every sorted rearrangement of the data is the same sequence.
- Empty data and x and y of unequal lengths appear as preconditions. The callers reject them (src/components/StatisticsCalculator.tsx:22, src/components/CorrelationRegression.tsx:52-62).
- Input parsing (`split`, `parseFloat`, `isNaN`) is left out; the model's input is the parsed list.
- The React components, the chart and `generateRegressionLine` are left out, as is the PDF/CSV export in `src/utils/exportUtils.ts`. They are presentation and I/O.
