/** `calculateStatistics`: the mean, the median of the ascending copy, the
    modes, the range and the grouped-data variance of a non-empty data set.

    The `frequency` object that the `forEach` fills and the `varianceSum` /
    `totalFreq` accumulation over the frequency table are methods with loops,
    each proved to compute a specification function; the remaining values are
    functions. `CalculateStatistics` runs the whole computation in the
    source's order. The lemmas show where each value lies, when there is no
    mode, which values are the modes, and that the grouped variance is a
    non-negative average over `n` data. */
module Statistics {
  import opened Series
  import opened Sorting
  import opened FrequencyTable

  // ---------------------------------------------------------------------
  // Median
  // ---------------------------------------------------------------------

  /** The middle element of a sorted sequence when its length is odd, the
      average of the two middle ones when it is even. */
  function Middle(sortedData: seq<real>): real
    requires |sortedData| > 0
  {
    var n := |sortedData|;
    if n % 2 == 0 then (sortedData[n / 2 - 1] + sortedData[n / 2]) / 2.0
    else sortedData[n / 2]
  }

  /** The median: the middle of the ascending copy of the data. */
  function Median(data: seq<real>): real
    requires |data| > 0
  {
    Middle(Sort(data))
  }

  /** The median lies between the smallest and the largest datum. */
  lemma MedianWithinRange(data: seq<real>)
    requires |data| > 0
    ensures Min(data) <= Median(data) <= Max(data)
  {
    var sortedData := Sort(data);
    var n := |data|;
    SortedElementsAreData(data, n / 2);
    SortedElementsAreData(data, (n - 1) / 2);
    MiddleBetween(sortedData, sortedData[(n - 1) / 2], sortedData[n / 2]);
  }

  lemma MiddleBetween(sortedData: seq<real>, lo: real, hi: real)
    requires |sortedData| > 0
    requires lo == sortedData[(|sortedData| - 1) / 2] && hi == sortedData[|sortedData| / 2]
    ensures lo <= hi ==> lo <= Middle(sortedData) <= hi
  {
  }

  /** The first half of the ascending copy lies at or below the median and
      the second half at or above it. */
  lemma MedianSplits(data: seq<real>)
    requires |data| > 0
    ensures forall k :: 0 <= k < (|data| + 1) / 2 ==> Sort(data)[k] <= Median(data)
    ensures forall k :: |data| / 2 <= k < |data| ==> Median(data) <= Sort(data)[k]
  {
    MiddleSplits(Sort(data));
  }

  lemma MiddleSplits(sortedData: seq<real>)
    requires |sortedData| > 0 && Sorted(sortedData)
    ensures forall k :: 0 <= k < (|sortedData| + 1) / 2 ==> sortedData[k] <= Middle(sortedData)
    ensures forall k :: |sortedData| / 2 <= k < |sortedData| ==> Middle(sortedData) <= sortedData[k]
  {
    var n := |sortedData|;
    var lo, hi := sortedData[(n - 1) / 2], sortedData[n / 2];
    MiddleBetween(sortedData, lo, hi);
  }

  /** The median depends on the data only as a multiset, so it does not
      matter how the sort orders equal values or which rearrangement of the
      data is given. */
  lemma MedianOfRearrangement(a: seq<real>, b: seq<real>)
    requires |a| > 0 && |b| == |a| && multiset(a) == multiset(b)
    ensures Median(a) == Median(b)
  {
    SortedUnique(Sort(a), Sort(b));
  }

  // ---------------------------------------------------------------------
  // Mode
  // ---------------------------------------------------------------------

  /** The `frequency` object after the `forEach`: every value of the data with
      its number of occurrences. */
  function Counts(data: seq<real>): map<real, nat>
  {
    map v | v in data :: multiset(data)[v]
  }

  /** Lines 31-34: `frequency[val] = (frequency[val] || 0) + 1` for each datum. */
  method CountFrequencies(data: seq<real>) returns (frequency: map<real, nat>)
    ensures frequency == Counts(data)
  {
    frequency := map[];
    assert data[..0] == [];
    for i := 0 to |data|
      invariant frequency == Counts(data[..i])
    {
      var val := data[i];
      assert data[..i + 1] == data[..i] + [val];
      CountsAppend(data[..i], val);
      frequency := frequency[val := (if val in frequency then frequency[val] else 0) + 1];
    }
    assert data[..|data|] == data;
  }

  /** One more datum adds one to its own count and changes no other. */
  lemma CountsAppend(s: seq<real>, v: real)
    ensures Counts(s + [v]) == Counts(s)[v := (if v in Counts(s) then Counts(s)[v] else 0) + 1]
  {
    var after, updated := Counts(s + [v]), Counts(s)[v := (if v in Counts(s) then Counts(s)[v] else 0) + 1];
    assert multiset(s + [v]) == multiset(s) + multiset{v};
    assert after.Keys == updated.Keys;
  }

  /** `Math.max(...Object.values(frequency))` over the values of
      `data[..j]`: the largest number of occurrences. */
  function MostOccurrences(data: seq<real>, j: nat): (top: nat)
    requires 0 < j <= |data|
    ensures exists k :: 0 <= k < j && top == multiset(data)[data[k]]
    ensures forall k :: 0 <= k < j ==> multiset(data)[data[k]] <= top
  {
    if j == 1 then multiset(data)[data[0]]
    else
      var rest := MostOccurrences(data, j - 1);
      var here := multiset(data)[data[j - 1]];
      if here > rest then here else rest
  }

  /** `"No mode"`, or the values whose count is the largest. */
  datatype Mode = NoMode | Modes(values: set<real>)

  /** Lines 36-41: no mode when the largest count is 1, otherwise the keys of
      `frequency` whose count is the largest. */
  function ModeOf(data: seq<real>): Mode
    requires |data| > 0
  {
    var frequency := Counts(data);
    var maxFreq := MostOccurrences(data, |data|);
    if maxFreq == 1 then NoMode
    else Modes(set v | v in frequency && frequency[v] == maxFreq)
  }

  /** No value occurs twice. */
  predicate Distinct(s: seq<real>)
  {
    forall i, j :: 0 <= i < j < |s| ==> s[i] != s[j]
  }

  /** There is no mode exactly when every value occurs once. */
  lemma NoModeIffDistinct(data: seq<real>)
    requires |data| > 0
    ensures ModeOf(data) == NoMode <==> Distinct(data)
  {
    if Distinct(data) {
      DistinctCounts(data);
    } else {
      var i, j :| 0 <= i < j < |data| && data[i] == data[j];
      RepeatedCount(data, i, j);
    }
  }

  /** When there are modes, they are exactly the data values that occur at
      least as often as any other, and each of them occurs at least twice. */
  lemma ModesAreMostFrequent(data: seq<real>, v: real)
    requires |data| > 0 && ModeOf(data).Modes?
    ensures v in ModeOf(data).values <==>
      v in data && forall w :: w in data ==> multiset(data)[w] <= multiset(data)[v]
    ensures v in ModeOf(data).values ==> multiset(data)[v] >= 2
  {
    var top := MostOccurrences(data, |data|);
    var k :| 0 <= k < |data| && top == multiset(data)[data[k]];
    if v in data && forall w :: w in data ==> multiset(data)[w] <= multiset(data)[v] {
      assert data[k] in data;
      var i :| 0 <= i < |data| && data[i] == v;
    }
    if v in ModeOf(data).values {
      forall w | w in data
        ensures multiset(data)[w] <= multiset(data)[v]
      {
        var i :| 0 <= i < |data| && data[i] == w;
      }
    }
  }

  /** In data without repeats every value occurs once. */
  lemma {:induction false} DistinctCounts(s: seq<real>)
    requires Distinct(s)
    ensures forall k :: 0 <= k < |s| ==> multiset(s)[s[k]] == 1
  {
    if s != [] {
      var init, last := s[..|s| - 1], s[|s| - 1];
      assert s == init + [last];
      DistinctCounts(init);
      assert last !in init;
      forall k | 0 <= k < |s|
        ensures multiset(s)[s[k]] == 1
      {
        if k < |s| - 1 {
          assert s[k] == init[k] && s[k] != last;
        }
      }
    }
  }

  /** A value found at two positions occurs at least twice. */
  lemma RepeatedCount(s: seq<real>, i: int, j: int)
    requires 0 <= i < j < |s| && s[i] == s[j]
    ensures multiset(s)[s[i]] >= 2
  {
    var v := s[i];
    var front, back := s[..j], s[j..];
    assert s == front + back;
    assert front[i] == v && back[0] == v;
    assert multiset(s)[v] == multiset(front)[v] + multiset(back)[v];
  }

  // ---------------------------------------------------------------------
  // Range
  // ---------------------------------------------------------------------

  /** `Math.max(...data) - Math.min(...data)`: the width of the smallest
      interval holding the data. */
  function Range(data: seq<real>): (r: real)
    requires |data| > 0
    ensures r >= 0.0
    ensures forall i, j :: 0 <= i < |data| && 0 <= j < |data| ==> data[j] - data[i] <= r
    ensures exists i, j :: 0 <= i < |data| && 0 <= j < |data| && data[j] - data[i] == r
  {
    Max(data) - Min(data)
  }

  // ---------------------------------------------------------------------
  // Grouped variance
  // ---------------------------------------------------------------------

  /** `Σ row.frequency * deviation * deviation` with `deviation = row.midpoint - mean`. */
  function WeightedSquares(rows: seq<ClassRow>, mean: real): real
  {
    if rows == [] then 0.0
    else
      var row := rows[|rows| - 1];
      var deviation := row.midpoint - mean;
      WeightedSquares(rows[..|rows| - 1], mean) + row.frequency as real * deviation * deviation
  }

  /** Lines 48-55: the loop over the rows of the frequency table. */
  method AccumulateDeviations(frequencyTable: seq<ClassRow>, mean: real)
    returns (varianceSum: real, totalFreq: nat)
    ensures varianceSum == WeightedSquares(frequencyTable, mean)
    ensures totalFreq == TotalFrequency(frequencyTable)
  {
    varianceSum, totalFreq := 0.0, 0;
    for i := 0 to |frequencyTable|
      invariant varianceSum == WeightedSquares(frequencyTable[..i], mean)
      invariant totalFreq == TotalFrequency(frequencyTable[..i])
    {
      var row := frequencyTable[i];
      assert frequencyTable[..i + 1][..i] == frequencyTable[..i];
      var deviation := row.midpoint - mean;
      varianceSum := varianceSum + row.frequency as real * deviation * deviation;
      totalFreq := totalFreq + row.frequency;
    }
    assert frequencyTable[..|frequencyTable|] == frequencyTable;
  }

  /** A sum of weighted squares is never negative. */
  lemma {:induction false} WeightedSquaresNonNegative(rows: seq<ClassRow>, mean: real)
    ensures WeightedSquares(rows, mean) >= 0.0
  {
    if rows != [] {
      var row := rows[|rows| - 1];
      WeightedSquaresNonNegative(rows[..|rows| - 1], mean);
      WeightedSquareNonNegative(row.frequency as real, row.midpoint - mean);
    }
  }

  lemma WeightedSquareNonNegative(f: real, d: real)
    requires f >= 0.0
    ensures f * d * d >= 0.0
  {
    assert f * d * d == f * (d * d);
    ProductNonNegative(f, d * d);
  }

  /** Line 57: `varianceSum / totalFreq` over the table of the data. */
  function GroupedVariance(data: seq<real>): real
    requires |data| > 0
  {
    var table := Table(data);
    FrequenciesSumToLength(data);
    WeightedSquares(table, Mean(data)) / TotalFrequency(table) as real
  }

  /** The grouped variance is a non-negative average over the `n` data: its
      divisor `Σ f` is `n`. */
  lemma GroupedVarianceIsAverage(data: seq<real>)
    requires |data| > 0
    ensures GroupedVariance(data) == WeightedSquares(Table(data), Mean(data)) / |data| as real
    ensures GroupedVariance(data) >= 0.0
  {
    FrequenciesSumToLength(data);
    WeightedSquaresNonNegative(Table(data), Mean(data));
  }

  /** Constant data `v` form the single class `[v, v]` with midpoint
      `v - 1/2`, half a unit from the mean, so their grouped variance is 1/4
      rather than 0. */
  lemma GroupedVarianceOfConstant(data: seq<real>)
    requires |data| > 0 && Constant(data)
    ensures GroupedVariance(data) == 0.25
  {
    var v := data[0];
    var row := ClassRow(v, v, v - 0.5, |data|);
    GroupedVarianceIsAverage(data);
    TableOfConstant(data);
    MeanOfConstant(data);
    OneRow(row, v);
    QuarterStep(WeightedSquares([row], v), |data| as real, GroupedVariance(data));
  }

  lemma QuarterStep(squares: real, n: real, variance: real)
    requires n > 0.0 && squares == n * 0.25 && variance == squares / n
    ensures variance == 0.25
  {
  }

  /** A single row half a unit below the mean. */
  lemma OneRow(row: ClassRow, mean: real)
    requires row.midpoint == mean - 0.5
    ensures WeightedSquares([row], mean) == row.frequency as real * 0.25
    ensures TotalFrequency([row]) == row.frequency
  {
    assert [row][..0] == [];
  }

  // ---------------------------------------------------------------------
  // The whole computation
  // ---------------------------------------------------------------------

  /** The returned record, without the square-root based standard deviation
      and coefficient of variation. */
  datatype Statistics = Statistics(mean: real, median: real, mode: Mode, range: real, variance: real)

  /** The statistics of the data, value by value. */
  function StatisticsOf(data: seq<real>): Statistics
    requires |data| > 0
  {
    Statistics(Mean(data), Median(data), ModeOf(data), Range(data), GroupedVariance(data))
  }

  /** The mean and the median lie within the data, there is no mode exactly
      when no value repeats, and the range and the variance are not negative. */
  lemma StatisticsBounds(data: seq<real>)
    requires |data| > 0
    ensures var stats := StatisticsOf(data);
      && Min(data) <= stats.mean <= Max(data)
      && Min(data) <= stats.median <= Max(data)
      && (stats.mode == NoMode <==> Distinct(data))
      && stats.range >= 0.0 && stats.variance >= 0.0
  {
    MeanWithinRange(data);
    MedianWithinRange(data);
    NoModeIffDistinct(data);
    GroupedVarianceIsAverage(data);
  }

  /** Lines 18-74: each value computed as the source does, in its order. */
  method CalculateStatistics(data: seq<real>) returns (stats: Statistics)
    requires |data| > 0
    ensures stats == StatisticsOf(data)
  {
    var sortedData := Sort(data);
    var n := |data|;

    var mean := Sum(data) / n as real;

    var median := Middle(sortedData);
    assert mean == Mean(data) && median == Median(data);

    var frequency := CountFrequencies(data);
    var maxFreq := MostOccurrences(data, n);
    var modes := set v | v in frequency && frequency[v] == maxFreq;
    var mode := if maxFreq == 1 then NoMode else Modes(modes);
    assert mode == ModeOf(data);

    var range := Max(data) - Min(data);

    var frequencyTable := GenerateFrequencyTable(data);
    var varianceSum, totalFreq := AccumulateDeviations(frequencyTable, mean);
    FrequenciesSumToLength(data);
    var variance := varianceSum / totalFreq as real;
    assert variance == GroupedVariance(data);

    stats := Statistics(mean, median, mode, range, variance);
  }
}
