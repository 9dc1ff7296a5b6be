/** `generateFrequencyTable`: Sturges' rule picks `k = ceil(log2 n + 1)`
    classes of width `w = ceil(range / k)` starting at the minimum; class `i`
    counts the data in `[min + i w, min + (i + 1) w)`, the last class also
    takes its upper bound; the loop pushes a row for every class except an
    empty last one, and the final `filter` keeps the rows with data.

    `Table` is the table as a function of the data; the method
    `GenerateFrequencyTable` runs the source's loop and is proved to build it.
    The lemmas show that the classes partition the data, that the frequencies
    add up to `n`, and that the rows are non-empty, ordered and at most `k`. */
module FrequencyTable {
  import opened Series

  // ---------------------------------------------------------------------
  // Sturges' rule
  // ---------------------------------------------------------------------

  function Pow2(e: nat): (p: nat)
    ensures p >= 1
  {
    if e == 0 then 1 else 2 * Pow2(e - 1)
  }

  /** `Math.ceil(Math.log2(n))`: the least `e` with `2^e >= n`. */
  function CeilLog2(n: nat): (e: nat)
    requires n >= 1
    ensures Pow2(e) >= n
    ensures e > 0 ==> Pow2(e - 1) < n
  {
    if n <= 1 then 0 else 1 + CeilLog2((n + 1) / 2)
  }

  /** `Math.ceil(Math.log2(n) + 1)`: the least `k` with `2^(k-1) >= n`. */
  function NumClasses(n: nat): (k: nat)
    requires n >= 1
    ensures k >= 1
    ensures Pow2(k - 1) >= n
    ensures k >= 2 ==> Pow2(k - 2) < n
  {
    CeilLog2(n) + 1
  }

  /** `Math.ceil`: the least integer not below `r`. */
  function Ceil(r: real): (c: int)
    ensures r <= c as real < r + 1.0
  {
    if r.Floor as real == r then r.Floor else r.Floor + 1
  }

  /** `Math.ceil(range / numClasses)`: `k` classes of this width cover the
      range, and the width is 0 exactly when the range is. */
  function ClassWidth(range: real, k: nat): (w: nat)
    requires range >= 0.0 && k >= 1
    ensures (k * w) as real >= range
    ensures w == 0 <==> range == 0.0
  {
    var q := range / k as real;
    QuotientScaled(range, k as real, q);
    var c := Ceil(q);
    CoverStep(k as real, q, c as real, range);
    c
  }

  lemma QuotientScaled(range: real, k: real, q: real)
    requires range >= 0.0 && k >= 1.0 && q == range / k
    ensures q >= 0.0 && k * q == range
    ensures q == 0.0 <==> range == 0.0
  {
  }

  lemma CoverStep(k: real, q: real, c: real, range: real)
    requires k >= 1.0 && q <= c && k * q == range
    ensures k * c >= range
  {
    assert k * c - k * q == k * (c - q);
  }

  // ---------------------------------------------------------------------
  // Classes
  // ---------------------------------------------------------------------

  /** The classes: the first lower bound, the width and how many there are. */
  datatype Classes = Classes(min: real, width: nat, count: nat)

  /** The classes `generateFrequencyTable` builds for the data. They start at
      the minimum and their union covers every datum. */
  function Sturges(data: seq<real>): (c: Classes)
    requires |data| > 0
    ensures c.count >= 1 && c.min == Min(data)
    ensures forall i :: 0 <= i < |data| ==> c.min <= data[i] <= Lower(c, c.count)
  {
    var lo := Min(data);
    var k := NumClasses(|data|);
    var c := Classes(lo, ClassWidth(Max(data) - lo, k), k);
    assert Lower(c, c.count) >= Max(data);
    c
  }

  /** `min + i * classWidth`: the lower bound of class `i`, and the upper bound
      of class `i - 1`. */
  function Lower(c: Classes, i: int): real
  {
    c.min + (i * c.width) as real
  }

  /** The filter of lines 92-99: `v` lies in `[lower, upper)`, or in
      `[lower, upper]` for the last class. */
  predicate Within(v: real, lower: real, upper: real, closed: bool)
  {
    v >= lower && (if closed then v <= upper else v < upper)
  }

  /** Datum `v` falls into class `i`. */
  predicate InClass(c: Classes, i: int, v: real)
  {
    Within(v, Lower(c, i), Lower(c, i + 1), i == c.count - 1)
  }

  /** `data.filter(...)`: the data within the bounds, in order. */
  function Members(data: seq<real>, lower: real, upper: real, closed: bool): (m: seq<real>)
    ensures |m| <= |data|
    ensures forall v :: v in m <==> v in data && Within(v, lower, upper, closed)
  {
    if data == [] then []
    else
      var v := data[|data| - 1];
      assert data == data[..|data| - 1] + [v];
      var rest := Members(data[..|data| - 1], lower, upper, closed);
      if Within(v, lower, upper, closed) then rest + [v] else rest
  }

  /** The filter keeps every occurrence of a value within the bounds and
      no occurrence of any other value. */
  lemma {:induction false} MembersMultiplicity(data: seq<real>, lower: real, upper: real, closed: bool)
    ensures forall v :: multiset(Members(data, lower, upper, closed))[v]
                        == if Within(v, lower, upper, closed) then multiset(data)[v] else 0
  {
    if data != [] {
      var init, v := data[..|data| - 1], data[|data| - 1];
      assert data == init + [v];
      MembersMultiplicity(init, lower, upper, closed);
    }
  }

  /** The frequency of class `i`: how many data fall into it. */
  function Frequency(c: Classes, i: int, data: seq<real>): nat
  {
    |Members(data, Lower(c, i), Lower(c, i + 1), i == c.count - 1)|
  }

  /** The class a value in the covered range falls into. */
  function ClassOf(c: Classes, v: real): (i: nat)
    requires c.count >= 1 && c.min <= v
    ensures i < c.count
  {
    if c.width == 0 then c.count - 1
    else
      var q := ((v - c.min) / c.width as real).Floor;
      if q >= c.count - 1 then c.count - 1 else q
  }

  // ---------------------------------------------------------------------
  // Rows and the table
  // ---------------------------------------------------------------------

  /** A row of the table; the `interval` and `boundaries` labels are strings
      made from `lower` and `upper`. */
  datatype ClassRow = ClassRow(lower: real, upper: real, midpoint: real, frequency: nat)

  /** The row the loop builds for class `i`. */
  function Row(c: Classes, i: int, data: seq<real>): ClassRow
  {
    var lower, upper := Lower(c, i), Lower(c, i + 1);
    ClassRow(lower, upper, (lower + upper - 1.0) / 2.0, Frequency(c, i, data))
  }

  /** `frequency > 0 || i < numClasses - 1`: whether the loop pushes row `i`. */
  predicate Pushes(c: Classes, i: int, data: seq<real>)
  {
    Frequency(c, i, data) > 0 || i < c.count - 1
  }

  /** The rows pushed by the first `j` rounds of the loop. */
  function Pushed(c: Classes, data: seq<real>, j: nat): seq<ClassRow>
  {
    if j == 0 then []
    else Pushed(c, data, j - 1) + (if Pushes(c, j - 1, data) then [Row(c, j - 1, data)] else [])
  }

  /** `filter(row => row.frequency > 0)`. */
  function NonEmpty(rows: seq<ClassRow>): (r: seq<ClassRow>)
    ensures |r| <= |rows|
    ensures forall row :: row in r <==> row in rows && row.frequency > 0
  {
    if rows == [] then []
    else
      var last := rows[|rows| - 1];
      assert rows == rows[..|rows| - 1] + [last];
      var rest := NonEmpty(rows[..|rows| - 1]);
      if last.frequency > 0 then rest + [last] else rest
  }

  /** The table `generateFrequencyTable` returns. */
  function Table(data: seq<real>): seq<ClassRow>
    requires |data| > 0
  {
    var c := Sturges(data);
    NonEmpty(Pushed(c, data, c.count))
  }

  /** Lines 76-112: the loop pushes the rows, then the empty ones are dropped. */
  method GenerateFrequencyTable(data: seq<real>) returns (table: seq<ClassRow>)
    requires |data| > 0
    ensures table == Table(data)
  {
    var min := Min(data);
    var max := Max(data);
    var range := max - min;
    var numClasses := NumClasses(|data|);
    var classWidth := ClassWidth(range, numClasses);
    var c := Classes(min, classWidth, numClasses);
    assert c == Sturges(data);
    var frequencyTable: seq<ClassRow> := [];
    for i := 0 to numClasses
      invariant frequencyTable == Pushed(c, data, i)
    {
      var lowerBound := min + (i * classWidth) as real;
      var upperBound := min + ((i + 1) * classWidth) as real;
      var frequency := |Members(data, lowerBound, upperBound, i == numClasses - 1)|;
      assert Row(c, i, data) == ClassRow(lowerBound, upperBound, (lowerBound + upperBound - 1.0) / 2.0, frequency);
      if frequency > 0 || i < numClasses - 1 {
        frequencyTable := frequencyTable + [ClassRow(lowerBound, upperBound, (lowerBound + upperBound - 1.0) / 2.0, frequency)];
      }
    }
    table := NonEmpty(frequencyTable);
  }

  // ---------------------------------------------------------------------
  // Every datum falls into exactly one class
  // ---------------------------------------------------------------------

  /** A value in `[min, Lower(c, c.count)]` lies in class `i` exactly when
      `i` is `ClassOf(c, v)`. */
  lemma ClassOfUnique(c: Classes, v: real, i: int)
    requires c.count >= 1 && c.min <= v <= Lower(c, c.count)
    requires 0 <= i < c.count
    ensures InClass(c, i, v) <==> i == ClassOf(c, v)
  {
    if c.width > 0 {
      var t := (v - c.min) / c.width as real;
      InClassScaled(c, v, i, t);
      InClassScaled(c, v, i + 1, t);
      InClassScaled(c, v, c.count, t);
      FloorClass(t, i, c.count);
    }
  }

  /** With a positive width, class membership compares `(v - min) / width`
      with the class index. */
  lemma InClassScaled(c: Classes, v: real, i: int, t: real)
    requires c.width > 0 && t == (v - c.min) / c.width as real
    ensures v >= Lower(c, i) <==> t >= i as real
    ensures v <= Lower(c, i) <==> t <= i as real
    ensures v < Lower(c, i) <==> t < i as real
  {
    var w := c.width as real;
    assert Lower(c, i) == c.min + i as real * w;
    assert t * w == v - c.min;
    assert (v - c.min) - i as real * w == (t - i as real) * w;
  }

  /** The clamped floor picks the one index whose unit interval holds `t`. */
  lemma FloorClass(t: real, i: int, k: int)
    requires 0.0 <= t <= k as real && 0 <= i < k
    ensures (i as real <= t && (if i == k - 1 then t <= (i + 1) as real else t < (i + 1) as real))
        <==> i == (if t.Floor >= k - 1 then k - 1 else t.Floor)
  {
  }

  /** How many of the classes `0 .. j - 1` hold `v`. */
  function Occupancy(c: Classes, v: real, j: nat): nat
  {
    if j == 0 then 0 else Occupancy(c, v, j - 1) + (if InClass(c, j - 1, v) then 1 else 0)
  }

  lemma {:induction false} OccupancyOfClasses(c: Classes, v: real, j: nat)
    requires c.count >= 1 && c.min <= v <= Lower(c, c.count) && j <= c.count
    ensures Occupancy(c, v, j) == if ClassOf(c, v) < j then 1 else 0
  {
    if j > 0 {
      OccupancyOfClasses(c, v, j - 1);
      ClassOfUnique(c, v, j - 1);
    }
  }

  /** Every value of the covered range lies in exactly one class. */
  lemma OneClassEach(c: Classes, v: real)
    requires c.count >= 1 && c.min <= v <= Lower(c, c.count)
    ensures Occupancy(c, v, c.count) == 1
  {
    OccupancyOfClasses(c, v, c.count);
  }

  // ---------------------------------------------------------------------
  // The frequencies add up to n
  // ---------------------------------------------------------------------

  /** The frequencies of the classes `0 .. j - 1`. */
  function ClassTotal(c: Classes, data: seq<real>, j: nat): nat
  {
    if j == 0 then 0 else ClassTotal(c, data, j - 1) + Frequency(c, j - 1, data)
  }

  /** `Σ row.frequency` over the rows, as `totalFreq` accumulates it. */
  function TotalFrequency(rows: seq<ClassRow>): nat
  {
    if rows == [] then 0 else TotalFrequency(rows[..|rows| - 1]) + rows[|rows| - 1].frequency
  }

  lemma FrequencyLast(c: Classes, i: int, data: seq<real>)
    requires |data| > 0
    ensures Frequency(c, i, data)
         == Frequency(c, i, data[..|data| - 1]) + (if InClass(c, i, data[|data| - 1]) then 1 else 0)
  {
  }

  lemma {:induction false} ClassTotalLast(c: Classes, data: seq<real>, j: nat)
    requires |data| > 0
    ensures ClassTotal(c, data, j) == ClassTotal(c, data[..|data| - 1], j) + Occupancy(c, data[|data| - 1], j)
  {
    if j > 0 {
      ClassTotalLast(c, data, j - 1);
      FrequencyLast(c, j - 1, data);
    }
  }

  /** When the classes cover the data, their frequencies add up to `n`. */
  lemma {:induction false} ClassTotalIsLength(c: Classes, data: seq<real>)
    requires c.count >= 1
    requires forall k :: 0 <= k < |data| ==> c.min <= data[k] <= Lower(c, c.count)
    ensures ClassTotal(c, data, c.count) == |data|
  {
    if data != [] {
      var init, last := data[..|data| - 1], data[|data| - 1];
      assert forall k :: 0 <= k < |init| ==> init[k] == data[k];
      ClassTotalIsLength(c, init);
      ClassTotalLast(c, data, c.count);
      assert c.min <= last <= Lower(c, c.count);
      OneClassEach(c, last);
      assert ClassTotal(c, init, c.count) == |init|;
    } else {
      NoDataNoTotal(c, data, c.count);
    }
  }

  lemma {:induction false} NoDataNoTotal(c: Classes, data: seq<real>, j: nat)
    requires data == []
    ensures ClassTotal(c, data, j) == 0
  {
    if j > 0 {
      NoDataNoTotal(c, data, j - 1);
    }
  }

  lemma TotalFrequencyAppend(rows: seq<ClassRow>, row: ClassRow)
    ensures TotalFrequency(rows + [row]) == TotalFrequency(rows) + row.frequency
  {
    assert (rows + [row])[..|rows|] == rows;
  }

  /** A class the loop skips is empty, so the pushed rows carry every count. */
  lemma {:induction false} PushedTotal(c: Classes, data: seq<real>, j: nat)
    ensures TotalFrequency(Pushed(c, data, j)) == ClassTotal(c, data, j)
  {
    if j > 0 {
      PushedTotal(c, data, j - 1);
      if Pushes(c, j - 1, data) {
        TotalFrequencyAppend(Pushed(c, data, j - 1), Row(c, j - 1, data));
      } else {
        assert Frequency(c, j - 1, data) == 0;
        assert ClassTotal(c, data, j) == ClassTotal(c, data, j - 1);
        assert Pushed(c, data, j) == Pushed(c, data, j - 1) + [];
        assert Pushed(c, data, j) == Pushed(c, data, j - 1);
      }
    }
  }

  /** Dropping the empty rows keeps the total. */
  lemma {:induction false} NonEmptyTotal(rows: seq<ClassRow>)
    ensures TotalFrequency(NonEmpty(rows)) == TotalFrequency(rows)
  {
    if rows != [] {
      var init, last := rows[..|rows| - 1], rows[|rows| - 1];
      NonEmptyTotal(init);
      if last.frequency > 0 {
        TotalFrequencyAppend(NonEmpty(init), last);
      }
    }
  }

  /** The frequencies of the table add up to the number of data. */
  lemma FrequenciesSumToLength(data: seq<real>)
    requires |data| > 0
    ensures TotalFrequency(Table(data)) == |data|
  {
    var c := Sturges(data);
    NonEmptyTotal(Pushed(c, data, c.count));
    PushedTotal(c, data, c.count);
    ClassTotalIsLength(c, data);
  }

  // ---------------------------------------------------------------------
  // The rows of the table
  // ---------------------------------------------------------------------

  /** Every class but the last is pushed, so row `a` of the pushed rows is
      the row of class `a`, and every class the loop pushes is there. */
  lemma {:induction false} PushedRows(c: Classes, data: seq<real>, j: nat)
    requires j <= c.count
    ensures |Pushed(c, data, j)| <= j
    ensures forall a :: 0 <= a < |Pushed(c, data, j)| ==> Pushed(c, data, j)[a] == Row(c, a, data)
    ensures forall i :: 0 <= i < j && Pushes(c, i, data) ==> i < |Pushed(c, data, j)|
  {
    if j > 0 {
      PushedRows(c, data, j - 1);
      if j >= 2 {
        assert Pushes(c, j - 2, data);
      }
    }
  }

  /** A class holding data lies below every later class: with width 0 only
      the closed last class can hold data. */
  lemma OccupiedBelow(c: Classes, data: seq<real>, i: int, later: int)
    requires 0 <= i < later < c.count && Frequency(c, i, data) > 0
    ensures Lower(c, i) < Lower(c, later)
  {
    if c.width == 0 {
      NothingBelowLast(c, data, i);
    } else {
      assert (later * c.width) - (i * c.width) == (later - i) * c.width;
    }
  }

  /** Strictly increasing lower bounds. */
  predicate Ascending(rows: seq<ClassRow>)
  {
    forall a, b :: 0 <= a < b < |rows| ==> rows[a].lower < rows[b].lower
  }

  /** Dropping the empty rows leaves the rows with data in their order. */
  lemma {:induction false} NonEmptyAscending(rows: seq<ClassRow>)
    requires forall a, b :: 0 <= a < b < |rows| && rows[a].frequency > 0 ==> rows[a].lower < rows[b].lower
    ensures Ascending(NonEmpty(rows))
  {
    if rows != [] {
      var init, last := rows[..|rows| - 1], rows[|rows| - 1];
      NonEmptyAscending(init);
      var rest := NonEmpty(init);
      if last.frequency > 0 {
        forall row | row in rest
          ensures row.lower < last.lower
        {
          var a :| 0 <= a < |init| && init[a] == row;
        }
        assert forall a :: 0 <= a < |rest| ==> rest[a] in rest;
      }
    }
  }

  /** The rows of the table are in increasing order of lower bound. */
  lemma TableOrdered(data: seq<real>)
    requires |data| > 0
    ensures Ascending(Table(data))
  {
    var c := Sturges(data);
    var rows := Pushed(c, data, c.count);
    PushedRows(c, data, c.count);
    forall a, b | 0 <= a < b < |rows| && rows[a].frequency > 0
      ensures rows[a].lower < rows[b].lower
    {
      OccupiedBelow(c, data, a, b);
    }
    NonEmptyAscending(rows);
  }

  /** The table has at most one row per class. */
  lemma TableSize(data: seq<real>)
    requires |data| > 0
    ensures |Table(data)| <= Sturges(data).count
  {
    var c := Sturges(data);
    PushedRows(c, data, c.count);
  }

  /** The table holds exactly the rows of the classes that hold data; each
      row's midpoint is `(lower + upper - 1) / 2`. */
  lemma TableRows(data: seq<real>)
    requires |data| > 0
    ensures var c := Sturges(data);
      forall row :: row in Table(data) <==>
        exists i :: 0 <= i < c.count && Frequency(c, i, data) > 0 && row == Row(c, i, data)
    ensures forall row :: row in Table(data) ==>
      row.frequency > 0 && row.midpoint == (row.lower + row.upper - 1.0) / 2.0
  {
    var c := Sturges(data);
    var rows := Pushed(c, data, c.count);
    PushedRows(c, data, c.count);
    forall row | row in Table(data)
      ensures exists i :: 0 <= i < c.count && Frequency(c, i, data) > 0 && row == Row(c, i, data)
    {
      var a :| 0 <= a < |rows| && rows[a] == row;
    }
    forall i | 0 <= i < c.count && Frequency(c, i, data) > 0
      ensures Row(c, i, data) in Table(data)
    {
      assert rows[i] == Row(c, i, data);
    }
  }

  /** Data without spread give a single row: the closed last class `[v, v]`
      holding all `n` data, with midpoint `v - 1/2`. */
  lemma TableOfConstant(data: seq<real>)
    requires |data| > 0 && Constant(data)
    ensures Table(data) == [ClassRow(data[0], data[0], data[0] - 0.5, |data|)]
  {
    var c := Sturges(data);
    ConstantClasses(data);
    var last := Row(c, c.count - 1, data);
    OnlyLastRow(data, c);
    FrequenciesSumToLength(data);
    assert TotalFrequency([last]) == last.frequency;
  }

  lemma ConstantClasses(data: seq<real>)
    requires |data| > 0 && Constant(data)
    ensures Sturges(data).min == data[0] && Sturges(data).width == 0
  {
    assert Max(data) == data[0];
  }

  /** With width 0 the table is at most the row of the last class. */
  lemma OnlyLastRow(data: seq<real>, c: Classes)
    requires |data| > 0 && c == Sturges(data) && c.width == 0
    ensures Table(data) == [Row(c, c.count - 1, data)]
  {
    var last := Row(c, c.count - 1, data);
    var t := Table(data);
    TableRows(data);
    TableOrdered(data);
    FrequenciesSumToLength(data);
    forall k | 0 <= k < |t|
      ensures t[k] == last
    {
      assert t[k] in t;
      var i :| 0 <= i < c.count && Frequency(c, i, data) > 0 && t[k] == Row(c, i, data);
      if i < c.count - 1 {
        NothingBelowLast(c, data, i);
      }
    }
    assert t != [];
    AscendingOfOne(t, last);
  }

  /** With width 0 every class before the last is empty. */
  lemma NothingBelowLast(c: Classes, data: seq<real>, i: int)
    requires c.width == 0 && 0 <= i < c.count - 1
    ensures Frequency(c, i, data) == 0
  {
    EmptyInterval(data, Lower(c, i), Lower(c, i + 1));
  }

  /** No datum lies in `[lower, lower)`. */
  lemma {:induction false} EmptyInterval(data: seq<real>, lower: real, upper: real)
    requires lower == upper
    ensures Members(data, lower, upper, false) == []
  {
    if data != [] {
      EmptyInterval(data[..|data| - 1], lower, upper);
    }
  }

  /** Ascending rows that are all the same row are at most one. */
  lemma AscendingOfOne(rows: seq<ClassRow>, row: ClassRow)
    requires Ascending(rows) && rows != []
    requires forall k :: 0 <= k < |rows| ==> rows[k] == row
    ensures rows == [row]
  {
    AscendingStart(rows);
  }

  lemma AscendingStart(rows: seq<ClassRow>)
    requires Ascending(rows)
    ensures |rows| > 1 ==> rows[0].lower < rows[1].lower
  {
  }
}
