/** `getChartData` once both groups' rows are at hand: the group sizes, the
    histogram, and its projection into three index-aligned arrays. */
module ChartData {
  import opened Wrappers
  import opened Labels
  import opened Rows
  import opened Histogram
  import opened HistogramBuilder

  /** The object `getChartData` resolves to. */
  datatype ChartData = ChartData(
    labels: seq<string>,
    sampleCounts: seq<int>,
    sampleSize: int,
    populationCounts: seq<int>,
    populationSize: int)

  /** `row.sampleCount ? row.sampleCount : 0`: a falsy side (absent, or
      zero) projects to 0, a truthy one to itself. Either way that is the
      side read with absent as zero. */
  function CountOrZero(c: Option<int>): (r: int)
    ensures r == OrZero(c)
  {
    if c.Some? && c.value != 0 then c.value else 0
  }

  /** `Object.keys` and the two `Object.values(...).map(...)` columns, read
      in the same key order. */
  function Project(h: Histogram, sampleSize: int, populationSize: int): (c: ChartData)
    requires Valid(h)
    ensures c.labels == h.keys
    ensures |c.sampleCounts| == |c.labels| && |c.populationCounts| == |c.labels|
    ensures forall i :: 0 <= i < |c.labels| ==>
      c.labels[i] in h.entries && c.sampleCounts[i] == OrZero(h.entries[c.labels[i]].sampleCount)
    ensures forall i :: 0 <= i < |c.labels| ==>
      c.labels[i] in h.entries && c.populationCounts[i] == OrZero(h.entries[c.labels[i]].populationCount)
    ensures c.sampleSize == sampleSize && c.populationSize == populationSize
  {
    var sampleCounts := seq(|h.keys|, i requires 0 <= i < |h.keys| => CountOrZero(h.entries[h.keys[i]].sampleCount));
    var populationCounts := seq(|h.keys|, i requires 0 <= i < |h.keys| => CountOrZero(h.entries[h.keys[i]].populationCount));
    ChartData(h.keys, sampleCounts, sampleSize, populationCounts, populationSize)
  }

  /** Projecting the merged histogram: each column holds the weighted
      occurrence count of its label in that group, zero where the group
      never names the label. */
  lemma ProjectedWeights(h: Histogram, sample: seq<Row>, population: seq<Row>, sampleSize: int, populationSize: int)
    requires Valid(h) && h.entries == Merge(sample, population)
    ensures var c := Project(h, sampleSize, populationSize);
      forall i :: 0 <= i < |c.labels| ==>
        c.sampleCounts[i] == Weight(sample, c.labels[i]) && c.populationCounts[i] == Weight(population, c.labels[i])
  {
    var c := Project(h, sampleSize, populationSize);
    forall i | 0 <= i < |c.labels|
      ensures c.sampleCounts[i] == Weight(sample, c.labels[i])
      ensures c.populationCounts[i] == Weight(population, c.labels[i])
    {
      var a := c.labels[i];
      if a !in Atoms(sample) {
        WeightOutside(sample, a);
      }
      if a !in Atoms(population) {
        WeightOutside(population, a);
      }
    }
  }

  function Sum(xs: seq<int>): int
  {
    if xs == [] then 0 else Sum(xs[..|xs| - 1]) + xs[|xs| - 1]
  }

  /** `c` added once for every position of `keys` holding `x`. */
  function Hits(keys: seq<string>, x: string, c: int): int
  {
    if keys == [] then 0
    else Hits(keys[..|keys| - 1], x, c) + (if keys[|keys| - 1] == x then c else 0)
  }

  /** What one row's pieces add up to over a key enumeration. */
  function ShareSum(keys: seq<string>, c: int, pieces: seq<string>): int
  {
    if keys == [] then 0
    else ShareSum(keys[..|keys| - 1], c, pieces) + Share(c, pieces, keys[|keys| - 1])
  }

  /** A column of weights, one per key. */
  function WeightSum(keys: seq<string>, rows: seq<Row>): int
  {
    if keys == [] then 0
    else WeightSum(keys[..|keys| - 1], rows) + Weight(rows, keys[|keys| - 1])
  }

  /** A key listed once is hit once. */
  lemma {:induction false} HitsDistinct(keys: seq<string>, x: string, c: int)
    requires Distinct(keys)
    ensures Hits(keys, x, c) == if x in keys then c else 0
  {
    if keys != [] {
      var init := keys[..|keys| - 1];
      assert Distinct(init);
      HitsDistinct(init, x, c);
      assert keys == init + [keys[|keys| - 1]];
    }
  }

  lemma {:induction false} ShareSumSnoc(keys: seq<string>, c: int, pieces: seq<string>, x: string)
    ensures ShareSum(keys, c, pieces + [x]) == ShareSum(keys, c, pieces) + Hits(keys, x, c)
  {
    if keys != [] {
      ShareSumSnoc(keys[..|keys| - 1], c, pieces, x);
      assert (pieces + [x])[..|pieces|] == pieces;
    }
  }

  /** Over an enumeration listing every piece exactly once, a row's shares
      add up to its count once per piece. */
  lemma {:induction false} ShareSumCovers(keys: seq<string>, c: int, pieces: seq<string>)
    requires Distinct(keys)
    requires forall k :: 0 <= k < |pieces| ==> pieces[k] in keys
    ensures ShareSum(keys, c, pieces) == c * |pieces|
  {
    if pieces == [] {
      ShareSumEmpty(keys, c);
    } else {
      var init, x := pieces[..|pieces| - 1], pieces[|pieces| - 1];
      ShareSumCovers(keys, c, init);
      assert pieces == init + [x];
      ShareSumSnoc(keys, c, init, x);
      HitsDistinct(keys, x, c);
      assert c * |pieces| == c * |init| + c;
    }
  }

  lemma {:induction false} ShareSumEmpty(keys: seq<string>, c: int)
    ensures ShareSum(keys, c, []) == 0
  {
    if keys != [] {
      ShareSumEmpty(keys[..|keys| - 1], c);
    }
  }

  lemma {:induction false} WeightSumSnoc(keys: seq<string>, rows: seq<Row>, last: Row)
    ensures WeightSum(keys, rows + [last]) == WeightSum(keys, rows) + ShareSum(keys, last.count, Split(last.answer))
  {
    if keys != [] {
      WeightSumSnoc(keys[..|keys| - 1], rows, last);
      assert (rows + [last])[..|rows|] == rows;
    }
  }

  lemma {:induction false} WeightSumEmpty(keys: seq<string>)
    ensures WeightSum(keys, []) == 0
  {
    if keys != [] {
      WeightSumEmpty(keys[..|keys| - 1]);
    }
  }

  /** Over an enumeration listing every atomic label of the rows exactly
      once, the weights add up to the rows' split total. */
  lemma {:induction false} WeightSumCovers(keys: seq<string>, rows: seq<Row>)
    requires Distinct(keys)
    requires forall a :: a in Atoms(rows) ==> a in keys
    ensures WeightSum(keys, rows) == SplitTotal(rows)
  {
    if rows == [] {
      WeightSumEmpty(keys);
    } else {
      var init, last := rows[..|rows| - 1], rows[|rows| - 1];
      assert Atoms(rows) == Atoms(init) + Pieces(last);
      WeightSumCovers(keys, init);
      var pieces := Split(last.answer);
      forall k | 0 <= k < |pieces|
        ensures pieces[k] in keys
      {
        assert pieces[k] in Pieces(last);
      }
      ShareSumCovers(keys, last.count, pieces);
      assert rows == init + [last];
      WeightSumSnoc(keys, init, last);
    }
  }

  /** A column equal, position by position, to the weights of the labels
      sums to their weight sum. */
  lemma {:induction false} ColumnSum(xs: seq<int>, keys: seq<string>, rows: seq<Row>)
    requires |xs| == |keys|
    requires forall i :: 0 <= i < |keys| ==> xs[i] == Weight(rows, keys[i])
    ensures Sum(xs) == WeightSum(keys, rows)
  {
    if keys != [] {
      ColumnSum(xs[..|xs| - 1], keys[..|keys| - 1], rows);
    }
  }

  /** `getChartData` after both fetches: the group sizes are the plain sums
      of the rows, the arrays are aligned with one position per atomic label
      of either group, and each count is that label's weighted occurrence
      count. Because composite rows count toward every answer they name,
      a column can only add up to more than its group size, and to exactly
      the group size when no row is a composite. */
  method GetChartData(sampleData: seq<Row>, populationData: seq<Row>) returns (c: ChartData)
    ensures |c.sampleCounts| == |c.labels| && |c.populationCounts| == |c.labels|
    ensures Distinct(c.labels)
    ensures forall a :: a in c.labels <==> a in Atoms(sampleData) || a in Atoms(populationData)
    ensures forall i :: 0 <= i < |c.labels| ==>
      c.sampleCounts[i] == Weight(sampleData, c.labels[i]) && c.populationCounts[i] == Weight(populationData, c.labels[i])
    ensures c.sampleSize == Total(sampleData) && c.populationSize == Total(populationData)
    ensures Sum(c.sampleCounts) == SplitTotal(sampleData) && Sum(c.populationCounts) == SplitTotal(populationData)
    ensures NonNegative(sampleData) ==> Sum(c.sampleCounts) >= c.sampleSize
    ensures NoComposite(sampleData) ==> Sum(c.sampleCounts) == c.sampleSize
  {
    var sampleSize := GetGroupSize(sampleData);
    var populationSize := GetGroupSize(populationData);
    var histogram := BuildHistogram(sampleData, populationData);
    c := Project(histogram, sampleSize, populationSize);
    ProjectedWeights(histogram, sampleData, populationData, sampleSize, populationSize);
    ColumnSum(c.sampleCounts, c.labels, sampleData);
    ColumnSum(c.populationCounts, c.labels, populationData);
    WeightSumCovers(c.labels, sampleData);
    WeightSumCovers(c.labels, populationData);
    if NonNegative(sampleData) {
      SplitTotalBound(sampleData);
    }
    if NoComposite(sampleData) {
      SplitTotalPlain(sampleData);
    }
  }
}
