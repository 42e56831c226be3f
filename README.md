# Survey chart data model

A Dafny model of the data-shaping core of the Stack Overflow survey
dashboard (`script.js`). The page fetches two lists of `{label, count}` rows
for a topic: the "sample" group, filtered by the selected demographics, and
the whole "population". It merges them into one histogram keyed by atomic
answer label, projects the histogram into three index-aligned arrays, and
shows a summary sentence and a bar chart, or a no-data message when the
sample is empty.

Modules and their files (`Histogram` and `HistogramBuilder` share one):

- `Wrappers` (`wrappers.dfy`): `Option`, and `OrZero`, which reads an absent
  side as zero.
- `Labels` (`labels.dfy`): `label.split(';')` as `Split`. Its inverse is
  `Join`, and the two are proved to be a round trip in both directions.
- `Rows` (`rows.dfy`): the `{label, count}` row, `getGroupSize` as the loop
  method `GetGroupSize`, and its relation to the per-answer total.
- `Histogram` (`histogram.dfy`): the specification of `buildHistogram`,
  stated without loops. `Atoms` is the set of atomic labels. `Weight` is
  each label's count weighted by how many times it occurs. `Merge` is the
  merged map.
  - `PiecesFold` and `RowsFold` are the accumulate-or-create folds that the
    source's `forEach` loops perform.
  - `FoldIsMerge` proves that the two passes give exactly `Merge`.
- `HistogramBuilder` (in `histogram.dfy`): `buildHistogram` as imperative
  Dafny. The two `forEach` passes are `for` loops. Each `forEach` callback,
  one per row and one per label, is a method that returns the updated
  `surveyData`, `labelSet` and key enumeration.
- `ChartData` (`chart_data.dfy`): the projection at lines 82-85 and
  `getChartData` once both fetches have returned. Also the column sums
  compared with the group sizes.
- `Query` (`query.dfy`): `getSelectedClause` as a loop method, and the
  clause it builds.
- `Render` (`render.dfy`): `generateSampleSizeText` and the early return at
  the top of `drawChart`.

Modelling decisions:

- **Entries.** A histogram entry keeps each side as an `Option`. A side that
  no row assigned is `None`, as the JavaScript property is missing. An
  absent side stays absent in the histogram, and the projection maps it
  to 0.
- **Key order.** The histogram carries its keys in insertion order.
  `Object.keys` uses insertion order for every key that is not an array
  index; array-index keys (canonical integers below 2^32 − 1) come first, in
  ascending order. The projection reads all three arrays in the one order.
- **Truthiness.** Two branches in the source test whether a value is truthy:
  - the `populationCount` branch at lines 204-211;
  - the `x ? x : 0` ternaries at lines 84-85.

  Each is written out literally, as `AddPopulation` and `CountOrZero`. Each
  is proved equal to accumulating with absent read as zero.
- **Counts.** The code never checks that counts are non-negative, so the
  model allows any integer. The inequality
  between a column's sum and the group size is stated for non-negative
  counts only.
- **`encodeURIComponent`** is an arbitrary function parameter `encode`.

## Model

| member | source | states |
|---|---|---|
| Labels.Split | script.js:165 | Splitting on `;` yields one piece more than there are delimiters, so always at least one piece, and no piece contains `;`. |
| Labels.JoinSplit | script.js:165 | Joining the pieces with `;` gives back the original label, empty pieces included. |
| Labels.SplitJoin | script.js:190 | Splitting the join of any non-empty list of atomic pieces gives back exactly those pieces, so no information is lost in either direction. |
| Labels.JoinInjective | script.js:190 | Two lists of atomic pieces with the same join are equal. |
| Labels.SplitAtomic | script.js:165 | A label without `;` splits into itself alone. |
| Labels.SplitExamples | script.js:165 | `"A;B"` splits into `["A","B"]`. `"A;"` splits into `["A",""]`. `""` splits into `[""]`: empty pieces are kept. |
| Rows.GetGroupSize | script.js:117-125 | The accumulator loop returns the plain sum of `count` over the unsplit rows. |
| Rows.GroupSizeExample | script.js:117-125 | Rows `A;B`×5 and `C`×3 give a group size of 8: a composite row is counted once. |
| Rows.SplitTotalBound | script.js:162-183 | With non-negative counts, counting each row once per piece of its label is at least the group size. |
| Rows.SplitTotalPlain | script.js:162-183 | When no label holds `;`, counting per piece equals the group size. |
| Histogram.AtomsMembership | script.js:162-219 | A label is among the atomic labels of some rows iff some row's split label contains it. |
| Histogram.WeightOutside | script.js:162-183 | A label no row names has weighted count 0. |
| Histogram.ShareIsScaled | script.js:167-183 | Walking one row's pieces adds the row's full count once per occurrence of the label, so the count is not partitioned. |
| Histogram.PiecesFoldAt | script.js:167-183 | Folding one row's pieces adds exactly those pieces as keys. It adds the count per occurrence to the pass's side, starting from absent-as-zero. It leaves the other side and every other label unchanged. |
| Histogram.RowsFoldAt | script.js:162-219 | A whole pass adds exactly the atomic labels of its rows as keys. Each label's side becomes its old value plus its weighted count. The other side is never touched, so the population pass leaves every `sampleCount` alone. |
| Histogram.FoldIsMerge | script.js:144-222 | The sample pass followed by the population pass, from an empty object, produces `Merge`. Its keys are the union of both groups' atomic labels. Each side is the weighted count where that group names the label, and absent where it does not. |
| Histogram.Add | script.js:175-181 | The accumulate-or-create step for one label; its contract is stated by `Histogram.AddAt`. |
| Histogram.AddAt | script.js:203-217 | After one step the label has a key, its side is the old value read as zero plus the count, its other side is unchanged, and every other label's entry is unchanged. |
| Histogram.PiecesFold | script.js:167-218 | The per-label `forEach` over one row's pieces, in order, in either pass (lines 167-182 and 192-218); its contract is stated by `Histogram.PiecesFoldAt`. |
| Histogram.RowsFold | script.js:162-219 | The per-row `forEach` of one pass, in order, sample or population (lines 162-183 and 187-219); its contract is stated by `Histogram.RowsFoldAt`. |
| Histogram.AddKey | script.js:178-181 | Creating an entry for a new label and appending it to the key enumeration keeps every key listed exactly once. |
| Histogram.AddPopulation | script.js:204-211 | The truthy/falsy `populationCount` branch always yields the old count read as zero plus the row's count. |
| Histogram.ExampleRows | script.js:162-183 | `A;B`×5 has atomic labels A and B, each weighted 5. |
| Histogram.CompositeCountsInFull | script.js:162-219 | Sample `A;B`×5 and population `A`×7 give keys {A, B}. A is 5 and 7. B is 5 with no population count. |
| HistogramBuilder.TallySampleLabel | script.js:167-183 | The sample callback for one label performs the accumulate-or-create step. It keeps the label set equal to the key set. It appends a key only for a label not yet seen. |
| HistogramBuilder.TallyPopulationLabel | script.js:192-218 | The same for the population callback, through the truthiness branch. |
| HistogramBuilder.TallySampleRow | script.js:162-184 | The sample callback for one row folds its split label in order, keeping every key listed once and every `sampleCount` present. |
| HistogramBuilder.TallyPopulationRow | script.js:187-219 | The same for the population callback. |
| HistogramBuilder.BuildHistogram | script.js:144-222 | The nested loops return `Merge(sample, population)`, with every key listed exactly once. |
| ChartData.CountOrZero | script.js:84-85 | The `x ? x : 0` projection of a side is the side read with absent as zero. |
| ChartData.Project | script.js:82-85 | `labels` is the key enumeration. Both count arrays have its length. Position i of each holds the corresponding side of `labels[i]`'s entry, 0 where absent. |
| ChartData.ProjectedWeights | script.js:82-85 | Projecting the merged histogram puts at position i the weighted count of `labels[i]` in each group, 0 where the group never names it. |
| ChartData.WeightSumCovers | script.js:82-85 | Over a duplicate-free enumeration that covers the rows' labels, the weighted counts add up to the rows' per-piece total. |
| ChartData.ColumnSum | script.js:84-85 | A column equal position by position to the labels' weights sums to their weight sum. |
| ChartData.GetChartData | script.js:76-93 | The three arrays are aligned, and `labels` is duplicate-free and holds exactly the atomic labels of either group. Each count is that label's weighted count. The sizes are the plain row sums, and each column sums to its group's per-piece total. So with non-negative counts the sample column sums to at least `sampleSize`, and exactly to it when no label is a composite. |
| Query.GetSelectedClause | script.js:103-115 | The loop pushes one part per non-empty selection and joins them. The result is the `Clause` of the selections in their given order. |
| Query.Fragment | script.js:111 | One clause part: it starts with `&`, then the demographic's name, then `__exact`, then `=` and the encoded selection. |
| Query.ClauseSingle | script.js:106-113 | One demographic contributes `&name__exact=encode(value)`, or nothing when its selection is `''`. |
| Query.ClauseAppend | script.js:103-115 | The clause of two consecutive runs of demographics is the concatenation of their clauses, in order. |
| Query.EmptySelectionSkipped | script.js:107-109 | Removing a demographic with an empty selection leaves the clause unchanged. |
| Query.ClauseEmptyIff | script.js:103-115 | The clause is `''` iff every selection is empty. |
| Query.ClauseExample | script.js:103-115 | Three demographics with the middle one empty give the first fragment followed by the last. |
| Render.Decimal | script.js:330 | How `${n}` writes an integral number: a non-empty text, a leading `-` exactly for negatives, digits after it (the round trip is `Render.DecimalRoundTrip`). |
| Render.Summary | script.js:330 | The template literal with both holes filled: it starts with `Here's what this group of ` and its length is the parts' lengths added (positions in `Render.SummaryLayout`). |
| Render.Digits | script.js:330 | A written natural number is a non-empty string of decimal digits. |
| Render.DigitsRoundTrip | script.js:330 | Reading the written digits back gives the number. |
| Render.DecimalRoundTrip | script.js:330 | A written integer starts with `-` iff it is negative. Its digits read back to its magnitude, so distinct sizes are written differently. |
| Render.SummaryLayout | script.js:330 | The sentence is its lead, the sample size, ` people (out of `, the population size and ` total respondents) had to say.`, each at its stated offset (the lead by `Render.Summary`). It never equals the no-data message. |
| Render.SampleSizeText | script.js:323-331 | The text is the no-data message plus invitation iff `sampleSize == 0`. Otherwise the written sample size and population size sit at their fixed positions. |
| Render.DrawChart | script.js:235-245 | The summary is always written. No chart is built iff `sampleSize == 0`. When one is built it carries the chart data, whose `sampleSize` is non-zero, so the sample percentages never divide by zero. |
| Render.ChartIffSummary | script.js:240-245 | A chart is drawn iff the summary is not the no-data message. |

## Left out

- Fetching rows over HTTP and extracting `facet_results[topic].results` (lines 96-101) are not modelled, and neither is the `await` sequencing in `onClickAskButton` and `getChartData` (lines 39-54, 70-74). The fetched rows are inputs of `GetChartData`.
- The DOM, SlimSelect, Chart.js and randomColor are foreign UI libraries, so these are not modelled:
  - the dropdown setup (lines 19-30, 63-68);
  - the chart options and colours (lines 247-296);
  - the loading spinner (lines 299-321).

  `DrawChart` returns what the page would show instead of writing to it.
- Percentages (`getPercentage` at lines 231-233, and the series and tooltip rounding at lines 259, 266 and 281) are floating point and are not modelled. Only the zero-sample guard in front of them is. The population series divides by `populationSize` with no guard (line 266); the model does not capture that division.
- The percent-encoding performed by `encodeURIComponent` (section 2.1 of RFC 3986) is an abstract function parameter.
- JavaScript object quirks are not modelled:
  - labels that collide with `Object.prototype` members such as `constructor` or `__proto__`;
  - `populationCount` being non-enumerable when created through `Object.defineProperty` (line 208);
  - `Object.keys` listing integer-like keys first.

  The model enumerates keys in insertion order.
- A sample entry whose `sampleCount` went missing would turn into `NaN` on `+=`. This cannot happen, because every entry the sample pass creates has a `sampleCount`, and `TallySampleRow` keeps that invariant. The model therefore has no `NaN`.
- Rows.GetGroupSize, HistogramBuilder.BuildHistogram, ChartData.GetChartData: JavaScript counts are doubles, while the model uses unbounded integers. Sums above 2^53 would round in the source but are exact in the model, and fractional, infinite or `NaN` counts are not modelled.
- Render.Decimal: only integral numbers are written; JavaScript's exponent notation for magnitudes of 10^21 and above is not modelled.
- HistogramBuilder.BuildHistogram: the label set is built and kept equal to the key set, as in the source. It is not returned, because the source never reads it.
