/** `buildHistogram`: merging the sample group's rows and the population's
    rows into one histogram keyed by atomic answer label. */
module Histogram {
  import opened Wrappers
  import opened Labels
  import opened Rows

  /** One histogram entry. A side that no row ever assigned is absent, as the
      JavaScript property is; every consumer reads an absent side as zero. */
  datatype Entry = Entry(sampleCount: Option<int>, populationCount: Option<int>)

  /** The `surveyData` object: its entries, and its keys in the order
      `Object.keys` enumerates them (insertion order). */
  datatype Histogram = Histogram(keys: seq<string>, entries: map<string, Entry>)

  predicate Distinct(s: seq<string>)
  {
    forall i, j :: 0 <= i < j < |s| ==> s[i] != s[j]
  }

  /** The key enumeration lists every entry exactly once. */
  predicate Valid(h: Histogram)
  {
    && Distinct(h.keys)
    && (forall k :: k in h.keys ==> k in h.entries)
    && (forall k :: k in h.entries ==> k in h.keys)
  }

  /** The atomic labels one row names. */
  function Pieces(row: Row): set<string>
  {
    set p | p in Split(row.answer)
  }

  /** Every atomic label that some row's label names. */
  function Atoms(rows: seq<Row>): set<string>
  {
    if rows == [] then {}
    else Atoms(rows[..|rows| - 1]) + Pieces(rows[|rows| - 1])
  }

  /** The weighted occurrence count of `atom`: each row adds its full count
      once for every time `atom` occurs among the pieces of its label. */
  function Weight(rows: seq<Row>, atom: string): int
  {
    if rows == [] then 0
    else
      var last := rows[|rows| - 1];
      Weight(rows[..|rows| - 1], atom) + Share(last.count, Split(last.answer), atom)
  }

  /** One side of an entry: present exactly when some row names the label. */
  function Tally(rows: seq<Row>, atom: string): Option<int>
  {
    if atom in Atoms(rows) then Some(Weight(rows, atom)) else None
  }

  /** The histogram `buildHistogram` is meant to produce, stated without
      loops: one key per atomic label of either group, each side its tally. */
  function Merge(sample: seq<Row>, population: seq<Row>): map<string, Entry>
  {
    map atom | atom in Atoms(sample) + Atoms(population) ::
      Entry(Tally(sample, atom), Tally(population, atom))
  }

  /** An atom belongs to the rows exactly when some row's label names it. */
  lemma {:induction false} AtomsMembership(rows: seq<Row>, atom: string)
    ensures atom in Atoms(rows) <==> exists k :: 0 <= k < |rows| && atom in Split(rows[k].answer)
  {
    if rows != [] {
      var init := rows[..|rows| - 1];
      AtomsMembership(init, atom);
      if atom in Atoms(init) {
        var k :| 0 <= k < |init| && atom in Split(init[k].answer);
        assert rows[k] == init[k];
      }
      if exists k :: 0 <= k < |rows| && atom in Split(rows[k].answer) {
        var k :| 0 <= k < |rows| && atom in Split(rows[k].answer);
        if k < |init| {
          assert init[k] == rows[k];
        }
      }
    }
  }

  /** An atom no row names has weight zero. */
  lemma {:induction false} WeightOutside(rows: seq<Row>, atom: string)
    requires atom !in Atoms(rows)
    ensures Weight(rows, atom) == 0
  {
    if rows != [] {
      WeightOutside(rows[..|rows| - 1], atom);
      var last := rows[|rows| - 1];
      ShareAbsent(last.count, Split(last.answer), atom);
    }
  }

  /** What one row adds to `atom` while its pieces are walked in order: the
      row's count once per piece equal to `atom`. */
  function Share(count: int, pieces: seq<string>, atom: string): int
  {
    if pieces == [] then 0
    else Share(count, pieces[..|pieces| - 1], atom) + (if pieces[|pieces| - 1] == atom then count else 0)
  }

  /** Walking the pieces one by one adds the count times the occurrences. */
  lemma {:induction false} ShareIsScaled(count: int, pieces: seq<string>, atom: string)
    ensures Share(count, pieces, atom) == count * multiset(pieces)[atom]
  {
    if pieces != [] {
      var init, last := pieces[..|pieces| - 1], pieces[|pieces| - 1];
      ShareIsScaled(count, init, atom);
      assert pieces == init + [last];
      assert multiset(pieces)[atom] == multiset(init)[atom] + (if last == atom then 1 else 0);
      assert count * multiset(pieces)[atom] == count * multiset(init)[atom] + count * (if last == atom then 1 else 0);
    }
  }

  lemma {:induction false} ShareAbsent(count: int, pieces: seq<string>, atom: string)
    requires atom !in pieces
    ensures Share(count, pieces, atom) == 0
  {
    if pieces != [] {
      ShareAbsent(count, pieces[..|pieces| - 1], atom);
    }
  }

  /** Which of the two passes is running. */
  datatype Side = SampleSide | PopulationSide

  function Other(side: Side): Side
  {
    if side == SampleSide then PopulationSide else SampleSide
  }

  /** The entry of `atom`, an entry with both sides absent when there is none. */
  function Lookup(surveyData: map<string, Entry>, atom: string): Entry
  {
    if atom in surveyData then surveyData[atom] else Entry(None, None)
  }

  function Get(e: Entry, side: Side): Option<int>
  {
    match side
    case SampleSide => e.sampleCount
    case PopulationSide => e.populationCount
  }

  /** One side of an entry after adding a count to it, absent read as zero. */
  function Bump(e: Entry, side: Side, count: int): Entry
  {
    match side
    case SampleSide => e.(sampleCount := Some(OrZero(e.sampleCount) + count))
    case PopulationSide => e.(populationCount := Some(OrZero(e.populationCount) + count))
  }

  /** The accumulate-or-create step for one atomic label. */
  function Add(surveyData: map<string, Entry>, atom: string, count: int, side: Side): map<string, Entry>
  {
    surveyData[atom := Bump(Lookup(surveyData, atom), side, count)]
  }

  /** One accumulate-or-create step gives `atom` a key, adds the count to
      its side with absent read as zero, and changes nothing else. */
  lemma AddAt(surveyData: map<string, Entry>, atom: string, count: int, side: Side)
    ensures Add(surveyData, atom, count, side).Keys == surveyData.Keys + {atom}
    ensures Get(Add(surveyData, atom, count, side)[atom], side) == Some(OrZero(Get(Lookup(surveyData, atom), side)) + count)
    ensures Get(Add(surveyData, atom, count, side)[atom], Other(side)) == Get(Lookup(surveyData, atom), Other(side))
    ensures forall k :: k in surveyData && k != atom ==> Add(surveyData, atom, count, side)[k] == surveyData[k]
  {
  }

  /** The accumulate-or-create step over the pieces of one row, in order. */
  function PiecesFold(surveyData: map<string, Entry>, pieces: seq<string>, count: int, side: Side): map<string, Entry>
  {
    if pieces == [] then surveyData
    else Add(PiecesFold(surveyData, pieces[..|pieces| - 1], count, side), pieces[|pieces| - 1], count, side)
  }

  /** One whole pass: every row, in order, split and folded in. */
  function RowsFold(surveyData: map<string, Entry>, rows: seq<Row>, side: Side): map<string, Entry>
  {
    if rows == [] then surveyData
    else
      var last := rows[|rows| - 1];
      PiecesFold(RowsFold(surveyData, rows[..|rows| - 1], side), Split(last.answer), last.count, side)
  }

  /** Folding in a row's pieces adds exactly those pieces as keys, adds the
      count per occurrence to their side, and touches nothing else. */
  lemma {:induction false} PiecesFoldAt(surveyData: map<string, Entry>, pieces: seq<string>, count: int, side: Side, a: string)
    ensures a in PiecesFold(surveyData, pieces, count, side) <==> a in surveyData || a in pieces
    ensures Get(Lookup(PiecesFold(surveyData, pieces, count, side), a), side)
      == (if a in pieces then Some(OrZero(Get(Lookup(surveyData, a), side)) + Share(count, pieces, a))
          else Get(Lookup(surveyData, a), side))
    ensures Get(Lookup(PiecesFold(surveyData, pieces, count, side), a), Other(side))
      == Get(Lookup(surveyData, a), Other(side))
  {
    if pieces != [] {
      var init, x := pieces[..|pieces| - 1], pieces[|pieces| - 1];
      PiecesFoldAt(surveyData, init, count, side, a);
      assert pieces == init + [x];
      if a == x && x !in init {
        ShareAbsent(count, init, a);
      }
    }
  }

  /** A whole pass adds every atomic label of its rows as a key, adds each
      label's weighted count to its side, and leaves the other side alone. */
  lemma {:induction false} RowsFoldAt(surveyData: map<string, Entry>, rows: seq<Row>, side: Side, a: string)
    ensures a in RowsFold(surveyData, rows, side) <==> a in surveyData || a in Atoms(rows)
    ensures Get(Lookup(RowsFold(surveyData, rows, side), a), side)
      == (if a in Atoms(rows) then Some(OrZero(Get(Lookup(surveyData, a), side)) + Weight(rows, a))
          else Get(Lookup(surveyData, a), side))
    ensures Get(Lookup(RowsFold(surveyData, rows, side), a), Other(side))
      == Get(Lookup(surveyData, a), Other(side))
  {
    if rows != [] {
      var init, last := rows[..|rows| - 1], rows[|rows| - 1];
      var pieces := Split(last.answer);
      var before := RowsFold(surveyData, init, side);
      RowsFoldAt(surveyData, init, side, a);
      PiecesFoldAt(before, pieces, last.count, side, a);
      assert RowsFold(surveyData, rows, side) == PiecesFold(before, pieces, last.count, side);
      assert a in Atoms(rows) <==> a in Atoms(init) || a in pieces;
      if a !in Atoms(init) {
        WeightOutside(init, a);
      }
      if a !in pieces {
        ShareAbsent(last.count, pieces, a);
      }
    }
  }

  /** The sample pass followed by the population pass, started from an empty
      object, is the merged histogram. */
  lemma FoldIsMerge(sample: seq<Row>, population: seq<Row>)
    ensures RowsFold(RowsFold(map[], sample, SampleSide), population, PopulationSide) == Merge(sample, population)
  {
    var afterSample := RowsFold(map[], sample, SampleSide);
    var r := RowsFold(afterSample, population, PopulationSide);
    var m := Merge(sample, population);
    forall a
      ensures a in r <==> a in m
      ensures a in r ==> r[a] == m[a]
    {
      RowsFoldAt(map[], sample, SampleSide, a);
      RowsFoldAt(afterSample, population, PopulationSide, a);
    }
  }

  /** Adding a key that has no entry yet keeps the enumeration valid. */
  lemma AddKey(keys: seq<string>, entries: map<string, Entry>, atom: string, e: Entry)
    requires Valid(Histogram(keys, entries)) && atom !in entries
    ensures Valid(Histogram(keys + [atom], entries[atom := e]))
  {
  }

  /** Lines 204-211: a falsy `populationCount` (absent, or zero) is defined
      as the row's count, a truthy one is incremented. Either way the new
      count is the old one read as zero plus the row's count. */
  function AddPopulation(populationCount: Option<int>, count: int): (r: Option<int>)
    ensures r == Some(OrZero(populationCount) + count)
  {
    if populationCount.Some? && populationCount.value != 0 then Some(populationCount.value + count)
    else Some(count)
  }

  /** A multiple-choice row counts in full toward each choice it names (5
      and 5, not 2.5 each), and a label only the sample names gets a key
      with no population count. */
  lemma CompositeCountsInFull()
    ensures var m := Merge([Row("A;B", 5)], [Row("A", 7)]);
      && m.Keys == {"A", "B"}
      && m["A"] == Entry(Some(5), Some(7))
      && m["B"] == Entry(Some(5), None)
  {
    var sample, population := [Row("A;B", 5)], [Row("A", 7)];
    ExampleRows();
    assert Tally(sample, "A") == Some(5) && Tally(sample, "B") == Some(5);
    assert Tally(population, "A") == Some(7) && Tally(population, "B") == None;
  }

  lemma ExampleRows()
    ensures Atoms([Row("A;B", 5)]) == {"A", "B"} && Atoms([Row("A", 7)]) == {"A"}
    ensures Weight([Row("A;B", 5)], "A") == 5 && Weight([Row("A;B", 5)], "B") == 5
    ensures Weight([Row("A", 7)], "A") == 7
  {
    var sample, population := [Row("A;B", 5)], [Row("A", 7)];
    SplitExamples();
    SplitAtomic("A");
    assert sample[..0] == [] && population[..0] == [];
    assert Pieces(sample[0]) == {"A", "B"};
    assert ["A", "B"][..1] == ["A"];
    assert Share(5, ["A", "B"], "A") == 5;
    assert Share(5, ["A", "B"], "B") == 5;
    assert Share(7, ["A"], "A") == 7;
  }
}

module HistogramBuilder {
  import opened Wrappers
  import opened Labels
  import opened Rows
  import opened Histogram

  /** The sample pass's callback for one atomic label (lines 167-183): the
      label joins the set; an existing entry has its sample count increased,
      a missing one is created holding only a sample count. A new key goes to
      the end of the enumeration. */
  method TallySampleLabel(keys: seq<string>, surveyData: map<string, Entry>, labelSet: set<string>, atom: string, count: int)
    returns (keys': seq<string>, surveyData': map<string, Entry>, labelSet': set<string>)
    requires Valid(Histogram(keys, surveyData)) && labelSet == surveyData.Keys
    requires forall a :: a in surveyData ==> surveyData[a].sampleCount.Some?
    ensures Valid(Histogram(keys', surveyData')) && labelSet' == surveyData'.Keys
    ensures surveyData' == Add(surveyData, atom, count, SampleSide)
    ensures forall a :: a in surveyData' ==> surveyData'[a].sampleCount.Some?
    ensures keys' == if atom in surveyData then keys else keys + [atom]
  {
    labelSet' := labelSet + {atom};
    if atom in surveyData {
      var entry := surveyData[atom];
      var updated := entry.(sampleCount := Some(entry.sampleCount.value + count));
      keys', surveyData' := keys, surveyData[atom := updated];
    } else {
      AddKey(keys, surveyData, atom, Entry(Some(count), None));
      keys', surveyData' := keys + [atom], surveyData[atom := Entry(Some(count), None)];
    }
  }

  /** The population pass's callback for one atomic label (lines 192-218):
      the label joins the set; an existing entry has its population count
      increased when truthy and defined as the row's count otherwise, and a
      missing one is created holding only a population count. */
  method TallyPopulationLabel(keys: seq<string>, surveyData: map<string, Entry>, labelSet: set<string>, atom: string, count: int)
    returns (keys': seq<string>, surveyData': map<string, Entry>, labelSet': set<string>)
    requires Valid(Histogram(keys, surveyData)) && labelSet == surveyData.Keys
    ensures Valid(Histogram(keys', surveyData')) && labelSet' == surveyData'.Keys
    ensures surveyData' == Add(surveyData, atom, count, PopulationSide)
    ensures keys' == if atom in surveyData then keys else keys + [atom]
  {
    labelSet' := labelSet + {atom};
    if atom in surveyData {
      var entry := surveyData[atom];
      var updated := entry.(populationCount := AddPopulation(entry.populationCount, count));
      keys', surveyData' := keys, surveyData[atom := updated];
    } else {
      AddKey(keys, surveyData, atom, Entry(None, Some(count)));
      keys', surveyData' := keys + [atom], surveyData[atom := Entry(None, Some(count))];
    }
  }

  /** The sample pass's callback for one row (lines 162-184): its label is
      split on the delimiter and each atomic label tallied in order. */
  method TallySampleRow(keys: seq<string>, surveyData: map<string, Entry>, labelSet: set<string>, row: Row)
    returns (keys': seq<string>, surveyData': map<string, Entry>, labelSet': set<string>)
    requires Valid(Histogram(keys, surveyData)) && labelSet == surveyData.Keys
    requires forall a :: a in surveyData ==> surveyData[a].sampleCount.Some?
    ensures Valid(Histogram(keys', surveyData')) && labelSet' == surveyData'.Keys
    ensures surveyData' == PiecesFold(surveyData, Split(row.answer), row.count, SampleSide)
    ensures forall a :: a in surveyData' ==> surveyData'[a].sampleCount.Some?
  {
    var labels := Split(row.answer);
    keys', surveyData', labelSet' := keys, surveyData, labelSet;
    for j := 0 to |labels|
      invariant Valid(Histogram(keys', surveyData')) && labelSet' == surveyData'.Keys
      invariant surveyData' == PiecesFold(surveyData, labels[..j], row.count, SampleSide)
      invariant forall a :: a in surveyData' ==> surveyData'[a].sampleCount.Some?
    {
      assert labels[..j + 1][..j] == labels[..j];
      keys', surveyData', labelSet' := TallySampleLabel(keys', surveyData', labelSet', labels[j], row.count);
    }
    assert labels[..|labels|] == labels;
  }

  /** The population pass's callback for one row (lines 187-219). */
  method TallyPopulationRow(keys: seq<string>, surveyData: map<string, Entry>, labelSet: set<string>, row: Row)
    returns (keys': seq<string>, surveyData': map<string, Entry>, labelSet': set<string>)
    requires Valid(Histogram(keys, surveyData)) && labelSet == surveyData.Keys
    ensures Valid(Histogram(keys', surveyData')) && labelSet' == surveyData'.Keys
    ensures surveyData' == PiecesFold(surveyData, Split(row.answer), row.count, PopulationSide)
  {
    var labels := Split(row.answer);
    keys', surveyData', labelSet' := keys, surveyData, labelSet;
    for j := 0 to |labels|
      invariant Valid(Histogram(keys', surveyData')) && labelSet' == surveyData'.Keys
      invariant surveyData' == PiecesFold(surveyData, labels[..j], row.count, PopulationSide)
    {
      assert labels[..j + 1][..j] == labels[..j];
      keys', surveyData', labelSet' := TallyPopulationLabel(keys', surveyData', labelSet', labels[j], row.count);
    }
    assert labels[..|labels|] == labels;
  }

  /** `buildHistogram`: the sample pass then the population pass, each
      splitting every row's label and, for each atomic label, accumulating
      into its entry or creating it. The result is the merged histogram, its
      key enumeration lists each key once, and the label set built alongside
      (never read by the source) always equals the key set. */
  method BuildHistogram(sampleData: seq<Row>, populationData: seq<Row>) returns (h: Histogram)
    ensures Valid(h)
    ensures h.entries == Merge(sampleData, populationData)
  {
    var keys: seq<string> := [];
    var surveyData: map<string, Entry> := map[];
    var labelSet: set<string> := {};

    // The sample group.
    for i := 0 to |sampleData|
      invariant Valid(Histogram(keys, surveyData)) && labelSet == surveyData.Keys
      invariant surveyData == RowsFold(map[], sampleData[..i], SampleSide)
      invariant forall a :: a in surveyData ==> surveyData[a].sampleCount.Some?
    {
      assert sampleData[..i + 1][..i] == sampleData[..i];
      keys, surveyData, labelSet := TallySampleRow(keys, surveyData, labelSet, sampleData[i]);
    }
    assert sampleData[..|sampleData|] == sampleData;

    // The population, which may name labels the sample group does not.
    ghost var afterSample := surveyData;
    for i := 0 to |populationData|
      invariant Valid(Histogram(keys, surveyData)) && labelSet == surveyData.Keys
      invariant surveyData == RowsFold(afterSample, populationData[..i], PopulationSide)
    {
      assert populationData[..i + 1][..i] == populationData[..i];
      keys, surveyData, labelSet := TallyPopulationRow(keys, surveyData, labelSet, populationData[i]);
    }
    assert populationData[..|populationData|] == populationData;
    FoldIsMerge(sampleData, populationData);
    h := Histogram(keys, surveyData);
  }
}
