/** Count rows as the dataset API returns them, and the group size that
    `getGroupSize` computes from them. */
module Rows {
  import opened Labels

  /** One `{label, count}` row of a facet result (`label` is a keyword in
      Dafny, so the field is called `answer`). The answer may be a
      composite of several answers; counts are JavaScript numbers, so
      nothing here assumes they are non-negative. */
  datatype Row = Row(answer: string, count: int)

  /** Sum of `count` over the rows as given, without splitting labels. */
  function Total(rows: seq<Row>): int
  {
    if rows == [] then 0 else Total(rows[..|rows| - 1]) + rows[|rows| - 1].count
  }

  /** `getGroupSize`: accumulates every row's count once. */
  method GetGroupSize(data: seq<Row>) returns (accumulator: int)
    ensures accumulator == Total(data)
  {
    accumulator := 0;
    for i := 0 to |data|
      invariant accumulator == Total(data[..i])
    {
      assert data[..i + 1][..i] == data[..i];
      accumulator := accumulator + data[i].count;
    }
    assert data[..|data|] == data;
  }

  /** What the rows add up to once every row counts toward each atomic label
      its label names: a row contributes its count once per piece. */
  function SplitTotal(rows: seq<Row>): int
  {
    if rows == [] then 0
    else
      var last := rows[|rows| - 1];
      SplitTotal(rows[..|rows| - 1]) + last.count * |Split(last.answer)|
  }

  predicate NonNegative(rows: seq<Row>)
  {
    forall i :: 0 <= i < |rows| ==> rows[i].count >= 0
  }

  /** No row is a multiple-choice composite. */
  predicate NoComposite(rows: seq<Row>)
  {
    forall i :: 0 <= i < |rows| ==> IsAtomic(rows[i].answer)
  }

  lemma ScaledAtLeast(c: int, n: int)
    requires c >= 0 && n >= 1
    ensures c * n >= c
  {
    assert c * n == c + c * (n - 1);
  }

  /** Counting composite rows once per answer can only add to the group size. */
  lemma {:induction false} SplitTotalBound(rows: seq<Row>)
    requires NonNegative(rows)
    ensures SplitTotal(rows) >= Total(rows)
  {
    if rows != [] {
      var init, last := rows[..|rows| - 1], rows[|rows| - 1];
      assert NonNegative(init);
      SplitTotalBound(init);
      ScaledAtLeast(last.count, |Split(last.answer)|);
    }
  }

  /** Without composite labels, counting per answer is counting per row. */
  lemma {:induction false} SplitTotalPlain(rows: seq<Row>)
    requires NoComposite(rows)
    ensures SplitTotal(rows) == Total(rows)
  {
    if rows != [] {
      var init, last := rows[..|rows| - 1], rows[|rows| - 1];
      assert NoComposite(init);
      SplitTotalPlain(init);
      SplitAtomic(last.answer);
    }
  }

  /** A composite row counts once toward the group size. */
  lemma GroupSizeExample()
    ensures Total([Row("A;B", 5), Row("C", 3)]) == 8
  {
    var rows := [Row("A;B", 5), Row("C", 3)];
    assert rows[..1] == [Row("A;B", 5)];
    assert rows[..1][..0] == [];
  }
}
