/** Splitting a survey answer label into the atomic answers it names.
    A multiple-choice answer arrives as one label whose choices are joined by
    a semicolon; `label.split(';')` breaks it apart and keeps empty pieces,
    so `"A;"` gives `["A", ""]` and `""` gives `[""]`. No whitespace is
    trimmed around the delimiter. */
module Labels {

  const Delimiter: char := ';'

  /** A label that names a single answer. */
  predicate IsAtomic(s: string)
  {
    Delimiter !in s
  }

  predicate AllAtomic(pieces: seq<string>)
  {
    forall p :: p in pieces ==> IsAtomic(p)
  }

  /** Joins pieces with the delimiter; the inverse of Split. */
  function Join(pieces: seq<string>): string
    requires |pieces| >= 1
  {
    if |pieces| == 1 then pieces[0] else pieces[0] + [Delimiter] + Join(pieces[1..])
  }

  /** Prefixing a non-delimiter character to the first piece prefixes it
      to the join and keeps every piece atomic. */
  lemma {:induction false} PrependToFirst(c: char, pieces: seq<string>)
    requires |pieces| >= 1 && AllAtomic(pieces) && c != Delimiter
    ensures AllAtomic([[c] + pieces[0]] + pieces[1..])
    ensures Join([[c] + pieces[0]] + pieces[1..]) == [c] + Join(pieces)
  {
    var moved := [[c] + pieces[0]] + pieces[1..];
    assert moved[0] == [c] + pieces[0];
    assert pieces[0] in pieces;
    assert forall p :: p in moved ==> p == moved[0] || p in pieces;
    if |pieces| > 1 {
      assert moved[1..] == pieces[1..];
      var tail := Join(pieces[1..]);
      assert Join(moved) == moved[0] + [Delimiter] + tail;
      assert Join(pieces) == pieces[0] + [Delimiter] + tail;
    }
  }

  /** A leading delimiter starts a new, empty first piece. */
  lemma {:induction false} PrependEmpty(pieces: seq<string>)
    requires |pieces| >= 1 && AllAtomic(pieces)
    ensures AllAtomic([""] + pieces)
    ensures Join([""] + pieces) == [Delimiter] + Join(pieces)
  {
    assert ([""] + pieces)[1..] == pieces;
  }

  /** JavaScript's `s.split(';')`: one piece more than there are
      delimiters, and no piece holds a delimiter. */
  function Split(s: string): (pieces: seq<string>)
    ensures |pieces| == 1 + multiset(s)[Delimiter]
    ensures AllAtomic(pieces)
  {
    if s == [] then [""]
    else
      var rest := Split(s[1..]);
      assert s == [s[0]] + s[1..];
      if s[0] == Delimiter then
        PrependEmpty(rest);
        [""] + rest
      else
        PrependToFirst(s[0], rest);
        [[s[0]] + rest[0]] + rest[1..]
  }

  /** Joining the pieces of `s` with the delimiter gives `s` back. */
  lemma {:induction false} JoinSplit(s: string)
    ensures Join(Split(s)) == s
  {
    if s != [] {
      var rest := Split(s[1..]);
      JoinSplit(s[1..]);
      assert s == [s[0]] + s[1..];
      if s[0] == Delimiter {
        PrependEmpty(rest);
      } else {
        PrependToFirst(s[0], rest);
      }
    }
  }

  /** Index of the first delimiter in `s`, or `|s|` when there is none. */
  function FirstDelimiter(s: string): (k: nat)
    ensures k <= |s|
    ensures forall i :: 0 <= i < k ==> s[i] != Delimiter
    ensures k < |s| ==> s[k] == Delimiter
  {
    if s == [] || s[0] == Delimiter then 0 else 1 + FirstDelimiter(s[1..])
  }

  lemma {:induction false} FirstDelimiterAfterAtomic(p: string, t: string)
    requires IsAtomic(p)
    ensures FirstDelimiter(p + t) == |p| + FirstDelimiter(t)
    decreases |p|
  {
    if p != [] {
      assert p[0] in p;
      assert (p + t)[1..] == p[1..] + t;
      FirstDelimiterAfterAtomic(p[1..], t);
    } else {
      assert p + t == t;
    }
  }

  /** The first piece of a joined list runs up to the first delimiter,
      and there is a delimiter exactly when there is more than one piece. */
  lemma {:induction false} JoinShape(pieces: seq<string>)
    requires |pieces| >= 1 && AllAtomic(pieces)
    ensures FirstDelimiter(Join(pieces)) == |pieces[0]|
    ensures |pieces| == 1 <==> |Join(pieces)| == |pieces[0]|
    ensures Join(pieces)[..|pieces[0]|] == pieces[0]
    ensures |pieces| > 1 ==> Join(pieces)[|pieces[0]| + 1..] == Join(pieces[1..])
  {
    assert pieces[0] in pieces;
    if |pieces| == 1 {
      FirstDelimiterAfterAtomic(pieces[0], []);
      assert pieces[0] + [] == pieces[0];
    } else {
      var tail := [Delimiter] + Join(pieces[1..]);
      assert Join(pieces) == pieces[0] + tail;
      FirstDelimiterAfterAtomic(pieces[0], tail);
    }
  }

  /** Join never maps two different lists of atomic labels to the same string. */
  lemma {:induction false} JoinInjective(a: seq<string>, b: seq<string>)
    requires |a| >= 1 && |b| >= 1
    requires AllAtomic(a) && AllAtomic(b)
    requires Join(a) == Join(b)
    ensures a == b
    decreases |a|
  {
    JoinShape(a);
    JoinShape(b);
    if |a| > 1 {
      assert forall p :: p in a[1..] ==> p in a;
      assert forall p :: p in b[1..] ==> p in b;
      JoinInjective(a[1..], b[1..]);
      assert a == [a[0]] + a[1..];
      assert b == [b[0]] + b[1..];
    }
  }

  /** Splitting a joined list of atomic labels gives the list back. */
  lemma {:induction false} SplitJoin(pieces: seq<string>)
    requires |pieces| >= 1 && AllAtomic(pieces)
    ensures Split(Join(pieces)) == pieces
  {
    JoinSplit(Join(pieces));
    JoinInjective(Split(Join(pieces)), pieces);
  }

  /** A label without a delimiter is its own single piece. */
  lemma {:induction false} SplitAtomic(s: string)
    requires IsAtomic(s)
    ensures Split(s) == [s]
  {
    SplitJoin([s]);
  }

  /** A composite answer splits into its choices; a trailing delimiter and
      an empty label give empty pieces, which are kept. */
  lemma SplitExamples()
    ensures Split("A;B") == ["A", "B"]
    ensures Split("A;") == ["A", ""]
    ensures Split("") == [""]
  {
    assert Join(["A", "B"]) == "A;B";
    SplitJoin(["A", "B"]);
    assert Join(["A", ""]) == "A;";
    SplitJoin(["A", ""]);
  }
}
