/** `getSelectedClause`: the query-string filter built from the dropdown
    selections, one `&<name>__exact=<value>` fragment per demographic whose
    selection is not empty, in the order the demographics are declared. */
module Query {
  /** A demographic and what its dropdown currently has selected (`''` when
      nothing is). The page declares Sexuality, Trans, Ethnicity, Gender and
      Dependents, in that order. */
  datatype Demographic = Demographic(name: string, selected: string)

  /** One clause part; `encode` stands for `encodeURIComponent`. */
  function Fragment(d: Demographic, encode: string -> string): (part: string)
    ensures |part| > |d.name| + 7 && part[0] == '&'
    ensures part[1..|d.name| + 1] == d.name && part[|d.name| + 1..|d.name| + 8] == "__exact"
    ensures part[|d.name| + 8..] == "=" + encode(d.selected)
  {
    "&" + d.name + "__exact=" + encode(d.selected)
  }

  /** The clause parts pushed for `ds`, in order, skipping empty selections. */
  function Parts(ds: seq<Demographic>, encode: string -> string): seq<string>
  {
    if ds == [] then []
    else
      var last := ds[|ds| - 1];
      Parts(ds[..|ds| - 1], encode) + (if last.selected == "" then [] else [Fragment(last, encode)])
  }

  /** `parts.join('')`. */
  function Concat(parts: seq<string>): string
  {
    if parts == [] then "" else Concat(parts[..|parts| - 1]) + parts[|parts| - 1]
  }

  function Clause(ds: seq<Demographic>, encode: string -> string): string
  {
    Concat(Parts(ds, encode))
  }

  /** `getSelectedClause`: pushes one part per non-empty selection and joins
      them with the empty separator. */
  method GetSelectedClause(demographics: seq<Demographic>, encode: string -> string) returns (clause: string)
    ensures clause == Clause(demographics, encode)
  {
    var clauseParts: seq<string> := [];
    for i := 0 to |demographics|
      invariant clauseParts == Parts(demographics[..i], encode)
    {
      assert demographics[..i + 1][..i] == demographics[..i];
      var demographic := demographics[i];
      var selectorValue := demographic.selected;
      if selectorValue == "" {
        continue;
      }
      var value := encode(selectorValue);
      var part := "&" + demographic.name + "__exact=" + value;
      clauseParts := clauseParts + [part];
    }
    assert demographics[..|demographics|] == demographics;
    clause := Concat(clauseParts);
  }

  lemma {:induction false} ConcatAppend(p: seq<string>, q: seq<string>)
    ensures Concat(p + q) == Concat(p) + Concat(q)
  {
    if q == [] {
      assert p + q == p;
    } else {
      ConcatAppend(p, q[..|q| - 1]);
      assert (p + q)[..|p + q| - 1] == p + q[..|q| - 1];
    }
  }

  lemma {:induction false} PartsAppend(a: seq<Demographic>, b: seq<Demographic>, encode: string -> string)
    ensures Parts(a + b, encode) == Parts(a, encode) + Parts(b, encode)
  {
    if b == [] {
      assert a + b == a;
    } else {
      var init, last := b[..|b| - 1], b[|b| - 1];
      var tail := if last.selected == "" then [] else [Fragment(last, encode)];
      PartsAppend(a, init, encode);
      assert (a + b)[..|a + b| - 1] == a + init && (a + b)[|a + b| - 1] == last;
      assert Parts(a + b, encode) == Parts(a + init, encode) + tail;
      assert Parts(b, encode) == Parts(init, encode) + tail;
    }
  }

  /** The clause of a concatenation is the concatenation of the clauses:
      the fragments appear in the demographics' order. */
  lemma ClauseAppend(a: seq<Demographic>, b: seq<Demographic>, encode: string -> string)
    ensures Clause(a + b, encode) == Clause(a, encode) + Clause(b, encode)
  {
    PartsAppend(a, b, encode);
    ConcatAppend(Parts(a, encode), Parts(b, encode));
  }

  /** One demographic on its own: its fragment, or nothing when its
      selection is empty. */
  lemma ClauseSingle(d: Demographic, encode: string -> string)
    ensures Clause([d], encode) == if d.selected == "" then "" else Fragment(d, encode)
  {
    assert [d][..0] == [];
    assert Parts([d], encode) == if d.selected == "" then [] else [Fragment(d, encode)];
    assert Concat([Fragment(d, encode)]) == Concat([]) + Fragment(d, encode);
  }

  /** A demographic with nothing selected contributes nothing: dropping it
      leaves the clause unchanged. */
  lemma EmptySelectionSkipped(ds: seq<Demographic>, i: nat, encode: string -> string)
    requires i < |ds| && ds[i].selected == ""
    ensures Clause(ds, encode) == Clause(ds[..i] + ds[i + 1..], encode)
  {
    assert ds == ds[..i] + [ds[i]] + ds[i + 1..];
    ClauseAppend(ds[..i] + [ds[i]], ds[i + 1..], encode);
    ClauseAppend(ds[..i], [ds[i]], encode);
    ClauseAppend(ds[..i], ds[i + 1..], encode);
    assert Parts([ds[i]], encode) == [];
  }

  lemma {:induction false} ConcatEmpty(parts: seq<string>)
    requires forall k :: 0 <= k < |parts| ==> parts[k] != ""
    ensures Concat(parts) == "" <==> parts == []
  {
    if parts != [] {
      ConcatEmpty(parts[..|parts| - 1]);
    }
  }

  lemma {:induction false} PartsEmpty(ds: seq<Demographic>, encode: string -> string)
    ensures forall k :: 0 <= k < |Parts(ds, encode)| ==> Parts(ds, encode)[k] != ""
    ensures Parts(ds, encode) == [] <==> forall i :: 0 <= i < |ds| ==> ds[i].selected == ""
  {
    if ds != [] {
      var init, last := ds[..|ds| - 1], ds[|ds| - 1];
      PartsEmpty(init, encode);
      if last.selected == "" {
        assert forall i :: 0 <= i < |init| ==> init[i] == ds[i];
      }
      assert Fragment(last, encode)[0] == '&';
    }
  }

  /** The clause is empty exactly when every selection is empty. */
  lemma ClauseEmptyIff(ds: seq<Demographic>, encode: string -> string)
    ensures Clause(ds, encode) == "" <==> forall i :: 0 <= i < |ds| ==> ds[i].selected == ""
  {
    PartsEmpty(ds, encode);
    ConcatEmpty(Parts(ds, encode));
  }

  /** Of three dropdowns with the middle one empty, only the other two
      appear, in declaration order. */
  lemma ClauseExample(first: Demographic, middle: Demographic, last: Demographic, encode: string -> string)
    requires first.selected != "" && middle.selected == "" && last.selected != ""
    ensures Clause([first] + [middle] + [last], encode) == Fragment(first, encode) + Fragment(last, encode)
  {
    ClauseSingle(first, encode);
    ClauseSingle(middle, encode);
    ClauseSingle(last, encode);
    ClauseAppend([first], [middle], encode);
    ClauseAppend([first] + [middle], [last], encode);
  }
}
