/** Records and frames: the table an A/B test is run on, modelled as an
    ordered sequence of records. */
module Frames {

  /** One row of the table. `treatmentReal` is the group-assignment column
      (0 = control, 1 = basic arm, 2 = simple-choice arm); `fields` holds the
      outcome columns by name. */
  datatype Record = Record(treatmentReal: int, fields: map<string, int>)

  /** A frame is the rows of a table, in their original order. */
  type Frame = seq<Record>

  /** Boolean-mask selection: the rows whose group value is in `groups`, in
      input order. Every selected row is kept as many times as the input holds
      it, and every other row is dropped. */
  function Select(df: Frame, groups: set<int>): (r: Frame)
    ensures |r| <= |df|
    ensures forall i :: 0 <= i < |r| ==> r[i].treatmentReal in groups
    ensures forall x :: multiset(r)[x] == if x.treatmentReal in groups then multiset(df)[x] else 0
  {
    if df == [] then []
    else
      assert df == [df[0]] + df[1..];
      if df[0].treatmentReal in groups then [df[0]] + Select(df[1..], groups)
      else Select(df[1..], groups)
  }

  /** Selection preserves order: selecting from a concatenation is the
      concatenation of the selections. */
  lemma {:induction false} SelectAppend(a: Frame, b: Frame, groups: set<int>)
    ensures Select(a + b, groups) == Select(a, groups) + Select(b, groups)
  {
    if a == [] {
      assert a + b == b;
    } else {
      var ab := a + b;
      assert ab[0] == a[0] && ab[1..] == a[1..] + b;
      SelectAppend(a[1..], b, groups);
      if a[0].treatmentReal in groups {
        calc {
          Select(ab, groups);
          [a[0]] + Select(a[1..] + b, groups);
          [a[0]] + (Select(a[1..], groups) + Select(b, groups));
          ([a[0]] + Select(a[1..], groups)) + Select(b, groups);
        }
      }
    }
  }

  /** Selecting by a union of disjoint group sets gives, as a multiset, the
      union of the two selections. */
  lemma {:induction false} SelectUnion(df: Frame, g1: set<int>, g2: set<int>)
    requires g1 !! g2
    ensures multiset(Select(df, g1 + g2)) == multiset(Select(df, g1)) + multiset(Select(df, g2))
    ensures |Select(df, g1 + g2)| == |Select(df, g1)| + |Select(df, g2)|
  {
  }

  /** Every row of the frame carries an outcome column named `column`. */
  predicate HasColumn(df: Frame, column: string)
  {
    forall i :: 0 <= i < |df| ==> column in df[i].fields
  }

  /** The values of one outcome column, row by row. */
  function Column(df: Frame, column: string): (col: seq<int>)
    requires HasColumn(df, column)
    ensures |col| == |df|
    ensures forall i :: 0 <= i < |df| ==> col[i] == df[i].fields[column]
  {
    seq(|df|, i requires 0 <= i < |df| => df[i].fields[column])
  }
}
