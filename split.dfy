/** The two ways of splitting the experiment's table into groups. */
module GroupSplit {
  import opened Frames

  const ControlGroup := 0
  const BasicArm := 1
  const SimpleChoiceArm := 2

  /** Control, basic and simple-choice frames: the rows whose group value is
      0, 1 and 2 respectively, each in input order. Rows with any other group
      value are in none of them. */
  function SplitGroups(df: Frame): (r: (Frame, Frame, Frame))
    ensures forall x :: multiset(r.0)[x] == if x.treatmentReal == ControlGroup then multiset(df)[x] else 0
    ensures forall x :: multiset(r.1)[x] == if x.treatmentReal == BasicArm then multiset(df)[x] else 0
    ensures forall x :: multiset(r.2)[x] == if x.treatmentReal == SimpleChoiceArm then multiset(df)[x] else 0
  {
    (Select(df, {ControlGroup}), Select(df, {BasicArm}), Select(df, {SimpleChoiceArm}))
  }

  /** Control and treatment frames: the treatment frame merges both arms,
      keeping the rows of group 1 or 2 in input order. */
  function SplitOnly2Groups(df: Frame): (r: (Frame, Frame))
    ensures r.0 == SplitGroups(df).0
    ensures forall x :: multiset(r.1)[x]
              == if x.treatmentReal in {BasicArm, SimpleChoiceArm} then multiset(df)[x] else 0
  {
    (Select(df, {ControlGroup}), Select(df, {BasicArm, SimpleChoiceArm}))
  }

  /** The three frames are pairwise disjoint, and together they hold exactly
      the rows whose group value is 0, 1 or 2; the remaining rows are the
      ones with any other group value. */
  lemma SplitGroupsPartition(df: Frame)
    ensures multiset(SplitGroups(df).0) !! multiset(SplitGroups(df).1)
    ensures multiset(SplitGroups(df).0) !! multiset(SplitGroups(df).2)
    ensures multiset(SplitGroups(df).1) !! multiset(SplitGroups(df).2)
    ensures multiset(SplitGroups(df).0) + multiset(SplitGroups(df).1) + multiset(SplitGroups(df).2)
            == multiset(Select(df, {ControlGroup, BasicArm, SimpleChoiceArm}))
    ensures |SplitGroups(df).0| + |SplitGroups(df).1| + |SplitGroups(df).2|
            + |Select(df, GroupValues(df) - {ControlGroup, BasicArm, SimpleChoiceArm})| == |df|
  {
    SelectUnion(df, {ControlGroup}, {BasicArm});
    assert {ControlGroup} + {BasicArm} == {ControlGroup, BasicArm};
    SelectUnion(df, {ControlGroup, BasicArm}, {SimpleChoiceArm});
    assert {ControlGroup, BasicArm} + {SimpleChoiceArm} == {ControlGroup, BasicArm, SimpleChoiceArm};
    var others := GroupValues(df) - {ControlGroup, BasicArm, SimpleChoiceArm};
    SelectUnion(df, {ControlGroup, BasicArm, SimpleChoiceArm}, others);
    SelectEverything(df, {ControlGroup, BasicArm, SimpleChoiceArm} + others);
  }

  /** The group values that occur in a frame. */
  function GroupValues(df: Frame): set<int>
  {
    set i | 0 <= i < |df| :: df[i].treatmentReal
  }

  /** Selecting by a set that contains every group value of the frame keeps
      the frame. */
  lemma {:induction false} SelectEverything(df: Frame, groups: set<int>)
    requires forall i :: 0 <= i < |df| ==> df[i].treatmentReal in groups
    ensures Select(df, groups) == df
  {
    if df != [] {
      SelectEverything(df[1..], groups);
      assert df == [df[0]] + df[1..];
    }
  }

  /** The treatment frame of `SplitOnly2Groups` is, as a multiset, the union
      of the basic and simple-choice frames of `SplitGroups`, and its length
      is the sum of theirs. */
  lemma SplitOnly2GroupsMergesArms(df: Frame)
    ensures multiset(SplitOnly2Groups(df).1)
            == multiset(SplitGroups(df).1) + multiset(SplitGroups(df).2)
    ensures |SplitOnly2Groups(df).1| == |SplitGroups(df).1| + |SplitGroups(df).2|
  {
  }
}
