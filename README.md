# Bayesian A/B test preparation, modelled in Dafny

This project models the counting and partitioning core of `scripts/perform_ab.py`,
which prepares an A/B experiment for Bayesian analysis:

- **Group splitting.** A table is a sequence of records, each with a group-assignment
  value (`treatment_real`: 0 control, 1 basic arm, 2 simple-choice arm) and named
  integer outcome columns. `split_groups` and `split_only2_groups` are order-preserving
  boolean-mask selections (`Frames.Select`). The model proves that each selection holds
  exactly the records of its groups with their multiplicity, that selection commutes with
  concatenation, that the three frames partition the records of groups 0, 1 and 2, and
  that the merged treatment frame is the union of the two arms.
- **Per-group arithmetic of `perform_ab_test`.** Successes are the sum of the outcome
  column, failures the group size minus the successes, rates are successes / size (as
  `real`), the relative change is 0 when either rate is 0 and treatment / control − 1
  otherwise, and each group's Beta shape is (successes + 1, failures). The Python errors
  become a `Result`: a missing column is a key error (`MissingColumn`), and an empty
  frame makes the rate a division by zero (`DivisionByZero`), checked in the source's
  order (control column, treatment column, control rate, treatment rate).
- **Posterior assembly.** The two groups' Beta draws are inputs of 100000 reals each. The
  posterior is their element-wise difference (treatment − control), copied into an array
  and sorted in place by insertion sort. The model proves that it is sorted, a permutation
  of the differences, as long as the draws, and uniquely determined by them. The runner
  returns it together with the control group's number of successes.

Files: `frames.dfy` (records, frames, selection, column lookup), `split.dfy` (the two
splitters), `counting.dfy` (counts, rates, relative change, Beta shapes), `posterior.dfy`
(differences, in-place sort, assembly), `abtest.dfy` (the runner).

The counting and rate steps accept any outcome value: they sum the column whatever it
holds (the bounds are proved under a `Binary` hypothesis). The Beta sampling that follows
rejects the non-positive shape parameters such values can produce. Records whose group value is outside
{0, 1, 2} are silently dropped by both splitters.

Two functions are plain definitions used by the contracts: `Frames.Column` is pandas
column selection (`control_df[column_of_interest]`) and `Posterior.Differences` is numpy's
element-wise subtraction (`beta_t - beta_c`).

## Model

| member | source | states |
|---|---|---|
| Frames.Select | scripts/perform_ab.py:26-28 | a mask selection keeps only records of the chosen groups, never grows the frame, and holds each chosen record exactly as many times as the input does and every other record zero times |
| Frames.SelectAppend | scripts/perform_ab.py:26-28 | selection preserves input order: selecting from a concatenation is the concatenation of the selections |
| Frames.SelectUnion | scripts/perform_ab.py:41 | selecting by two disjoint group sets at once gives, as a multiset and in length, the sum of the two selections |
| GroupSplit.SplitGroups | scripts/perform_ab.py:18-29 | the control, basic and simple-choice frames hold exactly the records of group 0, 1 and 2 respectively, with their input multiplicity |
| GroupSplit.SplitOnly2Groups | scripts/perform_ab.py:32-42 | the control frame equals the one of SplitGroups; the treatment frame holds exactly the records of group 1 or 2 with their input multiplicity |
| GroupSplit.SplitGroupsPartition | scripts/perform_ab.py:26-29 | the three frames are pairwise disjoint, together equal the records of groups {0,1,2}, and with the records of other groups account for the whole input |
| GroupSplit.SplitOnly2GroupsMergesArms | scripts/perform_ab.py:27-41 | the merged treatment frame equals, as a multiset, the union of the basic and simple-choice frames, and its length is the sum of theirs |
| Counting.SumOfBinary | scripts/perform_ab.py:66 | the sum of a binary column is its number of ones, size minus sum is its number of zeros, and the sum lies in [0, size] |
| Counting.Count | scripts/perform_ab.py:66-74 | successes + failures = group size; for a binary column 0 <= successes <= size, failures >= 0, and they count the ones and zeros |
| Counting.RateBounds | scripts/perform_ab.py:84-87 | for a non-empty binary column the rate lies in [0, 1], is 0 iff there are no successes and 1 iff there are no failures |
| Counting.PercentChange | scripts/perform_ab.py:96-99 | the change is 0 when either rate is 0; for any two nonzero rates control × (1 + change) = treatment; for positive rates change > −1 and its sign is the sign of treatment − control |
| Counting.PosteriorShapeDegenerate | scripts/perform_ab.py:116-118 | for a binary column the Beta shape (successes + 1, failures) has first parameter >= 1, parameters summing to size + 1, and second parameter 0 iff every record succeeded |
| Posterior.SortInPlace | scripts/perform_ab.py:121 | the array is sorted ascending in place and its contents are a permutation of the old contents |
| Posterior.AssemblePosterior | scripts/perform_ab.py:114-121 | the posterior has the draws' length, is non-decreasing, and is a permutation of the element-wise differences treatment − control |
| Posterior.SortedUnique | scripts/perform_ab.py:111-121 | two sorted sequences with the same elements are equal, so the posterior is determined by the (seeded) draws |
| AbTest.Summarize | scripts/perform_ab.py:46-99 | succeeds iff both frames have the column and are non-empty; fails with the key error or division by zero in the source's order; on success the counts are `Count` of each frame's column, the rates satisfy rate × size = successes, the participant count is the sum of the sizes, the change is `PercentChange` of the two rates and the shapes are `PosteriorShape` of the counts |
| AbTest.SummaryBounds | scripts/perform_ab.py:66-99 | with binary columns both rates lie in [0, 1], counts lie within the group sizes, the change is 0 when either group has no successes, and both Beta shapes have first parameter >= 1 |
| AbTest.PerformAbTest | scripts/perform_ab.py:46-124 | fails exactly when Summarize fails, with the same error; otherwise returns a sorted permutation of the draw differences of length 100000 and the control group's success count |

## Left out

- Random Beta sampling (`np.random.RandomState(1234)` and `random.beta`): a foreign numeric library call; the draws are inputs of the runner, and the shape parameters are only recorded in the summary. The library's rejection of any non-positive shape parameter is not modelled (the second is 0 when all records succeeded; either can be negative with non-binary outcome values): the runner accepts whatever draws it is given and returns a result where the source raises.
- `ab_test.degree_of_certainty`: its module is not part of this model; the certainty score is not computed.
- The `print` report and its `round(..., 5) * 100` and `round(..., 3)` formatting: I/O and floating-point rounding. The sizes, success counts, rates and change it prints are fields of `AbTest.Summary`.
- Floating point: rates and the relative change are exact `real`s, so rounding of `float` division is not modelled.
- `plot_abtest`: matplotlib drawing on global figure state with floating-point binning.
- `scripts/plotting_functions.py`: bar-label annotation on the current matplotlib axis, presentation only.
- pandas internals: a frame is a plain sequence of records without index labels or a column set of its own. A column counts as present when every record has it, so an empty frame lacking the column is reported as a division by zero rather than as a key error.
- AbTest.PerformAbTest: requires both draw sequences to have exactly 100000 elements, the fixed sample size the source draws. It also succeeds on summaries whose Beta shapes are not positive, where the source's sampling call raises.
