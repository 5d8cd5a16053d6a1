# BART statistics stage, modelled in Dafny

This project models the ranking and aggregation stage of BART, in
`BART/StatTest.py`. The stage takes a map from sample keys to AUC values. It
groups the values by transcription factor (TF): the factor is the part of
the key before the first underscore. Every value also goes into one
background list. For each factor the stage stores:

- the rank-sum statistic of its group against the background;
- the one-sided p-value;
- the z-score of the statistic against a baseline `(mean, std)`;
- the largest AUC of its group.

Four rank passes then sort the factors by statistic, z-score, p-value and
maximal AUC. Each pass hands out the ranks 1, 2, 3, … in sorted order.
These ranks are combined into `rank_avg_z_p` and `rank_avg_z_p_a`. The
Irwin–Hall distribution function with three summands turns
`3 * rank_avg_z_p_a` into a significance value. Finally, the report lists the
factors in ascending order of `rank_avg_z_p_a`.

All arithmetic uses Dafny's exact `real`. There are four modules, one file each:

- `combinatorics.dfy` (`Combinatorics`) holds the factorial loop, the
  binomial coefficient and the Irwin–Hall summation loop. Beside them are
  proofs of F(0) = 0 and F(x) = xⁿ/n! on [0, 1). For n = 3, the only case
  the stage uses, it also proves the piecewise-cubic closed form, F(3) = 1,
  that F is strictly increasing on [0, 3], and that F stays within [0, 1] there.
- `grouping.dfy` (`Grouping`) holds the key-prefix function and the
  grouping loop, plus lemmas on the groups and the background list.
- `ranking.dfy` (`Ranking`) models Python's stable `sorted` on table
  positions. It shows that the result is a permutation in the stable order
  and that it is unique. It also shows that ranks handed out along it form
  a ranking: each of 1..N is used once, and rank order is key order with
  ties kept in index order.
- `stattest.dfy` (`StatTest`) holds the statistics table as a sequence of
  rows with one fixed schema. Each loop of the stage is one method that
  returns the table with its cells filled. `Run` chains them in the
  source's order.

Inputs the stage reads from outside are parameters:

- `keys` is the iteration order of the AUC map.
- `index` is the table index. It is built at line 131 from a dictionary,
  whose iteration order is not fixed in Python 2, so it is given.
- `ranksums` is the scipy test.
- `baseline` is the normalisation table.

## Model

| member | source | states |
|---|---|---|
| `Combinatorics.Fact` | BART/StatTest.py:29-34 | The product n·(n−1)·…·2 is at least 1; it is 1 for every n ≤ 1 |
| `Combinatorics.Factorial` | BART/StatTest.py:29-34 | The count-down loop returns exactly n·(n−1)·…·2, or 1 when n ≤ 1, and the result is ≥ 1 |
| `Combinatorics.IrwinHallCdf` | BART/StatTest.py:42-49 | The loop over k = 0..⌊x⌋ returns (1/n!)·Σ(−1)^k·C(n,k)·(x−k)^n; an empty loop (x < 0) gives 0 |
| `Combinatorics.IrwinHallBelowOne` | BART/StatTest.py:42-49 | For 0 ≤ x < 1 only k = 0 contributes, so the value is xⁿ/n! |
| `Combinatorics.IrwinHallAtZero` | BART/StatTest.py:42-49 | F(0) = 0 for every n ≥ 1 |
| `Combinatorics.IrwinHallBelowZero` | BART/StatTest.py:42-49 | F(x) = 0 for x < 0, where the loop does not run |
| `Combinatorics.IrwinHallThreeAtThree` | BART/StatTest.py:42-49 | With three summands, F(3) = 1 |
| `Combinatorics.IrwinHallThreeClosedForm` | BART/StatTest.py:42-49 | With three summands, the loop's sum on [0, 3] equals the piecewise cubic x³/6, (−2u³+3u²+3u+1)/6, ((x−3)³+6)/6 |
| `Combinatorics.IrwinHallThreeStrict` | BART/StatTest.py:42-49 | With three summands, F is strictly increasing on [0, 3]: x < y gives F(x) < F(y) |
| `Combinatorics.IrwinHallThreeMonotone` | BART/StatTest.py:42-49 | With three summands, F never decreases on [0, 3] |
| `Combinatorics.IrwinHallThreeBounds` | BART/StatTest.py:42-49 | With three summands, F is a probability on [0, 3] |
| `Grouping.FactorOf` | BART/StatTest.py:122 | The factor name is a prefix of the key with no `_`, followed by `_` or the end of the key |
| `Grouping.FactorOfUnique` | BART/StatTest.py:122 | Exactly one prefix has those properties, so they fully specify `split('_')[0]` |
| `Grouping.Group` | BART/StatTest.py:119-128 | `sam1` holds the AUC of every key, in key order. The groups are keyed by exactly the factor names that occur. Each group is the AUCs of that factor's keys, in key order |
| `Grouping.AddTo` | BART/StatTest.py:125-128 | The factor's list is created with the value when the factor is new, or extended by it otherwise; every other list is unchanged |
| `Grouping.BackgroundOnePerKey` | BART/StatTest.py:120-124 | The background list has exactly one entry per key of the AUC map |
| `Grouping.MemberOfOwnGroup` | BART/StatTest.py:122-128 | Each key's AUC appears in the group named by its own prefix |
| `Grouping.MembersAreOwn` | BART/StatTest.py:122-128 | Every value in a group is the AUC of a key with that prefix |
| `Grouping.GroupNonEmpty` | BART/StatTest.py:125-128 | Every factor that occurs has a non-empty group, so the filter at line 134 always passes |
| `Grouping.GroupSizesSum` | BART/StatTest.py:119-128 | Over an index that lists every factor once, the group sizes add up to the number of keys, which is the length of `sam1` |
| `Ranking.Insert` | BART/StatTest.py:154 | Inserting one position into a stably sorted list keeps it sorted and distinct, with that position added |
| `Ranking.Sort` | BART/StatTest.py:154 | Sorting gives the same positions, distinct and in the stable order: better key first, equal keys in index order |
| `Ranking.SortedIndex` | BART/StatTest.py:153-178 | The sort of all table positions that each pass uses is a permutation of 0..N−1 in the stable order |
| `Ranking.SortedIndexUnique` | BART/StatTest.py:154 | Any permutation in the stable order is that sort, so the order is fully determined by the keys and the index order |
| `Ranking.RanksOfSortedIndex` | BART/StatTest.py:153-158 | Giving rank r+1 to the r-th sorted position yields each of 1..N exactly once. Rank p < rank q holds exactly when p's key is strictly better, or the keys are equal and p comes first in the index |
| `StatTest.OneSided` | BART/StatTest.py:140 | For a two-sided p in [0, 1], the result lies in [0, 1]. It is ≤ 0.5 when the statistic is positive and ≥ 0.5 otherwise. Twice its nearer tail is the two-sided p again |
| `StatTest.OneSidedComplement` | BART/StatTest.py:140 | Statistics of opposite sign give complementary one-sided p-values |
| `StatTest.ZScore` | BART/StatTest.py:147 | z·std + mean gives the statistic back |
| `StatTest.MaxOf` | BART/StatTest.py:148 | `max_auc` is a member of the group and at least every member |
| `StatTest.TestFactors` | BART/StatTest.py:133-140 | Each factor with a non-empty group gets its rank-sum statistic and its one-sided p-value; no other cell changes |
| `StatTest.Normalize` | BART/StatTest.py:145-148 | Fails exactly when some factor lacks a baseline row, naming the first such factor in index order. Otherwise each row gets its z-score and `max_auc` |
| `StatTest.Tabulate` | BART/StatTest.py:119-148 | Grouping, testing and normalization together fail exactly when a factor lacks a baseline row, naming the first one. Otherwise every row holds the rank-sum results of the factor's group against the background, the z-score of its statistic and the group's `max_auc` |
| `StatTest.RankPass` | BART/StatTest.py:153-178 | The r-th position of the stable sort gets rank r+1. Only that pass's rank column changes, and it becomes a ranking of the pass's key (descending, or ascending for the p-value) |
| `StatTest.RankAll` | BART/StatTest.py:153-178 | After the four passes, every rank column is a ranking of its key, and the key columns are unchanged |
| `StatTest.Combine` | BART/StatTest.py:181-184 | Each row gets (rz+rp)·0.5, (rz+rp+ra)·0.33/N and the Irwin–Hall value of three times the latter |
| `StatTest.CombinedBounds` | BART/StatTest.py:181-184 | With ranks in 1..N: `rank_avg_z_p` is in [1, N], `3·rank_avg_z_p_a` is in [2.97/N, 2.97] ⊂ [0, 3], and the Irwin–Hall value is in [0, 1] |
| `StatTest.CompositeBounds` | BART/StatTest.py:183 | A sum of three ranks in [3, 3N] scaled by 3 · 0.33 / N lies in [2.97 / N, 2.97] |
| `StatTest.SignificanceFollowsComposite` | BART/StatTest.py:181-184 | In a combined table, one row's `rank_avg_z_p_a` is below another's exactly when its Irwin–Hall value is, so the significance value is a strictly increasing function of the composite |
| `StatTest.ReportSignificanceOrdered` | BART/StatTest.py:184-193 | Down a report in ascending composite order, the Irwin–Hall value never decreases |
| `StatTest.RankAndCombine` | BART/StatTest.py:153-184 | After the passes and the composite loop, all four rank columns are rankings. The composite cells match the row's ranks and keep the bounds above |
| `StatTest.Report` | BART/StatTest.py:192-193 | Report rows follow the stable ascending sort by `rank_avg_z_p_a`. Every factor's row appears, no factor appears twice, and `re_rank` never decreases down the report |
| `StatTest.Run` | BART/StatTest.py:119-193 | The whole stage fails exactly when a factor lacks a baseline, naming the first one. Otherwise every row holds its test results, z-score and `max_auc`, all columns are rankings, the composite bounds hold, the significance value orders the rows exactly as the composite does, and the report is complete and ordered by both the composite and the significance value |

## Left out

- `stat_plot` (lines 52-113) and the loop over target IDs at lines 197-202 are not modelled: they draw figures, create directories and read the target file.
- `logfac` (lines 36-40) and the `np.exp` at line 49 are not modelled. The division at line 49 is by the factorial instead. For n < 20 this is the same number, and the only call uses n = 3. The Stirling branch for n ≥ 20 is not part of this model.
- Floating-point rounding is left out everywhere. `0.33`, `0.5` and all quotients are exact reals.
- `stats.ranksums` (line 136) is an opaque function parameter; its algorithm is not part of this model. The p-value lemmas assume its two-sided p-value lies in [0, 1].
- The reading of the normalisation file (line 142) is left out; the baseline is an input map. A missing key makes pandas raise at line 147; the model returns `MissingBaseline` for the first such factor in index order.
- `StatTest.ZScore`: requires `std ≠ 0`. The source divides without a check, and numpy would give an infinite or NaN z-score, which `real` cannot represent.
- The report file name, the header line, the number formats at lines 189-193 and every `print` are left out; the report is a sequence of rows.
- Argument handling by `BART.OptValidator` is not part of this model.
- The dictionary iteration orders (the AUC keys, and the table index at line 131) are inputs. The model does not show that the report is independent of these orders; ties in every sort are broken by the index order, as Python's stable `sorted` does.
- `Grouping.Group`: groups are modelled as a map that is reassigned, not as Python lists appended in place (no aliasing can be observed here).
- Table cells start as `NaN` in pandas; the model starts them at zero (`BlankRow`). Every cell that is read has been written before.
- `Combinatorics.Binom`: defined only for natural arguments, as n!/(k!(n−k)!) and 0 for k > n. scipy's `binom` for real arguments is not modelled; every call passes integers.
- `Combinatorics.Factorial`: takes an integer argument. The Python function also accepts floats, but its only caller passes the integer 3.
- `Combinatorics.IrwinHallThreeStrict`, `Combinatorics.IrwinHallThreeMonotone` and `Combinatorics.IrwinHallThreeBounds`: proved for three summands only, the case line 184 uses. The general n is not covered.
- `Combinatorics.IrwinHallThreeAtThree`: F(n) = 1 is proved only for n = 3, the only call (line 184). The general identity Σ(−1)^k·C(n,k)·(n−k)^n = n! behind F(n) = 1 is not proved.
