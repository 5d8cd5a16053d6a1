/**
 The per-factor statistics table of the ranking stage: rank-sum scores
 and one-sided p-values, z-scores against a baseline, the maximal AUC,
 four rank passes, the composite ranks with their Irwin-Hall value, and
 the order of the report rows.

 The table is a sequence of rows, one per factor, in the order of the
 table index; each loop of the stage takes the table and returns it with
 its cells filled in.
 */
module StatTest {
  import opened Combinatorics
  import opened Grouping
  import opened Ranking

  /** Statistic and two-sided p-value of the rank-sum test of a group against the background. */
  datatype RankSum = RankSum(statistic: real, pvalue: real)

  /** The `mean` and `std` of a factor's statistic in the normalization file. */
  datatype Baseline = Baseline(mean: real, std: real)

  /** One row of the statistics table. */
  datatype StatRow = StatRow(
    score: real,
    pvalue: real,
    maxAuc: real,
    zscore: real,
    rankScore: int,
    rankZscore: int,
    rankPvalue: int,
    rankAuc: int,
    rankAvgZP: real,
    rankAvgZPA: real,
    irwinHallPvalue: real)

  /** A row before any cell is filled in. */
  const BlankRow := StatRow(0.0, 0.0, 0.0, 0.0, 0, 0, 0, 0, 0.0, 0.0, 0.0)

  /** One line of the report: TF, statistic, pvalue, zscore, max_auc, re_rank, irwin_hall_pvalue. */
  datatype ReportRow = ReportRow(
    tf: string,
    statistic: real,
    pvalue: real,
    zscore: real,
    maxAuc: real,
    reRank: real,
    irwinHallPvalue: real)

  /** The lookup of a factor in the normalization table failed. */
  datatype StatError = MissingBaseline(factor: string)

  datatype Result<T> = Ok(value: T) | Err(error: StatError)

  datatype Outcome = Outcome(table: seq<StatRow>, report: seq<ReportRow>)

  /** The column a rank pass sorts by. */
  datatype RankKey = ByScore | ByZscore | ByPvalue | ByMaxAuc

  /** Only the p-value pass sorts ascending; the other three put the largest key first. */
  predicate Descending(k: RankKey)
  {
    k != ByPvalue
  }

  function KeyOf(row: StatRow, k: RankKey): real
  {
    match k
    case ByScore => row.score
    case ByZscore => row.zscore
    case ByPvalue => row.pvalue
    case ByMaxAuc => row.maxAuc
  }

  function RankOf(row: StatRow, k: RankKey): int
  {
    match k
    case ByScore => row.rankScore
    case ByZscore => row.rankZscore
    case ByPvalue => row.rankPvalue
    case ByMaxAuc => row.rankAuc
  }

  function WithRank(row: StatRow, k: RankKey, r: int): (row': StatRow)
    ensures RankOf(row', k) == r
    ensures forall k' :: k' != k ==> RankOf(row', k') == RankOf(row, k')
    ensures forall k' :: KeyOf(row', k') == KeyOf(row, k')
    ensures row'.rankAvgZP == row.rankAvgZP && row'.rankAvgZPA == row.rankAvgZPA
    ensures row'.irwinHallPvalue == row.irwinHallPvalue
  {
    match k
    case ByScore => row.(rankScore := r)
    case ByZscore => row.(rankZscore := r)
    case ByPvalue => row.(rankPvalue := r)
    case ByMaxAuc => row.(rankAuc := r)
  }

  /** Setting a rank twice keeps only the second value. */
  lemma WithRankTwice(row: StatRow, k: RankKey, a: int, b: int)
    ensures WithRank(WithRank(row, k, a), k, b) == WithRank(row, k, b)
  {
  }

  /** The sort keys of one pass, in table order. */
  function Keys(stat: seq<StatRow>, k: RankKey): (keys: seq<real>)
    ensures |keys| == |stat|
    ensures forall p :: 0 <= p < |stat| ==> keys[p] == KeyOf(stat[p], k)
  {
    seq(|stat|, p requires 0 <= p < |stat| => KeyOf(stat[p], k))
  }

  /** One rank column, in table order. */
  ghost function Ranks(stat: seq<StatRow>, k: RankKey): (ranks: seq<int>)
    ensures |ranks| == |stat|
    ensures forall p :: 0 <= p < |stat| ==> ranks[p] == RankOf(stat[p], k)
  {
    seq(|stat|, p requires 0 <= p < |stat| => RankOf(stat[p], k))
  }

  function Min(a: real, b: real): real
  {
    if a <= b then a else b
  }

  /**
   The one-sided p-value for the alternative "shifted higher than the
   background": half the two-sided value when the statistic is positive,
   its complement otherwise. For a two-sided value in [0, 1] the result is
   a probability on the side the statistic points to, and doubling the
   nearer tail gives the two-sided value back.
   */
  function OneSided(statistic: real, p2: real): (p: real)
    ensures 0.0 <= p2 <= 1.0 ==> 0.0 <= p <= 1.0
    ensures 0.0 <= p2 <= 1.0 && statistic > 0.0 ==> p <= 0.5
    ensures 0.0 <= p2 <= 1.0 && statistic <= 0.0 ==> p >= 0.5
    ensures 0.0 <= p2 <= 1.0 ==> 2.0 * Min(p, 1.0 - p) == p2
  {
    if statistic > 0.0 then p2 * 0.5 else 1.0 - p2 * 0.5
  }

  /** Opposite signs give complementary tails. */
  lemma OneSidedComplement(statistic: real, p2: real)
    requires statistic != 0.0
    ensures OneSided(statistic, p2) + OneSided(-statistic, p2) == 1.0
  {
  }

  /** Standard score against the baseline; undoing it gives the statistic back. */
  function ZScore(score: real, b: Baseline): (z: real)
    requires b.std != 0.0
    ensures z * b.std + b.mean == score
  {
    (score - b.mean) / b.std
  }

  /** Largest value of a non-empty group (Python's `max`). */
  function MaxOf(s: seq<real>): (m: real)
    requires |s| > 0
    ensures m in s
    ensures forall i :: 0 <= i < |s| ==> s[i] <= m
  {
    if |s| == 1 then s[0]
    else
      var rest := MaxOf(s[1..]);
      if s[0] >= rest then s[0] else rest
  }

  /** Cells written by the rank-sum loop. */
  function WithTestResult(row: StatRow, t: RankSum): StatRow
  {
    row.(score := t.statistic, pvalue := OneSided(t.statistic, t.pvalue))
  }

  /** Cells written by the normalization loop. */
  function Normalized(row: StatRow, b: Baseline, group: seq<real>): StatRow
    requires b.std != 0.0 && |group| > 0
  {
    row.(zscore := ZScore(row.score, b), maxAuc := MaxOf(group))
  }

  /** Composite ranks of one row in a table of n factors, and their Irwin-Hall value. */
  /** Mean of the z-score and p-value ranks. */
  function RankAvgZP(row: StatRow): real
  {
    (row.rankZscore + row.rankPvalue) as real * 0.5
  }

  /** The three-way composite of the z-score, p-value and AUC ranks, scaled by 0.33 / n. */
  function RankAvgZPA(row: StatRow, n: nat): real
    requires n > 0
  {
    (row.rankZscore + row.rankPvalue + row.rankAuc) as real * 0.33 / n as real
  }

  function Combined(row: StatRow, n: nat): StatRow
    requires n > 0
  {
    row.(rankAvgZP := RankAvgZP(row),
         rankAvgZPA := RankAvgZPA(row, n),
         irwinHallPvalue := IrwinHall(3.0 * RankAvgZPA(row, n), 3))
  }

  /**
   The rank-sum loop: for every factor with a non-empty group, test the
   group against the background and store the statistic and the one-sided
   p-value.
   */
  method TestFactors(stat: seq<StatRow>, index: seq<string>, tfs: map<string, seq<real>>,
                     sam1: seq<real>, ranksums: (seq<real>, seq<real>) -> RankSum)
      returns (out: seq<StatRow>)
    requires |stat| == |index|
    requires forall p :: 0 <= p < |index| ==> index[p] in tfs
    ensures |out| == |stat|
    ensures forall p :: 0 <= p < |out| ==>
      out[p] == if |tfs[index[p]]| > 0 then WithTestResult(stat[p], ranksums(tfs[index[p]], sam1)) else stat[p]
  {
    out := stat;
    var p := 0;
    while p < |index|
      invariant 0 <= p <= |index| && |out| == |stat|
      invariant forall q :: 0 <= q < p ==>
        out[q] == if |tfs[index[q]]| > 0 then WithTestResult(stat[q], ranksums(tfs[index[q]], sam1)) else stat[q]
      invariant forall q :: p <= q < |out| ==> out[q] == stat[q]
    {
      var tf := index[p];
      if |tfs[tf]| > 0 {
        var t := ranksums(tfs[tf], sam1);
        var pvalue := OneSided(t.statistic, t.pvalue);
        out := out[p := out[p].(score := t.statistic, pvalue := pvalue)];
      }
      p := p + 1;
    }
  }

  /** Position of the first factor of `index` without a baseline entry, if any. */
  ghost predicate FirstMissing(index: seq<string>, baseline: map<string, Baseline>, p: nat)
  {
    && p < |index| && index[p] !in baseline
    && forall q :: 0 <= q < p ==> index[q] in baseline
  }

  /**
   The normalization loop: look up each factor's baseline, store its
   z-score and the largest AUC of its group. The lookup of the first
   factor without a baseline row fails and ends the stage.
   */
  method Normalize(stat: seq<StatRow>, index: seq<string>, tfs: map<string, seq<real>>,
                   baseline: map<string, Baseline>)
      returns (res: Result<seq<StatRow>>)
    requires |stat| == |index|
    requires forall p :: 0 <= p < |index| ==> index[p] in tfs && |tfs[index[p]]| > 0
    requires forall p :: 0 <= p < |index| && index[p] in baseline ==> baseline[index[p]].std != 0.0
    ensures res.Err? <==> exists p :: 0 <= p < |index| && index[p] !in baseline
    ensures res.Err? ==> exists p: nat :: FirstMissing(index, baseline, p) && res.error == MissingBaseline(index[p])
    ensures res.Ok? ==> |res.value| == |stat| && forall p :: 0 <= p < |stat| ==>
      res.value[p] == Normalized(stat[p], baseline[index[p]], tfs[index[p]])
  {
    var out := stat;
    var p := 0;
    while p < |index|
      invariant 0 <= p <= |index| && |out| == |stat|
      invariant forall q :: 0 <= q < p ==> index[q] in baseline
      invariant forall q :: 0 <= q < p ==> out[q] == Normalized(stat[q], baseline[index[q]], tfs[index[q]])
      invariant forall q :: p <= q < |out| ==> out[q] == stat[q]
    {
      var tf := index[p];
      if tf !in baseline {
        assert FirstMissing(index, baseline, p);
        return Err(MissingBaseline(tf));
      }
      var b := baseline[tf];
      var zscore := ZScore(out[p].score, b);
      out := out[p := out[p].(zscore := zscore, maxAuc := MaxOf(tfs[tf]))];
      p := p + 1;
    }
    res := Ok(out);
  }

  /**
   One rank pass: sort the table positions stably by the pass's key and
   hand out the ranks 1, 2, 3, ... in that order with a running counter.
   Only the pass's rank column changes; it becomes a ranking of the keys.
   */
  method RankPass(stat: seq<StatRow>, k: RankKey) returns (out: seq<StatRow>)
    ensures |out| == |stat|
    ensures forall p :: 0 <= p < |out| ==> out[p] == WithRank(stat[p], k, RankOf(out[p], k))
    ensures forall r :: 0 <= r < |out| ==>
      RankOf(out[SortedIndex(Keys(stat, k), Descending(k))[r]], k) == r + 1
    ensures IsRanking(Ranks(out, k), Keys(stat, k), Descending(k))
  {
    var order := SortedIndex(Keys(stat, k), Descending(k));
    out := stat;
    var rank := 1;
    var j := 0;
    while j < |order|
      invariant 0 <= j <= |order| && rank == j + 1
      invariant |out| == |stat|
      invariant forall p :: 0 <= p < |out| ==> out[p] == WithRank(stat[p], k, RankOf(out[p], k))
      invariant forall q :: 0 <= q < j ==> RankOf(out[order[q]], k) == q + 1
    {
      var i := order[j];
      RankStep(stat, out, k, order, j);
      out := out[i := WithRank(out[i], k, rank)];
      rank := rank + 1;
      j := j + 1;
    }
    PassRanking(stat, out, k);
  }

  /** Giving the next sorted position its rank keeps the loop's two invariants. */
  lemma RankStep(stat: seq<StatRow>, out: seq<StatRow>, k: RankKey, order: seq<nat>, j: nat)
    requires IsPermutation(order, |stat|) && j < |order| && |out| == |stat|
    requires forall p :: 0 <= p < |out| ==> out[p] == WithRank(stat[p], k, RankOf(out[p], k))
    requires forall q :: 0 <= q < j ==> RankOf(out[order[q]], k) == q + 1
    ensures var next := out[order[j] := WithRank(out[order[j]], k, j + 1)];
      && (forall p :: 0 <= p < |next| ==> next[p] == WithRank(stat[p], k, RankOf(next[p], k)))
      && (forall q :: 0 <= q < j + 1 ==> RankOf(next[order[q]], k) == q + 1)
  {
    var i := order[j];
    assert forall q :: 0 <= q < j ==> order[q] != i;
    WithRankTwice(stat[i], k, RankOf(out[i], k), j + 1);
  }

  /** Ranks 1, 2, 3, ... along the stable order of a pass's key form a ranking of that key. */
  lemma PassRanking(stat: seq<StatRow>, out: seq<StatRow>, k: RankKey)
    requires |out| == |stat|
    requires forall r :: 0 <= r < |out| ==> RankOf(out[SortedIndex(Keys(stat, k), Descending(k))[r]], k) == r + 1
    ensures IsRanking(Ranks(out, k), Keys(stat, k), Descending(k))
  {
    var order := SortedIndex(Keys(stat, k), Descending(k));
    assert RanksFollow(Ranks(out, k), order) by {
      forall r | 0 <= r < |order| ensures order[r] < |out| {
        assert order[r] in order;
      }
    }
    RanksOfSortedIndex(Ranks(out, k), Keys(stat, k), Descending(k));
  }

  /**
   The composite loop: for every factor the mean of its z-score and
   p-value ranks, the three-way composite scaled by 0.33 / N, and the
   Irwin-Hall value of three times the composite.
   */
  method Combine(stat: seq<StatRow>) returns (out: seq<StatRow>)
    ensures |out| == |stat|
    ensures forall p :: 0 <= p < |out| ==> out[p] == Combined(stat[p], |stat|)
  {
    out := stat;
    var n := |stat|;
    var p := 0;
    while p < n
      invariant 0 <= p <= n && |out| == n
      invariant forall q :: 0 <= q < p ==> out[q] == Combined(stat[q], n)
      invariant forall q :: p <= q < n ==> out[q] == stat[q]
    {
      var row := out[p];
      var zp := RankAvgZP(row);
      var zpa := RankAvgZPA(row, n);
      var cdf := IrwinHallCdf(3.0 * zpa, 3);
      out := out[p := row.(rankAvgZP := zp, rankAvgZPA := zpa, irwinHallPvalue := cdf)];
      p := p + 1;
    }
  }

  /**
   With every rank in 1 .. N, the mean of two ranks stays in [1, N], and
   three times the composite stays in [2.97 / N, 2.97], inside the support
   [0, 3] of the three-summand Irwin-Hall distribution, so its value there
   is a probability.
   */
  lemma CombinedBounds(row: StatRow, n: nat)
    requires n > 0
    requires 1 <= row.rankZscore <= n && 1 <= row.rankPvalue <= n && 1 <= row.rankAuc <= n
    ensures 1.0 <= Combined(row, n).rankAvgZP <= n as real
    ensures 2.97 / n as real <= 3.0 * Combined(row, n).rankAvgZPA <= 2.97
    ensures 0.0 <= Combined(row, n).irwinHallPvalue <= 1.0
  {
    var zpa := RankAvgZPA(row, n);
    CompositeBounds((row.rankZscore + row.rankPvalue + row.rankAuc) as real, n as real);
    IrwinHallThreeBounds(3.0 * zpa);
  }

  /** Three ranks in 1 .. m add up to s in [3, 3m]; then 3 * s * 0.33 / m lies in [2.97 / m, 2.97]. */
  lemma CompositeBounds(s: real, m: real)
    requires m >= 1.0 && 3.0 <= s <= 3.0 * m
    ensures 2.97 / m <= 3.0 * (s * 0.33 / m) <= 2.97
  {
    assert 3.0 * (s * 0.33 / m) == s * 0.99 / m;
    DivideMonotone(2.97, s * 0.99, m);
    DivideMonotone(s * 0.99, 2.97 * m, m);
    assert 2.97 * m / m == 2.97;
  }

  lemma DivideMonotone(a: real, b: real, m: real)
    requires a <= b && m > 0.0
    ensures a / m <= b / m
  {
    assert b / m - a / m == (b - a) / m;
  }

  function CompositeKeys(stat: seq<StatRow>): (keys: seq<real>)
    ensures |keys| == |stat|
    ensures forall p :: 0 <= p < |stat| ==> keys[p] == stat[p].rankAvgZPA
  {
    seq(|stat|, p requires 0 <= p < |stat| => stat[p].rankAvgZPA)
  }

  function ReportOf(tf: string, row: StatRow): ReportRow
  {
    ReportRow(tf, row.score, row.pvalue, row.zscore, row.maxAuc, row.rankAvgZPA, row.irwinHallPvalue)
  }

  /**
   The report loop: one line per factor, in the stable ascending order of
   the three-way composite rank. Every factor of the index appears exactly
   once and the composite never decreases down the report.
   */
  method Report(stat: seq<StatRow>, index: seq<string>) returns (rows: seq<ReportRow>)
    requires |stat| == |index|
    requires forall p, q :: 0 <= p < q < |index| ==> index[p] != index[q]
    ensures |rows| == |stat|
    ensures forall q :: 0 <= q < |rows| ==>
      var p := SortedIndex(CompositeKeys(stat), false)[q]; rows[q] == ReportOf(index[p], stat[p])
    ensures forall q, q' :: 0 <= q < q' < |rows| ==> rows[q].reRank <= rows[q'].reRank
    ensures forall q, q' :: 0 <= q < q' < |rows| ==> rows[q].tf != rows[q'].tf
    ensures forall p :: 0 <= p < |index| ==> ReportOf(index[p], stat[p]) in rows
  {
    var order := SortedIndex(CompositeKeys(stat), false);
    rows := [];
    var j := 0;
    while j < |order|
      invariant 0 <= j <= |order| && |rows| == j
      invariant forall q :: 0 <= q < j ==> rows[q] == ReportOf(index[order[q]], stat[order[q]])
    {
      assert order[j] in order;
      var i := order[j];
      rows := rows + [ReportOf(index[i], stat[i])];
      j := j + 1;
    }
    ReportFollowsOrder(stat, index, rows);
  }

  /** Rows laid out along the ascending composite order have the report's three properties. */
  lemma ReportFollowsOrder(stat: seq<StatRow>, index: seq<string>, rows: seq<ReportRow>)
    requires |stat| == |index| == |rows|
    requires forall p, q :: 0 <= p < q < |index| ==> index[p] != index[q]
    requires forall q :: 0 <= q < |rows| ==>
      var p := SortedIndex(CompositeKeys(stat), false)[q]; rows[q] == ReportOf(index[p], stat[p])
    ensures forall q, q' :: 0 <= q < q' < |rows| ==> rows[q].reRank <= rows[q'].reRank
    ensures forall q, q' :: 0 <= q < q' < |rows| ==> rows[q].tf != rows[q'].tf
    ensures forall p :: 0 <= p < |index| ==> ReportOf(index[p], stat[p]) in rows
  {
    var order := SortedIndex(CompositeKeys(stat), false);
    forall q, q' | 0 <= q < q' < |rows| ensures rows[q].reRank <= rows[q'].reRank && rows[q].tf != rows[q'].tf {
      assert Precedes(CompositeKeys(stat), false, order[q], order[q']);
    }
    forall p | 0 <= p < |index| ensures ReportOf(index[p], stat[p]) in rows {
      assert p in order;
      var q :| 0 <= q < |order| && order[q] == p;
      assert rows[q] == ReportOf(index[p], stat[p]);
    }
  }

  /** A rank pass leaves every key and every other rank column as it was. */
  lemma PassKeeps(a: seq<StatRow>, b: seq<StatRow>, k: RankKey)
    requires |a| == |b|
    requires forall p :: 0 <= p < |b| ==> b[p] == WithRank(a[p], k, RankOf(b[p], k))
    ensures forall k' :: Keys(b, k') == Keys(a, k')
    ensures forall k' :: k' != k ==> Ranks(b, k') == Ranks(a, k')
  {
  }

  /** The composite loop leaves every key and every rank column as it was. */
  lemma CombineKeeps(a: seq<StatRow>, b: seq<StatRow>)
    requires |a| == |b|
    requires forall p :: 0 <= p < |b| ==> b[p] == Combined(a[p], |a|)
    ensures forall k :: Keys(b, k) == Keys(a, k) && Ranks(b, k) == Ranks(a, k)
  {
  }

  /**
   The four rank passes (score, z-score, p-value, max AUC) followed by the
   composite loop: every rank column becomes a ranking of its key, the key
   columns stay as they were, and the composite cells are those of the
   row's ranks, within their bounds.
   */
  method RankAndCombine(s0: seq<StatRow>) returns (s5: seq<StatRow>)
    ensures |s5| == |s0|
    ensures forall k :: Keys(s5, k) == Keys(s0, k)
    ensures forall p :: 0 <= p < |s5| ==>
      s5[p].score == s0[p].score && s5[p].pvalue == s0[p].pvalue &&
      s5[p].zscore == s0[p].zscore && s5[p].maxAuc == s0[p].maxAuc
    ensures AllRanked(s5)
    ensures forall p :: 0 <= p < |s5| ==>
      && s5[p] == Combined(s5[p], |s5|)
      && 1.0 <= s5[p].rankAvgZP <= |s5| as real
      && 2.97 / |s5| as real <= 3.0 * s5[p].rankAvgZPA <= 2.97
      && 0.0 <= s5[p].irwinHallPvalue <= 1.0
  {
    var s4 := RankAll(s0);
    s5 := Combine(s4);
    CombineKeeps(s4, s5);
    CombinedRows(s4, s5);
    SameKeys(s0, s5);
  }

  /** Tables with the same key columns agree row by row on the four keys. */
  lemma SameKeys(a: seq<StatRow>, b: seq<StatRow>)
    requires |a| == |b|
    requires forall k :: Keys(b, k) == Keys(a, k)
    ensures forall p :: 0 <= p < |b| ==>
      b[p].score == a[p].score && b[p].pvalue == a[p].pvalue &&
      b[p].zscore == a[p].zscore && b[p].maxAuc == a[p].maxAuc
  {
    forall p | 0 <= p < |b|
      ensures b[p].score == a[p].score && b[p].pvalue == a[p].pvalue
      ensures b[p].zscore == a[p].zscore && b[p].maxAuc == a[p].maxAuc
    {
      assert Keys(b, ByScore)[p] == Keys(a, ByScore)[p];
      assert Keys(b, ByPvalue)[p] == Keys(a, ByPvalue)[p];
      assert Keys(b, ByZscore)[p] == Keys(a, ByZscore)[p];
      assert Keys(b, ByMaxAuc)[p] == Keys(a, ByMaxAuc)[p];
    }
  }

  /** After the composite loop over a fully ranked table every row keeps the composite bounds. */
  lemma CombinedRows(s4: seq<StatRow>, s5: seq<StatRow>)
    requires |s4| == |s5| && AllRanked(s4)
    requires forall p :: 0 <= p < |s5| ==> s5[p] == Combined(s4[p], |s4|)
    ensures forall p :: 0 <= p < |s5| ==>
      && s5[p] == Combined(s5[p], |s5|)
      && 1.0 <= s5[p].rankAvgZP <= |s5| as real
      && 2.97 / |s5| as real <= 3.0 * s5[p].rankAvgZPA <= 2.97
      && 0.0 <= s5[p].irwinHallPvalue <= 1.0
  {
    var n := |s4|;
    forall p | 0 <= p < n
      ensures s5[p] == Combined(s5[p], n)
      ensures 1.0 <= s5[p].rankAvgZP <= n as real
      ensures 2.97 / n as real <= 3.0 * s5[p].rankAvgZPA <= 2.97
      ensures 0.0 <= s5[p].irwinHallPvalue <= 1.0
    {
      RankBounds(s4, p);
      CombinedBounds(s4[p], n);
      CombinedAgain(s4[p], n);
    }
  }

  /** Combining a combined row again changes nothing: the composites depend on the ranks alone. */
  lemma CombinedAgain(row: StatRow, n: nat)
    requires n > 0
    ensures Combined(Combined(row, n), n) == Combined(row, n)
  {
    var c := Combined(row, n);
    assert RankAvgZP(c) == RankAvgZP(row) && RankAvgZPA(c, n) == RankAvgZPA(row, n);
  }

  /** One row's composite is below another's exactly when its significance value is. */
  ghost predicate SignificanceFollows(stat: seq<StatRow>)
  {
    forall p, q :: 0 <= p < |stat| && 0 <= q < |stat| ==>
      (stat[p].rankAvgZPA < stat[q].rankAvgZPA <==> stat[p].irwinHallPvalue < stat[q].irwinHallPvalue)
  }

  /** The significance value never decreases down the report. */
  ghost predicate SignificanceSorted(rows: seq<ReportRow>)
  {
    forall q, q' :: 0 <= q < q' < |rows| ==> rows[q].irwinHallPvalue <= rows[q'].irwinHallPvalue
  }

  /**
   In a combined table the significance value is a strictly increasing
   function of the three-way composite: one row's composite is below
   another's exactly when its Irwin–Hall value is.
   */
  lemma SignificanceFollowsComposite(stat: seq<StatRow>)
    requires forall p :: 0 <= p < |stat| ==>
      stat[p] == Combined(stat[p], |stat|) && 2.97 / |stat| as real <= 3.0 * stat[p].rankAvgZPA <= 2.97
    ensures SignificanceFollows(stat)
  {
    forall p, q | 0 <= p < |stat| && 0 <= q < |stat|
      ensures stat[p].rankAvgZPA < stat[q].rankAvgZPA <==> stat[p].irwinHallPvalue < stat[q].irwinHallPvalue
    {
      var x, y := 3.0 * stat[p].rankAvgZPA, 3.0 * stat[q].rankAvgZPA;
      DivideMonotone(0.0, 2.97, |stat| as real);
      if x < y {
        IrwinHallThreeStrict(x, y);
      } else {
        IrwinHallThreeMonotone(y, x);
      }
    }
  }

  /**
   Down a report laid out along the ascending composite order of a combined
   table, the significance value never decreases.
   */
  lemma ReportSignificanceOrdered(stat: seq<StatRow>, index: seq<string>, rows: seq<ReportRow>)
    requires |stat| == |index| == |rows|
    requires forall p :: 0 <= p < |stat| ==>
      stat[p] == Combined(stat[p], |stat|) && 2.97 / |stat| as real <= 3.0 * stat[p].rankAvgZPA <= 2.97
    requires forall q :: 0 <= q < |rows| ==>
      var p := SortedIndex(CompositeKeys(stat), false)[q]; rows[q] == ReportOf(index[p], stat[p])
    ensures SignificanceSorted(rows)
  {
    var order := SortedIndex(CompositeKeys(stat), false);
    forall q, q' | 0 <= q < q' < |rows| ensures rows[q].irwinHallPvalue <= rows[q'].irwinHallPvalue {
      assert Precedes(CompositeKeys(stat), false, order[q], order[q']);
      var p, p' := order[q], order[q'];
      DivideMonotone(0.0, 2.97, |stat| as real);
      IrwinHallThreeMonotone(3.0 * stat[p].rankAvgZPA, 3.0 * stat[p'].rankAvgZPA);
    }
  }

  /** In a fully ranked table every rank lies in 1 .. N. */
  lemma RankBounds(stat: seq<StatRow>, p: nat)
    requires AllRanked(stat) && p < |stat|
    ensures 1 <= stat[p].rankScore <= |stat| && 1 <= stat[p].rankZscore <= |stat|
    ensures 1 <= stat[p].rankPvalue <= |stat| && 1 <= stat[p].rankAuc <= |stat|
  {
    assert Ranks(stat, ByScore)[p] == stat[p].rankScore;
    assert Ranks(stat, ByZscore)[p] == stat[p].rankZscore;
    assert Ranks(stat, ByPvalue)[p] == stat[p].rankPvalue;
    assert Ranks(stat, ByMaxAuc)[p] == stat[p].rankAuc;
  }

  /** The four rank passes, in the order score, z-score, p-value, max AUC. */
  method RankAll(s0: seq<StatRow>) returns (s4: seq<StatRow>)
    ensures |s4| == |s0|
    ensures forall k :: Keys(s4, k) == Keys(s0, k)
    ensures AllRanked(s4)
  {
    var s1 := RankPass(s0, ByScore);
    PassKeeps(s0, s1, ByScore);
    var s2 := RankPass(s1, ByZscore);
    PassKeeps(s1, s2, ByZscore);
    var s3 := RankPass(s2, ByPvalue);
    PassKeeps(s2, s3, ByPvalue);
    s4 := RankPass(s3, ByMaxAuc);
    PassKeeps(s3, s4, ByMaxAuc);
  }

  /** The table index lists every factor of the sample keys exactly once. */
  ghost predicate IsFactorIndex(index: seq<string>, keys: seq<string>)
  {
    && (forall p, q :: 0 <= p < q < |index| ==> index[p] != index[q])
    && (forall t :: t in index <==> t in Factors(keys))
  }

  /** Every rank column of the table is a ranking of its key column. */
  ghost predicate AllRanked(stat: seq<StatRow>)
  {
    && IsRanking(Ranks(stat, ByScore), Keys(stat, ByScore), Descending(ByScore))
    && IsRanking(Ranks(stat, ByZscore), Keys(stat, ByZscore), Descending(ByZscore))
    && IsRanking(Ranks(stat, ByPvalue), Keys(stat, ByPvalue), Descending(ByPvalue))
    && IsRanking(Ranks(stat, ByMaxAuc), Keys(stat, ByMaxAuc), Descending(ByMaxAuc))
  }

  /**
   The first half of the stage: group the AUCs, then test and normalize
   every factor of the index. It fails exactly when some factor has no
   baseline row.
   */
  method Tabulate(keys: seq<string>, aucs: map<string, real>, index: seq<string>,
                  ranksums: (seq<real>, seq<real>) -> RankSum, baseline: map<string, Baseline>)
      returns (res: Result<seq<StatRow>>)
    requires forall j :: 0 <= j < |keys| ==> keys[j] in aucs
    requires forall t :: t in index ==> t in Factors(keys)
    requires forall t :: t in index && t in baseline ==> baseline[t].std != 0.0
    ensures res.Err? <==> exists p :: 0 <= p < |index| && index[p] !in baseline
    ensures res.Err? ==> exists p: nat :: FirstMissing(index, baseline, p) && res.error == MissingBaseline(index[p])
    ensures res.Ok? ==> |res.value| == |index|
    ensures res.Ok? ==> forall p :: 0 <= p < |index| ==>
      var row := res.value[p];
      var group := Members(keys, aucs, index[p]);
      var t := ranksums(group, Background(keys, aucs));
      && index[p] in baseline
      && row.score == t.statistic
      && row.pvalue == OneSided(t.statistic, t.pvalue)
      && row.zscore == ZScore(t.statistic, baseline[index[p]])
      && |group| > 0 && row.maxAuc == MaxOf(group)
  {
    var tfs, sam1 := Group(keys, aucs);
    assert sam1 == Background(keys, aucs);
    forall p | 0 <= p < |index| ensures index[p] in tfs && |tfs[index[p]]| > 0 {
      assert index[p] in index;
      GroupNonEmpty(keys, aucs, index[p]);
    }
    var stat := seq(|index|, _ => BlankRow);
    stat := TestFactors(stat, index, tfs, sam1, ranksums);
    res := Normalize(stat, index, tfs, baseline);
  }

  /**
   The whole statistics stage: group the AUCs, test and normalize every
   factor, run the four rank passes, combine the ranks and order the
   report. It fails exactly when some factor has no baseline row.
   */
  method Run(keys: seq<string>, aucs: map<string, real>, index: seq<string>,
             ranksums: (seq<real>, seq<real>) -> RankSum, baseline: map<string, Baseline>)
      returns (res: Result<Outcome>)
    requires IsKeyOrder(keys, aucs)
    requires IsFactorIndex(index, keys)
    requires forall t :: t in index && t in baseline ==> baseline[t].std != 0.0
    ensures res.Err? <==> exists p :: 0 <= p < |index| && index[p] !in baseline
    ensures res.Err? ==> exists p: nat :: FirstMissing(index, baseline, p) && res.error == MissingBaseline(index[p])
    ensures res.Ok? ==> |res.value.table| == |index|
    ensures res.Ok? ==> forall p :: 0 <= p < |index| ==>
      var row := res.value.table[p];
      var group := Members(keys, aucs, index[p]);
      var t := ranksums(group, Background(keys, aucs));
      && index[p] in baseline
      && row.score == t.statistic
      && row.pvalue == OneSided(t.statistic, t.pvalue)
      && row.zscore == ZScore(t.statistic, baseline[index[p]])
      && |group| > 0 && row.maxAuc == MaxOf(group)
    ensures res.Ok? ==> AllRanked(res.value.table)
    ensures res.Ok? ==> forall p :: 0 <= p < |index| ==>
      var row := res.value.table[p];
      && row == Combined(row, |index|)
      && 1.0 <= row.rankAvgZP <= |index| as real
      && 2.97 / |index| as real <= 3.0 * row.rankAvgZPA <= 2.97
      && 0.0 <= row.irwinHallPvalue <= 1.0
    ensures res.Ok? ==> |res.value.report| == |index|
    ensures res.Ok? ==> forall q :: 0 <= q < |index| ==>
      var p := SortedIndex(CompositeKeys(res.value.table), false)[q];
      res.value.report[q] == ReportOf(index[p], res.value.table[p])
    ensures res.Ok? ==> forall p :: 0 <= p < |index| ==> ReportOf(index[p], res.value.table[p]) in res.value.report
    ensures res.Ok? ==> forall q, q' :: 0 <= q < q' < |index| ==>
      res.value.report[q].reRank <= res.value.report[q'].reRank && res.value.report[q].tf != res.value.report[q'].tf
    ensures res.Ok? ==> SignificanceFollows(res.value.table) && SignificanceSorted(res.value.report)
  {
    var normalized := Tabulate(keys, aucs, index, ranksums, baseline);
    if normalized.Err? {
      return Err(normalized.error);
    }
    var s0 := normalized.value;
    var s5 := RankAndCombine(s0);
    var report := Report(s5, index);
    SignificanceFollowsComposite(s5);
    ReportSignificanceOrdered(s5, index, report);
    res := Ok(Outcome(s5, report));
  }
}
