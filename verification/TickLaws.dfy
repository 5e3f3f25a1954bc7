/** The replica target of one scheduler tick, end to end (scheduler/scheduler.go:145-169):
    exact in int32, monotone in the predictions, and, for a single Holt-Winters metric, blind
    to everything but the oldest sample. */
module TickLaws {
  import opened Domain
  import opened Strategies
  import opened ScalingLaws
  import HoltWinters

  /** Non-negative counts whose product with the weight fits an int32. */
  ghost predicate RowsFit(weight: int, rows: seq<seq<int>>) {
    forall j, i :: 0 <= j < |rows| && 0 <= i < |rows[j]| ==> 0 <= rows[j][i] && weight * rows[j][i] <= MAX_INT32
  }

  ghost predicate Fits(groups: seq<Group>) {
    forall g :: 0 <= g < |groups| ==> 0 <= groups[g].weight && RowsFit(groups[g].weight, groups[g].rows)
  }

  /** The largest count whose product with a weight of 100 still fits an int32. */
  const MAX_COUNT: int := 21474836

  /** Weights in [0, 100], as they should be, and counts up to that always fit. */
  lemma SmallCountsFit(weight: int, rows: seq<seq<int>>)
    requires 0 <= weight <= 100
    requires forall j, i :: 0 <= j < |rows| && 0 <= i < |rows[j]| ==> 0 <= rows[j][i] <= MAX_COUNT
    ensures RowsFit(weight, rows)
  {
    forall j, i | 0 <= j < |rows| && 0 <= i < |rows[j]| ensures weight * rows[j][i] <= MAX_INT32 {
      ProductBetween(weight, rows[j][i], 0, MAX_COUNT);
      ProductBetween(MAX_COUNT, weight, 0, 100);
    }
  }

  lemma ColumnMaxFits(weight: int, rows: seq<seq<int>>, i: nat)
    requires 0 <= weight && RowsFit(weight, rows)
    ensures 0 <= ColumnMax(rows, i) && 0 <= weight * ColumnMax(rows, i) <= MAX_INT32
  {
    ColumnMaxIsMax(rows, i);
    ProductBetween(weight, ColumnMax(rows, i), 0, ColumnMax(rows, i));
  }

  lemma {:induction false} WeightedCount(groups: seq<Group>)
    requires WeightedRows(groups).Ok?
    ensures |WeightedRows(groups).value| == |groups|
  {
    hide MaxRows, Scaled;
    if |groups| > 0 {
      WeightedCount(groups[..|groups| - 1]);
    }
  }

  /** Each weighted row is its own metric's row, scaled. */
  lemma {:induction false} WeightedRowAt(groups: seq<Group>, g: nat)
    requires WeightedRows(groups).Ok? && g < |groups|
    ensures |WeightedRows(groups).value| == |groups| && MaxRows(groups[g].rows).Ok?
    ensures WeightedRows(groups).value[g] == Scaled(groups[g].weight, MaxRows(groups[g].rows).value)
  {
    hide MaxRows, Scaled;
    WeightedCount(groups);
    WeightedCount(groups[..|groups| - 1]);
    var n := |groups| - 1;
    if g < n {
      WeightedRowAt(groups[..n], g);
    }
  }

  // ---------------------------------------------------------------- no panic

  /** The length MaxStrategy gives a metric's row: that of the first of its models' rows. */
  function Width(rows: seq<seq<int>>): nat {
    if |rows| == 0 then 0 else |rows[0]|
  }

  /** Every first row is its metric's longest, and the rows reach the diagonal: the first as far as
      there are metrics, the others as far as their own place. */
  ghost predicate InRange(groups: seq<Group>) {
    && 1 <= |groups| <= Width(groups[0].rows)
    && forall g :: 0 <= g < |groups| ==> FirstIsLongest(groups[g].rows) && g < Width(groups[g].rows)
  }

  lemma MaxRowsOk(rows: seq<seq<int>>)
    ensures MaxRows(rows).Ok? <==> FirstIsLongest(rows)
    ensures !MaxRows(rows).Failed?
  {
  }

  lemma {:induction false} WeightedOkExactlyWhen(groups: seq<Group>)
    ensures WeightedRows(groups).Ok? <==> forall g :: 0 <= g < |groups| ==> FirstIsLongest(groups[g].rows)
  {
    if |groups| > 0 {
      var n := |groups| - 1;
      WeightedOkExactlyWhen(groups[..n]);
      MaxRowsOk(groups[n].rows);
      hide FirstIsLongest, MaxRows, Scaled;
      assert forall g :: 0 <= g < n ==> groups[..n][g] == groups[g];
    }
  }

  /** A tick's target exists exactly when the rows of its metrics are in range. */
  lemma TargetOkExactlyWhen(groups: seq<Group>)
    ensures Target(groups).Ok? <==> InRange(groups)
  {
    hide FirstIsLongest, WeightedRows, Wrap, MaxOf, Percent;
    WeightedOkExactlyWhen(groups);
    if WeightedRows(groups).Ok? {
      WeightedCount(groups);
      var rows := WeightedRows(groups).value;
      forall g | 0 <= g < |groups| ensures |rows[g]| == Width(groups[g].rows) {
        WeightedRowAt(groups, g);
      }
    }
  }

  lemma WrapExact(n: int)
    requires 0 <= n <= MAX_INT32
    ensures Wrap(n) == n
  {
  }

  /** No product in the weighting step wraps. */
  lemma WeightedEntryExact(groups: seq<Group>, g: nat, i: nat)
    requires Fits(groups) && WeightedRows(groups).Ok? && g < |groups|
    ensures |WeightedRows(groups).value| == |groups|
    ensures var row := WeightedRows(groups).value[g];
            i < |row| ==> row[i] == groups[g].weight * ColumnMax(groups[g].rows, i) && 0 <= row[i] <= MAX_INT32
  {
    hide Wrap, ColumnMax, WeightedRows;
    WeightedRowAt(groups, g);
    ColumnMaxFits(groups[g].weight, groups[g].rows, i);
    WrapExact(groups[g].weight * ColumnMax(groups[g].rows, i));
  }

  /** The candidate targets of a tick, one per horizon column. */
  function Candidates(groups: seq<Group>): seq<int>
    requires Target(groups).Ok?
  {
    Diagonal(WeightedRows(groups).value).value
  }

  /** If every product of a weight and a count fits, every int32 from the weighting to the
      selection is exact: candidate `i` is weight times count of metric `i` in column `i`. */
  lemma TargetExact(groups: seq<Group>)
    requires Fits(groups) && Target(groups).Ok?
    ensures var c := Candidates(groups);
            && Target(groups) == Ok(Percent(MaxOf(c)))
            && forall i :: 0 <= i < |c| ==>
                 c[i] == if i < |groups| then groups[i].weight * ColumnMax(groups[i].rows, i) else 0
  {
    hide Wrap, ColumnMax, WeightedRows;
    WeightedCount(groups);
    var rows, c := WeightedRows(groups).value, Candidates(groups);
    forall i | 0 <= i < |c|
      ensures c[i] == if i < |groups| then groups[i].weight * ColumnMax(groups[i].rows, i) else 0
    {
      if i < |groups| {
        WeightedEntryExact(groups, i, i);
        assert c[i] == Wrap(rows[i][i]) == rows[i][i];
      }
    }
  }

  /** There are as many candidates as the first metric has columns. */
  lemma CandidateCount(groups: seq<Group>)
    requires Target(groups).Ok?
    ensures |groups| >= 1 && |Candidates(groups)| == Width(groups[0].rows)
  {
    hide Wrap, WeightedRows, MaxOf, Percent;
    WeightedCount(groups);
    WeightedRowAt(groups, 0);
  }

  // ---------------------------------------------------------------- monotonicity

  /** The same metrics and horizons with counts at least as large. */
  ghost predicate RowsBelow(rows: seq<seq<int>>, rows': seq<seq<int>>) {
    && |rows| == |rows'|
    && (forall j :: 0 <= j < |rows| ==> |rows[j]| == |rows'[j]|)
    && (forall j, i :: 0 <= j < |rows| && 0 <= i < |rows[j]| ==> rows[j][i] <= rows'[j][i])
  }

  ghost predicate GroupsBelow(groups: seq<Group>, groups': seq<Group>) {
    && |groups| == |groups'|
    && forall g :: 0 <= g < |groups| ==>
         groups[g].weight == groups'[g].weight && RowsBelow(groups[g].rows, groups'[g].rows)
  }

  lemma {:induction false} ColumnMaxMonotone(rows: seq<seq<int>>, rows': seq<seq<int>>, i: nat)
    requires RowsBelow(rows, rows')
    ensures ColumnMax(rows, i) <= ColumnMax(rows', i)
  {
    if |rows| > 0 {
      ColumnMaxMonotone(rows[..|rows| - 1], rows'[..|rows| - 1], i);
    }
  }

  lemma SameShape(rows: seq<seq<int>>, rows': seq<seq<int>>)
    requires RowsBelow(rows, rows')
    ensures MaxRows(rows).Ok? == MaxRows(rows').Ok?
    ensures MaxRows(rows).Ok? ==> |MaxRows(rows).value| == |MaxRows(rows').value|
  {
  }

  lemma {:induction false} WeightedSameShape(groups: seq<Group>, groups': seq<Group>)
    requires GroupsBelow(groups, groups') && WeightedRows(groups).Ok?
    ensures WeightedRows(groups').Ok? && |WeightedRows(groups').value| == |WeightedRows(groups).value|
    ensures forall g :: 0 <= g < |WeightedRows(groups).value| ==>
              |WeightedRows(groups).value[g]| == |WeightedRows(groups').value[g]|
  {
    hide ColumnMax, MaxRows;
    if |groups| > 0 {
      var n := |groups| - 1;
      assert forall g :: 0 <= g < n ==> groups[..n][g] == groups[g] && groups'[..n][g] == groups'[g];
      WeightedSameShape(groups[..n], groups'[..n]);
      SameShape(groups[n].rows, groups'[n].rows);
    }
  }

  lemma MaxOfMonotone(x: seq<int>, y: seq<int>)
    requires 1 <= |x| == |y| && forall i :: 0 <= i < |x| ==> x[i] <= y[i]
    ensures MaxOf(x) <= MaxOf(y)
  {
    var i :| 0 <= i < |x| && x[i] == MaxOf(x);
    assert y[i] <= MaxOf(y);
  }

  lemma TargetSameShape(groups: seq<Group>, groups': seq<Group>)
    requires GroupsBelow(groups, groups') && Target(groups).Ok?
    ensures Target(groups').Ok? && |Candidates(groups')| == |Candidates(groups)| >= 1
  {
    hide Wrap, ColumnMax, WeightedRows, MaxOf, Percent;
    WeightedSameShape(groups, groups');
  }

  lemma CandidateMonotone(group: Group, group': Group, i: nat)
    requires 0 <= group.weight == group'.weight && RowsBelow(group.rows, group'.rows)
    ensures group.weight * ColumnMax(group.rows, i) <= group'.weight * ColumnMax(group'.rows, i)
  {
    ColumnMaxMonotone(group.rows, group'.rows, i);
    ProductBetween(group.weight, ColumnMax(group.rows, i), ColumnMax(group.rows, i), ColumnMax(group'.rows, i));
  }

  /** Raising counts never lowers the target, for any fixed order of the metrics. */
  lemma TargetMonotone(groups: seq<Group>, groups': seq<Group>)
    requires Fits(groups) && Fits(groups') && GroupsBelow(groups, groups') && Target(groups).Ok?
    ensures Target(groups').Ok? && Target(groups).value <= Target(groups').value
  {
    hide Target, Candidates, ColumnMax, MaxOf, RowsBelow, RowsFit;
    TargetSameShape(groups, groups');
    TargetExact(groups);
    TargetExact(groups');
    var c, c' := Candidates(groups), Candidates(groups');
    forall i | 0 <= i < |c| ensures c[i] <= c'[i] {
      if i < |groups| {
        CandidateMonotone(groups[i], groups'[i], i);
      }
    }
    MaxOfMonotone(c, c');
  }

  /** One metric's forecasts: what its models predict, before conversion to replicas. */
  datatype Forecasts = Forecasts(weight: int, target: real, predictions: seq<seq<real>>)

  ghost function ToGroups(fs: seq<Forecasts>): (r: seq<Group>)
    requires forall g :: 0 <= g < |fs| ==> fs[g].target > 0.0
    ensures |r| == |fs|
  {
    seq(|fs|, g requires 0 <= g < |fs| =>
      Group(fs[g].weight, ReplicaRows(fs[g].target, fs[g].predictions)))
  }

  ghost predicate PredictionsBelow(p: seq<seq<real>>, p': seq<seq<real>>) {
    && |p| == |p'|
    && (forall j :: 0 <= j < |p| ==> |p[j]| == |p'[j]|)
    && (forall j, i :: 0 <= j < |p| && 0 <= i < |p[j]| ==> p[j][i] <= p'[j][i])
  }

  ghost predicate ForecastsBelow(fs: seq<Forecasts>, fs': seq<Forecasts>) {
    && |fs| == |fs'|
    && forall g :: 0 <= g < |fs| ==>
         && fs[g].weight == fs'[g].weight && fs[g].target == fs'[g].target > 0.0
         && PredictionsBelow(fs[g].predictions, fs'[g].predictions)
  }

  lemma RowsBelowFromPredictions(weight: int, target: real, p: seq<seq<real>>, p': seq<seq<real>>)
    requires target > 0.0 && 0 <= weight && PredictionsBelow(p, p') && RowsFit(weight, ReplicaRows(target, p'))
    ensures RowsBelow(ReplicaRows(target, p), ReplicaRows(target, p'))
    ensures RowsFit(weight, ReplicaRows(target, p))
  {
    hide Replicas;
    var rows, rows' := ReplicaRows(target, p), ReplicaRows(target, p');
    forall j, i | 0 <= j < |rows| && 0 <= i < |rows[j]|
      ensures 0 <= rows[j][i] <= rows'[j][i] && weight * rows[j][i] <= MAX_INT32
    {
      ReplicasMonotone(target, p[j][i], p'[j][i]);
      ReplicasAreLeast(target, p[j][i], 0);
      ProductBetween(weight, rows[j][i], rows[j][i], rows'[j][i]);
      assert weight * rows'[j][i] <= MAX_INT32;
    }
  }

  /** End to end: raising any predictions never lowers the replica target. */
  lemma RaisingPredictionsNeverLowersTarget(fs: seq<Forecasts>, fs': seq<Forecasts>)
    requires ForecastsBelow(fs, fs') && Fits(ToGroups(fs')) && Target(ToGroups(fs)).Ok?
    ensures Target(ToGroups(fs')).Ok? && Target(ToGroups(fs)).value <= Target(ToGroups(fs')).value
  {
    hide Replicas, ColumnMax, Target;
    var groups, groups' := ToGroups(fs), ToGroups(fs');
    forall g | 0 <= g < |fs|
      ensures groups[g].weight == groups'[g].weight && RowsBelow(groups[g].rows, groups'[g].rows)
      ensures 0 <= groups[g].weight && RowsFit(groups[g].weight, groups[g].rows)
    {
      assert RowsFit(groups'[g].weight, groups'[g].rows);
      RowsBelowFromPredictions(fs[g].weight, fs[g].target, fs[g].predictions, fs'[g].predictions);
    }
    TargetMonotone(groups, groups');
  }

  // ---------------------------------------------------------------- one metric

  lemma OneRow(row: seq<int>, i: nat)
    requires i < |row| && row[i] >= 0
    ensures ColumnMax([row], i) == row[i]
  {
    assert [row][..0] == [];
  }

  lemma OneGroup(weight: int, row: seq<int>)
    requires forall i :: 0 <= i < |row| ==> row[i] >= 0
    ensures WeightedRows([Group(weight, [row])]) == Ok([Scaled(weight, row)])
  {
    forall i | 0 <= i < |row| ensures ColumnMax([row], i) == row[i] {
      OneRow(row, i);
    }
    assert MaxRows([row]).value == row;
    var groups := [Group(weight, [row])];
    assert WeightedRows(groups[..0]) == Ok([]);
    assert [] + [Scaled(weight, row)] == [Scaled(weight, row)];
  }

  /** With one metric of one model, the target reads column zero of its row and nothing else. */
  lemma OneMetricReadsFirstColumn(weight: int, row: seq<int>)
    requires 0 <= weight && |row| >= 1 && RowsFit(weight, [row])
    ensures Target([Group(weight, [row])]) == Ok(Percent(weight * row[0]))
  {
    hide Wrap, ColumnMax, WeightedRows;
    var groups := [Group(weight, [row])];
    assert row == [row][0];
    OneGroup(weight, row);
    TargetExact(groups);
    var c := Candidates(groups);
    OneRow(row, 0);
    assert c[0] == weight * row[0];
    assert MaxOf(c) == c[0];
  }

  /** The whole pipeline on the sample configuration, one Holt-Winters metric with weight 100:
      the target is the count for the OLDEST sample of the window. It does not depend on the
      smoothing weights, the season length, the horizon or any later sample. */
  lemma SingleHoltWintersTargetIsOldestSample(p: HoltWinters.Params, x: seq<real>, target: real)
    requires HoltWinters.Defined(p, |x|) && HoltWinters.OutputLength(p, |x|) >= 1 && target > 0.0
    requires RowsFit(100, [ReplicaRow(target, HoltWinters.Smoothing(p, x).value)])
    ensures Target([Group(100, [ReplicaRow(target, HoltWinters.Smoothing(p, x).value)])])
         == Ok(Replicas(target, x[0]))
  {
    hide Replicas, Target;
    var row := ReplicaRow(target, HoltWinters.Smoothing(p, x).value);
    OneMetricReadsFirstColumn(100, row);
    assert HoltWinters.Smoothing(p, x).value[0] == x[0];
    assert row[0] == Replicas(target, x[0]);
    assert row == [row][0] && row[0] >= 0;
  }
}
