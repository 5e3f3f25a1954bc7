/** What a tick reads of the stored metrics (scheduler/scheduler.go:75, :93, :156-161): the weight and
    the target of each metric come through the pointers that the reconciler has stored. */
module TickMetrics {
  import opened Domain
  import opened Grouping
  import opened MetricRuns
  import opened Orders
  import opened Reconciler
  import opened ReconcilerLaws
  import opened Runs
  import opened Scheduler
  import opened Strategies
  import opened TickLaws

  function WeightsOf(s: State): map<string, int>
    requires MetricsValid(s)
  {
    map k | k in s.metricMap :: s.metricCells[s.metricMap[k]].weight
  }

  function TargetsOf(s: State): map<string, string>
    requires MetricsValid(s)
  {
    map k | k in s.metricMap :: s.metricCells[s.metricMap[k]].target
  }

  /** After the first pass every metric has the weight and the target of the one that handleMetrics
      added last. */
  lemma FirstPassSharesWeightAndTarget(s: State, spec: Spec, ch: Choices)
    requires Valid(s) && s.metricMap == map[] && DistinctMetrics(spec) && spec.metrics != map[] && Legal(ch, spec)
    ensures |ch.metricAdd| >= 1 && ch.metricAdd[|ch.metricAdd| - 1] in spec.metrics
    ensures var s', last := Update(s, spec, ch).0, spec.metrics[ch.metricAdd[|ch.metricAdd| - 1]];
            && MetricsValid(s')
            && WeightsOf(s') == (map k | k in MetricKeys(spec) :: last.weight)
            && TargetsOf(s') == (map k | k in MetricKeys(spec) :: last.target)
  {
    hide MetricKeys, HandleMetrics, Update, DistinctMetrics, Enumerates;
    FirstMetricsAllReadAsOne(s, spec, ch.metricAdd, ch.metricChange);
    HandledValid(s, spec, ch.metricAdd, ch.metricChange);
    UpdateMetrics(s, spec, ch);
    var r, s' := HandleMetrics(s, spec, ch.metricAdd, ch.metricChange), Update(s, spec, ch).0;
    forall k | k in MetricKeys(spec)
      ensures k in s'.metricMap && s'.metricCells[s'.metricMap[k]] == spec.metrics[ch.metricAdd[|ch.metricAdd| - 1]]
    {
      assert k in r.metricMap.Keys;
      assert MetricRead(r, k) == spec.metrics[ch.metricAdd[|ch.metricAdd| - 1]];
    }
    assert forall k :: k in s'.metricMap ==> k in r.metricMap.Keys;
  }

  /** So the target of a tick after it is a hundredth of the largest product of that one weight with
      a count on the diagonal, however the spec weighs the metrics. */
  lemma FirstTickTarget(s: State, spec: Spec, ch: Choices, weights: map<string, int>,
                        pairs: seq<Pair>, order: seq<string>)
    requires Valid(s) && s.metricMap == map[] && DistinctMetrics(spec) && spec.metrics != map[] && Legal(ch, spec)
    requires MetricsValid(Update(s, spec, ch).0) && weights == WeightsOf(Update(s, spec, ch).0)
    requires TickInRange(pairs, weights, order) && WeightsFit(pairs, weights)
    ensures |ch.metricAdd| >= 1 && ch.metricAdd[|ch.metricAdd| - 1] in spec.metrics
    ensures var w, stored := spec.metrics[ch.metricAdd[|ch.metricAdd| - 1]].weight, StoredOrder(weights, order);
            var c := TickCandidates(pairs, weights, order);
            && |c| >= 1 && TickTarget(pairs, weights, order) == Ok(Percent(MaxOf(c)))
            && forall i :: 0 <= i < |c| ==>
                 c[i] == if i < |stored| then w * ColumnMax(RowsOf(pairs, stored[i]), i) else 0
  {
    hide MetricKeys, HandleMetrics, Update, DistinctMetrics, Legal, Valid, RowsOf, ColumnMax, StoredOrder, WeightsFit,
         TickTarget;
    FirstPassSharesWeightAndTarget(s, spec, ch);
    TickTargetExact(pairs, weights, order);
    var stored := StoredOrder(weights, order);
    forall i | 0 <= i < |stored| ensures stored[i] in weights {
      assert stored[i] in stored;
    }
  }
}
