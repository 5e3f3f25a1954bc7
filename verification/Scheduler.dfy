/** The second half of a scheduler tick, from the received rows to the write of the replica
    count (scheduler/scheduler.go:124-171). */
module Scheduler {
  import opened Domain
  import opened Keys
  import opened Strategies
  import opened ScalingLaws
  import opened TickLaws
  import opened Grouping
  import opened Orders
  import Replicas

  /** The groups that are weighted: a metric that is no longer stored is passed over. */
  function TickGroups(pairs: seq<Pair>, weights: map<string, int>, order: seq<string>): seq<Group> {
    if |order| == 0 then []
    else
      var k, rest := order[|order| - 1], TickGroups(pairs, weights, order[..|order| - 1]);
      if k in weights then rest + [Group(weights[k], RowsOf(pairs, k))] else rest
  }

  /** The target of a tick; the rows of every metric are maximised before any is weighted. */
  ghost function TickTarget(pairs: seq<Pair>, weights: map<string, int>, order: seq<string>): Outcome<int> {
    if exists j :: 0 <= j < |order| && !MaxRows(RowsOf(pairs, order[j])).Ok? then Panicked
    else Target(TickGroups(pairs, weights, order))
  }

  /** The visited metrics that are still stored. */
  function StoredOrder(weights: map<string, int>, order: seq<string>): (r: seq<string>)
    ensures forall k :: k in r <==> k in order && k in weights
  {
    if |order| == 0 then []
    else
      var n := |order| - 1;
      assert order == order[..n] + [order[n]];
      var rest := StoredOrder(weights, order[..n]);
      if order[n] in weights then rest + [order[n]] else rest
  }

  lemma {:induction false} TickGroupsAre(pairs: seq<Pair>, weights: map<string, int>, order: seq<string>)
    ensures |TickGroups(pairs, weights, order)| == |StoredOrder(weights, order)|
    ensures forall g :: 0 <= g < |StoredOrder(weights, order)| ==>
              var k := StoredOrder(weights, order)[g];
              k in weights && TickGroups(pairs, weights, order)[g] == Group(weights[k], RowsOf(pairs, k))
  {
    hide RowsOf;
    if |order| > 0 {
      TickGroupsAre(pairs, weights, order[..|order| - 1]);
    }
  }

  /** The received rows are in range for this order of the metrics: every metric's first row is its
      longest, some metric is stored, the first stored metric's row is as long as there are stored
      metrics, and each one's reaches its own place. */
  ghost predicate TickInRange(pairs: seq<Pair>, weights: map<string, int>, order: seq<string>) {
    var stored := StoredOrder(weights, order);
    && (forall j :: 0 <= j < |order| ==> FirstIsLongest(RowsOf(pairs, order[j])))
    && 1 <= |stored| <= Width(RowsOf(pairs, stored[0]))
    && forall g :: 0 <= g < |stored| ==> g < Width(RowsOf(pairs, stored[g]))
  }

  lemma TickOkExactlyWhen(pairs: seq<Pair>, weights: map<string, int>, order: seq<string>)
    ensures TickTarget(pairs, weights, order).Ok? <==> TickInRange(pairs, weights, order)
  {
    hide RowsOf, FirstIsLongest, TickGroups, Target, Width;
    var groups, stored := TickGroups(pairs, weights, order), StoredOrder(weights, order);
    forall k ensures MaxRows(RowsOf(pairs, k)).Ok? <==> FirstIsLongest(RowsOf(pairs, k)) {
      MaxRowsOk(RowsOf(pairs, k));
    }
    TickGroupsAre(pairs, weights, order);
    TargetOkExactlyWhen(groups);
    forall g | 0 <= g < |stored| && forall j :: 0 <= j < |order| ==> FirstIsLongest(RowsOf(pairs, order[j]))
      ensures FirstIsLongest(groups[g].rows)
    {
      assert stored[g] in stored;
    }
  }

  /** Each weight is non-negative, and its products with its metric's counts fit an int32. */
  ghost predicate WeightsFit(pairs: seq<Pair>, weights: map<string, int>) {
    forall k :: k in weights ==> 0 <= weights[k] && RowsFit(weights[k], RowsOf(pairs, k))
  }

  /** One candidate per column of the first stored metric: that of the metric in its own place, each
      weighted by its own weight. */
  ghost function TickCandidates(pairs: seq<Pair>, weights: map<string, int>, order: seq<string>): (c: seq<int>)
    requires |StoredOrder(weights, order)| >= 1
  {
    var stored := StoredOrder(weights, order);
    seq(Width(RowsOf(pairs, stored[0])), i requires i >= 0 =>
      if i < |stored| then
        assert stored[i] in stored;
        weights[stored[i]] * ColumnMax(RowsOf(pairs, stored[i]), i)
      else 0)
  }

  /** The target of a tick is a hundredth of its largest candidate, exactly. */
  lemma TickTargetExact(pairs: seq<Pair>, weights: map<string, int>, order: seq<string>)
    requires TickInRange(pairs, weights, order) && WeightsFit(pairs, weights)
    ensures |TickCandidates(pairs, weights, order)| >= 1
    ensures TickTarget(pairs, weights, order) == Ok(Percent(MaxOf(TickCandidates(pairs, weights, order))))
  {
    hide RowsOf, ColumnMax, TickGroups, StoredOrder, Target, Candidates, FirstIsLongest, RowsFit;
    var groups, stored := TickGroups(pairs, weights, order), StoredOrder(weights, order);
    TickOkExactlyWhen(pairs, weights, order);
    TickGroupsAre(pairs, weights, order);
    assert Fits(groups);
    TargetExact(groups);
    CandidateCount(groups);
    assert Candidates(groups) == TickCandidates(pairs, weights, order);
  }

  /** Without a received row the tick ends early. `weights` is what MetricMap holds; the result
      says whether a new count was written. */
  method Tick(pairs: seq<Pair>, weights: map<string, int>, order: seq<string>,
              scaler: Replicas.Scaler, readOk: bool, writeOk: bool) returns (r: Outcome<bool>)
    requires Enumerates(order, Metrics(pairs))
    modifies scaler
    ensures pairs == [] ==> r == Ok(false)
    ensures r.Ok? <==> pairs == [] || TickInRange(pairs, weights, order)
    ensures !r.Failed? && (pairs != [] && r.Ok? ==> TickTarget(pairs, weights, order).Ok?)
    ensures pairs != [] && r.Ok? ==>
              (r.value <==> readOk && writeOk && old(scaler.replicas) < TickTarget(pairs, weights, order).value)
    ensures scaler.replicas ==
              if pairs != [] && r.Ok?
              then Replicas.After(scaler.bounds, old(scaler.replicas),
                                  Replicas.UpTo(TickTarget(pairs, weights, order).value, readOk, writeOk))
              else old(scaler.replicas)
  {
    hide GetNoModelKey, MaxRows, Target, TickInRange;
    TickOkExactlyWhen(pairs, weights, order);
    if |pairs| == 0 {
      return Ok(false);
    }
    var modelReplicas := GroupByMetric(pairs);
    for i := 0 to |order|
      invariant scaler.replicas == old(scaler.replicas)
      invariant forall j :: 0 <= j < i ==> MaxRows(RowsOf(pairs, order[j])).Ok?
    {
      assert order[i] in order;
      var row := MaxStrategy(modelReplicas[order[i]]);
      if !row.Ok? {
        return Panicked;
      }
    }
    var groups := [];
    for i := 0 to |order|
      invariant scaler.replicas == old(scaler.replicas)
      invariant groups == TickGroups(pairs, weights, order[..i])
    {
      assert order[..i + 1][..i] == order[..i];
      assert order[i] in order;
      if order[i] in weights {
        groups := groups + [Group(weights[order[i]], modelReplicas[order[i]])];
      }
    }
    assert order[..|order|] == order;
    var target := ComputeTarget(groups);
    if !target.Ok? {
      return Panicked;
    }
    var ok := scaler.UpTo(target.value, readOk, writeOk);
    r := Ok(ok);
  }

  // ---------------------------------------------------------------- order of arrival

  lemma {:induction false} WeightedIgnoresArrivals(pairs: seq<Pair>, pairs': seq<Pair>,
                                                     weights: map<string, int>, order: seq<string>)
    requires multiset(pairs) == multiset(pairs')
    requires forall j :: 0 <= j < |order| ==> EqualLengths(RowsOf(pairs, order[j]))
    ensures WeightedRows(TickGroups(pairs, weights, order)) == WeightedRows(TickGroups(pairs', weights, order))
  {
    hide MaxRows, RowsOf, Scaled;
    if |order| > 0 {
      var n := |order| - 1;
      var k := order[n];
      assert forall j :: 0 <= j < n ==> order[..n][j] == order[j];
      WeightedIgnoresArrivals(pairs, pairs', weights, order[..n]);
      ArrivalOrderIrrelevant(pairs, pairs', k);
      if k in weights {
        WeightedLast(TickGroups(pairs, weights, order[..n]), Group(weights[k], RowsOf(pairs, k)));
        WeightedLast(TickGroups(pairs', weights, order[..n]), Group(weights[k], RowsOf(pairs', k)));
      }
    }
  }

  lemma WeightedLast(groups: seq<Group>, last: Group)
    ensures WeightedRows(groups + [last]) ==
            match (WeightedRows(groups), MaxRows(last.rows))
            case (Ok(above), Ok(row)) => Ok(above + [Scaled(last.weight, row)])
            case _ => Panicked
  {
    hide MaxRows, Scaled;
    assert (groups + [last])[..|groups|] == groups;
  }

  /** The order in which the goroutines deliver does not reach the target, if the rows of each
      metric have one length. (The order in which the metrics are visited does.) */
  lemma TargetIgnoresArrivals(pairs: seq<Pair>, pairs': seq<Pair>, weights: map<string, int>, order: seq<string>)
    requires multiset(pairs) == multiset(pairs')
    requires forall j :: 0 <= j < |order| ==> EqualLengths(RowsOf(pairs, order[j]))
    ensures TickTarget(pairs, weights, order) == TickTarget(pairs', weights, order)
  {
    hide MaxRows, RowsOf, TickGroups, WeightedRows;
    forall j | 0 <= j < |order|
      ensures MaxRows(RowsOf(pairs, order[j])) == MaxRows(RowsOf(pairs', order[j]))
    {
      ArrivalOrderIrrelevant(pairs, pairs', order[j]);
    }
    WeightedIgnoresArrivals(pairs, pairs', weights, order);
  }
}
