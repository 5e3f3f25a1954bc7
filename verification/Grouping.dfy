/** Sorting the received rows by metric (scheduler/scheduler.go:125-150). */
module Grouping {
  import opened Keys
  import opened Strategies
  import opened ScalingLaws

  /** A ResPair: what one predictor sent. */
  datatype Pair = Pair(modelReplica: seq<int>, withModelKey: string)

  /** The rows of one metric, in order of arrival. */
  function RowsOf(pairs: seq<Pair>, noModelKey: string): seq<seq<int>> {
    if |pairs| == 0 then []
    else
      var last, rows := pairs[|pairs| - 1], RowsOf(pairs[..|pairs| - 1], noModelKey);
      if GetNoModelKey(last.withModelKey) == noModelKey then rows + [last.modelReplica] else rows
  }

  /** The metrics with a row. */
  function Metrics(pairs: seq<Pair>): set<string> {
    set j | 0 <= j < |pairs| :: GetNoModelKey(pairs[j].withModelKey)
  }

  method GroupByMetric(pairs: seq<Pair>) returns (modelReplicas: map<string, seq<seq<int>>>)
    ensures modelReplicas.Keys == Metrics(pairs)
    ensures forall k :: k in modelReplicas ==> modelReplicas[k] == RowsOf(pairs, k)
  {
    hide GetNoModelKey;
    modelReplicas := map[];
    for i := 0 to |pairs|
      invariant modelReplicas.Keys == Metrics(pairs[..i])
      invariant forall k :: RowsOf(pairs[..i], k) == if k in modelReplicas then modelReplicas[k] else []
    {
      assert pairs[..i + 1][..i] == pairs[..i];
      var noModelKey := GetNoModelKey(pairs[i].withModelKey);
      if noModelKey !in modelReplicas {
        modelReplicas := modelReplicas[noModelKey := [pairs[i].modelReplica]];
      } else {
        modelReplicas := modelReplicas[noModelKey := modelReplicas[noModelKey] + [pairs[i].modelReplica]];
      }
    }
    assert pairs[..|pairs|] == pairs;
  }

  // ---------------------------------------------------------------- partition

  function TotalRows(pairs: seq<Pair>, keys: seq<string>): nat {
    if |keys| == 0 then 0
    else TotalRows(pairs, keys[..|keys| - 1]) + |RowsOf(pairs, keys[|keys| - 1])|
  }

  ghost predicate Distinct(keys: seq<string>) {
    forall j, k :: 0 <= j < k < |keys| ==> keys[j] != keys[k]
  }

  /** A further pair lands in one group, if its metric is among the distinct keys. */
  lemma {:induction false} TotalRowsNext(pairs: seq<Pair>, keys: seq<string>)
    requires |pairs| > 0 && Distinct(keys)
    ensures TotalRows(pairs, keys) == TotalRows(pairs[..|pairs| - 1], keys)
              + if GetNoModelKey(pairs[|pairs| - 1].withModelKey) in keys then 1 else 0
  {
    hide GetNoModelKey;
    if |keys| > 0 {
      var n := |keys| - 1;
      TotalRowsNext(pairs, keys[..n]);
      assert keys == keys[..n] + [keys[n]];
    }
  }

  /** The groups partition the pairs: over the distinct metric keys that occur, the group sizes
      add up to the number of pairs. */
  lemma {:induction false} GroupsPartition(pairs: seq<Pair>, keys: seq<string>)
    requires Distinct(keys)
    requires forall k :: k in Metrics(pairs) ==> k in keys
    ensures TotalRows(pairs, keys) == |pairs|
  {
    hide GetNoModelKey;
    if |pairs| == 0 {
      NoRows(pairs, keys);
    } else {
      var n := |pairs| - 1;
      assert forall j :: 0 <= j < n ==> pairs[..n][j] == pairs[j];
      GroupsPartition(pairs[..n], keys);
      TotalRowsNext(pairs, keys);
    }
  }

  lemma {:induction false} NoRows(pairs: seq<Pair>, keys: seq<string>)
    requires pairs == []
    ensures TotalRows(pairs, keys) == 0
  {
    if |keys| > 0 {
      NoRows(pairs, keys[..|keys| - 1]);
    }
  }

  // ---------------------------------------------------------------- order of arrival

  lemma {:induction false} RowsOfSplit(a: seq<Pair>, b: seq<Pair>, key: string)
    ensures RowsOf(a + b, key) == RowsOf(a, key) + RowsOf(b, key)
  {
    hide GetNoModelKey;
    if |b| == 0 {
      assert a + b == a;
    } else {
      var n := |b| - 1;
      RowsOfSplit(a, b[..n], key);
      assert (a + b)[..|a| + n] == a + b[..n];
    }
  }

  lemma RowsOfWithout(pairs: seq<Pair>, key: string, k: nat)
    requires k < |pairs|
    ensures multiset(RowsOf(pairs, key)) == multiset(RowsOf(Without(pairs, k), key)) + multiset(RowsOf([pairs[k]], key))
    ensures multiset(Without(pairs, k)) == multiset(pairs) - multiset{pairs[k]}
  {
    hide GetNoModelKey;
    var one := [pairs[k]];
    assert pairs == pairs[..k] + one + pairs[k + 1..];
    RowsOfSplit(pairs[..k] + one, pairs[k + 1..], key);
    RowsOfSplit(pairs[..k], one, key);
    RowsOfSplit(pairs[..k], pairs[k + 1..], key);
    assert multiset(pairs) == multiset(Without(pairs, k)) + multiset{pairs[k]};
  }

  lemma {:induction false} GroupsFollowArrivals(pairs: seq<Pair>, pairs': seq<Pair>, key: string)
    requires multiset(pairs) == multiset(pairs')
    ensures multiset(RowsOf(pairs, key)) == multiset(RowsOf(pairs', key))
    decreases |pairs|
  {
    hide GetNoModelKey, RowsOf;
    assert |multiset(pairs)| == |pairs| && |multiset(pairs')| == |pairs'|;
    if |pairs| == 0 {
      assert pairs == pairs';
    } else {
      var n := |pairs| - 1;
      assert pairs[n] in multiset(pairs');
      var k :| 0 <= k < |pairs'| && pairs'[k] == pairs[n];
      RowsOfWithout(pairs, key, n);
      RowsOfWithout(pairs', key, k);
      GroupsFollowArrivals(Without(pairs, n), Without(pairs', k), key);
    }
  }

  /** Whatever order the goroutines deliver in, the maximum row of a metric is the same if its
      models' rows have one length. */
  lemma ArrivalOrderIrrelevant(pairs: seq<Pair>, pairs': seq<Pair>, key: string)
    requires multiset(pairs) == multiset(pairs') && EqualLengths(RowsOf(pairs, key))
    ensures MaxRows(RowsOf(pairs', key)) == MaxRows(RowsOf(pairs, key))
  {
    hide RowsOf, MaxRows;
    GroupsFollowArrivals(pairs, pairs', key);
    EqualLengthsUnordered(RowsOf(pairs, key), RowsOf(pairs', key));
  }
}
