/** What each handler of the reconciler does to the key sets, and to what the keys point at. */
module ReconcilerLaws {
  import opened Domain
  import opened Keys
  import opened Orders
  import opened Reconciler

  // ---------------------------------------------------------------- handleMetrics: values

  ghost predicate DistinctMetrics(spec: Spec) {
    forall a, b :: a in spec.metrics && b in spec.metrics && a != b
      ==> NoModelKey(spec.metrics[a]) != NoModelKey(spec.metrics[b])
  }

  /** What the scheduler reads for a metric key. */
  function MetricRead(s: State, key: string): Metric
    requires MetricsValid(s) && key in s.metricMap
  {
    s.metricCells[s.metricMap[key]]
  }

  lemma {:induction false} AddedCell(s: State, spec: Spec, order: seq<string>)
    requires |order| >= 1 && forall id :: id in order ==> id in spec.metrics
    ensures AddMetrics(s, spec, order).metricCells == s.metricCells + [spec.metrics[order[|order| - 1]]]
  {
    var n := |order| - 1;
    if n >= 1 {
      AddedCell(s, spec, order[..n]);
    }
  }

  /** The stored metric of `id` reads as the spec's. */
  ghost predicate Right(s: State, spec: Spec, id: string) {
    && id in spec.metrics && NoModelKey(spec.metrics[id]) in s.metricMap
    && s.metricMap[NoModelKey(spec.metrics[id])] < |s.metricCells|
    && s.metricCells[s.metricMap[NoModelKey(spec.metrics[id])]] == spec.metrics[id]
  }

  ghost predicate ReadsRight(s: State, spec: Spec) {
    forall id :: id in spec.metrics ==> Right(s, spec, id)
  }

  /** How many metrics the change loop gets past before it meets one that reads right. */
  ghost function Passed(s: State, spec: Spec, order: seq<string>): (n: nat)
    ensures n <= |order|
    ensures forall j :: 0 <= j < n ==> !Right(s, spec, order[j])
    ensures n < |order| ==> Right(s, spec, order[n])
  {
    if |order| == 0 then 0
    else
      var last := |order| - 1;
      var n := Passed(s, spec, order[..last]);
      if n < last || Right(s, spec, order[last]) then n else |order|
  }

  lemma NotYetVisited(spec: Spec, order: seq<string>, id: string)
    requires DistinctMetrics(spec) && id in spec.metrics && id !in order
    requires forall i :: i in order ==> i in spec.metrics
    ensures NoModelKey(spec.metrics[id]) !in VisitedKeys(spec, order)
  {
    hide NoModelKey;
    if |order| > 0 {
      NotYetVisited(spec, order[..|order| - 1], id);
      assert order[|order| - 1] in order;
    }
  }

  lemma KeyInSpec(spec: Spec, id: string)
    requires id in spec.metrics
    ensures NoModelKey(spec.metrics[id]) in MetricKeys(spec)
  {
  }

  lemma VisitedNext(spec: Spec, prefix: seq<string>, id: string)
    requires forall i :: i in prefix + [id] ==> i in spec.metrics
    ensures VisitedKeys(spec, prefix + [id]) == VisitedKeys(spec, prefix) + {NoModelKey(spec.metrics[id])}
  {
    assert (prefix + [id])[..|prefix|] == prefix;
  }

  /** Where the change loop, started from `s`, stands after `order`: the metrics it got past all
      point at its own cell, which reads as the metric it met last; nothing else has moved. */
  ghost predicate ChangedUpTo(s: State, p: Pass, spec: Spec, order: seq<string>, n: nat) {
    && n <= |order| && p.returned == (n < |order|)
    && (forall id :: id in order ==> id in spec.metrics)
    && p.state.metricMap.Keys == s.metricMap.Keys
    && |p.state.metricCells| == |s.metricCells| + 1
    && (forall c :: 0 <= c < |s.metricCells| ==> p.state.metricCells[c] == s.metricCells[c])
    && (|order| > 0 ==>
          p.state.metricCells[|s.metricCells|] == spec.metrics[order[if n < |order| then n else n - 1]])
    && (forall k :: k in s.metricMap ==>
          p.state.metricMap[k] == if k in VisitedKeys(spec, order[..n]) then |s.metricCells| else s.metricMap[k])
  }

  lemma ChangeLoopStart(s: State, spec: Spec)
    requires MetricsValid(s)
    ensures ChangedUpTo(s, ChangeMetrics(s, spec, []), spec, [], 0)
  {
  }

  lemma ChangeLoopStep(s: State, p: Pass, spec: Spec, prefix: seq<string>, id: string, n: nat)
    requires DistinctMetrics(spec) && MetricsValid(s) && MetricsValid(p.state) && id !in prefix
    requires forall i :: i in prefix + [id] ==> i in spec.metrics
    requires id in spec.metrics && NoModelKey(spec.metrics[id]) in p.state.metricMap
    requires ChangedUpTo(s, p, spec, prefix, n)
    ensures ChangedUpTo(s, ChangeMetric(p, spec.metrics[id]), spec, prefix + [id],
                        if n < |prefix| || Right(s, spec, id) then n else n + 1)
  {
    hide NoModelKey, VisitedKeys, DistinctMetrics;
    assert (prefix + [id])[..n] == prefix[..n];
    if !p.returned {
      assert prefix[..n] == prefix && (prefix + [id])[..n + 1] == prefix + [id];
      VisitedNext(spec, prefix, id);
      NotYetVisited(spec, prefix, id);
    }
  }

  lemma {:induction false} ChangeLoop(s: State, spec: Spec, order: seq<string>)
    requires DistinctMetrics(spec) && Stored(s, spec, order) && MetricsValid(s)
    requires forall i, j :: 0 <= i < j < |order| ==> order[i] != order[j]
    ensures ChangedUpTo(s, ChangeMetrics(s, spec, order), spec, order, Passed(s, spec, order))
  {
    hide NoModelKey, ChangedUpTo, ChangeMetric, VisitedKeys, DistinctMetrics, Right, MetricsValid;
    if |order| == 0 {
      assert order == [];
      ChangeLoopStart(s, spec);
    } else {
      var n := |order| - 1;
      assert order[n] in order;
      ChangeLoop(s, spec, order[..n]);
      assert order == order[..n] + [order[n]];
      ChangeLoopStep(s, ChangeMetrics(s, spec, order[..n]), spec, order[..n], order[n], Passed(s, spec, order[..n]));
    }
  }

  /** What the change loop works on: new keys read as the metric the add loop visited last. */
  lemma KeptReads(s: State, spec: Spec, addOrder: seq<string>, id: string)
    requires Valid(s) && DistinctMetrics(spec) && Enumerates(addOrder, spec.metrics.Keys) && id in spec.metrics
    ensures |addOrder| >= 1 && forall i :: i in addOrder ==> i in spec.metrics
    ensures Right(DropMetrics(AddMetrics(s, spec, addOrder), spec), spec, id)
       <==> if NoModelKey(spec.metrics[id]) in s.metricMap then Right(s, spec, id) else id == addOrder[|addOrder| - 1]
  {
    hide NoModelKey, MetricKeys, AddMetrics;
    assert id in spec.metrics.Keys && id in addOrder;
    KeptMetricKeys(s, spec, addOrder);
    AddedCell(s, spec, addOrder);
    KeyInSpec(spec, id);
    var lastId := addOrder[|addOrder| - 1];
    assert lastId in addOrder;
  }

  /** The values are right before the change loop. */
  ghost predicate StaysRight(s: State, spec: Spec, addOrder: seq<string>) {
    forall id :: id in spec.metrics ==>
      if NoModelKey(spec.metrics[id]) in s.metricMap then Right(s, spec, id)
      else |addOrder| >= 1 && id == addOrder[|addOrder| - 1]
  }

  ghost predicate AtMostOne(spec: Spec) {
    forall a, b :: a in spec.metrics && b in spec.metrics ==> a == b
  }

  /** The change loop repairs nothing: it leaves the values right exactly when they were right
      before it, or there is at most one. */
  lemma ChangeLoopRepairsNothing(s: State, spec: Spec, order: seq<string>)
    requires DistinctMetrics(spec) && MetricsValid(s) && Enumerates(order, spec.metrics.Keys)
    requires Stored(s, spec, order) && s.metricMap.Keys == MetricKeys(spec)
    ensures ReadsRight(ChangeMetrics(s, spec, order).state, spec) <==> AtMostOne(spec) || ReadsRight(s, spec)
  {
    hide NoModelKey, MetricKeys, ChangeMetrics, VisitedKeys;
    ChangeLoop(s, spec, order);
    var p, n := ChangeMetrics(s, spec, order), Passed(s, spec, order);
    forall id | id in spec.metrics
      ensures id in order && NoModelKey(spec.metrics[id]) in s.metricMap
      ensures NoModelKey(spec.metrics[id]) in VisitedKeys(spec, order[..n]) <==> id in order[..n]
    {
      assert id in spec.metrics.Keys;
      KeyInSpec(spec, id);
      VisitedExactly(spec, order[..n], id);
    }
    if |order| > 0 {
      assert order[0] in order && order[0] in spec.metrics.Keys;
      if n > 0 {
        assert order[0] in order[..n];
        var met := order[if n < |order| then n else n - 1];
        assert met in order && met in spec.metrics;
        assert !Right(s, spec, order[0]);
        assert Right(p.state, spec, order[0]) <==> met == order[0];
        if |order| > 1 {
          assert order[1] in order && order[1] in spec.metrics.Keys;
        }
      }
    }
  }

  lemma VisitedExactly(spec: Spec, order: seq<string>, id: string)
    requires DistinctMetrics(spec) && id in spec.metrics && forall i :: i in order ==> i in spec.metrics
    ensures NoModelKey(spec.metrics[id]) in VisitedKeys(spec, order) <==> id in order
  {
    hide NoModelKey, DistinctMetrics;
    if id in order {
      VisitedKey(spec, order, id);
    } else {
      NotYetVisited(spec, order, id);
    }
  }

  /** handleMetrics leaves every stored metric right exactly when there is at most one, or every
      key that was stored reads right already and the only new one is the add loop's last. An
      edit of a stored metric is thus never taken over beside a second metric: either the loop
      returns at an unchanged one first, or the edited key ends up reading as another. */
  lemma MetricsRightExactlyWhen(s: State, spec: Spec, addOrder: seq<string>, changeOrder: seq<string>)
    requires Valid(s) && DistinctMetrics(spec)
    requires Enumerates(addOrder, spec.metrics.Keys) && Enumerates(changeOrder, spec.metrics.Keys)
    ensures ReadsRight(HandleMetrics(s, spec, addOrder, changeOrder), spec)
       <==> AtMostOne(spec) || StaysRight(s, spec, addOrder)
  {
    hide NoModelKey, MetricKeys, AddMetrics, ChangeMetrics, DistinctMetrics, Right;
    KeptMetricKeys(s, spec, addOrder);
    var kept := DropMetrics(AddMetrics(s, spec, addOrder), spec);
    SpecMetricsStored(kept, spec, changeOrder);
    ChangeLoopRepairsNothing(kept, spec, changeOrder);
    forall id | id in spec.metrics
      ensures |addOrder| >= 1
      ensures Right(kept, spec, id)
         <==> if NoModelKey(spec.metrics[id]) in s.metricMap then Right(s, spec, id) else id == addOrder[|addOrder| - 1]
    {
      KeptReads(s, spec, addOrder, id);
    }
  }

  /** On the first call no key is stored, so the values come out right exactly for at most one
      metric. */
  lemma FirstMetricsRightExactlyForOne(s: State, spec: Spec, addOrder: seq<string>, changeOrder: seq<string>)
    requires Valid(s) && s.metricMap == map[] && DistinctMetrics(spec)
    requires Enumerates(addOrder, spec.metrics.Keys) && Enumerates(changeOrder, spec.metrics.Keys)
    ensures ReadsRight(HandleMetrics(s, spec, addOrder, changeOrder), spec) <==> AtMostOne(spec)
  {
    hide HandleMetrics, DistinctMetrics;
    MetricsRightExactlyWhen(s, spec, addOrder, changeOrder);
  }

  /** With the keys stored and a second metric, an edited metric never comes out right along with
      the others. */
  lemma EditedMetricsComeOutWrong(s: State, spec: Spec, addOrder: seq<string>, changeOrder: seq<string>, edited: string)
    requires Valid(s) && DistinctMetrics(spec) && MetricKeys(spec) <= s.metricMap.Keys && !AtMostOne(spec)
    requires Enumerates(addOrder, spec.metrics.Keys) && Enumerates(changeOrder, spec.metrics.Keys)
    requires edited in spec.metrics && !Right(s, spec, edited)
    ensures !ReadsRight(HandleMetrics(s, spec, addOrder, changeOrder), spec)
  {
    hide NoModelKey, MetricKeys, HandleMetrics, Right;
    MetricsRightExactlyWhen(s, spec, addOrder, changeOrder);
    KeyInSpec(spec, edited);
  }

  /** The add loop stores the address of one loop variable under every new key. So after the
      first handleMetrics every key reads as the metric that loop visited last. */
  lemma FirstMetricsAllReadAsOne(s: State, spec: Spec, addOrder: seq<string>, changeOrder: seq<string>)
    requires Valid(s) && s.metricMap == map[] && DistinctMetrics(spec) && spec.metrics != map[]
    requires Enumerates(addOrder, spec.metrics.Keys) && Enumerates(changeOrder, spec.metrics.Keys)
    ensures |addOrder| >= 1 && addOrder[|addOrder| - 1] in spec.metrics
    ensures var r := HandleMetrics(s, spec, addOrder, changeOrder);
            forall k :: k in MetricKeys(spec) ==> MetricRead(r, k) == spec.metrics[addOrder[|addOrder| - 1]]
  {
    hide NoModelKey, MetricKeys, AddMetrics, ChangeMetrics, DistinctMetrics, VisitedKeys;
    var some :| some in spec.metrics;
    KeptReads(s, spec, addOrder, some);
    var lastId := addOrder[|addOrder| - 1];
    assert lastId in addOrder && lastId in spec.metrics.Keys;
    assert lastId in changeOrder;
    KeptMetricKeys(s, spec, addOrder);
    AddedCell(s, spec, addOrder);
    KeptReads(s, spec, addOrder, lastId);
    var kept := DropMetrics(AddMetrics(s, spec, addOrder), spec);
    SpecMetricsStored(kept, spec, changeOrder);
    ChangeLoop(kept, spec, changeOrder);
    var n := Passed(kept, spec, changeOrder);
    assert n < |changeOrder| by {
      var j :| 0 <= j < |changeOrder| && changeOrder[j] == lastId;
    }
    assert changeOrder[n] in changeOrder;
  }

  // ---------------------------------------------------------------- handleModels: keys

  function ListKeys(metric: Metric, models: seq<Model>): set<string> {
    if |models| == 0 then {}
    else ListKeys(metric, models[..|models| - 1]) + {WithModelKey(metric, models[|models| - 1].modelType)}
  }

  function VisitedModelKeys(spec: Spec, order: seq<string>): set<string>
    requires forall id :: id in order ==> id in spec.models && id in spec.metrics
  {
    if |order| == 0 then {}
    else
      var last := order[|order| - 1];
      assert last in order;
      VisitedModelKeys(spec, order[..|order| - 1]) + ListKeys(spec.metrics[last], spec.models[last])
  }

  lemma {:induction false} ListKeysAre(metric: Metric, models: seq<Model>)
    ensures forall k :: k in ListKeys(metric, models) <==>
              exists m :: m in models && k == WithModelKey(metric, m.modelType)
  {
    hide WithModelKey;
    if |models| > 0 {
      var n := |models| - 1;
      ListKeysAre(metric, models[..n]);
      assert forall m :: m in models <==> m in models[..n] || m == models[n];
    }
  }

  lemma {:induction false} VisitedModelKeysInSpec(spec: Spec, order: seq<string>)
    requires forall id :: id in order ==> id in spec.models && id in spec.metrics
    ensures VisitedModelKeys(spec, order) <= ModelKeys(spec)
  {
    hide WithModelKey;
    if |order| > 0 {
      var last := order[|order| - 1];
      VisitedModelKeysInSpec(spec, order[..|order| - 1]);
      ListKeysAre(spec.metrics[last], spec.models[last]);
    }
  }

  lemma {:induction false} VisitedModelKey(spec: Spec, order: seq<string>, id: string)
    requires (forall i :: i in order ==> i in spec.models && i in spec.metrics) && id in order
    ensures ListKeys(spec.metrics[id], spec.models[id]) <= VisitedModelKeys(spec, order)
  {
    hide ListKeys;
    var n := |order| - 1;
    if id != order[n] {
      VisitedModelKey(spec, order[..n], id);
    }
  }

  lemma AllModelKeysVisited(spec: Spec, order: seq<string>)
    requires Enumerates(order, spec.models.Keys) && NoOrphans(spec)
    ensures forall id :: id in order ==> id in spec.models && id in spec.metrics
    ensures VisitedModelKeys(spec, order) == ModelKeys(spec)
  {
    hide WithModelKey;
    assert forall id :: id in order ==> id in spec.models.Keys;
    VisitedModelKeysInSpec(spec, order);
    forall k | k in ModelKeys(spec) ensures k in VisitedModelKeys(spec, order) {
      var id, m :| id in spec.models && id in spec.metrics && m in spec.models[id]
                   && k == WithModelKey(spec.metrics[id], m.modelType);
      assert id in spec.models.Keys;
      VisitedModelKey(spec, order, id);
      ListKeysAre(spec.metrics[id], spec.models[id]);
    }
  }

  lemma StoreModelKeys(r: Models, metric: Metric, model: Model)
    requires |r.state.modelCells| >= 1 && ModelsValid(r.state)
    ensures var r', key := StoreModel(r, metric, model), WithModelKey(metric, model.modelType);
            && r'.state.modelMap.Keys == r.state.modelMap.Keys + {key}
            && r'.changes.Keys <= r.changes.Keys + {key}
  {
    hide WithModelKey;
  }

  lemma {:induction false} StoreListKeys(r: Models, metric: Metric, models: seq<Model>)
    requires ModelsValid(r.state)
    ensures var r' := StoreList(r, metric, models);
            && r'.state.modelMap.Keys == r.state.modelMap.Keys + ListKeys(metric, models)
            && r'.changes.Keys <= r.changes.Keys + ListKeys(metric, models)
  {
    hide WithModelKey;
    if |models| > 0 {
      var n := |models| - 1;
      StoreListKeys(r, metric, models[..n]);
      StoreModelKeys(StoreList(r, metric, models[..n]), metric, models[n]);
      hide StoreModel;
    }
  }

  /** handleModels gets through its loop exactly when every model's metric is in the spec. */
  lemma {:induction false} StoreModelsKeys(s: State, spec: Spec, order: seq<string>)
    requires ModelsValid(s) && forall id :: id in order ==> id in spec.models
    ensures var r := StoreModels(s, spec, order);
            && (r.ok <==> forall id :: id in order ==> id in spec.metrics)
            && (r.ok ==> r.state.modelMap.Keys == s.modelMap.Keys + VisitedModelKeys(spec, order))
            && (r.ok ==> r.changes.Keys <= VisitedModelKeys(spec, order))
  {
    hide ListKeys, StoreList;
    if |order| > 0 {
      var n := |order| - 1;
      StoreModelsKeys(s, spec, order[..n]);
      var r := StoreModels(s, spec, order[..n]);
      assert order == order[..n] + [order[n]];
      if r.ok && order[n] in spec.metrics {
        StoreListKeys(r, spec.metrics[order[n]], spec.models[order[n]]);
      }
    }
  }

  lemma {:induction false} FailedStays(s: State, spec: Spec, order: seq<string>, i: nat)
    requires ModelsValid(s) && forall id :: id in order ==> id in spec.models
    requires i <= |order| && !StoreModels(s, spec, order[..i]).ok
    ensures StoreModels(s, spec, order) == StoreModels(s, spec, order[..i])
  {
    if i == |order| {
      assert order[..i] == order;
    } else {
      var n := |order| - 1;
      assert order[..n][..i] == order[..i];
      FailedStays(s, spec, order[..n], i);
    }
  }

  /** The ids visited before the first that has models but no metric. */
  function BeforeOrphan(spec: Spec, order: seq<string>): (r: seq<string>)
    ensures |r| <= |order| && r == order[..|r|]
    ensures forall id :: id in r ==> id in spec.metrics
    ensures |r| < |order| ==> order[|r|] !in spec.metrics
  {
    if |order| == 0 then []
    else
      var n := |order| - 1;
      var r := BeforeOrphan(spec, order[..n]);
      if |r| == n && order[n] in spec.metrics then r + [order[n]] else r
  }

  /** The loop stores the models of exactly those. */
  lemma StopsAtOrphan(s: State, spec: Spec, order: seq<string>)
    requires ModelsValid(s) && forall id :: id in order ==> id in spec.models
    ensures var r, before := StoreModels(s, spec, order), BeforeOrphan(spec, order);
            && r.state == StoreModels(s, spec, before).state
            && (|before| < |order| ==> !r.ok)
  {
    var before := BeforeOrphan(spec, order);
    var n := |before|;
    if n < |order| {
      assert order[..n + 1][..n] == before;
      FailedStays(s, spec, order, n + 1);
    } else {
      assert order == before;
    }
  }

  lemma HandleModelsKeys(s: State, spec: Spec, order: seq<string>)
    requires Valid(s) && Enumerates(order, spec.models.Keys)
    ensures var r := HandleModels(s, spec, order);
            && (r.ok <==> NoOrphans(spec))
            && (r.ok ==> r.state.modelMap.Keys == ModelKeys(spec) && r.changes.Keys <= ModelKeys(spec))
  {
    hide ModelKeys, VisitedModelKeys;
    assert forall id :: id in order <==> id in spec.models.Keys;
    StoreModelsKeys(s, spec, order);
    if NoOrphans(spec) {
      AllModelKeysVisited(spec, order);
    }
  }

  // ---------------------------------------------------------------- handleCollector

  function KeysOf(metrics: seq<Metric>): set<string> {
    if |metrics| == 0 then {} else KeysOf(metrics[..|metrics| - 1]) + {NoModelKey(metrics[|metrics| - 1])}
  }

  lemma {:induction false} MissingKeys(s: State, spec: Spec, order: seq<string>)
    requires forall id :: id in order ==> id in spec.metrics
    ensures KeysOf(MissingMetrics(s, spec, order)) == VisitedKeys(spec, order) - s.collectorMap.Keys
  {
    hide NoModelKey;
    if |order| > 0 {
      var n := |order| - 1;
      MissingKeys(s, spec, order[..n]);
      var rest := MissingMetrics(s, spec, order[..n]);
      assert (rest + [spec.metrics[order[n]]])[..|rest|] == rest;
    }
  }

  lemma {:induction false} StartedKeys(s: State, metrics: seq<Metric>)
    ensures var r := StartWorkers(s, metrics);
            && r.collectorMap.Keys == s.collectorMap.Keys + KeysOf(metrics)
            && r.workerMap.Keys == s.workerMap.Keys + KeysOf(metrics)
            && (forall k :: k in s.workerMap && k !in KeysOf(metrics) ==> r.workerMap[k] == s.workerMap[k])
  {
    hide NoModelKey;
    if |metrics| > 0 {
      StartedKeys(s, metrics[..|metrics| - 1]);
    }
  }

  /** The workers after handleCollector: those of the spec's keys that were running, untouched,
      and new ones for the spec's keys that never had a channel. A key that has a channel but no
      worker stays without. */
  lemma HandleCollectorKeys(s: State, spec: Spec, order: seq<string>)
    requires Valid(s) && Enumerates(order, spec.metrics.Keys)
    ensures var r := HandleCollector(s, spec, order);
            && r.collectorMap.Keys == s.collectorMap.Keys + MetricKeys(spec)
            && (forall k :: k in r.workerMap <==> k in MetricKeys(spec) && (k in s.workerMap || k !in s.collectorMap))
            && (forall k :: k in s.workerMap && k in MetricKeys(spec) ==> r.workerMap[k] == s.workerMap[k])
  {
    hide NoModelKey, MetricKeys, StartWorkers, MissingMetrics, VisitedKeys;
    AllKeysVisited(spec, order);
    MissingKeys(s, spec, order);
    StartedKeys(CloseDropped(s, spec), MissingMetrics(s, spec, order));
  }

  lemma ClosesTwiceFrame(s: State, s': State, spec: Spec)
    requires s'.collectorMap == s.collectorMap && s'.closed == s.closed
    ensures ClosesTwice(s, spec) <==> ClosesTwice(s', spec)
  {
    hide MetricKeys;
  }

  /** Called again for the same spec, handleCollector closes a channel twice exactly when the
      first call dropped a key; otherwise the second call changes nothing. */
  lemma CollectorCalledAgain(s: State, spec: Spec, order: seq<string>, again: seq<string>)
    requires Valid(s) && Enumerates(order, spec.metrics.Keys) && Enumerates(again, spec.metrics.Keys)
    ensures var r := HandleCollector(s, spec, order);
            && (ClosesTwice(r, spec) <==> DroppedKeys(s, spec) != {})
            && (DroppedKeys(s, spec) == {} ==> HandleCollector(r, spec, again) == r)
  {
    hide NoModelKey, MetricKeys;
    HandleCollectorKeys(s, spec, order);
    var r := HandleCollector(s, spec, order);
    assert DroppedKeys(r, spec) == DroppedKeys(s, spec);
    if DroppedKeys(s, spec) != {} {
      var k :| k in DroppedKeys(s, spec);
      assert k !in r.workerMap;
      assert r.collectorMap[k] in r.closed;
    } else {
      AllKeysVisited(spec, again);
      NothingMissing(r, spec, again);
      CloseNone(r);
    }
  }

  lemma {:induction false} NothingMissing(s: State, spec: Spec, order: seq<string>)
    requires (forall id :: id in order ==> id in spec.metrics) && VisitedKeys(spec, order) <= s.collectorMap.Keys
    ensures MissingMetrics(s, spec, order) == []
  {
    hide NoModelKey;
    if |order| > 0 {
      NothingMissing(s, spec, order[..|order| - 1]);
    }
  }
}
