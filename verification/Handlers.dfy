/** The shared maps as a mutable object (common/aomtype/type.go:13-30), and the reconciler's
    handlers (controllers/aom_controller.go:259-514) as methods that update it in place. Each is
    proved to compute the function of the same name in Reconciler, for every visiting order. */
module Handlers {
  import opened Domain
  import opened Keys
  import opened Orders
  import opened Reconciler
  import opened ReconcilerLaws

  /** The delete loop of three of the handlers: every stored key that the spec does not have goes. */
  method DeleteOthers<V>(m: map<string, V>, keys: set<string>) returns (r: map<string, V>)
    ensures r == Keep(m, keys)
  {
    r := m;
    var left := m.Keys;
    while left != {}
      invariant left <= m.Keys
      invariant forall k :: k in r <==> k in m && (k in keys || k in left)
      invariant forall k :: k in r ==> r[k] == m[k]
      decreases left
    {
      var k :| k in left;
      if k !in keys {
        r := r - {k};
      }
      left := left - {k};
    }
  }

  class Hide {
    var metricMap: map<string, nat>
    var metricCells: seq<Metric>
    var modelMap: map<string, nat>
    var modelCells: seq<Model>
    var collectorMap: map<string, nat>
    var workerMap: map<string, nat>
    var started: seq<string>
    var closed: set<nat>
    var predictorMap: map<string, Predictor>

    function View(): State
      reads this
    {
      State(metricMap, metricCells, modelMap, modelCells, collectorMap, workerMap, started, closed, predictorMap)
    }

    constructor ()
      ensures View() == EMPTY
    {
      metricMap, metricCells, modelMap, modelCells := map[], [], map[], [];
      collectorMap, workerMap, started, closed, predictorMap := map[], map[], [], {}, map[];
    }

    /** The load before the last comparison cannot fail: the add loop has stored every key. */
    method HandleMetrics(spec: Spec, addOrder: seq<string>, changeOrder: seq<string>)
      requires Valid(View())
      requires Enumerates(addOrder, spec.metrics.Keys) && Enumerates(changeOrder, spec.metrics.Keys)
      modifies this
      ensures View() == Reconciler.HandleMetrics(old(View()), spec, addOrder, changeOrder)
    {
      hide NoModelKey, WithModelKey, GetNoModelKey, GetWithModelKey, MetricKeys, ModelKeys, Keep;
      ghost var s0 := View();
      AddMetricsLoop(spec, addOrder);
      metricMap := DeleteOthers(metricMap, MetricKeys(spec));
      KeptMetricKeys(s0, spec, addOrder);
      assert View() == DropMetrics(AddMetrics(s0, spec, addOrder), spec);
      SpecMetricsStored(View(), spec, changeOrder);
      ChangeMetricsLoop(spec, changeOrder);
    }

    method AddMetricsLoop(spec: Spec, order: seq<string>)
      requires forall id :: id in order ==> id in spec.metrics
      modifies this
      ensures View() == AddMetrics(old(View()), spec, order)
    {
      ghost var s0 := View();
      metricCells := metricCells + [ZERO_METRIC];
      hide AddMetric;
      for i := 0 to |order|
        invariant View() == AddMetrics(s0, spec, order[..i])
      {
        assert order[..i + 1][..i] == order[..i];
        AddOne(spec.metrics[order[i]]);
      }
      assert order[..|order|] == order;
    }

    /** The loop variable is the newest cell. */
    method AddOne(metric: Metric)
      requires |metricCells| >= 1
      modifies this
      ensures View() == AddMetric(old(View()), metric)
    {
      hide NoModelKey;
      var cell := |metricCells| - 1;
      metricCells := metricCells[cell := metric];
      var key := NoModelKey(metric);
      if key !in metricMap {
        metricMap := metricMap[key := cell];
      }
    }

    method ChangeMetricsLoop(spec: Spec, order: seq<string>)
      requires Stored(View(), spec, order) && MetricsValid(View())
      modifies this
      ensures View() == ChangeMetrics(old(View()), spec, order).state
    {
      ghost var s0 := View();
      metricCells := metricCells + [ZERO_METRIC];
      hide ChangeMetric, NoModelKey;
      for i := 0 to |order|
        invariant ChangeMetrics(s0, spec, order[..i]) == Pass(View(), false)
      {
        assert order[..i + 1][..i] == order[..i];
        var same := ChangeOne(spec.metrics[order[i]]);
        if same {
          ReturnedStays(s0, spec, order, i + 1);
          return;
        }
      }
      assert order[..|order|] == order;
    }

    method ChangeOne(metric: Metric) returns (same: bool)
      requires |metricCells| >= 1 && MetricsValid(View()) && NoModelKey(metric) in metricMap
      modifies this
      ensures Pass(View(), same) == ChangeMetric(Pass(old(View()), false), metric)
    {
      hide NoModelKey;
      var cell := |metricCells| - 1;
      metricCells := metricCells[cell := metric];
      var key := NoModelKey(metric);
      same := metricCells[metricMap[key]] == metric;
      if !same {
        metricMap := metricMap[key := cell];
      }
    }

    method HandleModels(spec: Spec, order: seq<string>) returns (changeMap: map<string, Model>, ok: bool)
      requires Valid(View()) && Enumerates(order, spec.models.Keys)
      modifies this
      ensures Models(View(), changeMap, ok) == Reconciler.HandleModels(old(View()), spec, order)
    {
      hide NoModelKey, WithModelKey, GetNoModelKey, GetWithModelKey, MetricKeys, ModelKeys, Keep;
      ghost var s0 := View();
      changeMap := map[];
      for i := 0 to |order|
        invariant StoreModels(s0, spec, order[..i]) == Models(View(), changeMap, true)
      {
        assert order[..i + 1][..i] == order[..i];
        var id := order[i];
        assert id in spec.models.Keys;
        if id !in spec.metrics {
          FailedStays(s0, spec, order, i + 1);
          return changeMap, false;
        }
        changeMap := StoreListLoop(spec.metrics[id], spec.models[id], changeMap);
      }
      assert order[..|order|] == order;
      modelMap := DeleteOthers(modelMap, ModelKeys(spec));
      ok := true;
    }

    method StoreListLoop(metric: Metric, models: seq<Model>, changeMap: map<string, Model>)
      returns (changes: map<string, Model>)
      requires ModelsValid(View())
      modifies this
      ensures Models(View(), changes, true) == StoreList(Models(old(View()), changeMap, true), metric, models)
    {
      ghost var r0 := Models(View(), changeMap, true);
      changes := changeMap;
      modelCells := modelCells + [ZERO_MODEL];
      hide StoreModel;
      for i := 0 to |models|
        invariant StoreList(r0, metric, models[..i]) == Models(View(), changes, true)
      {
        assert models[..i + 1][..i] == models[..i];
        changes := StoreOne(metric, models[i], changes);
      }
      assert models[..|models|] == models;
    }

    method StoreOne(metric: Metric, model: Model, changeMap: map<string, Model>)
      returns (changes: map<string, Model>)
      requires |modelCells| >= 1 && ModelsValid(View())
      modifies this
      ensures Models(View(), changes, true) == StoreModel(Models(old(View()), changeMap, true), metric, model)
    {
      hide WithModelKey;
      changes := changeMap;
      var cell := |modelCells| - 1;
      modelCells := modelCells[cell := model];
      var wmk := WithModelKey(metric, model.modelType);
      if wmk !in modelMap {
        modelMap := modelMap[wmk := cell];
      } else if modelCells[modelMap[wmk]] != model {
        modelMap := modelMap[wmk := cell];
        changes := changes[wmk := model];
      }
    }

    /** Panics exactly when some dropped key's channel is closed already. CreateWorker cannot
        fail here: AddCustomMetrics has just registered the metric it looks up. */
    method HandleCollector(spec: Spec, order: seq<string>) returns (r: Outcome<()>)
      requires Valid(View()) && Enumerates(order, spec.metrics.Keys)
      modifies this
      ensures r == if ClosesTwice(old(View()), spec) then Panicked else Ok(())
      ensures r.Ok? ==> View() == Reconciler.HandleCollector(old(View()), spec, order)
    {
      hide NoModelKey, WithModelKey, GetNoModelKey, GetWithModelKey, MetricKeys, ModelKeys, Keep;
      ghost var s0 := View();
      var toAdd := MissingMetricsLoop(spec, order);
      r := CloseLoop(collectorMap.Keys - MetricKeys(spec), spec);
      if !r.Ok? {
        return;
      }
      ghost var s1 := View();
      for i := 0 to |toAdd|
        invariant View() == StartWorkers(s1, toAdd[..i])
      {
        assert toAdd[..i + 1][..i] == toAdd[..i];
        var key, id := NoModelKey(toAdd[i]), |started|;
        workerMap := workerMap[key := id];
        collectorMap := collectorMap[key := id];
        started := started + [key];
      }
      assert toAdd[..|toAdd|] == toAdd;
    }

    method MissingMetricsLoop(spec: Spec, order: seq<string>) returns (toAdd: seq<Metric>)
      requires Enumerates(order, spec.metrics.Keys)
      ensures toAdd == MissingMetrics(View(), spec, order)
    {
      hide NoModelKey;
      assert forall id :: id in order ==> id in spec.metrics.Keys;
      toAdd := [];
      for i := 0 to |order|
        invariant toAdd == MissingMetrics(View(), spec, order[..i])
      {
        assert order[..i + 1][..i] == order[..i];
        var metric := spec.metrics[order[i]];
        if NoModelKey(metric) !in collectorMap {
          toAdd := toAdd + [metric];
        }
      }
      assert order[..|order|] == order;
    }

    method CloseLoop(toDelete: set<string>, ghost spec: Spec) returns (r: Outcome<()>)
      requires Valid(View()) && toDelete == DroppedKeys(View(), spec)
      modifies this
      ensures r == if ClosesTwice(old(View()), spec) then Panicked else Ok(())
      ensures r.Ok? ==> View() == CloseDropped(old(View()), spec)
    {
      hide MetricKeys, CloseAll;
      ghost var s0 := View();
      ghost var done: set<string> := {};
      var left := toDelete;
      CloseNone(s0);
      while left != {}
        invariant done + left == toDelete && done !! left
        invariant View() == CloseAll(s0, done) && collectorMap == s0.collectorMap
        invariant forall k :: k in done ==> s0.collectorMap[k] !in s0.closed
        decreases left
      {
        var k :| k in left;
        CloseNext(s0, done, k);
        NotYetClosed(s0, done, k);
        var ok := CloseChannel(k);
        if !ok {
          return Panicked;
        }
        done, left := done + {k}, left - {k};
      }
      assert done == toDelete;
      r := Ok(());
    }

    method CloseChannel(k: string) returns (ok: bool)
      requires k in collectorMap
      modifies this
      ensures ok == old(collectorMap[k] !in closed)
      ensures View() == if ok then CloseOne(old(View()), k) else old(View())
    {
      if collectorMap[k] in closed {
        return false;
      }
      closed := closed + {collectorMap[k]};
      workerMap := workerMap - {k};
      ok := true;
    }

    method HandlePredictor(spec: Spec, order: seq<string>, changeMap: map<string, Model>,
                           changeOrder: seq<string>, budget: nat)
      returns (ok: bool, rest: nat)
      requires Enumerates(order, spec.models.Keys) && Enumerates(changeOrder, changeMap.Keys)
      modifies this
      ensures Building(View(), rest, ok)
           == Reconciler.HandlePredictor(old(View()), spec, order, changeMap, changeOrder, budget)
    {
      hide NoModelKey, WithModelKey, GetNoModelKey, GetWithModelKey, MetricKeys, ModelKeys, Keep, BuildAll,
           MissingPredictors, ChangedJobs;
      if exists id :: id in spec.models && id !in spec.metrics {
        return false, budget;
      }
      assert forall id :: id in order ==> id in spec.models.Keys;
      var toAdd := MissingPredictorsLoop(spec, order);
      predictorMap := DeleteOthers(predictorMap, ModelKeys(spec));
      ok, rest := BuildLoop(toAdd + ChangedJobs(changeMap, changeOrder), budget);
    }

    method MissingPredictorsLoop(spec: Spec, order: seq<string>) returns (toAdd: seq<Job>)
      requires forall id :: id in order ==> id in spec.models && id in spec.metrics
      ensures toAdd == MissingPredictors(View(), spec, order)
    {
      hide MissingInList;
      toAdd := [];
      for i := 0 to |order|
        invariant toAdd == MissingPredictors(View(), spec, order[..i])
      {
        assert order[..i + 1][..i] == order[..i];
        var jobs := MissingInListLoop(spec.metrics[order[i]], spec.models[order[i]]);
        toAdd := toAdd + jobs;
      }
      assert order[..|order|] == order;
    }

    method MissingInListLoop(metric: Metric, models: seq<Model>) returns (toAdd: seq<Job>)
      ensures toAdd == MissingInList(View(), metric, models)
    {
      hide NoModelKey, WithModelKey;
      toAdd := [];
      for j := 0 to |models|
        invariant toAdd == MissingInList(View(), metric, models[..j])
      {
        assert models[..j + 1][..j] == models[..j];
        var key := WithModelKey(metric, models[j].modelType);
        if key !in predictorMap {
          toAdd := toAdd + [Job(key, NoModelKey(metric), models[j].attr)];
        }
      }
      assert models[..|models|] == models;
    }

    /** The two building loops of handlePredictor, one after the other. */
    method BuildLoop(jobs: seq<Job>, budget: nat) returns (ok: bool, rest: nat)
      modifies this
      ensures Building(View(), rest, ok) == BuildAll(Building(old(View()), budget, true), jobs)
    {
      ghost var b0 := Building(View(), budget, true);
      rest := budget;
      for i := 0 to |jobs|
        invariant Building(View(), rest, true) == BuildAll(b0, jobs[..i])
      {
        assert jobs[..i + 1][..i] == jobs[..i];
        if jobs[i].noModelKey !in workerMap || rest == 0 {
          FailedBuildStays(b0, jobs, i + 1);
          return false, rest;
        }
        var pred := Predictor(jobs[i].withModelKey, jobs[i].attr, workerMap[jobs[i].noModelKey]);
        predictorMap := predictorMap[jobs[i].withModelKey := pred];
        rest := rest - 1;
      }
      assert jobs[..|jobs|] == jobs;
      ok := true;
    }
  }

  /** Distinct keys have distinct channels. */
  lemma NotYetClosed(s: State, done: set<string>, k: string)
    requires Valid(s) && k in s.collectorMap && k !in done && done <= s.collectorMap.Keys
    ensures s.collectorMap[k] in CloseAll(s, done).closed <==> s.collectorMap[k] in s.closed
  {
    assert forall d :: d in done ==> d in s.collectorMap && s.started[s.collectorMap[d]] == d;
  }

  // ---------------------------------------------------------------- early exits

  lemma AfterReturn(p: Pass, m: Metric)
    requires p.returned && |p.state.metricCells| >= 1 && MetricsValid(p.state) && NoModelKey(m) in p.state.metricMap
    ensures ChangeMetric(p, m) == p
  {
  }

  lemma {:induction false} ReturnedStays(s: State, spec: Spec, order: seq<string>, i: nat)
    requires Stored(s, spec, order) && MetricsValid(s)
    requires i <= |order| && ChangeMetrics(s, spec, order[..i]).returned
    ensures ChangeMetrics(s, spec, order) == ChangeMetrics(s, spec, order[..i])
  {
    hide NoModelKey, ChangeMetric;
    if i == |order| {
      assert order[..i] == order;
    } else {
      var n := |order| - 1;
      assert order[..n][..i] == order[..i];
      ReturnedStays(s, spec, order[..n], i);
      assert order[n] in order;
      AfterReturn(ChangeMetrics(s, spec, order[..n]), spec.metrics[order[n]]);
    }
  }

  lemma {:induction false} FailedBuildStays(b: Building, jobs: seq<Job>, i: nat)
    requires i <= |jobs| && !BuildAll(b, jobs[..i]).ok
    ensures BuildAll(b, jobs) == BuildAll(b, jobs[..i])
  {
    if i == |jobs| {
      assert jobs[..i] == jobs;
    } else {
      var n := |jobs| - 1;
      assert jobs[..n][..i] == jobs[..i];
      FailedBuildStays(b, jobs[..n], i);
    }
  }
}
