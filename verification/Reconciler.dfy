/** The reconciler's bookkeeping (controllers/aom_controller.go:160-514) over the shared maps of
    common/aomtype/type.go.

    Go visits maps in an arbitrary order; each loop takes the order as an argument, so that a
    statement about all orders covers every visit. Pointers to loop variables are addresses into
    a list of cells, one cell per execution of a `for` statement, as Go 1.19 allocates them.
    The functions give each handler on values; Handlers.Hide has them as methods. */
module Reconciler {
  import opened Domain
  import opened Keys
  import opened Orders

  /** A predictor: its key, the attributes it was built from, and the worker it reads. */
  datatype Predictor = Predictor(withModelKey: string, attr: map<string, string>, worker: nat)

  /** The maps of Hide, with what they point at. Worker, stop channel and goroutine `n` are
      created together; `started[n]` is the metric key they were created for. */
  datatype State = State(
    metricMap: map<string, nat>,
    metricCells: seq<Metric>,
    modelMap: map<string, nat>,
    modelCells: seq<Model>,
    collectorMap: map<string, nat>,
    workerMap: map<string, nat>,
    started: seq<string>,
    closed: set<nat>,
    predictorMap: map<string, Predictor>)

  const EMPTY := State(map[], [], map[], [], map[], map[], [], {}, map[])

  const ZERO_METRIC := Metric(ScaleDownConf("", 0), "", 0, "", "", "")
  const ZERO_MODEL := Model("", false, 0, map[])

  // ---------------------------------------------------------------- spec keys

  function MetricKeys(spec: Spec): set<string> {
    set id | id in spec.metrics :: NoModelKey(spec.metrics[id])
  }

  function ModelKeys(spec: Spec): set<string> {
    set id, m | id in spec.models && id in spec.metrics && m in spec.models[id]
      :: WithModelKey(spec.metrics[id], m.modelType)
  }

  predicate NoOrphans(spec: Spec) {
    forall id :: id in spec.models ==> id in spec.metrics
  }

  /** What is left of a map once every key outside `keys` is deleted. */
  function Keep<V>(m: map<string, V>, keys: set<string>): (r: map<string, V>)
    ensures r.Keys == m.Keys * keys
    ensures forall k :: k in r ==> r[k] == m[k]
  {
    map k | k in m && k in keys :: m[k]
  }

  /** The maps point at existing cells, workers and channels; a key has a registered worker
      exactly when its stop channel is open, and it is the one its channel stops. */
  ghost predicate Valid(s: State) {
    && (forall k :: k in s.metricMap ==> s.metricMap[k] < |s.metricCells|)
    && (forall k :: k in s.modelMap ==> s.modelMap[k] < |s.modelCells|)
    && (forall k :: k in s.collectorMap ==> s.collectorMap[k] < |s.started| && s.started[s.collectorMap[k]] == k)
    && (forall k :: k in s.workerMap <==> k in s.collectorMap && s.collectorMap[k] !in s.closed)
    && (forall k :: k in s.workerMap ==> s.workerMap[k] == s.collectorMap[k])
    && (forall id :: id in s.closed ==> id < |s.started|)
  }

  // ---------------------------------------------------------------- handleMetrics

  /** One pass of the add loop: the loop variable takes the metric, and an absent key is mapped
      to the loop variable's address. */
  function AddMetric(s: State, m: Metric): State
    requires |s.metricCells| >= 1
  {
    var cell := |s.metricCells| - 1;
    var key := NoModelKey(m);
    s.(metricCells := s.metricCells[cell := m],
       metricMap := if key in s.metricMap then s.metricMap else s.metricMap[key := cell])
  }

  function AddMetrics(s: State, spec: Spec, order: seq<string>): (r: State)
    requires forall id :: id in order ==> id in spec.metrics
    ensures |r.metricCells| == |s.metricCells| + 1
    ensures r.(metricMap := s.metricMap, metricCells := s.metricCells) == s
  {
    if |order| == 0 then s.(metricCells := s.metricCells + [ZERO_METRIC])
    else AddMetric(AddMetrics(s, spec, order[..|order| - 1]), spec.metrics[order[|order| - 1]])
  }

  function DropMetrics(s: State, spec: Spec): State {
    s.(metricMap := Keep(s.metricMap, MetricKeys(spec)))
  }

  /** The change loop: its state, and whether it has returned. */
  datatype Pass = Pass(state: State, returned: bool)

  ghost predicate MetricsValid(s: State) {
    forall k :: k in s.metricMap ==> s.metricMap[k] < |s.metricCells|
  }

  function ChangeMetric(p: Pass, m: Metric): (r: Pass)
    requires |p.state.metricCells| >= 1 && MetricsValid(p.state) && NoModelKey(m) in p.state.metricMap
    ensures |r.state.metricCells| == |p.state.metricCells| && MetricsValid(r.state)
    ensures r.state.metricMap.Keys == p.state.metricMap.Keys
    ensures r.state.(metricMap := p.state.metricMap, metricCells := p.state.metricCells) == p.state
  {
    if p.returned then p
    else
      var cell := |p.state.metricCells| - 1;
      var key := NoModelKey(m);
      var s := p.state.(metricCells := p.state.metricCells[cell := m]);
      if s.metricCells[s.metricMap[key]] == m then Pass(s, true)
      else Pass(s.(metricMap := s.metricMap[key := cell]), false)
  }

  /** Every metric the loop visits is in the map. */
  ghost predicate Stored(s: State, spec: Spec, order: seq<string>) {
    forall id :: id in order ==> id in spec.metrics && NoModelKey(spec.metrics[id]) in s.metricMap
  }

  function ChangeMetrics(s: State, spec: Spec, order: seq<string>): (r: Pass)
    requires Stored(s, spec, order) && MetricsValid(s)
    ensures |r.state.metricCells| == |s.metricCells| + 1 && MetricsValid(r.state)
    ensures r.state.metricMap.Keys == s.metricMap.Keys
    ensures r.state.(metricMap := s.metricMap, metricCells := s.metricCells) == s
  {
    if |order| == 0 then Pass(s.(metricCells := s.metricCells + [ZERO_METRIC]), false)
    else
      var last := order[|order| - 1];
      assert last in order;
      hide ChangeMetric, NoModelKey;
      ChangeMetric(ChangeMetrics(s, spec, order[..|order| - 1]), spec.metrics[last])
  }

  /** The keys of the metrics a loop visits. */
  function VisitedKeys(spec: Spec, order: seq<string>): set<string>
    requires forall id :: id in order ==> id in spec.metrics
  {
    if |order| == 0 then {}
    else
      var last := order[|order| - 1];
      assert last in order;
      VisitedKeys(spec, order[..|order| - 1]) + {NoModelKey(spec.metrics[last])}
  }

  lemma {:induction false} VisitedKey(spec: Spec, order: seq<string>, id: string)
    requires (forall id :: id in order ==> id in spec.metrics) && id in order
    ensures NoModelKey(spec.metrics[id]) in VisitedKeys(spec, order)
  {
    hide NoModelKey;
    var n := |order| - 1;
    if id != order[n] {
      VisitedKey(spec, order[..n], id);
    }
  }

  lemma {:induction false} VisitedKeysInSpec(spec: Spec, order: seq<string>)
    requires forall id :: id in order ==> id in spec.metrics
    ensures VisitedKeys(spec, order) <= MetricKeys(spec)
  {
    hide NoModelKey;
    if |order| > 0 {
      VisitedKeysInSpec(spec, order[..|order| - 1]);
    }
  }

  lemma AllKeysVisited(spec: Spec, order: seq<string>)
    requires Enumerates(order, spec.metrics.Keys)
    ensures forall id :: id in order ==> id in spec.metrics
    ensures VisitedKeys(spec, order) == MetricKeys(spec)
  {
    hide NoModelKey;
    assert forall id :: id in order ==> id in spec.metrics.Keys;
    VisitedKeysInSpec(spec, order);
    forall k | k in MetricKeys(spec) ensures k in VisitedKeys(spec, order) {
      var id :| id in spec.metrics && NoModelKey(spec.metrics[id]) == k;
      assert id in spec.metrics.Keys;
      VisitedKey(spec, order, id);
    }
  }

  lemma {:induction false} AddMetricsKeys(s: State, spec: Spec, order: seq<string>)
    requires forall id :: id in order ==> id in spec.metrics
    requires MetricsValid(s)
    ensures var r := AddMetrics(s, spec, order);
            && r.metricMap.Keys == s.metricMap.Keys + VisitedKeys(spec, order)
            && (forall k :: k in r.metricMap ==>
                  r.metricMap[k] == if k in s.metricMap then s.metricMap[k] else |s.metricCells|)
  {
    hide NoModelKey;
    if |order| > 0 {
      AddMetricsKeys(s, spec, order[..|order| - 1]);
    }
  }

  /** After the add and delete loops the map holds exactly the keys of the spec. */
  lemma KeptMetricKeys(s: State, spec: Spec, order: seq<string>)
    requires Enumerates(order, spec.metrics.Keys) && MetricsValid(s)
    ensures forall id :: id in order ==> id in spec.metrics
    ensures var r := DropMetrics(AddMetrics(s, spec, order), spec);
            && r.metricMap.Keys == MetricKeys(spec)
            && (forall k :: k in r.metricMap ==>
                  r.metricMap[k] == if k in s.metricMap then s.metricMap[k] else |s.metricCells|)
  {
    hide NoModelKey, MetricKeys;
    AllKeysVisited(spec, order);
    AddMetricsKeys(s, spec, order);
  }

  lemma SpecMetricsStored(s: State, spec: Spec, order: seq<string>)
    requires Enumerates(order, spec.metrics.Keys) && s.metricMap.Keys == MetricKeys(spec)
    ensures Stored(s, spec, order)
  {
    hide NoModelKey;
    forall id | id in order ensures id in spec.metrics && NoModelKey(spec.metrics[id]) in s.metricMap {
      assert id in spec.metrics.Keys;
      assert NoModelKey(spec.metrics[id]) in MetricKeys(spec);
    }
  }

  function HandleMetrics(s: State, spec: Spec, addOrder: seq<string>, changeOrder: seq<string>): (r: State)
    requires Valid(s)
    requires Enumerates(addOrder, spec.metrics.Keys) && Enumerates(changeOrder, spec.metrics.Keys)
    ensures Valid(r) && r.metricMap.Keys == MetricKeys(spec)
    ensures r.(metricMap := s.metricMap, metricCells := s.metricCells) == s
  {
    KeptMetricKeys(s, spec, addOrder);
    var kept := DropMetrics(AddMetrics(s, spec, addOrder), spec);
    SpecMetricsStored(kept, spec, changeOrder);
    ChangeMetrics(kept, spec, changeOrder).state
  }

  // ---------------------------------------------------------------- handleModels

  /** The add-or-change loop: its state, the changed models, and whether it is still going. */
  datatype Models = Models(state: State, changes: map<string, Model>, ok: bool)

  ghost predicate ModelsValid(s: State) {
    forall k :: k in s.modelMap ==> s.modelMap[k] < |s.modelCells|
  }

  /** One pass of the inner loop. */
  function StoreModel(r: Models, metric: Metric, model: Model): (r': Models)
    requires |r.state.modelCells| >= 1 && ModelsValid(r.state)
    ensures |r'.state.modelCells| == |r.state.modelCells| && ModelsValid(r'.state)
    ensures r'.state.(modelMap := r.state.modelMap, modelCells := r.state.modelCells) == r.state
  {
    var cell := |r.state.modelCells| - 1;
    var key := WithModelKey(metric, model.modelType);
    var s := r.state.(modelCells := r.state.modelCells[cell := model]);
    if key !in s.modelMap then r.(state := s.(modelMap := s.modelMap[key := cell]))
    else if s.modelCells[s.modelMap[key]] == model then r.(state := s)
    else r.(state := s.(modelMap := s.modelMap[key := cell]), changes := r.changes[key := model])
  }

  /** The inner loop over the models of one metric. */
  function StoreList(r: Models, metric: Metric, models: seq<Model>): (r': Models)
    requires ModelsValid(r.state)
    ensures |r'.state.modelCells| == |r.state.modelCells| + 1 && ModelsValid(r'.state) && r'.ok == r.ok
    ensures r'.state.(modelMap := r.state.modelMap, modelCells := r.state.modelCells) == r.state
  {
    if |models| == 0 then r.(state := r.state.(modelCells := r.state.modelCells + [ZERO_MODEL]))
    else StoreModel(StoreList(r, metric, models[..|models| - 1]), metric, models[|models| - 1])
  }

  /** The outer loop; a model whose metric is missing ends it with an error. */
  function StoreModels(s: State, spec: Spec, order: seq<string>): (r: Models)
    requires ModelsValid(s) && forall id :: id in order ==> id in spec.models
    ensures ModelsValid(r.state)
    ensures r.state.(modelMap := s.modelMap, modelCells := s.modelCells) == s
  {
    if |order| == 0 then Models(s, map[], true)
    else
      var r := StoreModels(s, spec, order[..|order| - 1]);
      var id := order[|order| - 1];
      if !r.ok then r
      else if id !in spec.metrics then r.(ok := false)
      else
        assert id in order;
        StoreList(r, spec.metrics[id], spec.models[id])
  }

  function DropModels(s: State, spec: Spec): State {
    s.(modelMap := Keep(s.modelMap, ModelKeys(spec)))
  }

  function HandleModels(s: State, spec: Spec, order: seq<string>): (r: Models)
    requires Valid(s) && Enumerates(order, spec.models.Keys)
    ensures Valid(r.state)
    ensures r.state.(modelMap := s.modelMap, modelCells := s.modelCells) == s
  {
    var r := StoreModels(s, spec, order);
    if r.ok then r.(state := DropModels(r.state, spec)) else r
  }

  // ---------------------------------------------------------------- handleCollector

  /** The metrics whose key has no stop channel, in visiting order. */
  function MissingMetrics(s: State, spec: Spec, order: seq<string>): seq<Metric>
    requires forall id :: id in order ==> id in spec.metrics
  {
    if |order| == 0 then []
    else
      var last := order[|order| - 1];
      var rest := MissingMetrics(s, spec, order[..|order| - 1]);
      assert last in order;
      if NoModelKey(spec.metrics[last]) in s.collectorMap then rest else rest + [spec.metrics[last]]
  }

  /** The keys whose worker is to be stopped. */
  function DroppedKeys(s: State, spec: Spec): set<string> {
    s.collectorMap.Keys - MetricKeys(spec)
  }

  /** Closing them would close a channel a second time. */
  ghost predicate ClosesTwice(s: State, spec: Spec) {
    exists k :: k in DroppedKeys(s, spec) && s.collectorMap[k] in s.closed
  }

  /** The stop channels of some keys are closed and their workers removed. */
  function CloseAll(s: State, keys: set<string>): State {
    s.(closed := s.closed + (set k | k in keys && k in s.collectorMap :: s.collectorMap[k]),
       workerMap := s.workerMap - keys)
  }

  function CloseDropped(s: State, spec: Spec): State {
    CloseAll(s, DroppedKeys(s, spec))
  }

  function CloseOne(s: State, k: string): State
    requires k in s.collectorMap
  {
    s.(closed := s.closed + {s.collectorMap[k]}, workerMap := s.workerMap - {k})
  }

  lemma CloseNone(s: State)
    ensures CloseAll(s, {}) == s
  {
  }

  lemma CloseNext(s: State, keys: set<string>, k: string)
    requires k in s.collectorMap
    ensures CloseAll(s, keys).collectorMap == s.collectorMap
    ensures CloseAll(s, keys + {k}) == CloseOne(CloseAll(s, keys), k)
  {
  }

  function StartWorker(s: State, m: Metric): State {
    var key, id := NoModelKey(m), |s.started|;
    s.(workerMap := s.workerMap[key := id], collectorMap := s.collectorMap[key := id], started := s.started + [key])
  }

  function StartWorkers(s: State, metrics: seq<Metric>): (r: State)
    ensures r.(workerMap := s.workerMap, collectorMap := s.collectorMap, started := s.started) == s
  {
    if |metrics| == 0 then s
    else StartWorker(StartWorkers(s, metrics[..|metrics| - 1]), metrics[|metrics| - 1])
  }

  lemma CloseDroppedValid(s: State, spec: Spec)
    requires Valid(s)
    ensures Valid(CloseDropped(s, spec))
  {
    hide MetricKeys;
    var r := CloseDropped(s, spec);
    forall k ensures k in r.workerMap <==> k in r.collectorMap && r.collectorMap[k] !in r.closed {
      if k in s.collectorMap {
        assert forall d :: d in s.collectorMap && s.collectorMap[d] == s.collectorMap[k] ==> d == k;
      }
    }
  }

  lemma {:induction false} StartWorkersValid(s: State, metrics: seq<Metric>)
    requires Valid(s)
    ensures Valid(StartWorkers(s, metrics))
  {
    hide NoModelKey;
    if |metrics| > 0 {
      StartWorkersValid(s, metrics[..|metrics| - 1]);
    }
  }

  function HandleCollector(s: State, spec: Spec, order: seq<string>): (r: State)
    requires Valid(s) && Enumerates(order, spec.metrics.Keys)
    ensures Valid(r)
    ensures r.(workerMap := s.workerMap, collectorMap := s.collectorMap, started := s.started, closed := s.closed) == s
  {
    assert forall id :: id in order ==> id in spec.metrics.Keys;
    var metrics := MissingMetrics(s, spec, order);
    CloseDroppedValid(s, spec);
    StartWorkersValid(CloseDropped(s, spec), metrics);
    StartWorkers(CloseDropped(s, spec), metrics)
  }

  // ---------------------------------------------------------------- handlePredictor

  /** A predictor to build, and the key its worker is looked up under. */
  datatype Job = Job(withModelKey: string, noModelKey: string, attr: map<string, string>)

  function MissingInList(s: State, metric: Metric, models: seq<Model>): seq<Job> {
    if |models| == 0 then []
    else
      var last, rest := models[|models| - 1], MissingInList(s, metric, models[..|models| - 1]);
      var key := WithModelKey(metric, last.modelType);
      if key in s.predictorMap then rest else rest + [Job(key, NoModelKey(metric), last.attr)]
  }

  function MissingPredictors(s: State, spec: Spec, order: seq<string>): seq<Job>
    requires forall id :: id in order ==> id in spec.models && id in spec.metrics
  {
    if |order| == 0 then []
    else
      var last := order[|order| - 1];
      assert last in order;
      MissingPredictors(s, spec, order[..|order| - 1]) + MissingInList(s, spec.metrics[last], spec.models[last])
  }

  function ChangedJobs(changes: map<string, Model>, order: seq<string>): (r: seq<Job>)
    requires forall k :: k in order ==> k in changes
    ensures |r| == |order|
    ensures forall i :: 0 <= i < |r| ==> r[i] == Job(order[i], GetNoModelKey(order[i]), changes[order[i]].attr)
  {
    seq(|order|, i requires 0 <= i < |order| =>
      assert order[i] in order;
      Job(order[i], GetNoModelKey(order[i]), changes[order[i]].attr))
  }

  function DropPredictors(s: State, spec: Spec): State {
    s.(predictorMap := Keep(s.predictorMap, ModelKeys(spec)))
  }

  /** Building: the state, how many more constructions will succeed, and whether one failed. */
  datatype Building = Building(state: State, budget: nat, ok: bool)

  function Build(b: Building, job: Job): Building {
    if !b.ok then b
    else if job.noModelKey !in b.state.workerMap || b.budget == 0 then b.(ok := false)
    else
      var built := Predictor(job.withModelKey, job.attr, b.state.workerMap[job.noModelKey]);
      Building(b.state.(predictorMap := b.state.predictorMap[job.withModelKey := built]), b.budget - 1, true)
  }

  function BuildAll(b: Building, jobs: seq<Job>): (r: Building)
    ensures r.state.(predictorMap := b.state.predictorMap) == b.state
  {
    if |jobs| == 0 then b
    else Build(BuildAll(b, jobs[..|jobs| - 1]), jobs[|jobs| - 1])
  }

  function HandlePredictor(s: State, spec: Spec, order: seq<string>,
                           changes: map<string, Model>, changeOrder: seq<string>, budget: nat): (r: Building)
    requires Enumerates(order, spec.models.Keys) && Enumerates(changeOrder, changes.Keys)
    ensures r.state.(predictorMap := s.predictorMap) == s
  {
    if !NoOrphans(spec) then Building(s, budget, false)
    else
      assert forall id :: id in order ==> id in spec.models.Keys;
      BuildAll(Building(DropPredictors(s, spec), budget, true),
               MissingPredictors(s, spec, order) + ChangedJobs(changes, changeOrder))
  }
}
