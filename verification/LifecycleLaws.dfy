/** The collector workers over whole runs: when a reconcile panics, why a run that drops no
    metric never does, and what becomes of a metric that is dropped and comes back. */
module LifecycleLaws {
  import opened Domain
  import opened Keys
  import opened Orders
  import opened Reconciler
  import opened ReconcilerLaws
  import opened PredictorLaws
  import opened Runs
  import opened RunLaws

  // ---------------------------------------------------------------- panics

  /** The gate lets the reconcile through to the handlers. */
  predicate ReachesHandlers(c: Cluster, ch: Choices) {
    && c.statusGeneration < c.generation && ch.clientOk
    && (c.statusGeneration == 0 ==> ch.addressOk)
  }

  /** A reconcile panics exactly when it reaches handleCollector with a key that has a channel,
      has no worker any more, and is not in the spec. */
  lemma PanicsExactlyWhen(c: Cluster, ch: Choices)
    requires RunInv(c) && Legal(ch, c.spec)
    ensures Reconcile(c, ch).1 == Panic
       <==> ReachesHandlers(c, ch) && NoOrphans(c.spec)
            && exists k :: k in c.maps.collectorMap && k !in c.maps.workerMap && k !in MetricKeys(c.spec)
  {
    hide Wired, InSync, MetricKeys, ModelKeys, NoOrphans, Enumerates, HandleMetrics, HandleModels,
         HandleCollector, HandlePredictor;
    var s1 := HandleMetrics(c.maps, c.spec, ch.metricAdd, ch.metricChange);
    HandleModelsKeys(s1, c.spec, ch.modelOrder);
    var s2 := HandleModels(s1, c.spec, ch.modelOrder).state;
    ClosesTwiceExactlyWhen(s2, c.spec);
  }

  lemma ClosesTwiceExactlyWhen(s: State, spec: Spec)
    requires Valid(s)
    ensures ClosesTwice(s, spec)
       <==> exists k :: k in s.collectorMap && k !in s.workerMap && k !in MetricKeys(spec)
  {
    hide MetricKeys;
    if ClosesTwice(s, spec) {
      var k :| k in DroppedKeys(s, spec) && s.collectorMap[k] in s.closed;
      assert k in s.collectorMap && k !in s.workerMap;
    }
    if k :| k in s.collectorMap && k !in s.workerMap && k !in MetricKeys(spec) {
      assert k in DroppedKeys(s, spec) && s.collectorMap[k] in s.closed;
    }
  }

  // ---------------------------------------------------------------- runs that drop nothing

  function CurrentSpec(spec: Spec, events: seq<Event>): Spec {
    if |events| == 0 then spec
    else match events[|events| - 1]
      case Handle(_) => CurrentSpec(spec, events[..|events| - 1])
      case Edit(next) => next
      case Recreate(next) => next
  }

  /** Every spec has distinct metric keys and keeps the metric keys of the one before. */
  ghost predicate DropsNothing(spec: Spec, events: seq<Event>) {
    if |events| == 0 then DistinctMetrics(spec)
    else
      var prefix, last := events[..|events| - 1], events[|events| - 1];
      && DropsNothing(spec, prefix)
      && (!last.Handle? ==>
           DistinctMetrics(last.spec) && MetricKeys(CurrentSpec(spec, prefix)) <= MetricKeys(last.spec))
  }

  /** Each goroutine ever started is the one its key's channel stops. */
  ghost predicate OneEach(s: State) {
    forall i :: 0 <= i < |s.started| ==> s.started[i] in s.collectorMap && s.collectorMap[s.started[i]] == i
  }

  ghost predicate CollectorsInv(s: State, keys: set<string>) {
    && Valid(s) && s.closed == {} && OneEach(s)
    && s.collectorMap.Keys <= keys
  }

  /** New metrics with new and distinct keys. */
  ghost predicate NewKeys(s: State, metrics: seq<Metric>) {
    && (forall i :: 0 <= i < |metrics| ==> NoModelKey(metrics[i]) !in s.collectorMap)
    && (forall i, j :: 0 <= i < j < |metrics| ==> NoModelKey(metrics[i]) != NoModelKey(metrics[j]))
  }

  lemma {:induction false} KeysOfAre(metrics: seq<Metric>)
    ensures forall k :: k in KeysOf(metrics) <==> exists i :: 0 <= i < |metrics| && NoModelKey(metrics[i]) == k
  {
    hide NoModelKey;
    if |metrics| > 0 {
      var n := |metrics| - 1;
      KeysOfAre(metrics[..n]);
      assert forall i :: 0 <= i < n ==> metrics[..n][i] == metrics[i];
    }
  }

  lemma {:induction false} MissingAreNew(s: State, spec: Spec, order: seq<string>)
    requires DistinctMetrics(spec) && forall id :: id in order ==> id in spec.metrics
    requires forall i, j :: 0 <= i < j < |order| ==> order[i] != order[j]
    ensures NewKeys(s, MissingMetrics(s, spec, order))
  {
    hide NoModelKey, DistinctMetrics;
    if |order| > 0 {
      var n := |order| - 1;
      MissingAreNew(s, spec, order[..n]);
      MissingKeys(s, spec, order[..n]);
      KeysOfAre(MissingMetrics(s, spec, order[..n]));
      assert order[n] in order && order[n] !in order[..n];
      NotYetVisited(spec, order[..n], order[n]);
      var rest := MissingMetrics(s, spec, order[..n]);
      forall i | 0 <= i < |rest| ensures NoModelKey(rest[i]) != NoModelKey(spec.metrics[order[n]]) {
        assert NoModelKey(rest[i]) in KeysOf(rest);
      }
    }
  }

  lemma LastKeyNew(s: State, metrics: seq<Metric>)
    requires NewKeys(s, metrics) && |metrics| > 0
    ensures NewKeys(s, metrics[..|metrics| - 1])
    ensures NoModelKey(metrics[|metrics| - 1]) !in s.collectorMap
    ensures NoModelKey(metrics[|metrics| - 1]) !in KeysOf(metrics[..|metrics| - 1])
  {
    hide NoModelKey;
    KeysOfAre(metrics[..|metrics| - 1]);
  }

  lemma StartWorkerOneEach(s: State, m: Metric)
    requires OneEach(s) && NoModelKey(m) !in s.collectorMap
    ensures OneEach(StartWorker(s, m))
  {
    hide NoModelKey;
  }

  lemma {:induction false} StartWorkersOneEach(s: State, metrics: seq<Metric>)
    requires OneEach(s) && NewKeys(s, metrics)
    ensures OneEach(StartWorkers(s, metrics))
  {
    if |metrics| > 0 {
      hide NoModelKey, OneEach, NewKeys, StartWorker, KeysOf;
      var n := |metrics| - 1;
      LastKeyNew(s, metrics);
      StartWorkersOneEach(s, metrics[..n]);
      StartedKeys(s, metrics[..n]);
      StartWorkerOneEach(StartWorkers(s, metrics[..n]), metrics[n]);
    }
  }

  lemma CollectorKeepsInv(s: State, spec: Spec, order: seq<string>)
    requires CollectorsInv(s, MetricKeys(spec)) && DistinctMetrics(spec) && Enumerates(order, spec.metrics.Keys)
    ensures !ClosesTwice(s, spec)
    ensures var r := HandleCollector(s, spec, order);
            CollectorsInv(r, MetricKeys(spec)) && r.collectorMap.Keys == MetricKeys(spec)
  {
    hide NoModelKey, MetricKeys, DistinctMetrics, StartWorkers, MissingMetrics;
    HandleCollectorKeys(s, spec, order);
    assert forall id :: id in order ==> id in spec.metrics.Keys;
    assert DroppedKeys(s, spec) == {};
    CloseNone(s);
    MissingAreNew(s, spec, order);
    StartWorkersOneEach(s, MissingMetrics(s, spec, order));
  }

  lemma CollectorsFrame(s: State, s': State, keys: set<string>)
    requires Valid(s') && s'.collectorMap == s.collectorMap && s'.closed == s.closed && s'.started == s.started
    requires CollectorsInv(s, keys)
    ensures CollectorsInv(s', keys)
  {
  }

  lemma UpdateKeepsCollectors(s: State, spec: Spec, ch: Choices)
    requires CollectorsInv(s, MetricKeys(spec)) && DistinctMetrics(spec) && Legal(ch, spec)
    ensures var (s', v) := Update(s, spec, ch);
            && v != Panic && CollectorsInv(s', MetricKeys(spec))
            && (v == Success ==> s'.collectorMap.Keys == MetricKeys(spec))
  {
    hide MetricKeys, ModelKeys, DistinctMetrics, Valid, ModelsValid, Enumerates, HandleMetrics, HandleModels,
         HandleCollector, HandlePredictor, ClosesTwice, CollectorsInv, NoOrphans;
    assert Valid(s) by {
      CollectorsValid(s, MetricKeys(spec));
    }
    var s1 := HandleMetrics(s, spec, ch.metricAdd, ch.metricChange);
    var m := HandleModels(s1, spec, ch.modelOrder);
    CollectorsFrame(s, s1, MetricKeys(spec));
    CollectorsFrame(s1, m.state, MetricKeys(spec));
    if m.ok {
      HandleModelsKeys(s1, spec, ch.modelOrder);
      ChangesEnumerated(ch.changeOrder, m.changes, ModelKeys(spec));
      CollectorKeepsInv(m.state, spec, ch.collectorOrder);
      var s3 := HandleCollector(m.state, spec, ch.collectorOrder);
      var order := Visits(ch.changeOrder, m.changes);
      var p := HandlePredictor(s3, spec, ch.predictorOrder, m.changes, order, ch.budget).state;
      ValidFrame(s3, p);
      CollectorsFrame(s3, p, MetricKeys(spec));
    }
  }

  lemma CollectorsValid(s: State, keys: set<string>)
    requires CollectorsInv(s, keys)
    ensures Valid(s)
  {
  }

  ghost predicate LifecycleInv(c: Cluster) {
    && CollectorsInv(c.maps, MetricKeys(c.spec)) && DistinctMetrics(c.spec)
    && c.statusGeneration <= c.generation && c.generation >= 1
    && (c.statusGeneration == c.generation ==> c.maps.collectorMap.Keys == MetricKeys(c.spec))
  }

  lemma ReconcileKeepsLifecycle(c: Cluster, ch: Choices)
    requires LifecycleInv(c) && Legal(ch, c.spec)
    ensures Valid(c.maps) && Reconcile(c, ch).1 != Panic
    ensures LifecycleInv(Reconcile(c, ch).0) && Reconcile(c, ch).0.spec == c.spec
  {
    hide CollectorsInv, DistinctMetrics, MetricKeys, Legal, Update, Valid;
    CollectorsValid(c.maps, MetricKeys(c.spec));
    UpdateKeepsCollectors(c.maps, c.spec, ch);
  }

  lemma {:induction false} RunKeepsLifecycle(spec: Spec, events: seq<Event>)
    requires DropsNothing(spec, events) && Execute(spec, events).Some?
    ensures var c := Execute(spec, events).value;
            LifecycleInv(c) && c.spec == CurrentSpec(spec, events)
  {
    if |events| > 0 {
      hide MetricKeys, DistinctMetrics, Legal, Reconcile;
      var n := |events| - 1;
      RunKeepsLifecycle(spec, events[..n]);
      var c := Execute(spec, events[..n]).value;
      if events[n].Handle? {
        ReconcileKeepsLifecycle(c, events[n].ch);
      }
    }
  }

  /** In a run that drops no metric key, no reconcile panics; channels and workers coincide; each
      of their keys has exactly one goroutine ever started; and whenever the recorded generation
      is current they are the spec's keys. */
  lemma CollectorLifecycle(spec: Spec, events: seq<Event>, ch: Choices)
    requires DropsNothing(spec, events) && Execute(spec, events).Some?
    requires Legal(ch, Execute(spec, events).value.spec)
    ensures var c := Execute(spec, events).value;
            && Valid(c.maps) && Reconcile(c, ch).1 != Panic
            && c.maps.collectorMap == c.maps.workerMap
            && (forall i, j :: 0 <= i < j < |c.maps.started| ==> c.maps.started[i] != c.maps.started[j])
            && (forall k :: k in c.maps.collectorMap <==> k in c.maps.started)
            && (c.statusGeneration == c.generation ==> c.maps.collectorMap.Keys == MetricKeys(c.spec))
  {
    hide MetricKeys, DistinctMetrics, Legal, Reconcile;
    RunKeepsLifecycle(spec, events);
    ReconcileKeepsLifecycle(Execute(spec, events).value, ch);
  }

  // ---------------------------------------------------------------- dropped and back again

  /** The spec has a metric with models whose key has a channel but no worker. */
  ghost predicate Stranded(s: State, spec: Spec, id: string) {
    && id in spec.metrics && id in spec.models && |spec.models[id]| >= 1
    && NoModelKey(spec.metrics[id]) in s.collectorMap && NoModelKey(spec.metrics[id]) !in s.workerMap
  }

  /** Dropping a metric strands it for any later spec that brings it back with a model. */
  lemma DroppedIsStranded(s: State, spec: Spec, order: seq<string>, back: Spec, id: string)
    requires Valid(s) && Enumerates(order, spec.metrics.Keys)
    requires id in back.metrics && id in back.models && |back.models[id]| >= 1
    requires NoModelKey(back.metrics[id]) in DroppedKeys(s, spec)
    ensures Stranded(HandleCollector(s, spec, order), back, id)
  {
    hide NoModelKey, MetricKeys, HandleCollector;
    HandleCollectorKeys(s, spec, order);
  }

  lemma StrandedHasNoPredictor(s: State, spec: Spec, id: string)
    requires Stranded(s, spec, id) && PlainTypes(spec) && Wired(s)
    ensures s.predictorMap.Keys != ModelKeys(spec)
  {
    hide NoModelKey, GetNoModelKey;
    EntryKeyInList(spec, id, 0);
    RecoverPlainType(NoModelKey(spec.metrics[id]), spec.models[id][0].modelType);
    assert GetNoModelKey(EntryKey(spec, id, 0)) == NoModelKey(spec.metrics[id]);
  }

  lemma StrandedThroughCollector(s: State, spec: Spec, order: seq<string>, id: string)
    requires Valid(s) && Enumerates(order, spec.metrics.Keys) && Stranded(s, spec, id)
    ensures Stranded(HandleCollector(s, spec, order), spec, id)
  {
    hide NoModelKey, MetricKeys, HandleCollector;
    HandleCollectorKeys(s, spec, order);
  }

  lemma StrandedFrame(s: State, s': State, spec: Spec, id: string)
    requires s'.collectorMap == s.collectorMap && s'.workerMap == s.workerMap
    ensures Stranded(s, spec, id) <==> Stranded(s', spec, id)
  {
  }

  /** No pass over a stranded metric succeeds, and every one leaves it stranded. */
  lemma StrandedPass(s: State, spec: Spec, ch: Choices, id: string)
    requires Valid(s) && Wired(s) && Legal(ch, spec) && PlainTypes(spec) && Stranded(s, spec, id)
    ensures var (s', v) := Update(s, spec, ch);
            v != Success && (v != Panic ==> Stranded(s', spec, id))
  {
    hide MetricKeys, ModelKeys, Wired, Valid, ModelsValid, PlainTypes, Enumerates, HandleMetrics, HandleModels,
         HandleCollector, HandlePredictor, ClosesTwice, NoOrphans, Stranded;
    UpdateSyncs(s, spec, ch);
    var s1 := HandleMetrics(s, spec, ch.metricAdd, ch.metricChange);
    var m := HandleModels(s1, spec, ch.modelOrder);
    StrandedFrame(s, s1, spec, id);
    StrandedFrame(s1, m.state, spec, id);
    if m.ok && !ClosesTwice(m.state, spec) {
      HandleModelsKeys(s1, spec, ch.modelOrder);
      ChangesEnumerated(ch.changeOrder, m.changes, ModelKeys(spec));
      StrandedThroughCollector(m.state, spec, ch.collectorOrder, id);
      var s3 := HandleCollector(m.state, spec, ch.collectorOrder);
      var order := Visits(ch.changeOrder, m.changes);
      var s4 := HandlePredictor(s3, spec, ch.predictorOrder, m.changes, order, ch.budget).state;
      StrandedFrame(s3, s4, spec, id);
      if Update(s, spec, ch).1 == Success {
        StrandedHasNoPredictor(s4, spec, id);
        assert false;
      }
    }
  }

  ghost predicate OnlyRetries(events: seq<Event>) {
    forall i :: 0 <= i < |events| ==> events[i].Handle?
  }

  lemma StrandedReconcile(c: Cluster, ch: Choices, id: string)
    requires RunInv(c) && PlainTypes(c.spec) && Legal(ch, c.spec)
    requires Stranded(c.maps, c.spec, id) && c.statusGeneration != c.generation
    ensures var (c', v) := Reconcile(c, ch);
            && v != Success
            && (v != Panic ==>
                  Stranded(c'.maps, c.spec, id) && c'.statusGeneration != c'.generation && c'.spec == c.spec)
  {
    hide Valid, Wired, InSync, PlainTypes, Legal, Update, Stranded;
    StrandedPass(c.maps, c.spec, ch, id);
  }

  lemma RanBefore(spec: Spec, before: seq<Event>, e: Event)
    requires Execute(spec, before + [e]).Some?
    ensures Execute(spec, before).Some?
  {
    hide CanHappen, Apply;
    assert (before + [e])[..|before|] == before;
  }

  lemma RetryStep(spec: Spec, before: seq<Event>, retry: Event, id: string)
    requires PlainRun(spec, before) && retry.Handle?
    requires Execute(spec, before).Some? && Execute(spec, before + [retry]).Some?
    requires var c := Execute(spec, before).value; Stranded(c.maps, c.spec, id) && c.statusGeneration != c.generation
    ensures var c, c' := Execute(spec, before).value, Execute(spec, before + [retry]).value;
            Stranded(c'.maps, c'.spec, id) && c'.statusGeneration != c'.generation && c'.spec == c.spec
  {
    hide RunInv, PlainTypes, PlainRun, Reconcile, Legal, Stranded, Valid;
    assert (before + [retry])[..|before|] == before;
    RunKeepsInv(spec, before);
    StrandedReconcile(Execute(spec, before).value, retry.ch, id);
  }

  /** So a metric that was dropped and comes back with a model is never reconciled again: however
      often the reconcile is retried, the recorded generation stays behind. */
  lemma {:induction false} ReturnedMetricNeverReconciles(spec: Spec, events: seq<Event>,
                                                           retries: seq<Event>, id: string)
    requires PlainRun(spec, events) && OnlyRetries(retries)
    requires Execute(spec, events).Some? && Execute(spec, events + retries).Some?
    requires var c := Execute(spec, events).value;
             Stranded(c.maps, c.spec, id) && c.statusGeneration != c.generation
    ensures var c := Execute(spec, events + retries).value;
            && Stranded(c.maps, c.spec, id) && c.statusGeneration != c.generation
            && c.spec == Execute(spec, events).value.spec
  {
    if |retries| == 0 {
      assert events + retries == events;
    } else {
      hide PlainRun, Stranded, Execute;
      var n := |retries| - 1;
      var before := events + retries[..n];
      assert events + retries == before + [retries[n]];
      RanBefore(spec, before, retries[n]);
      ReturnedMetricNeverReconciles(spec, events, retries[..n], id);
      RetriedRunPlain(spec, events, retries[..n]);
      RetryStep(spec, before, retries[n], id);
    }
  }

  lemma RetriedRunPlain(spec: Spec, events: seq<Event>, retries: seq<Event>)
    requires PlainRun(spec, events) && OnlyRetries(retries)
    ensures PlainRun(spec, events + retries)
  {
    hide PlainTypes;
  }

  // ---------------------------------------------------------------- scheduler loops

  /** The event leaves a loop running beside the one of the object's next recorded creation: a
      creation that gets through the handlers, and so starts a loop, but fails to record its
      generation; or a recreation of an object that had been recorded. */
  ghost predicate LeavesLoop(c: Cluster, e: Event) {
    match e
    case Edit(_) => false
    case Recreate(_) => c.statusGeneration > 0
    case Handle(ch) =>
      && CanHappen(c, e) && ReachesHandlers(c, ch) && c.statusGeneration == 0
      && Update(c.maps, c.spec, ch).1 == Success && !ch.statusOk
  }

  /** Event `n` of the run does. */
  ghost predicate LeavesLoopAt(spec: Spec, events: seq<Event>, n: nat) {
    n < |events| && Execute(spec, events[..n]).Some? && LeavesLoop(Execute(spec, events[..n]).value, events[n])
  }

  ghost function LoopsLeft(spec: Spec, events: seq<Event>): nat {
    if |events| == 0 then 0
    else
      var n := |events| - 1;
      LoopsLeft(spec, events[..n]) + if LeavesLoopAt(spec, events, n) then 1 else 0
  }

  lemma StepCountsSchedulers(c: Cluster, e: Event)
    requires CanHappen(c, e) && c.generation >= 1
    ensures var c' := Apply(c, e);
            && c'.generation >= 1
            && c'.schedulers + (if c.statusGeneration == 0 then 0 else 1)
               == c.schedulers + (if c'.statusGeneration == 0 then 0 else 1) + (if LeavesLoop(c, e) then 1 else 0)
  {
    hide Valid, Legal, Update;
  }

  /** A run has started one scheduler loop per event that leaves one behind, and one more while a
      creation is recorded. */
  lemma {:induction false} SchedulersCounted(spec: Spec, events: seq<Event>)
    requires Execute(spec, events).Some?
    ensures var c := Execute(spec, events).value;
            && c.generation >= 1
            && c.schedulers == LoopsLeft(spec, events) + if c.statusGeneration == 0 then 0 else 1
  {
    if |events| > 0 {
      hide CanHappen, Apply, LeavesLoop;
      var n := |events| - 1;
      SchedulersCounted(spec, events[..n]);
      StepCountsSchedulers(Execute(spec, events[..n]).value, events[n]);
    }
  }

  lemma LeftInPrefix(spec: Spec, events: seq<Event>, last: nat, n: nat)
    requires n < last <= |events|
    ensures LeavesLoopAt(spec, events[..last], n) <==> LeavesLoopAt(spec, events, n)
  {
    hide Execute, LeavesLoop;
    assert events[..last][..n] == events[..n];
  }

  lemma {:induction false} NoneLeft(spec: Spec, events: seq<Event>)
    ensures LoopsLeft(spec, events) == 0 <==> forall n :: !LeavesLoopAt(spec, events, n)
  {
    hide Execute, LeavesLoop;
    assert forall n: nat :: LeavesLoopAt(spec, events, n) ==> n < |events|;
    if |events| > 0 {
      var last := |events| - 1;
      NoneLeft(spec, events[..last]);
      hide LeavesLoopAt;
      forall n: nat | n < last ensures LeavesLoopAt(spec, events[..last], n) <==> LeavesLoopAt(spec, events, n) {
        LeftInPrefix(spec, events, last, n);
      }
      assert forall n: nat :: LeavesLoopAt(spec, events, n) ==> n < last || n == last;
    }
  }

  /** Once recorded, the object drives its target with a single scheduler loop exactly when no
      creation failed at its last step, the write of the status, and the object was never
      recreated after having been recorded: nothing stops a loop. */
  lemma OneSchedulerExactlyWhen(spec: Spec, events: seq<Event>)
    requires Execute(spec, events).Some?
    requires Execute(spec, events).value.statusGeneration > 0
    ensures Execute(spec, events).value.schedulers >= 1
    ensures Execute(spec, events).value.schedulers == 1 <==> forall n :: !LeavesLoopAt(spec, events, n)
  {
    SchedulersCounted(spec, events);
    NoneLeft(spec, events);
  }
}
