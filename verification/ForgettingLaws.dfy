/** A handleCollector that also forgets the channels it closes (controllers/aom_controller.go:287-292
    with the key removed from CollectorMap): what the collector lifecycle would then be, through any
    drops and returns. */
module ForgettingLaws {
  import opened Domain
  import opened Keys
  import opened Orders
  import opened Reconciler
  import opened ReconcilerLaws
  import opened LifecycleLaws

  /** Stopping the dropped keys' workers and also forgetting their channels. */
  function ForgetDropped(s: State, spec: Spec): State {
    CloseDropped(s, spec).(collectorMap := s.collectorMap - DroppedKeys(s, spec))
  }

  /** Channels of keys without a worker can be forgotten. */
  lemma ForgetKeepsValid(s: State, keys: set<string>)
    requires Valid(s) && keys !! s.workerMap.Keys
    ensures Valid(s.(collectorMap := s.collectorMap - keys))
  {
    assert forall k :: k in s.workerMap ==> k in s.workerMap.Keys && k !in keys;
  }

  lemma AllOpen(s: State, spec: Spec)
    requires Valid(s) && s.collectorMap.Keys == s.workerMap.Keys
    ensures !ClosesTwice(s, spec)
  {
    hide MetricKeys;
    assert forall k :: k in s.collectorMap ==> k in s.collectorMap.Keys && k in s.workerMap;
  }

  lemma ForgetDroppedKeys(s: State, spec: Spec)
    requires Valid(s) && s.collectorMap.Keys == s.workerMap.Keys
    ensures !ClosesTwice(s, spec)
    ensures var r := ForgetDropped(s, spec);
            Valid(r) && r.collectorMap.Keys == r.workerMap.Keys == s.collectorMap.Keys * MetricKeys(spec)
  {
    hide NoModelKey, MetricKeys, Valid, ClosesTwice;
    AllOpen(s, spec);
    CloseDroppedValid(s, spec);
    ForgetKeepsValid(CloseDropped(s, spec), DroppedKeys(s, spec));
  }

  /** A handleCollector that forgets the channels it closes. */
  function HandleCollectorForgetting(s: State, spec: Spec, order: seq<string>): State
    requires Valid(s) && Enumerates(order, spec.metrics.Keys)
  {
    assert forall id :: id in order ==> id in spec.metrics.Keys;
    StartWorkers(ForgetDropped(s, spec), MissingMetrics(s, spec, order))
  }

  /** It keeps channels, workers and spec keys equal through any drop and any return of a key,
      and never closes a channel twice. */
  lemma ForgettingKeepsKeysEqual(s: State, spec: Spec, order: seq<string>)
    requires Valid(s) && s.collectorMap.Keys == s.workerMap.Keys
    requires Enumerates(order, spec.metrics.Keys)
    ensures !ClosesTwice(s, spec)
    ensures var r := HandleCollectorForgetting(s, spec, order);
            Valid(r) && r.collectorMap.Keys == r.workerMap.Keys == MetricKeys(spec)
  {
    hide NoModelKey, MetricKeys, ForgetDropped, Valid, StartWorkers, MissingMetrics, VisitedKeys, ClosesTwice;
    AllKeysVisited(spec, order);
    MissingKeys(s, spec, order);
    ForgetDroppedKeys(s, spec);
    StartedKeys(ForgetDropped(s, spec), MissingMetrics(s, spec, order));
    StartWorkersValid(ForgetDropped(s, spec), MissingMetrics(s, spec, order));
  }

  // ---------------------------------------------------------------- one running worker per key

  /** Each goroutine that has not been stopped is the one its key's channel stops. */
  ghost predicate OneOpenEach(s: State) {
    forall i :: 0 <= i < |s.started| && i !in s.closed ==>
      s.started[i] in s.collectorMap && s.collectorMap[s.started[i]] == i
  }

  ghost predicate ClosedStarted(s: State) {
    forall i :: i in s.closed ==> i < |s.started|
  }

  lemma ForgetKeepsOneOpen(s: State, spec: Spec)
    requires OneOpenEach(s)
    ensures OneOpenEach(ForgetDropped(s, spec))
  {
    hide MetricKeys;
    var r := ForgetDropped(s, spec);
    forall i | 0 <= i < |r.started| && i !in r.closed ensures r.started[i] in r.collectorMap {
      assert r.started[i] !in DroppedKeys(s, spec);
    }
  }

  lemma StartWorkerOneOpen(s: State, m: Metric)
    requires OneOpenEach(s) && ClosedStarted(s) && NoModelKey(m) !in s.collectorMap
    ensures OneOpenEach(StartWorker(s, m)) && ClosedStarted(StartWorker(s, m))
  {
    hide NoModelKey;
  }

  lemma {:induction false} StartWorkersOneOpen(s: State, metrics: seq<Metric>)
    requires OneOpenEach(s) && ClosedStarted(s) && NewKeys(s, metrics)
    ensures OneOpenEach(StartWorkers(s, metrics)) && ClosedStarted(StartWorkers(s, metrics))
  {
    if |metrics| > 0 {
      hide NoModelKey, OneOpenEach, ClosedStarted, NewKeys, StartWorker, KeysOf;
      var n := |metrics| - 1;
      LastKeyNew(s, metrics);
      StartWorkersOneOpen(s, metrics[..n]);
      StartedKeys(s, metrics[..n]);
      StartWorkerOneOpen(StartWorkers(s, metrics[..n]), metrics[n]);
    }
  }

  lemma ForgettingKeepsOneOpen(s: State, spec: Spec, order: seq<string>)
    requires Valid(s) && OneOpenEach(s) && DistinctMetrics(spec) && Enumerates(order, spec.metrics.Keys)
    ensures OneOpenEach(HandleCollectorForgetting(s, spec, order))
  {
    hide NoModelKey, MetricKeys, DistinctMetrics, StartWorkers, MissingMetrics, OneOpenEach;
    assert forall id :: id in order ==> id in spec.metrics.Keys;
    var missing, r := MissingMetrics(s, spec, order), ForgetDropped(s, spec);
    ForgetKeepsOneOpen(s, spec);
    MissingAreNew(s, spec, order);
    assert NewKeys(r, missing);
    assert ClosedStarted(r);
    StartWorkersOneOpen(r, missing);
  }

  /** Called again for the same spec it changes nothing, whatever the first call dropped. */
  lemma ForgettingIdempotent(s: State, spec: Spec, order: seq<string>, again: seq<string>)
    requires Valid(s) && s.collectorMap.Keys == s.workerMap.Keys
    requires Enumerates(order, spec.metrics.Keys) && Enumerates(again, spec.metrics.Keys)
    ensures Valid(HandleCollectorForgetting(s, spec, order))
    ensures HandleCollectorForgetting(HandleCollectorForgetting(s, spec, order), spec, again)
         == HandleCollectorForgetting(s, spec, order)
  {
    hide NoModelKey, MetricKeys, HandleCollectorForgetting, Valid;
    ForgettingKeepsKeysEqual(s, spec, order);
    NothingToDo(HandleCollectorForgetting(s, spec, order), spec, again);
  }

  lemma NothingToDo(s: State, spec: Spec, order: seq<string>)
    requires Valid(s) && s.collectorMap.Keys == MetricKeys(spec) && Enumerates(order, spec.metrics.Keys)
    ensures HandleCollectorForgetting(s, spec, order) == s
  {
    hide NoModelKey, MetricKeys;
    AllKeysVisited(spec, order);
    NothingMissing(s, spec, order);
    CloseNone(s);
    assert DroppedKeys(s, spec) == {};
    assert s.collectorMap - {} == s.collectorMap;
  }

  // ---------------------------------------------------------------- over runs

  /** A call: the spec of the moment, and the order in which its metrics are visited. */
  datatype Visit = Visit(spec: Spec, order: seq<string>)

  ghost predicate LegalVisits(visits: seq<Visit>) {
    forall i :: 0 <= i < |visits| ==>
      DistinctMetrics(visits[i].spec) && Enumerates(visits[i].order, visits[i].spec.metrics.Keys)
  }

  /** Where calls for any specs, one after the other, lead. */
  ghost function Collected(visits: seq<Visit>): (s: State)
    requires LegalVisits(visits)
    ensures Valid(s) && s.collectorMap.Keys == s.workerMap.Keys
  {
    hide Enumerates, DistinctMetrics, MetricKeys, HandleCollectorForgetting, ForgetDropped;
    if |visits| == 0 then EMPTY
    else
      var before, last := Collected(visits[..|visits| - 1]), visits[|visits| - 1];
      ForgettingKeepsKeysEqual(before, last.spec, last.order);
      HandleCollectorForgetting(before, last.spec, last.order)
  }

  lemma {:induction false} CollectedOneOpen(visits: seq<Visit>)
    requires LegalVisits(visits)
    ensures OneOpenEach(Collected(visits))
  {
    if |visits| > 0 {
      hide Enumerates, DistinctMetrics, OneOpenEach, HandleCollectorForgetting, Valid;
      var last := visits[|visits| - 1];
      CollectedOneOpen(visits[..|visits| - 1]);
      ForgettingKeepsOneOpen(Collected(visits[..|visits| - 1]), last.spec, last.order);
    }
  }

  /** Through any drops and returns: no call closes a channel twice; the goroutines still running
      are exactly one per key of the last spec, and that key's channel stops it; and repeating the
      last call changes nothing. */
  lemma ForgettingLifecycle(visits: seq<Visit>, next: Spec, again: seq<string>)
    requires LegalVisits(visits) && |visits| >= 1
    requires Enumerates(again, visits[|visits| - 1].spec.metrics.Keys)
    ensures var s, last := Collected(visits), visits[|visits| - 1].spec;
            && !ClosesTwice(s, next)
            && s.collectorMap == s.workerMap && s.collectorMap.Keys == MetricKeys(last)
            && (forall i, k :: 0 <= i < |s.started| ==>
                  (i !in s.closed && s.started[i] == k <==> k in MetricKeys(last) && s.collectorMap[k] == i))
            && HandleCollectorForgetting(s, last, again) == s
  {
    hide Enumerates, MetricKeys, HandleCollectorForgetting, ForgetDropped;
    var n := |visits| - 1;
    ForgettingKeepsKeysEqual(Collected(visits[..n]), visits[n].spec, visits[n].order);
    CollectedOneOpen(visits);
    var s := Collected(visits);
    AllOpen(s, next);
    NothingToDo(s, visits[n].spec, again);
    assert forall k :: k in s.collectorMap ==> k in s.collectorMap.Keys && k in s.workerMap;
  }
}
