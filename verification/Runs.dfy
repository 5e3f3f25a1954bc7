/** Reconciles one after another (controllers/aom_controller.go:160-253): the generation gate,
    creation and update, failures at every step that can fail, and retries, while users edit,
    delete and recreate the object. */
module Runs {
  import opened Domain
  import opened Orders
  import opened Reconciler
  import opened ReconcilerLaws

  /** What one reconcile does not decide itself: the orders in which maps are visited, how many
      predictor constructions succeed, and whether the foreign calls do. */
  datatype Choices = Choices(
    metricAdd: seq<string>,
    metricChange: seq<string>,
    modelOrder: seq<string>,
    collectorOrder: seq<string>,
    predictorOrder: seq<string>,
    changeOrder: seq<string>,
    budget: nat,
    clientOk: bool,
    addressOk: bool,
    statusOk: bool)

  ghost predicate Legal(ch: Choices, spec: Spec) {
    && Enumerates(ch.metricAdd, spec.metrics.Keys)
    && Enumerates(ch.metricChange, spec.metrics.Keys)
    && Enumerates(ch.modelOrder, spec.models.Keys)
    && Enumerates(ch.collectorOrder, spec.metrics.Keys)
    && Enumerates(ch.predictorOrder, spec.models.Keys)
    && Enumerates(ch.changeOrder, ModelKeys(spec))
  }

  datatype Verdict = Success | Failure | Panic

  /** The visited keys that are in the change map, in visiting order. */
  function Visits<V>(order: seq<string>, changes: map<string, V>): (r: seq<string>)
    ensures forall k :: k in r <==> k in order && k in changes
  {
    if |order| == 0 then []
    else
      var n := |order| - 1;
      assert order == order[..n] + [order[n]];
      var rest := Visits(order[..n], changes);
      if order[n] in changes then rest + [order[n]] else rest
  }

  ghost predicate NoRepeats(order: seq<string>) {
    forall i, j :: 0 <= i < j < |order| ==> order[i] != order[j]
  }

  lemma {:induction false} VisitsNoRepeats<V>(order: seq<string>, changes: map<string, V>)
    requires NoRepeats(order)
    ensures NoRepeats(Visits(order, changes))
  {
    if |order| > 0 {
      var n := |order| - 1;
      var rest := Visits(order[..n], changes);
      VisitsNoRepeats(order[..n], changes);
      forall i | 0 <= i < |rest| ensures rest[i] != order[n] {
        assert rest[i] in rest;
      }
    }
  }

  lemma ChangesEnumerated(order: seq<string>, changes: map<string, Model>, keys: set<string>)
    requires Enumerates(order, keys) && changes.Keys <= keys
    ensures Enumerates(Visits(order, changes), changes.Keys)
  {
    VisitsNoRepeats(order, changes);
    assert forall k :: k in changes ==> k in changes.Keys && k in order;
  }

  /** handleMetrics, handleModels, handleCollector, handlePredictor. */
  ghost function Update(s: State, spec: Spec, ch: Choices): (State, Verdict)
    requires Valid(s) && Legal(ch, spec)
  {
    var s1 := HandleMetrics(s, spec, ch.metricAdd, ch.metricChange);
    var m := HandleModels(s1, spec, ch.modelOrder);
    if !m.ok then (m.state, Failure)
    else if ClosesTwice(m.state, spec) then (m.state, Panic)
    else
      HandleModelsKeys(s1, spec, ch.modelOrder);
      ChangesEnumerated(ch.changeOrder, m.changes, ModelKeys(spec));
      var s3 := HandleCollector(m.state, spec, ch.collectorOrder);
      var p := HandlePredictor(s3, spec, ch.predictorOrder, m.changes, Visits(ch.changeOrder, m.changes), ch.budget);
      (p.state, if p.ok then Success else Failure)
  }

  /** The stored object, the maps, and how many scheduler loops have been started. */
  datatype Cluster = Cluster(generation: nat, statusGeneration: nat, spec: Spec, maps: State, schedulers: nat)

  /** Handle. */
  ghost function Reconcile(c: Cluster, ch: Choices): (Cluster, Verdict)
    requires Valid(c.maps) && Legal(ch, c.spec)
  {
    if c.statusGeneration == c.generation then (c, Success)
    else if !ch.clientOk then (c, Failure)
    else if c.statusGeneration == 0 && !ch.addressOk then (c, Failure)
    else if c.statusGeneration != 0 && c.generation < c.statusGeneration then Finish(c, ch)
    else
      var (s, v) := Update(c.maps, c.spec, ch);
      var c' := c.(maps := s);
      if !v.Success? then (c', v)
      else Finish(if c.statusGeneration == 0 then c'.(schedulers := c.schedulers + 1) else c', ch)
  }

  /** Status().Update: the generation is recorded if the write goes through. */
  ghost function Finish(c: Cluster, ch: Choices): (Cluster, Verdict) {
    if ch.statusOk then (c.(statusGeneration := c.generation), Success) else (c, Failure)
  }

  datatype Event =
    | Edit(spec: Spec)
    | Recreate(spec: Spec)
    | Handle(ch: Choices)

  /** Nothing but a panic stops a run; a reconcile whose choices are not orders of the maps it
      visits is not one. */
  ghost predicate CanHappen(c: Cluster, e: Event) {
    e.Handle? ==> Valid(c.maps) && Legal(e.ch, c.spec) && Reconcile(c, e.ch).1 != Panic
  }

  ghost function Apply(c: Cluster, e: Event): Cluster
    requires CanHappen(c, e)
  {
    match e
    case Edit(spec) => c.(spec := spec, generation := c.generation + 1)
    case Recreate(spec) => c.(spec := spec, generation := 1, statusGeneration := 0)
    case Handle(ch) => Reconcile(c, ch).0
  }

  function Start(spec: Spec): Cluster {
    Cluster(1, 0, spec, EMPTY, 0)
  }

  /** Where a run leads from the creation of the object. */
  ghost function Execute(spec: Spec, events: seq<Event>): Option<Cluster> {
    if |events| == 0 then Some(Start(spec))
    else match Execute(spec, events[..|events| - 1])
      case Some(c) => if CanHappen(c, events[|events| - 1]) then Some(Apply(c, events[|events| - 1])) else None
      case None => None
  }
}
