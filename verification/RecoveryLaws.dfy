/** When a reconcile can still succeed, and that a change can be lost for good although one
    later does. */
module RecoveryLaws {
  import opened Domain
  import opened Keys
  import opened Orders
  import opened Reconciler
  import opened ReconcilerLaws
  import opened PredictorLaws
  import opened Runs
  import opened RunLaws
  import opened LifecycleLaws

  // ---------------------------------------------------------------- choices exist

  lemma SomeChoices(spec: Spec) returns (ch: Choices)
    ensures Legal(ch, spec) && ch.budget == 0 && ch.clientOk && ch.addressOk && ch.statusOk
  {
    hide ModelKeys, Enumerates;
    var metrics := SomeOrder(spec.metrics.Keys);
    var models := SomeOrder(spec.models.Keys);
    var changes := SomeOrder(ModelKeys(spec));
    ch := Choices(metrics, metrics, models, metrics, models, changes, 0, true, true, true);
  }

  // ---------------------------------------------------------------- when a pass can succeed

  ghost predicate NoneStranded(s: State, spec: Spec) {
    forall id :: !Stranded(s, spec, id)
  }

  /** After handleCollector every model's metric has a worker. */
  lemma ModelKeysHaveWorkers(s: State, spec: Spec, order: seq<string>, k: string)
    requires Valid(s) && Enumerates(order, spec.metrics.Keys) && PlainTypes(spec)
    requires NoneStranded(s, spec) && k in ModelKeys(spec)
    ensures GetNoModelKey(k) in HandleCollector(s, spec, order).workerMap
  {
    hide NoModelKey, GetNoModelKey, HandleCollector, MetricKeys;
    var id, m :| id in spec.models && id in spec.metrics && m in spec.models[id]
                 && k == WithModelKey(spec.metrics[id], m.modelType);
    RecoverPlainType(NoModelKey(spec.metrics[id]), m.modelType);
    KeyInSpec(spec, id);
    HandleCollectorKeys(s, spec, order);
    assert !Stranded(s, spec, id);
  }

  lemma JobsHaveWorkers(s: State, spec: Spec, jobs: seq<Job>)
    requires JobsPlain(jobs) && JobKeys(jobs) <= ModelKeys(spec)
    requires forall k :: k in ModelKeys(spec) ==> GetNoModelKey(k) in s.workerMap
    ensures forall i :: 0 <= i < |jobs| ==> jobs[i].noModelKey in s.workerMap
  {
    hide GetNoModelKey, ModelKeys;
    JobKeysAre(jobs);
    forall i | 0 <= i < |jobs| ensures jobs[i].noModelKey in s.workerMap {
      assert jobs[i].withModelKey in JobKeys(jobs);
    }
  }

  lemma PassCanSucceed(s: State, spec: Spec) returns (ch: Choices)
    requires Valid(s) && Wired(s) && PlainTypes(spec)
    requires NoOrphans(spec) && !ClosesTwice(s, spec) && NoneStranded(s, spec)
    ensures Legal(ch, spec) && ch.clientOk && ch.addressOk && ch.statusOk
    ensures Update(s, spec, ch).1 == Success
  {
    hide NoModelKey, GetNoModelKey, MetricKeys, ModelKeys, Wired, PlainTypes, Enumerates, HandleMetrics, HandleModels,
         HandleCollector, ClosesTwice, NoOrphans, Stranded, BuildAll, JobsPlain, Valid;
    ch := SomeChoices(spec);
    var s1 := HandleMetrics(s, spec, ch.metricAdd, ch.metricChange);
    var m := HandleModels(s1, spec, ch.modelOrder);
    HandleModelsKeys(s1, spec, ch.modelOrder);
    ClosesTwiceFrame(s, m.state, spec);
    forall id ensures !Stranded(m.state, spec, id) {
      StrandedFrame(s, m.state, spec, id);
    }
    ChangesEnumerated(ch.changeOrder, m.changes, ModelKeys(spec));
    var s3 := HandleCollector(m.state, spec, ch.collectorOrder);
    var order := Visits(ch.changeOrder, m.changes);
    AllJobsPlain(s3, spec, ch.predictorOrder, m.changes, order);
    var jobs := AllJobs(s3, spec, ch.predictorOrder, m.changes, order);
    forall k | k in ModelKeys(spec) ensures GetNoModelKey(k) in s3.workerMap {
      ModelKeysHaveWorkers(m.state, spec, ch.collectorOrder, k);
    }
    JobsHaveWorkers(s3, spec, jobs);
    ch := ch.(budget := |jobs|);
    BuildAllSucceedsExactlyWhen(Building(DropPredictors(s3, spec), |jobs|, true), jobs);
  }

  /** Some pass through the handlers succeeds exactly when every model's metric is in the spec,
      no dropped key's channel is closed already, and no metric with a model was dropped before. */
  lemma RecoverableExactlyWhen(s: State, spec: Spec)
    requires Valid(s) && Wired(s) && PlainTypes(spec)
    ensures (exists ch :: Legal(ch, spec) && Update(s, spec, ch).1 == Success)
       <==> NoOrphans(spec) && !ClosesTwice(s, spec) && NoneStranded(s, spec)
  {
    hide Valid, Wired, PlainTypes, NoOrphans, ClosesTwice, Stranded, Legal, Update;
    if NoOrphans(spec) && !ClosesTwice(s, spec) && NoneStranded(s, spec) {
      var ch := PassCanSucceed(s, spec);
    }
    if ch :| Legal(ch, spec) && Update(s, spec, ch).1 == Success {
      SuccessNeeds(s, spec, ch);
      forall id ensures !Stranded(s, spec, id) {
        if Stranded(s, spec, id) {
          StrandedPass(s, spec, ch, id);
        }
      }
    }
  }

  lemma SuccessNeeds(s: State, spec: Spec, ch: Choices)
    requires Valid(s) && Legal(ch, spec) && Update(s, spec, ch).1 == Success
    ensures NoOrphans(spec) && !ClosesTwice(s, spec)
  {
    hide MetricKeys, ModelKeys, Enumerates, HandleMetrics, HandleModels, HandleCollector, HandlePredictor, ClosesTwice,
         NoOrphans, Valid;
    var s1 := HandleMetrics(s, spec, ch.metricAdd, ch.metricChange);
    HandleModelsKeys(s1, spec, ch.modelOrder);
    ClosesTwiceFrame(s, HandleModels(s1, spec, ch.modelOrder).state, spec);
  }

  // ---------------------------------------------------------------- a lost change

  /** With no channel closed, nothing is closed twice and no metric is stranded. */
  lemma OpenIsRecoverable(s: State, spec: Spec, keys: set<string>)
    requires CollectorsInv(s, keys)
    ensures Valid(s) && !ClosesTwice(s, spec) && NoneStranded(s, spec)
  {
    hide NoModelKey, MetricKeys;
  }

  lemma ExecuteNext(spec: Spec, events: seq<Event>, c: Cluster, e: Event)
    requires Execute(spec, events) == Some(c) && CanHappen(c, e)
    ensures Execute(spec, events + [e]) == Some(Apply(c, e))
  {
    hide CanHappen, Apply;
    assert (events + [e])[..|events|] == events;
  }

  /** Entry `i` of `id` is the last of its list in both specs, under one key, with other attributes. */
  ghost predicate AttrEdited(spec: Spec, next: Spec, id: string, i: nat) {
    && Entry(spec, id, i) && Entry(next, id, i)
    && i == |next.models[id]| - 1
    && EntryKey(spec, id, i) == EntryKey(next, id, i)
    && spec.models[id][i].attr != next.models[id][i].attr
  }

  ghost predicate WellFormed(spec: Spec) {
    PlainTypes(spec) && NoOrphans(spec) && DistinctModels(spec) && DistinctMetrics(spec)
  }

  lemma EmptyIsFine(keys: set<string>)
    ensures CollectorsInv(EMPTY, keys) && Wired(EMPTY)
  {
  }

  /** After the first success, the edit is a change that the maps can see. */
  lemma EditIsSeen(spec: Spec, next: Spec, ch: Choices, id: string, i: nat)
    requires WellFormed(spec) && PlainTypes(next) && AttrEdited(spec, next, id, i)
    requires Legal(ch, spec) && Valid(EMPTY) && Update(EMPTY, spec, ch).1 == Success
    ensures var s, k, m := Update(EMPTY, spec, ch).0, EntryKey(next, id, i), next.models[id][i];
            && k in s.predictorMap && s.predictorMap[k].attr != m.attr
            && k in s.modelMap && !Unchanged(s, k, m)
  {
    hide EntryKey, PlainTypes, DistinctModels, DistinctMetrics, NoOrphans, Valid, Wired, Legal, Update;
    EmptyIsFine(MetricKeys(spec));
    FreshExactlyWhen(EMPTY, spec, ch, id, i);
    SameKeySameType(spec, next, id, i, id, i);
  }

  /** A pass that cannot construct anything, with a change it can see, builds nothing and fails. */
  lemma NoBudgetFails(s: State, spec: Spec, ch: Choices, id: string, i: nat)
    requires Valid(s) && PlainTypes(spec) && DistinctModels(spec) && NoOrphans(spec)
    requires Legal(ch, spec) && ch.budget == 0 && !ClosesTwice(s, spec) && Entry(spec, id, i)
    requires EntryKey(spec, id, i) in s.modelMap && !Unchanged(s, EntryKey(spec, id, i), spec.models[id][i])
    ensures BuiltKeys(s, spec, ch) == {} && Update(s, spec, ch).1 == Failure
  {
    hide EntryKey, DistinctModels, PlainTypes, Enumerates, ModelKeys, HandleMetrics, HandleModels, HandleCollector,
         BuildAll, MissingPredictors, ClosesTwice, Update, GetNoModelKey, Unchanged, NoOrphans;
    var k, m := EntryKey(spec, id, i), spec.models[id][i];
    PassIsBuilding(s, spec, ch);
    var s1 := HandleMetrics(s, spec, ch.metricAdd, ch.metricChange);
    var r := HandleModels(s1, spec, ch.modelOrder);
    HandleModelsDone(s1, spec, ch.modelOrder, id, i);
    HandleModelsKeys(s1, spec, ch.modelOrder);
    ChangesEnumerated(ch.changeOrder, r.changes, ModelKeys(spec));
    UnchangedFrame(s, s1, k, m);
    assert k in r.changes.Keys;
    AllJobsPlain(HandleCollector(r.state, spec, ch.collectorOrder), spec, ch.predictorOrder, r.changes,
                 Visits(ch.changeOrder, r.changes));
    var b, jobs := PassStart(s, spec, ch), PassJobs(s, spec, ch);
    assert k in JobKeys(jobs);
    BuildAllReached(b, jobs);
    assert jobs[..0] == [];
  }

  /** Without orphans every entry is visited. */
  lemma AllVisited(spec: Spec, ch: Choices, id: string)
    requires NoOrphans(spec) && Legal(ch, spec) && id in spec.models
    ensures VisitedEntry(spec, ch, id)
  {
    assert id in spec.models.Keys && id in ch.modelOrder;
    assert forall j :: j in ch.modelOrder ==> j in spec.models.Keys;
  }

  /** The state after the first success and the one after the failed pass keep every channel open. */
  lemma TwoPasses(spec: Spec, next: Spec, first: Choices, second: Choices)
    requires WellFormed(spec) && WellFormed(next) && next.metrics == spec.metrics
    requires Legal(first, spec) && Legal(second, next) && Valid(EMPTY)
    ensures var s1 := Update(EMPTY, spec, first).0;
            && CollectorsInv(s1, MetricKeys(spec)) && Valid(s1) && Wired(s1)
            && var s2 := Update(s1, next, second).0;
               CollectorsInv(s2, MetricKeys(spec)) && Valid(s2) && Wired(s2)
  {
    hide PlainTypes, DistinctModels, DistinctMetrics, NoOrphans, Valid, Wired, Legal, Update, CollectorsInv, MetricKeys;
    EmptyIsFine(MetricKeys(spec));
    UpdateKeepsCollectors(EMPTY, spec, first);
    UpdateSyncs(EMPTY, spec, first);
    var s1 := Update(EMPTY, spec, first).0;
    SameMetricKeys(spec, next);
    UpdateKeepsCollectors(s1, next, second);
    UpdateSyncs(s1, next, second);
  }

  lemma SameMetricKeys(spec: Spec, next: Spec)
    requires next.metrics == spec.metrics
    ensures MetricKeys(next) == MetricKeys(spec)
  {
  }

  /** Every such edit has a run that loses it: create, edit, fail once, retry. The retry succeeds
      and records the generation, and the predictor still has the old attributes. */
  lemma LostChangeRun(spec: Spec, next: Spec, id: string, i: nat) returns (events: seq<Event>)
    requires WellFormed(spec) && WellFormed(next) && AttrEdited(spec, next, id, i) && next.metrics == spec.metrics
    ensures Execute(spec, events).Some?
    ensures var c := Execute(spec, events).value;
            && c.spec == next && c.statusGeneration == c.generation
            && !FreshEntry(c.maps, next, id, i)
  {
    hide EntryKey, WellFormed, PlainTypes, DistinctModels, DistinctMetrics, NoOrphans, Valid, Wired, Legal, Update,
         CollectorsInv, MetricKeys, NoneStranded, ClosesTwice, FreshEntry, Unchanged, Execute;
    var first, failing, retry := ThreePasses(spec, next, id, i);
    var s1 := Update(EMPTY, spec, first).0;
    var s2 := Update(s1, next, failing).0;
    var c0 := Start(spec);
    var c1 := Cluster(1, 1, spec, s1, 1);
    var c2 := Cluster(2, 1, next, s1, 1);
    var c3 := c2.(maps := s2);
    assert Execute(spec, []) == Some(c0) by {
      NoEvents(spec);
    }
    ExecuteNext(spec, [], c0, Handle(first));
    ExecuteNext(spec, [] + [Handle(first)], c1, Edit(next));
    ExecuteNext(spec, [] + [Handle(first)] + [Edit(next)], c2, Handle(failing));
    ExecuteNext(spec, [] + [Handle(first)] + [Edit(next)] + [Handle(failing)], c3, Handle(retry));
    events := [] + [Handle(first)] + [Edit(next)] + [Handle(failing)] + [Handle(retry)];
  }

  lemma NoEvents(spec: Spec)
    ensures Execute(spec, []) == Some(Start(spec))
  {
  }

  lemma ThreePasses(spec: Spec, next: Spec, id: string, i: nat)
    returns (first: Choices, failing: Choices, retry: Choices)
    requires WellFormed(spec) && WellFormed(next) && AttrEdited(spec, next, id, i) && next.metrics == spec.metrics
    ensures Valid(EMPTY) && Legal(first, spec) && Legal(failing, next) && Legal(retry, next)
    ensures first.clientOk && first.addressOk && first.statusOk && failing.clientOk && retry.clientOk && retry.statusOk
    ensures Update(EMPTY, spec, first).1 == Success
    ensures var s1 := Update(EMPTY, spec, first).0;
            && Valid(s1) && Update(s1, next, failing).1 == Failure
            && var s2 := Update(s1, next, failing).0;
               && Valid(s2) && Update(s2, next, retry).1 == Success
               && !FreshEntry(Update(s2, next, retry).0, next, id, i)
  {
    hide EntryKey, PlainTypes, DistinctModels, DistinctMetrics, NoOrphans, Valid, Wired, Legal, Update,
         CollectorsInv, MetricKeys, NoneStranded, ClosesTwice, FreshEntry, Unchanged, BuiltKeys;
    var keys := MetricKeys(spec);
    EmptyIsFine(keys);
    OpenIsRecoverable(EMPTY, spec, keys);
    first := PassCanSucceed(EMPTY, spec);
    failing := SomeChoices(next);
    TwoPasses(spec, next, first, failing);
    var s1 := Update(EMPTY, spec, first).0;
    EditIsSeen(spec, next, first, id, i);
    OpenIsRecoverable(s1, next, keys);
    NoBudgetFails(s1, next, failing, id, i);
    AllVisited(next, failing, id);
    FailureLosesChange(s1, next, failing, id, i, next, id, i);
    assert LosesChange(s1, next, failing, id, i, next.models[id][i]);
    var s2 := Update(s1, next, failing).0;
    OpenIsRecoverable(s2, next, keys);
    retry := PassCanSucceed(s2, next);
  }

  // ---------------------------------------------------------------- a change lost to an orphan

  /** Choices under which handleModels visits `id` first. */
  lemma VisitFirst(spec: Spec, id: string) returns (ch: Choices)
    requires id in spec.models && id in spec.metrics
    ensures Legal(ch, spec) && ch.clientOk && VisitedEntry(spec, ch, id)
  {
    ch := SomeChoices(spec);
    var order := OrderFrom(spec.models.Keys, id);
    hide Enumerates, ModelKeys;
    assert BeforeOrphan(spec, order) != [];
    assert BeforeOrphan(spec, order)[0] == id;
    ch := ch.(modelOrder := order);
  }

  /** The pass over the orphan keeps every channel open. */
  lemma OrphanKeepsCollectors(s: State, spec: Spec, ch: Choices, keys: set<string>)
    requires CollectorsInv(s, keys) && Valid(s) && Legal(ch, spec) && !NoOrphans(spec)
    ensures Update(s, spec, ch).1 == Failure && CollectorsInv(Update(s, spec, ch).0, keys)
  {
    hide Enumerates, HandleMetrics, HandleModels, Update, CollectorsInv, Valid, NoOrphans, ModelKeys;
    OrphanStops(s, spec, ch);
    CollectorsFrame(s, Update(s, spec, ch).0, keys);
  }

  lemma OrphanPasses(spec: Spec, mid: Spec, next: Spec, id: string, i: nat, id': string, j: nat)
    returns (first: Choices, failing: Choices, retry: Choices)
    requires WellFormed(spec) && WellFormed(next) && PlainTypes(mid) && DistinctModels(mid) && !NoOrphans(mid)
    requires AttrEdited(spec, mid, id, i)
    requires SameEntry(mid, id, i, next, id', j) && next.models[id'][j] == mid.models[id][i]
    ensures Valid(EMPTY) && Legal(first, spec) && Legal(failing, mid) && Legal(retry, next)
    ensures first.clientOk && first.addressOk && first.statusOk && failing.clientOk && retry.clientOk && retry.statusOk
    ensures Update(EMPTY, spec, first).1 == Success
    ensures var s1 := Update(EMPTY, spec, first).0;
            && Valid(s1) && Update(s1, mid, failing).1 == Failure
            && var s2 := Update(s1, mid, failing).0;
               && Valid(s2) && Update(s2, next, retry).1 == Success
               && !FreshEntry(Update(s2, next, retry).0, next, id', j)
  {
    hide EntryKey, PlainTypes, DistinctModels, DistinctMetrics, NoOrphans, Valid, Wired, Legal, Update,
         CollectorsInv, MetricKeys, NoneStranded, ClosesTwice, FreshEntry, Unchanged, VisitedEntry;
    var keys := MetricKeys(spec);
    EmptyIsFine(keys);
    OpenIsRecoverable(EMPTY, spec, keys);
    first := PassCanSucceed(EMPTY, spec);
    UpdateKeepsCollectors(EMPTY, spec, first);
    UpdateSyncs(EMPTY, spec, first);
    var s1 := Update(EMPTY, spec, first).0;
    failing := VisitFirst(mid, id);
    EditIsSeen(spec, mid, first, id, i);
    OrphanKeepsCollectors(s1, mid, failing, keys);
    UpdateSyncs(s1, mid, failing);
    FailureLosesChange(s1, mid, failing, id, i, next, id', j);
    assert LosesChange(s1, mid, failing, id, i, next.models[id'][j]);
    var s2 := Update(s1, mid, failing).0;
    OpenIsRecoverable(s2, next, keys);
    retry := PassCanSucceed(s2, next);
  }

  /** Nor does it take a failed construction: edit the attributes of a list's last model together
      with a model that has no metric, and take only the orphan away again. The second edit
      reconciles, the generation is current, and the predictor still has the old attributes. */
  lemma OrphanLosesChangeRun(spec: Spec, mid: Spec, next: Spec, id: string, i: nat, id': string, j: nat)
    returns (events: seq<Event>)
    requires WellFormed(spec) && WellFormed(next) && PlainTypes(mid) && DistinctModels(mid) && !NoOrphans(mid)
    requires AttrEdited(spec, mid, id, i)
    requires SameEntry(mid, id, i, next, id', j) && next.models[id'][j] == mid.models[id][i]
    ensures Execute(spec, events).Some?
    ensures var c := Execute(spec, events).value;
            && c.spec == next && c.statusGeneration == c.generation
            && !FreshEntry(c.maps, next, id', j)
  {
    hide EntryKey, WellFormed, PlainTypes, DistinctModels, DistinctMetrics, NoOrphans, Valid, Wired, Legal, Update,
         FreshEntry, Unchanged, Execute;
    var first, failing, retry := OrphanPasses(spec, mid, next, id, i, id', j);
    var s1 := Update(EMPTY, spec, first).0;
    var s2 := Update(s1, mid, failing).0;
    var c0 := Start(spec);
    var c1 := Cluster(1, 1, spec, s1, 1);
    var c2 := Cluster(2, 1, mid, s1, 1);
    var c3 := c2.(maps := s2);
    var c4 := c3.(spec := next, generation := 3);
    assert Execute(spec, []) == Some(c0) by {
      NoEvents(spec);
    }
    ExecuteNext(spec, [], c0, Handle(first));
    ExecuteNext(spec, [] + [Handle(first)], c1, Edit(mid));
    ExecuteNext(spec, [] + [Handle(first)] + [Edit(mid)], c2, Handle(failing));
    ExecuteNext(spec, [] + [Handle(first)] + [Edit(mid)] + [Handle(failing)], c3, Edit(next));
    ExecuteNext(spec, [] + [Handle(first)] + [Edit(mid)] + [Handle(failing)] + [Edit(next)], c4, Handle(retry));
    events := [] + [Handle(first)] + [Edit(mid)] + [Handle(failing)] + [Edit(next)] + [Handle(retry)];
  }

  // ---------------------------------------------------------------- a dropped metric

  /** The channels and workers after a pass that gets to handleCollector. */
  lemma PassCollectors(s: State, spec: Spec, ch: Choices)
    requires Valid(s) && Legal(ch, spec) && NoOrphans(spec) && !ClosesTwice(s, spec)
    ensures var s' := Update(s, spec, ch).0;
            && s'.collectorMap.Keys == s.collectorMap.Keys + MetricKeys(spec)
            && forall k :: k in s'.workerMap <==> k in MetricKeys(spec) && (k in s.workerMap || k !in s.collectorMap)
  {
    hide MetricKeys, ModelKeys, Enumerates, HandleMetrics, HandleModels, HandleCollector, ClosesTwice, Valid, BuildAll,
         MissingPredictors, Update, NoOrphans;
    PassIsBuilding(s, spec, ch);
    var m := HandleModels(HandleMetrics(s, spec, ch.metricAdd, ch.metricChange), spec, ch.modelOrder);
    HandleCollectorKeys(m.state, spec, ch.collectorOrder);
  }

  lemma DropPasses(spec: Spec, next: Spec) returns (first: Choices, second: Choices)
    requires WellFormed(spec) && WellFormed(next)
    ensures Valid(EMPTY) && Legal(first, spec) && Legal(second, next)
    ensures first.clientOk && first.addressOk && first.statusOk && second.clientOk && second.statusOk
    ensures Update(EMPTY, spec, first).1 == Success
    ensures var s1 := Update(EMPTY, spec, first).0;
            && Valid(s1) && Update(s1, next, second).1 == Success
            && var s2 := Update(s1, next, second).0;
               && Valid(s2) && Wired(s2) && InSync(s2, next)
               && forall k :: k in MetricKeys(spec) - MetricKeys(next) ==> k in s2.collectorMap && k !in s2.workerMap
  {
    hide PlainTypes, DistinctModels, DistinctMetrics, NoOrphans, Valid, Wired, Legal, Update, CollectorsInv, MetricKeys,
         NoneStranded, ClosesTwice, InSync;
    var keys := MetricKeys(spec);
    EmptyIsFine(keys);
    OpenIsRecoverable(EMPTY, spec, keys);
    first := PassCanSucceed(EMPTY, spec);
    UpdateKeepsCollectors(EMPTY, spec, first);
    UpdateSyncs(EMPTY, spec, first);
    var s1 := Update(EMPTY, spec, first).0;
    OpenIsRecoverable(s1, next, keys);
    second := PassCanSucceed(s1, next);
    UpdateSyncs(s1, next, second);
    PassCollectors(s1, next, second);
  }

  /** What a run that creates `spec` and drops some of its metrics leads to. */
  ghost predicate HasDropped(c: Cluster, spec: Spec, next: Spec) {
    && c.spec == next && c.statusGeneration == c.generation >= 1
    && Valid(c.maps) && Wired(c.maps) && InSync(c.maps, next)
    && forall k :: k in MetricKeys(spec) - MetricKeys(next) ==> k in c.maps.collectorMap && k !in c.maps.workerMap
  }

  lemma DropRun(spec: Spec, next: Spec) returns (events: seq<Event>)
    requires WellFormed(spec) && WellFormed(next)
    ensures Execute(spec, events).Some? && HasDropped(Execute(spec, events).value, spec, next)
    ensures forall i :: 0 <= i < |events| ==> events[i].Handle? || events[i] == Edit(next)
  {
    hide WellFormed, Valid, Wired, Legal, Update, MetricKeys, InSync, Execute;
    var first, second := DropPasses(spec, next);
    var s1 := Update(EMPTY, spec, first).0;
    var s2 := Update(s1, next, second).0;
    var c0 := Start(spec);
    var c1 := Cluster(1, 1, spec, s1, 1);
    var c2 := Cluster(2, 1, next, s1, 1);
    assert Execute(spec, []) == Some(c0) by {
      NoEvents(spec);
    }
    ExecuteNext(spec, [], c0, Handle(first));
    ExecuteNext(spec, [] + [Handle(first)], c1, Edit(next));
    ExecuteNext(spec, [] + [Handle(first)] + [Edit(next)], c2, Handle(second));
    events := [] + [Handle(first)] + [Edit(next)] + [Handle(second)];
  }

  /** From the creation of any object: drop a metric, reconcile, and edit once more, and every
      reconcile that reaches the API server panics on a second close. */
  lemma DoubleCloseRun(spec: Spec, next: Spec, k: string) returns (events: seq<Event>)
    requires WellFormed(spec) && WellFormed(next) && k in MetricKeys(spec) - MetricKeys(next)
    ensures Execute(spec, events).Some?
    ensures var c := Execute(spec, events).value;
            && Valid(c.maps) && c.spec == next
            && (exists ch :: Legal(ch, next) && ch.clientOk)
            && forall ch :: Legal(ch, next) && ch.clientOk ==> Reconcile(c, ch).1 == Panic
  {
    hide PlainTypes, DistinctModels, DistinctMetrics, NoOrphans, Valid, Wired, Legal, MetricKeys, InSync, Execute,
         Reconcile;
    var run := DropRun(spec, next);
    var c := Execute(spec, run).value;
    ExecuteNext(spec, run, c, Edit(next));
    events := run + [Edit(next)];
    var some := SomeChoices(next);
    forall ch | Legal(ch, next) && ch.clientOk ensures Reconcile(Apply(c, Edit(next)), ch).1 == Panic {
      PanicsExactlyWhen(Apply(c, Edit(next)), ch);
    }
  }

  /** And if the edit brings the metric back with a model, the object never reconciles again, for
      any number of retries. */
  lemma ReturnedMetricRun(spec: Spec, next: Spec, back: Spec, id: string) returns (events: seq<Event>)
    requires WellFormed(spec) && WellFormed(next) && PlainTypes(back)
    requires id in back.metrics && id in back.models && |back.models[id]| >= 1
    requires NoModelKey(back.metrics[id]) in MetricKeys(spec) - MetricKeys(next)
    ensures Execute(spec, events).Some? && Execute(spec, events).value.spec == back
    ensures forall retries :: OnlyRetries(retries) && Execute(spec, events + retries).Some? ==>
              var c := Execute(spec, events + retries).value;
              c.spec == back && c.statusGeneration != c.generation
  {
    hide PlainTypes, DistinctModels, DistinctMetrics, NoOrphans, Valid, Wired, MetricKeys, InSync, Execute, NoModelKey,
         OnlyRetries;
    var run := DropRun(spec, next);
    var c := Execute(spec, run).value;
    ExecuteNext(spec, run, c, Edit(back));
    events := run + [Edit(back)];
    assert Stranded(c.maps, back, id);
    forall retries | OnlyRetries(retries) && Execute(spec, events + retries).Some?
      ensures var c' := Execute(spec, events + retries).value; c'.spec == back && c'.statusGeneration != c'.generation
    {
      ReturnedMetricNeverReconciles(spec, events, retries, id);
    }
  }
}
