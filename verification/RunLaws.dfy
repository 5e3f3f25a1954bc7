/** Theorems about whole runs of reconciles. */
module RunLaws {
  import opened Domain
  import opened Keys
  import opened Orders
  import opened Reconciler
  import opened ReconcilerLaws
  import opened PredictorLaws
  import opened Runs

  // ---------------------------------------------------------------- referential closure

  /** The maps hold exactly the keys of the spec. */
  ghost predicate InSync(s: State, spec: Spec) {
    && NoOrphans(spec)
    && s.metricMap.Keys == MetricKeys(spec)
    && s.modelMap.Keys == ModelKeys(spec)
    && s.predictorMap.Keys == ModelKeys(spec)
  }

  lemma WiredFrame(s: State, s': State)
    requires s'.predictorMap == s.predictorMap && s'.workerMap == s.workerMap
    ensures Wired(s) <==> Wired(s')
  {
  }

  lemma ValidFrame(s: State, s': State)
    requires s'.(predictorMap := s.predictorMap) == s
    ensures Valid(s) <==> Valid(s')
  {
  }

  /** One pass through the handlers keeps the maps valid and wired however far it gets, and
      brings them in sync if it succeeds. */
  lemma UpdateSyncs(s: State, spec: Spec, ch: Choices)
    requires Valid(s) && Wired(s) && Legal(ch, spec) && PlainTypes(spec)
    ensures var (s', v) := Update(s, spec, ch);
            && (v != Panic ==> Valid(s') && Wired(s'))
            && (v == Success ==> InSync(s', spec))
  {
    hide MetricKeys, ModelKeys, Wired, Valid, ModelsValid, PlainTypes, Enumerates, HandleMetrics, HandleModels,
         HandleCollector, HandlePredictor, ClosesTwice, NoOrphans, DropPredictors;
    var s1 := HandleMetrics(s, spec, ch.metricAdd, ch.metricChange);
    var m := HandleModels(s1, spec, ch.modelOrder);
    HandleModelsKeys(s1, spec, ch.modelOrder);
    WiredFrame(s, s1);
    WiredFrame(s1, m.state);
    if m.ok && !ClosesTwice(m.state, spec) {
      ChangesEnumerated(ch.changeOrder, m.changes, ModelKeys(spec));
      WiredThroughCollector(m.state, spec, ch.collectorOrder);
      var s3 := HandleCollector(m.state, spec, ch.collectorOrder);
      var order := Visits(ch.changeOrder, m.changes);
      HandlePredictorKeys(s3, spec, ch.predictorOrder, m.changes, order, ch.budget);
      ValidFrame(s3, HandlePredictor(s3, spec, ch.predictorOrder, m.changes, order, ch.budget).state);
    }
  }

  ghost predicate RunInv(c: Cluster) {
    && Valid(c.maps) && Wired(c.maps)
    && c.statusGeneration <= c.generation && c.generation >= 1
    && (c.statusGeneration == c.generation ==> InSync(c.maps, c.spec))
  }

  /** Every spec the run mentions has separator-free model types. */
  ghost predicate PlainRun(spec: Spec, events: seq<Event>) {
    && PlainTypes(spec)
    && forall i :: 0 <= i < |events| && !events[i].Handle? ==> PlainTypes(events[i].spec)
  }

  lemma ReconcileKeepsInv(c: Cluster, ch: Choices)
    requires RunInv(c) && PlainTypes(c.spec) && Legal(ch, c.spec) && Reconcile(c, ch).1 != Panic
    ensures RunInv(Reconcile(c, ch).0) && Reconcile(c, ch).0.spec == c.spec
    ensures Reconcile(c, ch).1 == Success ==>
              Reconcile(c, ch).0.statusGeneration == c.generation == Reconcile(c, ch).0.generation
  {
    hide Valid, Wired, InSync, PlainTypes, Legal, Update;
    UpdateSyncs(c.maps, c.spec, ch);
  }

  lemma StartInv(spec: Spec)
    ensures RunInv(Start(spec))
  {
  }

  lemma StepKeepsInv(c: Cluster, e: Event)
    requires RunInv(c) && PlainTypes(c.spec) && CanHappen(c, e) && (!e.Handle? ==> PlainTypes(e.spec))
    ensures RunInv(Apply(c, e)) && PlainTypes(Apply(c, e).spec)
  {
    hide RunInv, PlainTypes, Reconcile, Legal, Valid;
    if e.Handle? {
      ReconcileKeepsInv(c, e.ch);
    } else {
      NewSpecKeepsInv(c, e);
    }
  }

  lemma {:induction false} RunKeepsInv(spec: Spec, events: seq<Event>)
    requires PlainRun(spec, events) && Execute(spec, events).Some?
    ensures var c := Execute(spec, events).value; RunInv(c) && PlainTypes(c.spec)
  {
    hide RunInv, PlainTypes, CanHappen, Apply;
    if |events| == 0 {
      StartInv(spec);
    } else {
      var n := |events| - 1;
      RunKeepsInv(spec, events[..n]);
      StepKeepsInv(Execute(spec, events[..n]).value, events[n]);
    }
  }

  lemma NewSpecKeepsInv(c: Cluster, e: Event)
    requires RunInv(c) && !e.Handle?
    ensures RunInv(Apply(c, e)) && Apply(c, e).spec == e.spec
  {
  }

  /** Every look-up the scheduler makes for a stored predictor finds something, and the
      predictor reads the worker registered for its own metric. */
  ghost predicate LookupsSucceed(s: State) {
    forall k :: k in s.predictorMap ==>
      && k in s.modelMap
      && GetNoModelKey(k) in s.metricMap
      && GetNoModelKey(k) in s.workerMap
      && s.predictorMap[k].worker == s.workerMap[GetNoModelKey(k)]
  }

  lemma SyncedLookupsSucceed(c: Cluster)
    requires RunInv(c) && PlainTypes(c.spec) && c.statusGeneration == c.generation
    ensures InSync(c.maps, c.spec) && LookupsSucceed(c.maps)
  {
    hide GetNoModelKey, MetricKeys, ModelKeys, PlainTypes;
    forall k | k in c.maps.predictorMap ensures GetNoModelKey(k) in c.maps.metricMap {
      ModelKeyHasMetric(c.spec, k);
    }
  }

  /** Referential closure: in every run, with failures, retries, edits and recreations, whenever
      the recorded generation is current, and so after every reconcile that succeeds, the maps hold
      exactly the spec's keys and every scheduler look-up succeeds. */
  lemma ReferentialClosure(spec: Spec, events: seq<Event>)
    requires PlainRun(spec, events) && Execute(spec, events).Some?
    ensures var c := Execute(spec, events).value;
            && (c.statusGeneration == c.generation ==> InSync(c.maps, c.spec) && LookupsSucceed(c.maps))
            && Valid(c.maps)
            && forall ch :: Legal(ch, c.spec) && Reconcile(c, ch).1 == Success ==>
                 var c' := Reconcile(c, ch).0;
                 c'.statusGeneration == c'.generation && InSync(c'.maps, c'.spec) && LookupsSucceed(c'.maps)
  {
    hide PlainTypes, Legal, Reconcile, InSync, LookupsSucceed;
    RunKeepsInv(spec, events);
    var c := Execute(spec, events).value;
    if c.statusGeneration == c.generation {
      SyncedLookupsSucceed(c);
    }
    forall ch | Legal(ch, c.spec) && Reconcile(c, ch).1 == Success
      ensures var c' := Reconcile(c, ch).0;
              c'.statusGeneration == c'.generation && InSync(c'.maps, c'.spec) && LookupsSucceed(c'.maps)
    {
      ReconcileKeepsInv(c, ch);
      SyncedLookupsSucceed(Reconcile(c, ch).0);
    }
  }

  // ---------------------------------------------------------------- freshness

  ghost predicate Fresh(s: State, spec: Spec) {
    forall id, i :: Entry(spec, id, i) ==> FreshEntry(s, spec, id, i)
  }

  /** The stored model of an entry reads as the spec's, or as one of another type: the last of
      the list it was stored with. */
  ghost predicate ReadsOwnOrOther(s: State, spec: Spec, id: string, i: nat)
    requires Entry(spec, id, i)
  {
    var k, m := EntryKey(spec, id, i), spec.models[id][i];
    && k in s.modelMap && s.modelMap[k] < |s.modelCells|
    && (s.modelCells[s.modelMap[k]].modelType == m.modelType ==> s.modelCells[s.modelMap[k]] == m)
  }

  ghost predicate CellsAgree(s: State, spec: Spec) {
    forall id, i :: Entry(spec, id, i) ==> ReadsOwnOrOther(s, spec, id, i)
  }

  /** A successful pass leaves an entry fresh exactly when it misses no change, in terms of the
      maps before the pass: a predictor stays stale when its stored model already reads as the
      spec's, or is not stored. */
  ghost predicate WillMissChange(s: State, spec: Spec, id: string, i: nat)
    requires Entry(spec, id, i)
  {
    var k, m := EntryKey(spec, id, i), spec.models[id][i];
    && k in s.predictorMap && s.predictorMap[k].attr != m.attr
    && (k in s.modelMap ==> Unchanged(s, k, m))
  }

  lemma FreshExactlyWhen(s: State, spec: Spec, ch: Choices, id: string, i: nat)
    requires Valid(s) && Wired(s) && Legal(ch, spec) && PlainTypes(spec) && DistinctModels(spec)
    requires Entry(spec, id, i) && Update(s, spec, ch).1 == Success
    ensures var s' := Update(s, spec, ch).0;
            && ReadsOwnOrOther(s', spec, id, i)
            && (FreshEntry(s', spec, id, i) <==> !WillMissChange(s, spec, id, i))
  {
    hide MetricKeys, ModelKeys, GetNoModelKey, PlainTypes, DistinctModels, Enumerates, EntryKey, HandleMetrics,
         HandleModels, HandleCollector, HandlePredictor, ClosesTwice, Wired, NoOrphans;
    var s1 := HandleMetrics(s, spec, ch.metricAdd, ch.metricChange);
    var m := HandleModels(s1, spec, ch.modelOrder);
    HandleModelsKeys(s1, spec, ch.modelOrder);
    ChangesEnumerated(ch.changeOrder, m.changes, ModelKeys(spec));
    HandleModelsDone(s1, spec, ch.modelOrder, id, i);
    var s3 := HandleCollector(m.state, spec, ch.collectorOrder);
    FreshExactlyWhenNoChangeMissed(s3, spec, ch.predictorOrder, m.changes, Visits(ch.changeOrder, m.changes),
                                   ch.budget, id, i);
    hide Valid;
    assert Unchanged(s1, EntryKey(spec, id, i), spec.models[id][i])
      <==> Unchanged(s, EntryKey(spec, id, i), spec.models[id][i]);
  }

  ghost predicate StepSucceeds(c: Cluster, e: Event) {
    e.Handle? ==> CanHappen(c, e) && Reconcile(c, e.ch).1 == Success
  }

  /** Every reconcile of the run succeeds. */
  ghost predicate AllSucceed(spec: Spec, events: seq<Event>) {
    |events| > 0 ==>
      && AllSucceed(spec, events[..|events| - 1])
      && Execute(spec, events[..|events| - 1]).Some?
      && StepSucceeds(Execute(spec, events[..|events| - 1]).value, events[|events| - 1])
  }

  ghost predicate DistinctRun(spec: Spec, events: seq<Event>) {
    && DistinctModels(spec)
    && forall i :: 0 <= i < |events| && !events[i].Handle? ==> DistinctModels(events[i].spec)
  }

  /** The predictors and stored models all come from one past spec. */
  ghost predicate BuiltFrom(s: State, past: Spec) {
    && PlainTypes(past) && DistinctModels(past)
    && s.predictorMap.Keys == s.modelMap.Keys == ModelKeys(past)
    && Fresh(s, past) && CellsAgree(s, past)
  }

  /** The entry of a model key. */
  lemma EntryOfKey(spec: Spec, k: string) returns (id: string, i: nat)
    requires k in ModelKeys(spec)
    ensures Entry(spec, id, i) && EntryKey(spec, id, i) == k
  {
    hide WithModelKey;
    var m;
    id, m :| id in spec.models && id in spec.metrics && m in spec.models[id]
             && k == WithModelKey(spec.metrics[id], m.modelType);
    i :| 0 <= i < |spec.models[id]| && spec.models[id][i] == m;
  }

  /** Entries of two specs with one key are models of one type. */
  lemma SameKeySameType(a: Spec, b: Spec, id: string, i: nat, id': string, i': nat)
    requires PlainTypes(a) && PlainTypes(b) && Entry(a, id, i) && Entry(b, id', i')
    requires EntryKey(a, id, i) == EntryKey(b, id', i')
    ensures a.models[id][i].modelType == b.models[id'][i'].modelType
  {
    hide NoModelKey;
    RecoverPlainType(NoModelKey(a.metrics[id]), a.models[id][i].modelType);
    RecoverPlainType(NoModelKey(b.metrics[id']), b.models[id'][i'].modelType);
  }

  /** Maps built from one spec miss no change on the way to another. */
  lemma NothingMissed(s: State, past: Spec, spec: Spec, id: string, i: nat)
    requires BuiltFrom(s, past) && PlainTypes(spec) && Entry(spec, id, i)
    ensures !WillMissChange(s, spec, id, i)
  {
    hide EntryKey, DistinctModels, PlainTypes;
    var k := EntryKey(spec, id, i);
    if k in s.predictorMap && Unchanged(s, k, spec.models[id][i]) {
      var id', i' := EntryOfKey(past, k);
      assert FreshEntry(s, past, id', i') && ReadsOwnOrOther(s, past, id', i');
      SameKeySameType(spec, past, id, i, id', i');
    }
  }

  lemma UpdateBuilds(s: State, past: Spec, spec: Spec, ch: Choices)
    requires Valid(s) && Wired(s) && Legal(ch, spec) && PlainTypes(spec) && DistinctModels(spec)
    requires s == EMPTY || BuiltFrom(s, past)
    requires Update(s, spec, ch).1 == Success
    ensures BuiltFrom(Update(s, spec, ch).0, spec)
  {
    hide EntryKey, DistinctModels, PlainTypes, Valid, Wired, Legal, Update, ModelKeys;
    var s' := Update(s, spec, ch).0;
    UpdateSyncs(s, spec, ch);
    forall id, i | Entry(spec, id, i) ensures FreshEntry(s', spec, id, i) && ReadsOwnOrOther(s', spec, id, i) {
      if s != EMPTY {
        NothingMissed(s, past, spec, id, i);
      }
      FreshExactlyWhen(s, spec, ch, id, i);
    }
  }

  ghost predicate FreshInv(c: Cluster) {
    && (c.maps == EMPTY || exists past :: BuiltFrom(c.maps, past))
    && (c.statusGeneration == c.generation ==> BuiltFrom(c.maps, c.spec))
  }

  lemma ReconcileKeepsFresh(c: Cluster, ch: Choices)
    requires RunInv(c) && FreshInv(c) && PlainTypes(c.spec) && DistinctModels(c.spec)
    requires Legal(ch, c.spec) && Reconcile(c, ch).1 == Success
    ensures FreshInv(Reconcile(c, ch).0)
  {
    hide Valid, Wired, InSync, PlainTypes, DistinctModels, Legal, Update, BuiltFrom;
    if c.statusGeneration != c.generation {
      var past := c.spec;
      if c.maps != EMPTY {
        past :| BuiltFrom(c.maps, past);
      }
      UpdateBuilds(c.maps, past, c.spec, ch);
    }
  }

  lemma StepKeepsFresh(c: Cluster, e: Event)
    requires RunInv(c) && FreshInv(c) && PlainTypes(c.spec) && DistinctModels(c.spec)
    requires CanHappen(c, e) && StepSucceeds(c, e)
    ensures FreshInv(Apply(c, e))
    ensures Apply(c, e).spec == if e.Handle? then c.spec else e.spec
  {
    hide BuiltFrom, Valid, Wired, InSync, Legal, Update, PlainTypes, DistinctModels;
    if e.Handle? {
      ReconcileKeepsFresh(c, e.ch);
    }
  }

  lemma {:induction false} RunKeepsFresh(spec: Spec, events: seq<Event>)
    requires PlainRun(spec, events) && DistinctRun(spec, events)
    requires Execute(spec, events).Some? && AllSucceed(spec, events)
    ensures FreshInv(Execute(spec, events).value) && DistinctModels(Execute(spec, events).value.spec)
  {
    if |events| > 0 {
      hide RunInv, FreshInv, PlainTypes, DistinctModels, CanHappen, Apply, StepSucceeds;
      var n := |events| - 1;
      assert forall i :: 0 <= i < n ==> events[..n][i] == events[i];
      RunKeepsFresh(spec, events[..n]);
      RunKeepsInv(spec, events[..n]);
      StepKeepsFresh(Execute(spec, events[..n]).value, events[n]);
    } else {
      assert Execute(spec, events) == Some(Start(spec));
    }
  }

  /** Predictor freshness: in a run whose reconciles all succeed, whenever the recorded generation
      is current every predictor was built from the current spec's attributes. This holds with
      the loop-variable pointers of the source, although the stored models behind them may not
      be the spec's. */
  lemma PredictorFreshness(spec: Spec, events: seq<Event>)
    requires PlainRun(spec, events) && DistinctRun(spec, events)
    requires Execute(spec, events).Some? && AllSucceed(spec, events)
    ensures var c := Execute(spec, events).value;
            c.statusGeneration == c.generation ==> Fresh(c.maps, c.spec)
  {
    RunKeepsFresh(spec, events);
  }

  // ---------------------------------------------------------------- lost changes

  /** Where a pass starts building. */
  ghost function PassStart(s: State, spec: Spec, ch: Choices): Building
    requires Valid(s) && Legal(ch, spec)
  {
    var m := HandleModels(HandleMetrics(s, spec, ch.metricAdd, ch.metricChange), spec, ch.modelOrder);
    Building(DropPredictors(HandleCollector(m.state, spec, ch.collectorOrder), spec), ch.budget, true)
  }

  /** What it would build. */
  ghost function PassJobs(s: State, spec: Spec, ch: Choices): seq<Job>
    requires Valid(s) && Legal(ch, spec) && NoOrphans(spec)
  {
    var s1 := HandleMetrics(s, spec, ch.metricAdd, ch.metricChange);
    var m := HandleModels(s1, spec, ch.modelOrder);
    HandleModelsKeys(s1, spec, ch.modelOrder);
    ChangesEnumerated(ch.changeOrder, m.changes, ModelKeys(spec));
    AllJobs(HandleCollector(m.state, spec, ch.collectorOrder), spec, ch.predictorOrder, m.changes,
            Visits(ch.changeOrder, m.changes))
  }

  /** The keys it does build, before the first job without a worker or construction; none if it
      stops at a model without a metric. */
  ghost function BuiltKeys(s: State, spec: Spec, ch: Choices): set<string>
    requires Valid(s) && Legal(ch, spec)
  {
    if !NoOrphans(spec) then {}
    else
      var jobs := PassJobs(s, spec, ch);
      JobKeys(jobs[..Reached(PassStart(s, spec, ch), jobs)])
  }

  lemma PassIsBuilding(s: State, spec: Spec, ch: Choices)
    requires Valid(s) && Legal(ch, spec) && NoOrphans(spec) && !ClosesTwice(s, spec)
    ensures var r := BuildAll(PassStart(s, spec, ch), PassJobs(s, spec, ch));
            Update(s, spec, ch) == (r.state, if r.ok then Success else Failure)
  {
    hide ModelKeys, Enumerates, HandleMetrics, HandleModels, HandleCollector, ClosesTwice, BuildAll, MissingPredictors,
         Valid, NoOrphans;
    var s1 := HandleMetrics(s, spec, ch.metricAdd, ch.metricChange);
    HandleModelsKeys(s1, spec, ch.modelOrder);
    ClosesTwiceFrame(s, HandleModels(s1, spec, ch.modelOrder).state, spec);
  }

  lemma UnchangedFrame(s: State, s': State, k: string, m: Model)
    requires s'.modelMap == s.modelMap && s'.modelCells == s.modelCells
    ensures Unchanged(s, k, m) <==> Unchanged(s', k, m)
  {
  }

  /** handleModels visits the entry before any orphan. */
  ghost predicate VisitedEntry(spec: Spec, ch: Choices, id: string) {
    id in BeforeOrphan(spec, ch.modelOrder)
  }

  /** What handleModels leaves stored for an entry, as to a model `m` of its type: if it visits the
      entry, the stored model reads as `m` exactly if `m` is the entry's and either it read so before
      or the entry is the last of its list; if not, nothing has changed. */
  lemma StoredAfterPass(s: State, spec: Spec, ch: Choices, id: string, i: nat, m: Model)
    requires Valid(s) && DistinctModels(spec) && Legal(ch, spec) && Entry(spec, id, i)
    requires m.modelType == spec.models[id][i].modelType
    ensures var r, k := HandleModels(s, spec, ch.modelOrder).state, EntryKey(spec, id, i);
            if VisitedEntry(spec, ch, id) then
              && k in r.modelMap
              && (Unchanged(r, k, m) <==>
                    m == spec.models[id][i] && (i == |spec.models[id]| - 1 || Unchanged(s, k, m)))
            else
              && (k in r.modelMap <==> k in s.modelMap)
              && (Unchanged(r, k, m) <==> Unchanged(s, k, m))
  {
    hide EntryKey, DistinctModels, StoreModels, ModelKeys;
    var before := BeforeOrphan(spec, ch.modelOrder);
    assert forall j :: j in ch.modelOrder ==> j in spec.models.Keys;
    StopsAtOrphan(s, spec, ch.modelOrder);
    EntryKeyInList(spec, id, i);
    StoreModelsKeys(s, spec, ch.modelOrder);
    var k, stored := EntryKey(spec, id, i), StoreModels(s, spec, before);
    if id in before {
      VisitedDone(s, spec, before, id, i);
    } else {
      UnvisitedKept(s, spec, before, id, i);
      if k in s.modelMap {
        var c := s.modelMap[k];
        assert stored.state.modelCells[c] == stored.state.modelCells[..|s.modelCells|][c] == s.modelCells[c];
      }
    }
  }

  /** A pass that stops at an orphan changes nothing after the models. */
  lemma OrphanStops(s: State, spec: Spec, ch: Choices)
    requires Valid(s) && Legal(ch, spec) && !NoOrphans(spec)
    ensures Update(s, spec, ch).1 == Failure
    ensures var s' := Update(s, spec, ch).0;
            s' == HandleModels(HandleMetrics(s, spec, ch.metricAdd, ch.metricChange), spec, ch.modelOrder).state
  {
    hide ModelKeys, Enumerates, HandleMetrics, HandleModels, HandleCollector, HandlePredictor, ClosesTwice, Valid,
         NoOrphans;
    HandleModelsKeys(HandleMetrics(s, spec, ch.metricAdd, ch.metricChange), spec, ch.modelOrder);
  }

  /** The predictor after a pass: the old one unless the pass built it. */
  lemma PredictorAfterPass(s: State, spec: Spec, ch: Choices, id: string, i: nat)
    requires Valid(s) && PlainTypes(spec) && DistinctModels(spec) && Entry(spec, id, i)
    requires Legal(ch, spec) && Update(s, spec, ch).1 != Panic
    ensures var s1, k, m := Update(s, spec, ch).0, EntryKey(spec, id, i), spec.models[id][i];
            && (if k in BuiltKeys(s, spec, ch) then k in s1.predictorMap && s1.predictorMap[k].attr == m.attr
                else k in s1.predictorMap <==> k in s.predictorMap)
            && (k !in BuiltKeys(s, spec, ch) && k in s.predictorMap ==> s1.predictorMap[k] == s.predictorMap[k])
  {
    hide EntryKey, DistinctModels, PlainTypes, Enumerates, ModelKeys, HandleMetrics, HandleModels, HandleCollector,
         BuildAll, MissingPredictors, ClosesTwice, Update, GetNoModelKey, JobKeys, Reached, NoOrphans;
    var k, m := EntryKey(spec, id, i), spec.models[id][i];
    if NoOrphans(spec) {
      NoPanicNoDoubleClose(s, spec, ch);
      PassIsBuilding(s, spec, ch);
      var s1 := HandleMetrics(s, spec, ch.metricAdd, ch.metricChange);
      var r := HandleModels(s1, spec, ch.modelOrder);
      HandleModelsDone(s1, spec, ch.modelOrder, id, i);
      HandleModelsKeys(s1, spec, ch.modelOrder);
      ChangesEnumerated(ch.changeOrder, r.changes, ModelKeys(spec));
      var b, jobs := PassStart(s, spec, ch), PassJobs(s, spec, ch);
      BuildAllReached(b, jobs);
      AllJobsFromSpec(HandleCollector(r.state, spec, ch.collectorOrder), spec, ch.predictorOrder, r.changes,
                      Visits(ch.changeOrder, r.changes), id, i);
      BuildAllAttr(b, jobs[..Reached(b, jobs)], k, m.attr);
      EntryKeyInList(spec, id, i);
    } else {
      OrphanStops(s, spec, ch);
    }
  }

  lemma NoPanicNoDoubleClose(s: State, spec: Spec, ch: Choices)
    requires Valid(s) && Legal(ch, spec) && NoOrphans(spec) && Update(s, spec, ch).1 != Panic
    ensures !ClosesTwice(s, spec)
  {
    hide ModelKeys, Enumerates, HandleMetrics, HandleModels, HandleCollector, HandlePredictor, ClosesTwice, Valid,
         NoOrphans;
    var s1 := HandleMetrics(s, spec, ch.metricAdd, ch.metricChange);
    HandleModelsKeys(s1, spec, ch.modelOrder);
    ClosesTwiceFrame(s, HandleModels(s1, spec, ch.modelOrder).state, spec);
  }

  lemma PassModels(s: State, spec: Spec, ch: Choices)
    requires Valid(s) && Legal(ch, spec) && Update(s, spec, ch).1 != Panic
    ensures var r, s' := HandleModels(HandleMetrics(s, spec, ch.metricAdd, ch.metricChange), spec, ch.modelOrder).state,
                         Update(s, spec, ch).0;
            s'.modelMap == r.modelMap && s'.modelCells == r.modelCells
  {
    hide ModelKeys, Enumerates, HandleMetrics, HandleModels, HandleCollector, BuildAll, MissingPredictors, ClosesTwice,
         Valid, NoOrphans, Update;
    if NoOrphans(spec) {
      NoPanicNoDoubleClose(s, spec, ch);
      PassIsBuilding(s, spec, ch);
    } else {
      OrphanStops(s, spec, ch);
    }
  }

  /** A pass loses the change to `m` of an entry: the predictor was built from other attributes, the
      pass does not get as far as building it anew, and it leaves the stored model reading as `m`, so
      that nothing looks changed to a later spec that has `m`. */
  ghost predicate LosesChange(s: State, spec: Spec, ch: Choices, id: string, i: nat, m: Model)
    requires Valid(s) && Legal(ch, spec) && Entry(spec, id, i)
  {
    var k := EntryKey(spec, id, i);
    && k in s.predictorMap && s.predictorMap[k].attr != m.attr
    && k !in BuiltKeys(s, spec, ch)
    && (if VisitedEntry(spec, ch, id)
        then m == spec.models[id][i] && (i == |spec.models[id]| - 1 || Unchanged(s, k, m))
        else k in s.modelMap ==> Unchanged(s, k, m))
  }

  /** What any pass that does not panic leaves of an entry, in the terms of FreshExactlyWhen. */
  lemma AfterPass(s: State, spec: Spec, ch: Choices, id: string, i: nat, m: Model)
    requires Valid(s) && PlainTypes(spec) && DistinctModels(spec) && Entry(spec, id, i)
    requires Legal(ch, spec) && Update(s, spec, ch).1 != Panic
    requires m.modelType == spec.models[id][i].modelType
    ensures var s1, k := Update(s, spec, ch).0, EntryKey(spec, id, i);
            (k in s1.predictorMap && s1.predictorMap[k].attr != m.attr && (k in s1.modelMap ==> Unchanged(s1, k, m)))
            <==> LosesChange(s, spec, ch, id, i, m)
  {
    hide EntryKey, DistinctModels, PlainTypes, Enumerates, ModelKeys, HandleMetrics, HandleModels, Update, BuiltKeys,
         VisitedEntry;
    var k := EntryKey(spec, id, i);
    var s1 := HandleMetrics(s, spec, ch.metricAdd, ch.metricChange);
    PredictorAfterPass(s, spec, ch, id, i);
    PassModels(s, spec, ch);
    StoredAfterPass(s1, spec, ch, id, i, m);
    UnchangedFrame(s, s1, k, m);
    UnchangedFrame(HandleModels(s1, spec, ch.modelOrder).state, Update(s, spec, ch).0, k, m);
    if k in BuiltKeys(s, spec, ch) {
      BuiltAreVisited(s, spec, ch, id, i);
    }
  }

  /** A pass that builds anything has visited all models. */
  lemma BuiltAreVisited(s: State, spec: Spec, ch: Choices, id: string, i: nat)
    requires Valid(s) && Legal(ch, spec) && Entry(spec, id, i)
    requires EntryKey(spec, id, i) in BuiltKeys(s, spec, ch)
    ensures VisitedEntry(spec, ch, id)
  {
    hide EntryKey, PassJobs, PassStart, Reached, JobKeys, Valid;
    var before := BeforeOrphan(spec, ch.modelOrder);
    assert id in spec.models.Keys && id in ch.modelOrder;
    assert forall j :: j in ch.modelOrder ==> j in spec.models.Keys;
  }

  /** Entry `j` of `id'` in the later spec is the same model key. */
  ghost predicate SameEntry(spec: Spec, id: string, i: nat, later: Spec, id': string, j: nat) {
    Entry(spec, id, i) && Entry(later, id', j) && EntryKey(spec, id, i) == EntryKey(later, id', j)
  }

  /** After any pass that does not panic, however far it got, with orphans or without, a later pass
      that succeeds, for the same spec or any later one, leaves an entry fresh exactly when the first
      did not lose its change. */
  lemma FailureLosesChange(s: State, spec: Spec, first: Choices, id: string, i: nat, later: Spec, id': string, j: nat)
    requires Valid(s) && Wired(s) && PlainTypes(spec) && DistinctModels(spec)
    requires Legal(first, spec) && Update(s, spec, first).1 != Panic
    requires PlainTypes(later) && DistinctModels(later) && SameEntry(spec, id, i, later, id', j)
    ensures var s1 := Update(s, spec, first).0;
            && Valid(s1)
            && forall retry :: Legal(retry, later) && Update(s1, later, retry).1 == Success ==>
                 (FreshEntry(Update(s1, later, retry).0, later, id', j)
                  <==> !LosesChange(s, spec, first, id, i, later.models[id'][j]))
  {
    hide EntryKey, DistinctModels, PlainTypes, Wired, Update, Valid, Legal, FreshEntry, Unchanged, LosesChange;
    UpdateSyncs(s, spec, first);
    SameKeySameType(spec, later, id, i, id', j);
    AfterPass(s, spec, first, id, i, later.models[id'][j]);
    var s1 := Update(s, spec, first).0;
    forall retry | Legal(retry, later) && Update(s1, later, retry).1 == Success
      ensures FreshEntry(Update(s1, later, retry).0, later, id', j)
         <==> !LosesChange(s, spec, first, id, i, later.models[id'][j])
    {
      FreshExactlyWhen(s1, later, retry, id', j);
    }
  }

  // ---------------------------------------------------------------- keys the failing spec does not list

  /** After a pass for a spec that does not list the key: gone, if the pass got past the models; else
      as it was. */
  lemma UnlistedAfterPass(s: State, spec: Spec, ch: Choices, k: string, m: Model)
    requires Valid(s) && PlainTypes(spec) && Legal(ch, spec) && Update(s, spec, ch).1 != Panic
    requires k !in ModelKeys(spec)
    ensures var s1 := Update(s, spec, ch).0;
            if NoOrphans(spec) then k !in s1.predictorMap && k !in s1.modelMap
            else
              && s1.predictorMap == s.predictorMap
              && (k in s1.modelMap <==> k in s.modelMap)
              && (Unchanged(s1, k, m) <==> Unchanged(s, k, m))
  {
    hide Enumerates, ModelKeys, HandleMetrics, HandleModels, HandleCollector, BuildAll, Update, NoOrphans, ClosesTwice,
         MissingPredictors, VisitedModelKeys, PlainTypes, JobKeys;
    var s1 := HandleMetrics(s, spec, ch.metricAdd, ch.metricChange);
    var r := HandleModels(s1, spec, ch.modelOrder);
    HandleModelsKeys(s1, spec, ch.modelOrder);
    PassModels(s, spec, ch);
    if NoOrphans(spec) {
      NoPanicNoDoubleClose(s, spec, ch);
      PassIsBuilding(s, spec, ch);
      ChangesEnumerated(ch.changeOrder, r.changes, ModelKeys(spec));
      AllJobsPlain(HandleCollector(r.state, spec, ch.collectorOrder), spec, ch.predictorOrder, r.changes,
                   Visits(ch.changeOrder, r.changes));
      BuildAllKeys(PassStart(s, spec, ch), PassJobs(s, spec, ch));
      assert k !in r.state.modelMap.Keys;
      assert k !in Update(s, spec, ch).0.predictorMap.Keys;
    } else {
      OrphanStops(s, spec, ch);
      FailedModelsDeleteNothing(s1, spec, ch.modelOrder, k);
      VisitedAreListed(spec, ch.modelOrder, k);
    }
  }

  lemma VisitedAreListed(spec: Spec, order: seq<string>, k: string)
    requires forall id :: id in BeforeOrphan(spec, order) ==> id in spec.models && id in spec.metrics
    requires k !in ModelKeys(spec)
    ensures k !in VisitedModelKeys(spec, BeforeOrphan(spec, order))
  {
    hide ModelKeys, VisitedModelKeys;
    VisitedModelKeysInSpec(spec, BeforeOrphan(spec, order));
  }

  /** A pass loses the change to `m` of a key that its spec does not list: it stops at an orphan, the
      predictor was built from other attributes, and the stored model, if any, reads as `m`. */
  ghost predicate LosesUnlisted(s: State, spec: Spec, k: string, m: Model) {
    && !NoOrphans(spec)
    && k in s.predictorMap && s.predictorMap[k].attr != m.attr
    && (k in s.modelMap ==> Unchanged(s, k, m))
  }

  /** FailureLosesChange for an entry of the later spec that the first spec does not list: a later
      pass that succeeds leaves it fresh exactly when the first did not lose its change. */
  lemma FailureLosesUnlisted(s: State, spec: Spec, first: Choices, later: Spec, id: string, i: nat)
    requires Valid(s) && Wired(s) && PlainTypes(spec)
    requires Legal(first, spec) && Update(s, spec, first).1 != Panic
    requires PlainTypes(later) && DistinctModels(later) && Entry(later, id, i)
    requires EntryKey(later, id, i) !in ModelKeys(spec)
    ensures var s1 := Update(s, spec, first).0;
            && Valid(s1)
            && forall retry :: Legal(retry, later) && Update(s1, later, retry).1 == Success ==>
                 (FreshEntry(Update(s1, later, retry).0, later, id, i)
                  <==> !LosesUnlisted(s, spec, EntryKey(later, id, i), later.models[id][i]))
  {
    hide EntryKey, DistinctModels, PlainTypes, Wired, Update, Valid, Legal, FreshEntry, Unchanged, ModelKeys, NoOrphans;
    UpdateSyncs(s, spec, first);
    UnlistedAfterPass(s, spec, first, EntryKey(later, id, i), later.models[id][i]);
    var s1 := Update(s, spec, first).0;
    forall retry | Legal(retry, later) && Update(s1, later, retry).1 == Success
      ensures FreshEntry(Update(s1, later, retry).0, later, id, i)
         <==> !LosesUnlisted(s, spec, EntryKey(later, id, i), later.models[id][i])
    {
      FreshExactlyWhen(s1, later, retry, id, i);
    }
  }

  // ---------------------------------------------------------------- the gate

  /** A recorded object is left alone. Any other is recorded exactly if the client, the address for a
      creation, all four handlers and the status write go through; the handlers have then run once,
      and they have not if the client or a creation's address fails. */
  lemma RecordedExactlyWhen(c: Cluster, ch: Choices)
    requires Valid(c.maps) && Legal(ch, c.spec) && c.statusGeneration <= c.generation
    ensures c.statusGeneration == c.generation ==> Reconcile(c, ch) == (c, Success)
    ensures c.statusGeneration < c.generation ==>
              var (c', v) := Reconcile(c, ch);
              var reached := ch.clientOk && (c.statusGeneration == 0 ==> ch.addressOk);
              && c'.spec == c.spec && c'.generation == c.generation
              && c'.maps == (if reached then Update(c.maps, c.spec, ch).0 else c.maps)
              && (v == Success <==> reached && Update(c.maps, c.spec, ch).1 == Success && ch.statusOk)
              && (v == Panic <==> reached && Update(c.maps, c.spec, ch).1 == Panic)
              && c'.statusGeneration == if v == Success then c.generation else c.statusGeneration
  {
    hide Valid, Legal, Update;
  }
}
