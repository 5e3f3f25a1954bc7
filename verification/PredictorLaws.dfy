/** What handleModels and handlePredictor do together: which predictors exist, which workers
    they read, and whether they were built from the current models. */
module PredictorLaws {
  import opened Domain
  import opened Keys
  import opened Orders
  import opened Reconciler
  import opened ReconcilerLaws

  /** No model type holds the separator. */
  ghost predicate PlainTypes(spec: Spec) {
    forall id, m :: id in spec.models && m in spec.models[id] ==> SEP !in m.modelType
  }

  /** Every predictor is stored under its own key and reads the worker registered for its
      metric. */
  ghost predicate Wired(s: State) {
    forall k :: k in s.predictorMap ==>
      && s.predictorMap[k].withModelKey == k
      && GetNoModelKey(k) in s.workerMap
      && s.predictorMap[k].worker == s.workerMap[GetNoModelKey(k)]
  }

  lemma ModelKeyHasMetric(spec: Spec, k: string)
    requires PlainTypes(spec) && k in ModelKeys(spec)
    ensures GetNoModelKey(k) in MetricKeys(spec)
  {
    hide NoModelKey, GetNoModelKey;
    var id, m :| id in spec.models && id in spec.metrics && m in spec.models[id]
                 && k == WithModelKey(spec.metrics[id], m.modelType);
    RecoverPlainType(NoModelKey(spec.metrics[id]), m.modelType);
    KeyInSpec(spec, id);
  }

  // ---------------------------------------------------------------- building

  function JobKeys(jobs: seq<Job>): set<string> {
    if |jobs| == 0 then {} else JobKeys(jobs[..|jobs| - 1]) + {jobs[|jobs| - 1].withModelKey}
  }

  lemma {:induction false} JobKeysSplit(a: seq<Job>, b: seq<Job>)
    ensures JobKeys(a + b) == JobKeys(a) + JobKeys(b)
  {
    if |b| == 0 {
      assert a + b == a;
    } else {
      var n := |b| - 1;
      JobKeysSplit(a, b[..n]);
      assert (a + b)[..|a| + n] == a + b[..n];
    }
  }

  lemma {:induction false} JobKeysAre(jobs: seq<Job>)
    ensures forall k :: k in JobKeys(jobs) <==> exists i :: 0 <= i < |jobs| && jobs[i].withModelKey == k
  {
    if |jobs| > 0 {
      var n := |jobs| - 1;
      JobKeysAre(jobs[..n]);
      assert forall i :: 0 <= i < n ==> jobs[..n][i] == jobs[i];
    }
  }

  /** Each job looks its worker up under the metric part of its key. */
  ghost predicate JobsPlain(jobs: seq<Job>) {
    forall i :: 0 <= i < |jobs| ==> jobs[i].noModelKey == GetNoModelKey(jobs[i].withModelKey)
  }

  lemma BuildWired(b: Building, job: Job)
    requires Wired(b.state) && job.noModelKey == GetNoModelKey(job.withModelKey)
    ensures var r := Build(b, job);
            && Wired(r.state)
            && r.state.predictorMap.Keys <= b.state.predictorMap.Keys + {job.withModelKey}
            && b.state.predictorMap.Keys <= r.state.predictorMap.Keys
            && (r.ok ==> b.ok && r.state.predictorMap.Keys == b.state.predictorMap.Keys + {job.withModelKey})
  {
    hide GetNoModelKey;
  }

  /** However far the building gets, it only adds wired predictors; if it gets through, it has
      added one for every job. */
  lemma {:induction false} BuildAllWired(b: Building, jobs: seq<Job>)
    requires Wired(b.state) && JobsPlain(jobs)
    ensures var r := BuildAll(b, jobs);
            && Wired(r.state)
            && r.state.predictorMap.Keys <= b.state.predictorMap.Keys + JobKeys(jobs)
            && (r.ok ==> r.state.predictorMap.Keys == b.state.predictorMap.Keys + JobKeys(jobs))
  {
    if |jobs| > 0 {
      hide Wired, Build;
      var n := |jobs| - 1;
      BuildAllWired(b, jobs[..n]);
      BuildWired(BuildAll(b, jobs[..n]), jobs[n]);
    }
  }

  /** Building gets through exactly when every worker is there and the constructions suffice. */
  lemma {:induction false} BuildAllSucceedsExactlyWhen(b: Building, jobs: seq<Job>)
    ensures BuildAll(b, jobs).ok <==>
              b.ok && |jobs| <= b.budget && forall i :: 0 <= i < |jobs| ==> jobs[i].noModelKey in b.state.workerMap
    ensures BuildAll(b, jobs).ok ==> BuildAll(b, jobs).budget == b.budget - |jobs|
  {
    if |jobs| > 0 {
      var n := |jobs| - 1;
      BuildAllSucceedsExactlyWhen(b, jobs[..n]);
      assert forall i :: 0 <= i < n ==> jobs[..n][i] == jobs[i];
    }
  }

  /** The attributes a key ends up with, when all its jobs agree on them. */
  lemma {:induction false} BuildAllAttr(b: Building, jobs: seq<Job>, k: string, attr: map<string, string>)
    requires BuildAll(b, jobs).ok
    requires forall i :: 0 <= i < |jobs| && jobs[i].withModelKey == k ==> jobs[i].attr == attr
    ensures b.ok
    ensures var r := BuildAll(b, jobs).state;
            if k in JobKeys(jobs) then k in r.predictorMap && r.predictorMap[k].attr == attr
            else k in r.predictorMap <==> k in b.state.predictorMap
    ensures k !in JobKeys(jobs) && k in b.state.predictorMap ==>
              BuildAll(b, jobs).state.predictorMap[k] == b.state.predictorMap[k]
  {
    if |jobs| > 0 {
      var n := |jobs| - 1;
      assert forall i :: 0 <= i < n ==> jobs[..n][i] == jobs[i];
      BuildAllAttr(b, jobs[..n], k, attr);
    }
  }

  lemma JobsNext(jobs: seq<Job>, job: Job)
    ensures JobKeys(jobs + [job]) == JobKeys(jobs) + {job.withModelKey}
    ensures JobsPlain(jobs) && job.noModelKey == GetNoModelKey(job.withModelKey) ==> JobsPlain(jobs + [job])
  {
    hide GetNoModelKey;
    assert (jobs + [job])[..|jobs|] == jobs;
  }

  lemma {:induction false} MissingInListPlain(s: State, metric: Metric, models: seq<Model>)
    requires forall m :: m in models ==> SEP !in m.modelType
    ensures JobsPlain(MissingInList(s, metric, models))
    ensures JobKeys(MissingInList(s, metric, models)) == ListKeys(metric, models) - s.predictorMap.Keys
  {
    if |models| > 0 {
      hide GetNoModelKey, NoModelKey, GetWithModelKey, JobKeys, JobsPlain;
      var n := |models| - 1;
      MissingInListPlain(s, metric, models[..n]);
      RecoverPlainType(NoModelKey(metric), models[n].modelType);
      JobsNext(MissingInList(s, metric, models[..n]),
               Job(WithModelKey(metric, models[n].modelType), NoModelKey(metric), models[n].attr));
    }
  }

  lemma {:induction false} MissingPredictorsPlain(s: State, spec: Spec, order: seq<string>)
    requires PlainTypes(spec) && forall id :: id in order ==> id in spec.models && id in spec.metrics
    ensures JobsPlain(MissingPredictors(s, spec, order))
    ensures JobKeys(MissingPredictors(s, spec, order)) == VisitedModelKeys(spec, order) - s.predictorMap.Keys
  {
    hide GetNoModelKey, MissingInList, ListKeys;
    if |order| > 0 {
      var n := |order| - 1;
      var id := order[n];
      assert id in order;
      MissingPredictorsPlain(s, spec, order[..n]);
      MissingInListPlain(s, spec.metrics[id], spec.models[id]);
      JobKeysSplit(MissingPredictors(s, spec, order[..n]), MissingInList(s, spec.metrics[id], spec.models[id]));
    }
  }

  /** All the jobs of a call of handlePredictor. */
  function AllJobs(s: State, spec: Spec, order: seq<string>,
                   changes: map<string, Model>, changeOrder: seq<string>): seq<Job>
    requires Enumerates(order, spec.models.Keys) && Enumerates(changeOrder, changes.Keys) && NoOrphans(spec)
  {
    assert forall id :: id in order ==> id in spec.models.Keys;
    MissingPredictors(s, spec, order) + ChangedJobs(changes, changeOrder)
  }

  lemma AllJobsPlain(s: State, spec: Spec, order: seq<string>, changes: map<string, Model>, changeOrder: seq<string>)
    requires Enumerates(order, spec.models.Keys) && Enumerates(changeOrder, changes.Keys)
    requires NoOrphans(spec) && PlainTypes(spec)
    ensures var jobs := AllJobs(s, spec, order, changes, changeOrder);
            && JobsPlain(jobs)
            && JobKeys(jobs) == (ModelKeys(spec) - s.predictorMap.Keys) + changes.Keys
  {
    hide GetNoModelKey, ModelKeys, MissingPredictors, VisitedModelKeys;
    AllModelKeysVisited(spec, order);
    MissingPredictorsPlain(s, spec, order);
    var changed := ChangedJobs(changes, changeOrder);
    JobKeysSplit(MissingPredictors(s, spec, order), changed);
    JobKeysAre(changed);
    forall k ensures k in JobKeys(changed) <==> k in changes.Keys {
      if k in changes.Keys {
        assert k in changeOrder;
        var i :| 0 <= i < |changeOrder| && changeOrder[i] == k;
        assert changed[i].withModelKey == k;
      }
    }
  }

  /** handlePredictor, entered after handleCollector for the same spec: the predictors it leaves
      are wired, and if it succeeds they are those of the spec's models. */
  lemma HandlePredictorKeys(s: State, spec: Spec, order: seq<string>,
                            changes: map<string, Model>, changeOrder: seq<string>, budget: nat)
    requires Enumerates(order, spec.models.Keys) && Enumerates(changeOrder, changes.Keys)
    requires NoOrphans(spec) && PlainTypes(spec) && changes.Keys <= ModelKeys(spec)
    requires Wired(DropPredictors(s, spec))
    ensures var r := HandlePredictor(s, spec, order, changes, changeOrder, budget);
            Wired(r.state) && (r.ok ==> r.state.predictorMap.Keys == ModelKeys(spec))
  {
    hide GetNoModelKey, ModelKeys, BuildAll, JobsPlain, Wired;
    AllJobsPlain(s, spec, order, changes, changeOrder);
    BuildAllWired(Building(DropPredictors(s, spec), budget, true), AllJobs(s, spec, order, changes, changeOrder));
  }

  /** Stopping the workers of dropped keys unwires only predictors that are then dropped. */
  lemma WiredThroughCollector(s: State, spec: Spec, order: seq<string>)
    requires Valid(s) && Wired(s) && PlainTypes(spec) && Enumerates(order, spec.metrics.Keys)
    ensures Wired(DropPredictors(HandleCollector(s, spec, order), spec))
  {
    hide GetNoModelKey, MetricKeys, ModelKeys, HandleCollector;
    HandleCollectorKeys(s, spec, order);
    var r := DropPredictors(HandleCollector(s, spec, order), spec);
    forall k | k in r.predictorMap
      ensures GetNoModelKey(k) in r.workerMap && r.predictorMap[k].worker == r.workerMap[GetNoModelKey(k)]
    {
      ModelKeyHasMetric(spec, k);
    }
  }

  // ---------------------------------------------------------------- handleModels: values

  /** Model `i` listed under spec id `id`. */
  ghost predicate Entry(spec: Spec, id: string, i: int) {
    id in spec.models && id in spec.metrics && 0 <= i < |spec.models[id]|
  }

  function EntryKey(spec: Spec, id: string, i: nat): string
    requires Entry(spec, id, i)
  {
    WithModelKey(spec.metrics[id], spec.models[id][i].modelType)
  }

  ghost predicate DistinctModels(spec: Spec) {
    forall id, i, id', i' ::
      (Entry(spec, id, i) && Entry(spec, id', i') && EntryKey(spec, id, i) == EntryKey(spec, id', i')) ==>
        id == id' && i == i'
  }

  ghost predicate DistinctInList(metric: Metric, models: seq<Model>) {
    forall i, j :: 0 <= i < j < |models|
      ==> WithModelKey(metric, models[i].modelType) != WithModelKey(metric, models[j].modelType)
  }

  lemma KeyNotInPrefix(metric: Metric, models: seq<Model>)
    requires |models| >= 1 && DistinctInList(metric, models)
    ensures WithModelKey(metric, models[|models| - 1].modelType) !in ListKeys(metric, models[..|models| - 1])
    ensures DistinctInList(metric, models[..|models| - 1])
  {
    hide WithModelKey;
    ListKeysAre(metric, models[..|models| - 1]);
  }

  /** The stored model under `k`, before the call, already is `m`. */
  ghost predicate Unchanged(s: State, k: string, m: Model) {
    k in s.modelMap && s.modelMap[k] < |s.modelCells| && s.modelCells[s.modelMap[k]] == m
  }

  /** What the inner loop, started from `r`, leaves for key `k` with model `m`: an unchanged
      model keeps its cell; any other goes to the loop's own cell, and is recorded as a change
      if it was stored before. */
  ghost predicate ListEntryDone(r: Models, r': Models, k: string, m: Model) {
    && k in r'.state.modelMap
    && r'.state.modelMap[k] == (if Unchanged(r.state, k, m) then r.state.modelMap[k] else |r.state.modelCells|)
    && (k in r'.changes <==> k in r.changes || (k in r.state.modelMap && !Unchanged(r.state, k, m)))
    && (k in r'.changes && k !in r.changes ==> r'.changes[k] == m)
  }

  /** Keys outside `keys` are left alone, and so are the old cells. */
  ghost predicate OthersKept(r: Models, r': Models, keys: set<string>) {
    && |r.state.modelCells| <= |r'.state.modelCells|
    && r'.state.modelCells[..|r.state.modelCells|] == r.state.modelCells
    && (forall k :: k !in keys ==> (k in r'.state.modelMap <==> k in r.state.modelMap))
    && (forall k :: k !in keys && k in r.state.modelMap ==> r'.state.modelMap[k] == r.state.modelMap[k])
    && (forall k :: k !in keys ==> (k in r'.changes <==> k in r.changes))
    && (forall k :: k !in keys && k in r.changes ==> r'.changes[k] == r.changes[k])
  }

  /** One pass of the inner loop changes nothing outside its key and the loop's own cell. */
  ghost predicate OnlyTouches(before: Models, after: Models, k: string) {
    && |after.state.modelCells| == |before.state.modelCells| >= 1
    && after.state.modelCells[..|before.state.modelCells| - 1]
       == before.state.modelCells[..|before.state.modelCells| - 1]
    && (forall j :: j != k ==> (j in after.state.modelMap <==> j in before.state.modelMap))
    && (forall j :: j != k && j in before.state.modelMap ==> after.state.modelMap[j] == before.state.modelMap[j])
    && (forall j :: j != k ==> (j in after.changes <==> j in before.changes))
    && (forall j :: j != k && j in before.changes ==> after.changes[j] == before.changes[j])
  }

  lemma StoreModelTouches(before: Models, metric: Metric, model: Model)
    requires |before.state.modelCells| >= 1 && ModelsValid(before.state)
    ensures var after := StoreModel(before, metric, model);
            && OnlyTouches(before, after, WithModelKey(metric, model.modelType))
            && after.state.modelCells[|before.state.modelCells| - 1] == model
  {
    hide WithModelKey;
  }

  lemma StoreModelEntry(r: Models, before: Models, metric: Metric, model: Model, keys: set<string>)
    requires |before.state.modelCells| == |r.state.modelCells| + 1
    requires ModelsValid(r.state) && ModelsValid(before.state) && OthersKept(r, before, keys)
    requires WithModelKey(metric, model.modelType) !in keys
    ensures ListEntryDone(r, StoreModel(before, metric, model), WithModelKey(metric, model.modelType), model)
  {
    hide WithModelKey;
    var k, n := WithModelKey(metric, model.modelType), |r.state.modelCells|;
    if k in r.state.modelMap {
      var c := r.state.modelMap[k];
      assert before.state.modelMap[k] == c < n;
      assert before.state.modelCells[c] == before.state.modelCells[..n][c] == r.state.modelCells[c];
    }
  }

  lemma OthersKeptNext(r: Models, before: Models, after: Models, keys: set<string>, k: string)
    requires |before.state.modelCells| == |r.state.modelCells| + 1
    requires OthersKept(r, before, keys) && OnlyTouches(before, after, k)
    ensures OthersKept(r, after, keys + {k})
  {
  }

  lemma ListEntryKept(r: Models, before: Models, after: Models, k: string, m: Model, j: string)
    requires ListEntryDone(r, before, j, m) && OnlyTouches(before, after, k) && j != k
    ensures ListEntryDone(r, after, j, m)
  {
  }

  /** The inner loop leaves every key but its models', and every old cell, alone. */
  lemma {:induction false} StoreListOthers(r: Models, metric: Metric, models: seq<Model>)
    requires ModelsValid(r.state)
    ensures OthersKept(r, StoreList(r, metric, models), ListKeys(metric, models))
  {
    hide WithModelKey;
    if |models| > 0 {
      var n := |models| - 1;
      StoreListOthers(r, metric, models[..n]);
      var before := StoreList(r, metric, models[..n]);
      StoreModelTouches(before, metric, models[n]);
      hide StoreModel, OthersKept;
      OthersKeptNext(r, before, StoreModel(before, metric, models[n]), ListKeys(metric, models[..n]),
                     WithModelKey(metric, models[n].modelType));
    }
  }

  /** So does the whole loop. */
  lemma {:induction false} StoreModelsOthers(s: State, spec: Spec, order: seq<string>, k: string)
    requires ModelsValid(s) && forall j :: j in order ==> j in spec.models && j in spec.metrics
    requires k !in VisitedModelKeys(spec, order)
    ensures var r := StoreModels(s, spec, order);
            && r.ok && |s.modelCells| <= |r.state.modelCells|
            && (forall c :: 0 <= c < |s.modelCells| ==> r.state.modelCells[c] == s.modelCells[c])
            && (k in r.state.modelMap <==> k in s.modelMap)
            && (k in s.modelMap ==> r.state.modelMap[k] == s.modelMap[k])
  {
    hide StoreList, ListKeys;
    if |order| > 0 {
      var n := |order| - 1;
      var last := order[n];
      assert last in order;
      StoreModelsOthers(s, spec, order[..n], k);
      var r := StoreModels(s, spec, order[..n]);
      StoreListOthers(r, spec.metrics[last], spec.models[last]);
      var r' := StoreList(r, spec.metrics[last], spec.models[last]);
      forall c | 0 <= c < |r.state.modelCells| ensures r'.state.modelCells[c] == r.state.modelCells[c] {
        assert r'.state.modelCells[..|r.state.modelCells|][c] == r.state.modelCells[c];
      }
    }
  }

  /** A handleModels that stops at a model without a metric deletes nothing: every key stored before
      still is, and the key of no visited id keeps its address and its reading. */
  lemma FailedModelsDeleteNothing(s: State, spec: Spec, order: seq<string>, k: string)
    requires Valid(s) && Enumerates(order, spec.models.Keys) && !NoOrphans(spec)
    ensures forall id :: id in BeforeOrphan(spec, order) ==> id in spec.models && id in spec.metrics
    ensures var r, visited := HandleModels(s, spec, order), VisitedModelKeys(spec, BeforeOrphan(spec, order));
            && !r.ok
            && (k in r.state.modelMap <==> k in s.modelMap || k in visited)
            && (k in s.modelMap && k !in visited ==>
                  && r.state.modelMap[k] == s.modelMap[k] < |s.modelCells| <= |r.state.modelCells|
                  && r.state.modelCells[s.modelMap[k]] == s.modelCells[s.modelMap[k]])
  {
    hide StoreModels, VisitedModelKeys, ModelKeys;
    assert forall id :: id in order <==> id in spec.models.Keys;
    var before := BeforeOrphan(spec, order);
    StoreModelsKeys(s, spec, order);
    StopsAtOrphan(s, spec, order);
    StoreModelsKeys(s, spec, before);
    if k !in VisitedModelKeys(spec, before) {
      StoreModelsOthers(s, spec, before, k);
    }
  }

  lemma {:induction false} StoreListDone(r: Models, metric: Metric, models: seq<Model>, i: nat)
    requires ModelsValid(r.state) && DistinctInList(metric, models)
    ensures var r' := StoreList(r, metric, models);
            && OthersKept(r, r', ListKeys(metric, models))
            && (|models| >= 1 ==> r'.state.modelCells[|r.state.modelCells|] == models[|models| - 1])
            && (i < |models| ==> ListEntryDone(r, r', WithModelKey(metric, models[i].modelType), models[i]))
  {
    hide WithModelKey;
    if |models| > 0 {
      var n := |models| - 1;
      KeyNotInPrefix(metric, models);
      StoreListDone(r, metric, models[..n], i);
      var before, k := StoreList(r, metric, models[..n]), WithModelKey(metric, models[n].modelType);
      StoreModelTouches(before, metric, models[n]);
      StoreModelEntry(r, before, metric, models[n], ListKeys(metric, models[..n]));
      hide StoreModel, OthersKept, ListEntryDone;
      OthersKeptNext(r, before, StoreModel(before, metric, models[n]), ListKeys(metric, models[..n]), k);
      if i < n {
        ListEntryKept(r, before, StoreModel(before, metric, models[n]), k, models[i],
                      WithModelKey(metric, models[i].modelType));
      }
    }
  }

  /** What the whole loop, started from `s`, leaves for an entry: its key reads as the model exactly
      if it did before or the model is the last of its list, and otherwise as one of another type;
      and it is recorded as a change exactly when it was stored before and did not read as the
      model. */
  ghost predicate EntryDone(s: State, r: Models, k: string, m: Model, last: bool) {
    && k in r.state.modelMap && r.state.modelMap[k] < |r.state.modelCells|
    && (r.state.modelCells[r.state.modelMap[k]] == m <==> last || Unchanged(s, k, m))
    && (r.state.modelCells[r.state.modelMap[k]].modelType == m.modelType ==>
          r.state.modelCells[r.state.modelMap[k]] == m)
    && (k in r.changes <==> k in s.modelMap && !Unchanged(s, k, m))
    && (k in r.changes ==> r.changes[k] == m)
  }

  lemma DistinctInOneList(spec: Spec, id: string)
    requires DistinctModels(spec) && id in spec.models && id in spec.metrics
    ensures DistinctInList(spec.metrics[id], spec.models[id])
  {
    hide WithModelKey;
    forall i, j | 0 <= i < j < |spec.models[id]|
      ensures WithModelKey(spec.metrics[id], spec.models[id][i].modelType)
           != WithModelKey(spec.metrics[id], spec.models[id][j].modelType)
    {
      assert Entry(spec, id, i) && Entry(spec, id, j);
      assert EntryKey(spec, id, i) != EntryKey(spec, id, j);
    }
  }

  lemma EntryKeyInList(spec: Spec, id: string, i: nat)
    requires Entry(spec, id, i)
    ensures EntryKey(spec, id, i) in ListKeys(spec.metrics[id], spec.models[id])
    ensures EntryKey(spec, id, i) in ModelKeys(spec)
  {
    hide WithModelKey;
    ListKeysAre(spec.metrics[id], spec.models[id]);
    assert spec.models[id][i] in spec.models[id];
  }

  /** Entries of different spec ids have different keys. */
  lemma ListsDisjoint(spec: Spec, id: string, i: nat, other: string)
    requires DistinctModels(spec) && Entry(spec, id, i) && id != other
    requires other in spec.models && other in spec.metrics
    ensures EntryKey(spec, id, i) !in ListKeys(spec.metrics[other], spec.models[other])
  {
    hide WithModelKey;
    ListKeysAre(spec.metrics[other], spec.models[other]);
    var k := EntryKey(spec, id, i);
    forall m | m in spec.models[other] ensures k != WithModelKey(spec.metrics[other], m.modelType) {
      var j :| 0 <= j < |spec.models[other]| && spec.models[other][j] == m;
      assert Entry(spec, other, j) && EntryKey(spec, other, j) == WithModelKey(spec.metrics[other], m.modelType);
    }
  }

  /** The loop leaves the keys of the ids it has not visited, and all old cells, alone. */
  lemma {:induction false} UnvisitedKept(s: State, spec: Spec, order: seq<string>, id: string, i: nat)
    requires ModelsValid(s) && forall j :: j in order ==> j in spec.models && j in spec.metrics
    requires DistinctModels(spec) && Entry(spec, id, i) && id !in order
    ensures var r, k := StoreModels(s, spec, order), EntryKey(spec, id, i);
            && r.ok && |s.modelCells| <= |r.state.modelCells|
            && r.state.modelCells[..|s.modelCells|] == s.modelCells
            && (k in r.state.modelMap <==> k in s.modelMap)
            && (k in s.modelMap ==> r.state.modelMap[k] == s.modelMap[k])
            && k !in r.changes
  {
    hide EntryKey, StoreList, ListKeys;
    if |order| > 0 {
      var n := |order| - 1;
      var last := order[n];
      assert last in order;
      UnvisitedKept(s, spec, order[..n], id, i);
      ListsDisjoint(spec, id, i, last);
      DistinctInOneList(spec, last);
      StoreListDone(StoreModels(s, spec, order[..n]), spec.metrics[last], spec.models[last], 0);
    }
  }

  /** From what the inner loop leaves for an entry to what the whole loop does. */
  lemma ListEntryIsEntryDone(s: State, r: Models, r': Models, spec: Spec, id: string, i: nat)
    requires DistinctModels(spec) && Entry(spec, id, i)
    requires ModelsValid(s) && ModelsValid(r.state) && ModelsValid(r'.state)
    requires |s.modelCells| <= |r.state.modelCells| < |r'.state.modelCells|
    requires r.state.modelCells[..|s.modelCells|] == s.modelCells
    requires r'.state.modelCells[..|r.state.modelCells|] == r.state.modelCells
    requires r'.state.modelCells[|r.state.modelCells|] == spec.models[id][|spec.models[id]| - 1]
    requires var k := EntryKey(spec, id, i);
             && (k in r.state.modelMap <==> k in s.modelMap)
             && (k in s.modelMap ==> r.state.modelMap[k] == s.modelMap[k])
             && k !in r.changes
             && ListEntryDone(r, r', k, spec.models[id][i])
    ensures EntryDone(s, r', EntryKey(spec, id, i), spec.models[id][i], i == |spec.models[id]| - 1)
  {
    hide WithModelKey, DistinctModels;
    var k, m, last := EntryKey(spec, id, i), spec.models[id][i], |spec.models[id]| - 1;
    if k in s.modelMap {
      var c := s.modelMap[k];
      assert r.state.modelCells[c] == r.state.modelCells[..|s.modelCells|][c] == s.modelCells[c];
      assert r'.state.modelCells[c] == r'.state.modelCells[..|r.state.modelCells|][c] == s.modelCells[c];
    }
    assert Unchanged(r.state, k, m) <==> Unchanged(s, k, m);
    if spec.models[id][last].modelType == m.modelType {
      SameKeySameEntry(spec, id, i, last);
    }
  }

  lemma SameKeySameEntry(spec: Spec, id: string, i: nat, j: nat)
    requires DistinctModels(spec) && Entry(spec, id, i) && Entry(spec, id, j)
    requires spec.models[id][i].modelType == spec.models[id][j].modelType
    ensures i == j
  {
    assert EntryKey(spec, id, i) == EntryKey(spec, id, j);
  }

  lemma EntryDoneKept(s: State, r: Models, r': Models, k: string, m: Model, last: bool, keys: set<string>)
    requires EntryDone(s, r, k, m, last) && OthersKept(r, r', keys) && k !in keys
    ensures EntryDone(s, r', k, m, last)
  {
    var c := r.state.modelMap[k];
    assert r'.state.modelCells[c] == r'.state.modelCells[..|r.state.modelCells|][c];
  }

  /** Every visited entry is done. */
  lemma {:induction false} VisitedDone(s: State, spec: Spec, order: seq<string>, id: string, i: nat)
    requires ModelsValid(s) && forall j :: j in order ==> j in spec.models && j in spec.metrics
    requires forall a, b :: 0 <= a < b < |order| ==> order[a] != order[b]
    requires DistinctModels(spec) && Entry(spec, id, i) && id in order
    ensures StoreModels(s, spec, order).ok
    ensures EntryDone(s, StoreModels(s, spec, order), EntryKey(spec, id, i), spec.models[id][i],
                      i == |spec.models[id]| - 1)
  {
    hide EntryKey, StoreList, ListKeys, EntryDone, OthersKept, ListEntryDone, DistinctModels, DistinctInList;
    var n := |order| - 1;
    var last := order[n];
    assert order == order[..n] + [last];
    assert last in order;
    StoreModelsKeys(s, spec, order[..n]);
    var r := StoreModels(s, spec, order[..n]);
    var r' := StoreList(r, spec.metrics[last], spec.models[last]);
    DistinctInOneList(spec, last);
    StoreListDone(r, spec.metrics[last], spec.models[last], i);
    assert StoreModels(s, spec, order) == r';
    if id == last {
      UnvisitedKept(s, spec, order[..n], id, i);
      ThisListDone(s, r, r', spec, id, i);
    } else {
      VisitedDone(s, spec, order[..n], id, i);
      ListsDisjoint(spec, id, i, last);
      EntryDoneKept(s, r, r', EntryKey(spec, id, i), spec.models[id][i], i == |spec.models[id]| - 1,
                    ListKeys(spec.metrics[last], spec.models[last]));
    }
  }

  lemma ThisListDone(s: State, r: Models, r': Models, spec: Spec, id: string, i: nat)
    requires DistinctModels(spec) && Entry(spec, id, i) && ModelsValid(s) && ModelsValid(r.state)
    requires r' == StoreList(r, spec.metrics[id], spec.models[id])
    requires |s.modelCells| <= |r.state.modelCells| && r.state.modelCells[..|s.modelCells|] == s.modelCells
    requires var k := EntryKey(spec, id, i);
             && (k in r.state.modelMap <==> k in s.modelMap)
             && (k in s.modelMap ==> r.state.modelMap[k] == s.modelMap[k])
             && k !in r.changes
    ensures EntryDone(s, r', EntryKey(spec, id, i), spec.models[id][i], i == |spec.models[id]| - 1)
  {
    hide WithModelKey, StoreList, ListEntryDone, EntryDone, DistinctModels, DistinctInList, ListKeys;
    DistinctInOneList(spec, id);
    StoreListDone(r, spec.metrics[id], spec.models[id], i);
    ListEntryIsEntryDone(s, r, r', spec, id, i);
  }

  /** handleModels, under the loop-variable pointers of the source, detects exactly the stored
      models that do not read as the spec's, for distinct model keys. */
  lemma HandleModelsDone(s: State, spec: Spec, order: seq<string>, id: string, i: nat)
    requires Valid(s) && Enumerates(order, spec.models.Keys)
    requires NoOrphans(spec) && DistinctModels(spec) && Entry(spec, id, i)
    ensures HandleModels(s, spec, order).ok
    ensures EntryDone(s, HandleModels(s, spec, order), EntryKey(spec, id, i), spec.models[id][i],
                      i == |spec.models[id]| - 1)
  {
    hide EntryKey, StoreModels, ModelKeys, DistinctModels;
    assert id in spec.models.Keys;
    assert forall j :: j in order ==> j in spec.models.Keys;
    VisitedDone(s, spec, order, id, i);
    EntryKeyInList(spec, id, i);
  }

  // ---------------------------------------------------------------- freshness

  /** The predictor of an entry was built from the spec's model. */
  ghost predicate FreshEntry(s: State, spec: Spec, id: string, i: nat)
    requires Entry(spec, id, i)
  {
    var k := EntryKey(spec, id, i);
    k in s.predictorMap && s.predictorMap[k].attr == spec.models[id][i].attr
  }

  /** A job for the key of an entry builds from that entry. */
  ghost predicate JobsFromSpec(spec: Spec, jobs: seq<Job>, id: string, i: nat)
    requires Entry(spec, id, i)
  {
    forall j :: 0 <= j < |jobs| && jobs[j].withModelKey == EntryKey(spec, id, i)
      ==> jobs[j].attr == spec.models[id][i].attr
  }

  /** The job builds the predictor of a model. */
  ghost predicate Builds(job: Job, metric: Metric, model: Model) {
    job.withModelKey == WithModelKey(metric, model.modelType) && job.attr == model.attr
  }

  lemma {:induction false} ListJobsComeFromEntries(s: State, metric: Metric, models: seq<Model>, job: Job)
    requires job in MissingInList(s, metric, models)
    ensures exists n :: 0 <= n < |models| && Builds(job, metric, models[n])
  {
    hide WithModelKey, NoModelKey;
    var n := |models| - 1;
    var rest := MissingInList(s, metric, models[..n]);
    if job in rest {
      ListJobsComeFromEntries(s, metric, models[..n], job);
      var a :| 0 <= a < n && Builds(job, metric, models[..n][a]);
      assert Builds(job, metric, models[a]);
    } else {
      assert Builds(job, metric, models[n]);
    }
  }

  lemma ListJobsFromSpec(s: State, spec: Spec, other: string, id: string, i: nat)
    requires DistinctModels(spec) && Entry(spec, id, i) && other in spec.models && other in spec.metrics
    ensures JobsFromSpec(spec, MissingInList(s, spec.metrics[other], spec.models[other]), id, i)
  {
    hide WithModelKey, MissingInList;
    var jobs := MissingInList(s, spec.metrics[other], spec.models[other]);
    forall j | 0 <= j < |jobs| && jobs[j].withModelKey == EntryKey(spec, id, i)
      ensures jobs[j].attr == spec.models[id][i].attr
    {
      ListJobsComeFromEntries(s, spec.metrics[other], spec.models[other], jobs[j]);
      var n :| 0 <= n < |spec.models[other]| && Builds(jobs[j], spec.metrics[other], spec.models[other][n]);
      assert Entry(spec, other, n) && EntryKey(spec, other, n) == EntryKey(spec, id, i);
    }
  }

  lemma {:induction false} MissingJobsFromSpec(s: State, spec: Spec, order: seq<string>, id: string, i: nat)
    requires DistinctModels(spec) && Entry(spec, id, i)
    requires forall j :: j in order ==> j in spec.models && j in spec.metrics
    ensures JobsFromSpec(spec, MissingPredictors(s, spec, order), id, i)
  {
    hide EntryKey, DistinctModels, MissingInList;
    if |order| > 0 {
      var n := |order| - 1;
      assert order[n] in order;
      MissingJobsFromSpec(s, spec, order[..n], id, i);
      ListJobsFromSpec(s, spec, order[n], id, i);
    }
  }

  /** Every job of a call builds from the spec, if the recorded changes do. */
  lemma AllJobsFromSpec(s: State, spec: Spec, order: seq<string>, changes: map<string, Model>, changeOrder: seq<string>,
                        id: string, i: nat)
    requires Enumerates(order, spec.models.Keys) && Enumerates(changeOrder, changes.Keys)
    requires NoOrphans(spec) && DistinctModels(spec) && Entry(spec, id, i)
    requires EntryKey(spec, id, i) in changes ==> changes[EntryKey(spec, id, i)] == spec.models[id][i]
    ensures JobsFromSpec(spec, AllJobs(s, spec, order, changes, changeOrder), id, i)
  {
    hide EntryKey, MissingPredictors, DistinctModels, GetNoModelKey;
    assert forall j :: j in order ==> j in spec.models.Keys;
    MissingJobsFromSpec(s, spec, order, id, i);
    var jobs, n := AllJobs(s, spec, order, changes, changeOrder), |MissingPredictors(s, spec, order)|;
    forall j | 0 <= j < |jobs| && jobs[j].withModelKey == EntryKey(spec, id, i)
      ensures jobs[j].attr == spec.models[id][i].attr
    {
      if j >= n {
        assert jobs[j] == ChangedJobs(changes, changeOrder)[j - n];
        assert changeOrder[j - n] in changeOrder;
      }
    }
  }

  /** The one way an entry comes out stale: its predictor exists, was built from other
      attributes, and no change of the model is recorded for it. */
  ghost predicate MissesChange(s: State, changes: map<string, Model>, spec: Spec, id: string, i: nat)
    requires Entry(spec, id, i)
  {
    var k := EntryKey(spec, id, i);
    k in s.predictorMap && s.predictorMap[k].attr != spec.models[id][i].attr && k !in changes
  }

  /** A successful handlePredictor leaves an entry fresh exactly when it misses no change. */
  lemma FreshExactlyWhenNoChangeMissed(s: State, spec: Spec, order: seq<string>,
      changes: map<string, Model>, changeOrder: seq<string>, budget: nat, id: string, i: nat)
    requires Enumerates(order, spec.models.Keys) && Enumerates(changeOrder, changes.Keys)
    requires NoOrphans(spec) && PlainTypes(spec) && DistinctModels(spec) && Entry(spec, id, i)
    requires EntryKey(spec, id, i) in changes ==> changes[EntryKey(spec, id, i)] == spec.models[id][i]
    requires HandlePredictor(s, spec, order, changes, changeOrder, budget).ok
    ensures FreshEntry(HandlePredictor(s, spec, order, changes, changeOrder, budget).state, spec, id, i)
       <==> !MissesChange(s, changes, spec, id, i)
  {
    hide EntryKey, MissingPredictors, ModelKeys, DistinctModels, BuildAll, GetNoModelKey, PlainTypes;
    var k, attr := EntryKey(spec, id, i), spec.models[id][i].attr;
    AllJobsPlain(s, spec, order, changes, changeOrder);
    EntryKeyInList(spec, id, i);
    AllJobsFromSpec(s, spec, order, changes, changeOrder, id, i);
    var jobs := AllJobs(s, spec, order, changes, changeOrder);
    BuildAllAttr(Building(DropPredictors(s, spec), budget, true), jobs, k, attr);
  }

  lemma {:induction false} BuildAllKeys(b: Building, jobs: seq<Job>)
    ensures BuildAll(b, jobs).state.predictorMap.Keys <= b.state.predictorMap.Keys + JobKeys(jobs)
  {
    if |jobs| > 0 {
      BuildAllKeys(b, jobs[..|jobs| - 1]);
    }
  }

  // ---------------------------------------------------------------- how far building gets

  /** How many jobs are built before the first that fails. */
  function Reached(b: Building, jobs: seq<Job>): (n: nat)
    ensures n <= |jobs| && n <= b.budget
    ensures forall i :: 0 <= i < n ==> jobs[i].noModelKey in b.state.workerMap
    ensures n < |jobs| ==> n == b.budget || jobs[n].noModelKey !in b.state.workerMap
  {
    if |jobs| == 0 then 0
    else
      var last := |jobs| - 1;
      var n := Reached(b, jobs[..last]);
      if n == last && n < b.budget && jobs[last].noModelKey in b.state.workerMap then n + 1 else n
  }

  /** Building builds exactly the jobs it reaches. */
  lemma {:induction false} BuildAllReached(b: Building, jobs: seq<Job>)
    requires b.ok
    ensures var n := Reached(b, jobs);
            && BuildAll(b, jobs[..n]).ok
            && BuildAll(b, jobs).state == BuildAll(b, jobs[..n]).state
            && (BuildAll(b, jobs).ok <==> n == |jobs|)
  {
    var n := Reached(b, jobs);
    BuildAllSucceedsExactlyWhen(b, jobs[..n]);
    if n == |jobs| {
      assert jobs[..n] == jobs;
    } else {
      var last := |jobs| - 1;
      BuildAllReached(b, jobs[..last]);
      BuildAllSucceedsExactlyWhen(b, jobs[..last]);
      assert jobs[..last][..n] == jobs[..n];
      assert n == last ==> jobs[..last] == jobs[..n];
    }
  }

  /** What is missing is built before what has changed: a call that has replaced a stored predictor
      has one for every model of the spec, however it ends. */
  lemma MissingBeforeChanged(s: State, spec: Spec, order: seq<string>,
                             changes: map<string, Model>, changeOrder: seq<string>, budget: nat, k: string)
    requires Enumerates(order, spec.models.Keys) && Enumerates(changeOrder, changes.Keys)
    requires NoOrphans(spec) && PlainTypes(spec) && k in s.predictorMap && k in ModelKeys(spec)
    ensures var r := HandlePredictor(s, spec, order, changes, changeOrder, budget).state;
            && k in r.predictorMap
            && (r.predictorMap[k] != s.predictorMap[k] ==> ModelKeys(spec) <= r.predictorMap.Keys)
  {
    hide GetNoModelKey, ModelKeys, MissingPredictors, VisitedModelKeys, BuildAll, JobKeys, Reached, PlainTypes;
    AllModelKeysVisited(spec, order);
    MissingPredictorsPlain(s, spec, order);
    var missing, b := MissingPredictors(s, spec, order), Building(DropPredictors(s, spec), budget, true);
    var jobs := AllJobs(s, spec, order, changes, changeOrder);
    BuildAllReached(b, jobs);
    var n := Reached(b, jobs);
    if n <= |missing| {
      assert jobs[..n] == missing[..n];
      JobKeysBelow(missing, n);
      BuildAllLeaves(b, jobs[..n], k);
    } else {
      assert jobs[..n] == missing + jobs[|missing|..n];
      JobKeysSplit(missing, jobs[|missing|..n]);
      BuildAllGrows(b, jobs[..n]);
    }
  }

  lemma {:induction false} JobKeysBelow(jobs: seq<Job>, n: nat)
    requires n <= |jobs|
    ensures JobKeys(jobs[..n]) <= JobKeys(jobs)
  {
    assert jobs == jobs[..n] + jobs[n..];
    JobKeysSplit(jobs[..n], jobs[n..]);
  }

  lemma {:induction false} BuildAllLeaves(b: Building, jobs: seq<Job>, k: string)
    requires k !in JobKeys(jobs) && k in b.state.predictorMap
    ensures var r := BuildAll(b, jobs).state; k in r.predictorMap && r.predictorMap[k] == b.state.predictorMap[k]
  {
    if |jobs| > 0 {
      BuildAllLeaves(b, jobs[..|jobs| - 1], k);
    }
  }

  lemma {:induction false} BuildAllGrows(b: Building, jobs: seq<Job>)
    requires BuildAll(b, jobs).ok
    ensures b.ok && BuildAll(b, jobs).state.predictorMap.Keys == b.state.predictorMap.Keys + JobKeys(jobs)
  {
    if |jobs| > 0 {
      BuildAllGrows(b, jobs[..|jobs| - 1]);
    }
  }
}
