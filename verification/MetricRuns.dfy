/** The stored metrics over whole runs: with two metrics or more and lasting keys, some key reads as
    another key's metric from the first reconcile on, for ever. */
module MetricRuns {
  import opened Domain
  import opened Keys
  import opened Orders
  import opened Reconciler
  import opened ReconcilerLaws
  import opened Runs

  /** Some key reads as a metric of another key. */
  ghost predicate Misfiled(s: State) {
    exists k :: MisfiledAt(s, k)
  }

  ghost predicate MisfiledAt(s: State, k: string) {
    && k in s.metricMap && s.metricMap[k] < |s.metricCells|
    && NoModelKey(s.metricCells[s.metricMap[k]]) != k
  }

  lemma MisfiledIsWrong(s: State, spec: Spec)
    requires Misfiled(s) && s.metricMap.Keys == MetricKeys(spec)
    ensures !ReadsRight(s, spec)
  {
    hide NoModelKey;
    var k :| MisfiledAt(s, k);
    assert k in s.metricMap.Keys;
    var id :| id in spec.metrics && NoModelKey(spec.metrics[id]) == k;
    assert !Right(s, spec, id);
  }

  lemma FirstMisfiles(s: State, spec: Spec, addOrder: seq<string>, changeOrder: seq<string>)
    requires Valid(s) && s.metricMap == map[] && DistinctMetrics(spec) && !AtMostOne(spec)
    requires Enumerates(addOrder, spec.metrics.Keys) && Enumerates(changeOrder, spec.metrics.Keys)
    ensures Misfiled(HandleMetrics(s, spec, addOrder, changeOrder))
  {
    hide NoModelKey, MetricKeys, HandleMetrics, Valid;
    var a, b :| a in spec.metrics && b in spec.metrics && a != b;
    FirstMetricsAllReadAsOne(s, spec, addOrder, changeOrder);
    var r := HandleMetrics(s, spec, addOrder, changeOrder);
    var lastId := addOrder[|addOrder| - 1];
    var other := if a == lastId then b else a;
    KeyInSpec(spec, other);
    assert NoModelKey(spec.metrics[other]) in r.metricMap.Keys;
    HandledValid(s, spec, addOrder, changeOrder);
    assert MetricRead(r, NoModelKey(spec.metrics[other])) == spec.metrics[lastId];
    assert MisfiledAt(r, NoModelKey(spec.metrics[other]));
  }

  lemma HandledValid(s: State, spec: Spec, addOrder: seq<string>, changeOrder: seq<string>)
    requires Valid(s)
    requires Enumerates(addOrder, spec.metrics.Keys) && Enumerates(changeOrder, spec.metrics.Keys)
    ensures MetricsValid(HandleMetrics(s, spec, addOrder, changeOrder))
  {
    hide HandleMetrics;
  }

  /** The change loop either moves nothing, or ends with a first metric that reads as a later one. */
  lemma ChangeLoopMisfiles(s: State, spec: Spec, order: seq<string>)
    requires DistinctMetrics(spec) && !AtMostOne(spec) && MetricsValid(s) && Enumerates(order, spec.metrics.Keys)
    requires Stored(s, spec, order) && s.metricMap.Keys == MetricKeys(spec)
    requires Misfiled(s)
    ensures Misfiled(ChangeMetrics(s, spec, order).state)
  {
    hide NoModelKey, MetricKeys, ChangeMetrics, VisitedKeys;
    ChangeLoop(s, spec, order);
    var p, n := ChangeMetrics(s, spec, order).state, Passed(s, spec, order);
    if n == 0 {
      var k :| MisfiledAt(s, k);
      assert VisitedKeys(spec, order[..0]) == {} by {
        NothingVisited(spec);
        assert order[..0] == [];
      }
      assert MisfiledAt(p, k);
    } else {
      var a, b :| a in spec.metrics && b in spec.metrics && a != b;
      assert a in spec.metrics.Keys && b in spec.metrics.Keys;
      assert |order| > 1;
      var met := order[if n < |order| then n else n - 1];
      assert order[0] in order && met in order && met != order[0];
      assert order[0] in order[..n];
      VisitedKey(spec, order[..n], order[0]);
      assert MisfiledAt(p, NoModelKey(spec.metrics[order[0]]));
    }
  }

  lemma NothingVisited(spec: Spec)
    ensures VisitedKeys(spec, []) == {}
  {
  }

  lemma MisfiledStays(s: State, spec: Spec, addOrder: seq<string>, changeOrder: seq<string>)
    requires Valid(s) && Misfiled(s) && s.metricMap.Keys == MetricKeys(spec)
    requires DistinctMetrics(spec) && !AtMostOne(spec)
    requires Enumerates(addOrder, spec.metrics.Keys) && Enumerates(changeOrder, spec.metrics.Keys)
    ensures Misfiled(HandleMetrics(s, spec, addOrder, changeOrder))
  {
    hide NoModelKey, MetricKeys, AddMetrics, ChangeMetrics, DistinctMetrics, AtMostOne;
    KeptMetricKeys(s, spec, addOrder);
    var kept := DropMetrics(AddMetrics(s, spec, addOrder), spec);
    SpecMetricsStored(kept, spec, changeOrder);
    var k :| MisfiledAt(s, k);
    assert k in s.metricMap.Keys && k in kept.metricMap;
    OldCellsKept(s, spec, addOrder);
    assert MisfiledAt(kept, k);
    ChangeLoopMisfiles(kept, spec, changeOrder);
  }

  lemma {:induction false} OldCellsKept(s: State, spec: Spec, order: seq<string>)
    requires forall id :: id in order ==> id in spec.metrics
    ensures forall c :: 0 <= c < |s.metricCells| ==> AddMetrics(s, spec, order).metricCells[c] == s.metricCells[c]
  {
    hide NoModelKey;
    if |order| > 0 {
      OldCellsKept(s, spec, order[..|order| - 1]);
    }
  }

  // ---------------------------------------------------------------- over runs

  /** Every spec of the run has the metric keys `keys`, one metric to each. */
  ghost predicate KeysLast(keys: set<string>, spec: Spec, events: seq<Event>) {
    && DistinctMetrics(spec) && MetricKeys(spec) == keys
    && forall i :: 0 <= i < |events| && !events[i].Handle? ==>
         DistinctMetrics(events[i].spec) && MetricKeys(events[i].spec) == keys
  }

  lemma TwoMetrics(spec: Spec, j: string, k: string)
    requires j in MetricKeys(spec) && k in MetricKeys(spec) && j != k
    ensures !AtMostOne(spec)
  {
    hide NoModelKey;
    var a :| a in spec.metrics && NoModelKey(spec.metrics[a]) == j;
    var b :| b in spec.metrics && NoModelKey(spec.metrics[b]) == k;
    assert a != b;
  }

  /** No handler after handleMetrics touches the stored metrics. */
  lemma UpdateMetrics(s: State, spec: Spec, ch: Choices)
    requires Valid(s) && Legal(ch, spec)
    ensures var r, s' := HandleMetrics(s, spec, ch.metricAdd, ch.metricChange), Update(s, spec, ch).0;
            s'.metricMap == r.metricMap && s'.metricCells == r.metricCells && r.metricMap.Keys == MetricKeys(spec)
  {
    hide MetricKeys, ModelKeys, Valid, ModelsValid, Enumerates, HandleMetrics, HandleModels, HandleCollector,
         HandlePredictor, ClosesTwice;
    var m := HandleModels(HandleMetrics(s, spec, ch.metricAdd, ch.metricChange), spec, ch.modelOrder);
    HandleModelsKeys(HandleMetrics(s, spec, ch.metricAdd, ch.metricChange), spec, ch.modelOrder);
    if m.ok && !ClosesTwice(m.state, spec) {
      ChangesEnumerated(ch.changeOrder, m.changes, ModelKeys(spec));
    }
  }

  ghost predicate MisfiledInv(c: Cluster, keys: set<string>) {
    && DistinctMetrics(c.spec) && MetricKeys(c.spec) == keys && c.generation >= 1
    && (c.maps.metricMap == map[] || (Misfiled(c.maps) && c.maps.metricMap.Keys == keys))
    && (c.statusGeneration > 0 ==> c.maps.metricMap != map[])
  }

  lemma PassMisfiles(s: State, spec: Spec, ch: Choices, keys: set<string>, j: string, k: string)
    requires Valid(s) && Legal(ch, spec) && DistinctMetrics(spec) && MetricKeys(spec) == keys
    requires j in keys && k in keys && j != k
    requires s.metricMap == map[] || (Misfiled(s) && s.metricMap.Keys == keys)
    ensures var s' := Update(s, spec, ch).0; Misfiled(s') && s'.metricMap.Keys == keys
  {
    hide MetricKeys, HandleMetrics, Update, DistinctMetrics, AtMostOne, Valid, NoModelKey;
    TwoMetrics(spec, j, k);
    UpdateMetrics(s, spec, ch);
    if s.metricMap == map[] {
      FirstMisfiles(s, spec, ch.metricAdd, ch.metricChange);
    } else {
      MisfiledStays(s, spec, ch.metricAdd, ch.metricChange);
    }
    var r, s' := HandleMetrics(s, spec, ch.metricAdd, ch.metricChange), Update(s, spec, ch).0;
    var x :| MisfiledAt(r, x);
    assert MisfiledAt(s', x);
  }

  lemma StepMisfiles(c: Cluster, e: Event, keys: set<string>, j: string, k: string)
    requires MisfiledInv(c, keys) && CanHappen(c, e) && j in keys && k in keys && j != k
    requires !e.Handle? ==> DistinctMetrics(e.spec) && MetricKeys(e.spec) == keys
    ensures MisfiledInv(Apply(c, e), keys)
  {
    hide MetricKeys, Update, DistinctMetrics, Valid, Legal, Misfiled;
    if e.Handle? {
      PassMisfiles(c.maps, c.spec, e.ch, keys, j, k);
      assert Update(c.maps, c.spec, e.ch).0.metricMap.Keys == keys;
    }
  }

  lemma {:induction false} RunMisfiles(keys: set<string>, spec: Spec, events: seq<Event>, j: string, k: string)
    requires KeysLast(keys, spec, events) && Execute(spec, events).Some?
    requires j in keys && k in keys && j != k
    ensures MisfiledInv(Execute(spec, events).value, keys)
  {
    hide CanHappen, Apply, DistinctMetrics, MetricKeys, Misfiled;
    if |events| > 0 {
      var n := |events| - 1;
      RunMisfiles(keys, spec, events[..n], j, k);
      StepMisfiles(Execute(spec, events[..n]).value, events[n], keys, j, k);
    }
  }

  /** In a run whose specs keep the same two or more metric keys, the stored metrics are never
      right: from the first pass through the handlers on, and so whenever a generation is
      recorded, some key reads as another key's metric, whatever is edited and retried. */
  lemma LastingMetricsNeverRight(keys: set<string>, spec: Spec, events: seq<Event>, j: string, k: string)
    requires KeysLast(keys, spec, events) && Execute(spec, events).Some?
    requires j in keys && k in keys && j != k
    ensures var c := Execute(spec, events).value;
            && (c.statusGeneration > 0 ==> c.maps.metricMap != map[])
            && (c.maps.metricMap != map[] ==> Misfiled(c.maps) && !ReadsRight(c.maps, c.spec))
  {
    hide DistinctMetrics, MetricKeys, Misfiled, ReadsRight;
    RunMisfiles(keys, spec, events, j, k);
    var c := Execute(spec, events).value;
    if c.maps.metricMap != map[] {
      MisfiledIsWrong(c.maps, c.spec);
    }
  }
}
