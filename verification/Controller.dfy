/** Handle, handleCreate and handleUpdate as methods (controllers/aom_controller.go:160-253),
    proved to take the step Runs.Reconcile, about which the theorems over runs are. */
module Controller {
  import opened Domain
  import opened Orders
  import opened Reconciler
  import opened ReconcilerLaws
  import opened Runs
  import opened Handlers

  class Handler {
    const maps: Hide
    var generation: nat
    var statusGeneration: nat
    var spec: Spec
    var schedulers: nat

    ghost function View(): Cluster
      reads this, maps
    {
      Cluster(generation, statusGeneration, spec, maps.View(), schedulers)
    }

    constructor (spec: Spec)
      ensures View() == Start(spec) && fresh(maps)
    {
      maps := new Hide();
      generation, statusGeneration, schedulers := 1, 0, 0;
      this.spec := spec;
    }

    /** The four handlers, in the order both handleCreate and handleUpdate call them. */
    method RunHandlers(ch: Choices) returns (v: Verdict)
      requires Valid(maps.View()) && Legal(ch, spec)
      modifies maps
      ensures v == Update(old(maps.View()), spec, ch).1
      ensures v != Panic ==> maps.View() == Update(old(maps.View()), spec, ch).0
    {
      hide Valid, Enumerates, ClosesTwice, HandleMetrics, HandleModels, HandleCollector, HandlePredictor, ModelKeys;
      maps.HandleMetrics(spec, ch.metricAdd, ch.metricChange);
      ghost var s1 := maps.View();
      var changes, ok := maps.HandleModels(spec, ch.modelOrder);
      if !ok {
        return Failure;
      }
      HandleModelsKeys(s1, spec, ch.modelOrder);
      ChangesEnumerated(ch.changeOrder, changes, ModelKeys(spec));
      var collected := maps.HandleCollector(spec, ch.collectorOrder);
      if !collected.Ok? {
        return Panic;
      }
      var built, rest := maps.HandlePredictor(spec, ch.predictorOrder, changes,
                                              Visits(ch.changeOrder, changes), ch.budget);
      v := if built then Success else Failure;
    }

    method Handle(ch: Choices) returns (v: Verdict)
      requires Valid(maps.View()) && Legal(ch, spec)
      modifies this, maps
      ensures v == Reconcile(old(View()), ch).1
      ensures v != Panic ==> View() == Reconcile(old(View()), ch).0
    {
      hide Valid, Legal, Update;
      if statusGeneration == generation {
        return Success;
      }
      if !ch.clientOk {
        return Failure;
      }
      if statusGeneration == 0 {
        if !ch.addressOk {
          return Failure;
        }
        v := RunHandlers(ch);
        if !v.Success? {
          return v;
        }
        schedulers := schedulers + 1;
      } else if generation > statusGeneration {
        v := RunHandlers(ch);
        if !v.Success? {
          return v;
        }
      }
      if !ch.statusOk {
        return Failure;
      }
      statusGeneration := generation;
      v := Success;
    }
  }
}
