/** Whole runs of a scheduler (scheduler/scheduler.go:54-173): tick after tick, each from the
    interleaving of its goroutines to the write of the replica count. */
module TickRuns {
  import opened Domain
  import opened ScalingLaws
  import opened Grouping
  import opened Keys
  import opened Orders
  import opened Scheduler
  import FanOut
  import Replicas
  import SampleBuffer
  import TickBuffer

  /** What the second half of a tick works on: the received rows, the stored weights, the order in
      which the metrics are visited, and whether the foreign calls go through. */
  datatype Input = Input(pairs: seq<Pair>, weights: map<string, int>, order: seq<string>, readOk: bool, writeOk: bool)

  /** The tick comes to its end: no row was received, or the rows are in range. */
  ghost predicate Survives(t: Input) {
    t.pairs == [] || TickInRange(t.pairs, t.weights, t.order)
  }

  lemma SurvivorHasTarget(t: Input)
    requires Survives(t) && t.pairs != []
    ensures TickTarget(t.pairs, t.weights, t.order).Ok?
  {
    hide TickTarget, TickInRange;
    TickOkExactlyWhen(t.pairs, t.weights, t.order);
  }

  ghost function CallOf(t: Input): Replicas.Call
    requires Survives(t) && t.pairs != []
  {
    hide TickTarget;
    SurvivorHasTarget(t);
    Replicas.UpTo(TickTarget(t.pairs, t.weights, t.order).value, t.readOk, t.writeOk)
  }

  /** The calls of UpTo that some ticks make: none for a tick without a row. */
  ghost function CallsOf(ticks: seq<Input>): seq<Replicas.Call>
    requires forall i :: 0 <= i < |ticks| ==> Survives(ticks[i])
  {
    if |ticks| == 0 then []
    else
      assert Survives(ticks[|ticks| - 1]);
      var calls, t := CallsOf(ticks[..|ticks| - 1]), ticks[|ticks| - 1];
      if t.pairs == [] then calls else calls + [CallOf(t)]
  }

  lemma CallsNext(ticks: seq<Input>, i: nat)
    requires i < |ticks| && forall j :: 0 <= j <= i ==> Survives(ticks[j])
    ensures var t, calls := ticks[i], CallsOf(ticks[..i]);
            CallsOf(ticks[..i + 1]) == if t.pairs == [] then calls else calls + [CallOf(t)]
  {
    hide Survives, CallOf;
    assert ticks[..i + 1][..i] == ticks[..i];
  }

  lemma RunNext(b: Replicas.Bounds, start: int, calls: seq<Replicas.Call>, c: Replicas.Call)
    ensures Replicas.Run(b, start, calls + [c]) == Replicas.After(b, Replicas.Run(b, start, calls), c)
  {
    assert (calls + [c])[..|calls|] == calls;
  }

  /** The loop of Run over the ticks of its clock; a tick that panics ends it. */
  method RunTicks(ticks: seq<Input>, scaler: Replicas.Scaler) returns (r: Outcome<()>)
    requires forall i :: 0 <= i < |ticks| ==> Enumerates(ticks[i].order, Metrics(ticks[i].pairs))
    modifies scaler
    ensures r.Ok? <==> forall i :: 0 <= i < |ticks| ==> Survives(ticks[i])
    ensures r.Ok? ==> scaler.replicas == Replicas.Run(scaler.bounds, old(scaler.replicas), CallsOf(ticks))
  {
    hide Enumerates, Metrics, TickTarget, TickInRange, Replicas.After, Replicas.Run, CallsOf;
    ghost var start := scaler.replicas;
    assert ticks[..0] == [];
    NoCalls(scaler.bounds, start);
    for i := 0 to |ticks|
      invariant forall j :: 0 <= j < i ==> Survives(ticks[j])
      invariant scaler.replicas == Replicas.Run(scaler.bounds, start, CallsOf(ticks[..i]))
    {
      var t := ticks[i];
      var ended := Tick(t.pairs, t.weights, t.order, scaler, t.readOk, t.writeOk);
      if !ended.Ok? {
        return Panicked;
      }
      CallsNext(ticks, i);
      if t.pairs != [] {
        RunNext(scaler.bounds, start, CallsOf(ticks[..i]), CallOf(t));
      }
    }
    assert ticks[..|ticks|] == ticks;
    r := Ok(());
  }

  lemma NoCalls(b: Replicas.Bounds, start: int)
    ensures CallsOf([]) == [] && Replicas.Run(b, start, []) == start
  {
  }

  lemma {:induction false} CallsScaleUp(ticks: seq<Input>)
    requires forall i :: 0 <= i < |ticks| ==> Survives(ticks[i])
    ensures forall k :: 0 <= k < |CallsOf(ticks)| ==> CallsOf(ticks)[k].UpTo?
  {
    hide Survives, TickTarget, TickInRange;
    if |ticks| > 0 {
      CallsScaleUp(ticks[..|ticks| - 1]);
    }
  }

  /** The tick's call goes through. */
  ghost predicate Writes(t: Input) {
    Survives(t) && t.pairs != [] && t.readOk && t.writeOk
  }

  /** `v` is the largest of the start and of the capped target of every tick whose call goes through. */
  ghost predicate IsHighestTarget(b: Replicas.Bounds, start: int, ticks: seq<Input>, v: int) {
    && v >= start
    && (forall i :: 0 <= i < |ticks| && Writes(ticks[i]) ==> v >= Replicas.Capped(b, TargetOf(ticks[i])))
    && (v == start || exists i :: 0 <= i < |ticks| && Writes(ticks[i]) && v == Replicas.Capped(b, TargetOf(ticks[i])))
  }

  ghost function TargetOf(t: Input): int
    requires Survives(t) && t.pairs != []
  {
    hide TickTarget;
    SurvivorHasTarget(t);
    TickTarget(t.pairs, t.weights, t.order).value
  }

  /** The call is that of one of the ticks. */
  ghost predicate CallFrom(ticks: seq<Input>, c: Replicas.Call) {
    exists i :: 0 <= i < |ticks| && IsCallOf(ticks[i], c)
  }

  ghost predicate IsCallOf(t: Input, c: Replicas.Call) {
    Survives(t) && t.pairs != [] && c == CallOf(t)
  }

  lemma CallFromNext(ticks: seq<Input>, c: Replicas.Call)
    requires |ticks| > 0
    ensures CallFrom(ticks, c) <==> CallFrom(ticks[..|ticks| - 1], c) || IsCallOf(ticks[|ticks| - 1], c)
  {
    hide IsCallOf;
    var n := |ticks| - 1;
    if CallFrom(ticks[..n], c) {
      var i :| 0 <= i < n && IsCallOf(ticks[..n][i], c);
      assert IsCallOf(ticks[i], c);
    }
    if CallFrom(ticks, c) && !IsCallOf(ticks[n], c) {
      var i :| 0 <= i < |ticks| && IsCallOf(ticks[i], c);
      assert IsCallOf(ticks[..n][i], c);
    }
  }

  /** The calls of some ticks are theirs. */
  lemma {:induction false} CallsAre(ticks: seq<Input>, c: Replicas.Call)
    requires forall i :: 0 <= i < |ticks| ==> Survives(ticks[i])
    ensures c in CallsOf(ticks) <==> CallFrom(ticks, c)
  {
    if |ticks| == 0 {
      assert CallsOf(ticks) == [];
    } else {
      var n := |ticks| - 1;
      CallsAre(ticks[..n], c);
      CallFromNext(ticks, c);
      hide Survives, CallOf, CallFrom;
      CallsNext(ticks, n);
      assert ticks[..n + 1] == ticks;
    }
  }

  lemma CallIs(t: Input)
    requires Survives(t) && t.pairs != []
    ensures CallOf(t) == Replicas.UpTo(TargetOf(t), t.readOk, t.writeOk)
    ensures Replicas.Effective(CallOf(t)) <==> Writes(t)
  {
    hide TickTarget;
  }

  /** The ticks of a run, whatever they receive, end at the highest of the start and their capped
      targets. */
  lemma TicksEndAtHighest(b: Replicas.Bounds, start: int, ticks: seq<Input>)
    requires start <= b.max && forall i :: 0 <= i < |ticks| ==> Survives(ticks[i])
    ensures var end := Replicas.Run(b, start, CallsOf(ticks));
            start <= end <= b.max && IsHighestTarget(b, start, ticks, end)
  {
    hide Survives, CallOf, TargetOf, Replicas.Run, Replicas.Effective;
    CallsScaleUp(ticks);
    Replicas.UpRunEndsAtHighest(b, start, CallsOf(ticks));
    var calls := CallsOf(ticks);
    var end := Replicas.Run(b, start, calls);
    forall i | 0 <= i < |ticks| && Writes(ticks[i]) ensures end >= Replicas.Capped(b, TargetOf(ticks[i])) {
      CallIs(ticks[i]);
      assert IsCallOf(ticks[i], CallOf(ticks[i]));
      CallsAre(ticks, CallOf(ticks[i]));
      var k :| 0 <= k < |calls| && calls[k] == CallOf(ticks[i]);
    }
    if end != start {
      var k :| 0 <= k < |calls| && Replicas.Effective(calls[k]) && end == Replicas.Capped(b, calls[k].replica);
      CallsAre(ticks, calls[k]);
      var i :| 0 <= i < |ticks| && IsCallOf(ticks[i], calls[k]);
      CallIs(ticks[i]);
    }
  }

  // ---------------------------------------------------------------- from the fan-out

  ghost predicate Delivered(keys: seq<string>, received: seq<FanOut.Delivery>) {
    forall d :: d in received ==> d.entry < |keys|
  }

  /** What is received from the channel: rows with the model keys of their entries. */
  function ToPairs(keys: seq<string>, received: seq<FanOut.Delivery>): (r: seq<Pair>)
    requires Delivered(keys, received)
    ensures |r| == |received|
  {
    seq(|received|, i requires 0 <= i < |received| =>
      assert received[i] in received;
      Pair(received[i].row, keys[received[i].entry]))
  }

  /** The fan-out over predictors with these keys ends in `s`. */
  ghost predicate Ends(keys: seq<string>, steps: seq<FanOut.Step>, s: FanOut.State) {
    FanOut.Reaches(|keys|, steps, s) && s.main.Over?
  }

  lemma EndsDelivered(keys: seq<string>, steps: seq<FanOut.Step>, s: FanOut.State)
    requires Ends(keys, steps, s)
    ensures Delivered(keys, s.received)
  {
    hide FanOut.Reaches;
    FanOut.OverReceivedExactlyTheSuccesses(|keys|, steps, s);
  }

  lemma {:induction false} RowsOfAre(pairs: seq<Pair>, k: string, row: seq<int>)
    ensures row in RowsOf(pairs, k) <==>
              exists j :: 0 <= j < |pairs| && GetNoModelKey(pairs[j].withModelKey) == k && pairs[j].modelReplica == row
  {
    hide GetNoModelKey;
    if |pairs| > 0 {
      var n := |pairs| - 1;
      RowsOfAre(pairs[..n], k, row);
      assert forall j :: 0 <= j < n ==> pairs[..n][j] == pairs[j];
    }
  }

  /** From the goroutines to the metrics: the rows of a metric are exactly those with which a
      predictor of that metric succeeded. */
  lemma MetricRowsAre(keys: seq<string>, steps: seq<FanOut.Step>, s: FanOut.State, k: string, row: seq<int>)
    requires Ends(keys, steps, s)
    ensures Delivered(keys, s.received)
    ensures row in RowsOf(ToPairs(keys, s.received), k) <==>
              exists i: nat :: i < |keys| && GetNoModelKey(keys[i]) == k && FanOut.Succeed(i, row) in steps
  {
    hide FanOut.Reaches, GetNoModelKey, RowsOf;
    EndsDelivered(keys, steps, s);
    FanOut.OverReceivedWhatSucceeded(|keys|, steps, s);
    var pairs := ToPairs(keys, s.received);
    RowsOfAre(pairs, k, row);
    if i: nat :| i < |keys| && GetNoModelKey(keys[i]) == k && FanOut.Succeed(i, row) in steps {
      var j :| 0 <= j < |s.received| && s.received[j] == FanOut.Delivery(i, row);
      assert pairs[j] == Pair(row, keys[i]);
    }
    if j :| 0 <= j < |pairs| && GetNoModelKey(pairs[j].withModelKey) == k && pairs[j].modelReplica == row {
      assert s.received[j] in s.received;
      assert FanOut.Delivery(s.received[j].entry, row) in s.received;
    }
  }

  lemma {:induction false} DistinctCounts(log: seq<FanOut.Delivery>)
    requires forall j, k :: 0 <= j < k < |log| ==> log[j].entry != log[k].entry
    ensures forall d :: multiset(log)[d] == if d in log then 1 else 0
  {
    if |log| > 0 {
      var n := |log| - 1;
      DistinctCounts(log[..n]);
      assert log == log[..n] + [log[n]];
      assert log[n] !in log[..n];
    }
  }

  /** Two interleavings in which every predictor fares the same deliver the same rows, in some
      order. */
  lemma SameOutcomesSameRows(keys: seq<string>, steps: seq<FanOut.Step>, s: FanOut.State,
                             steps': seq<FanOut.Step>, s': FanOut.State)
    requires Ends(keys, steps, s) && Ends(keys, steps', s') && s.phases == s'.phases
    ensures multiset(s.received) == multiset(s'.received)
  {
    hide FanOut.Reaches;
    FanOut.OverReceivedExactlyTheSuccesses(|keys|, steps, s);
    FanOut.OverReceivedExactlyTheSuccesses(|keys|, steps', s');
    DistinctCounts(s.received);
    DistinctCounts(s'.received);
    forall d: FanOut.Delivery ensures d in s.received <==> d in s'.received {
      if d.entry < |keys| {
        assert FanOut.Delivery(d.entry, d.row) == d;
      }
    }
  }

  lemma WithoutOne<T>(s: seq<T>, k: nat)
    requires k < |s|
    ensures multiset(s) == multiset(Without(s, k)) + multiset{s[k]}
    ensures multiset(Without(s, k)) == multiset(s) - multiset{s[k]}
  {
    assert s == s[..k] + [s[k]] + s[k + 1..];
  }

  lemma ToPairsWithout(keys: seq<string>, a: seq<FanOut.Delivery>, k: nat)
    requires Delivered(keys, a) && k < |a|
    ensures Delivered(keys, Without(a, k))
    ensures multiset(ToPairs(keys, a)) == multiset(ToPairs(keys, Without(a, k))) + multiset{ToPairs(keys, a)[k]}
  {
    assert ToPairs(keys, Without(a, k)) == Without(ToPairs(keys, a), k);
    WithoutOne(ToPairs(keys, a), k);
  }

  lemma {:induction false} ToPairsReordered(keys: seq<string>, a: seq<FanOut.Delivery>, b: seq<FanOut.Delivery>)
    requires Delivered(keys, a) && Delivered(keys, b) && multiset(a) == multiset(b)
    ensures multiset(ToPairs(keys, a)) == multiset(ToPairs(keys, b))
    decreases |a|
  {
    hide Without, Delivered;
    assert |multiset(a)| == |a| && |multiset(b)| == |b|;
    if |a| == 0 {
      assert a == b;
    } else {
      var n := |a| - 1;
      assert a[n] in multiset(b);
      var k :| 0 <= k < |b| && b[k] == a[n];
      ToPairsWithout(keys, a, n);
      ToPairsWithout(keys, b, k);
      WithoutOne(a, n);
      WithoutOne(b, k);
      assert multiset(Without(a, n)) == multiset(Without(b, k));
      assert |multiset(Without(a, n))| == |multiset(a)| - 1;
      assert |multiset(Without(a, n))| == |Without(a, n)|;
      ToPairsReordered(keys, Without(a, n), Without(b, k));
    }
  }

  /** A tick from its fan-out. */
  ghost predicate ComesFrom(t: Input, keys: seq<string>, steps: seq<FanOut.Step>, s: FanOut.State) {
    Ends(keys, steps, s) && (EndsDelivered(keys, steps, s); t.pairs == ToPairs(keys, s.received))
  }

  /** The tick has the rows of each metric at one length. */
  ghost predicate LevelRows(t: Input) {
    forall j :: 0 <= j < |t.order| ==> EqualLengths(RowsOf(t.pairs, t.order[j]))
  }

  /** Two ticks that differ only in how the goroutines interleave: some fan-outs of the same
      predictors, in which every predictor fares the same, lead to them. */
  ghost predicate SameTick(t: Input, t': Input) {
    && t.weights == t'.weights && t.order == t'.order && t.readOk == t'.readOk && t.writeOk == t'.writeOk
    && exists keys, steps, s, steps', s' ::
         ComesFrom(t, keys, steps, s) && ComesFrom(t', keys, steps', s') && s.phases == s'.phases
  }

  lemma SameTickSameTarget(t: Input, t': Input)
    requires SameTick(t, t') && LevelRows(t)
    ensures t.pairs == [] <==> t'.pairs == []
    ensures TickTarget(t.pairs, t.weights, t.order) == TickTarget(t'.pairs, t'.weights, t'.order)
    ensures Survives(t) <==> Survives(t')
    ensures Survives(t) && t.pairs != [] ==> CallOf(t) == CallOf(t')
  {
    hide TickTarget, TickInRange, RowsOf, EqualLengths, FanOut.Reaches, ToPairs;
    var keys, steps, s, steps', s' :|
      ComesFrom(t, keys, steps, s) && ComesFrom(t', keys, steps', s') && s.phases == s'.phases;
    EndsDelivered(keys, steps, s);
    EndsDelivered(keys, steps', s');
    SameOutcomesSameRows(keys, steps, s, steps', s');
    ToPairsReordered(keys, s.received, s'.received);
    assert |multiset(t.pairs)| == |t.pairs| && |multiset(t'.pairs)| == |t'.pairs|;
    TargetIgnoresArrivals(t.pairs, t'.pairs, t.weights, t.order);
    TickOkExactlyWhen(t.pairs, t.weights, t.order);
    TickOkExactlyWhen(t'.pairs, t'.weights, t'.order);
  }

  lemma {:induction false} SameTicksSameCalls(ticks: seq<Input>, ticks': seq<Input>)
    requires |ticks| == |ticks'|
    requires forall i :: 0 <= i < |ticks| ==> SameTick(ticks[i], ticks'[i]) && LevelRows(ticks[i]) && Survives(ticks[i])
    ensures forall i :: 0 <= i < |ticks| ==> Survives(ticks'[i])
    ensures CallsOf(ticks) == CallsOf(ticks')
  {
    hide TickTarget, LevelRows, SameTick, Survives, TickInRange, CallOf;
    forall i | 0 <= i < |ticks| ensures Survives(ticks'[i]) {
      SameTickSameTarget(ticks[i], ticks'[i]);
    }
    if |ticks| > 0 {
      var n := |ticks| - 1;
      SameTicksSameCalls(ticks[..n], ticks'[..n]);
      SameTickSameTarget(ticks[n], ticks'[n]);
      assert Survives(ticks[n]) && Survives(ticks'[n]);
    }
  }

  /** End to end: the replica count a run of ticks ends at is the highest of the start and the
      capped targets, and as long as every predictor fares the same no interleaving of the goroutines
      in any tick can change it. */
  lemma InterleavingsEndTheSame(b: Replicas.Bounds, start: int, ticks: seq<Input>, ticks': seq<Input>)
    requires start <= b.max && |ticks| == |ticks'|
    requires forall i :: 0 <= i < |ticks| ==> SameTick(ticks[i], ticks'[i]) && LevelRows(ticks[i]) && Survives(ticks[i])
    ensures forall i :: 0 <= i < |ticks| ==> Survives(ticks'[i])
    ensures var end := Replicas.Run(b, start, CallsOf(ticks));
            && Replicas.Run(b, start, CallsOf(ticks')) == end
            && start <= end <= b.max && IsHighestTarget(b, start, ticks, end)
  {
    hide SameTick, LevelRows, Survives;
    SameTicksSameCalls(ticks, ticks');
    TicksEndAtHighest(b, start, ticks);
  }

  // ---------------------------------------------------------------- from the sample buffers

  /** An entry of the predictor map at a tick: its key, whether it is passed over for want of a
      model or metric, the buffer and place its Predict reads at, and what becomes of a window: the
      row it is sent as, or nothing if the model or the conversion fails. */
  datatype Caller = Caller(
    key: string,
    skipped: bool,
    buffer: nat,
    place: nat,
    answer: seq<SampleBuffer.Sample> -> Option<seq<int>>)

  /** A buffer as the tick finds it, and its readers. */
  datatype Buffer = Buffer(readers: seq<SampleBuffer.Reader>, start: SampleBuffer.State)

  /** All that is settled when a tick starts. */
  datatype Plan = Plan(callers: seq<Caller>, buffers: seq<Buffer>)

  ghost predicate WellPlanned(plan: Plan) {
    && (forall i :: 0 <= i < |plan.callers| && !plan.callers[i].skipped ==>
          plan.callers[i].buffer < |plan.buffers|
          && plan.callers[i].place < |plan.buffers[plan.callers[i].buffer].readers|)
    && (forall b :: 0 <= b < |plan.buffers| ==>
          TickBuffer.AllIdle(plan.buffers[b].readers, plan.buffers[b].start)
          && TickBuffer.AsksForSome(plan.buffers[b].readers))
  }

  /** The calls on every buffer have returned. */
  ghost predicate AllReturned(plan: Plan, runs: seq<seq<SampleBuffer.Step>>)
    requires WellPlanned(plan)
  {
    && |runs| == |plan.buffers|
    && forall b :: 0 <= b < |runs| ==> TickBuffer.Finished(plan.buffers[b].readers, plan.buffers[b].start, runs[b])
  }

  /** How caller `i` fares when its buffer's calls go as in `runs`. */
  ghost function Fate(plan: Plan, runs: seq<seq<SampleBuffer.Step>>, i: nat): FanOut.Phase
    requires WellPlanned(plan) && AllReturned(plan, runs) && i < |plan.callers|
  {
    var c := plan.callers[i];
    if c.skipped then FanOut.Skipped
    else
      var b := plan.buffers[c.buffer];
      match TickBuffer.Window(b.readers, b.start, runs[c.buffer], c.place)
      case Some(window) => FanOut.Finished(c.answer(window))
      case None => FanOut.Finished(None)
  }

  ghost predicate Explains(plan: Plan, runs: seq<seq<SampleBuffer.Step>>, phases: seq<FanOut.Phase>) {
    && WellPlanned(plan) && AllReturned(plan, runs) && |phases| == |plan.callers|
    && forall i :: 0 <= i < |phases| ==> phases[i] == Fate(plan, runs, i)
  }

  function KeysOf(callers: seq<Caller>): (keys: seq<string>)
    ensures |keys| == |callers|
  {
    seq(|callers|, i requires 0 <= i < |callers| => callers[i].key)
  }

  /** The tick is an outcome of the plan: of some interleaving of the calls on each buffer, and of
      some interleaving of the goroutines. */
  ghost predicate PlaysOut(t: Input, plan: Plan) {
    exists steps, s: FanOut.State, runs ::
      ComesFrom(t, KeysOf(plan.callers), steps, s) && Explains(plan, runs, s.phases)
  }

  /** No buffer has enough for two of its readers. */
  ghost predicate LoneReaders(plan: Plan) {
    forall b :: 0 <= b < |plan.buffers| ==> TickBuffer.AtMostOneCan(plan.buffers[b].readers, plan.buffers[b].start)
  }

  lemma SameFates(plan: Plan, runs: seq<seq<SampleBuffer.Step>>, phases: seq<FanOut.Phase>,
                  runs': seq<seq<SampleBuffer.Step>>, phases': seq<FanOut.Phase>)
    requires Explains(plan, runs, phases) && Explains(plan, runs', phases') && LoneReaders(plan)
    ensures phases == phases'
  {
    hide TickBuffer.Window, TickBuffer.Finished, TickBuffer.AtMostOneCan, TickBuffer.AsksForSome;
    forall i | 0 <= i < |phases| ensures phases[i] == phases'[i] {
      var c := plan.callers[i];
      if !c.skipped {
        var b := plan.buffers[c.buffer];
        TickBuffer.OneReaderWins(b.readers, b.start, runs[c.buffer], c.place);
        TickBuffer.OneReaderWins(b.readers, b.start, runs'[c.buffer], c.place);
      }
    }
  }

  lemma LoneReadersSameTick(t: Input, t': Input, plan: Plan)
    requires PlaysOut(t, plan) && PlaysOut(t', plan) && LoneReaders(plan)
    requires t.weights == t'.weights && t.order == t'.order && t.readOk == t'.readOk && t.writeOk == t'.writeOk
    ensures SameTick(t, t')
  {
    hide ComesFrom, Explains, LoneReaders;
    var steps, s: FanOut.State, runs :|
      ComesFrom(t, KeysOf(plan.callers), steps, s) && Explains(plan, runs, s.phases);
    var steps', s': FanOut.State, runs' :|
      ComesFrom(t', KeysOf(plan.callers), steps', s') && Explains(plan, runs', s'.phases);
    SameFates(plan, runs, s.phases, runs', s'.phases);
  }

  /** What each tick finds settled decides the whole run: if no buffer ever has enough for two of its
      readers, and the rows of each metric have one length, every interleaving, of the calls on the
      buffers and of the sends, ends at the same replica count. */
  lemma LoneReadersEndTheSame(b: Replicas.Bounds, start: int, plans: seq<Plan>, ticks: seq<Input>, ticks': seq<Input>)
    requires start <= b.max && |plans| == |ticks| == |ticks'|
    requires forall i :: 0 <= i < |ticks| ==>
               && PlaysOut(ticks[i], plans[i]) && PlaysOut(ticks'[i], plans[i]) && LoneReaders(plans[i])
               && ticks[i].weights == ticks'[i].weights && ticks[i].order == ticks'[i].order
               && ticks[i].readOk == ticks'[i].readOk && ticks[i].writeOk == ticks'[i].writeOk
               && LevelRows(ticks[i]) && Survives(ticks[i])
    ensures forall i :: 0 <= i < |ticks| ==> Survives(ticks'[i])
    ensures Replicas.Run(b, start, CallsOf(ticks)) == Replicas.Run(b, start, CallsOf(ticks'))
  {
    hide PlaysOut, LoneReaders, SameTick, LevelRows, Survives;
    forall i | 0 <= i < |ticks| ensures SameTick(ticks[i], ticks'[i]) {
      LoneReadersSameTick(ticks[i], ticks'[i], plans[i]);
    }
    InterleavingsEndTheSame(b, start, ticks, ticks');
  }
}
