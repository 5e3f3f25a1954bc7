/** The sample buffer one scraper fills and any number of predictors drain
    (collector/prometheus_collector/prometheus_collector.go:83-109,
    algorithms/holt_winter/holt_winter.go:36-68). The calls are methods of Worker; the
    theorems are about every interleaving of them as atomic steps. */
module SampleBuffer {
  import opened Domain
  import HoltWinters

  datatype Sample = Sample(value: real, timestamp: int)

  function Values(samples: seq<Sample>): (r: seq<real>)
    ensures |r| == |samples|
  {
    seq(|samples|, i requires 0 <= i < |samples| => samples[i].value)
  }

  /** The newest `n` of some samples. */
  function Newest(samples: seq<Sample>, n: nat): seq<Sample>
    requires n <= |samples|
  {
    samples[|samples| - n..]
  }

  class Worker {
    var data: seq<Sample>

    constructor ()
      ensures data == []
    {
      data := [];
    }

    /** `batch` is what the query answered, or nothing if it failed. */
    method Collect(batch: Option<seq<Sample>>) returns (ok: bool)
      modifies this
      ensures ok == batch.Some?
      ensures data == if batch.Some? then old(data) + batch.value else old(data)
    {
      if batch.None? {
        return false;
      }
      ghost var before := data;
      for i := 0 to |batch.value|
        invariant data == before + batch.value[..i]
      {
        data := data + [batch.value[i]];
      }
      ok := true;
    }

    method Send() returns (res: seq<Sample>)
      modifies this
      ensures res == old(data) && data == []
    {
      res := data;
      data := [];
    }

    method DataCap() returns (n: nat)
      ensures n == |data|
    {
      n := |data|;
    }
  }

  datatype PredictResult = PredictResult(startMetric: real, loss: real, predictMetric: seq<real>)

  /** What Predict answers on buffered samples when nothing else touches the buffer. */
  function Prediction(p: HoltWinters.Params, lookBackward: int, data: seq<Sample>): Outcome<PredictResult> {
    if |data| < lookBackward then Failed
    else if lookBackward < 0 then Panicked
    else
      var series := Values(Newest(data, lookBackward));
      match HoltWinters.Smoothing(p, series)
      case Ok(predicted) => Ok(PredictResult(series[|series| - 1], -1.0, predicted))
      case _ => Panicked
  }

  /** A prediction that fails for want of data leaves the buffer; any other empties it. */
  method Predict(p: HoltWinters.Params, lookBackward: int, worker: Worker) returns (r: Outcome<PredictResult>)
    modifies worker
    ensures r == Prediction(p, lookBackward, old(worker.data))
    ensures worker.data == if r.Failed? then old(worker.data) else []
  {
    var cap := worker.DataCap();
    if cap < lookBackward {
      return Failed;
    }
    var metrics := worker.Send();
    if lookBackward < 0 {
      return Panicked;
    }
    metrics := metrics[|metrics| - lookBackward..];
    var series: seq<real> := [];
    for i := 0 to |metrics|
      invariant series == Values(metrics)[..i]
    {
      series := series + [metrics[i].value];
    }
    assert series == Values(metrics);
    var predMetrics := HoltWinters.TripleExponentialSmoothing(p, series);
    if !predMetrics.Ok? {
      return Panicked;
    }
    r := Ok(PredictResult(series[|series| - 1], -1.0, predMetrics.value));
  }

  /** A prediction sees nothing but the newest `lookBackward` samples: older ones change nothing, its
      start metric is the last, and its forecast is the smoothing of exactly these. */
  lemma PredictionSeesNewest(p: HoltWinters.Params, older: seq<Sample>, recent: seq<Sample>)
    ensures Prediction(p, |recent|, older + recent) == Prediction(p, |recent|, recent)
    ensures Prediction(p, |recent|, recent).Ok? <==> HoltWinters.Defined(p, |recent|)
    ensures HoltWinters.Defined(p, |recent|) ==>
              var r := Prediction(p, |recent|, recent).value;
              && r.startMetric == recent[|recent| - 1].value && r.loss == -1.0
              && |r.predictMetric| == HoltWinters.OutputLength(p, |recent|)
              && var series := seq(|recent|, k requires 0 <= k < |recent| => recent[k].value);
                 forall i :: 0 <= i < |r.predictMetric| ==> r.predictMetric[i] == HoltWinters.OutputAt(p, series, i)
  {
    hide HoltWinters.OutputAt;
    assert (older + recent)[|older|..] == recent && recent[0..] == recent;
    assert Newest(older + recent, |recent|) == recent == Newest(recent, |recent|);
    assert Values(recent) == seq(|recent|, k requires 0 <= k < |recent| => recent[k].value);
  }

  /** Too few samples are no prediction. */
  lemma PredictionNeedsData(p: HoltWinters.Params, lookBackward: int, data: seq<Sample>)
    ensures Prediction(p, lookBackward, data).Failed? <==> |data| < lookBackward
  {
    hide HoltWinters.OutputAt;
  }

  // ---------------------------------------------------------------- the scrape loop

  /** What the scrape loop finds at one tick: whether its worker is still registered, whether the
      stop channel or the context is done, and what a query would answer. */
  datatype Tick = Tick(registered: bool, stopped: bool, batch: Option<seq<Sample>>)

  /** The first tick at which the worker is no longer registered, or a stop or the context's end is
      seen, or their number. */
  function FirstStop(ticks: seq<Tick>): (n: nat)
    ensures n <= |ticks| && (n < |ticks| ==> !ticks[n].registered || ticks[n].stopped)
    ensures forall i :: 0 <= i < n ==> ticks[i].registered && !ticks[i].stopped
  {
    if |ticks| == 0 then 0
    else
      var last, n := |ticks| - 1, FirstStop(ticks[..|ticks| - 1]);
      if n < last then n else if !ticks[last].registered || ticks[last].stopped then last else last + 1
  }

  function BatchOf(t: Tick): seq<Sample> {
    if t.batch.Some? then t.batch.value else []
  }

  /** The batches of some ticks, one after the other. */
  function Scraped(ticks: seq<Tick>): seq<Sample> {
    if |ticks| == 0 then []
    else Scraped(ticks[..|ticks| - 1]) + BatchOf(ticks[|ticks| - 1])
  }

  lemma NothingScraped()
    ensures Scraped([]) == []
  {
  }

  lemma ScrapedNext(ticks: seq<Tick>, i: nat)
    requires i < |ticks|
    ensures Scraped(ticks[..i + 1]) == Scraped(ticks[..i]) + BatchOf(ticks[i])
  {
    assert ticks[..i + 1][..i] == ticks[..i];
  }

  lemma ScrapedLast(ticks: seq<Tick>, t: Tick)
    ensures Scraped(ticks + [t]) == Scraped(ticks) + BatchOf(t)
  {
    assert (ticks + [t])[..|ticks|] == ticks;
  }

  /** What is scraped is the batches in the order of their ticks, each once. */
  lemma {:induction false} ScrapedInOrder(before: seq<Tick>, after: seq<Tick>)
    ensures Scraped(before + after) == Scraped(before) + Scraped(after)
  {
    if |after| == 0 {
      assert before + after == before;
    } else {
      hide BatchOf, Scraped;
      var n := |after| - 1;
      ScrapedInOrder(before, after[..n]);
      assert before + after == (before + after[..n]) + [after[n]] && after == after[..n] + [after[n]];
      ScrapedLast(before + after[..n], after[n]);
      ScrapedLast(after[..n], after[n]);
      var a, b, c := Scraped(before), Scraped(after[..n]), BatchOf(after[n]);
      assert (a + b) + c == a + (b + c);
    }
  }

  lemma ScrapedOnce(t: Tick)
    ensures Scraped([t]) == if t.batch.Some? then t.batch.value else []
  {
    assert [t][..0] == [];
  }

  /** StartWorker collects at every tick up to the first one that stops it, and at none after:
      a stop seen at one tick ends the loop at the next. */
  method StartWorker(ticks: seq<Tick>, worker: Worker)
    modifies worker
    ensures worker.data == old(worker.data) + Scraped(ticks[..FirstStop(ticks)])
  {
    hide FirstStop, Scraped;
    var end := false;
    ghost var stop := FirstStop(ticks);
    assert Scraped(ticks[..0]) == [] by {
      NothingScraped();
    }
    for i := 0 to |ticks|
      invariant end ==> stop < i
      invariant !end ==> i <= stop
      invariant worker.data == old(worker.data) + Scraped(ticks[..if end then stop else i])
    {
      if !ticks[i].registered || end {
        return;
      }
      if ticks[i].stopped {
        end := true;
      } else {
        ScrapedNext(ticks, i);
        var ok := worker.Collect(ticks[i].batch);
      }
    }
  }

  // ---------------------------------------------------------------- the protocol

  /** A predictor of the metric: how many samples its check asks for, and how many its slice takes.
      Holt-Winters asks for what it takes, lookBackward; GRU asks for LookForward and takes
      LookBack. */
  datatype Reader = Reader(needed: nat, taken: nat)

  /** Where a reader is in Predict: `Checked` is between DataCap and Send, and remembers how many
      batches had been sent when it checked. */
  datatype Consumer = Idle | Checked(sentBefore: nat)

  datatype State = State(
    data: seq<Sample>,
    collected: seq<Sample>,
    sent: seq<seq<Sample>>,
    consumers: seq<Consumer>,
    windows: seq<seq<Sample>>,
    panicked: bool)

  datatype Step =
    | Collect(batch: seq<Sample>)
    | Check(consumer: nat)
    | Drain(consumer: nat)
    | Take                       // a Send that checks nothing: building or training a GRU model

  function Init(readers: seq<Reader>): State {
    State([], [], [], seq(|readers|, _ => Idle), [], false)
  }

  predicate Enabled(s: State, step: Step) {
    !s.panicked &&
    match step
    case Check(c) => c < |s.consumers| && s.consumers[c].Idle?
    case Drain(c) => c < |s.consumers| && s.consumers[c].Checked?
    case _ => true
  }

  function SendAll(s: State): State {
    s.(data := [], sent := s.sent + [s.data])
  }

  /** A slice that asks for more than was sent is out of range. */
  function Apply(readers: seq<Reader>, s: State, step: Step): State
    requires Enabled(s, step) && |s.consumers| == |readers|
  {
    match step
    case Collect(batch) => s.(data := s.data + batch, collected := s.collected + batch)
    case Check(c) =>
      if |s.data| < readers[c].needed then s
      else s.(consumers := s.consumers[c := Checked(|s.sent|)])
    case Drain(c) =>
      var idle := SendAll(s).(consumers := s.consumers[c := Idle]);
      if |s.data| < readers[c].taken then idle.(panicked := true)
      else idle.(windows := s.windows + [Newest(s.data, readers[c].taken)])
    case Take => SendAll(s)
  }

  function Execute(readers: seq<Reader>, steps: seq<Step>): (r: Option<State>)
    ensures r.Some? ==> |r.value.consumers| == |readers|
  {
    if |steps| == 0 then Some(Init(readers))
    else match Execute(readers, steps[..|steps| - 1])
      case Some(before) =>
        if Enabled(before, steps[|steps| - 1]) then Some(Apply(readers, before, steps[|steps| - 1])) else None
      case None => None
  }

  // ---------------------------------------------------------------- conservation

  function Concat(batches: seq<seq<Sample>>): seq<Sample> {
    if |batches| == 0 then [] else Concat(batches[..|batches| - 1]) + batches[|batches| - 1]
  }

  ghost predicate Conserves(s: State) {
    Concat(s.sent) + s.data == s.collected
  }

  lemma StepConserves(readers: seq<Reader>, s: State, step: Step)
    requires Conserves(s) && Enabled(s, step) && |s.consumers| == |readers|
    ensures Conserves(Apply(readers, s, step))
  {
    match step
    case Collect(batch) =>
      assert (Concat(s.sent) + s.data) + batch == Concat(s.sent) + (s.data + batch);
    case Check(_) =>
    case _ =>
      assert (s.sent + [s.data])[..|s.sent|] == s.sent;
      assert Concat(s.sent + [s.data]) + [] == s.collected;
  }

  /** Nothing is lost, duplicated or reordered: in every run, what was collected is the sent
      batches in order, followed by what is still buffered. */
  lemma {:induction false} Conservation(readers: seq<Reader>, steps: seq<Step>)
    requires Execute(readers, steps).Some?
    ensures var s := Execute(readers, steps).value; Concat(s.sent) + s.data == s.collected
  {
    if |steps| > 0 {
      var n := |steps| - 1;
      Conservation(readers, steps[..n]);
      hide Concat, Apply;
      StepConserves(readers, Execute(readers, steps[..n]).value, steps[n]);
    }
  }

  /** A drain that succeeds takes the newest samples of everything collected so far, whatever
      the other readers have drained. */
  lemma WindowIsNewest(readers: seq<Reader>, steps: seq<Step>, c: nat)
    requires var r := Execute(readers, steps);
             && r.Some? && Enabled(r.value, Drain(c))
             && readers[c].taken <= |r.value.data|
    ensures var s := Execute(readers, steps).value;
            && readers[c].taken <= |s.collected|
            && Apply(readers, s, Drain(c)).windows == s.windows + [Newest(s.collected, readers[c].taken)]
  {
    Conservation(readers, steps);
    var s := Execute(readers, steps).value;
    assert Newest(s.data, readers[c].taken) == Newest(s.collected, readers[c].taken);
  }

  // ---------------------------------------------------------------- out of range

  /** Predict is a check and a drain with nothing between: for a Holt-Winters reader the call on the
      buffer of a state answers from the window that the two steps take, and leaves the same buffer. */
  lemma PredictIsCheckThenDrain(p: HoltWinters.Params, readers: seq<Reader>, s: State, c: nat)
    requires |s.consumers| == |readers| && Enabled(s, Check(c))
    requires readers[c].needed == readers[c].taken
    ensures var n, checked := readers[c].taken, Apply(readers, s, Check(c));
            if |s.data| < n then checked == s && Prediction(p, n, s.data).Failed?
            else
              && Enabled(checked, Drain(c))
              && var drained := Apply(readers, checked, Drain(c));
                 && !drained.panicked && drained.data == [] && |drained.windows| == |s.windows| + 1
                 && Prediction(p, n, s.data) == Prediction(p, n, drained.windows[|s.windows|])
  {
    hide HoltWinters.Smoothing;
    var n := readers[c].taken;
    if |s.data| >= n {
      var recent := Newest(s.data, n);
      assert s.data == s.data[..|s.data| - n] + recent;
      assert Newest(recent, n) == recent;
    }
  }

  /** The samples that arrive after the last Send of a run. */
  function SinceSend(steps: seq<Step>): seq<Sample> {
    if |steps| == 0 then []
    else match steps[|steps| - 1]
      case Collect(batch) => SinceSend(steps[..|steps| - 1]) + batch
      case Check(_) => SinceSend(steps[..|steps| - 1])
      case _ => []
  }

  lemma {:induction false} BufferIsSinceSend(readers: seq<Reader>, steps: seq<Step>)
    requires Execute(readers, steps).Some?
    ensures Execute(readers, steps).value.data == SinceSend(steps)
  {
    if |steps| > 0 {
      BufferIsSinceSend(readers, steps[..|steps| - 1]);
    }
  }

  /** A reader that has checked still finds the samples it asked for if nobody has sent since. */
  lemma {:induction false} CheckHoldsUntilSent(readers: seq<Reader>, steps: seq<Step>, c: nat)
    requires Execute(readers, steps).Some? && c < |readers|
    ensures var s := Execute(readers, steps).value;
            s.consumers[c].Checked? ==>
              && s.consumers[c].sentBefore <= |s.sent|
              && (s.consumers[c].sentBefore == |s.sent| ==> |s.data| >= readers[c].needed)
  {
    if |steps| > 0 {
      CheckHoldsUntilSent(readers, steps[..|steps| - 1], c);
    }
  }

  /** A drain is out of range exactly when fewer samples have arrived since the last Send than its
      slice takes; and for a reader that asks for what it takes, that Send came between its check
      and its drain. */
  lemma OutOfRangeExactlyWhen(readers: seq<Reader>, steps: seq<Step>, c: nat)
    requires var r := Execute(readers, steps); r.Some? && Enabled(r.value, Drain(c))
    ensures var s := Execute(readers, steps).value;
            && (Apply(readers, s, Drain(c)).panicked <==> |SinceSend(steps)| < readers[c].taken)
            && (Apply(readers, s, Drain(c)).panicked && readers[c].taken <= readers[c].needed
                ==> |s.sent| > s.consumers[c].sentBefore)
  {
    BufferIsSinceSend(readers, steps);
    CheckHoldsUntilSent(readers, steps, c);
  }

  ghost predicate NoTake(steps: seq<Step>) {
    forall i :: 0 <= i < |steps| ==> !steps[i].Take?
  }

  ghost predicate Panics(readers: seq<Reader>, steps: seq<Step>) {
    Execute(readers, steps).Some? && Execute(readers, steps).value.panicked
  }

  lemma ExecuteNext(readers: seq<Reader>, steps: seq<Step>, step: Step, s: State)
    requires Execute(readers, steps) == Some(s) && Enabled(s, step)
    ensures |s.consumers| == |readers|
    ensures Execute(readers, steps + [step]) == Some(Apply(readers, s, step))
  {
    assert (steps + [step])[..|steps|] == steps;
  }

  lemma ExecuteNothing(readers: seq<Reader>)
    ensures Execute(readers, []) == Some(Init(readers))
  {
  }

  /** With one reader, which asks for what it takes, and nobody else sending, no run goes out of
      range. */
  lemma {:induction false} OneConsumerNeverOutOfRange(readers: seq<Reader>, steps: seq<Step>)
    requires |readers| == 1 && readers[0].taken <= readers[0].needed
    requires NoTake(steps) && Execute(readers, steps).Some?
    ensures var s := Execute(readers, steps).value;
            && !s.panicked
            && (s.consumers[0].Checked? ==> s.consumers[0].sentBefore == |s.sent|)
  {
    if |steps| > 0 {
      var n := |steps| - 1;
      assert NoTake(steps[..n]);
      OneConsumerNeverOutOfRange(readers, steps[..n]);
      CheckHoldsUntilSent(readers, steps[..n], 0);
    }
  }

  lemma {:induction false} EmptySlicesNeverOutOfRange(readers: seq<Reader>, steps: seq<Step>)
    requires (forall c :: 0 <= c < |readers| ==> readers[c].taken == 0) && Execute(readers, steps).Some?
    ensures !Execute(readers, steps).value.panicked
  {
    if |steps| > 0 {
      EmptySlicesNeverOutOfRange(readers, steps[..|steps| - 1]);
    }
  }

  /** Two readers of one buffer: both check, one drains, the other slices nothing. */
  lemma BetweenCheckAndDrain(readers: seq<Reader>, c: nat, d: nat, batch: seq<Sample>) returns (steps: seq<Step>)
    requires c < |readers| && d < |readers| && c != d && readers[c].taken >= 1
    requires |batch| >= readers[c].needed && |batch| >= readers[d].needed && |batch| >= readers[d].taken
    ensures NoTake(steps) && Panics(readers, steps)
  {
    var s0 := Init(readers);
    var s1 := Apply(readers, s0, Collect(batch));
    var s2 := Apply(readers, s1, Check(c));
    var s3 := Apply(readers, s2, Check(d));
    var s4 := Apply(readers, s3, Drain(d));
    ExecuteNothing(readers);
    hide Execute;
    ExecuteNext(readers, [], Collect(batch), s0);
    ExecuteNext(readers, [] + [Collect(batch)], Check(c), s1);
    ExecuteNext(readers, [] + [Collect(batch)] + [Check(c)], Check(d), s2);
    ExecuteNext(readers, [] + [Collect(batch)] + [Check(c)] + [Check(d)], Drain(d), s3);
    ExecuteNext(readers, [] + [Collect(batch)] + [Check(c)] + [Check(d)] + [Drain(d)], Drain(c), s4);
    steps := [] + [Collect(batch)] + [Check(c)] + [Check(d)] + [Drain(d)] + [Drain(c)];
  }

  /** One reader that asks for less than it takes. */
  lemma ShortCheck(readers: seq<Reader>, c: nat, batch: seq<Sample>) returns (steps: seq<Step>)
    requires c < |readers| && |batch| == readers[c].needed < readers[c].taken
    ensures NoTake(steps) && Panics(readers, steps)
  {
    var s0 := Init(readers);
    var s1 := Apply(readers, s0, Collect(batch));
    var s2 := Apply(readers, s1, Check(c));
    ExecuteNothing(readers);
    hide Execute;
    ExecuteNext(readers, [], Collect(batch), s0);
    ExecuteNext(readers, [] + [Collect(batch)], Check(c), s1);
    ExecuteNext(readers, [] + [Collect(batch)] + [Check(c)], Drain(c), s2);
    steps := [] + [Collect(batch)] + [Check(c)] + [Drain(c)];
  }

  /** One reader, and a Send that checks nothing between its check and its drain. */
  lemma TakeBetween(readers: seq<Reader>, c: nat, batch: seq<Sample>) returns (steps: seq<Step>)
    requires c < |readers| && readers[c].taken >= 1 && |batch| >= readers[c].needed
    ensures Panics(readers, steps)
  {
    var s0 := Init(readers);
    var s1 := Apply(readers, s0, Collect(batch));
    var s2 := Apply(readers, s1, Check(c));
    var s3 := Apply(readers, s2, Take);
    ExecuteNothing(readers);
    hide Execute;
    ExecuteNext(readers, [], Collect(batch), s0);
    ExecuteNext(readers, [] + [Collect(batch)], Check(c), s1);
    ExecuteNext(readers, [] + [Collect(batch)] + [Check(c)], Take, s2);
    ExecuteNext(readers, [] + [Collect(batch)] + [Check(c)] + [Take], Drain(c), s3);
    steps := [] + [Collect(batch)] + [Check(c)] + [Take] + [Drain(c)];
  }

  function Samples(n: nat): (r: seq<Sample>)
    ensures |r| == n
  {
    seq(n, _ => Sample(0.0, 0))
  }

  /** The readers of a buffer can go out of range by their own calls exactly when one takes more
      than it asks for, or there are two or more and one of them takes anything. */
  lemma ReadersCanPanicExactlyWhen(readers: seq<Reader>)
    ensures (exists steps :: NoTake(steps) && Panics(readers, steps))
       <==> || (exists c :: 0 <= c < |readers| && readers[c].needed < readers[c].taken)
            || (|readers| >= 2 && exists c :: 0 <= c < |readers| && readers[c].taken >= 1)
  {
    if c :| 0 <= c < |readers| && readers[c].needed < readers[c].taken {
      var steps := ShortCheck(readers, c, Samples(readers[c].needed));
    } else if |readers| >= 2 {
      if c :| 0 <= c < |readers| && readers[c].taken >= 1 {
        var d := if c == 0 then 1 else 0;
        var steps := BetweenCheckAndDrain(readers, c, d,
                                          Samples(readers[c].needed + readers[d].needed + readers[d].taken));
      }
    }
    forall steps | NoTake(steps) && Panics(readers, steps)
      ensures || (exists c :: 0 <= c < |readers| && readers[c].needed < readers[c].taken)
              || (|readers| >= 2 && exists c :: 0 <= c < |readers| && readers[c].taken >= 1)
    {
      if forall c :: 0 <= c < |readers| ==> readers[c].taken == 0 {
        EmptySlicesNeverOutOfRange(readers, steps);
      } else if |readers| == 1 && readers[0].taken <= readers[0].needed {
        OneConsumerNeverOutOfRange(readers, steps);
      }
    }
  }

  /** Once a GRU model of the metric may be built or trained, exactly when any reader takes
      anything: so for every Holt-Winters predictor with a window beside a GRU one. */
  lemma AnyReaderCanPanicExactlyWhen(readers: seq<Reader>)
    ensures (exists steps :: Panics(readers, steps)) <==> exists c :: 0 <= c < |readers| && readers[c].taken >= 1
  {
    if c :| 0 <= c < |readers| && readers[c].taken >= 1 {
      var steps := TakeBetween(readers, c, Samples(readers[c].needed));
    }
    forall steps | Panics(readers, steps) ensures exists c :: 0 <= c < |readers| && readers[c].taken >= 1 {
      if forall c :: 0 <= c < |readers| ==> readers[c].taken == 0 {
        EmptySlicesNeverOutOfRange(readers, steps);
      }
    }
  }

  // ---------------------------------------------------------------- successes

  lemma ConcatNext(batches: seq<seq<Sample>>, batch: seq<Sample>)
    ensures |Concat(batches + [batch])| == |Concat(batches)| + |batch|
  {
    assert (batches + [batch])[..|batches|] == batches;
  }

  ghost predicate Paid(s: State, least: nat) {
    least * |s.windows| <= |Concat(s.sent)|
  }

  lemma StepPaid(readers: seq<Reader>, s: State, step: Step, least: nat)
    requires Paid(s, least) && Enabled(s, step) && |s.consumers| == |readers|
    requires forall c :: 0 <= c < |readers| ==> least <= readers[c].taken
    ensures Paid(Apply(readers, s, step), least)
  {
    if step.Drain? || step.Take? {
      hide Concat;
      ConcatNext(s.sent, s.data);
      assert least * (|s.windows| + 1) == least * |s.windows| + least;
    }
  }

  lemma {:induction false} RunPaid(readers: seq<Reader>, steps: seq<Step>, least: nat)
    requires Execute(readers, steps).Some?
    requires forall c :: 0 <= c < |readers| ==> least <= readers[c].taken
    ensures Paid(Execute(readers, steps).value, least)
  {
    if |steps| > 0 {
      RunPaid(readers, steps[..|steps| - 1], least);
      StepPaid(readers, Execute(readers, steps[..|steps| - 1]).value, steps[|steps| - 1], least);
    }
  }

  /** Each successful prediction uses up its own batch: with slices of at least `least` samples,
      `least` times the number of successes never exceeds the samples collected, however many
      readers there are. */
  lemma SuccessesArePaidFor(readers: seq<Reader>, steps: seq<Step>, least: nat)
    requires Execute(readers, steps).Some?
    requires forall c :: 0 <= c < |readers| ==> least <= readers[c].taken
    ensures var s := Execute(readers, steps).value;
            least * |s.windows| <= |s.collected|
  {
    Conservation(readers, steps);
    RunPaid(readers, steps, least);
  }
}
