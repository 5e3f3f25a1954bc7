# AOM: models and proofs

AOM is a predictive autoscaler for Kubernetes. This project models the part of it that decides
something: the Holt-Winters forecaster, the reconciler that keeps five maps in step with a changing
spec, the pipeline from predictions to a replica count, two concurrent protocols, the composite map
keys, and the training windows of the recurrent model. `dafny verify dfyconfig.toml` checks all of it.

## How it is laid out

| module | what it models |
|---|---|
| `Domain`, `Orders`, `Arithmetic`, `Sums` | shared values; visiting orders; facts about remainders; finite sums and the exchange of a double sum |
| `Keys` | the `$`-joined keys and their reading back |
| `HoltWinters`, `HoltWintersLaws` | the smoothing loops, the recurrence they compute, and theorems about whole series |
| `Strategies`, `ScalingLaws`, `TickLaws` | replica counts, maxima, weighting, selection; their laws; the target of a tick end to end |
| `Replicas` | the clamped writer of the replica count, over runs of calls |
| `Grouping`, `Scheduler`, `TickOrders`, `TickMetrics` | sorting received rows by metric; the second half of a tick; when it panics; what it reads of the stored metrics |
| `FanOut` | the goroutines, WaitGroup and buffered channel of a tick, as a state machine |
| `SampleBuffer`, `TickBuffer` | the buffer a scraper fills and predictors drain: methods, a state machine over interleavings, and the calls of one tick |
| `TickRuns` | runs of ticks, from the calls on the buffers to the replica count |
| `Reconciler`, `Handlers`, `Controller` | the handlers on values; the same as methods on a mutable object; `Handle` itself |
| `ReconcilerLaws`, `PredictorLaws` | what each handler does to keys, pointers, workers and predictors |
| `ForgettingLaws` | the collector lifecycle if closed channels were forgotten |
| `Runs`, `RunLaws`, `MetricRuns`, `LifecycleLaws`, `RecoveryLaws` | runs of edits, recreations, reconciles, failures and retries |
| `Windows` | sliding windows, reshape, and the min-max transform |

Code that works by updating variables is a method, proved to compute a specification function; the
theorems are lemmas about that function. Three choices recur:

- Go visits maps in an arbitrary order. Every such loop takes its visiting order as an argument, so a
  statement holds for every order, and a lemma says when the order matters.
- Foreign calls (the API server, Prometheus, constructing a predictor) are choices of a run: they may
  fail at any point. A Go panic is a result, `Panicked` or `Panic`, not a precondition.
- go.mod:3 names Go 1.19, where a `for` statement has one variable for all its passes. A stored
  `&metric` or `&model` is therefore the address of a cell shared by the passes of that loop.

## What the code does that its comments do not say

Each of these is a lemma below, most of them with the exact condition.

- `AddSlice` adds entry `i` of row `i` only, not whole columns. So its result depends on the order in
  which the metric map is visited (`ScalingLaws.DiagonalUnorderedExactlyWhen`), and with one
  Holt-Winters metric of weight 100 the target is the count for the oldest sample of the window: no
  forecast reaches it (`TickLaws.SingleHoltWintersTargetIsOldestSample`).
- It also reads out of range, which ends the process: for two metrics whose rows have one entry, or if no
  metric with a row is stored any more. When a tick can panic is exact
  (`TickOrders.NeverPanicsExactlyWhen`).
- `MaxStrategy` is independent of arrival order exactly for rows of one length. common/basetype/type.go:44
  asks for equal look-forwards, but a Holt-Winters row is as long as the window and the look-forward
  together and a GRU row only as long as the look-forward.
- After the first `handleMetrics`, every metric key reads as the metric visited last
  (`ReconcilerLaws.FirstMetricsAllReadAsOne`), and with two or more lasting keys no later edit or retry
  ever makes the stored metrics right (`MetricRuns.LastingMetricsNeverRight`). When a call
  does leave them right is exact (`ReconcilerLaws.MetricsRightExactlyWhen`): the change loop returns at
  the first unchanged metric, and all it got past read as the one it met last. The first ticks thus use
  one metric's weight and target for all (`TickMetrics.FirstPassSharesWeightAndTarget`).
- `handleCollector`, described as idempotent, closes a channel twice when called again exactly if the
  first call dropped a key (`ReconcilerLaws.CollectorCalledAgain`). Any dropped metric leads to that
  panic at the second edit after it (`RecoveryLaws.DoubleCloseRun`), and if that edit brings the metric
  back with a model, the object is never reconciled again (`RecoveryLaws.ReturnedMetricRun`).
- A failed pass can lose a change for good: which changes it loses is exact, for every pass that does not
  panic (`RunLaws.FailureLosesChange`). Every edit of the attributes of a list's last model has a run that
  loses it to a failed construction (`RecoveryLaws.LostChangeRun`), and one that loses it to a model
  without a metric (`RecoveryLaws.OrphanLosesChangeRun`).
- A creation whose status write fails, and a recreation, leave an extra scheduler loop behind
  (`LifecycleLaws.OneSchedulerExactlyWhen`).
- A Holt-Winters predictor beside a GRU one of the same metric can slice out of range: GRU sends
  unchecked when it is built or trained (`SampleBuffer.AnyReaderCanPanicExactlyWhen`), and two readers
  can drain between each other's check and slice. A GRU predictor alone can too, if its LookForward is
  less than its LookBack: it checks for the one and slices the other
  (`SampleBuffer.ReadersCanPanicExactlyWhen`). One metric has one predictor of each type; an extra
  scheduler loop makes one predictor two readers. Whichever of two readers goes first leaves the other
  nothing, so what a tick predicts depends on the interleaving exactly if the data would do for either
  (`TickBuffer.WindowsFixedExactlyWhen`).

## Model

| member | source | states |
|---|---|---|
| Keys.JoinUndoesSplit | utils/common.go:37-44 | joining undoes splitting at `$`, for every string |
| Keys.SplitUndoesJoin | utils/common.go:37-44 | splitting undoes joining, for every non-empty list of `$`-free pieces |
| Keys.RecoveredExactlyForPlainTypes | utils/common.go:34-44 | the metric part, and the model type, come back from a model key if and only if the type holds no `$`; the metric part may hold any number |
| Keys.ParsedExactlyForPlainNameAndUnit | common/basetype/method.go:5-7 | a metric key reads back as its name, unit and query if and only if name and unit hold no `$` |
| Keys.NoModelKeyInjective | common/basetype/method.go:5-7 | metric keys are injective on (name, unit, query) for `$`-free names and units |
| Keys.KeyClassHasAPlainMetric | common/basetype/method.go:5-7 | every metric with a `$` in its name or unit collides with a different metric |
| HoltWinters.ComputeInitialTrend | algorithms/holt_winter/holt_winter.go:82-88 | the loop computes the average seasonal step, or 0 for a negative season length, and panics at a read past the end exactly when there are not two full seasons |
| HoltWinters.ComputeSeasonAverages | algorithms/holt_winter/holt_winter.go:93-102 | one mean per full season, and no slice out of range |
| HoltWinters.ComputeInitialSeasonals | algorithms/holt_winter/holt_winter.go:90-114 | the table holds each slot's mean deviation from its season means, exactly the slots 0 to slen-1 are written, and the call panics exactly when slen is 0 |
| HoltWinters.Produce | algorithms/holt_winter/holt_winter.go:122-138 | one pass yields output `i` of the recurrence, advances level, trend and table together, and looks only written slots up |
| HoltWinters.TripleExponentialSmoothing | algorithms/holt_winter/holt_winter.go:116-141 | on every input: panics, at the division by slen, the first sample or a read of the trend loop, exactly when slen is 0, there is no sample, or there are not two full seasons; otherwise returns len(series)+lookForward outputs (none if negative), each as the recurrence says |
| HoltWintersLaws.SeasonalsSumToZero | algorithms/holt_winter/holt_winter.go:90-114 | the initial seasonal components sum to exactly 0 |
| HoltWintersLaws.SeasonalIsSlotMeanLessMean | algorithms/holt_winter/holt_winter.go:90-114 | each initial seasonal component is the mean of its slot over all full seasons less the mean of all their samples |
| HoltWintersLaws.InitialTrendIsMeanStep | algorithms/holt_winter/holt_winter.go:82-88 | the initial trend telescopes to (second season mean - first season mean) / slen |
| HoltWintersLaws.ErrorCorrection | algorithms/holt_winter/holt_winter.go:131-136 | for all weights, with e the error of the forecast before it, a step moves the level by trend + alpha·e, the trend by alpha·beta·e and its one seasonal entry by gamma·(1-alpha)·e, and outputs level + trend + entry |
| HoltWintersLaws.ForecastContinues | algorithms/holt_winter/holt_winter.go:127-129 | past the samples the output is the last level, the trend once per step and the entry of the slot |
| HoltWintersLaws.RampReproduced | algorithms/holt_winter/holt_winter.go:82-140 | with season length 1 a ramp c + i·d is followed exactly for all weights: one step ahead within the samples, and on the ramp for ever past them |
| HoltWintersLaws.Superposition | algorithms/holt_winter/holt_winter.go:82-141 | every output of a·x + b·y is a times that of x plus b times that of y, for all weights, through both initialisers and the whole loop |
| HoltWintersLaws.ShiftEquivariance | algorithms/holt_winter/holt_winter.go:82-141 | raising every sample by c raises every output by c |
| HoltWintersLaws.ForecastIsLinePlusPeriodic | algorithms/holt_winter/holt_winter.go:127-129 | past the samples, one period further adds one period of the final trend |
| HoltWintersLaws.PeriodicInitialValues | algorithms/holt_winter/holt_winter.go:82-114 | on periodic input the initial trend is 0 and each seasonal component is its slot's offset from the season mean |
| HoltWintersLaws.PeriodicFixedPoint | algorithms/holt_winter/holt_winter.go:119-137 | a periodic series that starts at its season mean never moves level, trend or seasonals, for all weights |
| HoltWintersLaws.PeriodicReproduced | algorithms/holt_winter/holt_winter.go:119-140 | and its output reproduces the series and continues it for ever |
| HoltWintersLaws.ConstantReproduced | algorithms/holt_winter/holt_winter.go:119-140 | a constant series forecasts itself |
| HoltWintersLaws.LevelsStayInBand | algorithms/holt_winter/holt_winter.go:131-135 | with beta = gamma = 0 and alpha in [0, 1], levels stay within eps of a line if the deseasonalised samples and the start do |
| HoltWintersLaws.ForecastsStayInBand | algorithms/holt_winter/holt_winter.go:127-129 | and every forecast stays within eps of that line plus its seasonal component |
| HoltWintersLaws.PeriodicError | algorithms/holt_winter/holt_winter.go:119-137 | with beta = gamma = 0 the error on periodic input is exactly (1-alpha)^k times the first sample's offset from the mean, k the samples consumed after the first |
| HoltWintersLaws.PeriodicReproducedExactlyWhen | algorithms/holt_winter/holt_winter.go:119-137 | so it is 0 if and only if alpha = 1 or the first sample is the mean |
| Strategies.UnderThreshold | scaler/strategy.go:32-55 | every prediction converted: 0 for a negative one, the least covering count if it fits an int32, and otherwise, a zero target included, what the implementation makes of it, which is a parameter |
| Strategies.Percent | scheduler/scheduler.go:168-169 | the quotient truncated towards zero: less than 100 is lost, and on the side of zero |
| Strategies.Wrap | utils/common.go:45-49 | the int32 congruent to the product modulo 2^32 |
| Strategies.MaxStrategy | scaler/strategy.go:57-68 | column maxima with 0, sized by the first row; panics exactly when a later row is longer |
| Strategies.MulSlice | utils/common.go:45-49 | every entry multiplied in place, wrapping at 32 bits |
| Strategies.AddSlice | utils/common.go:50-56 | the diagonal padded with zeros; panics exactly when there is no row, more rows than columns, or a row too short |
| Strategies.MaxOf | utils/common.go:9-20 | a member of the list that no other exceeds |
| Strategies.Max | utils/common.go:9-20 | the loop finds it; panics exactly on no argument |
| Strategies.ComputeTarget | scheduler/scheduler.go:151-169 | the weighting loop, AddSlice, selection and division by 100 compute the target of a tick, panics included |
| ScalingLaws.ReplicasAreLeast | scaler/strategy.go:32-55 | the count is the least number of replicas whose joint capacity covers the prediction |
| ScalingLaws.ReplicasRoundUp | scaler/strategy.go:39 | for a target of either sign the count is the quotient rounded up |
| ScalingLaws.ConversionCommutesWithMax | scaler/strategy.go:32-68 | the maximum of the converted rows is the conversion of the peak prediction |
| ScalingLaws.ColumnMaxIsMax | scaler/strategy.go:61-66 | a column maximum bounds the column, and is 0 or one of its entries |
| ScalingLaws.MaxUnorderedExactlyForEqualLengths | scaler/strategy.go:57-68 | MaxStrategy is invariant under every reordering of its rows if and only if they have one length |
| ScalingLaws.UnequalLengthsOrdered | scaler/strategy.go:57-68 | rows of different lengths always have a reordering that ends differently |
| ScalingLaws.DiagonalFallsShort | utils/common.go:50-56 | on non-negative rows AddSlice is at most the column sum, with equality if and only if the column is 0 off the diagonal |
| ScalingLaws.SomeOrderInRangeExactlyWhen | utils/common.go:50-56 | some order of the rows is in range for AddSlice if and only if one row is as long as there are rows and, for each lesser length t, fewer than t rows are at most t long |
| ScalingLaws.DiagonalUnorderedExactlyWhen | utils/common.go:50-56 | AddSlice is invariant under every reordering of any int32 rows if and only if their lengths fit in no order, or all have one length, at least their number, and agree on every column with a diagonal entry |
| ScalingLaws.ColumnSumUnordered | scheduler/scheduler.go:153-165 | the column sum, by contrast, never depends on the order |
| ScalingLaws.WeightedColumnIsAverage | common/basetype/type.go:6-7 | with non-negative weights summing to 100 the column sum divided by 100 lies between any bounds on the metrics' counts |
| TickLaws.WeightedEntryExact | utils/common.go:45-49 | no product wraps if each weight times count fits an int32 |
| TickLaws.SmallCountsFit | common/basetype/type.go:6-7 | weights in [0, 100] and counts up to 21474836 always fit |
| TickLaws.TargetOkExactlyWhen | scheduler/scheduler.go:147-167 | weighting, AddSlice and selection end without a panic if and only if there is a metric, every metric's first row is its longest, the first row is as long as there are metrics, and each reaches its own place |
| TickLaws.TargetExact | scheduler/scheduler.go:153-169 | nor anything up to the selection: candidate i is exactly weight times count of metric i in column i |
| TickLaws.TargetMonotone | scheduler/scheduler.go:147-169 | raising counts never lowers the target, for any order of the metrics, as long as each weight times count fits an int32 |
| TickLaws.RaisingPredictionsNeverLowersTarget | scheduler/scheduler.go:98-169 | raising predictions never lowers the target, end to end |
| TickLaws.OneMetricReadsFirstColumn | scheduler/scheduler.go:153-169 | with one row the target depends on its first entry alone |
| TickLaws.SingleHoltWintersTargetIsOldestSample | scheduler/scheduler.go:98-169 | with one Holt-Winters metric of weight 100 the target is the count for the oldest sample, whatever the weights, horizon and later samples |
| Replicas.Scaler.UpTo | scaler/scaler.go:59-78 | the new count, whether the read and the write fail or not, and when the call reports success |
| Replicas.Scaler.DownTo | scaler/scaler.go:79-96 | the same, downwards |
| Replicas.StaysInBounds | scaler/scaler.go:59-96 | any mix of calls and failures keeps a count that starts in [min, max] there |
| Replicas.UpRunEndsAtHighest | scaler/scaler.go:59-78 | a run of UpTo ends exactly at the largest of the start and the capped effective targets |
| Replicas.UpRunUnordered | scaler/scaler.go:59-78 | so its end does not depend on the order of the calls |
| Replicas.DownRunEndsAtLowest | scaler/scaler.go:79-96 | a run of DownTo ends exactly at the least of the start and the raised effective targets |
| Grouping.GroupByMetric | scheduler/scheduler.go:125-144 | one group per metric that occurs, holding its rows in order of arrival |
| Grouping.RowsOfSplit | scheduler/scheduler.go:137-144 | the rows of a metric keep the order of arrival |
| TickRuns.RowsOfAre | scheduler/scheduler.go:137-144 | they are exactly the received rows whose key names the metric |
| Grouping.GroupsPartition | scheduler/scheduler.go:137-144 | the group sizes add up to the number of rows received |
| Grouping.ArrivalOrderIrrelevant | scheduler/scheduler.go:137-150 | a metric's maximum row does not depend on arrival order if its rows have one length |
| Scheduler.Tick | scheduler/scheduler.go:124-171 | without a row nothing happens; otherwise the tick panics, leaving the count, exactly when the rows are out of range for the stored metrics in the order visited, and else the count becomes what UpTo makes of the tick's target |
| Scheduler.TickOkExactlyWhen | scheduler/scheduler.go:147-167 | the target of a tick exists if and only if its rows are in range: a condition on the lengths of the rows and on which metrics are still stored |
| Scheduler.TickTargetExact | scheduler/scheduler.go:153-169 | for any weights whose products fit, the target is a hundredth of the largest candidate, candidate g being the weight of the g-th stored metric visited times its own largest count in column g, and 0 beyond them |
| TickOrders.EveryOrderInRangeExactlyWhen | scheduler/scheduler.go:148-165 | a tick is free of panics in every order of the metrics if and only if some metric is stored, every metric's first row is its longest, and every stored one's is at least as long as there are stored ones |
| TickOrders.NeverPanicsExactlyWhen | scheduler/scheduler.go:137-165 | and in every order of arrival as well if and only if, besides, the rows of each metric have one length |
| Scheduler.TargetIgnoresArrivals | scheduler/scheduler.go:137-169 | the target of a tick does not depend on the order of arrival, under the same condition |
| TickOrders.SomeArrivalInRangeExactlyWhen | scheduler/scheduler.go:137-165 | for an order of the metrics some arrival is in range if and only if the longest rows reach the diagonal |
| TickOrders.TargetUnorderedExactlyWhen | scheduler/scheduler.go:137-169 | the target does not depend on the order of arrival if and only if the rows of each metric have one length, or no arrival is in range |
| TickMetrics.FirstPassSharesWeightAndTarget | scheduler/scheduler.go:75-93 | after the first pass of the reconciler every metric has the weight and the target of the one added last |
| TickMetrics.FirstTickTarget | scheduler/scheduler.go:154-169 | so the target of a tick is a hundredth of the largest product of that one weight with a count on the diagonal |
| FanOut.RunKeepsInv | scheduler/scheduler.go:61-144 | in every interleaving: no panic, the WaitGroup counts the active goroutines, the channel holds exactly the sent rows once each |
| FanOut.NoSendBlocksOrFollowsClose | scheduler/scheduler.go:65-127 | a goroutine ready to send always finds the channel open with room |
| FanOut.NeverStuck | scheduler/scheduler.go:61-144 | every state before the end has a next step, so Wait cannot wait for ever |
| FanOut.RunsAreBounded | scheduler/scheduler.go:61-144 | no tick takes more than five steps per predictor and four more |
| FanOut.OverReceivedExactlyTheSuccesses | scheduler/scheduler.go:103-144 | at the end every predictor was skipped or has finished, and the rows received are those of the entries finished with a row, once each |
| FanOut.OverReceivedWhatSucceeded | scheduler/scheduler.go:84-144 | at the end a row has been received from an entry if and only if a step of the run succeeded with that row for it; no entry succeeds twice, and one that failed or was skipped delivers nothing |
| FanOut.ReceivedInOrder | scheduler/scheduler.go:65-144 | in every run the rows received and then those buffered are in the order of the sends |
| TickRuns.MetricRowsAre | scheduler/scheduler.go:82-144 | the rows grouped under a metric are exactly those with which a predictor of that metric succeeded |
| TickRuns.RunTicks | scheduler/scheduler.go:60-172 | the loop over ticks: it ends without a panic if and only if every tick has no row or rows in range, and then the count is what the ticks' calls of UpTo make of it |
| TickRuns.SameOutcomesSameRows | scheduler/scheduler.go:82-137 | two interleavings in which every predictor fares the same deliver the same rows, in some order |
| TickRuns.InterleavingsEndTheSame | scheduler/scheduler.go:60-172 | a run of ticks ends at the highest of the start and the capped targets of the ticks whose call goes through; as long as every predictor fares the same, and rows of one metric have one length, no interleaving of the goroutines changes it |
| TickBuffer.OneReaderWins | algorithms/holt_winter/holt_winter.go:36-41 | if the data at hand suffice for at most one reader of a buffer, that one gets the newest of them in every interleaving of the calls, and the others nothing |
| TickBuffer.WindowsFixedExactlyWhen | algorithms/holt_winter/holt_winter.go:36-41 | what the calls of a tick get from a shared buffer does not depend on their interleaving if and only if the data suffice for at most one reader |
| TickRuns.LoneReadersEndTheSame | scheduler/scheduler.go:60-172 | so if no buffer ever has enough for two of its readers, every interleaving, of the calls and of the sends, ends at the same count |
| SampleBuffer.Worker.Collect | collector/prometheus_collector/prometheus_collector.go:83-97 | appends the batch in order; a failed query changes nothing |
| SampleBuffer.Worker.Send | collector/prometheus_collector/prometheus_collector.go:98-103 | hands everything over and empties the buffer |
| SampleBuffer.Predict | algorithms/holt_winter/holt_winter.go:36-68 | the whole call: too little data leaves the buffer, anything else empties it; the forecast is of the newest lookBackward samples |
| SampleBuffer.PredictionSeesNewest | algorithms/holt_winter/holt_winter.go:37-67 | older samples change nothing; the start metric is the last sample, and the forecast is the smoothing of exactly the newest lookBackward samples |
| SampleBuffer.PredictionNeedsData | algorithms/holt_winter/holt_winter.go:37-39 | it reports too little data exactly when fewer than lookBackward samples are buffered |
| SampleBuffer.PredictIsCheckThenDrain | algorithms/holt_winter/holt_winter.go:37-41 | the call is a check and a drain of the protocol with nothing between: it answers from the window that the two take |
| SampleBuffer.StartWorker | controllers/aom_controller.go:111-145 | collects at every tick up to the first that stops it and at none after |
| SampleBuffer.ScrapedInOrder | controllers/aom_controller.go:120-144 | what is scraped is the batches of the ticks in order |
| SampleBuffer.ScrapedOnce | controllers/aom_controller.go:138-142 | each batch once, and nothing for a failed query |
| SampleBuffer.Conservation | collector/prometheus_collector/prometheus_collector.go:83-109 | in every interleaving the samples collected are the sent batches in order followed by the buffer |
| SampleBuffer.WindowIsNewest | algorithms/holt_winter/holt_winter.go:40-41 | a successful drain takes the newest samples of all collected so far |
| SampleBuffer.BufferIsSinceSend | collector/prometheus_collector/prometheus_collector.go:83-103 | the buffer is exactly what arrived after the last Send of the run |
| SampleBuffer.OutOfRangeExactlyWhen | algorithms/holt_winter/holt_winter.go:37-41 | a drain is out of range if and only if fewer samples arrived since the last Send than it takes; if it asked for as many as it takes, that Send came after its check |
| SampleBuffer.OneConsumerNeverOutOfRange | algorithms/holt_winter/holt_winter.go:37-41 | with one reader that asks for what it takes, and no other Send, no run is out of range |
| SampleBuffer.ReadersCanPanicExactlyWhen | predictor/GRU/gru.go:110-116 | readers of one buffer have a run out of range by their own calls if and only if one takes more than it asks for, or there are two or more and one takes anything |
| SampleBuffer.AnyReaderCanPanicExactlyWhen | predictor/GRU/gru.go:83-86 | with the unchecked Send of building or training a GRU model as well, if and only if some reader takes anything |
| SampleBuffer.SuccessesArePaidFor | algorithms/holt_winter/holt_winter.go:37-41 | successful predictions times the least window never exceed the samples collected, for any number of consumers |
| Handlers.Hide.HandleMetrics | controllers/aom_controller.go:436-473 | the add, delete and change loops on the shared map, with loop-variable pointers and the early return, for every visiting order |
| Handlers.Hide.HandleModels | controllers/aom_controller.go:475-514 | the store-or-change and delete loops, the change map, and the error that leaves earlier stores in place |
| Handlers.Hide.HandleCollector | controllers/aom_controller.go:259-317 | closes dropped channels, starts workers for new keys; panics exactly when a dropped channel is closed already |
| Handlers.Hide.HandlePredictor | controllers/aom_controller.go:324-434 | the missing, dropped and changed predictors, and how far building gets when a look-up or construction fails |
| Handlers.DeleteOthers | controllers/aom_controller.go:448-458 | the delete loop of the metric, model and predictor maps leaves exactly the stored keys that the spec has, with their values |
| Handlers.Hide.constructor | common/aomtype/type.go:13-30 | empty maps |
| Reconciler.KeptMetricKeys | controllers/aom_controller.go:442-458 | after adding and deleting the metric map has exactly the spec's keys; new keys share one address |
| Reconciler.CloseDroppedValid | controllers/aom_controller.go:275-292 | stopping dropped workers keeps registered workers and open channels in step |
| ReconcilerLaws.FirstMetricsAllReadAsOne | controllers/aom_controller.go:442-471 | after the first handleMetrics all keys read as the metric the add loop visited last |
| ReconcilerLaws.MetricsRightExactlyWhen | controllers/aom_controller.go:442-471 | after any handleMetrics the stored metrics are all right if and only if there is at most one, or every stored key read right before the call and the only new key is that of the metric the add loop visits last |
| ReconcilerLaws.FirstMetricsRightExactlyForOne | controllers/aom_controller.go:442-471 | so after the first call if and only if there is at most one |
| ReconcilerLaws.EditedMetricsComeOutWrong | controllers/aom_controller.go:459-471 | with its key stored and a second metric beside it, an edited metric never comes out right together with the others |
| MetricRuns.LastingMetricsNeverRight | controllers/aom_controller.go:436-473 | in every run whose specs keep the same two or more metric keys, some key reads as another key's metric from the first pass on, so whenever a generation is recorded, whatever is edited or retried |
| ReconcilerLaws.HandleModelsKeys | controllers/aom_controller.go:484-512 | handleModels succeeds if and only if every model's metric is in the spec; then the map has exactly the spec's model keys |
| ReconcilerLaws.StopsAtOrphan | controllers/aom_controller.go:484-488 | stopped at a model without a metric, handleModels has stored exactly the models of the ids visited before |
| PredictorLaws.FailedModelsDeleteNothing | controllers/aom_controller.go:484-512 | stopped there, it deletes nothing: every stored key stays, and the key of no visited id keeps its address and reading |
| ReconcilerLaws.HandleCollectorKeys | controllers/aom_controller.go:259-305 | who has a channel and who has a worker afterwards; running workers are untouched, a key with a channel and no worker stays so |
| ReconcilerLaws.CollectorCalledAgain | controllers/aom_controller.go:259-305 | a second call for the same spec closes twice if and only if the first dropped a key; otherwise it changes nothing |
| ForgettingLaws.ForgettingKeepsKeysEqual | controllers/aom_controller.go:287-305 | if the step also removed the closed channel's key, channels, workers and spec keys would be equal after any drop or return, with no second close |
| ForgettingLaws.ForgettingKeepsOneOpen | controllers/aom_controller.go:287-305 | and each goroutine still running would be the one its key's channel stops |
| ForgettingLaws.ForgettingIdempotent | controllers/aom_controller.go:259-305 | and a second call for the same spec would change nothing |
| ForgettingLaws.ForgettingLifecycle | controllers/aom_controller.go:259-305 | over runs of such calls for any specs: no second close, exactly one running goroutine per key of the last spec, idempotence |
| PredictorLaws.BuildAllSucceedsExactlyWhen | controllers/aom_controller.go:387-431 | building gets through if and only if every worker is registered and every construction succeeds |
| PredictorLaws.BuildAllReached | controllers/aom_controller.go:387-431 | building builds exactly the jobs before the first without a worker or a construction |
| PredictorLaws.MissingBeforeChanged | controllers/aom_controller.go:387-431 | missing predictors are built before changed ones: once a stored predictor has been replaced, every model of the spec has one, however the call ends |
| PredictorLaws.BuildAllWired | controllers/aom_controller.go:387-431 | however far it gets, each predictor reads its own metric's worker |
| PredictorLaws.HandlePredictorKeys | controllers/aom_controller.go:324-434 | on success the predictors are exactly those of the spec's models |
| PredictorLaws.HandleModelsDone | controllers/aom_controller.go:484-505 | with distinct keys, a change is recorded exactly for a stored model that does not read as the spec's, despite the shared addresses |
| PredictorLaws.FreshExactlyWhenNoChangeMissed | controllers/aom_controller.go:387-431 | a successful handlePredictor leaves a predictor stale if and only if it existed with other attributes and no change was recorded |
| Controller.Handler.constructor | controllers/aom_controller.go:147-158 | the first state of a run |
| Controller.Handler.RunHandlers | controllers/aom_controller.go:195-253 | the four handlers in order, stopping at the first failure with the maps as they are |
| Controller.Handler.Handle | controllers/aom_controller.go:160-193 | the generation gate, creation or update, and the status write: exactly the step the run theorems are about |
| RunLaws.ReferentialClosure | controllers/aom_controller.go:195-210 | in every run, with failures, retries, edits and recreations, whenever the recorded generation is current, and so after every reconcile that succeeds, the maps have exactly the spec's keys and all scheduler look-ups succeed |
| RunLaws.RecordedExactlyWhen | controllers/aom_controller.go:160-193 | a recorded object is left alone; any other is recorded if and only if the client, the address for a creation, the handlers and the status write go through, and the handlers run exactly if the first two do |
| RunLaws.FreshExactlyWhen | controllers/aom_controller.go:414-513 | after a successful pass a predictor is fresh if and only if, before it, its stored model did not hide the change |
| RunLaws.PredictorFreshness | controllers/aom_controller.go:414-513 | in a run whose reconciles all succeed every predictor was built from the current attributes, with the loop-variable pointers as they are |
| RunLaws.AfterPass | controllers/aom_controller.go:484-505 | which entries any pass that does not panic, stopped at an orphan or not, leaves with a stale predictor behind a stored model that reads as the wanted one: exactly those whose change it loses |
| RunLaws.FailureLosesChange | controllers/aom_controller.go:185-191 | after any pass that does not panic, a later pass that succeeds, for the same spec or any later one, leaves a predictor fresh if and only if the first did not lose its change: built from other attributes, not reached by the building, and with the stored model already reading as the later spec's |
| RunLaws.UnlistedAfterPass | controllers/aom_controller.go:484-512 | a key that the spec of the pass does not list is gone afterwards if the pass got past the models, and is as it was if it stopped at an orphan |
| RunLaws.FailureLosesUnlisted | controllers/aom_controller.go:484-512 | so the change of such a key, once a later spec lists it, is lost if and only if the pass stopped at an orphan, the predictor has other attributes, and the stored model, if any, reads as the later one |
| LifecycleLaws.PanicsExactlyWhen | controllers/aom_controller.go:287-292 | a reconcile panics if and only if it reaches handleCollector with a dropped key whose worker is already gone |
| LifecycleLaws.CollectorLifecycle | controllers/aom_controller.go:259-305 | in runs that drop no key: no panic, channels and workers coincide, one goroutine ever started per key, and current means equal to the spec's keys |
| LifecycleLaws.DroppedIsStranded | controllers/aom_controller.go:268-292 | dropping a key leaves it with a channel and no worker |
| LifecycleLaws.StrandedPass | controllers/aom_controller.go:387-394 | no pass over such a metric with a model succeeds, and each leaves it so |
| LifecycleLaws.ReturnedMetricNeverReconciles | controllers/aom_controller.go:268-394 | so however often it is retried the recorded generation stays behind |
| LifecycleLaws.SchedulersCounted | controllers/aom_controller.go:185-253 | a run has started one scheduler loop per event that leaves one behind (a creation that fails to record its generation, a recreation of a recorded object), and one more while a creation is recorded |
| LifecycleLaws.OneSchedulerExactlyWhen | controllers/aom_controller.go:185-253 | so a recorded object has one loop if and only if no event of the run left one |
| RecoveryLaws.RecoverableExactlyWhen | controllers/aom_controller.go:195-210 | some pass through the handlers succeeds if and only if every model's metric is in the spec, no dropped channel is closed already, and no metric with a model was dropped before |
| RecoveryLaws.LostChangeRun | controllers/aom_controller.go:185-191 | for every such edit a run from creation exists: one failed pass, one successful retry, the generation recorded as current, the predictor still of the old attributes |
| RecoveryLaws.OrphanLosesChangeRun | controllers/aom_controller.go:484-488 | a run from creation loses such an edit without any failed construction: edit it together with a model that has no metric, fail, take the orphan away, succeed |
| RecoveryLaws.DoubleCloseRun | controllers/aom_controller.go:287-292 | for every spec and every next one that drops a metric: create, edit, reconcile, edit again, and every reconcile that gets a client panics on a second close |
| RecoveryLaws.ReturnedMetricRun | controllers/aom_controller.go:268-394 | and if the second edit brings the metric back with a model, the recorded generation stays behind for any number of retries |
| Windows.ReshapeUndoesFlatten | algorithms/DL/data_preparation.py:47-61 | cutting a flat array into rows undoes appending them, for any rows of one width |
| Windows.SlidingExamples | algorithms/DL/data_preparation.py:42-61 | n - look_back - look_forward + 1 inputs and as many labels, none for shorter data; input i is look_back samples from i on, label i the look_forward right after |
| Windows.TrainDataPrepare | algorithms/DL/data_preparation.py:32-61 | the same of the normalised samples |
| Windows.NormalizeKeepsOrder | algorithms/DL/data_preparation.py:76-78 | normalising lands in [0, 1] and keeps every comparison |
| Windows.DenormalizeUndoesNormalize | algorithms/DL/data_preparation.py:76-82 | denormalising undoes it, for any data not all equal |
| Windows.DenormalizeAnywhere | algorithms/DL/data_preparation.py:79-82 | denormalising returns any value from its place on the scale of the data, inside their range or not |
| Windows.StretchDenormalizes | algorithms/DL/data_preparation.py:36-82 | so inputs and labels denormalise to the original samples of their stretch |

## Left out

- HoltWinters.TripleExponentialSmoothing: floats are `real`, so rounding, NaN and infinity are not modelled.
- Replicas.UpRunEndsAtHighest: assumes this scaler is the only writer of the count, and a start not above the maximum.
- SampleBuffer.Conservation: each call is one atomic step; the source guards the buffer with no lock, so a data race inside a call is not modelled.
- SampleBuffer.StartWorker: over the finite list of its ticks; the clock that produces them is not modelled, nor the panic when a query answers something other than a vector.
- FanOut.RunKeepsInv: a predictor returns a row or an error; one that panics ends the whole process and no state follows.
- Windows.DenormalizeUndoesNormalize: data that are all equal count as a failure; numpy yields NaN there.
- RunLaws.ReferentialClosure: for model types without `$`, as every type the source knows is.
- ForgettingLaws.ForgettingLifecycle: is about a changed step, not the source's; the source's step is `Reconciler.CloseDropped`.
- SampleBuffer.ReadersCanPanicExactlyWhen: a window of negative length is covered by `SampleBuffer.Predict` only.
- TickBuffer.WindowsFixedExactlyWhen: for readers that ask for at least one sample, while nothing is collected; an interleaving that slices out of range has no outcome to compare.
- TickRuns.LoneReadersEndTheSame: what a model makes of a window is a function of it.
- Kubernetes and Prometheus clients, and the manager's requeueing: foreign calls that may fail, and arbitrary batches.
- The GRU predictor, its sockets and subprocesses, and network training: a predictor that returns a row or fails; its unchecked Send is the `Take` step of `SampleBuffer`; what training then slices is not modelled.
- Training in the tick and its interval gate: `TrainHistory` is never written.
- `Steady`, `MinStrategy`, `MeanStrategy` and `Min`: not used by the pipeline, and no harder than what is there.
- `AddCustomMetrics` and `CreateWorker`: the second cannot fail right after the first, so no failure branch is modelled.
- Parsing of attributes and of the target string: a predictor construction that may fail, and a number.
- The scaler's bounds are those of its construction: the source does not update them on an edit either.
- The list of collectors shown in the status, logging, plotting, and the empty `handleDelete`.
- Deep equality that tells a nil attribute map from an empty one.
- A restart of the process with a recorded generation: the maps live as long as the run.
