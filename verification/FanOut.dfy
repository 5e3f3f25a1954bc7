/** One scheduler tick's fan-out (scheduler/scheduler.go:61-144): a goroutine per predictor, a
    WaitGroup, a buffered channel that is closed and drained. The protocol is a state machine
    over atomic steps; the theorems are about every legal interleaving. */
module FanOut {
  import opened Domain

  /** A predictor is named by its position among the entries of PredictorMap. */
  datatype Delivery = Delivery(entry: nat, row: seq<int>)

  /** Where one entry is: not reached by the spawning loop, skipped by it, or at some point of
      its goroutine. `Finished` is after the deferred Done. */
  datatype Phase =
    | Unvisited
    | Skipped
    | Predicting
    | Sending(row: seq<int>)
    | Sent(row: seq<int>)
    | Finished(result: Option<seq<int>>)

  /** Where the scheduler itself is. */
  datatype Main = Spawning | Waiting | Closing | Draining | Over

  datatype State = State(
    phases: seq<Phase>,
    main: Main,
    waitGroup: int,
    capacity: nat,
    buffer: seq<Delivery>,
    closed: bool,
    received: seq<Delivery>,
    panicked: bool)

  datatype Step =
    | Skip(entry: nat)                 // no model or no metric for the entry
    | Spawn(entry: nat)                // waitGroup.Add(1) and go
    | EndOfLoop
    | Fail(entry: nat)                 // Predict or the conversion returns an error
    | Succeed(entry: nat, row: seq<int>)
    | Send(entry: nat)
    | Done(entry: nat)
    | WaitReturns
    | Close
    | Receive
    | Stop

  /** The step moves one entry along. */
  predicate OfGoroutine(step: Step) {
    step.Skip? || step.Spawn? || step.Fail? || step.Succeed? || step.Send? || step.Done?
  }

  function Init(entries: nat): State {
    State(seq(entries, _ => Unvisited), Spawning, 0, entries, [], false, [], false)
  }

  ghost predicate At(s: State, i: nat, p: Phase) {
    i < |s.phases| && s.phases[i] == p
  }

  /** A step can be taken. A send waits while the channel is full and open. */
  ghost predicate Enabled(s: State, step: Step) {
    !s.panicked &&
    match step
    case Skip(i) => s.main.Spawning? && At(s, i, Unvisited)
    case Spawn(i) => s.main.Spawning? && At(s, i, Unvisited)
    case EndOfLoop => s.main.Spawning? && forall i :: 0 <= i < |s.phases| ==> !s.phases[i].Unvisited?
    case Fail(i) => At(s, i, Predicting)
    case Succeed(i, _) => At(s, i, Predicting)
    case Send(i) => i < |s.phases| && s.phases[i].Sending? && (s.closed || |s.buffer| < s.capacity)
    case Done(i) => i < |s.phases| && s.phases[i].Sent?
    case WaitReturns => s.main.Waiting? && s.waitGroup == 0
    case Close => s.main.Closing?
    case Receive => s.main.Draining? && |s.buffer| > 0
    case Stop => s.main.Draining? && |s.buffer| == 0 && s.closed
  }

  /** The effect of a step; sending on or closing a closed channel, and a negative WaitGroup,
      panic. */
  ghost function Apply(s: State, step: Step): State
    requires Enabled(s, step)
  {
    match step
    case Skip(i) => s.(phases := s.phases[i := Skipped])
    case Spawn(i) => s.(phases := s.phases[i := Predicting], waitGroup := s.waitGroup + 1)
    case EndOfLoop => s.(main := Waiting)
    case Fail(i) => CallDone(s.(phases := s.phases[i := Finished(None)]))
    case Succeed(i, row) => s.(phases := s.phases[i := Sending(row)])
    case Send(i) =>
      var row := s.phases[i].row;
      if s.closed then s.(panicked := true)
      else s.(phases := s.phases[i := Sent(row)], buffer := s.buffer + [Delivery(i, row)])
    case Done(i) => CallDone(s.(phases := s.phases[i := Finished(Some(s.phases[i].row))]))
    case WaitReturns => s.(main := Closing)
    case Close => if s.closed then s.(panicked := true) else s.(main := Draining, closed := true)
    case Receive => s.(buffer := s.buffer[1..], received := s.received + [s.buffer[0]])
    case Stop => s.(main := Over)
  }

  ghost function CallDone(s: State): State {
    if s.waitGroup <= 0 then s.(panicked := true) else s.(waitGroup := s.waitGroup - 1)
  }

  /** Where a sequence of steps leads from a fresh tick over `entries` predictors, if every
      step can be taken in turn. */
  ghost function Execute(entries: nat, steps: seq<Step>): Option<State> {
    if |steps| == 0 then Some(Init(entries))
    else match Execute(entries, steps[..|steps| - 1])
      case Some(before) =>
        if Enabled(before, steps[|steps| - 1]) then Some(Apply(before, steps[|steps| - 1])) else None
      case None => None
  }

  ghost predicate Reaches(entries: nat, steps: seq<Step>, s: State) {
    Execute(entries, steps) == Some(s)
  }

  // ---------------------------------------------------------------- tallies

  function Tally(phases: seq<Phase>, weight: Phase -> nat): nat {
    if |phases| == 0 then 0
    else Tally(phases[..|phases| - 1], weight) + weight(phases[|phases| - 1])
  }

  lemma {:induction false} TallyUpdate(phases: seq<Phase>, weight: Phase -> nat, i: nat, p: Phase)
    requires i < |phases|
    ensures Tally(phases[i := p], weight) + weight(phases[i]) == Tally(phases, weight) + weight(p)
  {
    var n := |phases| - 1;
    if i < n {
      TallyUpdate(phases[..n], weight, i, p);
      assert phases[i := p][..n] == phases[..n][i := p];
    } else {
      assert phases[i := p][..n] == phases[..n];
    }
  }

  lemma {:induction false} TallyZero(phases: seq<Phase>, weight: Phase -> nat)
    ensures Tally(phases, weight) == 0 <==> forall i :: 0 <= i < |phases| ==> weight(phases[i]) == 0
  {
    if |phases| > 0 {
      TallyZero(phases[..|phases| - 1], weight);
    }
  }

  lemma {:induction false} TallyBound(phases: seq<Phase>, weight: Phase -> nat, most: nat)
    requires forall p :: weight(p) <= most
    ensures Tally(phases, weight) <= most * |phases|
  {
    if |phases| > 0 {
      TallyBound(phases[..|phases| - 1], weight, most);
    }
  }

  /** A started goroutine that has not called Done. */
  predicate Active(p: Phase) {
    p.Predicting? || p.Sending? || p.Sent?
  }

  function ActiveWeight(p: Phase): nat {
    if Active(p) then 1 else 0
  }

  // ---------------------------------------------------------------- safety

  /** Everything sent, in order: what the scheduler has received, then what is buffered. */
  function Log(s: State): seq<Delivery> {
    s.received + s.buffer
  }

  /** The row entry `i` has sent, if any. */
  function SentRow(p: Phase): Option<seq<int>> {
    match p
    case Sent(row) => Some(row)
    case Finished(result) => result
    case _ => None
  }

  /** The log holds exactly the sent rows, once each. */
  ghost predicate LogExact(s: State) {
    && (forall d :: d in Log(s) ==> d.entry < |s.phases| && SentRow(s.phases[d.entry]) == Some(d.row))
    && (forall i :: 0 <= i < |s.phases| && SentRow(s.phases[i]).Some?
          ==> Delivery(i, SentRow(s.phases[i]).value) in Log(s))
    && (forall j, k :: 0 <= j < k < |Log(s)| ==> Log(s)[j].entry != Log(s)[k].entry)
  }

  ghost predicate Inv(s: State) {
    && !s.panicked
    && s.capacity == |s.phases|
    && s.waitGroup == Tally(s.phases, ActiveWeight)
    && (s.closed <==> s.main.Draining? || s.main.Over?)
    && (s.main.Spawning? || forall i :: 0 <= i < |s.phases| ==> !s.phases[i].Unvisited?)
    && (s.main.Closing? || s.main.Draining? || s.main.Over? ==> s.waitGroup == 0)
    && (s.main.Over? ==> s.buffer == [])
    && LogExact(s)
  }

  lemma InitInv(entries: nat)
    ensures Inv(Init(entries))
  {
    TallyZero(Init(entries).phases, ActiveWeight);
  }

  lemma ActiveMeansNotWaitedFor(s: State, i: nat)
    requires Inv(s) && i < |s.phases| && Active(s.phases[i])
    ensures s.waitGroup > 0 && !s.closed && !s.main.Closing?
  {
    TallyZero(s.phases, ActiveWeight);
  }

  /** Replacing a phase without touching the channel keeps the log exact if the sent row stays. */
  lemma LogKept(s: State, s': State, i: nat, p: Phase)
    requires LogExact(s) && i < |s.phases| && s'.phases == s.phases[i := p]
    requires SentRow(p) == SentRow(s.phases[i]) && Log(s') == Log(s)
    ensures LogExact(s')
  {
  }

  lemma SendKeepsLog(s: State, i: nat)
    requires Inv(s) && Enabled(s, Send(i))
    ensures LogExact(Apply(s, Send(i)))
  {
    ActiveMeansNotWaitedFor(s, i);
    var s' := Apply(s, Send(i));
    assert Log(s') == Log(s) + [Delivery(i, s.phases[i].row)];
    forall k | 0 <= k < |s'.phases| && SentRow(s'.phases[k]).Some?
      ensures Delivery(k, SentRow(s'.phases[k]).value) in Log(s')
    {
      if k != i {
        assert Delivery(k, SentRow(s.phases[k]).value) in Log(s);
      }
    }
    forall j | 0 <= j < |Log(s)| ensures Log(s)[j].entry != i {
      assert Log(s)[j] in Log(s);
    }
  }

  lemma GoroutineStepKeepsInv(s: State, step: Step)
    requires Inv(s) && Enabled(s, step)
    requires OfGoroutine(step)
    ensures Inv(Apply(s, step)) && |Apply(s, step).phases| == |s.phases|
  {
    var i := step.entry;
    var s' := Apply(s, step);
    if Active(s.phases[i]) {
      ActiveMeansNotWaitedFor(s, i);
    }
    TallyUpdate(s.phases, ActiveWeight, i, s'.phases[i]);
    if step.Send? {
      SendKeepsLog(s, i);
    } else {
      LogKept(s, s', i, s'.phases[i]);
    }
  }

  lemma MainStepKeepsInv(s: State, step: Step)
    requires Inv(s) && Enabled(s, step)
    requires !OfGoroutine(step)
    ensures Inv(Apply(s, step)) && |Apply(s, step).phases| == |s.phases|
  {
    if step.Receive? {
      assert Log(Apply(s, step)) == Log(s);
    }
  }

  /** The invariant holds after every legal run. */
  lemma {:induction false} RunKeepsInv(entries: nat, steps: seq<Step>, s: State)
    requires Reaches(entries, steps, s)
    ensures Inv(s) && |s.phases| == entries
  {
    hide Inv, Apply, Enabled;
    if |steps| == 0 {
      InitInv(entries);
    } else {
      var n := |steps| - 1;
      var before := Execute(entries, steps[..n]).value;
      RunKeepsInv(entries, steps[..n], before);
      if OfGoroutine(steps[n]) {
        GoroutineStepKeepsInv(before, steps[n]);
      } else {
        MainStepKeepsInv(before, steps[n]);
      }
    }
  }

  /** Deliveries from distinct entries that leave out entry `i` are fewer than the entries. */
  lemma {:induction false} DistinctEntries(log: seq<Delivery>, entries: nat) returns (used: set<int>)
    requires forall d :: d in log ==> d.entry < entries
    requires forall j, k :: 0 <= j < k < |log| ==> log[j].entry != log[k].entry
    ensures |used| == |log| && forall e :: e in used <==> exists j :: 0 <= j < |log| && log[j].entry == e
  {
    used := {};
    if |log| > 0 {
      var n := |log| - 1;
      used := DistinctEntries(log[..n], entries);
      assert log[n].entry !in used;
      used := used + {log[n].entry};
      forall e ensures e in used <==> exists j :: 0 <= j < |log| && log[j].entry == e {
        if e in used && e != log[n].entry {
          var j :| 0 <= j < n && log[..n][j].entry == e;
          assert log[j].entry == e;
        }
        if j :| 0 <= j < |log| && log[j].entry == e {
          assert j < n ==> log[..n][j].entry == e;
        }
      }
    }
  }

  lemma {:induction false} BoundedSet(used: set<int>, n: nat)
    requires forall e :: e in used ==> 0 <= e < n
    ensures |used| <= n
  {
    if n > 0 {
      BoundedSet(used - {n - 1}, n - 1);
    } else {
      assert forall e :: e !in used;
    }
  }

  /** In every interleaving a goroutine that is ready to send finds the channel open with room:
      no send blocks, and none follows the close. */
  lemma NoSendBlocksOrFollowsClose(entries: nat, steps: seq<Step>, s: State, i: nat)
    requires Reaches(entries, steps, s) && i < |s.phases| && s.phases[i].Sending?
    ensures !s.closed && |s.buffer| < s.capacity && Enabled(s, Send(i))
  {
    RunKeepsInv(entries, steps, s);
    ActiveMeansNotWaitedFor(s, i);
    var used := DistinctEntries(Log(s), entries);
    forall j | 0 <= j < |Log(s)| ensures Log(s)[j].entry != i {
      assert Log(s)[j] in Log(s);
    }
    forall e | e in used + {i} ensures 0 <= e < entries {
      if e != i {
        var j :| 0 <= j < |Log(s)| && Log(s)[j].entry == e;
        assert Log(s)[j] in Log(s);
      }
    }
    BoundedSet(used + {i}, entries);
  }

  // ---------------------------------------------------------------- progress and termination

  lemma {:induction false} SomeActive(phases: seq<Phase>) returns (i: nat)
    requires Tally(phases, ActiveWeight) > 0
    ensures i < |phases| && Active(phases[i])
  {
    var n := |phases| - 1;
    if Active(phases[n]) {
      i := n;
    } else {
      i := SomeActive(phases[..n]);
    }
  }

  /** No reachable state is stuck before the tick is over: while any goroutine is active it has
      a step of its own (its predictor returns, or it sends, or it calls Done), so Wait cannot
      wait for ever. */
  lemma NeverStuck(entries: nat, steps: seq<Step>, s: State) returns (step: Step)
    requires Reaches(entries, steps, s) && !s.main.Over?
    ensures Enabled(s, step)
  {
    RunKeepsInv(entries, steps, s);
    match s.main
    case Spawning =>
      if i :| 0 <= i < |s.phases| && s.phases[i].Unvisited? {
        step := Spawn(i);
      } else {
        step := EndOfLoop;
      }
    case Waiting =>
      if s.waitGroup == 0 {
        step := WaitReturns;
      } else {
        var i := SomeActive(s.phases);
        if s.phases[i].Sending? {
          NoSendBlocksOrFollowsClose(entries, steps, s, i);
          step := Send(i);
        } else {
          step := if s.phases[i].Predicting? then Fail(i) else Done(i);
        }
      }
    case Closing =>
      step := Close;
    case Draining =>
      step := if |s.buffer| > 0 then Receive else Stop;
  }

  /** How many more steps an entry can cause, the receipt of its row included. */
  function StepsLeft(p: Phase): nat {
    match p
    case Unvisited => 5
    case Predicting => 4
    case Sending(_) => 3
    case Sent(_) => 1
    case _ => 0
  }

  function MainStepsLeft(m: Main): nat {
    match m
    case Spawning => 4
    case Waiting => 3
    case Closing => 2
    case Draining => 1
    case Over => 0
  }

  function Remaining(s: State): nat {
    Tally(s.phases, StepsLeft) + |s.buffer| + MainStepsLeft(s.main)
  }

  lemma GoroutineStepShortens(s: State, step: Step)
    requires Inv(s) && Enabled(s, step) && OfGoroutine(step)
    ensures Remaining(Apply(s, step)) < Remaining(s)
  {
    var i := step.entry;
    if step.Send? {
      ActiveMeansNotWaitedFor(s, i);
    }
    TallyUpdate(s.phases, StepsLeft, i, Apply(s, step).phases[i]);
  }

  lemma MainStepShortens(s: State, step: Step)
    requires Inv(s) && Enabled(s, step) && !OfGoroutine(step)
    ensures Remaining(Apply(s, step)) < Remaining(s)
  {
  }

  /** Every run is finite: no tick takes more than five steps per predictor and four more. */
  lemma {:induction false} RunsAreBounded(entries: nat, steps: seq<Step>, s: State)
    requires Reaches(entries, steps, s)
    ensures |steps| + Remaining(s) <= 5 * entries + 4
  {
    hide Inv, Apply, Enabled;
    if |steps| == 0 {
      TallyBound(Init(entries).phases, StepsLeft, 5);
    } else {
      var n := |steps| - 1;
      var before := Execute(entries, steps[..n]).value;
      RunsAreBounded(entries, steps[..n], before);
      RunKeepsInv(entries, steps[..n], before);
      if OfGoroutine(steps[n]) {
        GoroutineStepShortens(before, steps[n]);
      } else {
        MainStepShortens(before, steps[n]);
      }
    }
  }

  // ---------------------------------------------------------------- the result

  /** When the tick is over, every predictor was skipped or has finished, and the scheduler has
      received exactly the rows of the ones that succeeded, once each. */
  lemma OverReceivedExactlyTheSuccesses(entries: nat, steps: seq<Step>, s: State)
    requires Reaches(entries, steps, s) && s.main.Over?
    ensures |s.phases| == entries
    ensures forall i :: 0 <= i < entries ==> s.phases[i].Skipped? || s.phases[i].Finished?
    ensures forall i: nat, row :: i < entries ==>
              (Delivery(i, row) in s.received <==> s.phases[i] == Finished(Some(row)))
    ensures forall d :: d in s.received ==> d.entry < entries
    ensures forall j, k :: 0 <= j < k < |s.received| ==> s.received[j].entry != s.received[k].entry
  {
    RunKeepsInv(entries, steps, s);
    TallyZero(s.phases, ActiveWeight);
    assert Log(s) == s.received;
    forall i | 0 <= i < entries ensures s.phases[i].Skipped? || s.phases[i].Finished? {
      assert ActiveWeight(s.phases[i]) == 0;
    }
  }

  // ---------------------------------------------------------------- what the steps deliver

  /** The row a phase carries on from a success. */
  function CarriedRow(p: Phase): Option<seq<int>> {
    match p
    case Sending(row) => Some(row)
    case Sent(row) => Some(row)
    case Finished(result) => result
    case _ => None
  }

  /** The steps tell the phases: an entry carries a row exactly if it succeeded with that row, has
      finished with none exactly if it failed, and was skipped exactly if a step skipped it. */
  ghost predicate Told(steps: seq<Step>, s: State) {
    && (forall i: nat, row :: Succeed(i, row) in steps <==> i < |s.phases| && CarriedRow(s.phases[i]) == Some(row))
    && (forall i: nat :: Fail(i) in steps <==> At(s, i, Finished(None)))
    && (forall i: nat :: Skip(i) in steps <==> At(s, i, Skipped))
  }

  ghost predicate SucceedOnce(steps: seq<Step>) {
    forall a, b :: 0 <= a < b < |steps| && steps[a].Succeed? && steps[b].Succeed? ==>
      steps[a].entry != steps[b].entry
  }

  lemma StepSucceedsOnce(steps: seq<Step>, s: State, step: Step)
    requires Told(steps, s) && Enabled(s, step) && SucceedOnce(steps)
    ensures SucceedOnce(steps + [step])
  {
    if step.Succeed? {
      forall a | 0 <= a < |steps| && steps[a].Succeed? ensures steps[a].entry != step.entry {
        assert Succeed(steps[a].entry, steps[a].row) in steps;
      }
    }
  }

  lemma GoroutineStepTold(steps: seq<Step>, s: State, step: Step)
    requires Told(steps, s) && Enabled(s, step) && !Apply(s, step).panicked && OfGoroutine(step)
    ensures Told(steps + [step], Apply(s, step))
  {
    assert forall e :: e in steps + [step] <==> e in steps || e == step;
  }

  lemma MainStepTold(steps: seq<Step>, s: State, step: Step)
    requires Told(steps, s) && Enabled(s, step) && !OfGoroutine(step)
    ensures Told(steps + [step], Apply(s, step))
  {
    assert forall e :: e in steps + [step] <==> e in steps || e == step;
    assert Apply(s, step).phases == s.phases;
  }

  lemma StartTold(entries: nat)
    ensures Told([], Init(entries)) && SucceedOnce([])
  {
  }

  lemma {:induction false} RunTold(entries: nat, steps: seq<Step>, s: State)
    requires Reaches(entries, steps, s)
    ensures Told(steps, s) && SucceedOnce(steps)
  {
    hide Told, SucceedOnce, Inv, Apply, Enabled;
    if |steps| == 0 {
      assert steps == [];
      StartTold(entries);
    } else {
      var n := |steps| - 1;
      var before := Execute(entries, steps[..n]).value;
      assert steps == steps[..n] + [steps[n]];
      RunTold(entries, steps[..n], before);
      RunKeepsInv(entries, steps, s);
      InvNotPanicked(s);
      StepSucceedsOnce(steps[..n], before, steps[n]);
      if OfGoroutine(steps[n]) {
        GoroutineStepTold(steps[..n], before, steps[n]);
      } else {
        MainStepTold(steps[..n], before, steps[n]);
      }
    }
  }

  lemma InvNotPanicked(s: State)
    requires Inv(s)
    ensures !s.panicked
  {
  }

  /** When the tick is over, a row has been received from an entry exactly if a step of the run
      succeeded with that row for that entry; no entry succeeds twice, none both succeeds and fails,
      and every entry was skipped, failed or succeeded. */
  lemma OverReceivedWhatSucceeded(entries: nat, steps: seq<Step>, s: State)
    requires Reaches(entries, steps, s) && s.main.Over?
    ensures forall i: nat, row :: Delivery(i, row) in s.received <==> Succeed(i, row) in steps
    ensures forall a, b :: 0 <= a < b < |steps| && steps[a].Succeed? && steps[b].Succeed? ==>
              steps[a].entry != steps[b].entry
    ensures forall i: nat, row :: Fail(i) in steps || Skip(i) in steps ==> Delivery(i, row) !in s.received
    ensures forall i: nat :: i < entries ==>
              Skip(i) in steps || Fail(i) in steps || exists row :: Succeed(i, row) in steps
  {
    hide Reaches;
    OverReceivedExactlyTheSuccesses(entries, steps, s);
    RunTold(entries, steps, s);
    forall i: nat, row ensures Delivery(i, row) in s.received <==> Succeed(i, row) in steps {
      assert Delivery(i, row) in s.received ==> Delivery(i, row).entry < entries;
    }
    forall i: nat | i < entries ensures Skip(i) in steps || Fail(i) in steps || exists row :: Succeed(i, row) in steps {
      if CarriedRow(s.phases[i]).Some? {
        assert Succeed(i, CarriedRow(s.phases[i]).value) in steps;
      }
    }
  }

  /** The entries that sent, in the order of their sends. */
  function Senders(steps: seq<Step>): seq<nat> {
    if |steps| == 0 then []
    else
      var rest := Senders(steps[..|steps| - 1]);
      if steps[|steps| - 1].Send? then rest + [steps[|steps| - 1].entry] else rest
  }

  function Entries(log: seq<Delivery>): (r: seq<nat>)
    ensures |r| == |log|
  {
    seq(|log|, j requires 0 <= j < |log| => log[j].entry)
  }

  lemma StepInOrder(s: State, step: Step)
    requires Enabled(s, step) && !Apply(s, step).panicked
    ensures Entries(Log(Apply(s, step))) == Entries(Log(s)) + if step.Send? then [step.entry] else []
  {
    if step.Send? {
      assert Log(Apply(s, step)) == Log(s) + [Delivery(step.entry, s.phases[step.entry].row)];
    } else {
      assert Log(Apply(s, step)) == Log(s);
    }
  }

  /** First in, first out: what has been received and what is buffered are the sends in order. */
  lemma {:induction false} ReceivedInOrder(entries: nat, steps: seq<Step>, s: State)
    requires Reaches(entries, steps, s)
    ensures Entries(s.received + s.buffer) == Senders(steps)
  {
    hide Inv, Apply, Enabled, Entries;
    if |steps| == 0 {
      NothingReceived(entries);
    } else {
      var n := |steps| - 1;
      var before := Execute(entries, steps[..n]).value;
      ReceivedInOrder(entries, steps[..n], before);
      RunKeepsInv(entries, steps, s);
      InvNotPanicked(s);
      StepInOrder(before, steps[n]);
    }
  }

  lemma NothingReceived(entries: nat)
    ensures Entries(Init(entries).received + Init(entries).buffer) == []
  {
  }
}
