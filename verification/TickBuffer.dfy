/** One tick's predictions on one sample buffer (algorithms/holt_winter/holt_winter.go:36-41, called
    from scheduler/scheduler.go:82-84): every reader's Predict is called once, nothing is collected
    meanwhile, and the goroutines interleave their checks and drains. */
module TickBuffer {
  import opened Domain
  import opened SampleBuffer

  /** Where steps lead from a state. */
  function From(readers: seq<Reader>, s: State, steps: seq<Step>): (r: Option<State>)
    requires |s.consumers| == |readers|
    ensures r.Some? ==> |r.value.consumers| == |readers|
  {
    if |steps| == 0 then Some(s)
    else match From(readers, s, steps[..|steps| - 1])
      case Some(before) =>
        if Enabled(before, steps[|steps| - 1]) then Some(Apply(readers, before, steps[|steps| - 1])) else None
      case None => None
  }

  /** The window a reader's call has got so far. */
  function Window(readers: seq<Reader>, s: State, steps: seq<Step>, c: nat): Option<seq<Sample>>
    requires |s.consumers| == |readers| && From(readers, s, steps).Some?
  {
    if |steps| == 0 then None
    else
      var n := |steps| - 1;
      var before := From(readers, s, steps[..n]).value;
      if steps[n] == Drain(c) && readers[c].taken <= |before.data| then Some(Newest(before.data, readers[c].taken))
      else Window(readers, s, steps[..n], c)
  }

  ghost predicate AllIdle(readers: seq<Reader>, s: State) {
    !s.panicked && |s.consumers| == |readers| && forall c :: 0 <= c < |readers| ==> s.consumers[c].Idle?
  }

  /** Checks and drains only, and no reader's call twice. */
  ghost predicate OneCallEach(steps: seq<Step>) {
    && (forall i :: 0 <= i < |steps| ==> steps[i].Check? || steps[i].Drain?)
    && forall i, j :: 0 <= i < j < |steps| && steps[i].Check? ==> steps[i] != steps[j]
  }

  /** Every reader's call has been made and has returned. */
  ghost predicate Finished(readers: seq<Reader>, s: State, steps: seq<Step>)
    requires |s.consumers| == |readers|
  {
    && OneCallEach(steps) && From(readers, s, steps).Some?
    && AllIdle(readers, From(readers, s, steps).value)
    && forall c: nat :: c < |readers| ==> Check(c) in steps
  }

  /** The data at hand are enough for reader `c`. */
  predicate CanPredict(readers: seq<Reader>, s: State, c: nat) {
    c < |readers| && readers[c].needed <= |s.data| && readers[c].taken <= |s.data|
  }

  ghost predicate AtMostOneCan(readers: seq<Reader>, s: State) {
    forall c: nat, d: nat :: CanPredict(readers, s, c) && CanPredict(readers, s, d) ==> c == d
  }

  ghost predicate AsksForSome(readers: seq<Reader>) {
    forall c :: 0 <= c < |readers| ==> readers[c].needed >= 1
  }

  // ---------------------------------------------------------------- at most one can

  ghost predicate SomeDrain(steps: seq<Step>) {
    exists c: nat :: Drain(c) in steps
  }

  /** Up to any point: a reader that has drained is the one that can predict, and has its window of
      the data at hand; until then the data are untouched and every check they suffice for stands. */
  ghost predicate SoFar(readers: seq<Reader>, s: State, steps: seq<Step>, now: State)
    requires |s.consumers| == |readers| && From(readers, s, steps) == Some(now)
  {
    && (forall c: nat :: c < |readers| && now.consumers[c].Checked? ==>
          Check(c) in steps && readers[c].needed <= |s.data|)
    && (forall c: nat :: Drain(c) in steps ==>
          && CanPredict(readers, s, c) && Check(c) in steps && now.consumers[c].Idle?
          && Window(readers, s, steps, c) == Some(Newest(s.data, readers[c].taken)))
    && (forall c: nat :: Drain(c) !in steps ==> Window(readers, s, steps, c) == None)
    && (if SomeDrain(steps) then now.data == []
        else
          && now.data == s.data
          && forall c: nat :: c < |readers| && Check(c) in steps && readers[c].needed <= |s.data| ==>
               now.consumers[c].Checked?)
  }

  lemma CheckSoFar(readers: seq<Reader>, s: State, steps: seq<Step>, now: State, c: nat)
    requires AllIdle(readers, s) && AsksForSome(readers)
    requires From(readers, s, steps) == Some(now) && SoFar(readers, s, steps, now)
    requires Enabled(now, Check(c)) && Check(c) !in steps
    requires From(readers, s, steps + [Check(c)]) == Some(Apply(readers, now, Check(c)))
    ensures SoFar(readers, s, steps + [Check(c)], Apply(readers, now, Check(c)))
  {
    var more := steps + [Check(c)];
    assert more[..|steps|] == steps;
    assert forall d: nat :: Drain(d) in more <==> Drain(d) in steps;
    assert forall d: nat :: Check(d) in more <==> Check(d) in steps || d == c;
    assert SomeDrain(more) <==> SomeDrain(steps);
    assert forall d: nat :: Window(readers, s, more, d) == Window(readers, s, steps, d);
  }

  lemma DrainSoFar(readers: seq<Reader>, s: State, steps: seq<Step>, now: State, c: nat)
    requires AllIdle(readers, s) && AsksForSome(readers) && AtMostOneCan(readers, s)
    requires From(readers, s, steps) == Some(now) && SoFar(readers, s, steps, now)
    requires Enabled(now, Drain(c)) && !Apply(readers, now, Drain(c)).panicked
    requires From(readers, s, steps + [Drain(c)]) == Some(Apply(readers, now, Drain(c)))
    ensures SoFar(readers, s, steps + [Drain(c)], Apply(readers, now, Drain(c)))
  {
    var more := steps + [Drain(c)];
    assert more[..|steps|] == steps;
    var taken := readers[c].taken;
    assert Check(c) in steps && readers[c].needed <= |s.data| && taken <= |now.data|;
    assert SomeDrain(steps) ==> taken == 0 && CanPredict(readers, s, c);
    assert forall d: nat :: Drain(d) in steps ==> SomeDrain(steps) && CanPredict(readers, s, d);
    assert forall d: nat :: Drain(d) in steps ==> d == c;
    assert !SomeDrain(steps);
    assert forall d: nat :: Drain(d) in more <==> d == c;
    assert forall d: nat :: Check(d) in more <==> Check(d) in steps;
    assert Drain(c) in more;
    assert forall d: nat :: d != c ==> Window(readers, s, more, d) == Window(readers, s, steps, d);
  }

  lemma {:induction false} RunSoFar(readers: seq<Reader>, s: State, steps: seq<Step>, now: State)
    requires AllIdle(readers, s) && AsksForSome(readers) && AtMostOneCan(readers, s)
    requires OneCallEach(steps) && From(readers, s, steps) == Some(now) && !now.panicked
    ensures SoFar(readers, s, steps, now)
  {
    if |steps| > 0 {
      hide SoFar, Apply, AtMostOneCan, AsksForSome;
      var n := |steps| - 1;
      var before := From(readers, s, steps[..n]).value;
      assert steps == steps[..n] + [steps[n]];
      NotPanickedBefore(before, steps[n]);
      RunSoFar(readers, s, steps[..n], before);
      match steps[n]
      case Check(c) => CheckSoFar(readers, s, steps[..n], before, c);
      case Drain(c) => DrainSoFar(readers, s, steps[..n], before, c);
    }
  }

  lemma NotPanickedBefore(s: State, step: Step)
    requires Enabled(s, step)
    ensures !s.panicked
  {
  }

  /** When the calls are over the one reader that can predict has the newest samples at hand, and
      no other has anything. */
  lemma OneReaderWins(readers: seq<Reader>, s: State, steps: seq<Step>, c: nat)
    requires AllIdle(readers, s) && AsksForSome(readers) && AtMostOneCan(readers, s)
    requires Finished(readers, s, steps) && c < |readers|
    ensures Window(readers, s, steps, c)
         == if CanPredict(readers, s, c) then Some(Newest(s.data, readers[c].taken)) else None
  {
    var now := From(readers, s, steps).value;
    RunSoFar(readers, s, steps, now);
    if CanPredict(readers, s, c) {
      assert Check(c) in steps;
      assert now.consumers[c].Idle?;
      assert SomeDrain(steps);
      var d: nat :| Drain(d) in steps;
      assert d == c;
    }
  }

  // ---------------------------------------------------------------- two can

  lemma FromNext(readers: seq<Reader>, s: State, steps: seq<Step>, now: State, step: Step)
    requires |s.consumers| == |readers| && From(readers, s, steps) == Some(now) && Enabled(now, step)
    ensures |now.consumers| == |readers|
    ensures From(readers, s, steps + [step]) == Some(Apply(readers, now, step))
    ensures forall c: nat ::
              Window(readers, s, steps + [step], c) ==
                if step == Drain(c) && readers[c].taken <= |now.data| then Some(Newest(now.data, readers[c].taken))
                else Window(readers, s, steps, c)
  {
    assert (steps + [step])[..|steps|] == steps;
  }

  /** Reader `c` checks and drains first, then the readers below `n` check in turn. */
  function FirstThenChecks(c: nat, n: nat): seq<Step> {
    if n == 0 then [Check(c), Drain(c)]
    else if n - 1 == c then FirstThenChecks(c, n - 1)
    else FirstThenChecks(c, n - 1) + [Check(n - 1)]
  }

  lemma {:induction false} FirstThenChecksAre(c: nat, n: nat)
    ensures forall e: nat :: Check(e) in FirstThenChecks(c, n) <==> e == c || e < n
    ensures OneCallEach(FirstThenChecks(c, n))
  {
    if n > 0 {
      FirstThenChecksAre(c, n - 1);
      if n - 1 != c {
        NewCheck(FirstThenChecks(c, n - 1), n - 1);
      }
    }
  }

  lemma NewCheck(steps: seq<Step>, e: nat)
    requires OneCallEach(steps) && Check(e) !in steps
    ensures OneCallEach(steps + [Check(e)])
    ensures forall d: nat :: Check(d) in steps + [Check(e)] <==> Check(d) in steps || d == e
  {
  }

  lemma {:induction false} FirstTakesAll(readers: seq<Reader>, s: State, c: nat, n: nat) returns (now: State)
    requires AllIdle(readers, s) && AsksForSome(readers) && CanPredict(readers, s, c) && n <= |readers|
    ensures From(readers, s, FirstThenChecks(c, n)) == Some(now)
    ensures AllIdle(readers, now) && now.data == []
    ensures Window(readers, s, FirstThenChecks(c, n), c) == Some(Newest(s.data, readers[c].taken))
    ensures forall d: nat :: d != c ==> Window(readers, s, FirstThenChecks(c, n), d) == None
  {
    if n == 0 {
      now := FirstDrains(readers, s, c);
    } else {
      now := FirstTakesAll(readers, s, c, n - 1);
      if n - 1 != c {
        hide Window, From, AsksForSome;
        assert readers[n - 1].needed >= 1;
        FromNext(readers, s, FirstThenChecks(c, n - 1), now, Check(n - 1));
      }
    }
  }

  lemma FirstDrains(readers: seq<Reader>, s: State, c: nat) returns (now: State)
    requires AllIdle(readers, s) && CanPredict(readers, s, c)
    ensures From(readers, s, FirstThenChecks(c, 0)) == Some(now)
    ensures AllIdle(readers, now) && now.data == []
    ensures Window(readers, s, FirstThenChecks(c, 0), c) == Some(Newest(s.data, readers[c].taken))
    ensures forall d: nat :: d != c ==> Window(readers, s, FirstThenChecks(c, 0), d) == None
  {
    var checked := Apply(readers, s, Check(c));
    FromNothing(readers, s);
    hide Window, From;
    FromNext(readers, s, [], s, Check(c));
    FromNext(readers, s, [] + [Check(c)], checked, Drain(c));
    assert [] + [Check(c)] + [Drain(c)] == FirstThenChecks(c, 0);
    now := Apply(readers, checked, Drain(c));
  }

  lemma FromNothing(readers: seq<Reader>, s: State)
    requires |s.consumers| == |readers|
    ensures From(readers, s, []) == Some(s) && forall c: nat :: Window(readers, s, [], c) == None
  {
  }

  lemma FirstFinishes(readers: seq<Reader>, s: State, c: nat)
    requires AllIdle(readers, s) && AsksForSome(readers) && CanPredict(readers, s, c)
    ensures Finished(readers, s, FirstThenChecks(c, |readers|))
    ensures Window(readers, s, FirstThenChecks(c, |readers|), c).Some?
    ensures forall d: nat :: d != c ==> Window(readers, s, FirstThenChecks(c, |readers|), d).None?
  {
    hide Window, From, FirstThenChecks, OneCallEach;
    FirstThenChecksAre(c, |readers|);
    var now := FirstTakesAll(readers, s, c, |readers|);
  }

  /** What a tick's predictions get from a shared buffer does not depend on how they interleave
      exactly when the data at hand suffice for at most one of the readers: of two, whichever goes
      first leaves the other nothing. */
  lemma WindowsFixedExactlyWhen(readers: seq<Reader>, s: State)
    requires AllIdle(readers, s) && AsksForSome(readers)
    ensures (forall a, b, c: nat :: c < |readers| && Finished(readers, s, a) && Finished(readers, s, b) ==>
               Window(readers, s, a, c) == Window(readers, s, b, c))
       <==> AtMostOneCan(readers, s)
  {
    hide Window, From, FirstThenChecks, AsksForSome, OneCallEach;
    if AtMostOneCan(readers, s) {
      forall a, b, c: nat | c < |readers| && Finished(readers, s, a) && Finished(readers, s, b)
        ensures Window(readers, s, a, c) == Window(readers, s, b, c)
      {
        OneReaderWins(readers, s, a, c);
        OneReaderWins(readers, s, b, c);
      }
    } else {
      var c: nat, d: nat :| CanPredict(readers, s, c) && CanPredict(readers, s, d) && c != d;
      FirstFinishes(readers, s, c);
      FirstFinishes(readers, s, d);
    }
  }
}
