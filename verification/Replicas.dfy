/** The clamped writer of the replica count (scaler/scaler.go:59-96), over whole runs of calls
    whose reads and writes may each fail. */
module Replicas {

  datatype Bounds = Bounds(min: int, max: int)

  /** One call, and whether its read and its write of the scale object go through. */
  datatype Call =
    | UpTo(replica: int, readOk: bool, writeOk: bool)
    | DownTo(replica: int, readOk: bool, writeOk: bool)

  /** The replica count after a call. */
  function After(b: Bounds, current: int, c: Call): int {
    if !c.readOk || !c.writeOk then current
    else match c
      case UpTo(replica, _, _) =>
        if current >= replica then current else if replica > b.max then b.max else replica
      case DownTo(replica, _, _) =>
        if current <= replica then current else if replica < b.min then b.min else replica
  }

  function Run(b: Bounds, start: int, calls: seq<Call>): int {
    if |calls| == 0 then start
    else After(b, Run(b, start, calls[..|calls| - 1]), calls[|calls| - 1])
  }

  /** A scaler, and the replica count that only it writes. */
  class Scaler {
    const bounds: Bounds
    var replicas: int

    constructor (bounds: Bounds, start: int)
      ensures this.bounds == bounds && replicas == start
    {
      this.bounds := bounds;
      replicas := start;
    }

    method UpTo(target: int, readOk: bool, writeOk: bool) returns (ok: bool)
      modifies this
      ensures replicas == After(bounds, old(replicas), Call.UpTo(target, readOk, writeOk))
      ensures ok <==> readOk && old(replicas) < target && writeOk
    {
      if !readOk {
        return false;
      }
      var replica := target;
      if replicas >= replica {
        return false;
      }
      if replica > bounds.max {
        replica := bounds.max;
      }
      if !writeOk {
        return false;
      }
      replicas := replica;
      ok := true;
    }

    method DownTo(target: int, readOk: bool, writeOk: bool) returns (ok: bool)
      modifies this
      ensures replicas == After(bounds, old(replicas), Call.DownTo(target, readOk, writeOk))
      ensures ok <==> readOk && old(replicas) > target && writeOk
    {
      if !readOk {
        return false;
      }
      var replica := target;
      if replicas <= replica {
        return false;
      }
      if replica < bounds.min {
        replica := bounds.min;
      }
      if !writeOk {
        return false;
      }
      replicas := replica;
      ok := true;
    }
  }

  // ---------------------------------------------------------------- laws

  /** A count that starts inside the bounds never leaves them, whatever is called and whichever
      calls fail. */
  lemma {:induction false} StaysInBounds(b: Bounds, start: int, calls: seq<Call>)
    requires b.min <= start <= b.max
    ensures b.min <= Run(b, start, calls) <= b.max
  {
    if |calls| > 0 {
      StaysInBounds(b, start, calls[..|calls| - 1]);
    }
  }

  predicate Effective(c: Call) {
    c.UpTo? && c.readOk && c.writeOk
  }

  function Capped(b: Bounds, replica: int): int {
    if replica > b.max then b.max else replica
  }

  /** `v` is the largest of the start and of every effective target, capped at the maximum. */
  ghost predicate IsHighest(b: Bounds, start: int, calls: seq<Call>, v: int) {
    && v >= start
    && (forall k :: 0 <= k < |calls| && Effective(calls[k]) ==> v >= Capped(b, calls[k].replica))
    && (v == start || exists k :: 0 <= k < |calls| && Effective(calls[k]) && v == Capped(b, calls[k].replica))
  }

  /** A scheduler only scales up: its run ends exactly at the highest capped target, or where
      it started if that is higher. */
  lemma {:induction false} UpRunEndsAtHighest(b: Bounds, start: int, calls: seq<Call>)
    requires start <= b.max && forall k :: 0 <= k < |calls| ==> calls[k].UpTo?
    ensures IsHighest(b, start, calls, Run(b, start, calls))
    ensures Run(b, start, calls) <= b.max
  {
    if |calls| > 0 {
      var n := |calls| - 1;
      UpRunEndsAtHighest(b, start, calls[..n]);
      var before := Run(b, start, calls[..n]);
      assert forall k :: 0 <= k < n ==> calls[..n][k] == calls[k];
      if before != start {
        var k :| 0 <= k < n && Effective(calls[..n][k]) && before == Capped(b, calls[..n][k].replica);
        assert Effective(calls[k]) && before == Capped(b, calls[k].replica);
      }
    }
  }

  /** There is one such value, so the end of the run does not depend on the order of the calls. */
  lemma UpRunUnordered(b: Bounds, start: int, calls: seq<Call>, calls': seq<Call>)
    requires start <= b.max && forall k :: 0 <= k < |calls| ==> calls[k].UpTo?
    requires multiset(calls) == multiset(calls')
    ensures Run(b, start, calls) == Run(b, start, calls')
  {
    forall c ensures c in calls <==> c in calls' {
      assert c in calls <==> c in multiset(calls);
      assert c in calls' <==> c in multiset(calls');
    }
    forall k | 0 <= k < |calls'| ensures calls'[k].UpTo? {
      assert calls'[k] in calls;
    }
    UpRunEndsAtHighest(b, start, calls);
    UpRunEndsAtHighest(b, start, calls');
    HighestBelow(b, start, calls, calls');
    HighestBelow(b, start, calls', calls);
  }

  lemma HighestBelow(b: Bounds, start: int, calls: seq<Call>, calls': seq<Call>)
    requires forall c :: c in calls ==> c in calls'
    requires IsHighest(b, start, calls, Run(b, start, calls))
    requires IsHighest(b, start, calls', Run(b, start, calls'))
    ensures Run(b, start, calls) <= Run(b, start, calls')
  {
    var v := Run(b, start, calls);
    if v != start {
      var k :| 0 <= k < |calls| && Effective(calls[k]) && v == Capped(b, calls[k].replica);
      assert calls[k] in calls;
      var k' :| 0 <= k' < |calls'| && calls'[k'] == calls[k];
    }
  }

  predicate EffectiveDown(c: Call) {
    c.DownTo? && c.readOk && c.writeOk
  }

  function Raised(b: Bounds, replica: int): int {
    if replica < b.min then b.min else replica
  }

  /** `v` is the least of the start and of every effective target, raised to the minimum. */
  ghost predicate IsLowest(b: Bounds, start: int, calls: seq<Call>, v: int) {
    && v <= start
    && (forall k :: 0 <= k < |calls| && EffectiveDown(calls[k]) ==> v <= Raised(b, calls[k].replica))
    && (v == start || exists k :: 0 <= k < |calls| && EffectiveDown(calls[k]) && v == Raised(b, calls[k].replica))
  }

  /** A run that only scales down ends exactly at the lowest raised target, or where it started if
      that is lower. */
  lemma {:induction false} DownRunEndsAtLowest(b: Bounds, start: int, calls: seq<Call>)
    requires b.min <= start && forall k :: 0 <= k < |calls| ==> calls[k].DownTo?
    ensures IsLowest(b, start, calls, Run(b, start, calls))
    ensures b.min <= Run(b, start, calls)
  {
    if |calls| > 0 {
      var n := |calls| - 1;
      DownRunEndsAtLowest(b, start, calls[..n]);
      var before := Run(b, start, calls[..n]);
      assert forall k :: 0 <= k < n ==> calls[..n][k] == calls[k];
      if before != start {
        var k :| 0 <= k < n && EffectiveDown(calls[..n][k]) && before == Raised(b, calls[..n][k].replica);
        assert EffectiveDown(calls[k]) && before == Raised(b, calls[k].replica);
      }
    }
  }
}
