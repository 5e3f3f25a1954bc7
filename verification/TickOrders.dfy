/** When a tick panics, over all the orders Go may pick: that in which the rows arrive, and that in
    which the metrics are visited (scheduler/scheduler.go:137-165). */
module TickOrders {
  import opened Domain
  import opened Grouping
  import opened Keys
  import opened Orders
  import opened ScalingLaws
  import opened Scheduler
  import opened Strategies
  import opened TickLaws

  /** The metrics of the received rows that are still stored. */
  function Stored(pairs: seq<Pair>, weights: map<string, int>): set<string> {
    Metrics(pairs) * weights.Keys
  }

  lemma {:induction false} StoredOrderEnumerates(weights: map<string, int>, order: seq<string>, keys: set<string>)
    requires Enumerates(order, keys)
    ensures Enumerates(StoredOrder(weights, order), keys * weights.Keys)
  {
    if |order| > 0 {
      var n := |order| - 1;
      var rest := StoredOrder(weights, order[..n]);
      assert order == order[..n] + [order[n]];
      assert order[n] in order;
      StoredOrderEnumerates(weights, order[..n], keys - {order[n]});
      assert forall i :: 0 <= i < |rest| ==> rest[i] in rest;
    }
  }

  lemma {:induction false} StoredFirst(weights: map<string, int>, order: seq<string>)
    requires |order| >= 1 && order[0] in weights
    ensures |StoredOrder(weights, order)| >= 1 && StoredOrder(weights, order)[0] == order[0]
  {
    var n := |order| - 1;
    if n > 0 {
      StoredFirst(weights, order[..n]);
    } else {
      assert order[..0] == [];
    }
  }

  // ---------------------------------------------------------------- all orders of the metrics

  /** Some metric is stored, every metric's first row is its longest, and the row of every stored
      one is at least as long as there are stored ones. */
  ghost predicate FitsEveryOrder(pairs: seq<Pair>, weights: map<string, int>) {
    && Stored(pairs, weights) != {}
    && (forall k :: k in Metrics(pairs) ==> FirstIsLongest(RowsOf(pairs, k)))
    && forall k :: k in Stored(pairs, weights) ==> |Stored(pairs, weights)| <= Width(RowsOf(pairs, k))
  }

  lemma FittingOrderInRange(pairs: seq<Pair>, weights: map<string, int>, order: seq<string>)
    requires FitsEveryOrder(pairs, weights) && Enumerates(order, Metrics(pairs))
    ensures TickInRange(pairs, weights, order)
  {
    hide RowsOf, Metrics, FirstIsLongest, Width, StoredOrder;
    var stored := StoredOrder(weights, order);
    StoredOrderEnumerates(weights, order, Metrics(pairs));
    OrderLength(stored, Stored(pairs, weights));
    forall j | 0 <= j < |order| ensures FirstIsLongest(RowsOf(pairs, order[j])) {
      assert order[j] in order;
    }
    forall g | 0 <= g < |stored| ensures |stored| <= Width(RowsOf(pairs, stored[g])) {
      assert stored[g] in stored;
    }
    assert stored != [] by {
      var k :| k in Stored(pairs, weights);
      assert k in stored;
    }
  }

  lemma OrderInRangeNeeds(pairs: seq<Pair>, weights: map<string, int>, order: seq<string>)
    requires Enumerates(order, Metrics(pairs)) && TickInRange(pairs, weights, order)
    ensures Stored(pairs, weights) != {}
    ensures forall k :: k in Metrics(pairs) ==> FirstIsLongest(RowsOf(pairs, k))
    ensures |order| >= 1 && order[0] in weights ==> |Stored(pairs, weights)| <= Width(RowsOf(pairs, order[0]))
  {
    hide RowsOf, Metrics, FirstIsLongest, Width, StoredOrder;
    var stored := StoredOrder(weights, order);
    StoredOrderEnumerates(weights, order, Metrics(pairs));
    OrderLength(stored, Stored(pairs, weights));
    assert stored[0] in Stored(pairs, weights);
    forall k | k in Metrics(pairs) ensures FirstIsLongest(RowsOf(pairs, k)) {
      assert k in order;
    }
    if |order| >= 1 && order[0] in weights {
      StoredFirst(weights, order);
    }
  }

  /** A tick with these rows is free of panics in every order of the metrics exactly when the rows
      fit every order. */
  lemma EveryOrderInRangeExactlyWhen(pairs: seq<Pair>, weights: map<string, int>)
    ensures (forall order :: Enumerates(order, Metrics(pairs)) ==> TickInRange(pairs, weights, order))
       <==> FitsEveryOrder(pairs, weights)
  {
    hide RowsOf, Metrics, FirstIsLongest, Width, TickInRange, Enumerates;
    if FitsEveryOrder(pairs, weights) {
      forall order | Enumerates(order, Metrics(pairs)) ensures TickInRange(pairs, weights, order) {
        FittingOrderInRange(pairs, weights, order);
      }
    }
    if forall order :: Enumerates(order, Metrics(pairs)) ==> TickInRange(pairs, weights, order) {
      var some := SomeOrder(Metrics(pairs));
      OrderInRangeNeeds(pairs, weights, some);
      forall k | k in Stored(pairs, weights) ensures |Stored(pairs, weights)| <= Width(RowsOf(pairs, k)) {
        var order := OrderFrom(Metrics(pairs), k);
        OrderNotEmpty(order, Metrics(pairs), k);
        OrderInRangeNeeds(pairs, weights, order);
      }
    }
  }

  lemma OrderNotEmpty(order: seq<string>, keys: set<string>, k: string)
    requires Enumerates(order, keys) && k in keys
    ensures |order| >= 1
  {
    assert k in order;
  }

  // ---------------------------------------------------------------- all orders of arrival

  lemma {:induction false} RowComesFrom(pairs: seq<Pair>, k: string, j: nat) returns (i: nat)
    requires j < |RowsOf(pairs, k)|
    ensures i < |pairs| && GetNoModelKey(pairs[i].withModelKey) == k && pairs[i].modelReplica == RowsOf(pairs, k)[j]
  {
    hide GetNoModelKey;
    var n := |pairs| - 1;
    if j < |RowsOf(pairs[..n], k)| {
      i := RowComesFrom(pairs[..n], k, j);
    } else {
      i := n;
    }
  }

  /** A pair can arrive first. */
  function Earlier(pairs: seq<Pair>, i: nat): seq<Pair>
    requires i < |pairs|
  {
    [pairs[i]] + Without(pairs, i)
  }

  /** Its row then is its metric's first, and other metrics see no difference. */
  lemma EarlierRows(pairs: seq<Pair>, i: nat, k: string)
    requires i < |pairs|
    ensures multiset(Earlier(pairs, i)) == multiset(pairs)
    ensures if GetNoModelKey(pairs[i].withModelKey) == k
            then |RowsOf(Earlier(pairs, i), k)| >= 1 && RowsOf(Earlier(pairs, i), k)[0] == pairs[i].modelReplica
            else RowsOf(Earlier(pairs, i), k) == RowsOf(pairs, k)
    ensures multiset(RowsOf(Earlier(pairs, i), k)) == multiset(RowsOf(pairs, k))
  {
    hide GetNoModelKey;
    var one := [pairs[i]];
    assert one[..0] == [];
    assert pairs == pairs[..i] + one + pairs[i + 1..];
    RowsOfSplit(one, Without(pairs, i), k);
    RowsOfSplit(pairs[..i], pairs[i + 1..], k);
    RowsOfSplit(pairs[..i] + one, pairs[i + 1..], k);
    RowsOfSplit(pairs[..i], one, k);
    assert multiset(Earlier(pairs, i)) == multiset(pairs);
    GroupsFollowArrivals(Earlier(pairs, i), pairs, k);
  }

  lemma MetricsUnordered(pairs: seq<Pair>, pairs': seq<Pair>)
    requires multiset(pairs) == multiset(pairs')
    ensures Metrics(pairs) == Metrics(pairs')
  {
    hide GetNoModelKey;
    forall p ensures p in pairs <==> p in pairs' {
      assert p in pairs <==> p in multiset(pairs);
      assert p in pairs' <==> p in multiset(pairs');
    }
    forall k ensures k in Metrics(pairs) <==> k in Metrics(pairs') {
      if j :| 0 <= j < |pairs| && GetNoModelKey(pairs[j].withModelKey) == k {
        assert pairs[j] in pairs';
      }
      if j :| 0 <= j < |pairs'| && GetNoModelKey(pairs'[j].withModelKey) == k {
        assert pairs'[j] in pairs;
      }
    }
  }

  /** Rows of unequal lengths can arrive so that the first is not the longest. */
  lemma UnequalCanArriveBadly(pairs: seq<Pair>, k: string) returns (pairs': seq<Pair>)
    requires !EqualLengths(RowsOf(pairs, k))
    ensures multiset(pairs') == multiset(pairs) && !FirstIsLongest(RowsOf(pairs', k))
  {
    hide GetNoModelKey, RowsOf;
    var rows := RowsOf(pairs, k);
    if FirstIsLongest(rows) {
      var a, b :| 0 <= a < |rows| && 0 <= b < |rows| && |rows[a]| != |rows[b]|;
      var short := if |rows[a]| < |rows[b]| then a else b;
      var i := RowComesFrom(pairs, k, short);
      EarlierRows(pairs, i, k);
      pairs' := Earlier(pairs, i);
      SameRows(rows, RowsOf(pairs', k));
      assert rows[0] in RowsOf(pairs', k);
    } else {
      pairs' := pairs;
    }
  }

  lemma EqualLengthsReordered(rows: seq<seq<int>>, rows': seq<seq<int>>)
    requires multiset(rows) == multiset(rows') && EqualLengths(rows)
    ensures EqualLengths(rows') && FirstIsLongest(rows') && Width(rows') == Width(rows)
  {
    SameRows(rows, rows');
    assert forall j :: 0 <= j < |rows'| ==> rows'[j] in rows;
  }

  /** Some metric is stored, the rows of every metric have one length, and those of every stored one
      are at least as long as there are stored ones. */
  ghost predicate FitsEveryArrival(pairs: seq<Pair>, weights: map<string, int>) {
    && Stored(pairs, weights) != {}
    && (forall k :: k in Metrics(pairs) ==> EqualLengths(RowsOf(pairs, k)))
    && forall k :: k in Stored(pairs, weights) ==> |Stored(pairs, weights)| <= Width(RowsOf(pairs, k))
  }

  lemma FittingArrival(pairs: seq<Pair>, pairs': seq<Pair>, weights: map<string, int>)
    requires multiset(pairs') == multiset(pairs) && FitsEveryArrival(pairs, weights)
    ensures FitsEveryOrder(pairs', weights)
  {
    hide RowsOf, Metrics, FirstIsLongest, Width, EqualLengths;
    MetricsUnordered(pairs, pairs');
    forall k | k in Metrics(pairs)
      ensures FirstIsLongest(RowsOf(pairs', k)) && Width(RowsOf(pairs', k)) == Width(RowsOf(pairs, k))
    {
      GroupsFollowArrivals(pairs, pairs', k);
      EqualLengthsReordered(RowsOf(pairs, k), RowsOf(pairs', k));
    }
  }

  /** A tick that receives these rows is free of panics, in whatever order they arrive and the
      metrics are visited, exactly when they fit every arrival. */
  lemma NeverPanicsExactlyWhen(pairs: seq<Pair>, weights: map<string, int>)
    ensures (forall pairs', order :: multiset(pairs') == multiset(pairs) && Enumerates(order, Metrics(pairs')) ==>
               TickInRange(pairs', weights, order))
       <==> FitsEveryArrival(pairs, weights)
  {
    hide RowsOf, Metrics, FirstIsLongest, Width, TickInRange, Enumerates, EqualLengths, FitsEveryOrder;
    if FitsEveryArrival(pairs, weights) {
      forall pairs', order | multiset(pairs') == multiset(pairs) && Enumerates(order, Metrics(pairs'))
        ensures TickInRange(pairs', weights, order)
      {
        FittingArrival(pairs, pairs', weights);
        FittingOrderInRange(pairs', weights, order);
      }
    }
    if forall pairs', order :: multiset(pairs') == multiset(pairs) && Enumerates(order, Metrics(pairs')) ==>
         TickInRange(pairs', weights, order) {
      EveryOrderInRangeExactlyWhen(pairs, weights);
      FitsOrderParts(pairs, weights);
      forall k | k in Metrics(pairs) ensures EqualLengths(RowsOf(pairs, k)) {
        if !EqualLengths(RowsOf(pairs, k)) {
          var pairs' := UnequalCanArriveBadly(pairs, k);
          MetricsUnordered(pairs, pairs');
          EveryOrderInRangeExactlyWhen(pairs', weights);
          FitsOrderParts(pairs', weights);
        }
      }
    }
  }

  lemma FitsOrderParts(pairs: seq<Pair>, weights: map<string, int>)
    requires FitsEveryOrder(pairs, weights)
    ensures Stored(pairs, weights) != {}
    ensures forall k :: k in Metrics(pairs) ==> FirstIsLongest(RowsOf(pairs, k))
    ensures forall k :: k in Stored(pairs, weights) ==> |Stored(pairs, weights)| <= Width(RowsOf(pairs, k))
  {
  }

  // ---------------------------------------------------------------- when arrivals matter

  function Longest(rows: seq<seq<int>>): nat {
    if |rows| == 0 then 0
    else
      var last, above := |rows[|rows| - 1]|, Longest(rows[..|rows| - 1]);
      if last > above then last else above
  }

  lemma {:induction false} LongestIs(rows: seq<seq<int>>)
    ensures forall j :: 0 <= j < |rows| ==> |rows[j]| <= Longest(rows)
    ensures |rows| >= 1 ==> exists j :: 0 <= j < |rows| && |rows[j]| == Longest(rows)
  {
    if |rows| > 0 {
      var n := |rows| - 1;
      LongestIs(rows[..n]);
      if n > 0 && |rows[n]| <= Longest(rows[..n]) {
        var j :| 0 <= j < n && |rows[..n][j]| == Longest(rows[..n]);
        assert |rows[j]| == Longest(rows);
      } else {
        assert |rows[n]| == Longest(rows);
      }
    }
  }

  lemma LongestReordered(rows: seq<seq<int>>, rows': seq<seq<int>>)
    requires multiset(rows) == multiset(rows')
    ensures Longest(rows) == Longest(rows')
    ensures FirstIsLongest(rows') ==> Width(rows') == Longest(rows)
  {
    SameRows(rows, rows');
    LongestIs(rows);
    LongestIs(rows');
    if |rows| > 0 {
      var j :| 0 <= j < |rows| && |rows[j]| == Longest(rows);
      assert rows[j] in rows';
      var j' :| 0 <= j' < |rows'| && |rows'[j']| == Longest(rows');
      assert rows'[j'] in rows;
    }
  }

  /** Each metric of the order can have its longest row arrive first. */
  lemma {:induction false} LongestCanArriveFirst(pairs: seq<Pair>, order: seq<string>) returns (pairs': seq<Pair>)
    requires Distinct(order)
    ensures multiset(pairs') == multiset(pairs)
    ensures forall j :: 0 <= j < |order| ==> FirstIsLongest(RowsOf(pairs', order[j]))
    ensures forall k :: k !in order ==> RowsOf(pairs', k) == RowsOf(pairs, k)
  {
    pairs' := pairs;
    if |order| > 0 {
      hide RowsOf, GetNoModelKey, FirstIsLongest;
      var n := |order| - 1;
      assert order == order[..n] + [order[n]];
      var before := LongestCanArriveFirst(pairs, order[..n]);
      pairs' := LongestFirst(before, order[n]);
    }
  }

  lemma LongestFirst(pairs: seq<Pair>, k: string) returns (pairs': seq<Pair>)
    ensures multiset(pairs') == multiset(pairs) && FirstIsLongest(RowsOf(pairs', k))
    ensures forall other :: other != k ==> RowsOf(pairs', other) == RowsOf(pairs, other)
  {
    hide RowsOf, GetNoModelKey;
    var rows := RowsOf(pairs, k);
    pairs' := pairs;
    if |rows| > 0 {
      LongestIs(rows);
      var j :| 0 <= j < |rows| && |rows[j]| == Longest(rows);
      var i := RowComesFrom(pairs, k, j);
      pairs' := Earlier(pairs, i);
      forall other | other != k ensures RowsOf(pairs', other) == RowsOf(pairs, other) {
        EarlierRows(pairs, i, other);
      }
      EarlierRows(pairs, i, k);
      LongestReordered(rows, RowsOf(pairs', k));
      LongestIs(RowsOf(pairs', k));
    }
  }

  /** The longest rows of the stored metrics reach the diagonal. */
  ghost predicate LongestReach(pairs: seq<Pair>, weights: map<string, int>, order: seq<string>) {
    var stored := StoredOrder(weights, order);
    && 1 <= |stored| <= Longest(RowsOf(pairs, stored[0]))
    && forall g :: 0 <= g < |stored| ==> g < Longest(RowsOf(pairs, stored[g]))
  }

  lemma InRangeReaches(pairs: seq<Pair>, pairs': seq<Pair>, weights: map<string, int>, order: seq<string>)
    requires multiset(pairs') == multiset(pairs)
    requires forall j :: 0 <= j < |order| ==> FirstIsLongest(RowsOf(pairs', order[j]))
    ensures TickInRange(pairs', weights, order) <==> LongestReach(pairs, weights, order)
  {
    hide RowsOf, FirstIsLongest, Width, Longest, StoredOrder;
    var stored := StoredOrder(weights, order);
    forall g | 0 <= g < |stored| ensures Width(RowsOf(pairs', stored[g])) == Longest(RowsOf(pairs, stored[g])) {
      assert stored[g] in stored && stored[g] in order;
      GroupsFollowArrivals(pairs, pairs', stored[g]);
      LongestReordered(RowsOf(pairs, stored[g]), RowsOf(pairs', stored[g]));
    }
  }

  /** For an order of the metrics, some arrival is in range exactly when the longest rows reach. */
  lemma SomeArrivalInRangeExactlyWhen(pairs: seq<Pair>, weights: map<string, int>, order: seq<string>)
    requires Distinct(order)
    ensures (exists pairs' :: multiset(pairs') == multiset(pairs) && TickInRange(pairs', weights, order))
       <==> LongestReach(pairs, weights, order)
  {
    hide RowsOf, Longest, StoredOrder, LongestReach, FirstIsLongest;
    if pairs' :| multiset(pairs') == multiset(pairs) && TickInRange(pairs', weights, order) {
      InRangeReaches(pairs, pairs', weights, order);
    }
    if LongestReach(pairs, weights, order) {
      var pairs' := LongestCanArriveFirst(pairs, order);
      InRangeReaches(pairs, pairs', weights, order);
    }
  }

  ghost predicate LevelOn(pairs: seq<Pair>, order: seq<string>) {
    forall j :: 0 <= j < |order| ==> EqualLengths(RowsOf(pairs, order[j]))
  }

  /** The order of arrival never reaches the target exactly when the rows of each metric have one
      length, or no arrival is in range anyway. */
  lemma TargetUnorderedExactlyWhen(pairs: seq<Pair>, weights: map<string, int>, order: seq<string>)
    requires Distinct(order)
    ensures (forall pairs' :: multiset(pairs') == multiset(pairs) ==>
               TickTarget(pairs', weights, order) == TickTarget(pairs, weights, order))
       <==> LevelOn(pairs, order) || !LongestReach(pairs, weights, order)
  {
    hide RowsOf, EqualLengths, TickTarget, LongestReach, FirstIsLongest;
    SomeArrivalInRangeExactlyWhen(pairs, weights, order);
    if LevelOn(pairs, order) {
      forall pairs' | multiset(pairs') == multiset(pairs)
        ensures TickTarget(pairs', weights, order) == TickTarget(pairs, weights, order)
      {
        TargetIgnoresArrivals(pairs, pairs', weights, order);
      }
    } else if LongestReach(pairs, weights, order) {
      var good :| multiset(good) == multiset(pairs) && TickInRange(good, weights, order);
      var j :| 0 <= j < |order| && !EqualLengths(RowsOf(pairs, order[j]));
      var bad := UnequalCanArriveBadly(pairs, order[j]);
      BadArrival(bad, weights, order, j);
      TickOkExactlyWhen(good, weights, order);
      TickOkExactlyWhen(bad, weights, order);
    } else {
      forall pairs' | multiset(pairs') == multiset(pairs) ensures TickTarget(pairs', weights, order) == Panicked {
        TickOkExactlyWhen(pairs', weights, order);
        OkOrPanicked(pairs', weights, order);
      }
    }
  }

  lemma BadArrival(pairs: seq<Pair>, weights: map<string, int>, order: seq<string>, j: nat)
    requires j < |order| && !FirstIsLongest(RowsOf(pairs, order[j]))
    ensures !TickInRange(pairs, weights, order)
  {
  }

  lemma OkOrPanicked(pairs: seq<Pair>, weights: map<string, int>, order: seq<string>)
    ensures !TickTarget(pairs, weights, order).Failed?
  {
    hide TickGroups, WeightedRows, MaxRows, RowsOf;
  }
}
