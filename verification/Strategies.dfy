/** From predictions to a replica target (scaler/strategy.go, utils/common.go,
    scheduler/scheduler.go:145-169): the loops, and the functions they compute. */
module Strategies {
  import opened Domain

  // ---------------------------------------------------------------- int32

  const MIN_INT32: int := -0x8000_0000
  const MAX_INT32: int := 0x7fff_ffff

  predicate IsInt32(n: int) {
    MIN_INT32 <= n <= MAX_INT32
  }

  /** Two's-complement wrap-around to 32 bits. */
  function Wrap(n: int): (r: int)
    ensures IsInt32(r) && (IsInt32(n) ==> r == n)
    ensures (r - n) % 0x1_0000_0000 == 0
  {
    (n - MIN_INT32) % 0x1_0000_0000 + MIN_INT32
  }

  /** Go's integer division by 100, which truncates towards zero. */
  function Percent(n: int): (r: int)
    ensures if n >= 0 then 0 <= n - 100 * r < 100 else -100 < n - 100 * r <= 0
  {
    if n >= 0 then n / 100 else -(-n / 100)
  }

  function Larger(a: int, b: int): int {
    if a > b then a else b
  }

  // ---------------------------------------------------------------- one model

  /** math.Ceil */
  function Ceil(r: real): int {
    if r.Floor as real == r then r.Floor else r.Floor + 1
  }

  /** The replicas that keep the metric under `target` when it reads `m`. */
  function Replicas(target: real, m: real): int
    requires target != 0.0
  {
    if m < 0.0 then 0 else Ceil(m / target)
  }

  function ReplicaRow(target: real, predictions: seq<real>): (r: seq<int>)
    requires target != 0.0
    ensures |r| == |predictions|
  {
    seq(|predictions|, i requires 0 <= i < |predictions| => Replicas(target, predictions[i]))
  }

  type int32 = n: int | IsInt32(n)

  /** `unfit(i)` is what the implementation makes of quotient `i` if no int32 can hold it, which the
      Go specification leaves open: too large, or not a number because the target is zero. */
  method UnderThreshold(target: real, predictions: seq<real>, unfit: nat -> int32) returns (res: seq<int32>)
    ensures |res| == |predictions|
    ensures forall i :: 0 <= i < |res| && predictions[i] < 0.0 ==> res[i] == 0
    ensures forall i :: 0 <= i < |res| && predictions[i] >= 0.0 ==>
              res[i] == if target != 0.0 && IsInt32(Replicas(target, predictions[i]))
                        then Replicas(target, predictions[i]) else unfit(i)
    ensures target != 0.0 && (forall i :: 0 <= i < |predictions| ==> IsInt32(Replicas(target, predictions[i])))
            ==> res == ReplicaRow(target, predictions)
  {
    res := [];
    for i := 0 to |predictions|
      invariant |res| == i
      invariant forall k :: 0 <= k < i && predictions[k] < 0.0 ==> res[k] == 0
      invariant forall k :: 0 <= k < i && predictions[k] >= 0.0 ==>
                  res[k] == if target != 0.0 && IsInt32(Replicas(target, predictions[k]))
                            then Replicas(target, predictions[k]) else unfit(k)
    {
      var m := predictions[i];
      if m < 0.0 {
        res := res + [0];
      } else if target == 0.0 {
        res := res + [unfit(i)];
      } else {
        var quotient := Ceil(m / target);
        res := res + [if IsInt32(quotient) then quotient else unfit(i)];
      }
    }
  }

  // ---------------------------------------------------------------- one metric

  /** The largest entry of column `i`, or zero; rows too short for the column do not count. */
  function ColumnMax(rows: seq<seq<int>>, i: nat): int {
    if |rows| == 0 then 0
    else
      var last, above := rows[|rows| - 1], ColumnMax(rows[..|rows| - 1], i);
      if i < |last| then Larger(last[i], above) else above
  }

  predicate FirstIsLongest(rows: seq<seq<int>>) {
    forall j :: 0 <= j < |rows| ==> |rows[j]| <= |rows[0]|
  }

  /** MaxStrategy: sized by the first row, so a longer row is out of range. */
  function MaxRows(rows: seq<seq<int>>): Outcome<seq<int>> {
    if |rows| == 0 then Ok([])
    else if !FirstIsLongest(rows) then Panicked
    else Ok(seq(|rows[0]|, i requires i >= 0 => ColumnMax(rows, i)))
  }

  method MaxStrategy(rows: seq<seq<int>>) returns (r: Outcome<seq<int>>)
    ensures r == MaxRows(rows)
  {
    if |rows| == 0 {
      return Ok([]);
    }
    var res := new int[|rows[0]|](_ => 0);
    for j := 0 to |rows|
      invariant forall k :: 0 <= k < j ==> |rows[k]| <= |rows[0]|
      invariant forall i :: 0 <= i < res.Length ==> res[i] == ColumnMax(rows[..j], i)
    {
      var row := rows[j];
      if |row| > res.Length {
        return Panicked;
      }
      ghost var before := res[..];
      for i := 0 to |row|
        invariant forall k :: 0 <= k < i ==> res[k] == Larger(row[k], before[k])
        invariant forall k :: i <= k < res.Length ==> res[k] == before[k]
      {
        res[i] := Larger(row[i], res[i]);
      }
      assert rows[..j + 1][..j] == rows[..j];
    }
    assert rows[..|rows|] == rows;
    assert res[..] == MaxRows(rows).value;
    r := Ok(res[..]);
  }

  // ---------------------------------------------------------------- all metrics

  function Scaled(weight: int, row: seq<int>): (r: seq<int>)
    ensures |r| == |row|
  {
    seq(|row|, i requires 0 <= i < |row| => Wrap(weight * row[i]))
  }

  method MulSlice(weight: int, nums: array<int>)
    modifies nums
    ensures nums[..] == Scaled(weight, old(nums[..]))
  {
    for i := 0 to nums.Length
      invariant forall k :: 0 <= k < i ==> nums[k] == Wrap(weight * old(nums[k]))
      invariant forall k :: i <= k < nums.Length ==> nums[k] == old(nums[k])
    {
      nums[i] := Wrap(weight * nums[i]);
    }
  }

  /** AddSlice stays in range: there is a first row, it is as long as there are rows, and row
      `i` reaches column `i`. */
  predicate DiagonalInRange(rows: seq<seq<int>>) {
    |rows| >= 1 && |rows| <= |rows[0]| && forall i :: 0 <= i < |rows| ==> i < |rows[i]|
  }

  /** AddSlice as written: entry `i` of the result receives entry `i` of row `i` only. */
  function Diagonal(rows: seq<seq<int>>): Outcome<seq<int>> {
    if !DiagonalInRange(rows) then Panicked
    else Ok(seq(|rows[0]|, i requires i >= 0 => if i < |rows| then Wrap(rows[i][i]) else 0))
  }

  method AddSlice(nums: seq<seq<int>>) returns (r: Outcome<seq<int>>)
    ensures r == Diagonal(nums)
  {
    if |nums| == 0 {
      return Panicked;
    }
    var res := new int[|nums[0]|](_ => 0);
    for i := 0 to |nums|
      invariant i <= res.Length && forall k :: 0 <= k < i ==> k < |nums[k]|
      invariant forall k :: 0 <= k < i ==> res[k] == Wrap(nums[k][k])
      invariant forall k :: i <= k < res.Length ==> res[k] == 0
    {
      if i >= res.Length || i >= |nums[i]| {
        return Panicked;
      }
      res[i] := Wrap(res[i] + nums[i][i]);
    }
    assert res[..] == Diagonal(nums).value;
    r := Ok(res[..]);
  }

  /** The largest of a non-empty list. */
  ghost predicate IsMax(x: seq<int>, m: int) {
    m in x && forall i :: 0 <= i < |x| ==> x[i] <= m
  }

  function MaxOf(x: seq<int>): (m: int)
    requires |x| >= 1
    ensures IsMax(x, m)
  {
    if |x| == 1 then x[0]
    else
      var m := MaxOf(x[..|x| - 1]);
      assert forall k :: k in x <==> k in x[..|x| - 1] || k == x[|x| - 1];
      if x[|x| - 1] > m then x[|x| - 1] else m
  }

  /** utils.Max, behind SelectMax. */
  method Max(x: seq<int>) returns (r: Outcome<int>)
    ensures r == if |x| == 0 then Panicked else Ok(MaxOf(x))
  {
    if |x| == 0 {
      return Panicked;
    }
    var max := x[0];
    for i := 1 to |x|
      invariant max == MaxOf(x[..i])
    {
      assert x[..i + 1][..i] == x[..i];
      if x[i] > max {
        max := x[i];
      }
    }
    assert x[..|x|] == x;
    r := Ok(max);
  }

  // ---------------------------------------------------------------- the tick

  /** One metric of a tick: its weight and the replica row of each of its models. */
  datatype Group = Group(weight: int, rows: seq<seq<int>>)

  /** The weighted row of each metric, in the order the metrics are visited. */
  function WeightedRows(groups: seq<Group>): Outcome<seq<seq<int>>> {
    if |groups| == 0 then Ok([])
    else
      var last := groups[|groups| - 1];
      match (WeightedRows(groups[..|groups| - 1]), MaxRows(last.rows))
      case (Ok(above), Ok(row)) => Ok(above + [Scaled(last.weight, row)])
      case _ => Panicked
  }

  /** The replica target of a tick. */
  function Target(groups: seq<Group>): Outcome<int> {
    match WeightedRows(groups)
    case Ok(rows) =>
      (match Diagonal(rows)
       case Ok(objSet) => if |objSet| == 0 then Panicked else Ok(Percent(MaxOf(objSet)))
       case _ => Panicked)
    case _ => Panicked
  }

  method WeightRow(group: Group) returns (r: Outcome<seq<int>>)
    ensures r == match MaxRows(group.rows)
                 case Ok(row) => Ok(Scaled(group.weight, row))
                 case _ => Panicked
  {
    var metricReplica := MaxStrategy(group.rows);
    if !metricReplica.Ok? {
      return Panicked;
    }
    var row := metricReplica.value;
    var nums := new int[|row|](i requires 0 <= i < |row| => row[i]);
    assert nums[..] == row;
    MulSlice(group.weight, nums);
    r := Ok(nums[..]);
  }

  lemma {:induction false} PanicStays(groups: seq<Group>, k: nat)
    requires k <= |groups| && !WeightedRows(groups[..k]).Ok?
    ensures WeightedRows(groups) == Panicked
  {
    if k < |groups| {
      assert groups[..|groups| - 1][..k] == groups[..k];
      PanicStays(groups[..|groups| - 1], k);
    } else {
      assert groups[..k] == groups;
    }
  }

  method ComputeTarget(groups: seq<Group>) returns (r: Outcome<int>)
    ensures r == Target(groups)
  {
    hide MaxRows, Scaled, Diagonal;
    var mReplicas := [];
    for j := 0 to |groups|
      invariant WeightedRows(groups[..j]) == Ok(mReplicas)
    {
      assert groups[..j + 1][..j] == groups[..j];
      var row := WeightRow(groups[j]);
      if !row.Ok? {
        PanicStays(groups, j + 1);
        return Panicked;
      }
      mReplicas := mReplicas + [row.value];
    }
    assert groups[..|groups|] == groups;
    var objSet := AddSlice(mReplicas);
    if !objSet.Ok? {
      return Panicked;
    }
    var target := Max(objSet.value);
    if !target.Ok? {
      return Panicked;
    }
    r := Ok(Percent(target.value));
  }
}
