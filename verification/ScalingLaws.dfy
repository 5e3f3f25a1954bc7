/** What the scaling pipeline guarantees: counts are least, converting and taking the maximum
    commute, when row order matters, how far the diagonal sum is from the column sum, that the
    weighted column sum is an average, and that the target is monotone and exact in int32. */
module ScalingLaws {
  import opened Domain
  import opened Strategies

  // ---------------------------------------------------------------- counts

  lemma CeilIsLeast(r: real, k: int)
    ensures k as real >= r <==> k >= Ceil(r)
  {
  }

  /** Whatever the sign of the target, a count is its quotient rounded up. */
  lemma ReplicasRoundUp(target: real, m: real, k: int)
    requires target != 0.0 && m >= 0.0
    ensures k as real >= m / target <==> k >= Replicas(target, m)
  {
    CeilIsLeast(m / target, k);
  }

  lemma QuotientBelow(m: real, target: real, k: int)
    requires target > 0.0
    ensures k as real >= m / target <==> k as real * target >= m
  {
    var q := m / target;
    assert q * target == m;
    assert (k as real - q) * target == k as real * target - m;
    if k as real >= q {
      assert (k as real - q) * target >= 0.0;
    } else {
      assert (q - k as real) * target > 0.0;
    }
  }

  /** The count is the least number of replicas whose joint capacity covers the prediction. */
  lemma ReplicasAreLeast(target: real, m: real, k: nat)
    requires target > 0.0
    ensures k as real * target >= m <==> k >= Replicas(target, m)
    ensures Replicas(target, m) >= 0
  {
    if m >= 0.0 {
      QuotientBelow(m, target, k);
      CeilIsLeast(m / target, k);
      QuotientBelow(m, target, -1);
      CeilIsLeast(m / target, -1);
    }
  }

  lemma ReplicasMonotone(target: real, m: real, m': real)
    requires target > 0.0 && m <= m'
    ensures Replicas(target, m) <= Replicas(target, m')
  {
    ReplicasAreLeast(target, m', 0);
    ReplicasAreLeast(target, m', Replicas(target, m'));
    ReplicasAreLeast(target, m, Replicas(target, m'));
  }

  // ---------------------------------------------------------------- convert, then maximise

  function LargerReal(a: real, b: real): real {
    if a > b then a else b
  }

  ghost predicate EqualLengths<T>(rows: seq<seq<T>>) {
    forall j, k :: 0 <= j < |rows| && 0 <= k < |rows| ==> |rows[j]| == |rows[k]|
  }

  /** The largest prediction of column `i`. */
  function PeakAt(predictions: seq<seq<real>>, i: nat): real
    requires |predictions| >= 1 && forall j :: 0 <= j < |predictions| ==> i < |predictions[j]|
  {
    var n := |predictions| - 1;
    if n == 0 then predictions[0][i]
    else LargerReal(predictions[n][i], PeakAt(predictions[..n], i))
  }

  function Peak(predictions: seq<seq<real>>): (r: seq<real>)
    requires |predictions| >= 1 && EqualLengths(predictions)
    ensures |r| == |predictions[0]|
  {
    seq(|predictions[0]|, i requires 0 <= i < |predictions[0]| => PeakAt(predictions, i))
  }

  function ReplicaRows(target: real, predictions: seq<seq<real>>): (r: seq<seq<int>>)
    requires target != 0.0
    ensures |r| == |predictions|
    ensures forall j :: 0 <= j < |r| ==> r[j] == ReplicaRow(target, predictions[j])
  {
    seq(|predictions|, j requires 0 <= j < |predictions| => ReplicaRow(target, predictions[j]))
  }

  lemma {:induction false} ColumnMaxOfCounts(target: real, predictions: seq<seq<real>>, i: nat)
    requires target > 0.0 && |predictions| >= 1
    requires forall j :: 0 <= j < |predictions| ==> i < |predictions[j]|
    ensures ColumnMax(ReplicaRows(target, predictions), i) == Replicas(target, PeakAt(predictions, i))
  {
    hide Replicas;
    var n := |predictions| - 1;
    var rows := ReplicaRows(target, predictions);
    var m := predictions[n][i];
    assert rows[..n] == ReplicaRows(target, predictions[..n]);
    ReplicasAreLeast(target, m, 0);
    if n == 0 {
      assert ColumnMax(rows[..0], i) == 0;
    } else {
      ColumnMaxOfCounts(target, predictions[..n], i);
      var above := PeakAt(predictions[..n], i);
      if m > above {
        ReplicasMonotone(target, above, m);
      } else {
        ReplicasMonotone(target, m, above);
      }
    }
  }

  /** Taking the maximum of the replica rows is the same as converting the peak prediction. */
  lemma ConversionCommutesWithMax(target: real, predictions: seq<seq<real>>)
    requires target > 0.0 && |predictions| >= 1 && EqualLengths(predictions)
    ensures MaxRows(ReplicaRows(target, predictions)) == Ok(ReplicaRow(target, Peak(predictions)))
  {
    hide Replicas;
    var rows := ReplicaRows(target, predictions);
    assert FirstIsLongest(rows);
    forall i | 0 <= i < |predictions[0]|
      ensures ColumnMax(rows, i) == Replicas(target, Peak(predictions)[i])
    {
      ColumnMaxOfCounts(target, predictions, i);
    }
    assert MaxRows(rows).value == ReplicaRow(target, Peak(predictions));
  }

  // ---------------------------------------------------------------- row order

  /** `c` is the column maximum: an upper bound, reached unless it is zero. */
  ghost predicate IsColumnMax(rows: seq<seq<int>>, i: nat, c: int) {
    && c >= 0
    && (forall j :: 0 <= j < |rows| && i < |rows[j]| ==> rows[j][i] <= c)
    && (c == 0 || exists j :: 0 <= j < |rows| && i < |rows[j]| && rows[j][i] == c)
  }

  lemma {:induction false} ColumnMaxIsMax(rows: seq<seq<int>>, i: nat)
    ensures IsColumnMax(rows, i, ColumnMax(rows, i))
  {
    if |rows| > 0 {
      var n := |rows| - 1;
      ColumnMaxIsMax(rows[..n], i);
      var above := ColumnMax(rows[..n], i);
      if above != 0 {
        var j :| 0 <= j < n && i < |rows[..n][j]| && rows[..n][j][i] == above;
        assert rows[j][i] == above;
      }
    }
  }

  lemma SameRows(rows: seq<seq<int>>, rows': seq<seq<int>>)
    requires multiset(rows) == multiset(rows')
    ensures |rows| == |rows'|
    ensures forall row :: row in rows <==> row in rows'
  {
    assert |multiset(rows)| == |rows| && |multiset(rows')| == |rows'|;
    forall row ensures row in rows <==> row in rows' {
      assert row in rows <==> row in multiset(rows);
      assert row in rows' <==> row in multiset(rows');
    }
  }

  lemma ColumnMaxUnordered(rows: seq<seq<int>>, rows': seq<seq<int>>, i: nat)
    requires forall row :: row in rows <==> row in rows'
    ensures ColumnMax(rows, i) == ColumnMax(rows', i)
  {
    ColumnMaxBelow(rows, rows', i);
    ColumnMaxBelow(rows', rows, i);
  }

  lemma ColumnMaxBelow(rows: seq<seq<int>>, rows': seq<seq<int>>, i: nat)
    requires forall row :: row in rows ==> row in rows'
    ensures ColumnMax(rows, i) <= ColumnMax(rows', i)
  {
    ColumnMaxIsMax(rows, i);
    ColumnMaxIsMax(rows', i);
    var c := ColumnMax(rows, i);
    if c != 0 {
      var j :| 0 <= j < |rows| && i < |rows[j]| && rows[j][i] == c;
      assert rows[j] in rows;
      var j' :| 0 <= j' < |rows'| && rows'[j'] == rows[j];
    }
  }

  lemma EqualLengthsUnordered(rows: seq<seq<int>>, rows': seq<seq<int>>)
    requires EqualLengths(rows) && multiset(rows) == multiset(rows')
    ensures MaxRows(rows') == MaxRows(rows)
  {
    SameRows(rows, rows');
    if |rows| > 0 {
      forall j | 0 <= j < |rows'| ensures |rows'[j]| == |rows[0]| {
        assert rows'[j] in rows';
      }
      forall i | 0 <= i < |rows[0]| ensures ColumnMax(rows', i) == ColumnMax(rows, i) {
        ColumnMaxUnordered(rows, rows', i);
      }
      assert MaxRows(rows').value == MaxRows(rows).value;
    }
  }

  function ToFront(rows: seq<seq<int>>, k: nat): seq<seq<int>>
    requires k < |rows|
  {
    [rows[k]] + rows[..k] + rows[k + 1..]
  }

  lemma ToFrontReorders(rows: seq<seq<int>>, k: nat)
    requires k < |rows|
    ensures multiset(ToFront(rows, k)) == multiset(rows)
  {
    assert rows == rows[..k] + [rows[k]] + rows[k + 1..];
  }

  lemma {:induction false} LongestRow(rows: seq<seq<int>>) returns (k: nat)
    requires |rows| >= 1
    ensures k < |rows| && forall j :: 0 <= j < |rows| ==> |rows[j]| <= |rows[k]|
  {
    k := 0;
    if |rows| > 1 {
      var n := |rows| - 1;
      k := LongestRow(rows[..n]);
      assert forall j :: 0 <= j < n ==> rows[..n][j] == rows[j];
      if |rows[n]| > |rows[k]| {
        k := n;
      }
    }
  }

  /** Rows of unequal lengths always have an order that ends differently: the longest first is
      in range, a shorter one first is not. */
  lemma UnequalLengthsOrdered(rows: seq<seq<int>>) returns (rows': seq<seq<int>>)
    requires !EqualLengths(rows)
    ensures multiset(rows') == multiset(rows) && MaxRows(rows') != MaxRows(rows)
  {
    if FirstIsLongest(rows) {
      var j, k :| 0 <= j < |rows| && 0 <= k < |rows| && |rows[j]| != |rows[k]|;
      var short := if |rows[j]| < |rows[k]| then j else k;
      assert |rows[short]| < |rows[0]|;
      rows' := ToFront(rows, short);
      ToFrontReorders(rows, short);
      assert rows'[1] == rows[0];
      assert !FirstIsLongest(rows');
    } else {
      var k := LongestRow(rows);
      rows' := ToFront(rows, k);
      ToFrontReorders(rows, k);
      forall j | 0 <= j < |rows'| ensures |rows'[j]| <= |rows'[0]| {
        assert rows'[j] == rows[if j == 0 then k else if j <= k then j - 1 else j];
      }
    }
  }

  /** The order in which model rows arrive on the channel is irrelevant exactly when they all
      have one length. */
  lemma MaxUnorderedExactlyForEqualLengths(rows: seq<seq<int>>)
    ensures EqualLengths(rows)
       <==> forall rows' :: multiset(rows') == multiset(rows) ==> MaxRows(rows') == MaxRows(rows)
  {
    if EqualLengths(rows) {
      forall rows' | multiset(rows') == multiset(rows) ensures MaxRows(rows') == MaxRows(rows) {
        EqualLengthsUnordered(rows, rows');
      }
    } else {
      var rows' := UnequalLengthsOrdered(rows);
    }
  }

  // ---------------------------------------------------------------- summing metrics

  ghost predicate Table(rows: seq<seq<int>>, w: nat) {
    forall j :: 0 <= j < |rows| ==> |rows[j]| == w
  }

  ghost predicate NonNegative(rows: seq<seq<int>>) {
    forall j, i :: 0 <= j < |rows| && 0 <= i < |rows[j]| ==> rows[j][i] >= 0
  }

  /** The sum AddSlice stands for: all rows at column `i`. */
  function ColumnSum(rows: seq<seq<int>>, i: nat): int
    requires forall j :: 0 <= j < |rows| ==> i < |rows[j]|
  {
    if |rows| == 0 then 0 else ColumnSum(rows[..|rows| - 1], i) + rows[|rows| - 1][i]
  }

  lemma {:induction false} ColumnSumZero(rows: seq<seq<int>>, i: nat)
    requires forall j :: 0 <= j < |rows| ==> i < |rows[j]| && rows[j][i] >= 0
    ensures ColumnSum(rows, i) >= 0
    ensures ColumnSum(rows, i) == 0 <==> forall j :: 0 <= j < |rows| ==> rows[j][i] == 0
  {
    if |rows| > 0 {
      var n := |rows| - 1;
      assert forall j :: 0 <= j < n ==> rows[..n][j] == rows[j];
      ColumnSumZero(rows[..n], i);
    }
  }

  /** A non-negative column sums to at least each entry, and to just one entry exactly when
      the others are zero. */
  lemma EntryBelowColumnSum(rows: seq<seq<int>>, i: nat, k: nat)
    requires k < |rows| && forall j :: 0 <= j < |rows| ==> i < |rows[j]| && rows[j][i] >= 0
    ensures rows[k][i] <= ColumnSum(rows, i)
    ensures rows[k][i] == ColumnSum(rows, i) <==> forall j :: 0 <= j < |rows| && j != k ==> rows[j][i] == 0
  {
    hide ColumnSum, Without;
    ColumnSumWithout(rows, i, k);
    WithoutIs(rows, i, k);
    ColumnSumZero(Without(rows, k), i);
  }

  lemma WithoutIs(rows: seq<seq<int>>, i: nat, k: nat)
    requires k < |rows| && forall j :: 0 <= j < |rows| ==> i < |rows[j]| && rows[j][i] >= 0
    ensures var others := Without(rows, k);
            && (forall j :: 0 <= j < |others| ==> i < |others[j]| && others[j][i] >= 0)
            && ((forall j :: 0 <= j < |others| ==> others[j][i] == 0)
                <==> forall j :: 0 <= j < |rows| && j != k ==> rows[j][i] == 0)
  {
    var others := Without(rows, k);
    assert forall j :: 0 <= j < |others| ==> others[j] == rows[if j < k then j else j + 1];
    if forall j :: 0 <= j < |others| ==> others[j][i] == 0 {
      forall j | 0 <= j < |rows| && j != k ensures rows[j][i] == 0 {
        assert others[if j < k then j else j - 1] == rows[j];
      }
    }
  }

  ghost predicate OffDiagonalZero(rows: seq<seq<int>>, i: nat)
    requires forall j :: 0 <= j < |rows| ==> i < |rows[j]|
  {
    forall j :: 0 <= j < |rows| && j != i ==> rows[j][i] == 0
  }

  /** AddSlice falls short of the column sum in exactly the columns that hold something off
      the diagonal. */
  lemma DiagonalFallsShort(rows: seq<seq<int>>, w: nat, i: nat)
    requires Table(rows, w) && NonNegative(rows) && 1 <= |rows| <= w && i < w
    requires forall j, k :: 0 <= j < |rows| && 0 <= k < w ==> IsInt32(rows[j][k])
    ensures Diagonal(rows).Ok? && |Diagonal(rows).value| == w
    ensures Diagonal(rows).value[i] <= ColumnSum(rows, i)
    ensures Diagonal(rows).value[i] == ColumnSum(rows, i) <==> OffDiagonalZero(rows, i)
  {
    if i < |rows| {
      EntryBelowColumnSum(rows, i, i);
    } else {
      ColumnSumZero(rows, i);
    }
  }

  lemma {:induction false} ColumnSumSplit(rows: seq<seq<int>>, more: seq<seq<int>>, i: nat)
    requires forall j :: 0 <= j < |rows| ==> i < |rows[j]|
    requires forall j :: 0 <= j < |more| ==> i < |more[j]|
    ensures ColumnSum(rows + more, i) == ColumnSum(rows, i) + ColumnSum(more, i)
  {
    if |more| == 0 {
      assert rows + more == rows;
    } else {
      var n := |more| - 1;
      ColumnSumSplit(rows, more[..n], i);
      assert (rows + more)[..|rows| + n] == rows + more[..n];
    }
  }

  function Without<T>(s: seq<T>, k: nat): (r: seq<T>)
    requires k < |s|
    ensures forall x :: x in r ==> x in s
  {
    s[..k] + s[k + 1..]
  }

  lemma ColumnSumWithout(rows: seq<seq<int>>, i: nat, k: nat)
    requires k < |rows| && forall row :: row in rows ==> i < |row|
    ensures ColumnSum(rows, i) == ColumnSum(Without(rows, k), i) + rows[k][i]
    ensures multiset(Without(rows, k)) == multiset(rows) - multiset{rows[k]}
  {
    var one := [rows[k]];
    assert rows == (rows[..k] + one) + rows[k + 1..];
    ColumnSumSplit(rows[..k] + one, rows[k + 1..], i);
    ColumnSumSplit(rows[..k], one, i);
    ColumnSumSplit(rows[..k], rows[k + 1..], i);
    assert one[..0] == [];
    assert multiset(rows) == multiset(Without(rows, k)) + multiset{rows[k]};
  }

  /** The column sum does not depend on the order in which the metrics are visited. */
  lemma {:induction false} ColumnSumUnordered(rows: seq<seq<int>>, rows': seq<seq<int>>, i: nat)
    requires multiset(rows) == multiset(rows')
    requires forall row :: row in rows ==> i < |row|
    ensures forall row :: row in rows' ==> i < |row|
    ensures ColumnSum(rows, i) == ColumnSum(rows', i)
    decreases |rows|
  {
    SameRows(rows, rows');
    if |rows| > 0 {
      var n := |rows| - 1;
      assert rows[n] in rows';
      var k :| 0 <= k < |rows'| && rows'[k] == rows[n];
      ColumnSumWithout(rows, i, n);
      ColumnSumWithout(rows', i, k);
      ColumnSumUnordered(Without(rows, n), Without(rows', k), i);
    }
  }

  /** The metrics agree on the columns AddSlice reads. */
  ghost predicate AgreeOnDiagonal(rows: seq<seq<int>>, w: nat)
    requires Table(rows, w) && |rows| <= w
  {
    forall i, j :: 0 <= i < |rows| && 0 <= j < |rows| ==> rows[j][i] == rows[i][i]
  }

  lemma SwapReorders(rows: seq<seq<int>>, i: nat, j: nat)
    requires i < |rows| && j < |rows|
    ensures multiset(rows[i := rows[j]][j := rows[i]]) == multiset(rows)
  {
  }

  lemma TableUnorderedExactlyWhen(rows: seq<seq<int>>, w: nat)
    requires Table(rows, w) && 1 <= |rows| <= w
    requires forall j, k :: 0 <= j < |rows| && 0 <= k < w ==> IsInt32(rows[j][k])
    ensures AgreeOnDiagonal(rows, w)
       <==> forall rows' :: multiset(rows') == multiset(rows) ==> Diagonal(rows') == Diagonal(rows)
  {
    if AgreeOnDiagonal(rows, w) {
      forall rows' | multiset(rows') == multiset(rows) ensures Diagonal(rows') == Diagonal(rows) {
        DiagonalUnordered(rows, rows', w);
      }
    } else {
      var i, j :| 0 <= i < |rows| && 0 <= j < |rows| && rows[j][i] != rows[i][i];
      var rows' := rows[i := rows[j]][j := rows[i]];
      SwapReorders(rows, i, j);
      assert rows'[i] == rows[j] && Table(rows', w);
      assert Diagonal(rows').value[i] != Diagonal(rows).value[i];
    }
  }

  lemma DiagonalUnordered(rows: seq<seq<int>>, rows': seq<seq<int>>, w: nat)
    requires Table(rows, w) && 1 <= |rows| <= w && AgreeOnDiagonal(rows, w)
    requires multiset(rows') == multiset(rows)
    ensures Diagonal(rows') == Diagonal(rows)
  {
    SameRows(rows, rows');
    forall j | 0 <= j < |rows'| ensures |rows'[j]| == w {
      assert rows'[j] in rows;
    }
    forall i | 0 <= i < |rows| ensures rows'[i][i] == rows[i][i] {
      assert rows'[i] in rows;
      var j :| 0 <= j < |rows| && rows[j] == rows'[i];
    }
    assert Diagonal(rows').value == Diagonal(rows).value;
  }

  // ---------------------------------------------------------------- lengths that fit in some order

  /** How many rows have at most `t` entries. */
  function Short(rows: seq<seq<int>>, t: nat): nat {
    if |rows| == 0 then 0 else Short(rows[..|rows| - 1], t) + if |rows[|rows| - 1]| <= t then 1 else 0
  }

  lemma {:induction false} ShortSplit(rows: seq<seq<int>>, more: seq<seq<int>>, t: nat)
    ensures Short(rows + more, t) == Short(rows, t) + Short(more, t)
  {
    if |more| == 0 {
      assert rows + more == rows;
    } else {
      var n := |more| - 1;
      ShortSplit(rows, more[..n], t);
      assert (rows + more)[..|rows| + n] == rows + more[..n];
    }
  }

  lemma ShortWithout(rows: seq<seq<int>>, t: nat, k: nat)
    requires k < |rows|
    ensures Short(rows, t) == Short(Without(rows, k), t) + if |rows[k]| <= t then 1 else 0
    ensures multiset(rows) == multiset(Without(rows, k)) + multiset{rows[k]}
    ensures multiset(Without(rows, k)) == multiset(rows) - multiset{rows[k]}
  {
    var one := [rows[k]];
    assert rows == (rows[..k] + one) + rows[k + 1..];
    ShortSplit(rows[..k] + one, rows[k + 1..], t);
    ShortSplit(rows[..k], one, t);
    ShortSplit(rows[..k], rows[k + 1..], t);
    assert one[..0] == [];
  }

  lemma {:induction false} ShortUnordered(rows: seq<seq<int>>, rows': seq<seq<int>>, t: nat)
    requires multiset(rows) == multiset(rows')
    ensures Short(rows, t) == Short(rows', t)
    decreases |rows|
  {
    SameRows(rows, rows');
    if |rows| > 0 {
      hide Without;
      var n := |rows| - 1;
      assert rows[n] in rows';
      var k :| 0 <= k < |rows'| && rows'[k] == rows[n];
      ShortWithout(rows, t, n);
      ShortWithout(rows', t, k);
      assert |multiset(Without(rows, n))| == |Without(rows, n)|;
      assert |multiset(rows)| == |rows|;
      ShortUnordered(Without(rows, n), Without(rows', k), t);
    }
  }

  lemma {:induction false} AllShort(rows: seq<seq<int>>, t: nat)
    ensures Short(rows, t) <= |rows|
    ensures Short(rows, t) == |rows| <==> forall j :: 0 <= j < |rows| ==> |rows[j]| <= t
  {
    if |rows| > 0 {
      AllShort(rows[..|rows| - 1], t);
    }
  }

  /** Some row is as long as there are rows, and for each lesser length there are fewer rows that
      short than the length. */
  ghost predicate LengthsFit(rows: seq<seq<int>>) {
    && (exists j :: 0 <= j < |rows| && |rows| <= |rows[j]|)
    && forall t: nat :: 1 <= t < |rows| ==> Short(rows, t) < t
  }

  /** In range, the rows of at most `t` entries stand at positions 1 to t - 1. */
  lemma {:induction false} ShortInRange(rows: seq<seq<int>>, t: nat, m: nat)
    requires DiagonalInRange(rows) && 1 <= t < |rows| && m <= |rows|
    ensures Short(rows[..m], t) <= if m == 0 then 0 else if m < t then m - 1 else t - 1
  {
    if m > 0 {
      ShortInRange(rows, t, m - 1);
      assert rows[..m][..m - 1] == rows[..m - 1];
    }
  }

  /** The longer a row the later it stands: `rest` fills positions 1 to |rest|. */
  lemma {:induction false} Arrange(rest: seq<seq<int>>) returns (order: seq<seq<int>>)
    requires forall t: nat :: 1 <= t <= |rest| ==> Short(rest, t) < t
    ensures multiset(order) == multiset(rest) && |order| == |rest|
    ensures forall j :: 0 <= j < |order| ==> |order[j]| > j + 1
    decreases |rest|
  {
    order := [];
    if |rest| > 0 {
      var n := |rest|;
      AllShort(rest, n);
      var k :| 0 <= k < n && |rest[k]| > n;
      forall t: nat | 1 <= t < n ensures Short(Without(rest, k), t) < t {
        ShortWithout(rest, t, k);
      }
      ShortWithout(rest, n, k);
      var most := Arrange(Without(rest, k));
      order := most + [rest[k]];
    }
  }

  lemma InRangeFits(rows: seq<seq<int>>)
    requires DiagonalInRange(rows)
    ensures LengthsFit(rows)
  {
    forall t: nat | 1 <= t < |rows| ensures Short(rows, t) < t {
      ShortInRange(rows, t, |rows|);
      assert rows[..|rows|] == rows;
    }
  }

  lemma FitUnordered(rows: seq<seq<int>>, rows': seq<seq<int>>)
    requires multiset(rows) == multiset(rows') && LengthsFit(rows)
    ensures LengthsFit(rows')
  {
    SameRows(rows, rows');
    var j :| 0 <= j < |rows| && |rows| <= |rows[j]|;
    assert rows[j] in rows';
    forall t: nat | 1 <= t < |rows'| ensures Short(rows', t) < t {
      ShortUnordered(rows, rows', t);
    }
  }

  lemma FitArranged(rows: seq<seq<int>>) returns (rows': seq<seq<int>>)
    requires LengthsFit(rows)
    ensures multiset(rows') == multiset(rows) && DiagonalInRange(rows')
  {
    hide Short, Without;
    var j :| 0 <= j < |rows| && |rows| <= |rows[j]|;
    ShortWithout(rows, 0, j);
    assert |multiset(Without(rows, j))| == |Without(rows, j)| && |multiset(rows)| == |rows|;
    forall t: nat | 1 <= t <= |Without(rows, j)| ensures Short(Without(rows, j), t) < t {
      ShortWithout(rows, t, j);
    }
    var order := Arrange(Without(rows, j));
    rows' := [rows[j]] + order;
    assert forall i :: 1 <= i < |rows'| ==> rows'[i] == order[i - 1];
  }

  /** Some order of the rows is in range for AddSlice exactly when their lengths fit. */
  lemma SomeOrderInRangeExactlyWhen(rows: seq<seq<int>>)
    ensures (exists rows' :: multiset(rows') == multiset(rows) && DiagonalInRange(rows')) <==> LengthsFit(rows)
  {
    hide LengthsFit;
    if rows' :| multiset(rows') == multiset(rows) && DiagonalInRange(rows') {
      InRangeFits(rows');
      FitUnordered(rows', rows);
    }
    if LengthsFit(rows) {
      var rows' := FitArranged(rows);
    }
  }

  /** The rows are as long as each other, no more than they are long, and agree on the diagonal. */
  ghost predicate AgreeingTable(rows: seq<seq<int>>) {
    && |rows| >= 1 && Table(rows, |rows[0]|) && |rows| <= |rows[0]|
    && AgreeOnDiagonal(rows, |rows[0]|)
  }

  /** If every order gives one answer and it is in range, each row can stand first, so all have
      the length of the answer. */
  lemma UnorderedIsTable(rows: seq<seq<int>>)
    requires DiagonalInRange(rows)
    requires forall rows' :: multiset(rows') == multiset(rows) ==> Diagonal(rows') == Diagonal(rows)
    ensures Table(rows, |rows[0]|) && |rows| <= |rows[0]|
  {
    forall k | 0 <= k < |rows| ensures |rows[k]| == |rows[0]| {
      ToFrontReorders(rows, k);
      var rows' := ToFront(rows, k);
      assert Diagonal(rows') == Diagonal(rows);
      assert rows'[0] == rows[k] && |Diagonal(rows').value| == |rows'[0]|;
    }
  }

  /** AddSlice, visiting the metric map in whatever order Go picks, gives one answer exactly when
      the lengths fit in no order, or all metrics have rows of one sufficient length and agree on
      every column that has a diagonal entry. */
  lemma DiagonalUnorderedExactlyWhen(rows: seq<seq<int>>)
    requires forall j, k :: 0 <= j < |rows| && 0 <= k < |rows[j]| ==> IsInt32(rows[j][k])
    ensures (forall rows' :: multiset(rows') == multiset(rows) ==> Diagonal(rows') == Diagonal(rows))
       <==> !LengthsFit(rows) || AgreeingTable(rows)
  {
    hide LengthsFit;
    SomeOrderInRangeExactlyWhen(rows);
    if forall rows' :: multiset(rows') == multiset(rows) ==> Diagonal(rows') == Diagonal(rows) {
      if rows' :| multiset(rows') == multiset(rows) && DiagonalInRange(rows') {
        assert Diagonal(rows') == Diagonal(rows);
        UnorderedIsTable(rows);
        TableUnorderedExactlyWhen(rows, |rows[0]|);
      }
    } else if AgreeingTable(rows) {
      TableUnorderedExactlyWhen(rows, |rows[0]|);
    }
  }

  // ---------------------------------------------------------------- weighting

  function Total(weights: seq<int>): int {
    if |weights| == 0 then 0 else Total(weights[..|weights| - 1]) + weights[|weights| - 1]
  }

  /** Row `j` times weight `j`, without wrap-around. */
  function Weighted(weights: seq<int>, rows: seq<seq<int>>): (r: seq<seq<int>>)
    requires |weights| == |rows|
    ensures |r| == |rows| && forall j :: 0 <= j < |r| ==> |r[j]| == |rows[j]|
  {
    seq(|rows|, j requires 0 <= j < |rows| =>
      seq(|rows[j]|, i requires 0 <= i < |rows[j]| => weights[j] * rows[j][i]))
  }

  lemma {:induction false} WeightedBetween(weights: seq<int>, rows: seq<seq<int>>, i: nat, lo: int, hi: int)
    requires |weights| == |rows| && forall j :: 0 <= j < |rows| ==> weights[j] >= 0
    requires forall j :: 0 <= j < |rows| ==> i < |rows[j]| && lo <= rows[j][i] <= hi
    ensures Total(weights) >= 0
    ensures Total(weights) * lo <= ColumnSum(Weighted(weights, rows), i) <= Total(weights) * hi
  {
    if |rows| > 0 {
      var n := |rows| - 1;
      WeightedBetween(weights[..n], rows[..n], i, lo, hi);
      WeightedNext(weights, rows, i);
      ProductBetween(weights[n], rows[n][i], lo, hi);
      hide ColumnSum, Weighted;
      Distribute(Total(weights[..n]), weights[n], lo);
      Distribute(Total(weights[..n]), weights[n], hi);
    }
  }

  lemma WeightedNext(weights: seq<int>, rows: seq<seq<int>>, i: nat)
    requires |weights| == |rows| > 0 && forall j :: 0 <= j < |rows| ==> i < |rows[j]|
    ensures var n := |rows| - 1;
            ColumnSum(Weighted(weights, rows), i) ==
            ColumnSum(Weighted(weights[..n], rows[..n]), i) + weights[n] * rows[n][i]
  {
    var n := |rows| - 1;
    assert Weighted(weights, rows)[..n] == Weighted(weights[..n], rows[..n]);
  }

  lemma Distribute(a: int, b: int, c: int)
    ensures (a + b) * c == a * c + b * c
  {
  }

  lemma ProductBetween(weight: int, v: int, lo: int, hi: int)
    requires weight >= 0 && lo <= v <= hi
    ensures weight * lo <= weight * v <= weight * hi
  {
    assert weight * v == weight * lo + weight * (v - lo);
    assert weight * hi == weight * v + weight * (hi - v);
  }

  /** With weights that sum to 100, the column sum of the weighted rows, divided by 100, lies
      between any two bounds on the metrics' own counts in that column. */
  lemma WeightedColumnIsAverage(weights: seq<int>, rows: seq<seq<int>>, i: nat, lo: nat, hi: nat)
    requires |weights| == |rows| && forall j :: 0 <= j < |rows| ==> weights[j] >= 0
    requires Total(weights) == 100
    requires forall j :: 0 <= j < |rows| ==> i < |rows[j]| && lo <= rows[j][i] <= hi
    ensures lo <= Percent(ColumnSum(Weighted(weights, rows), i)) <= hi
  {
    WeightedBetween(weights, rows, i, lo, hi);
  }
}
