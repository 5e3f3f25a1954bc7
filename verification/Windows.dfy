/** Training data for the recurrent model (algorithms/DL/data_preparation.py): sliding windows
    flattened into one array and reshaped, and the min-max transform. */
module Windows {
  import opened Arithmetic
  import opened Domain

  // ---------------------------------------------------------------- flatten and reshape

  function Flatten(rows: seq<seq<real>>): seq<real> {
    if |rows| == 0 then [] else Flatten(rows[..|rows| - 1]) + rows[|rows| - 1]
  }

  /** numpy's reshape((-1, width)): cut a flat array into rows. */
  function Reshape(flat: seq<real>, width: nat): (rows: seq<seq<real>>)
    requires width >= 1 && |flat| % width == 0
  {
    if |flat| == 0 then []
    else
      LastRow(|flat|, width);
      Reshape(flat[..|flat| - width], width) + [flat[|flat| - width..]]
  }

  lemma LastRow(n: nat, width: nat)
    requires width >= 1 && n > 0 && n % width == 0
    ensures n >= width && (n - width) % width == 0
  {
    var q := n / width;
    assert n == width * q;
    assert n - width == width * (q - 1);
    ModUnique(n - width, width, q - 1, 0);
  }

  ghost predicate AllOfWidth(rows: seq<seq<real>>, width: nat) {
    forall i :: 0 <= i < |rows| ==> |rows[i]| == width
  }

  lemma {:induction false} FlattenLength(rows: seq<seq<real>>, width: nat)
    requires width >= 1 && AllOfWidth(rows, width)
    ensures |Flatten(rows)| == width * |rows| && |Flatten(rows)| % width == 0
  {
    if |rows| > 0 {
      FlattenLength(rows[..|rows| - 1], width);
      assert width * |rows| == width * (|rows| - 1) + width;
    }
    ModUnique(width * |rows|, width, |rows|, 0);
  }

  /** Reshaping undoes flattening. */
  lemma {:induction false} ReshapeUndoesFlatten(rows: seq<seq<real>>, width: nat)
    requires width >= 1 && AllOfWidth(rows, width)
    ensures |Flatten(rows)| % width == 0 && Reshape(Flatten(rows), width) == rows
  {
    FlattenLength(rows, width);
    if |rows| > 0 {
      var n := |rows| - 1;
      var flat := Flatten(rows);
      ReshapeUndoesFlatten(rows[..n], width);
      assert flat[..|flat| - width] == Flatten(rows[..n]);
      assert flat[|flat| - width..] == rows[n];
      assert |flat| > 0;
      assert rows == rows[..n] + [rows[n]];
    } else {
      assert rows == [];
    }
  }

  // ---------------------------------------------------------------- sliding windows

  /** A Python slice s[lo:], and s[:-drop] for drop >= 1. */
  function From<T>(s: seq<T>, lo: nat): seq<T> {
    if lo > |s| then [] else s[lo..]
  }

  function DropLast<T>(s: seq<T>, drop: nat): seq<T> {
    if drop > |s| then [] else s[..|s| - drop]
  }

  function WindowCount(n: nat, width: nat): nat {
    if n < width then 0 else n - width + 1
  }

  /** The first `count` windows of a series. */
  function WindowsOf(s: seq<real>, width: nat, count: nat): (rows: seq<seq<real>>)
    requires count <= WindowCount(|s|, width)
    ensures |rows| == count && AllOfWidth(rows, width)
    ensures forall i :: 0 <= i < count ==> rows[i] == s[i..i + width]
  {
    seq(count, i requires 0 <= i < count => s[i..i + width])
  }

  /** One window loop: windows appended flat, then reshaped. */
  method SlideAndReshape(s: seq<real>, width: nat, count: nat) returns (rows: seq<seq<real>>)
    requires width >= 1 && count <= WindowCount(|s|, width)
    ensures rows == WindowsOf(s, width, count)
  {
    ghost var windows := WindowsOf(s, width, count);
    var flat: seq<real> := [];
    for i := 0 to count
      invariant flat == Flatten(windows[..i])
    {
      assert windows[..i + 1][..i] == windows[..i];
      flat := flat + s[i..i + width];
    }
    assert windows[..count] == windows;
    ReshapeUndoesFlatten(windows, width);
    rows := Reshape(flat, width);
  }

  function ExampleCount(n: nat, lookBack: nat, lookForward: nat): nat {
    WindowCount(n, lookBack + lookForward)
  }

  /** The two window loops. There are as many inputs as labels; input `i` is the `lookBack`
      samples from `i` on and label `i` the `lookForward` samples right after it. */
  method SlidingExamples(metrics: seq<real>, lookBack: nat, lookForward: nat)
    returns (inputs: seq<seq<real>>, labels: seq<seq<real>>)
    requires lookBack >= 1 && lookForward >= 1
    ensures |inputs| == |labels| == ExampleCount(|metrics|, lookBack, lookForward)
    ensures |inputs| == if |metrics| < lookBack + lookForward then 0 else |metrics| - lookBack - lookForward + 1
    ensures forall i :: 0 <= i < |inputs| ==>
              && inputs[i] == metrics[i..i + lookBack]
              && labels[i] == metrics[i + lookBack..i + lookBack + lookForward]
  {
    var labelsT := From(metrics, lookBack);
    var inputsT := DropLast(metrics, lookForward);
    labels := SlideAndReshape(labelsT, lookForward, WindowCount(|labelsT|, lookForward));
    inputs := SlideAndReshape(metrics, lookBack, WindowCount(|inputsT|, lookBack));
  }

  // ---------------------------------------------------------------- min-max transform

  function Least(s: seq<real>): (m: real)
    requires |s| >= 1
    ensures m in s && forall i :: 0 <= i < |s| ==> m <= s[i]
  {
    if |s| == 1 then s[0]
    else
      var m := Least(s[..|s| - 1]);
      assert s[..|s| - 1] + [s[|s| - 1]] == s;
      if s[|s| - 1] < m then s[|s| - 1] else m
  }

  function Greatest(s: seq<real>): (m: real)
    requires |s| >= 1
    ensures m in s && forall i :: 0 <= i < |s| ==> s[i] <= m
  {
    if |s| == 1 then s[0]
    else
      var m := Greatest(s[..|s| - 1]);
      assert s[..|s| - 1] + [s[|s| - 1]] == s;
      if s[|s| - 1] > m then s[|s| - 1] else m
  }

  /** data_transformer.normalize; the division has no real value when all data are equal, and
      min() of no data raises. */
  function Normalize(data: seq<real>): Outcome<seq<real>> {
    if |data| == 0 || Least(data) == Greatest(data) then Failed
    else Ok(seq(|data|, i requires 0 <= i < |data| =>
                  (data[i] - Least(data)) / (Greatest(data) - Least(data))))
  }

  /** From [0, 1] back to [lo, hi]. */
  function Widen(v: real, lo: real, hi: real): real {
    v * (hi - lo) + lo
  }

  function Denormalize(data: seq<real>, values: seq<real>): (r: seq<real>)
    requires |data| >= 1
    ensures |r| == |values|
  {
    seq(|values|, i requires 0 <= i < |values| =>
      Widen(values[i], Least(data), Greatest(data)))
  }

  lemma Ratio(v: real, lo: real, hi: real)
    requires lo < hi
    ensures Widen((v - lo) / (hi - lo), lo, hi) == v
    ensures lo <= v <==> 0.0 <= (v - lo) / (hi - lo)
    ensures v <= hi <==> (v - lo) / (hi - lo) <= 1.0
  {
    var d := hi - lo;
    var q := (v - lo) / d;
    assert q * d == v - lo;
    assert (1.0 - q) * d == hi - v;
    ProductSign(q, d);
    ProductSign(1.0 - q, d);
  }

  lemma RatioOrder(u: real, v: real, lo: real, hi: real)
    requires lo < hi
    ensures u < v <==> (u - lo) / (hi - lo) < (v - lo) / (hi - lo)
  {
    var d := hi - lo;
    var p, q := (u - lo) / d, (v - lo) / d;
    assert p * d == u - lo && q * d == v - lo;
    assert (p - q) * d == u - v;
    ProductSign(p - q, d);
  }

  /** Normalising lands in [0, 1] and keeps every comparison. */
  lemma NormalizeKeepsOrder(data: seq<real>)
    requires Normalize(data).Ok?
    ensures var r := Normalize(data).value;
            && |r| == |data|
            && (forall i :: 0 <= i < |r| ==> 0.0 <= r[i] <= 1.0)
            && (forall i, j :: 0 <= i < |r| && 0 <= j < |r| ==> (data[i] < data[j] <==> r[i] < r[j]))
  {
    var r := Normalize(data).value;
    var lo, hi := Least(data), Greatest(data);
    forall i | 0 <= i < |r| ensures 0.0 <= r[i] <= 1.0 {
      Ratio(data[i], lo, hi);
    }
    forall i, j | 0 <= i < |r| && 0 <= j < |r| ensures data[i] < data[j] <==> r[i] < r[j] {
      RatioOrder(data[i], data[j], lo, hi);
    }
  }

  /** Denormalising undoes normalising, for any data that are not all equal. */
  lemma DenormalizeUndoesNormalize(data: seq<real>)
    ensures Normalize(data).Ok? <==> exists i, j :: 0 <= i < |data| && 0 <= j < |data| && data[i] != data[j]
    ensures Normalize(data).Ok? ==> Denormalize(data, Normalize(data).value) == data
  {
    if Normalize(data).Ok? {
      var lo, hi := Least(data), Greatest(data);
      forall i | 0 <= i < |data| ensures Denormalize(data, Normalize(data).value)[i] == data[i] {
        Ratio(data[i], lo, hi);
      }
      var i :| 0 <= i < |data| && data[i] == lo;
      var j :| 0 <= j < |data| && data[j] == hi;
    }
  }

  /** Denormalising reads any value on the scale of the data, inside their range or not: it returns
      every `y` from its place on that scale. */
  lemma DenormalizeAnywhere(data: seq<real>, ys: seq<real>)
    requires Normalize(data).Ok?
    ensures var lo, hi := Least(data), Greatest(data);
            && lo < hi
            && Denormalize(data, seq(|ys|, i requires 0 <= i < |ys| => (ys[i] - lo) / (hi - lo))) == ys
  {
    var lo, hi := Least(data), Greatest(data);
    assert lo < hi by {
      LeastBelowGreatest(data);
    }
    hide Normalize, Least, Greatest;
    forall i | 0 <= i < |ys| ensures Widen((ys[i] - lo) / (hi - lo), lo, hi) == ys[i] {
      Ratio(ys[i], lo, hi);
    }
    hide Widen;
  }

  lemma LeastBelowGreatest(data: seq<real>)
    requires Normalize(data).Ok?
    ensures Least(data) < Greatest(data)
  {
  }

  // ---------------------------------------------------------------- the training data

  /** train_data_prepare: normalise, then slide. */
  method TrainDataPrepare(metrics: seq<real>, lookBack: nat, lookForward: nat)
    returns (r: Outcome<(seq<seq<real>>, seq<seq<real>>)>)
    requires lookBack >= 1 && lookForward >= 1
    ensures r.Ok? <==> Normalize(metrics).Ok?
    ensures r.Ok? ==>
      var (norm, inputs, labels) := (Normalize(metrics).value, r.value.0, r.value.1);
      && |inputs| == |labels| == ExampleCount(|metrics|, lookBack, lookForward)
      && forall i :: 0 <= i < |inputs| ==>
           && inputs[i] == norm[i..i + lookBack]
           && labels[i] == norm[i + lookBack..i + lookBack + lookForward]
  {
    var normalized := Normalize(metrics);
    if !normalized.Ok? {
      return Failed;
    }
    var inputs, labels := SlidingExamples(normalized.value, lookBack, lookForward);
    r := Ok((inputs, labels));
  }

  /** A stretch of normalised data denormalises to the same stretch of the data: input `i`, then
      label `i`, are the original samples from `i` on, in the original scale. */
  lemma StretchDenormalizes(data: seq<real>, lo: nat, hi: nat)
    requires Normalize(data).Ok? && lo <= hi <= |data|
    ensures Denormalize(data, Normalize(data).value[lo..hi]) == data[lo..hi]
  {
    DenormalizeUndoesNormalize(data);
    hide Normalize, Least, Greatest;
    DenormalizeSlice(data, Normalize(data).value, lo, hi);
  }

  lemma DenormalizeSlice(data: seq<real>, values: seq<real>, lo: nat, hi: nat)
    requires |data| >= 1 && lo <= hi <= |values|
    ensures Denormalize(data, values[lo..hi]) == Denormalize(data, values)[lo..hi]
  {
    hide Least, Greatest, Widen;
    var part, whole := Denormalize(data, values[lo..hi]), Denormalize(data, values);
    assert forall i :: 0 <= i < hi - lo ==> part[i] == whole[lo..hi][i];
  }
}
