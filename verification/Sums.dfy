/** Finite sums of reals, and the exchange of a double sum. */
module Sums {

  function Sum(s: seq<real>): real {
    if |s| == 0 then 0.0 else Sum(s[..|s| - 1]) + s[|s| - 1]
  }

  lemma SumNone()
    ensures Sum([]) == 0.0
  {
  }

  /** `total` shared over `n`. */
  function Per(total: real, n: nat): real
    requires n >= 1
  {
    total / n as real
  }

  /** The linear combination of two values. */
  function Mix(a: real, x: real, b: real, y: real): real {
    a * x + b * y
  }

  lemma MixSum(a: real, x: real, x': real, b: real, y: real, y': real)
    ensures Mix(a, x + x', b, y + y') == Mix(a, x, b, y) + Mix(a, x', b, y')
    ensures Mix(a, x - x', b, y - y') == Mix(a, x, b, y) - Mix(a, x', b, y')
    ensures Mix(a, 0.0, b, 0.0) == 0.0
  {
  }

  lemma MixPer(a: real, x: real, b: real, y: real, n: nat)
    requires n >= 1
    ensures Per(Mix(a, x, b, y), n) == Mix(a, Per(x, n), b, Per(y, n))
  {
  }

  lemma PerSum(x: real, y: real, n: nat)
    requires n >= 1
    ensures Per(x + y, n) == Per(x, n) + Per(y, n)
    ensures Per(x - y, n) == Per(x, n) - Per(y, n)
    ensures Per(0.0, n) == 0.0
  {
  }

  /** `u` is the combination of `s` and `t`, entry by entry. */
  ghost predicate Combines(u: seq<real>, a: real, s: seq<real>, b: real, t: seq<real>) {
    |u| == |s| == |t| && forall i :: 0 <= i < |u| ==> u[i] == Mix(a, s[i], b, t[i])
  }

  lemma {:induction false} SumLinear(u: seq<real>, a: real, s: seq<real>, b: real, t: seq<real>)
    requires Combines(u, a, s, b, t)
    ensures Sum(u) == Mix(a, Sum(s), b, Sum(t))
  {
    hide Mix;
    if |u| > 0 {
      var n := |u| - 1;
      SumLinear(u[..n], a, s[..n], b, t[..n]);
      MixSum(a, Sum(s[..n]), s[n], b, Sum(t[..n]), t[n]);
    } else {
      MixSum(a, 0.0, 0.0, b, 0.0, 0.0);
    }
  }

  lemma {:induction false} SumPer(u: seq<real>, s: seq<real>, n: nat)
    requires n >= 1 && |u| == |s| && forall i :: 0 <= i < |u| ==> u[i] == Per(s[i], n)
    ensures Sum(u) == Per(Sum(s), n)
  {
    hide Per;
    if |u| > 0 {
      var k := |u| - 1;
      SumPer(u[..k], s[..k], n);
      PerSum(Sum(s[..k]), s[k], n);
    } else {
      PerSum(0.0, 0.0, n);
    }
  }

  lemma {:induction false} SumAdd(u: seq<real>, s: seq<real>, t: seq<real>)
    requires |u| == |s| == |t| && forall i :: 0 <= i < |u| ==> u[i] == s[i] + t[i]
    ensures Sum(u) == Sum(s) + Sum(t)
  {
    if |u| > 0 {
      var n := |u| - 1;
      SumAdd(u[..n], s[..n], t[..n]);
    }
  }

  lemma {:induction false} SumConstant(s: seq<real>, c: real)
    requires forall i :: 0 <= i < |s| ==> s[i] == c
    ensures Sum(s) == |s| as real * c
    ensures |s| >= 1 ==> Per(Sum(s), |s|) == c
  {
    if |s| > 0 {
      SumConstant(s[..|s| - 1], c);
      assert |s| as real * c == (|s| - 1) as real * c + c;
      PerTimes(c, |s|);
    }
  }

  lemma PerTimes(c: real, n: nat)
    requires n >= 1
    ensures Per(n as real * c, n) == c
    ensures n as real * Per(c, n) == c
  {
  }

  /** Prefixes of one sequence: the next partial sum adds the next entry. */
  lemma SumNext(s: seq<real>, i: nat)
    requires i < |s|
    ensures Sum(s[..i + 1]) == Sum(s[..i]) + s[i]
  {
    assert s[..i + 1][..i] == s[..i];
  }

  // ---------------------------------------------------------------- double sums

  ghost predicate Rectangular(m: seq<seq<real>>, w: nat) {
    forall j :: 0 <= j < |m| ==> |m[j]| == w
  }

  function Column(m: seq<seq<real>>, w: nat, i: nat): (c: seq<real>)
    requires Rectangular(m, w) && i < w
    ensures |c| == |m| && forall j :: 0 <= j < |m| ==> c[j] == m[j][i]
  {
    seq(|m|, j requires 0 <= j < |m| => m[j][i])
  }

  ghost function RowSums(m: seq<seq<real>>): (r: seq<real>)
    ensures |r| == |m| && forall j :: 0 <= j < |m| ==> r[j] == Sum(m[j])
  {
    seq(|m|, j requires 0 <= j < |m| => Sum(m[j]))
  }

  ghost function ColumnSums(m: seq<seq<real>>, w: nat): (r: seq<real>)
    requires Rectangular(m, w)
    ensures |r| == w && forall i :: 0 <= i < w ==> r[i] == Sum(Column(m, w, i))
  {
    seq(w, i requires 0 <= i < w => Sum(Column(m, w, i)))
  }

  lemma ColumnSumsOfNone(w: nat)
    ensures Sum(ColumnSums([], w)) == 0.0
  {
    forall i | 0 <= i < w ensures ColumnSums([], w)[i] == 0.0 {
      assert Column([], w, i) == [];
    }
    SumConstant(ColumnSums([], w), 0.0);
  }

  /** Adding a last row adds it to the column sums. */
  lemma ColumnSumsNext(m: seq<seq<real>>, w: nat)
    requires Rectangular(m, w) && |m| > 0
    ensures Sum(ColumnSums(m, w)) == Sum(ColumnSums(m[..|m| - 1], w)) + Sum(m[|m| - 1])
  {
    var n := |m| - 1;
    forall i | 0 <= i < w
      ensures Sum(Column(m, w, i)) == Sum(Column(m[..n], w, i)) + m[n][i]
    {
      assert Column(m, w, i)[..n] == Column(m[..n], w, i);
    }
    SumAdd(ColumnSums(m, w), ColumnSums(m[..n], w), m[n]);
  }

  lemma RowSumsNext(m: seq<seq<real>>)
    requires |m| > 0
    ensures Sum(RowSums(m)) == Sum(RowSums(m[..|m| - 1])) + Sum(m[|m| - 1])
  {
    assert RowSums(m)[..|m| - 1] == RowSums(m[..|m| - 1]);
  }

  /** Summing by rows and summing by columns agree. */
  lemma {:induction false} Exchange(m: seq<seq<real>>, w: nat)
    requires Rectangular(m, w)
    ensures Sum(RowSums(m)) == Sum(ColumnSums(m, w))
  {
    if |m| == 0 {
      assert m == [];
      ColumnSumsOfNone(w);
    } else {
      var n := |m| - 1;
      Exchange(m[..n], w);
      RowSumsNext(m);
      ColumnSumsNext(m, w);
    }
  }
}
