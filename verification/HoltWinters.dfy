/** The triple-exponential-smoothing forecaster (algorithms/holt_winter/holt_winter.go).

    The functions give the recurrence on values; the methods are the loops of the source,
    proved to compute it; HoltWintersLaws holds the theorems about whole runs. */
module HoltWinters {
  import opened Domain
  import opened Sums

  datatype Params = Params(slen: int, lookForward: int, alpha: real, beta: real, gamma: real)

  /** The running variables of the smoothing loop: smooth, trend, and the seasonal table. */
  datatype State = State(level: real, trend: real, season: seq<real>)

  /** No step of the forecaster panics on `n` samples: the season length is not zero, there
      is a first sample, and the trend initialiser finds two full seasons. A negative season
      length passes: both initialisers then skip their loops. */
  predicate Defined(p: Params, n: nat) {
    p.slen != 0 && n >= 1 && n >= 2 * p.slen
  }

  function Period(p: Params): (r: nat)
    requires p.slen != 0
    ensures r >= 1
  {
    if p.slen < 0 then -p.slen else p.slen
  }

  /** The seasonal slot of sample `i`. */
  function Slot(p: Params, i: nat): (r: nat)
    requires p.slen != 0
    ensures r < Period(p)
  {
    i % Period(p)
  }

  // ---------------------------------------------------------------- initial values

  function TrendTerms(x: seq<real>, slen: nat): (r: seq<real>)
    requires slen >= 1 && |x| >= 2 * slen
    ensures |r| == slen
  {
    seq(slen, i requires 0 <= i < slen => Per(x[i + slen] - x[i], slen))
  }

  function InitialTrend(p: Params, x: seq<real>): real
    requires Defined(p, |x|)
  {
    if p.slen < 0 then 0.0 else Per(Sum(TrendTerms(x, p.slen)), p.slen)
  }

  /** Season `j` of `n` samples lies inside them. */
  lemma SeasonInRange(n: nat, slen: nat, j: nat)
    requires slen >= 1 && j < n / slen
    ensures 0 <= slen * j <= slen * j + slen <= n
  {
    assert slen * (j + 1) <= slen * (n / slen) <= n;
  }

  function Season(x: seq<real>, slen: nat, j: nat): (r: seq<real>)
    requires slen >= 1 && j < |x| / slen
    ensures |r| == slen
  {
    SeasonInRange(|x|, slen, j);
    x[slen * j..slen * j + slen]
  }

  function SeasonMean(x: seq<real>, slen: nat, j: nat): real
    requires slen >= 1 && j < |x| / slen
  {
    Per(Sum(Season(x, slen, j)), slen)
  }

  /** Each sample of season `j`, less that season's mean. */
  function Deviation(x: seq<real>, slen: nat, j: nat): (r: seq<real>)
    requires slen >= 1 && j < |x| / slen
    ensures |r| == slen
  {
    var season := Season(x, slen, j);
    seq(slen, i requires 0 <= i < slen => season[i] - SeasonMean(x, slen, j))
  }

  function Deviations(x: seq<real>, slen: nat): (r: seq<seq<real>>)
    requires slen >= 1
    ensures |r| == |x| / slen && Rectangular(r, slen)
  {
    seq(|x| / slen, j requires 0 <= j < |x| / slen => Deviation(x, slen, j))
  }

  function InitialSeasonal(x: seq<real>, slen: nat, i: nat): real
    requires i < slen <= |x|
  {
    Per(Sum(Column(Deviations(x, slen), slen, i)), |x| / slen)
  }

  function InitialSeasonals(p: Params, x: seq<real>): (r: seq<real>)
    requires Defined(p, |x|)
    ensures |r| == Period(p)
  {
    if p.slen < 0 then seq(-p.slen, _ => 0.0)
    else seq(p.slen, i requires 0 <= i < p.slen => InitialSeasonal(x, p.slen, i))
  }

  // ---------------------------------------------------------------- the recurrence

  /** Exponential smoothing of `old` towards `new` with weight `c`. */
  function Blend(c: real, new_: real, old_: real): real {
    c * new_ + (1.0 - c) * old_
  }

  function Step(p: Params, s: State, val: real, slot: nat): (r: State)
    requires slot < |s.season|
    ensures |r.season| == |s.season|
  {
    var level := Blend(p.alpha, val - s.season[slot], s.level + s.trend);
    var trend := Blend(p.beta, level - s.level, s.trend);
    State(level, trend, s.season[slot := Blend(p.gamma, val - level, s.season[slot])])
  }

  /** The running variables once sample `i` has been consumed. */
  function StateAt(p: Params, x: seq<real>, i: nat): (r: State)
    requires Defined(p, |x|) && i < |x|
    ensures |r.season| == Period(p)
  {
    if i == 0 then State(x[0], InitialTrend(p, x), InitialSeasonals(p, x))
    else Step(p, StateAt(p, x, i - 1), x[i], Slot(p, i))
  }

  /** `m` steps along the trend line, plus the seasonal term. */
  function Forecast(level: real, trend: real, season: real, m: int): real {
    level + m as real * trend + season
  }

  /** Output `i`: the first sample, then a fitted value per sample, then forecasts. */
  function OutputAt(p: Params, x: seq<real>, i: nat): real
    requires Defined(p, |x|)
  {
    if i == 0 then x[0]
    else if i < |x| then
      var s := StateAt(p, x, i);
      s.level + s.trend + s.season[Slot(p, i)]
    else
      var s := StateAt(p, x, |x| - 1);
      Forecast(s.level, s.trend, s.season[Slot(p, i)], i - |x| + 1)
  }

  function OutputLength(p: Params, n: nat): nat {
    if n + p.lookForward < 0 then 0 else n + p.lookForward
  }

  function Outputs(p: Params, x: seq<real>, n: nat): (r: seq<real>)
    requires Defined(p, |x|)
    ensures |r| == n && forall i :: 0 <= i < n ==> r[i] == OutputAt(p, x, i)
  {
    seq(n, i requires i >= 0 => OutputAt(p, x, i))
  }

  function Smoothing(p: Params, x: seq<real>): Outcome<seq<real>> {
    if !Defined(p, |x|) then Panicked else Ok(Outputs(p, x, OutputLength(p, |x|)))
  }

  // ---------------------------------------------------------------- the loops

  lemma TrendStep(x: seq<real>, slen: nat, i: nat)
    requires i < slen && |x| >= 2 * slen
    ensures Sum(TrendTerms(x, slen)[..i + 1]) == Sum(TrendTerms(x, slen)[..i]) + Per(x[i + slen] - x[i], slen)
  {
    hide Per;
    SumNext(TrendTerms(x, slen), i);
  }

  lemma TrendEnds(p: Params, x: seq<real>)
    requires Defined(p, |x|)
    ensures p.slen > 0 ==> InitialTrend(p, x) == Sum(TrendTerms(x, p.slen)[..p.slen]) / p.slen as real
    ensures p.slen < 0 ==> InitialTrend(p, x) == 0.0 / p.slen as real
  {
    if p.slen > 0 {
      assert TrendTerms(x, p.slen)[..p.slen] == TrendTerms(x, p.slen);
    }
  }

  /** Reads two seasons from the front; fewer samples are out of range. */
  method ComputeInitialTrend(p: Params, x: seq<real>) returns (r: Outcome<real>)
    requires p.slen != 0 && |x| >= 1
    ensures r == if Defined(p, |x|) then Ok(InitialTrend(p, x)) else Panicked
  {
    hide Sum, Per, InitialTrend;
    var sum := 0.0;
    var i := 0;
    assert p.slen > 0 && |x| >= 2 * p.slen ==> Sum(TrendTerms(x, p.slen)[..0]) == 0.0 by {
      SumNone();
    }
    while i < p.slen
      invariant 0 <= i && (p.slen > 0 ==> i <= p.slen)
      invariant i > 0 ==> i - 1 + p.slen < |x|
      invariant p.slen < 0 ==> sum == 0.0
      invariant p.slen > 0 && |x| >= 2 * p.slen ==> sum == Sum(TrendTerms(x, p.slen)[..i])
    {
      if i + p.slen >= |x| {
        return Panicked;
      }
      if |x| >= 2 * p.slen {
        TrendStep(x, p.slen, i);
      }
      sum := sum + Per(x[i + p.slen] - x[i], p.slen);
      i := i + 1;
    }
    assert Defined(p, |x|);
    TrendEnds(p, x);
    r := Ok(sum / p.slen as real);
  }

  method ComputeSeasonAverages(x: seq<real>, slen: nat) returns (averages: seq<real>)
    requires slen >= 1
    ensures |averages| == |x| / slen
    ensures forall j :: 0 <= j < |averages| ==> averages[j] == SeasonMean(x, slen, j)
  {
    averages := [];
    var nSeasons := |x| / slen;
    for j := 0 to nSeasons
      invariant |averages| == j
      invariant forall k :: 0 <= k < j ==> averages[k] == SeasonMean(x, slen, k)
    {
      var season := Season(x, slen, j);
      var sum := 0.0;
      for i := 0 to |season|
        invariant sum == Sum(season[..i])
      {
        SumNext(season, i);
        sum := sum + season[i];
      }
      assert season[..|season|] == season;
      averages := averages + [sum / slen as real];
    }
  }

  /** One seasonal entry: the inner loop over the seasons. */
  method ComputeSeasonal(x: seq<real>, slen: nat, averages: seq<real>, i: nat) returns (r: real)
    requires i < slen <= |x| && |averages| == |x| / slen
    requires forall j :: 0 <= j < |averages| ==> averages[j] == SeasonMean(x, slen, j)
    ensures r == InitialSeasonal(x, slen, i)
  {
    var nSeasons := |x| / slen;
    ghost var column := Column(Deviations(x, slen), slen, i);
    var sum := 0.0;
    for j := 0 to nSeasons
      invariant sum == Sum(column[..j])
    {
      SeasonInRange(|x|, slen, j);
      assert x[slen * j + i] == Season(x, slen, j)[i];
      SumNext(column, j);
      sum := sum + (x[slen * j + i] - averages[j]);
    }
    assert column[..nSeasons] == column;
    r := sum / nSeasons as real;
  }

  /** A Go map read: an absent slot reads as zero. */
  function Lookup(table: map<int, real>, slot: int): real {
    if slot in table then table[slot] else 0.0
  }

  /** The seasonal map holds the seasonal table: the same value in every slot. */
  ghost predicate Represents(table: map<int, real>, season: seq<real>) {
    forall k :: 0 <= k < |season| ==> Lookup(table, k) == season[k]
  }

  /** Every slot of a positive season length is written. The division of the sample count by the
      season length panics on zero; without a full season there is nothing to average, and each
      entry is not a number: written as zero here, it reaches no output, as the trend then panics. */
  method ComputeInitialSeasonals(p: Params, x: seq<real>) returns (r: Outcome<map<int, real>>)
    ensures r.Ok? <==> p.slen != 0
    ensures !r.Failed?
    ensures r.Ok? ==> forall k :: k in r.value <==> 0 <= k < p.slen
    ensures r.Ok? && Defined(p, |x|) ==> Represents(r.value, InitialSeasonals(p, x))
  {
    if p.slen == 0 {
      return Panicked;
    }
    var table := map[];
    if p.slen > 0 {
      var averages := ComputeSeasonAverages(x, p.slen);
      for i := 0 to p.slen
        invariant forall k :: k in table <==> 0 <= k < i
        invariant p.slen <= |x| ==> forall k :: 0 <= k < i ==> table[k] == InitialSeasonal(x, p.slen, k)
      {
        var entry := 0.0;
        if |averages| > 0 {
          FullSeason(|x|, p.slen);
          entry := ComputeSeasonal(x, p.slen, averages, i);
        }
        table := table[i := entry];
        if p.slen <= |x| {
          FullSeason(|x|, p.slen);
        }
      }
    }
    r := Ok(table);
  }

  lemma FullSeason(n: nat, slen: nat)
    requires slen >= 1
    ensures n / slen > 0 <==> slen <= n
  {
  }

  /** One smoothing step on the running variables. */
  method Consume(p: Params, val: real, slot: nat, lastSmooth: real, lastTrend: real,
                 table: map<int, real>, ghost s: State)
    returns (smooth: real, trend: real, table': map<int, real>)
    requires slot < |s.season| && lastSmooth == s.level && lastTrend == s.trend
    requires Represents(table, s.season)
    ensures var s' := Step(p, s, val, slot);
            smooth == s'.level && trend == s'.trend && Represents(table', s'.season)
    ensures table'.Keys == table.Keys + {slot}
  {
    smooth := Blend(p.alpha, val - Lookup(table, slot), lastSmooth + lastTrend);
    trend := Blend(p.beta, smooth - lastSmooth, lastTrend);
    table' := table[slot := Blend(p.gamma, val - smooth, Lookup(table, slot))];
  }

  /** The last sample consumed once `i` outputs are out. */
  function Consumed(n: nat, i: nat): nat
    requires n >= 1
  {
    if i == 0 then 0 else if i <= n then i - 1 else n - 1
  }

  /** One pass of the output loop. Look-ups of a positive season length hit a written slot. */
  method Produce(p: Params, x: seq<real>, i: nat, smooth: real, trend: real, table: map<int, real>)
    returns (out: real, smooth': real, trend': real, table': map<int, real>)
    requires Defined(p, |x|)
    requires var s := StateAt(p, x, Consumed(|x|, i));
             smooth == s.level && trend == s.trend && Represents(table, s.season)
    requires forall k :: 0 <= k < p.slen ==> k in table
    ensures out == OutputAt(p, x, i)
    ensures var s := StateAt(p, x, Consumed(|x|, i + 1));
            smooth' == s.level && trend' == s.trend && Represents(table', s.season)
    ensures forall k :: 0 <= k < p.slen ==> k in table'
  {
    hide Slot, Step, Forecast, InitialTrend, InitialSeasonals;
    smooth', trend', table' := smooth, trend, table;
    var slot := Slot(p, i);
    assert p.slen > 0 ==> slot in table;
    if i == 0 {
      out := x[0];
    } else if i >= |x| {
      out := Forecast(smooth, trend, Lookup(table, slot), i - |x| + 1);
    } else {
      smooth', trend', table' := Consume(p, x[i], slot, smooth, trend, table, StateAt(p, x, i - 1));
      out := smooth' + trend' + Lookup(table', slot);
    }
  }

  /** The whole forecaster. Its panics come from the division and the reads: in the seasonal
      components, of the first sample, and in the trend. */
  method TripleExponentialSmoothing(p: Params, x: seq<real>) returns (r: Outcome<seq<real>>)
    ensures r == Smoothing(p, x)
    ensures r.Panicked? <==> p.slen == 0 || |x| == 0 || |x| < 2 * p.slen
    ensures r.Ok? ==> |r.value| == if |x| + p.lookForward < 0 then 0 else |x| + p.lookForward
  {
    hide OutputAt, Step, InitialTrend, InitialSeasonals;
    var result: seq<real> := [];
    var components := ComputeInitialSeasonals(p, x);
    if !components.Ok? {
      return Panicked;
    }
    var seasonals := components.value;
    if |x| == 0 {
      return Panicked;
    }
    var smooth := x[0];
    var slope := ComputeInitialTrend(p, x);
    if !slope.Ok? {
      return Panicked;
    }
    var trend := slope.value;
    assert StateAt(p, x, Consumed(|x|, 0)) == State(smooth, trend, InitialSeasonals(p, x));
    hide StateAt, Slot, Consumed, Represents, Outputs;
    assert result == Outputs(p, x, 0);
    var i := 0;
    while i < |x| + p.lookForward
      invariant 0 <= i && (i <= |x| + p.lookForward || i == 0)
      invariant var s := StateAt(p, x, Consumed(|x|, i));
                smooth == s.level && trend == s.trend && Represents(seasonals, s.season)
      invariant forall k :: 0 <= k < p.slen ==> k in seasonals
      invariant result == Outputs(p, x, i)
    {
      var out;
      out, smooth, trend, seasonals := Produce(p, x, i, smooth, trend, seasonals);
      assert Outputs(p, x, i) + [out] == Outputs(p, x, i + 1);
      result := result + [out];
      i := i + 1;
    }
    r := Ok(result);
  }
}
