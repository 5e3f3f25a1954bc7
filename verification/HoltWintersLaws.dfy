/** What the forecaster does over whole runs: its initial values balance, it is linear in
    its input, its forecasts are a line plus a periodic term, it reproduces balanced periodic
    input exactly, and with a fixed trend and season it stays inside any band around a line. */
module HoltWintersLaws {
  import opened Arithmetic
  import opened Sums
  import opened HoltWinters

  // ---------------------------------------------------------------- initial values

  lemma DeviationSumsToZero(x: seq<real>, slen: nat, j: nat)
    requires slen >= 1 && j < |x| / slen
    ensures Sum(Deviation(x, slen, j)) == 0.0
  {
    hide Sum, Per;
    var mean := SeasonMean(x, slen, j);
    var level := seq(slen, _ => mean);
    SumAdd(Season(x, slen, j), Deviation(x, slen, j), level);
    SumConstant(level, mean);
    PerTimes(Sum(Season(x, slen, j)), slen);
  }

  /** The initial seasonal components cancel out exactly, by summing the deviation table by
      rows instead of by columns. */
  lemma SeasonalsSumToZero(p: Params, x: seq<real>)
    requires Defined(p, |x|)
    ensures Sum(InitialSeasonals(p, x)) == 0.0
  {
    hide Sum, Per;
    if p.slen < 0 {
      SumConstant(InitialSeasonals(p, x), 0.0);
    } else {
      SeasonCount(|x|, p.slen);
      var table := Deviations(x, p.slen);
      forall j | 0 <= j < |table| ensures RowSums(table)[j] == 0.0 {
        DeviationSumsToZero(x, p.slen, j);
      }
      SumConstant(RowSums(table), 0.0);
      Exchange(table, p.slen);
      SumPer(InitialSeasonals(p, x), ColumnSums(table, p.slen), |x| / p.slen);
      PerSum(0.0, 0.0, |x| / p.slen);
    }
  }

  lemma SeasonCount(n: nat, slen: nat)
    requires slen >= 1 && n >= 2 * slen
    ensures n / slen >= 2
  {
  }

  /** The initial trend telescopes to the step between the first two season means. */
  lemma InitialTrendIsMeanStep(p: Params, x: seq<real>)
    requires Defined(p, |x|) && p.slen > 0
    ensures |x| / p.slen >= 2
    ensures InitialTrend(p, x) ==
            Per(SeasonMean(x, p.slen, 1) - SeasonMean(x, p.slen, 0), p.slen)
  {
    hide Sum, Per;
    SeasonCount(|x|, p.slen);
    var first, second := Season(x, p.slen, 0), Season(x, p.slen, 1);
    var steps := seq(p.slen, i requires 0 <= i < p.slen => second[i] - first[i]);
    SumAdd(second, steps, first);
    forall i | 0 <= i < p.slen ensures first[i] == x[i] && second[i] == x[i + p.slen] {
      FirstSeasons(x, p.slen, i);
    }
    SumPer(TrendTerms(x, p.slen), steps, p.slen);
    PerSum(Sum(second), Sum(first), p.slen);
  }

  lemma FirstSeasons(x: seq<real>, slen: nat, i: nat)
    requires i < slen && |x| / slen >= 2
    ensures |x| >= 2 * slen
    ensures Season(x, slen, 0)[i] == x[i] && Season(x, slen, 1)[i] == x[i + slen]
  {
    SeasonInRange(|x|, slen, 1);
  }

  lemma {:induction false} SumAppend(a: seq<real>, b: seq<real>)
    ensures Sum(a + b) == Sum(a) + Sum(b)
  {
    if |b| == 0 {
      assert a + b == a;
    } else {
      var n := |b| - 1;
      SumAppend(a, b[..n]);
      assert (a + b)[..|a| + n] == a + b[..n];
    }
  }

  /** The samples of one slot, season after season. */
  function SlotSamples(x: seq<real>, slen: nat, i: nat): (r: seq<real>)
    requires i < slen <= |x|
    ensures |r| == |x| / slen
  {
    seq(|x| / slen, j requires 0 <= j < |x| / slen =>
      SeasonInRange(|x|, slen, j);
      x[slen * j + i])
  }

  function SeasonMeans(x: seq<real>, slen: nat): (r: seq<real>)
    requires slen >= 1
    ensures |r| == |x| / slen
  {
    seq(|x| / slen, j requires 0 <= j < |x| / slen => SeasonMean(x, slen, j))
  }

  lemma MeansNext(x: seq<real>, slen: nat, n: nat)
    requires slen >= 1 && n < |x| / slen
    ensures 0 <= slen * n <= slen * (n + 1) <= |x|
    ensures x[..slen * (n + 1)] == x[..slen * n] + Season(x, slen, n)
  {
    SeasonInRange(|x|, slen, n);
    assert slen * (n + 1) == slen * n + slen;
  }

  /** The season means share the samples of the full seasons among them. */
  lemma {:induction false} MeansShareSamples(x: seq<real>, slen: nat, n: nat)
    requires slen >= 1 && n <= |x| / slen
    ensures 0 <= slen * n <= |x|
    ensures Sum(SeasonMeans(x, slen)[..n]) == Per(Sum(x[..slen * n]), slen)
  {
    hide Sum, Per;
    if n == 0 {
      SumNone();
      PerSum(0.0, 0.0, slen);
      assert SeasonMeans(x, slen)[..0] == [] && x[..0] == [];
    } else {
      MeansShareSamples(x, slen, n - 1);
      MeansNext(x, slen, n - 1);
      SumNext(SeasonMeans(x, slen), n - 1);
      SumAppend(x[..slen * (n - 1)], Season(x, slen, n - 1));
      PerSum(Sum(x[..slen * (n - 1)]), Sum(Season(x, slen, n - 1)), slen);
    }
  }

  /** Each initial seasonal component is the mean of its slot over all full seasons, less the mean
      of all their samples. */
  lemma SeasonalIsSlotMeanLessMean(x: seq<real>, slen: nat, i: nat)
    requires i < slen <= |x|
    ensures |x| / slen >= 1 && 0 <= slen * (|x| / slen) <= |x|
    ensures var n := |x| / slen;
            InitialSeasonal(x, slen, i)
            == Per(Sum(SlotSamples(x, slen, i)), n) - Per(Per(Sum(x[..slen * n]), slen), n)
  {
    hide Sum, Per;
    FullSeason(|x|, slen);
    var column := Column(Deviations(x, slen), slen, i);
    var samples, means := SlotSamples(x, slen, i), SeasonMeans(x, slen);
    forall j | 0 <= j < |column| ensures samples[j] == column[j] + means[j] {
      SeasonInRange(|x|, slen, j);
      assert x[slen * j + i] == Season(x, slen, j)[i];
    }
    SumAdd(samples, column, means);
    PerSum(Sum(samples), Sum(means), |x| / slen);
    MeansShareSamples(x, slen, |x| / slen);
    assert means[..|x| / slen] == means;
  }

  // ---------------------------------------------------------------- superposition

  lemma BlendMix(c: real, a: real, u: real, v: real, b: real, u': real, v': real)
    ensures Blend(c, Mix(a, u, b, u'), Mix(a, v, b, v')) == Mix(a, Blend(c, u, v), b, Blend(c, u', v'))
  {
  }

  lemma SeasonMeanLinear(z: seq<real>, a: real, x: seq<real>, b: real, y: seq<real>, slen: nat, j: nat)
    requires Combines(z, a, x, b, y) && slen >= 1 && j < |z| / slen
    ensures Combines(Season(z, slen, j), a, Season(x, slen, j), b, Season(y, slen, j))
    ensures SeasonMean(z, slen, j) == Mix(a, SeasonMean(x, slen, j), b, SeasonMean(y, slen, j))
  {
    hide Sum, Per, Mix;
    SeasonInRange(|z|, slen, j);
    var zs, xs, ys := Season(z, slen, j), Season(x, slen, j), Season(y, slen, j);
    forall i | 0 <= i < slen ensures zs[i] == Mix(a, xs[i], b, ys[i]) {
      var k := slen * j + i;
      assert zs[i] == z[k] && xs[i] == x[k] && ys[i] == y[k];
    }
    SumLinear(zs, a, xs, b, ys);
    MixPer(a, Sum(xs), b, Sum(ys), slen);
  }

  lemma DeviationLinear(z: seq<real>, a: real, x: seq<real>, b: real, y: seq<real>, slen: nat, j: nat)
    requires Combines(z, a, x, b, y) && slen >= 1 && j < |z| / slen
    ensures Combines(Deviation(z, slen, j), a, Deviation(x, slen, j), b, Deviation(y, slen, j))
  {
    hide Sum, Per, Mix, SeasonMean, Season;
    SeasonMeanLinear(z, a, x, b, y, slen, j);
    forall i | 0 <= i < slen
      ensures Deviation(z, slen, j)[i] == Mix(a, Deviation(x, slen, j)[i], b, Deviation(y, slen, j)[i])
    {
      MixSum(a, Season(x, slen, j)[i], SeasonMean(x, slen, j),
             b, Season(y, slen, j)[i], SeasonMean(y, slen, j));
    }
  }

  lemma InitialSeasonalLinear(z: seq<real>, a: real, x: seq<real>, b: real, y: seq<real>, slen: nat, i: nat)
    requires Combines(z, a, x, b, y) && i < slen <= |z|
    ensures InitialSeasonal(z, slen, i) == Mix(a, InitialSeasonal(x, slen, i), b, InitialSeasonal(y, slen, i))
  {
    hide Sum, Per, Mix, Deviation;
    var zc := Column(Deviations(z, slen), slen, i);
    var xc := Column(Deviations(x, slen), slen, i);
    var yc := Column(Deviations(y, slen), slen, i);
    forall j | 0 <= j < |zc| ensures zc[j] == Mix(a, xc[j], b, yc[j]) {
      DeviationLinear(z, a, x, b, y, slen, j);
    }
    SumLinear(zc, a, xc, b, yc);
    MixPer(a, Sum(xc), b, Sum(yc), |z| / slen);
  }

  lemma InitialTrendLinear(p: Params, z: seq<real>, a: real, x: seq<real>, b: real, y: seq<real>)
    requires Combines(z, a, x, b, y) && Defined(p, |z|)
    ensures InitialTrend(p, z) == Mix(a, InitialTrend(p, x), b, InitialTrend(p, y))
  {
    hide Sum, Per, Mix;
    MixSum(a, 0.0, 0.0, b, 0.0, 0.0);
    if p.slen > 0 {
      var zt, xt, yt := TrendTerms(z, p.slen), TrendTerms(x, p.slen), TrendTerms(y, p.slen);
      forall i | 0 <= i < p.slen ensures zt[i] == Mix(a, xt[i], b, yt[i]) {
        var k := i + p.slen;
        MixSum(a, x[k], x[i], b, y[k], y[i]);
        MixPer(a, x[k] - x[i], b, y[k] - y[i], p.slen);
      }
      SumLinear(zt, a, xt, b, yt);
      MixPer(a, Sum(xt), b, Sum(yt), p.slen);
    }
  }

  ghost predicate StateCombines(s: State, a: real, t: State, b: real, u: State) {
    && s.level == Mix(a, t.level, b, u.level)
    && s.trend == Mix(a, t.trend, b, u.trend)
    && Combines(s.season, a, t.season, b, u.season)
  }

  /** One smoothing step is linear in the state and the sample together. */
  lemma StepLinear(p: Params, s: State, a: real, t: State, b: real, u: State,
                   z: real, x: real, y: real, slot: nat)
    requires StateCombines(s, a, t, b, u) && z == Mix(a, x, b, y) && slot < |s.season|
    ensures StateCombines(Step(p, s, z, slot), a, Step(p, t, x, slot), b, Step(p, u, y, slot))
  {
    hide Mix, Blend;
    var t', u' := Step(p, t, x, slot), Step(p, u, y, slot);
    MixSum(a, x, t.season[slot], b, y, u.season[slot]);
    MixSum(a, t.level, t.trend, b, u.level, u.trend);
    BlendMix(p.alpha, a, x - t.season[slot], t.level + t.trend, b, y - u.season[slot], u.level + u.trend);
    MixSum(a, t'.level, t.level, b, u'.level, u.level);
    BlendMix(p.beta, a, t'.level - t.level, t.trend, b, u'.level - u.level, u.trend);
    MixSum(a, x, t'.level, b, y, u'.level);
    BlendMix(p.gamma, a, x - t'.level, t.season[slot], b, y - u'.level, u.season[slot]);
  }

  lemma {:induction false} StateLinear(p: Params, z: seq<real>, a: real, x: seq<real>, b: real, y: seq<real>, i: nat)
    requires Combines(z, a, x, b, y) && Defined(p, |z|) && i < |z|
    ensures StateCombines(StateAt(p, z, i), a, StateAt(p, x, i), b, StateAt(p, y, i))
  {
    hide Mix, Step, InitialTrend, InitialSeasonal;
    if i == 0 {
      InitialTrendLinear(p, z, a, x, b, y);
      MixSum(a, 0.0, 0.0, b, 0.0, 0.0);
      forall k | 0 <= k < Period(p)
        ensures InitialSeasonals(p, z)[k] == Mix(a, InitialSeasonals(p, x)[k], b, InitialSeasonals(p, y)[k])
      {
        if p.slen > 0 {
          InitialSeasonalLinear(z, a, x, b, y, p.slen, k);
        }
      }
    } else {
      StateLinear(p, z, a, x, b, y, i - 1);
      StepLinear(p, StateAt(p, z, i - 1), a, StateAt(p, x, i - 1), b, StateAt(p, y, i - 1),
                 z[i], x[i], y[i], Slot(p, i));
    }
  }

  lemma ForecastMix(a: real, b: real, l: real, l': real, t: real, t': real, s: real, s': real, m: int)
    ensures Forecast(Mix(a, l, b, l'), Mix(a, t, b, t'), Mix(a, s, b, s'), m)
         == Mix(a, Forecast(l, t, s, m), b, Forecast(l', t', s', m))
  {
  }

  /** Output `i` past the first is `m` forecast steps from the last state consumed before it. */
  function StepsAhead(n: nat, i: nat): int
    requires n >= 1
  {
    if i < n then 1 else i - n + 1
  }

  lemma OutputIsForecast(p: Params, x: seq<real>, i: nat)
    requires Defined(p, |x|) && i > 0
    ensures var s := StateAt(p, x, if i < |x| then i else |x| - 1);
            OutputAt(p, x, i) == Forecast(s.level, s.trend, s.season[Slot(p, i)], StepsAhead(|x|, i))
  {
    hide StateAt;
  }

  /** Superposition: every fitted value and every forecast of `a*x + b*y` is `a` times that of
      `x` plus `b` times that of `y`, for all smoothing weights, through both initialisers and
      the whole loop. */
  lemma Superposition(p: Params, z: seq<real>, a: real, x: seq<real>, b: real, y: seq<real>, i: nat)
    requires Combines(z, a, x, b, y) && Defined(p, |z|)
    ensures OutputAt(p, z, i) == Mix(a, OutputAt(p, x, i), b, OutputAt(p, y, i))
  {
    hide Mix, StateAt, Forecast;
    if i > 0 {
      var j := if i < |z| then i else |z| - 1;
      var k := Slot(p, i);
      StateLinear(p, z, a, x, b, y, j);
      var t, u := StateAt(p, x, j), StateAt(p, y, j);
      ForecastMix(a, b, t.level, u.level, t.trend, u.trend, t.season[k], u.season[k], StepsAhead(|z|, i));
      OutputIsForecast(p, x, i);
      OutputIsForecast(p, y, i);
      OutputIsForecast(p, z, i);
    }
  }

  // ---------------------------------------------------------------- one step

  lemma BlendCorrects(c: real, old_: real, e: real)
    ensures Blend(c, old_ + e, old_) == old_ + c * e
  {
  }

  lemma Products(a: real, b: real, g: real, e: real)
    ensures b * (a * e) == a * b * e
    ensures g * (e - a * e) == g * (1.0 - a) * e
  {
  }

  /** The part `weight` of an error. */
  function Part(weight: real, e: real): real {
    weight * e
  }

  /** The three blends of a step, in terms of the error of the forecast before it. */
  lemma BlendsCorrect(p: Params, level: real, trend: real, season: real, val: real)
    ensures var e, level' := val - (level + trend + season), Blend(p.alpha, val - season, level + trend);
            && level' == level + trend + Part(p.alpha, e)
            && Blend(p.beta, level' - level, trend) == trend + Part(p.alpha * p.beta, e)
            && Blend(p.gamma, val - level', season) == season + Part(p.gamma * (1.0 - p.alpha), e)
  {
    hide Blend;
    var e := val - (level + trend + season);
    var part := p.alpha * e;
    assert val - season == level + trend + e;
    BlendCorrects(p.alpha, level + trend, e);
    BlendCorrects(p.beta, trend, part);
    BlendCorrects(p.gamma, season, e - part);
    Products(p.alpha, p.beta, p.gamma, e);
    var level' := Blend(p.alpha, val - season, level + trend);
    assert level' - level == trend + part;
    assert val - level' == season + (e - part);
  }

  lemma FittedOutput(p: Params, x: seq<real>, i: nat)
    requires Defined(p, |x|) && 0 < i < |x|
    ensures var s := StateAt(p, x, i);
            OutputAt(p, x, i) == s.level + s.trend + s.season[Slot(p, i)]
  {
    hide StateAt, Slot;
  }

  lemma StepCorrects(p: Params, s: State, val: real, slot: nat)
    requires slot < |s.season|
    ensures var s', e := Step(p, s, val, slot), val - (s.level + s.trend + s.season[slot]);
            && s'.level == s.level + s.trend + Part(p.alpha, e)
            && s'.trend == s.trend + Part(p.alpha * p.beta, e)
            && s'.season == s.season[slot := s.season[slot] + Part(p.gamma * (1.0 - p.alpha), e)]
  {
    hide Blend, Part;
    BlendsCorrect(p, s.level, s.trend, s.season[slot], val);
  }

  /** Error correction: a step moves the level, the trend and one seasonal entry by fixed parts of
      the error of the forecast before it, for all weights; the output is the forecast after it. */
  lemma ErrorCorrection(p: Params, x: seq<real>, i: nat)
    requires Defined(p, |x|) && i + 1 < |x|
    ensures var s, s', slot := StateAt(p, x, i), StateAt(p, x, i + 1), Slot(p, i + 1);
            var e := x[i + 1] - (s.level + s.trend + s.season[slot]);
            && s'.level == s.level + s.trend + Part(p.alpha, e)
            && s'.trend == s.trend + Part(p.alpha * p.beta, e)
            && s'.season == s.season[slot := s.season[slot] + Part(p.gamma * (1.0 - p.alpha), e)]
            && OutputAt(p, x, i + 1) == s'.level + s'.trend + s'.season[slot]
  {
    FittedOutput(p, x, i + 1);
    hide Step, InitialTrend, InitialSeasonals, OutputAt, Slot, Part;
    StepCorrects(p, StateAt(p, x, i), x[i + 1], Slot(p, i + 1));
  }

  lemma NothingToCorrect(weight: real, e: real)
    requires e == 0.0
    ensures Part(weight, e) == 0.0
  {
  }

  /** A sample that was forecast moves nothing but the level, along the trend. */
  lemma ForecastSampleFollowed(p: Params, x: seq<real>, i: nat)
    requires Defined(p, |x|) && i + 1 < |x|
    requires var s := StateAt(p, x, i); x[i + 1] == s.level + s.trend + s.season[Slot(p, i + 1)]
    ensures var s := StateAt(p, x, i); StateAt(p, x, i + 1) == State(s.level + s.trend, s.trend, s.season)
  {
    hide StateAt, OutputAt, Slot, Part;
    ErrorCorrection(p, x, i);
    var s, slot := StateAt(p, x, i), Slot(p, i + 1);
    var e := x[i + 1] - (s.level + s.trend + s.season[slot]);
    NothingToCorrect(p.alpha, e);
    NothingToCorrect(p.alpha * p.beta, e);
    NothingToCorrect(p.gamma * (1.0 - p.alpha), e);
    assert s.season[slot := s.season[slot]] == s.season;
  }

  /** Past the samples an output continues the line of the last state, with the entry of its slot. */
  lemma ForecastContinues(p: Params, x: seq<real>, i: nat)
    requires Defined(p, |x|) && i >= |x|
    ensures var s := StateAt(p, x, |x| - 1);
            OutputAt(p, x, i) == s.level + (i - |x| + 1) as real * s.trend
                                 + s.season[Slot(p, i)]
  {
    hide StateAt, Slot;
  }

  // ---------------------------------------------------------------- a ramp

  function Line(c: real, slope: real, i: int): real {
    c + i as real * slope
  }

  lemma LineNext(c: real, slope: real, i: int, m: int)
    ensures Line(c, slope, i + m) == Line(c, slope, i) + m as real * slope
    ensures Line(c, slope, 0) == c
  {
  }

  /** Without seasons a ramp is followed exactly: at once the trend is its slope, and no weight can
      move it. */
  lemma {:induction false} RampFollowed(p: Params, x: seq<real>, c: real, d: real, i: nat)
    requires Defined(p, |x|) && p.slen == 1 && i < |x|
    requires forall k :: 0 <= k < |x| ==> x[k] == Line(c, d, k)
    ensures StateAt(p, x, i) == State(Line(c, d, i), d, [0.0])
  {
    hide Line;
    if i == 0 {
      RampInitialValues(p, x, c, d);
    } else {
      RampFollowed(p, x, c, d, i - 1);
      LineNext(c, d, i - 1, 1);
      hide StateAt, InitialTrend, InitialSeasonals;
      OneSlot(p, i);
      ForecastSampleFollowed(p, x, i - 1);
    }
  }

  lemma OneSlot(p: Params, i: nat)
    requires p.slen == 1
    ensures Slot(p, i) == 0
  {
  }

  lemma RampInitialValues(p: Params, x: seq<real>, c: real, d: real)
    requires Defined(p, |x|) && p.slen == 1
    requires forall k :: 0 <= k < |x| ==> x[k] == Line(c, d, k)
    ensures InitialTrend(p, x) == d && InitialSeasonals(p, x) == [0.0]
  {
    hide Line, Sum, Per;
    LineNext(c, d, 0, 1);
    var terms := TrendTerms(x, 1);
    PerTimes(d, 1);
    assert terms == [Per(x[1] - x[0], 1)];
    OneTerm(x[1] - x[0]);
    SumConstant(terms, d);
    var column := Column(Deviations(x, 1), 1, 0);
    forall j | 0 <= j < |column| ensures column[j] == 0.0 {
      SeasonInRange(|x|, 1, j);
      var season := Season(x, 1, j);
      SumConstant(season, season[0]);
      assert column[j] == Deviation(x, 1, j)[0] == season[0] - SeasonMean(x, 1, j);
    }
    SumConstant(column, 0.0);
    assert InitialSeasonals(p, x)[0] == 0.0;
  }

  lemma OneTerm(v: real)
    ensures Per(v, 1) == v
  {
  }

  lemma ForecastAlongLine(c: real, d: real, i: int, m: int)
    ensures Forecast(Line(c, d, i), d, 0.0, m) == Line(c, d, i + m)
  {
  }

  /** So its outputs run along the ramp: one step ahead within the samples, and exactly past them. */
  lemma RampReproduced(p: Params, x: seq<real>, c: real, d: real, i: nat)
    requires Defined(p, |x|) && p.slen == 1
    requires forall k :: 0 <= k < |x| ==> x[k] == Line(c, d, k)
    ensures OutputAt(p, x, i) == Line(c, d, if 0 < i < |x| then i + 1 else i)
  {
    if i > 0 {
      hide Line, OutputAt, StateAt, Slot, Forecast;
      var j := if i < |x| then i else |x| - 1;
      OneSlot(p, i);
      RampFollowed(p, x, c, d, j);
      OutputIsForecast(p, x, i);
      ForecastAlongLine(c, d, j, StepsAhead(|x|, i));
    }
  }

  // ---------------------------------------------------------------- forecast shape

  lemma SlotAfterPeriod(i: nat, period: nat)
    requires period >= 1
    ensures (i + period) % period == i % period
  {
    assert period * (i / period + 1) == period * (i / period) + period;
    ModUnique(i + period, period, i / period + 1, i % period);
  }

  lemma ForecastFurther(level: real, trend: real, season: real, m: int, k: int)
    ensures Forecast(level, trend, season, m + k) == Forecast(level, trend, season, m) + k as real * trend
  {
  }

  /** Past the samples, moving one period ahead adds exactly one period of the final trend:
      the forecast is a line plus a periodic term. */
  lemma ForecastIsLinePlusPeriodic(p: Params, x: seq<real>, i: nat)
    requires Defined(p, |x|) && i >= |x|
    ensures OutputAt(p, x, i + Period(p))
         == OutputAt(p, x, i) + Period(p) as real * StateAt(p, x, |x| - 1).trend
  {
    hide StateAt, Forecast;
    SlotAfterPeriod(i, Period(p));
    var s := StateAt(p, x, |x| - 1);
    OutputIsForecast(p, x, i);
    OutputIsForecast(p, x, i + Period(p));
    ForecastFurther(s.level, s.trend, s.season[Slot(p, i)], i - |x| + 1, Period(p));
  }

  // ---------------------------------------------------------------- periodic input

  ghost predicate Periodic(x: seq<real>, slen: int) {
    1 <= slen <= |x| && forall i :: 0 <= i < |x| ==> x[i] == x[i % slen]
  }

  lemma SeasonOfPeriodic(x: seq<real>, slen: nat, j: nat)
    requires Periodic(x, slen) && j < |x| / slen
    ensures Season(x, slen, j) == x[..slen]
  {
    SeasonInRange(|x|, slen, j);
    forall i | 0 <= i < slen ensures Season(x, slen, j)[i] == x[i] {
      ModUnique(slen * j + i, slen, j, i);
    }
  }

  function Mean(s: seq<real>): real
    requires |s| >= 1
  {
    Per(Sum(s), |s|)
  }

  lemma PeriodicSeasonal(x: seq<real>, slen: nat, i: nat)
    requires Periodic(x, slen) && i < slen
    ensures InitialSeasonal(x, slen, i) == x[i] - Mean(x[..slen])
  {
    hide Sum, Per, Season;
    var column := Column(Deviations(x, slen), slen, i);
    var offset := x[i] - Mean(x[..slen]);
    forall j | 0 <= j < |column| ensures column[j] == offset {
      SeasonOfPeriodic(x, slen, j);
      assert column[j] == Deviation(x, slen, j)[i] == x[..slen][i] - SeasonMean(x, slen, j);
    }
    SumConstant(column, offset);
  }

  /** On periodic input the initial trend is zero and each seasonal component is the exact
      offset of its slot from the season mean. */
  lemma PeriodicInitialValues(p: Params, x: seq<real>)
    requires Defined(p, |x|) && Periodic(x, p.slen)
    ensures InitialTrend(p, x) == 0.0
    ensures forall i :: 0 <= i < p.slen ==> InitialSeasonals(p, x)[i] == x[i] - Mean(x[..p.slen])
  {
    hide Sum, Per, Season, InitialSeasonal;
    InitialTrendIsMeanStep(p, x);
    SeasonOfPeriodic(x, p.slen, 0);
    SeasonOfPeriodic(x, p.slen, 1);
    PerSum(0.0, 0.0, p.slen);
    forall i | 0 <= i < p.slen ensures InitialSeasonals(p, x)[i] == x[i] - Mean(x[..p.slen]) {
      PeriodicSeasonal(x, p.slen, i);
    }
  }

  lemma BlendSame(c: real, v: real)
    ensures Blend(c, v, v) == v
  {
  }

  /** A periodic series whose first sample is its season mean is a fixed point, for all
      smoothing weights: level, trend and season never move. */
  lemma {:induction false} PeriodicFixedPoint(p: Params, x: seq<real>, i: nat)
    requires Defined(p, |x|) && Periodic(x, p.slen) && x[0] == Mean(x[..p.slen]) && i < |x|
    ensures StateAt(p, x, i) == State(x[0], 0.0, InitialSeasonals(p, x))
  {
    hide Mean, Blend, InitialTrend, InitialSeasonals;
    PeriodicInitialValues(p, x);
    if i > 0 {
      PeriodicFixedPoint(p, x, i - 1);
      var s := StateAt(p, x, i - 1);
      var slot := i % p.slen;
      assert x[i] - s.season[slot] == s.level;
      BlendSame(p.alpha, s.level);
      BlendSame(p.beta, 0.0);
      BlendSame(p.gamma, s.season[slot]);
      assert s.season[slot := s.season[slot]] == s.season;
    }
  }

  lemma ForecastFlat(level: real, season: real, m: int)
    ensures Forecast(level, 0.0, season, m) == level + season
  {
  }

  /** So the output reproduces the series and continues it for ever. */
  lemma PeriodicReproduced(p: Params, x: seq<real>, i: nat)
    requires Defined(p, |x|) && Periodic(x, p.slen) && x[0] == Mean(x[..p.slen])
    ensures OutputAt(p, x, i) == x[i % p.slen]
  {
    hide Mean, StateAt, Forecast, InitialSeasonals, InitialTrend;
    if i > 0 {
      PeriodicInitialValues(p, x);
      PeriodicFixedPoint(p, x, if i < |x| then i else |x| - 1);
      OutputIsForecast(p, x, i);
      ForecastFlat(x[0], InitialSeasonals(p, x)[i % p.slen], StepsAhead(|x|, i));
    }
  }

  /** With a negative season length both initialisers leave everything at zero, and a constant
      series keeps it there. */
  lemma {:induction false} ConstantWithoutSeasons(p: Params, x: seq<real>, c: real, i: nat)
    requires Defined(p, |x|) && p.slen < 0 && (forall k :: 0 <= k < |x| ==> x[k] == c) && i < |x|
    ensures StateAt(p, x, i) == State(c, 0.0, seq(Period(p), _ => 0.0))
  {
    hide Blend;
    if i > 0 {
      ConstantWithoutSeasons(p, x, c, i - 1);
      BlendSame(p.alpha, c);
      BlendSame(p.beta, 0.0);
      BlendSame(p.gamma, 0.0);
    }
  }

  /** A constant series forecasts itself. */
  lemma ConstantReproduced(p: Params, x: seq<real>, c: real, i: nat)
    requires Defined(p, |x|) && forall k :: 0 <= k < |x| ==> x[k] == c
    ensures OutputAt(p, x, i) == c
  {
    if p.slen > 0 {
      hide OutputAt;
      SumConstant(x[..p.slen], c);
      PeriodicReproduced(p, x, i);
    } else if i > 0 {
      hide StateAt, Forecast;
      ConstantWithoutSeasons(p, x, c, if i < |x| then i else |x| - 1);
      OutputIsForecast(p, x, i);
      ForecastFlat(c, 0.0, StepsAhead(|x|, i));
    }
  }

  /** Raising every sample by `c` raises every output by `c`. */
  lemma ShiftEquivariance(p: Params, x: seq<real>, c: real, z: seq<real>, i: nat)
    requires Defined(p, |x|)
    requires |z| == |x| && forall k :: 0 <= k < |x| ==> z[k] == x[k] + c
    ensures OutputAt(p, z, i) == OutputAt(p, x, i) + c
  {
    hide OutputAt;
    var level := seq(|x|, _ => c);
    assert Combines(z, 1.0, x, 1.0, level);
    Superposition(p, z, 1.0, x, 1.0, level, i);
    ConstantReproduced(p, level, c, i);
  }

  // ---------------------------------------------------------------- fixed trend and season

  lemma BlendOff(new_: real, old_: real)
    ensures Blend(0.0, new_, old_) == old_
  {
  }

  /** With beta = gamma = 0 only the level moves. */
  lemma {:induction false} OnlyLevelMoves(p: Params, x: seq<real>, i: nat)
    requires Defined(p, |x|) && p.beta == p.gamma == 0.0 && i < |x|
    ensures StateAt(p, x, i).trend == InitialTrend(p, x)
    ensures StateAt(p, x, i).season == InitialSeasonals(p, x)
  {
    hide Blend, InitialTrend, InitialSeasonals;
    if i > 0 {
      OnlyLevelMoves(p, x, i - 1);
      var s, s' := StateAt(p, x, i - 1), StateAt(p, x, i);
      var slot := Slot(p, i);
      BlendOff(s'.level - s.level, s.trend);
      BlendOff(x[i] - s'.level, s.season[slot]);
    }
  }

  ghost predicate Within(v: real, line: real, eps: real) {
    line - eps <= v <= line + eps
  }

  /** Sample `i` less its seasonal component. */
  function Deseasonalised(p: Params, x: seq<real>, i: nat): real
    requires Defined(p, |x|) && i < |x|
  {
    x[i] - InitialSeasonals(p, x)[Slot(p, i)]
  }

  lemma ScaleMonotone(a: real, u: real, v: real)
    requires 0.0 <= a && u <= v
    ensures a * u <= a * v
  {
    assert a * v == a * u + a * (v - u);
  }

  lemma WeightedMonotone(a: real, rest: real, u: real, u': real, v: real, v': real)
    requires 0.0 <= a && 0.0 <= rest && u <= u' && v <= v'
    ensures a * u + rest * v <= a * u' + rest * v'
  {
    ScaleMonotone(a, u, u');
    ScaleMonotone(rest, v, v');
  }

  lemma BlendMonotone(a: real, u: real, u': real, v: real, v': real)
    requires 0.0 <= a <= 1.0 && u <= u' && v <= v'
    ensures Blend(a, u, v) <= Blend(a, u', v')
  {
    WeightedMonotone(a, 1.0 - a, u, u', v, v');
  }

  lemma BlendWithin(a: real, u: real, v: real, line: real, eps: real)
    requires 0.0 <= a <= 1.0 && Within(u, line, eps) && Within(v, line, eps)
    ensures Within(Blend(a, u, v), line, eps)
  {
    BlendMonotone(a, line - eps, u, line - eps, v);
    BlendMonotone(a, u, line + eps, v, line + eps);
    BlendSame(a, line - eps);
    BlendSame(a, line + eps);
  }

  /** The samples, once deseasonalised, and the first sample stay within `eps` of a line whose
      slope is the initial trend. */
  ghost predicate InBand(p: Params, x: seq<real>, c: real, eps: real)
    requires Defined(p, |x|)
  {
    && Within(x[0], c, eps)
    && forall i :: 0 < i < |x| ==> Within(Deseasonalised(p, x, i), Line(c, InitialTrend(p, x), i), eps)
  }

  /** Then so does every level. */
  lemma {:induction false} LevelsStayInBand(p: Params, x: seq<real>, c: real, eps: real, i: nat)
    requires Defined(p, |x|) && p.beta == p.gamma == 0.0 && 0.0 <= p.alpha <= 1.0
    requires InBand(p, x, c, eps) && i < |x|
    ensures Within(StateAt(p, x, i).level, Line(c, InitialTrend(p, x), i), eps)
  {
    hide Blend, Line, InitialTrend, InitialSeasonals;
    var slope := InitialTrend(p, x);
    if i == 0 {
      LineNext(c, slope, 0, 0);
    } else {
      LevelsStayInBand(p, x, c, eps, i - 1);
      OnlyLevelMoves(p, x, i - 1);
      LineNext(c, slope, i - 1, 1);
      var s := StateAt(p, x, i - 1);
      BlendWithin(p.alpha, Deseasonalised(p, x, i), s.level + s.trend, Line(c, slope, i), eps);
    }
  }

  lemma ForecastWithin(level: real, line: real, slope: real, season: real, m: int, eps: real)
    requires Within(level, line, eps)
    ensures Within(Forecast(level, slope, season, m), line + m as real * slope + season, eps)
  {
  }

  /** And every forecast stays within `eps` of the line plus its seasonal component. */
  lemma ForecastsStayInBand(p: Params, x: seq<real>, c: real, eps: real, i: nat)
    requires Defined(p, |x|) && p.beta == p.gamma == 0.0 && 0.0 <= p.alpha <= 1.0
    requires InBand(p, x, c, eps) && i >= |x|
    ensures Within(OutputAt(p, x, i),
                   Line(c, InitialTrend(p, x), i) + InitialSeasonals(p, x)[Slot(p, i)], eps)
  {
    hide StateAt, Forecast, Line, InitialTrend, InitialSeasonals;
    var n := |x| - 1;
    var s, slope := StateAt(p, x, n), InitialTrend(p, x);
    LevelsStayInBand(p, x, c, eps, n);
    OnlyLevelMoves(p, x, n);
    OutputIsForecast(p, x, i);
    ForecastWithin(s.level, Line(c, slope, n), slope, s.season[Slot(p, i)], i - n, eps);
    LineNext(c, slope, n, i - n);
  }

  function Power(r: real, n: nat): real {
    if n == 0 then 1.0 else r * Power(r, n - 1)
  }

  /** What is left of an offset from the mean after `i` shrinkings by `r`. */
  function Approach(mean: real, r: real, i: nat, offset: real): real {
    mean + Power(r, i) * offset
  }

  lemma ApproachNext(mean: real, alpha: real, i: nat, offset: real)
    ensures Approach(mean, 1.0 - alpha, 0, offset) == mean + offset
    ensures Blend(alpha, mean, Approach(mean, 1.0 - alpha, i, offset)) == Approach(mean, 1.0 - alpha, i + 1, offset)
  {
    var decay := Power(1.0 - alpha, i);
    assert (1.0 - alpha) * (decay * offset) == ((1.0 - alpha) * decay) * offset;
    assert alpha * mean + (1.0 - alpha) * mean == mean;
  }

  /** On periodic input the level closes in on the season mean geometrically. */
  lemma {:induction false} PeriodicLevel(p: Params, x: seq<real>, i: nat)
    requires Defined(p, |x|) && p.beta == p.gamma == 0.0 && Periodic(x, p.slen) && i < |x|
    ensures var mean := Mean(x[..p.slen]);
            StateAt(p, x, i).level == Approach(mean, 1.0 - p.alpha, i, x[0] - mean)
  {
    hide Blend, Mean, Approach, InitialTrend, InitialSeasonals;
    var mean := Mean(x[..p.slen]);
    if i == 0 {
      ApproachNext(mean, p.alpha, 0, x[0] - mean);
    } else {
      PeriodicLevel(p, x, i - 1);
      OnlyLevelMoves(p, x, i - 1);
      PeriodicInitialValues(p, x);
      ApproachNext(mean, p.alpha, i - 1, x[0] - mean);
      var s := StateAt(p, x, i - 1);
      assert x[i] - s.season[i % p.slen] == mean;
      assert StateAt(p, x, i).level == Blend(p.alpha, mean, s.level + s.trend);
    }
  }

  /** The error of every output on periodic input, exactly: the first offset from the mean,
      shrunk by (1 - alpha) once per sample consumed. */
  lemma PeriodicError(p: Params, x: seq<real>, i: nat)
    requires Defined(p, |x|) && p.beta == p.gamma == 0.0 && Periodic(x, p.slen) && i > 0
    ensures OutputAt(p, x, i) == x[i % p.slen]
            + Power(1.0 - p.alpha, if i < |x| then i else |x| - 1) * (x[0] - Mean(x[..p.slen]))
  {
    hide StateAt, Forecast, Mean, Power, InitialTrend, InitialSeasonals;
    var j := if i < |x| then i else |x| - 1;
    PeriodicLevel(p, x, j);
    OnlyLevelMoves(p, x, j);
    PeriodicInitialValues(p, x);
    OutputIsForecast(p, x, i);
    ForecastFlat(StateAt(p, x, j).level, InitialSeasonals(p, x)[i % p.slen], StepsAhead(|x|, i));
  }

  lemma {:induction false} PowerZero(r: real, n: nat)
    ensures Power(r, n) == 0.0 <==> r == 0.0 && n > 0
  {
    if n > 0 {
      PowerZero(r, n - 1);
      ProductZero(r, Power(r, n - 1));
    }
  }

  lemma ProductZero(a: real, b: real)
    ensures a * b == 0.0 <==> a == 0.0 || b == 0.0
  {
    if a != 0.0 && a * b == 0.0 {
      assert b == a * b / a;
    }
  }

  /** So periodic input is reproduced exactly when the level jumps straight to each sample or
      the first sample already is the mean. */
  lemma PeriodicReproducedExactlyWhen(p: Params, x: seq<real>, i: nat)
    requires Defined(p, |x|) && p.beta == p.gamma == 0.0 && Periodic(x, p.slen) && i > 0
    ensures OutputAt(p, x, i) == x[i % p.slen] <==> p.alpha == 1.0 || x[0] == Mean(x[..p.slen])
  {
    hide OutputAt, Mean, Power;
    var j := if i < |x| then i else |x| - 1;
    PeriodicError(p, x, i);
    PowerZero(1.0 - p.alpha, j);
    ProductZero(Power(1.0 - p.alpha, j), x[0] - Mean(x[..p.slen]));
  }
}
