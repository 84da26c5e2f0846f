/**
  The chart builder: picks the values of a daily series at the positions of
  one view (past or future), keeps the series that produced values, and
  yields no chart at all when none did.
 */
module ChartBuilder {
  import opened Wrappers
  import opened WeatherTypes
  import opened SeriesSplit

  const MaxTempName: string := "Max Temp (°C)"
  const MinTempName: string := "Min Temp (°C)"
  const RainSumName: string := "Rain (mm)"
  const RainProbabilityName: string := "Rain Probability (%)"

  // ---------------------------------------------------------------------------
  // extract
  // ---------------------------------------------------------------------------

  predicate AllInRange(indices: seq<int>, n: int)
  {
    forall k :: 0 <= k < |indices| ==> 0 <= indices[k] < n
  }

  /** `extract(data, indices)`: an absent source gives `[]`; otherwise each
      requested position is read in request order, and a read past either
      end (which is `undefined` in JavaScript) is dropped. */
  function Extract<T>(data: Option<seq<T>>, indices: seq<int>): (r: seq<T>)
    ensures data.None? ==> r == []
    ensures |r| <= |indices|
    ensures data.Some? ==> (|r| == |indices| <==> AllInRange(indices, |data.value|))
    ensures data.Some? && AllInRange(indices, |data.value|) ==>
              forall k :: 0 <= k < |r| ==> r[k] == data.value[indices[k]]
    decreases |indices|
  {
    match data
    case None => []
    case Some(xs) =>
      if |indices| == 0 then []
      else
        var i := indices[0];
        (if 0 <= i < |xs| then [xs[i]] else []) + Extract(data, indices[1..])
  }

  /** `extract` works position by position: the reads for `a + b` are the
      reads for `a` followed by the reads for `b`. With the one-position
      case of the definition this pins the result down completely. */
  lemma {:induction false} ExtractConcat<T>(data: Option<seq<T>>, a: seq<int>, b: seq<int>)
    ensures Extract(data, a + b) == Extract(data, a) + Extract(data, b)
    decreases |a|
  {
    if data.Some? {
      if |a| == 0 {
        assert a + b == b;
      } else {
        assert (a + b)[0] == a[0];
        assert (a + b)[1..] == a[1..] + b;
        ExtractConcat(data, a[1..], b);
        var head := if 0 <= a[0] < |data.value| then [data.value[a[0]]] else [];
        assert Extract(data, a + b) == head + Extract(data, a[1..] + b);
        assert Extract(data, a) == head + Extract(data, a[1..]);
      }
    }
  }

  /** Reading a single position gives that entry, or nothing when it lies
      outside the source. */
  lemma ExtractOne<T>(xs: seq<T>, i: int)
    ensures Extract(Some(xs), [i]) == if 0 <= i < |xs| then [xs[i]] else []
  {
    assert [i][1..] == [];
  }

  /** For increasing non-negative positions, the reads that fall off the end
      of the source are exactly the trailing ones, so entry `k` of the result
      is still the value at the `k`-th requested position. */
  lemma {:induction false} ExtractAscending<T>(xs: seq<T>, indices: seq<int>)
    requires StrictlyIncreasing(indices)
    requires forall k :: 0 <= k < |indices| ==> 0 <= indices[k]
    ensures var r := Extract(Some(xs), indices);
            && (forall k :: 0 <= k < |r| ==> indices[k] < |xs| && r[k] == xs[indices[k]])
            && (forall k :: |r| <= k < |indices| ==> |xs| <= indices[k])
    decreases |indices|
  {
    if |indices| > 0 {
      var rest := indices[1..];
      assert StrictlyIncreasing(rest);
      ExtractAscending(xs, rest);
    }
  }

  /** Reading a series and its dates at the same increasing in-range
      positions keeps them in step: value `k` and label `k` come from the
      same position, and there are never more values than labels. */
  lemma ExtractAligned(dates: seq<string>, xs: seq<Num>, indices: seq<int>)
    requires StrictlyIncreasing(indices) && AllInRange(indices, |dates|)
    ensures var labels := Extract(Some(dates), indices);
            var values := Extract(Some(xs), indices);
            && |labels| == |indices|
            && |values| <= |labels|
            && forall k :: 0 <= k < |values| ==>
                 && labels[k] == dates[indices[k]]
                 && indices[k] < |xs| && values[k] == xs[indices[k]]
  {
    ExtractAscending(xs, indices);
  }

  /** Both lists of the splitter are increasing positions into `dates`. */
  lemma SplitListsInRange(dates: seq<string>, todayIso: string)
    ensures var split := SplitPastFutureIndices(dates, todayIso);
            && StrictlyIncreasing(split.past) && AllInRange(split.past, |dates|)
            && StrictlyIncreasing(split.future) && AllInRange(split.future, |dates|)
  {
    var split := SplitPastFutureIndices(dates, todayIso);
    assert forall k :: 0 <= k < |split.past| ==> split.past[k] in split.past;
    assert forall k :: 0 <= k < |split.future| ==> split.future[k] in split.future;
  }

  /** Both views of the splitter keep dataset values in step with their
      labels: value `k` and label `k` come from the same day, and a dataset
      is never longer than the labels. */
  lemma SplitViewsAlign(dates: seq<string>, xs: seq<Num>, todayIso: string, indices: seq<int>)
    requires var split := SplitPastFutureIndices(dates, todayIso);
             indices == split.past || indices == split.future
    ensures var labels := Extract(Some(dates), indices);
            var values := Extract(Some(xs), indices);
            && |labels| == |indices|
            && |values| <= |labels|
            && forall k :: 0 <= k < |values| ==>
                 && labels[k] == dates[indices[k]]
                 && indices[k] < |xs| && values[k] == xs[indices[k]]
  {
    SplitListsInRange(dates, todayIso);
    ExtractAligned(dates, xs, indices);
  }

  // ---------------------------------------------------------------------------
  // buildChart
  // ---------------------------------------------------------------------------

  /** `Array.isArray(s.values) && s.values.length > 0` */
  predicate HasValues(s: ChartDataset)
  {
    s.values.Some? && |s.values.value| > 0
  }

  /** `series.filter(HasValues)` */
  function KeepNonEmpty(series: seq<ChartDataset>): (r: seq<ChartDataset>)
    ensures forall s :: s in r <==> s in series && HasValues(s)
    ensures |r| <= |series|
  {
    if |series| == 0 then []
    else (if HasValues(series[0]) then [series[0]] else []) + KeepNonEmpty(series[1..])
  }

  /** The filter keeps the original order: filtering a concatenation is
      concatenating the filtered parts. */
  lemma {:induction false} KeepNonEmptyAppend(a: seq<ChartDataset>, b: seq<ChartDataset>)
    ensures KeepNonEmpty(a + b) == KeepNonEmpty(a) + KeepNonEmpty(b)
    decreases |a|
  {
    if |a| > 0 {
      assert (a + b)[1..] == a[1..] + b;
      KeepNonEmptyAppend(a[1..], b);
    } else {
      assert a + b == b;
    }
  }

  /** `buildChart(labels, series)`: the series with values, in their
      original order (see `KeepNonEmptyAppend`), under the given labels, or
      no chart when no series has values. */
  function BuildChart(labels: seq<string>, series: seq<ChartDataset>): (r: Option<ChartData>)
    ensures r.None? <==> forall s :: s in series ==> !HasValues(s)
    ensures r.Some? ==> r.value.labels == labels && |r.value.datasets| > 0
    ensures r.Some? ==> forall s :: s in r.value.datasets <==> s in series && HasValues(s)
    ensures r.Some? ==> r.value.datasets == KeepNonEmpty(series)
  {
    var datasets := KeepNonEmpty(series);
    assert |datasets| > 0 ==> datasets[0] in datasets;
    if |datasets| > 0 then Some(ChartData(labels, datasets)) else None
  }

  // ---------------------------------------------------------------------------
  // buildTemperatureCharts / buildRainCharts
  // ---------------------------------------------------------------------------

  predicate HasDataset(chart: Option<ChartData>, name: string)
  {
    chart.Some? && exists s :: s in chart.value.datasets && s.name == name
  }

  /** What one view of a two-series chart shows, given its labels and the two
      extracted series: nothing when both are empty, otherwise exactly the
      non-empty ones, first series first. */
  predicate ShowsSeries(chart: Option<ChartData>, labels: seq<string>,
                        nameA: string, a: seq<Num>, nameB: string, b: seq<Num>)
  {
    && (chart.None? <==> a == [] && b == [])
    && (chart.Some? ==>
          && chart.value.labels == labels
          && chart.value.datasets ==
               (if a == [] then [] else [ChartDataset(nameA, Some(a))])
               + (if b == [] then [] else [ChartDataset(nameB, Some(b))]))
  }

  /** A view that shows series `a` has a dataset named `nameA` exactly when
      `a` produced values. */
  lemma ShowsSeriesNames(chart: Option<ChartData>, labels: seq<string>,
                         nameA: string, a: seq<Num>, nameB: string, b: seq<Num>)
    requires ShowsSeries(chart, labels, nameA, a, nameB, b)
    requires nameA != nameB
    ensures HasDataset(chart, nameA) <==> a != []
    ensures HasDataset(chart, nameB) <==> b != []
  {
    if chart.Some? {
      var ds := chart.value.datasets;
      if a != [] {
        assert ds[0].name == nameA;
      }
      if b != [] {
        assert ds[|ds| - 1].name == nameB;
      }
    }
  }

  /** One `buildChart(extract(dates, indices), [{nameA, extract(a, indices)},
      {nameB, extract(b, indices)}])` call, shared by both builders. */
  function TwoSeriesChart(dates: seq<string>, indices: seq<int>,
                          nameA: string, a: Option<seq<Num>>,
                          nameB: string, b: Option<seq<Num>>): (r: Option<ChartData>)
    ensures ShowsSeries(r, Extract(Some(dates), indices),
                        nameA, Extract(a, indices), nameB, Extract(b, indices))
  {
    var dsA := ChartDataset(nameA, Some(Extract(a, indices)));
    var dsB := ChartDataset(nameB, Some(Extract(b, indices)));
    assert KeepNonEmpty([dsB]) == if HasValues(dsB) then [dsB] else [];
    assert [dsA, dsB][1..] == [dsB];
    BuildChart(Extract(Some(dates), indices), [dsA, dsB])
  }

  lemma DatasetNamesDiffer()
    ensures MaxTempName != MinTempName
    ensures RainSumName != RainProbabilityName
  {
    assert MaxTempName[1] != MinTempName[1];
    assert RainSumName[5] != RainProbabilityName[5];
  }

  /** `buildTemperatureCharts(daily, split)`: a past and a future chart of
      maximum and minimum temperature. */
  function BuildTemperatureCharts(daily: WeatherDaily, split: SplitIndices): (r: PastFutureCharts)
    ensures ShowsSeries(r.past, Extract(Some(daily.time), split.past),
                        MaxTempName, Extract(daily.temperature_2m_max, split.past),
                        MinTempName, Extract(daily.temperature_2m_min, split.past))
    ensures ShowsSeries(r.future, Extract(Some(daily.time), split.future),
                        MaxTempName, Extract(daily.temperature_2m_max, split.future),
                        MinTempName, Extract(daily.temperature_2m_min, split.future))
    ensures daily.temperature_2m_max.None? ==> !HasDataset(r.past, MaxTempName) && !HasDataset(r.future, MaxTempName)
    ensures daily.temperature_2m_min.None? ==> !HasDataset(r.past, MinTempName) && !HasDataset(r.future, MinTempName)
  {
    var r := PastFutureCharts(
      TwoSeriesChart(daily.time, split.past, MaxTempName, daily.temperature_2m_max,
                     MinTempName, daily.temperature_2m_min),
      TwoSeriesChart(daily.time, split.future, MaxTempName, daily.temperature_2m_max,
                     MinTempName, daily.temperature_2m_min));
    DatasetNamesDiffer();
    ShowsSeriesNames(r.past, Extract(Some(daily.time), split.past),
                     MaxTempName, Extract(daily.temperature_2m_max, split.past),
                     MinTempName, Extract(daily.temperature_2m_min, split.past));
    ShowsSeriesNames(r.future, Extract(Some(daily.time), split.future),
                     MaxTempName, Extract(daily.temperature_2m_max, split.future),
                     MinTempName, Extract(daily.temperature_2m_min, split.future));
    r
  }

  /** `buildRainCharts(daily, split)`: a past and a future chart of
      precipitation sum and precipitation probability. */
  function BuildRainCharts(daily: WeatherDaily, split: SplitIndices): (r: PastFutureCharts)
    ensures ShowsSeries(r.past, Extract(Some(daily.time), split.past),
                        RainSumName, Extract(daily.precipitation_sum, split.past),
                        RainProbabilityName, Extract(daily.precipitation_probability_max, split.past))
    ensures ShowsSeries(r.future, Extract(Some(daily.time), split.future),
                        RainSumName, Extract(daily.precipitation_sum, split.future),
                        RainProbabilityName, Extract(daily.precipitation_probability_max, split.future))
    ensures daily.precipitation_sum.None? ==> !HasDataset(r.past, RainSumName) && !HasDataset(r.future, RainSumName)
    ensures daily.precipitation_probability_max.None? ==>
              !HasDataset(r.past, RainProbabilityName) && !HasDataset(r.future, RainProbabilityName)
  {
    var r := PastFutureCharts(
      TwoSeriesChart(daily.time, split.past, RainSumName, daily.precipitation_sum,
                     RainProbabilityName, daily.precipitation_probability_max),
      TwoSeriesChart(daily.time, split.future, RainSumName, daily.precipitation_sum,
                     RainProbabilityName, daily.precipitation_probability_max));
    DatasetNamesDiffer();
    ShowsSeriesNames(r.past, Extract(Some(daily.time), split.past),
                     RainSumName, Extract(daily.precipitation_sum, split.past),
                     RainProbabilityName, Extract(daily.precipitation_probability_max, split.past));
    ShowsSeriesNames(r.future, Extract(Some(daily.time), split.future),
                     RainSumName, Extract(daily.precipitation_sum, split.future),
                     RainProbabilityName, Extract(daily.precipitation_probability_max, split.future));
    r
  }

  /** The worked example: maximum temperatures 10, 12, 9, no minimum series,
      past positions 0 and 1 give one past dataset, the maximum, holding 10, 12. */
  lemma TemperatureExample(daily: WeatherDaily, split: SplitIndices, ten: Num, twelve: Num, nine: Num)
    requires |daily.time| == 3
    requires daily.temperature_2m_max == Some([ten, twelve, nine])
    requires daily.temperature_2m_min.None?
    requires split.past == [0, 1]
    ensures var r := BuildTemperatureCharts(daily, split);
            r.past == Some(ChartData([daily.time[0], daily.time[1]],
                                     [ChartDataset(MaxTempName, Some([ten, twelve]))]))
  {
    var maxValues := Extract(daily.temperature_2m_max, split.past);
    assert AllInRange(split.past, 3);
    assert |maxValues| == 2 && maxValues[0] == ten && maxValues[1] == twelve;
    assert maxValues == [ten, twelve];
    var labels := Extract(Some(daily.time), split.past);
    assert |labels| == 2 && labels[0] == daily.time[0] && labels[1] == daily.time[1];
    assert labels == [daily.time[0], daily.time[1]];
    assert Extract(daily.temperature_2m_min, split.past) == [];
    var r := BuildTemperatureCharts(daily, split);
    assert r.past.Some?;
    assert r.past.value.datasets == [ChartDataset(MaxTempName, Some(maxValues))] + [];
    assert r.past.value == ChartData(labels, [ChartDataset(MaxTempName, Some(maxValues))]);
  }
}
