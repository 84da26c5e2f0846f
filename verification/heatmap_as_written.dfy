/**
  The heatmap loop of `buildFutureWindHeatmapGrid` exactly as written. The
  hour check only rejects an hour field that is not finite or lies outside
  0..23; a fractional field such as ".5" passes, `grid[0.5]` is undefined,
  and the assignment `grid[hh][di] = v` throws a TypeError. The rest of the model
  uses the corrected loop of `WindHeatmap.Fill`, which skips such samples.
 */
module HeatmapAsWritten {
  import opened Wrappers
  import opened JsText
  import opened WeatherTypes
  import opened WindHeatmap

  /** A call that either returns a value or throws a TypeError. */
  datatype Outcome<T> = Returned(value: T) | ThrewTypeError

  /** The grid loop as written: the first sample whose hour field is
      fractional aborts the whole loop. Until then it agrees with the
      corrected loop. */
  function FillAsWritten(samples: seq<Sample>, days: seq<string>, k: nat): (r: Outcome<Grid>)
    requires k <= |samples| && Distinct(days)
    ensures r.ThrewTypeError? <==> exists i :: 0 <= i < k && FateOf(samples[i], days) == Throws
    ensures r.Returned? ==> r.value == Fill(samples, days, k)
    decreases k
  {
    if k == 0 then Returned(EmptyGrid(|days|))
    else
      match FillAsWritten(samples, days, k - 1)
      case ThrewTypeError => ThrewTypeError
      case Returned(g) =>
        if FateOf(samples[k - 1], days) == Throws then ThrewTypeError
        else Returned(Step(g, days, samples[k - 1]))
  }

  /** `buildFutureWindHeatmapGrid` as written, with the same default
      `daysCount`: it throws exactly when one of
      the samples the loop reaches has a fractional hour field. */
  function BuildFutureWindHeatmapGridAsWritten(weather: WeatherResponse, todayIso: string, daysCount: nat := DefaultDaysCount)
    : (r: Outcome<Option<WindHeatmapGrid>>)
    ensures NoHeatmap(weather, todayIso, daysCount) ==> r == Returned(None)
    ensures r.ThrewTypeError? <==>
              && !NoHeatmap(weather, todayIso, daysCount)
              && var f := HeatmapFrame(weather, todayIso, daysCount).value;
                 var n := Min(|f.times|, |f.speeds|);
                 exists i :: 0 <= i < n && FateOf(Samples(f.times, f.speeds, n)[i], f.days) == Throws
    ensures r.Returned? ==> r.value == BuildFutureWindHeatmapGrid(weather, todayIso, daysCount)
  {
    FrameDaysUsable(weather, todayIso, daysCount);
    var frame := HeatmapFrame(weather, todayIso, daysCount);
    if frame.None? then Returned(None)
    else
      var n := Min(|frame.value.times|, |frame.value.speeds|);
      match FillAsWritten(Samples(frame.value.times, frame.value.speeds, n), frame.value.days, n)
      case ThrewTypeError => ThrewTypeError
      case Returned(g) =>
        Returned(Some(WindHeatmapGrid(frame.value.days, Hours, g,
                                      ResolveUnit(weather.hourly_units, weather.daily_units))))
  }

  /** The fractional hour fields are exactly `.1` to `.9`: a dot and a
      non-zero digit read as a number between 0.1 and 0.9, inside the range
      the hour check accepts, yet naming no row. */
  lemma NonIntegralIff(t: string)
    ensures ClassifyHour(t) == NonIntegral <==> |t| >= 13 && t[11] == '.' && IsDigit(t[12]) && t[12] != '0'
  {
    var field := Slice(t, 11, 13);
    var x := JsNumber(field);
    JsNumberWholeUnlessDotDigit(field);
    assert ClassifyHour(t) == NonIntegral
           <==> x.Some? && 0.0 <= x.value <= 23.0 && x.value != x.value.Floor as real;
    if |t| >= 13 {
      assert field == t[11..13];
      if t[11] == '.' && IsDigit(t[12]) && t[12] != '0' {
        JsNumberOfDotDigit(field);
        assert 0.0 < x.value < 1.0;
      }
    } else {
      assert |field| < 2;
    }
  }

  /** The counterexample: one reading at "2030-01-01T.5:00", asked for on
      that day. The loop as written throws, while the corrected loop skips
      the sample and returns a one-column grid with every cell empty. */
  lemma FractionalHourThrows(weather: WeatherResponse, t: string, v: Num, today: string)
    requires t == "2030-01-01T.5:00" && today == "2030-01-01" && v.Val?
    requires weather.hourly == Some(WeatherHourly([t], Some([v])))
    ensures BuildFutureWindHeatmapGridAsWritten(weather, today, DefaultDaysCount) == ThrewTypeError
    ensures BuildFutureWindHeatmapGrid(weather, today, DefaultDaysCount).Some?
    ensures BuildFutureWindHeatmapGrid(weather, today, DefaultDaysCount).value.days == [today]
    ensures forall h :: 0 <= h < 24 ==> BuildFutureWindHeatmapGrid(weather, today, DefaultDaysCount).value.grid[h][0].None?
  {
    ExampleDay(t, today);
    FractionalReadingThrows(weather, t, v, today);
  }

  lemma ExampleDay(t: string, today: string)
    requires t == "2030-01-01T.5:00" && today == "2030-01-01"
    ensures DatePart(t) == today
  {
    assert t[..10] == today;
  }

  /** Any feed of one reading for today whose hour field is `.1` to `.9`
      makes the loop as written throw, and the corrected loop leave the grid
      empty. */
  lemma FractionalReadingThrows(weather: WeatherResponse, t: string, v: Num, today: string)
    requires DatePart(t) == today && v.Val?
    requires |t| >= 13 && t[11] == '.' && IsDigit(t[12]) && t[12] != '0'
    requires weather.hourly == Some(WeatherHourly([t], Some([v])))
    ensures BuildFutureWindHeatmapGridAsWritten(weather, today, DefaultDaysCount) == ThrewTypeError
    ensures BuildFutureWindHeatmapGrid(weather, today, DefaultDaysCount).Some?
    ensures BuildFutureWindHeatmapGrid(weather, today, DefaultDaysCount).value.days == [today]
    ensures forall h :: 0 <= h < 24 ==> BuildFutureWindHeatmapGrid(weather, today, DefaultDaysCount).value.grid[h][0].None?
  {
    NonIntegralIff(t);
    SingleSampleDays(weather, t, v, today);
    forall h | 0 <= h < 24
      ensures BuildFutureWindHeatmapGrid(weather, today, DefaultDaysCount).value.grid[h][0].None?
    {
      assert !IsReading(t, v, today, h);
      HeatmapCell(weather, today, DefaultDaysCount, h, 0);
    }
    var samples := Samples([t], [v], 1);
    assert samples[0] == Sample(today, NonIntegral, v);
    assert FateOf(samples[0], [today]) == Throws;
    assert HeatmapFrame(weather, today, DefaultDaysCount).value.days == [today];
  }
}
