/**
  The wind heatmap builder: picks the first calendar days (from today on)
  present in the hourly feed and lays the hourly wind speeds out on a
  24-row grid, one column per chosen day.
 */
module WindHeatmap {
  import opened Wrappers
  import opened JsText
  import opened WeatherTypes

  /** The `daysCount` that `buildFutureWindHeatmapGrid` uses when the caller
      leaves it out. */
  const DefaultDaysCount: nat := 7

  const HourlyUnitKey: string := "windspeed_10m"
  const DailyUnitKey: string := "windspeed_10m_max"

  /** `[0, 1, ..., n - 1]` */
  function Range(n: nat): (r: seq<int>)
    ensures |r| == n && forall i :: 0 <= i < n ==> r[i] == i
  {
    if n == 0 then [] else Range(n - 1) + [n - 1]
  }

  /** The row labels `[0, 1, ..., 23]`. */
  const Hours: seq<int> := Range(24)

  /** `t.slice(0, 10)`: the `YYYY-MM-DD` part of a timestamp (the whole text
      when it is shorter). */
  function DatePart(t: string): (r: string)
    ensures |t| >= 10 ==> r == t[..10]
    ensures |t| < 10 ==> r == t
  {
    Slice(t, 0, 10)
  }

  // ---------------------------------------------------------------------------
  // Choosing the days
  // ---------------------------------------------------------------------------

  predicate Ascending(s: seq<string>)
  {
    forall i, j :: 0 <= i < j < |s| ==> Lt(s[i], s[j])
  }

  predicate Distinct(s: seq<string>)
  {
    forall i, j :: 0 <= i < j < |s| ==> s[i] != s[j]
  }

  lemma AscendingIsDistinct(s: seq<string>)
    requires Ascending(s)
    ensures Distinct(s)
  {
    forall i, j | 0 <= i < j < |s|
      ensures s[i] != s[j]
    {
      LtIrreflexive(s[i]);
    }
  }

  /** The date parts, from today on, of all hourly timestamps: `daySet`. */
  function DaySet(times: seq<string>, todayIso: string): set<string>
  {
    set i | 0 <= i < |times| && !Lt(DatePart(times[i]), todayIso) :: DatePart(times[i])
  }

  lemma DaySetSnoc(times: seq<string>, todayIso: string)
    requires |times| > 0
    ensures var last := |times| - 1;
            var d := DatePart(times[last]);
            DaySet(times, todayIso)
            == DaySet(times[..last], todayIso) + (if Lt(d, todayIso) then {} else {d})
  {
    var last := |times| - 1;
    var d := DatePart(times[last]);
    var front := times[..last];
    forall y | y in DaySet(times, todayIso)
      ensures y in DaySet(front, todayIso) || (y == d && !Lt(d, todayIso))
    {
      var i :| 0 <= i < |times| && !Lt(DatePart(times[i]), todayIso) && y == DatePart(times[i]);
      if i < last {
        assert front[i] == times[i];
      }
    }
    forall y | y in DaySet(front, todayIso)
      ensures y in DaySet(times, todayIso)
    {
      var i :| 0 <= i < |front| && !Lt(DatePart(front[i]), todayIso) && y == DatePart(front[i]);
      assert front[i] == times[i];
    }
  }

  lemma HeadBelowRest(s: seq<string>)
    requires Ascending(s) && |s| > 0
    ensures forall y :: y in s[1..] ==> Lt(s[0], y)
  {
    forall y | y in s[1..]
      ensures Lt(s[0], y)
    {
      var k :| 0 <= k < |s| - 1 && s[1..][k] == y;
      assert s[k + 1] == y;
    }
  }

  lemma PrependAscending(x: string, s: seq<string>)
    requires Ascending(s)
    requires forall y :: y in s ==> Lt(x, y)
    ensures Ascending([x] + s)
  {
    var r := [x] + s;
    forall i, j | 0 <= i < j < |r|
      ensures Lt(r[i], r[j])
    {
      if i == 0 {
        assert r[j] == s[j - 1];
      } else {
        assert r[i] == s[i - 1] && r[j] == s[j - 1];
      }
    }
  }

  lemma BelowHeadBelowAll(x: string, s: seq<string>)
    requires Ascending(s) && |s| > 0 && Lt(x, s[0])
    ensures forall y :: y in s ==> Lt(x, y)
  {
    forall y | y in s
      ensures Lt(x, y)
    {
      var k :| 0 <= k < |s| && s[k] == y;
      if k > 0 {
        LtTransitive(x, s[0], y);
      }
    }
  }

  /** Inserting one day into an ascending list of distinct days (the set
      insertion `daySet.add(d)`, kept sorted). */
  function Insert(s: seq<string>, x: string): (r: seq<string>)
    requires Ascending(s)
    ensures Ascending(r)
    ensures forall y :: y in r <==> y in s || y == x
    decreases |s|
  {
    if |s| == 0 then [x]
    else if x == s[0] then s
    else if Lt(x, s[0]) then
      BelowHeadBelowAll(x, s);
      PrependAscending(x, s);
      [x] + s
    else
      LtConnected(x, s[0]);
      HeadBelowRest(s);
      assert s == [s[0]] + s[1..];
      var rest := Insert(s[1..], x);
      PrependAscending(s[0], rest);
      [s[0]] + rest
  }

  /** `Array.from(daySet).sort()`: the day set in ascending string order. */
  function SortedDays(times: seq<string>, todayIso: string): (r: seq<string>)
    ensures Ascending(r)
    ensures forall d :: d in r <==> d in DaySet(times, todayIso)
    decreases |times|
  {
    if |times| == 0 then []
    else
      var last := |times| - 1;
      var front := SortedDays(times[..last], todayIso);
      var d := DatePart(times[last]);
      DaySetSnoc(times, todayIso);
      if Lt(d, todayIso) then front else Insert(front, d)
  }

  /** An ascending list is determined by its elements, so the sorted day
      set has exactly one possible value. */
  lemma {:induction false} AscendingUnique(a: seq<string>, b: seq<string>)
    requires Ascending(a) && Ascending(b)
    requires forall x :: x in a <==> x in b
    ensures a == b
    decreases |a|
  {
    if |a| > 0 {
      assert a[0] in b;
    }
    if |b| > 0 {
      assert b[0] in a;
    }
    if |a| > 0 && |b| > 0 {
      HeadBelowRest(a);
      HeadBelowRest(b);
      if a[0] != b[0] {
        assert a[0] in b && b == [b[0]] + b[1..];
        assert a[0] in b[1..];
        assert b[0] in a && a == [a[0]] + a[1..];
        assert b[0] in a[1..];
        LtAsymmetric(a[0], b[0]);
        assert false;
      }
      LtIrreflexive(a[0]);
      forall x
        ensures x in a[1..] <==> x in b[1..]
      {
        assert x in a <==> x == a[0] || x in a[1..];
        assert x in b <==> x == b[0] || x in b[1..];
      }
      AscendingUnique(a[1..], b[1..]);
      assert a == [a[0]] + a[1..];
      assert b == [b[0]] + b[1..];
    }
  }

  /** An ascending list has as many elements as its element set. */
  lemma {:induction false} AscendingCardinality(s: seq<string>)
    requires Ascending(s)
    ensures |set x | x in s| == |s|
    decreases |s|
  {
    if |s| > 0 {
      HeadBelowRest(s);
      LtIrreflexive(s[0]);
      AscendingCardinality(s[1..]);
      assert (set x | x in s) == {s[0]} + (set x | x in s[1..]);
    } else {
      assert (set x | x in s) == {};
    }
  }

  /** The chosen days are the first `daysCount` of the sorted day set:
      ascending, drawn from the day set, as many as asked for (or all), and
      smaller than every day of the set left out. */
  ghost predicate DaysChosen(days: seq<string>, times: seq<string>, todayIso: string, daysCount: nat)
  {
    && Ascending(days)
    && |days| == Min(daysCount, |DaySet(times, todayIso)|)
    && (forall d :: d in days ==> d in DaySet(times, todayIso))
    && (forall d, e :: d in DaySet(times, todayIso) && d !in days && e in days ==> Lt(e, d))
  }

  /** Every member of the day set is today or later, and is the date part of
      one of the hourly timestamps. */
  lemma DaySetMembers(times: seq<string>, todayIso: string, d: string)
    requires d in DaySet(times, todayIso)
    ensures !Lt(d, todayIso)
    ensures exists i :: 0 <= i < |times| && DatePart(times[i]) == d
  {
  }

  lemma ChosenDaysFromToday(days: seq<string>, times: seq<string>, todayIso: string, daysCount: nat)
    requires DaysChosen(days, times, todayIso, daysCount)
    ensures forall d :: d in days ==> !Lt(d, todayIso)
  {
    forall d | d in days
      ensures !Lt(d, todayIso)
    {
      DaySetMembers(times, todayIso, d);
    }
  }

  /** A prefix of the sorted day set is a valid choice of days. */
  lemma SortedPrefixChosen(times: seq<string>, todayIso: string, daysCount: nat)
    ensures DaysChosen(SortedDays(times, todayIso)[..Min(daysCount, |SortedDays(times, todayIso)|)],
                       times, todayIso, daysCount)
  {
    var sorted := SortedDays(times, todayIso);
    var m := Min(daysCount, |sorted|);
    var r := sorted[..m];
    AscendingCardinality(sorted);
    assert (set x | x in sorted) == DaySet(times, todayIso);
    forall d, e | d in DaySet(times, todayIso) && d !in r && e in r
      ensures Lt(e, d)
    {
      var j :| 0 <= j < |sorted| && sorted[j] == d;
      var i :| 0 <= i < m && r[i] == e;
    }
  }

  /** `Array.from(daySet).sort().slice(0, daysCount)` */
  function SelectDays(times: seq<string>, todayIso: string, daysCount: nat): (r: seq<string>)
    ensures DaysChosen(r, times, todayIso, daysCount)
  {
    var sorted := SortedDays(times, todayIso);
    SortedPrefixChosen(times, todayIso, daysCount);
    sorted[..Min(daysCount, |sorted|)]
  }

  // ---------------------------------------------------------------------------
  // Placing the samples
  // ---------------------------------------------------------------------------

  /** `dayIndex.get(d)`: the `Map` built from `days` keeps the last position
      of each day, so the search runs from the end. */
  function IndexOf(days: seq<string>, d: string): (r: Option<nat>)
    ensures r.None? <==> d !in days
    ensures r.Some? ==> r.value < |days| && days[r.value] == d
    decreases |days|
  {
    if |days| == 0 then None
    else if days[|days| - 1] == d then Some(|days| - 1)
    else
      assert forall y :: y in days ==> y in days[..|days| - 1] || y == days[|days| - 1];
      IndexOf(days[..|days| - 1], d)
  }

  lemma IndexOfDistinct(days: seq<string>, d: nat)
    requires Distinct(days) && d < |days|
    ensures IndexOf(days, days[d]) == Some(d)
  {
  }

  /** What the hour check of the grid loop makes of the hour field
      `Number(t.slice(11, 13))`. */
  datatype HourField =
    | Hour(h: nat)   // an integral hour 0..23: the row to write
    | Unusable       // NaN or outside 0..23: the sample is skipped
    | NonIntegral    // inside 0..23 but fractional: `grid[hh]` does not exist

  function ClassifyHour(t: string): (r: HourField)
    ensures r.Hour? ==> r.h < 24
  {
    match JsNumber(Slice(t, 11, 13))
    case None => Unusable
    case Some(x) =>
      if x < 0.0 || x > 23.0 then Unusable
      else if x == x.Floor as real then Hour(x.Floor)
      else NonIntegral
  }

  /** A well-formed `YYYY-MM-DDTHH` timestamp lands in hour `HH` when that is
      at most 23, and is skipped otherwise. */
  lemma IsoHour(t: string)
    requires |t| >= 13 && IsDigit(t[11]) && IsDigit(t[12])
    ensures var hh := 10 * DigitValue(t[11]) + DigitValue(t[12]);
            ClassifyHour(t) == if hh <= 23 then Hour(hh) else Unusable
  {
    assert Slice(t, 11, 13) == t[11..13];
    JsNumberOfTwoDigits(t[11..13]);
  }

  /** A timestamp of at most eleven characters has an empty hour field, and
      `Number("")` is 0: it lands in hour 0. */
  lemma ShortTimestampHourZero(t: string)
    requires |t| <= 11
    ensures ClassifyHour(t) == Hour(0)
  {
    JsNumberOfBlank(Slice(t, 11, 13));
  }

  /** One hourly sample as the loop body reads it: the date part of its
      timestamp, its hour field and its wind speed. */
  datatype Sample = Sample(day: string, hour: HourField, value: Num)

  function ReadSample(t: string, v: Num): Sample
  {
    Sample(DatePart(t), ClassifyHour(t), v)
  }

  /** The first `k` samples of the paired series, read one by one. */
  function Samples(times: seq<string>, speeds: seq<Num>, k: nat): seq<Sample>
    requires k <= |times| && k <= |speeds|
  {
    seq(k, i requires 0 <= i < k => ReadSample(times[i], speeds[i]))
  }

  /** A sample is a reading for hour `h` of `day` when its value is a number,
      its date part is `day` and its hour field is the integral hour `h`. */
  predicate Feeds(s: Sample, day: string, h: nat)
  {
    s.value.Val? && s.day == day && s.hour == Hour(h)
  }

  /** Where one sample of the grid loop goes. */
  datatype Fate = WritesCell(hour: nat, day: nat) | Skipped | Throws

  /** The checks of the grid loop's body in their order: NaN value, day not
      chosen, then the hour field. */
  function FateOf(s: Sample, days: seq<string>): (r: Fate)
    ensures r.WritesCell? ==> r.hour < 24 && r.day < |days|
  {
    if s.value.NaN? then Skipped
    else
      match IndexOf(days, s.day)
      case None => Skipped
      case Some(di) =>
        match s.hour
        case Hour(h) => if h < 24 then WritesCell(h, di) else Skipped
        case Unusable => Skipped
        case NonIntegral => Throws
  }

  /** With distinct days, a sample writes cell `(h, d)` exactly when it is a
      reading for hour `h` of day `days[d]`. */
  lemma FateWritesIffFeeds(s: Sample, days: seq<string>, h: nat, d: nat)
    requires Distinct(days) && d < |days| && h < 24
    ensures FateOf(s, days) == WritesCell(h, d) <==> Feeds(s, days[d], h)
  {
    if Feeds(s, days[d], h) {
      IndexOfDistinct(days, d);
    }
  }

  /** The position of the last of the first `k` samples that is a reading for
      hour `h` of `day`. */
  function LastFeed(samples: seq<Sample>, k: nat, day: string, h: nat): (r: Option<nat>)
    requires k <= |samples|
    ensures r.None? <==> forall i :: 0 <= i < k ==> !Feeds(samples[i], day, h)
    ensures r.Some? ==> && r.value < k
                        && Feeds(samples[r.value], day, h)
                        && forall j :: r.value < j < k ==> !Feeds(samples[j], day, h)
    decreases k
  {
    if k == 0 then None
    else if Feeds(samples[k - 1], day, h) then Some(k - 1)
    else LastFeed(samples, k - 1, day, h)
  }

  /** What a cell should hold after the first `k` samples: the value of the
      last reading for it, or nothing. */
  function CellValue(samples: seq<Sample>, k: nat, day: string, h: nat): Option<Num>
    requires k <= |samples|
  {
    match LastFeed(samples, k, day, h)
    case None => None
    case Some(i) => Some(samples[i].value)
  }

  type Grid = seq<seq<Option<Num>>>

  /** 24 rows of `width` cells each. */
  predicate GridShaped(g: Grid, width: nat)
  {
    |g| == 24 && forall h :: 0 <= h < 24 ==> |g[h]| == width
  }

  function EmptyGrid(width: nat): (g: Grid)
    ensures GridShaped(g, width)
    ensures forall h, d :: 0 <= h < 24 && 0 <= d < width ==> g[h][d].None?
  {
    seq(24, _ => seq(width, _ => None))
  }

  /** `grid[hh][di] = v` */
  function Write(g: Grid, width: nat, h: nat, d: nat, v: Num): (g': Grid)
    requires GridShaped(g, width) && h < 24 && d < width
    ensures GridShaped(g', width)
    ensures g'[h][d] == Some(v)
    ensures forall h', d' :: 0 <= h' < 24 && 0 <= d' < width && (h', d') != (h, d) ==> g'[h'][d'] == g[h'][d']
  {
    g[h := g[h][d := Some(v)]]
  }

  /** One pass of the loop body for a sample that does not throw: with
      distinct days, the sample's value lands in exactly the cells it is a
      reading for, and every other cell keeps its value. */
  function Step(g: Grid, days: seq<string>, s: Sample): (g': Grid)
    requires GridShaped(g, |days|)
    ensures GridShaped(g', |days|)
    ensures Distinct(days) ==>
              forall h, d :: 0 <= h < 24 && 0 <= d < |days| ==>
                g'[h][d] == (if Feeds(s, days[d], h) then Some(s.value) else g[h][d])
  {
    assert Distinct(days) ==>
             forall h, d :: 0 <= h < 24 && 0 <= d < |days| ==>
               (FateOf(s, days) == WritesCell(h, d) <==> Feeds(s, days[d], h)) by {
      if Distinct(days) {
        forall h, d | 0 <= h < 24 && 0 <= d < |days|
          ensures FateOf(s, days) == WritesCell(h, d) <==> Feeds(s, days[d], h)
        {
          FateWritesIffFeeds(s, days, h, d);
        }
      }
    }
    match FateOf(s, days)
    case WritesCell(h, d) => Write(g, |days|, h, d, s.value)
    case _ => g
  }

  lemma StepKeepsCells(samples: seq<Sample>, days: seq<string>, k: nat, g: Grid)
    requires 0 < k <= |samples| && Distinct(days)
    requires GridShaped(g, |days|)
    requires forall h, d :: 0 <= h < 24 && 0 <= d < |days| ==> g[h][d] == CellValue(samples, k - 1, days[d], h)
    ensures forall h, d :: 0 <= h < 24 && 0 <= d < |days| ==>
              Step(g, days, samples[k - 1])[h][d] == CellValue(samples, k, days[d], h)
  {
    var g' := Step(g, days, samples[k - 1]);
    forall h, d | 0 <= h < 24 && 0 <= d < |days|
      ensures g'[h][d] == CellValue(samples, k, days[d], h)
    {
      FateWritesIffFeeds(samples[k - 1], days, h, d);
    }
  }

  /** The grid after the first `k` samples of the grid loop (with fractional
      hours skipped): every cell holds the value of the last reading for its
      hour and day, and cells without a reading stay empty. */
  function Fill(samples: seq<Sample>, days: seq<string>, k: nat): (g: Grid)
    requires k <= |samples| && Distinct(days)
    ensures GridShaped(g, |days|)
    ensures forall h, d :: 0 <= h < 24 && 0 <= d < |days| ==>
              g[h][d] == CellValue(samples, k, days[d], h)
    decreases k
  {
    if k == 0 then EmptyGrid(|days|)
    else
      var g := Fill(samples, days, k - 1);
      StepKeepsCells(samples, days, k, g);
      Step(g, days, samples[k - 1])
  }

  // ---------------------------------------------------------------------------
  // The unit and the whole builder
  // ---------------------------------------------------------------------------

  function Lookup(units: Option<Units>, key: string): Option<string>
  {
    if units.Some? && key in units.value then Some(units.value[key]) else None
  }

  /** `hourly_units?.windspeed_10m ?? daily_units?.windspeed_10m_max ?? ""`:
      `??` falls through only on an absent entry, so an empty hourly unit is
      kept. */
  function ResolveUnit(hourlyUnits: Option<Units>, dailyUnits: Option<Units>): (r: string)
    ensures Lookup(hourlyUnits, HourlyUnitKey).Some? ==> r == Lookup(hourlyUnits, HourlyUnitKey).value
    ensures Lookup(hourlyUnits, HourlyUnitKey).None? && Lookup(dailyUnits, DailyUnitKey).Some? ==>
              r == Lookup(dailyUnits, DailyUnitKey).value
    ensures Lookup(hourlyUnits, HourlyUnitKey).None? && Lookup(dailyUnits, DailyUnitKey).None? ==> r == ""
  {
    match Lookup(hourlyUnits, HourlyUnitKey)
    case Some(u) => u
    case None =>
      match Lookup(dailyUnits, DailyUnitKey)
      case Some(u) => u
      case None => ""
  }

  /** The unit examples: a daily "km/h" is used when the hourly unit is
      missing, nothing at all gives "", and an empty hourly unit wins. */
  lemma UnitFallbackExamples(daily: Units)
    requires daily == map[DailyUnitKey := "km/h"]
    ensures ResolveUnit(None, Some(daily)) == "km/h"
    ensures ResolveUnit(Some(map[]), Some(daily)) == "km/h"
    ensures ResolveUnit(None, None) == ""
    ensures ResolveUnit(Some(map[HourlyUnitKey := ""]), Some(daily)) == ""
  {
  }

  /** The cases in which `buildFutureWindHeatmapGrid` returns `null`: no
      hourly feed, no wind series, an empty one of the two, or no day left to
      show. */
  predicate NoHeatmap(weather: WeatherResponse, todayIso: string, daysCount: nat)
  {
    || weather.hourly.None?
    || weather.hourly.value.windspeed_10m.None?
    || |weather.hourly.value.time| == 0
    || |weather.hourly.value.windspeed_10m.value| == 0
    || daysCount == 0
    || DaySet(weather.hourly.value.time, todayIso) == {}
  }

  /** The hourly series and the chosen days, when there is a heatmap to build. */
  datatype Frame = Frame(times: seq<string>, speeds: seq<Num>, days: seq<string>)

  /** The early `null` returns of `buildFutureWindHeatmapGrid` and its
      choice of days. */
  function HeatmapFrame(weather: WeatherResponse, todayIso: string, daysCount: nat): (r: Option<Frame>)
    ensures r.None? <==> NoHeatmap(weather, todayIso, daysCount)
    ensures r.Some? ==> && r.value.times == weather.hourly.value.time
                        && r.value.speeds == weather.hourly.value.windspeed_10m.value
                        && DaysChosen(r.value.days, r.value.times, todayIso, daysCount)
                        && |r.value.days| > 0
  {
    match weather.hourly
    case None => None
    case Some(hourly) =>
      match hourly.windspeed_10m
      case None => None
      case Some(speeds) =>
        if |hourly.time| == 0 || |speeds| == 0 then None
        else
          var days := SelectDays(hourly.time, todayIso, daysCount);
          if |days| == 0 then None else Some(Frame(hourly.time, speeds, days))
  }

  lemma FrameDaysUsable(weather: WeatherResponse, todayIso: string, daysCount: nat)
    ensures HeatmapFrame(weather, todayIso, daysCount).Some? ==>
              && Distinct(HeatmapFrame(weather, todayIso, daysCount).value.days)
              && forall d :: d in HeatmapFrame(weather, todayIso, daysCount).value.days ==> !Lt(d, todayIso)
  {
    var f := HeatmapFrame(weather, todayIso, daysCount);
    if f.Some? {
      AscendingIsDistinct(f.value.days);
      ChosenDaysFromToday(f.value.days, f.value.times, todayIso, daysCount);
    }
  }

  /** `buildFutureWindHeatmapGrid(weather, daysCount = 7)` with today's date
      passed in. A sample whose hour field is fractional is skipped. */
  function BuildFutureWindHeatmapGrid(weather: WeatherResponse, todayIso: string, daysCount: nat := DefaultDaysCount)
    : (r: Option<WindHeatmapGrid>)
    ensures r.None? <==> NoHeatmap(weather, todayIso, daysCount)
    ensures r.Some? ==> GridShaped(r.value.grid, |r.value.days|)
    ensures r.Some? ==> r.value.unit == ResolveUnit(weather.hourly_units, weather.daily_units)
  {
    FrameDaysUsable(weather, todayIso, daysCount);
    var frame := HeatmapFrame(weather, todayIso, daysCount);
    if frame.None? then None
    else
      var n := Min(|frame.value.times|, |frame.value.speeds|);
      Some(WindHeatmapGrid(frame.value.days, Hours,
                           Fill(Samples(frame.value.times, frame.value.speeds, n), frame.value.days, n),
                           ResolveUnit(weather.hourly_units, weather.daily_units)))
  }

  /** A heatmap's days are the first `daysCount` of the sorted day set (so
      ascending, distinct, from today on and at most `daysCount` of them),
      its hours are 0..23, and each cell holds the last reading for it. */
  lemma HeatmapShape(weather: WeatherResponse, todayIso: string, daysCount: nat)
    requires !NoHeatmap(weather, todayIso, daysCount)
    ensures var r := BuildFutureWindHeatmapGrid(weather, todayIso, daysCount).value;
            var times := weather.hourly.value.time;
            var speeds := weather.hourly.value.windspeed_10m.value;
            var n := Min(|times|, |speeds|);
            && DaysChosen(r.days, times, todayIso, daysCount)
            && Distinct(r.days)
            && |r.days| <= daysCount
            && (forall d :: d in r.days ==> !Lt(d, todayIso))
            && |r.hours| == 24 && (forall h :: 0 <= h < 24 ==> r.hours[h] == h)
            && GridShaped(r.grid, |r.days|)
            && forall h, d :: 0 <= h < 24 && 0 <= d < |r.days| ==>
                 r.grid[h][d] == CellValue(Samples(times, speeds, n), n, r.days[d], h)
  {
    var r := BuildFutureWindHeatmapGrid(weather, todayIso, daysCount).value;
    var frame := HeatmapFrame(weather, todayIso, daysCount).value;
    FrameDaysUsable(weather, todayIso, daysCount);
    var n := Min(|frame.times|, |frame.speeds|);
    assert r.days == frame.days;
    assert r.hours == Hours;
    assert r.grid == Fill(Samples(frame.times, frame.speeds, n), frame.days, n);
  }

  /** The heatmap's cells in terms of the raw series: a reading for hour `h`
      of day `day` is a sample whose speed is a number, whose timestamp's
      date part is `day` and whose hour field is the integral hour `h`. */
  predicate IsReading(t: string, v: Num, day: string, h: nat)
  {
    v.Val? && DatePart(t) == day && ClassifyHour(t) == Hour(h)
  }

  /** `CellValue` read back in terms of the raw series. */
  lemma CellValueOfReadings(times: seq<string>, speeds: seq<Num>, n: nat, day: string, h: nat)
    requires n <= |times| && n <= |speeds|
    ensures var c := CellValue(Samples(times, speeds, n), n, day, h);
            && (c.Some? <==> exists i :: 0 <= i < n && IsReading(times[i], speeds[i], day, h))
            && (c.Some? ==>
                  exists i :: && 0 <= i < n
                              && IsReading(times[i], speeds[i], day, h)
                              && c == Some(speeds[i])
                              && forall j :: i < j < n ==> !IsReading(times[j], speeds[j], day, h))
  {
    var samples := Samples(times, speeds, n);
    forall i | 0 <= i < n
      ensures Feeds(samples[i], day, h) <==> IsReading(times[i], speeds[i], day, h)
    {
      assert samples[i] == ReadSample(times[i], speeds[i]);
    }
    var last := LastFeed(samples, n, day, h);
    if last.Some? {
      var i := last.value;
      assert IsReading(times[i], speeds[i], day, h);
      assert CellValue(samples, n, day, h) == Some(speeds[i]);
    }
  }

  /** Cell `(h, d)` of the heatmap is filled exactly when one of the first
      `min(|time|, |windspeed_10m|)` samples is a reading for hour `h` of
      `days[d]`, and then it holds the speed of the last such sample. */
  lemma HeatmapCell(weather: WeatherResponse, todayIso: string, daysCount: nat, h: nat, d: nat)
    requires !NoHeatmap(weather, todayIso, daysCount)
    requires h < 24 && d < Min(daysCount, |DaySet(weather.hourly.value.time, todayIso)|)
    ensures var r := BuildFutureWindHeatmapGrid(weather, todayIso, daysCount).value;
            var times := weather.hourly.value.time;
            var speeds := weather.hourly.value.windspeed_10m.value;
            var n := Min(|times|, |speeds|);
            && (r.grid[h][d].Some? <==> exists i :: 0 <= i < n && IsReading(times[i], speeds[i], r.days[d], h))
            && (r.grid[h][d].Some? ==>
                  exists i :: && 0 <= i < n
                              && IsReading(times[i], speeds[i], r.days[d], h)
                              && r.grid[h][d] == Some(speeds[i])
                              && forall j :: i < j < n ==> !IsReading(times[j], speeds[j], r.days[d], h))
  {
    var r := BuildFutureWindHeatmapGrid(weather, todayIso, daysCount).value;
    var times := weather.hourly.value.time;
    var speeds := weather.hourly.value.windspeed_10m.value;
    HeatmapShape(weather, todayIso, daysCount);
    CellValueOfReadings(times, speeds, Min(|times|, |speeds|), r.days[d], h);
  }

  /** Every day of the heatmap is the date part of one of the hourly
      timestamps, and no earlier than today. */
  lemma HeatmapDaysFromTimestamps(weather: WeatherResponse, todayIso: string, daysCount: nat)
    requires !NoHeatmap(weather, todayIso, daysCount)
    ensures var days := BuildFutureWindHeatmapGrid(weather, todayIso, daysCount).value.days;
            var times := weather.hourly.value.time;
            forall k :: 0 <= k < |days| ==>
              && !Lt(days[k], todayIso)
              && exists i :: 0 <= i < |times| && DatePart(times[i]) == days[k]
  {
    var days := BuildFutureWindHeatmapGrid(weather, todayIso, daysCount).value.days;
    HeatmapShape(weather, todayIso, daysCount);
    forall k | 0 <= k < |days|
      ensures !Lt(days[k], todayIso)
      ensures exists i :: 0 <= i < |weather.hourly.value.time| && DatePart(weather.hourly.value.time[i]) == days[k]
    {
      DaySetMembers(weather.hourly.value.time, todayIso, days[k]);
    }
  }

  /** A feed holding one sample for today gives a heatmap of that one day. */
  lemma SingleSampleDays(weather: WeatherResponse, t: string, v: Num, today: string)
    requires DatePart(t) == today
    requires weather.hourly == Some(WeatherHourly([t], Some([v])))
    ensures BuildFutureWindHeatmapGrid(weather, today, DefaultDaysCount).Some?
    ensures BuildFutureWindHeatmapGrid(weather, today, DefaultDaysCount).value.days == [today]
  {
    var times := [t];
    LtIrreflexive(today);
    assert DaySet(times, today) == {today} by {
      assert DatePart(times[0]) == today;
    }
    var r := BuildFutureWindHeatmapGrid(weather, today, DefaultDaysCount);
    HeatmapShape(weather, today, DefaultDaysCount);
    assert |r.value.days| == 1;
    assert r.value.days[0] in DaySet(times, today);
  }

  /** A feed holding one reading, for an integral hour of today, gives a
      one-column heatmap with that reading in its hour. */
  lemma SingleReadingHeatmap(weather: WeatherResponse, t: string, v: Num, today: string, h: nat)
    requires DatePart(t) == today && ClassifyHour(t) == Hour(h) && v.Val?
    requires weather.hourly == Some(WeatherHourly([t], Some([v])))
    ensures BuildFutureWindHeatmapGrid(weather, today, DefaultDaysCount).Some?
    ensures BuildFutureWindHeatmapGrid(weather, today, DefaultDaysCount).value.days == [today]
    ensures BuildFutureWindHeatmapGrid(weather, today, DefaultDaysCount).value.grid[h][0] == Some(v)
  {
    SingleSampleDays(weather, t, v, today);
    assert IsReading(t, v, today, h);
    HeatmapCell(weather, today, DefaultDaysCount, h, 0);
  }

  lemma ExampleDate(t: string, today: string)
    requires t == "2024-01-01T05:00" && today == "2024-01-01"
    ensures DatePart(t) == today
  {
    assert t[..10] == today;
  }

  lemma ExampleHour(t: string)
    requires |t| >= 13 && t[11] == '0' && t[12] == '5'
    ensures ClassifyHour(t) == Hour(5)
  {
    assert DigitValue(t[11]) == 0 && DigitValue(t[12]) == 5;
    IsoHour(t);
  }

  /** The worked example: a single reading at "2024-01-01T05:00", asked for
      on that day, fills hour 5 of the only column. */
  lemma HeatmapExample(weather: WeatherResponse, t: string, v: Num, today: string)
    requires t == "2024-01-01T05:00" && today == "2024-01-01" && v.Val?
    requires weather.hourly == Some(WeatherHourly([t], Some([v])))
    ensures BuildFutureWindHeatmapGrid(weather, today).Some?
    ensures BuildFutureWindHeatmapGrid(weather, today).value.days == [today]
    ensures BuildFutureWindHeatmapGrid(weather, today).value.grid[5][0] == Some(v)
  {
    ExampleDate(t, today);
    ExampleHour(t);
    SingleReadingHeatmap(weather, t, v, today, 5);
  }
}
