/**
  The shapes the weather engine reads and produces. Input records mirror the
  weather response as the engine uses it (optional metrics become `Option`,
  unit tables become string maps); output records mirror `ChartData`,
  `SplitIndices` and `WindHeatmapGrid`.
 */
module WeatherTypes {
  import opened Wrappers

  /** A JavaScript number taken from the response. Only NaN is told apart;
      no arithmetic is ever done on the values. */
  datatype Num = NaN | Val(v: real)

  /** Day-indexed series: `time[i]` is the ISO date of entry `i` of every metric. */
  datatype WeatherDaily = WeatherDaily(
    time: seq<string>,
    temperature_2m_max: Option<seq<Num>>,
    temperature_2m_min: Option<seq<Num>>,
    precipitation_sum: Option<seq<Num>>,
    precipitation_probability_max: Option<seq<Num>>)

  /** Hour-indexed series: `time[i]` is an ISO timestamp `YYYY-MM-DDTHH:MM`. */
  datatype WeatherHourly = WeatherHourly(
    time: seq<string>,
    windspeed_10m: Option<seq<Num>>)

  /** A unit table maps a metric name to its unit, e.g. "windspeed_10m" to "km/h". */
  type Units = map<string, string>

  datatype WeatherResponse = WeatherResponse(
    daily: Option<WeatherDaily>,
    daily_units: Option<Units>,
    hourly: Option<WeatherHourly>,
    hourly_units: Option<Units>)

  /** Positions into a date sequence: those before the reference date and the rest. */
  datatype SplitIndices = SplitIndices(past: seq<int>, future: seq<int>)

  /** One named series of a chart; `values` is `None` when it is not an array. */
  datatype ChartDataset = ChartDataset(name: string, values: Option<seq<Num>>)

  datatype ChartData = ChartData(labels: seq<string>, datasets: seq<ChartDataset>)

  /** The `{ past, future }` pair returned by the temperature and rain builders. */
  datatype PastFutureCharts = PastFutureCharts(past: Option<ChartData>, future: Option<ChartData>)

  /** `grid[hour][day]`; `None` is the `null` of an empty cell. */
  datatype WindHeatmapGrid = WindHeatmapGrid(
    days: seq<string>,
    hours: seq<int>,
    grid: seq<seq<Option<Num>>>,
    unit: string)
}
