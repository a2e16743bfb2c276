/** The part of the provider's one-call forecast response that the message
    builder reads, with the defaults its `dict.get` calls supply for missing keys.

    Probability of precipitation is held as a whole percentage (the source
    multiplies the provider's 0..1 fraction by 100); temperature and UV index are
    held in tenths, the precision the message prints them with. */
module Forecast {

  import opened Options

  /** One element of an entry's `weather` list. */
  datatype WeatherCondition = WeatherCondition(id: Option<int>, description: Option<string>)

  /** One element of `hourly`. `weather` is `None` when the key is missing,
      which the source reads as `[{}]`. */
  datatype HourlyEntry = HourlyEntry(
    dt: int,
    pop: Option<nat>,
    weather: Option<seq<WeatherCondition>>)

  /** One element of `daily`; `maxTemp` is `None` when `temp` or `temp.max` is missing. */
  datatype DailyEntry = DailyEntry(uvi: Option<int>, maxTemp: Option<int>)

  /** The response; a missing `daily` or `hourly` key is the empty sequence. */
  datatype Forecast = Forecast(daily: seq<DailyEntry>, hourly: seq<HourlyEntry>)

  /** `hour.get('pop', 0) * 100`. */
  function PopPercent(h: HourlyEntry): (p: nat)
    ensures h.pop.None? ==> p == 0
  {
    h.pop.GetOr(0)
  }

  /** `hour.get('weather', [{}])[0]` does not raise: the list is missing or non-empty. */
  predicate HasFirstCondition(h: HourlyEntry)
  {
    h.weather != Some([])
  }

  /** `hour.get('weather', [{}])[0]`. */
  function FirstCondition(h: HourlyEntry): WeatherCondition
    requires HasFirstCondition(h)
  {
    match h.weather
    case None => WeatherCondition(None, None)
    case Some(conditions) => conditions[0]
  }

  /** `hour.get('weather', [{}])[0].get('id', 0)`. */
  function WeatherId(h: HourlyEntry): (id: int)
    requires HasFirstCondition(h)
    ensures h.weather.None? ==> id == 0
    ensures h.weather.Some? && h.weather.value[0].id.None? ==> id == 0
  {
    FirstCondition(h).id.GetOr(0)
  }

  /** `hour.get('weather', [{}])[0].get('description', '')`. */
  function Description(h: HourlyEntry): (d: string)
    requires HasFirstCondition(h)
    ensures h.weather.None? ==> d == ""
  {
    FirstCondition(h).description.GetOr("")
  }

  /** `today.get('uvi', 0)`, in tenths. */
  function UviTenths(d: DailyEntry): (u: int)
    ensures d.uvi.None? ==> u == 0
  {
    d.uvi.GetOr(0)
  }

  /** `today.get('temp', {}).get('max', 0)`, in tenths of a degree Celsius. */
  function MaxTempTenths(d: DailyEntry): (t: int)
    ensures d.maxTemp.None? ==> t == 0
  {
    d.maxTemp.GetOr(0)
  }
}
