# Weather alert for Inburi, Sing Buri: verified model of the alert decision

`weather_alert.py` fetches the One Call forecast for one point in Sing Buri
province, decides whether anything is worth announcing, composes a Thai
notification and broadcasts it to every follower of a LINE Official Account.
This project models the part that decides and composes:

- **Rain classification** (`RainRules`). A condition id and a probability of
  precipitation make an hour significant in three cases. Thunderstorm ids
  (`id // 100 == 2`) need 40% or more. The heavy-rain ids 502, 503, 504, 521
  and 522 need 50% or more. Moderate rain, id 501, needs 70% or more.
- **Rain phrasing** (`RainRules.CuteRainDescription`). Each family has a fixed
  Thai phrase. Any other id falls back to the provider's description. The
  probability in brackets follows either way.
- **The rain scan** (`RainRules.FirstRainEventIndex`, and the loop in
  `WeatherMessage.ScanForRainEvent`). The scan looks at the first 24 hourly
  entries in order. It skips entries more than seven hours in the past. It
  records the first significant entry and stops there.
- **The heat rule** (`WeatherMessage.HeatFires`). It applies only while the UTC
  hour is below 8. It fires when today's UV index is over 9 or today's maximum
  temperature is over 38 °C.
- **Composition** (`WeatherMessage.FormatWeatherMessage`). The blocks are
  collected heat first, then rain. No blocks gives `None`. Otherwise the
  message is a newline, the header, two newlines, and the blocks joined by the
  dashed separator.

Files and modules:

- `options.dfy` (`Options`): the optional value, and `dict.get` with a default.
- `text.dfy` (`Text`): decimal, tenths and two-digit rendering, each with a
  reader and a round-trip lemma, plus `str.join` with a lemma saying where
  each part ends up.
- `clock.dfy` (`Clock`): the explicit clock, the time of day, and the
  `'%H:%M น.'` rendering with its reader.
- `forecast.dfy` (`Forecast`): the response fields that are read, with their
  defaults.
- `rain.dfy` (`RainRules`): classification, phrasing and the scan.
- `weather_message.dfy` (`WeatherMessage`): the heat rule, the blocks, the
  composition, and the method that builds the message step by step.

`WeatherMessage.FormatWeatherMessage` and `WeatherMessage.ScanForRainEvent`
follow the source's statements: the appends to `alert_parts`, the loop with
`continue` and `break`, and the `is_significant` flag. Each is proved to return
the value that the functions `WeatherMessageOf` and `FirstRainEvent` define.
The lemmas are stated about those functions.

Inputs the source reads from its surroundings are parameters here:

- `datetime.utcnow()` and the calls to `datetime.now()` are modelled as
  reading one instant, `Clock.nowMicros`, in microseconds since the epoch.
- The host's time zone becomes `Clock.hostOffset`, a fixed offset in seconds.
  `datetime.now()` and `datetime.fromtimestamp` read local time through it.
- The forecast is the `Forecast` value.

This model follows `weather_alert.py`: `daily` and `hourly`, 24 hourly
entries, UV or temperature, gated to runs before 08:00 UTC.

## Model

| member | source | states |
|---|---|---|
| `RainRules.SignificantIffFamilyThreshold` | weather_alert.py:86-92 | An hour is significant exactly when its id belongs to a family and its probability reaches that family's threshold (40, 50 or 70). Any id outside the three families is never significant. |
| `RainRules.FamilyOf` | weather_alert.py:50-55 | The thunderstorm family is exactly the ids 200..299 (`id // 100 == 2`). Heavy rain is exactly {502, 503, 504, 521, 522}. Moderate rain is exactly 501. |
| `RainRules.CuteRainDescription` | weather_alert.py:47-56 | A family's id gets that family's fixed phrase. Any other id gets the provider's description. Either way a space and the bracketed percentage follow. |
| `RainRules.SignificantUsesFixedPhrase` | weather_alert.py:47-56 | A significant condition is always phrased by one of the three fixed phrases, never by the provider's description. |
| `RainRules.Window` | weather_alert.py:79 | `hourly[:24]`: exactly the first min(24, len(hourly)) entries, a prefix of the list, and the whole list when it is that short. |
| `RainRules.IsSignificant` | weather_alert.py:89-92 | Only a probability of 40% or more, with an id in 200..299 or in {501, 502, 503, 504, 521, 522}, can make an hour significant. |
| `RainRules.IsStale` | weather_alert.py:83-84 | An entry is skipped exactly when its time is more than seven hours before now, counting the fraction of a second of now: equal whole seconds are stale only when now has a fraction. |
| `RainRules.ScanSafeIffNoCrashBeforeEvent` | weather_alert.py:82-102 | The scan raises on no entry exactly when every non-stale entry with an empty `weather` list comes after a recorded event, where the loop has already stopped. |
| `RainRules.FirstRainEventIndex` | weather_alert.py:82-102 | The recorded index is a non-stale significant entry, and no earlier entry is one. No index is recorded only when no entry is one. |
| `RainRules.FirstRainEventIsFirstMatch` | weather_alert.py:79-102 | The recorded event is built from the earliest rain event among the first 24 entries. There is no event exactly when none of those entries is a rain event. |
| `RainRules.EarlierEventWins` | weather_alert.py:94-102 | Once an earlier entry is a rain event, no later entry is ever recorded, whatever its probability. |
| `RainRules.ModerateBelowSeventyNeverChosen` | weather_alert.py:92-94 | An entry with id 501 and a probability below 70% is never recorded, wherever it stands. |
| `RainRules.StaleNeverChosen` | weather_alert.py:83-84 | An entry more than seven hours before now is skipped and never recorded. |
| `RainRules.MissingFieldsNeverEvent` | weather_alert.py:86-92 | A missing `pop`, a missing `weather` list, or a missing `id` defaults to 0, and such an entry is never a rain event. |
| `RainRules.EntriesBeyondWindowIgnored` | weather_alert.py:79 | Appending entries after the first 24 never changes the recorded event. |
| `RainRules.RainEventAt` | weather_alert.py:95-101 | The recorded time reads back as the hour and minute of the entry's local time plus seven hours. A significant entry's description is one of the three fixed phrases followed by the bracketed percentage. |
| `RainRules.FirstRainEvent` | weather_alert.py:79-102 | No event is recorded exactly when none of the first 24 entries is a non-stale significant one. |
| `Forecast.PopPercent` | weather_alert.py:86 | A missing `pop` reads as 0%. |
| `Forecast.WeatherId` | weather_alert.py:87 | A missing `weather` list, or a missing `id` in its first element, reads as id 0. |
| `Forecast.Description` | weather_alert.py:96 | A missing `weather` list reads as the empty description. |
| `Forecast.UviTenths` | weather_alert.py:66 | A missing `uvi` reads as 0. |
| `Forecast.MaxTempTenths` | weather_alert.py:67 | A missing `temp` or `temp.max` reads as 0. |
| `Clock.TimeOfDayAt` | weather_alert.py:95-99 | Hour below 24 and minute below 60. The instant is a whole number of days plus that hour and minute plus fewer than 60 seconds. |
| `Clock.UtcHour` | weather_alert.py:61-64 | `datetime.utcnow().hour` is below 24. |
| `Clock.ClockTextRoundTrip` | weather_alert.py:99 | Reading a `'%H:%M น.'` rendering gives back the hour and minute it was made from. |
| `Text.NatTextRoundTrip` | weather_alert.py:49 | The decimal digits of a percentage read back as the percentage. |
| `Text.TenthsRoundTrip` | weather_alert.py:72-73 | A `{:.1f}` rendering of a reading held in tenths, negatives included, reads back as the same number of tenths. |
| `Text.TwoDigits` | weather_alert.py:99 | `%H` and `%M` give exactly two digits, and they denote the field's value. |
| `Text.JoinPlacesParts` | weather_alert.py:121 | In `sep.join(parts)` each part appears in order at its offset, and the separator follows every part but the last. |
| `Text.JoinLength` | weather_alert.py:121 | The join ends exactly where its last part ends. |
| `WeatherMessage.HeatFires` | weather_alert.py:64-69 | The heat block fires only before 08:00 UTC and only with a `daily` entry. A day with UV at most 9 and a maximum at most 38 °C never fires. |
| `WeatherMessage.HeatMessage` | weather_alert.py:70-75 | The block shows the maximum temperature and then the UV index, each with one decimal, at fixed places, and each reads back as the reading. |
| `WeatherMessage.RainMessage` | weather_alert.py:105-110 | The block shows the event's time and then its description, at fixed places. |
| `WeatherMessage.Header` | weather_alert.py:118-119 | The header carries the local time of the run, which reads back as that hour and minute. |
| `WeatherMessage.Compose` | weather_alert.py:114-121 | No message exactly when there are no blocks. Otherwise the message starts with the newline, header and two newlines, and the first block follows. |
| `WeatherMessage.WeatherMessageOf` | weather_alert.py:58-123 | No message exactly when neither the heat rule nor the scan fires. A message starts with the prefix. The heat block follows it when the heat rule fires, and otherwise the rain block does. |
| `WeatherMessage.ScanForRainEvent` | weather_alert.py:79-102 | The loop returns exactly the event that `FirstRainEvent` specifies. |
| `WeatherMessage.FormatWeatherMessage` | weather_alert.py:58-123 | Building the message step by step, it returns exactly `WeatherMessageOf`. It requires only what keeps `[0]` from raising. |
| `WeatherMessage.NoHeatCheckAfterMorning` | weather_alert.py:63-64 | From 08:00 UTC on, no heat block is produced, so the blocks are only the rain block, if any. |
| `WeatherMessage.MissingHeatReadingsNeverFire` | weather_alert.py:65-69 | A missing UV index and maximum temperature default to 0, and together they never trigger the heat block. |
| `WeatherMessage.HotterDayStillFires` | weather_alert.py:69 | A day at least as hot and at least as sunny as one that fires also fires, at the same run time. |
| `WeatherMessage.AlertPartsLayout` | weather_alert.py:60-111 | At most two blocks. A heat block, when there is one, comes first. A rain block, when there is one, comes last. Two blocks means both fired. |
| `WeatherMessage.ComposeKeepsBlocksInOrder` | weather_alert.py:114-121 | A non-empty list of blocks gives a message. It starts with the newline, header and two newlines, and then every block sits at its place in the join, in order. |
| `WeatherMessage.ComposeTwoBlocks` | weather_alert.py:119-121 | Two blocks give the prefix, the first block, the separator and the second block. |
| `WeatherMessage.MessageAbsentIffNoAlert` | weather_alert.py:104-116 | `None` is returned exactly when the heat rule does not fire and the scan records no event. |
| `WeatherMessage.HeatBlockPrecedesRainBlock` | weather_alert.py:60-121 | When both fire, the message is the prefix, then the heat block, the separator and the rain block. |
| `WeatherMessage.HotMorningSendsHeatOnly` | weather_alert.py:64-76 | A 40.2 °C day before 08:00 UTC, with a clear hour, sends only the heat block, and it shows "40.2". |
| `WeatherMessage.HeavyRainSendsRainOnly` | weather_alert.py:86-111 | A fresh 502 hour at 60% after the morning records the heavy-rain phrase with "(60%)" and sends exactly the rain block. |
| `WeatherMessage.ModerateRainBelowThresholdSendsNothing` | weather_alert.py:92-116 | A 501 hour at 30% after the morning sends nothing. |
| `WeatherMessage.EmptyForecastSendsNothing` | weather_alert.py:79-116 | No hourly entries after the morning sends nothing. |

## Left out

- `get_weather_forecast`, `send_line_notification` and the `__main__` driver (weather_alert.py:37-45, 125-156): HTTP requests, JSON handling and the broadcast, with no decision logic of their own.
- The coordinates, the secrets read from the environment and the URLs (weather_alert.py:20-32): constants and configuration only.
- The `print` calls (weather_alert.py:115 and in the I/O functions): logging only.
- The clock and the host zone are parameters. The zone is a fixed offset from UTC, so daylight-saving transitions and `fromtimestamp` range errors are not modelled.
- Probability is a whole percentage. For provider values with two decimals, Python's `pop * 100` never falls on the other side of 40, 50 or 70 from the exact percentage, and `{:.0f}` prints the exact percentage. Probabilities with more decimals are not modelled.
- Temperature and UV index are held in tenths, so `{:.1f}` is exact. Readings with a finer fraction, and the rounding `{:.1f}` would apply to them, are not modelled.
- The separate clock reads are collapsed into one instant: `utcnow()` (weather_alert.py:61), `now()` on each loop iteration (weather_alert.py:83) and `now()` for the header (weather_alert.py:118). A run that crosses a minute or hour boundary between these reads is not captured.
- A missing `dt` in an hourly entry is not modelled. The source raises `KeyError` there (weather_alert.py:83, 95); the model's `dt` is always present.
- Values of the wrong JSON type (a string `pop`, a `weather` element that is not an object) are not modelled.
- `FormatWeatherMessage`: the two `IndexError` cases are preconditions rather than behaviour. One is `[0]` on an empty `daily` when the heat check runs. The other is `[0]` on an empty `weather` list in an entry the scan reaches. The specification functions `FirstRainEvent` and `WeatherMessageOf` are total. On inputs where the source raises, they give a value the source never produces.
