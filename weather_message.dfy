/** `format_weather_message`: the heat check, the rain scan and the assembly of
    the final notification text, or `None` when there is nothing to send.

    The functions give the message as a value of the forecast and the clock; the
    method `FormatWeatherMessage` builds it step by step as the source does and
    is proved to produce that value. */
module WeatherMessage {

  import opened Options
  import opened Text
  import opened Clock
  import opened Forecast
  import opened RainRules

  /** The heat check runs only while the UTC hour is below this. */
  const HeatCheckBeforeUtcHour: nat := 8

  /** `uv_index > 9`, in tenths. */
  const UviLimitTenths: int := 90

  /** `max_temp > 38`, in tenths of a degree. */
  const MaxTempLimitTenths: int := 380

  predicate HeatCheckRuns(c: Clock)
  {
    UtcHour(c) < HeatCheckBeforeUtcHour
  }

  /** `forecast.get('daily', [])[0]` does not raise whenever the check runs. */
  predicate HeatCheckSafe(f: Forecast, c: Clock)
  {
    HeatCheckRuns(c) ==> f.daily != []
  }

  /** The check runs and today's UV index or maximum temperature is over its limit. */
  predicate HeatFires(f: Forecast, c: Clock)
    ensures HeatFires(f, c) ==> UtcHour(c) < HeatCheckBeforeUtcHour && f.daily != []
    ensures (f.daily != [] && UviTenths(f.daily[0]) <= UviLimitTenths &&
             MaxTempTenths(f.daily[0]) <= MaxTempLimitTenths) ==> !HeatFires(f, c)
  {
    HeatCheckRuns(c) && f.daily != [] &&
    (UviTenths(f.daily[0]) > UviLimitTenths || MaxTempTenths(f.daily[0]) > MaxTempLimitTenths)
  }

  /** The fixed text of `heat_message` around its two readings. */
  const HeatTempLead: string := "☀️ *วันนี้แดดแรงเฟร่อ!*\n\n" + "🥵 อากาศร้อนสุดๆ แตะ "
  const HeatUvLead: string := "°C\n" + "👿 ตัวร้าย UV แรงถึง "
  const HeatTail: string := "\n\n" + "คำแนะนำ: ทากันแดด พกร่มด้วยน้า~ อยู่ในที่ร่มดีที่สุดจ้า 😎"

  /** `heat_message` for today's entry. It reports today's maximum temperature
      and then today's UV index, each readable back from the text. */
  function HeatMessage(today: DailyEntry): (r: string)
    ensures var temp := TenthsText(MaxTempTenths(today));
      OccursAt(r, |HeatTempLead|, temp) && ParseTenths(temp) == Some(MaxTempTenths(today))
    ensures var uvAt := |HeatTempLead| + |TenthsText(MaxTempTenths(today))| + |HeatUvLead|;
      var uv := TenthsText(UviTenths(today));
      OccursAt(r, uvAt, uv) && ParseTenths(uv) == Some(UviTenths(today))
  {
    var temp := TenthsText(MaxTempTenths(today));
    var uv := TenthsText(UviTenths(today));
    TenthsRoundTrip(MaxTempTenths(today));
    TenthsRoundTrip(UviTenths(today));
    TwoFieldsOccur(HeatTempLead, temp, HeatUvLead, uv, HeatTail);
    HeatTempLead + temp + HeatUvLead + uv + HeatTail
  }

  /** The fixed text of `rain_message` around the event's time and description. */
  const RainTimeLead: string := "☔️ *เตรียมร่มด่วน! ฝนกำลังมา!*\n\n" + "⏰ คาดว่าจะเริ่มตกช่วง *"
  const RainDescLead: string := "*\n" + "ลักษณะ: "
  const RainTail: string := "\n\n" + "คำแนะนำ: เก็บผ้าที่ตากด่วน! ใครจะกลับบ้านรีบเลยน้า 👕👖"

  /** `rain_message` for the recorded event: its time, then its description. */
  function RainMessage(e: RainEvent): (r: string)
    ensures OccursAt(r, |RainTimeLead|, e.time)
    ensures OccursAt(r, |RainTimeLead| + |e.time| + |RainDescLead|, e.cuteDesc)
  {
    TwoFieldsOccur(RainTimeLead, e.time, RainDescLead, e.cuteDesc, RainTail);
    RainTimeLead + e.time + RainDescLead + e.cuteDesc + RainTail
  }

  /** The heat block, if the heat check fires. */
  function HeatParts(f: Forecast, c: Clock): seq<string>
  {
    if HeatFires(f, c) then [HeatMessage(f.daily[0])] else []
  }

  /** The rain block, if the scan records an event. */
  function RainParts(f: Forecast, c: Clock): seq<string>
  {
    match FirstRainEvent(f.hourly, c)
    case None => []
    case Some(e) => [RainMessage(e)]
  }

  /** `alert_parts` when the message is assembled: heat first, then rain. */
  function AlertParts(f: Forecast, c: Clock): seq<string>
  {
    HeatParts(f, c) + RainParts(f, c)
  }

  const HeaderLead: string := "📍 อัปเดตอากาศ | อินทร์บุรี\n(ข้อมูลล่าสุด "

  /** The header block, with the host's local time of the run, which reads
      back as that hour and minute. */
  function Header(c: Clock): (r: string)
    ensures var at := |HeaderLead|;
      at + |ClockText(LocalNow(c))| <= |r| &&
      ParseClockText(r[at .. at + |ClockText(LocalNow(c))|]) == Some(LocalNow(c))
  {
    var now := ClockText(LocalNow(c));
    ClockTextRoundTrip(LocalNow(c));
    MiddleOccurs(HeaderLead, now, ")");
    HeaderLead + now + ")"
  }

  const Separator: string := "\n\n- - - - - - - - - - - - - - -\n\n"

  /** What precedes the first block. */
  function MessagePrefix(header: string): string
  {
    "\n" + header + "\n\n"
  }

  /** The final step: nothing to send for no blocks, otherwise the header and
      the blocks joined by the separator. */
  function Compose(parts: seq<string>, header: string): (m: Option<string>)
    ensures m.None? <==> parts == []
    ensures m.Some? ==>
      OccursAt(m.value, 0, MessagePrefix(header)) &&
      OccursAt(m.value, |MessagePrefix(header)|, parts[0])
  {
    if parts == [] then None
    else
      var prefix := MessagePrefix(header);
      var joined := Join(parts, Separator);
      JoinPlacesParts(parts, Separator, 0);
      SliceOfSuffix(prefix, joined, 0, |parts[0]|);
      assert (prefix + joined)[..|prefix|] == prefix;
      Some(prefix + joined)
  }

  /** `format_weather_message(forecast)` as a value. */
  function WeatherMessageOf(f: Forecast, c: Clock): (r: Option<string>)
    ensures r.None? <==> !HeatFires(f, c) && FirstRainEvent(f.hourly, c).None?
    ensures r.Some? ==> OccursAt(r.value, 0, MessagePrefix(Header(c)))
    ensures HeatFires(f, c) ==>
      r.Some? && OccursAt(r.value, |MessagePrefix(Header(c))|, HeatMessage(f.daily[0]))
    ensures !HeatFires(f, c) && FirstRainEvent(f.hourly, c).Some? ==>
      r.Some? && OccursAt(r.value, |MessagePrefix(Header(c))|, RainMessage(FirstRainEvent(f.hourly, c).value))
  {
    Compose(AlertParts(f, c), Header(c))
  }

  /** The loop over `hourly[:24]`: skip stale entries, stop at the first
      significant one and record it. */
  method ScanForRainEvent(hourly: seq<HourlyEntry>, c: Clock) returns (firstEvent: Option<RainEvent>)
    requires ScanSafe(Window(hourly), c)
    ensures firstEvent == FirstRainEvent(hourly, c)
  {
    var hourlyForecast := Window(hourly);
    firstEvent := None;
    var i := 0;
    while i < |hourlyForecast|
      invariant 0 <= i <= |hourlyForecast|
      invariant ScanSafe(hourlyForecast[i..], c)
      invariant forall j :: 0 <= j < i ==> !IsRainEvent(hourlyForecast[j], c)
      invariant firstEvent == None
    {
      var hour := hourlyForecast[i];
      assert hourlyForecast[i..][1..] == hourlyForecast[i + 1..];
      if IsStale(hour, c) {
        i := i + 1;
        continue;
      }

      var pop := PopPercent(hour);
      var weatherId := WeatherId(hour);

      var isSignificant := false;
      if IsThunderstormId(weatherId) && pop >= 40 {
        isSignificant := true;
      } else if weatherId in HeavyRainIds && pop >= 50 {
        isSignificant := true;
      } else if weatherId == ModerateRainId && pop >= 70 {
        isSignificant := true;
      }

      if isSignificant {
        var time := ClockText(LocalTimeOf(c, hour.dt, DisplayShiftHours));
        var description := Description(hour);
        firstEvent := Some(RainEvent(time, CuteRainDescription(weatherId, description, pop)));
        assert FirstRainEventIndex(hourlyForecast, c) == Some(i);
        break;
      }
      i := i + 1;
    }
  }

  /** `format_weather_message`. The precondition is what keeps the source from
      raising `IndexError`: `daily` is non-empty when the heat check runs, and
      the scan meets a rain event before any entry with an empty `weather` list. */
  method FormatWeatherMessage(f: Forecast, c: Clock) returns (message: Option<string>)
    requires HeatCheckSafe(f, c)
    requires ScanSafe(Window(f.hourly), c)
    ensures message == WeatherMessageOf(f, c)
  {
    var alertParts: seq<string> := [];

    if UtcHour(c) < HeatCheckBeforeUtcHour {
      var today := f.daily[0];
      var uvIndex := UviTenths(today);
      var maxTemp := MaxTempTenths(today);
      if uvIndex > UviLimitTenths || maxTemp > MaxTempLimitTenths {
        alertParts := alertParts + [HeatMessage(today)];
      }
    }
    assert alertParts == HeatParts(f, c);

    var firstEvent := ScanForRainEvent(f.hourly, c);

    if firstEvent.Some? {
      alertParts := alertParts + [RainMessage(firstEvent.value)];
    }

    if alertParts == [] {
      return None;
    }

    var header := Header(c);
    message := Some("\n" + header + "\n\n" + Join(alertParts, Separator));
  }

  /** Whatever the forecast, no heat block is produced from 08:00 UTC on. */
  lemma NoHeatCheckAfterMorning(f: Forecast, c: Clock)
    requires UtcHour(c) >= HeatCheckBeforeUtcHour
    ensures HeatParts(f, c) == []
    ensures AlertParts(f, c) == RainParts(f, c)
  {
  }

  /** A missing UV index and a missing maximum temperature default to 0 and
      never trigger the heat block. */
  lemma MissingHeatReadingsNeverFire(f: Forecast, c: Clock)
    requires f.daily != [] && f.daily[0].uvi.None? && f.daily[0].maxTemp.None?
    ensures HeatParts(f, c) == []
  {
  }

  /** The heat rule only looks at thresholds from below: a day at least as hot
      and at least as sunny as one that fires fires too, at the same run time. */
  lemma HotterDayStillFires(f: Forecast, g: Forecast, c: Clock)
    requires f.daily != [] && g.daily != []
    requires UviTenths(g.daily[0]) >= UviTenths(f.daily[0])
    requires MaxTempTenths(g.daily[0]) >= MaxTempTenths(f.daily[0])
    requires HeatParts(f, c) != []
    ensures HeatParts(g, c) == [HeatMessage(g.daily[0])]
  {
  }

  /** At most one heat block and at most one rain block, heat first. */
  lemma AlertPartsLayout(f: Forecast, c: Clock)
    ensures |AlertParts(f, c)| <= 2
    ensures HeatFires(f, c) ==> AlertParts(f, c)[0] == HeatMessage(f.daily[0])
    ensures FirstRainEvent(f.hourly, c).Some? ==>
      AlertParts(f, c)[|AlertParts(f, c)| - 1] == RainMessage(FirstRainEvent(f.hourly, c).value)
    ensures |AlertParts(f, c)| == 2 ==>
      HeatFires(f, c) && FirstRainEvent(f.hourly, c).Some?
  {
    var heat, rain := HeatParts(f, c), RainParts(f, c);
    assert |heat| == 1 <==> HeatFires(f, c);
    assert |rain| == 1 <==> FirstRainEvent(f.hourly, c).Some?;
    ConcatOfAtMostOnes(heat, rain);
  }

  /** Two lists of at most one element each: the first one's element leads and
      the second one's closes their concatenation. */
  lemma ConcatOfAtMostOnes(h: seq<string>, r: seq<string>)
    requires |h| <= 1 && |r| <= 1
    ensures |h + r| <= 2
    ensures |h| == 1 ==> (h + r)[0] == h[0]
    ensures |r| == 1 ==> (h + r)[|h + r| - 1] == r[0]
    ensures |h + r| == 2 ==> |h| == 1 && |r| == 1
  {
  }

  /** Nothing to send exactly when there are no blocks; otherwise the message is
      the prefix followed by every block at its place in the join, in order. */
  lemma {:induction false} ComposeKeepsBlocksInOrder(parts: seq<string>, header: string, i: nat)
    requires i < |parts|
    ensures Compose(parts, header).Some?
    ensures var m := Compose(parts, header).value;
      var at := |MessagePrefix(header)| + PartOffset(parts, Separator, i);
      m[..|MessagePrefix(header)|] == MessagePrefix(header) &&
      at + |parts[i]| <= |m| && m[at .. at + |parts[i]|] == parts[i]
  {
    var prefix := MessagePrefix(header);
    var joined := Join(parts, Separator);
    JoinPlacesParts(parts, Separator, i);
    var o := PartOffset(parts, Separator, i);
    SliceOfSuffix(prefix, joined, o, o + |parts[i]|);
    assert (prefix + joined)[..|prefix|] == prefix;
  }

  /** No message is produced exactly when neither the heat check fires nor the
      scan records a rain event. */
  lemma MessageAbsentIffNoAlert(f: Forecast, c: Clock)
    ensures WeatherMessageOf(f, c).None? <==> !HeatFires(f, c) && FirstRainEvent(f.hourly, c).None?
  {
  }

  /** Two blocks are written out as the prefix, the first block, the separator
      and the second block. */
  lemma ComposeTwoBlocks(first: string, second: string, header: string)
    ensures Compose([first, second], header) == Some(MessagePrefix(header) + first + Separator + second)
  {
    var prefix := MessagePrefix(header);
    assert [first, second][1..] == [second];
    assert Join([first, second], Separator) == first + Separator + second;
    assert prefix + (first + Separator + second) == prefix + first + Separator + second;
  }

  /** When both fire, the heat block comes first, then the separator, then the
      rain block. */
  lemma HeatBlockPrecedesRainBlock(f: Forecast, c: Clock)
    requires HeatFires(f, c) && FirstRainEvent(f.hourly, c).Some?
    ensures WeatherMessageOf(f, c) == Some(MessagePrefix(Header(c))
      + HeatMessage(f.daily[0]) + Separator + RainMessage(FirstRainEvent(f.hourly, c).value))
  {
    BothBlocksWhenBothFire(f, c);
    ComposeTwoBlocks(HeatMessage(f.daily[0]), RainMessage(FirstRainEvent(f.hourly, c).value), Header(c));
  }

  lemma BothBlocksWhenBothFire(f: Forecast, c: Clock)
    requires HeatFires(f, c) && FirstRainEvent(f.hourly, c).Some?
    ensures AlertParts(f, c) == [HeatMessage(f.daily[0]), RainMessage(FirstRainEvent(f.hourly, c).value)]
  {
  }

  /** A fresh hourly entry with the given condition id and probability. */
  function EntryAt(dt: int, pop: nat, id: int, description: string): HourlyEntry
  {
    HourlyEntry(dt, Some(pop), Some([WeatherCondition(Some(id), Some(description))]))
  }

  /** A 40.2 °C day before 08:00 UTC with no significant rain: only the heat
      block is sent, and it reads "40.2". */
  lemma HotMorningSendsHeatOnly(c: Clock, dt: int)
    requires HeatCheckRuns(c)
    ensures var f := Forecast([DailyEntry(None, Some(402))], [EntryAt(dt, 10, 800, "clear")]);
      FirstRainEvent(f.hourly, c).None? &&
      WeatherMessageOf(f, c) == Compose([HeatMessage(f.daily[0])], Header(c)) &&
      TenthsText(MaxTempTenths(f.daily[0])) == "40.2"
  {
    var f := Forecast([DailyEntry(None, Some(402))], [EntryAt(dt, 10, 800, "clear")]);
    ClearHourRecordsNothing(c, dt);
    assert RainParts(f, c) == [];
    assert HeatFires(f, c);
    assert AlertParts(f, c) == HeatParts(f, c);
    FortyPointTwo();
  }

  lemma FortyPointTwo()
    ensures TenthsText(402) == "40.2"
  {
    assert NatText(40) == "40";
  }

  lemma ClearHourRecordsNothing(c: Clock, dt: int)
    ensures FirstRainEvent([EntryAt(dt, 10, 800, "clear")], c).None?
  {
    assert !IsRainEvent(EntryAt(dt, 10, 800, "clear"), c);
  }

  /** Heavy rain at 60% in a fresh entry after the morning: the rain block is
      sent with the heavy-rain phrase and "(60%)". */
  lemma HeavyRainSendsRainOnly(c: Clock, dt: int)
    requires !HeatCheckRuns(c) && !IsStale(EntryAt(dt, 60, 502, "heavy intensity rain"), c)
    ensures var f := Forecast([], [EntryAt(dt, 60, 502, "heavy intensity rain")]);
      FirstRainEvent(f.hourly, c).Some? &&
      FirstRainEvent(f.hourly, c).value.cuteDesc == Phrase(HeavyRain) + " (60%)" &&
      WeatherMessageOf(f, c) == Compose([RainMessage(FirstRainEvent(f.hourly, c).value)], Header(c))
  {
    var f := Forecast([], [EntryAt(dt, 60, 502, "heavy intensity rain")]);
    assert IsRainEvent(f.hourly[0], c);
    assert FirstRainEventIndex(Window(f.hourly), c) == Some(0);
    assert NatText(60) == "60";
  }

  /** Moderate rain at 30% after the morning: nothing to send. */
  lemma ModerateRainBelowThresholdSendsNothing(c: Clock, dt: int)
    requires !HeatCheckRuns(c)
    ensures WeatherMessageOf(Forecast([], [EntryAt(dt, 30, 501, "moderate rain")]), c) == None
  {
    var f := Forecast([], [EntryAt(dt, 30, 501, "moderate rain")]);
    assert !IsRainEvent(f.hourly[0], c);
    assert FirstRainEventIndex(Window(f.hourly), c) == None;
  }

  /** No hourly entries after the morning: nothing to send. */
  lemma EmptyForecastSendsNothing(f: Forecast, c: Clock)
    requires !HeatCheckRuns(c) && f.hourly == []
    ensures WeatherMessageOf(f, c) == None
  {
  }
}
