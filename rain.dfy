/** Rain detection: which weather condition ids and probabilities are
    significant, how a significant condition is phrased, and the scan that picks
    the first significant, non-stale hourly entry within the lookahead window. */
module RainRules {

  import opened Options
  import opened Text
  import opened Clock
  import opened Forecast

  /** The three condition families the rules single out. */
  datatype RainFamily = Thunderstorm | HeavyRain | ModerateRain

  const HeavyRainIds: set<int> := {502, 503, 504, 521, 522}
  const ModerateRainId: int := 501

  /** `weather_id // 100 == 2`. For the positive divisor 100, Dafny's `/` rounds
      down exactly like Python's `//`, negative ids included. */
  predicate IsThunderstormId(id: int)
  {
    id / 100 == 2
  }

  /** The family of a condition id, tested in the order the phrasing tests it. */
  function FamilyOf(id: int): (f: Option<RainFamily>)
    ensures f == Some(Thunderstorm) <==> 200 <= id < 300
    ensures f == Some(HeavyRain) <==> id in {502, 503, 504, 521, 522}
    ensures f == Some(ModerateRain) <==> id == 501
  {
    if IsThunderstormId(id) then Some(Thunderstorm)
    else if id in HeavyRainIds then Some(HeavyRain)
    else if id == ModerateRainId then Some(ModerateRain)
    else None
  }

  /** Smallest probability, in percent, at which a family is significant. */
  function Threshold(f: RainFamily): nat
  {
    match f
    case Thunderstorm => 40
    case HeavyRain => 50
    case ModerateRain => 70
  }

  /** The `is_significant` flag: one of the three guarded assignments fires. */
  predicate IsSignificant(id: int, pop: nat)
    ensures IsSignificant(id, pop) ==> pop >= 40
    ensures IsSignificant(id, pop) ==> 200 <= id < 300 || id in {501, 502, 503, 504, 521, 522}
  {
    (IsThunderstormId(id) && pop >= 40)
    || (id in HeavyRainIds && pop >= 50)
    || (id == ModerateRainId && pop >= 70)
  }

  /** Significance is exactly: the id is in a family, and the probability
      reaches that family's threshold. Every other id is never significant. */
  lemma SignificantIffFamilyThreshold(id: int, pop: nat)
    ensures IsSignificant(id, pop) <==> FamilyOf(id).Some? && pop >= Threshold(FamilyOf(id).value)
    ensures FamilyOf(id).None? ==> !IsSignificant(id, pop)
  {
  }

  /** `f"({pop:.0f}%)"`. */
  function PopText(pop: nat): string
  {
    "(" + NatText(pop) + "%)"
  }

  /** The fixed phrase for each family. */
  function Phrase(f: RainFamily): string
  {
    match f
    case Thunderstorm => "ระวัง! มีพายุเข้า ⛈️"
    case HeavyRain => "ฝนตกหนักมว๊ากก 🌧️"
    case ModerateRain => "ฝนตกปานกลางนะ 💧"
  }

  /** `get_cute_rain_description`: the family's fixed phrase, or the provider's
      own description for an id outside the three families; the probability
      follows either way. */
  function CuteRainDescription(id: int, description: string, pop: nat): (r: string)
    ensures FamilyOf(id).Some? ==> r == Phrase(FamilyOf(id).value) + " " + PopText(pop)
    ensures FamilyOf(id).None? ==> r == description + " " + PopText(pop)
  {
    var popText := PopText(pop);
    if IsThunderstormId(id) then Phrase(Thunderstorm) + " " + popText
    else if id in HeavyRainIds then Phrase(HeavyRain) + " " + popText
    else if id == ModerateRainId then Phrase(ModerateRain) + " " + popText
    else description + " " + popText
  }

  /** A significant condition is always described by one of the three fixed
      phrases; the provider's description is never used for it. */
  lemma SignificantUsesFixedPhrase(id: int, description: string, pop: nat)
    requires IsSignificant(id, pop)
    ensures CuteRainDescription(id, description, pop) in
      {Phrase(Thunderstorm) + " " + PopText(pop),
       Phrase(HeavyRain) + " " + PopText(pop),
       Phrase(ModerateRain) + " " + PopText(pop)}
  {
    SignificantIffFamilyThreshold(id, pop);
  }

  /** How many hourly entries are examined: `[:24]`. */
  const LookaheadEntries: nat := 24

  /** Entries older than this many hours before now are skipped. */
  const StaleHours: nat := 7

  /** Hours added to an entry's local time to display it. */
  const DisplayShiftHours: nat := 7

  /** `hourly[:24]`. */
  function Window(hourly: seq<HourlyEntry>): (w: seq<HourlyEntry>)
    ensures |w| == if |hourly| < LookaheadEntries then |hourly| else LookaheadEntries
    ensures w <= hourly
    ensures |hourly| <= LookaheadEntries ==> w == hourly
  {
    hourly[..if |hourly| < LookaheadEntries then |hourly| else LookaheadEntries]
  }

  /** `datetime.fromtimestamp(dt) < datetime.now() - timedelta(hours=7)`. Both
      sides are local times of the same zone, so the host offset cancels. */
  predicate IsStale(h: HourlyEntry, c: Clock)
    ensures IsStale(h, c) <==>
      h.dt < NowSeconds(c) - StaleHours * SecondsPerHour ||
      (h.dt == NowSeconds(c) - StaleHours * SecondsPerHour && c.nowMicros % MicrosPerSecond > 0)
  {
    h.dt * MicrosPerSecond < c.nowMicros - StaleHours * SecondsPerHour * MicrosPerSecond
  }

  /** The scan reaches this entry and `[0]` on its empty `weather` list raises. */
  predicate Crashes(h: HourlyEntry, c: Clock)
  {
    !IsStale(h, c) && !HasFirstCondition(h)
  }

  /** The scan stops at this entry and records it: not stale, and significant. */
  predicate IsRainEvent(h: HourlyEntry, c: Clock)
  {
    !IsStale(h, c) && HasFirstCondition(h) && IsSignificant(WeatherId(h), PopPercent(h))
  }

  /** The scan over `hs` finishes without raising: it meets a rain event before
      any entry that crashes. */
  predicate ScanSafe(hs: seq<HourlyEntry>, c: Clock)
    decreases |hs|
  {
    hs == [] || (!Crashes(hs[0], c) && (IsRainEvent(hs[0], c) || ScanSafe(hs[1..], c)))
  }

  /** Every entry that would crash lies after a rain event, where the scan has stopped. */
  lemma {:induction false} ScanSafeIffNoCrashBeforeEvent(hs: seq<HourlyEntry>, c: Clock)
    ensures ScanSafe(hs, c) <==>
      forall i :: 0 <= i < |hs| && Crashes(hs[i], c) ==>
        exists j :: 0 <= j < i && IsRainEvent(hs[j], c)
  {
    if hs != [] {
      ScanSafeIffNoCrashBeforeEvent(hs[1..], c);
      if IsRainEvent(hs[0], c) {
        assert !Crashes(hs[0], c);
        forall i | 0 < i < |hs| && Crashes(hs[i], c)
          ensures exists j :: 0 <= j < i && IsRainEvent(hs[j], c)
        {
          assert IsRainEvent(hs[0], c);
        }
      } else if ScanSafe(hs, c) {
        forall i | 0 <= i < |hs| && Crashes(hs[i], c)
          ensures exists j :: 0 <= j < i && IsRainEvent(hs[j], c)
        {
          assert hs[1..][i - 1] == hs[i];
          var j :| 0 <= j < i - 1 && IsRainEvent(hs[1..][j], c);
          assert hs[j + 1] == hs[1..][j];
        }
      } else if !Crashes(hs[0], c) {
        var i :| 0 <= i < |hs[1..]| && Crashes(hs[1..][i], c) &&
          !exists j :: 0 <= j < i && IsRainEvent(hs[1..][j], c);
        assert hs[i + 1] == hs[1..][i];
        forall j | 0 <= j < i + 1 ensures !IsRainEvent(hs[j], c) {
          if j > 0 {
            assert hs[j] == hs[1..][j - 1];
          }
        }
      }
    }
  }

  /** Index of the entry the scan records: the first rain event, if any. */
  function FirstRainEventIndex(hs: seq<HourlyEntry>, c: Clock): (r: Option<nat>)
    ensures r.Some? ==> r.value < |hs| && IsRainEvent(hs[r.value], c)
    ensures r.Some? ==> forall j :: 0 <= j < r.value ==> !IsRainEvent(hs[j], c)
    ensures r.None? ==> forall j :: 0 <= j < |hs| ==> !IsRainEvent(hs[j], c)
    decreases |hs|
  {
    if hs == [] then None
    else if IsRainEvent(hs[0], c) then Some(0)
    else match FirstRainEventIndex(hs[1..], c)
      case None => None
      case Some(k) => Some(k + 1)
  }

  /** The `{"time", "cute_desc"}` record kept for the chosen entry. */
  datatype RainEvent = RainEvent(time: string, cuteDesc: string)

  /** The record for an entry: its local time shifted by seven hours, and its phrasing. */
  function RainEventAt(h: HourlyEntry, c: Clock): (r: RainEvent)
    requires HasFirstCondition(h)
    ensures ParseClockText(r.time) == Some(LocalTimeOf(c, h.dt, DisplayShiftHours))
    ensures IsSignificant(WeatherId(h), PopPercent(h)) ==>
      r.cuteDesc in {Phrase(Thunderstorm) + " " + PopText(PopPercent(h)),
                     Phrase(HeavyRain) + " " + PopText(PopPercent(h)),
                     Phrase(ModerateRain) + " " + PopText(PopPercent(h))}
  {
    ClockTextRoundTrip(LocalTimeOf(c, h.dt, DisplayShiftHours));
    if IsSignificant(WeatherId(h), PopPercent(h)) then
      SignificantUsesFixedPhrase(WeatherId(h), Description(h), PopPercent(h));
      EventRecord(h, c)
    else EventRecord(h, c)
  }

  function EventRecord(h: HourlyEntry, c: Clock): RainEvent
    requires HasFirstCondition(h)
  {
    RainEvent(
      ClockText(LocalTimeOf(c, h.dt, DisplayShiftHours)),
      CuteRainDescription(WeatherId(h), Description(h), PopPercent(h)))
  }

  /** `first_significant_rain_event` after the loop. */
  function FirstRainEvent(hourly: seq<HourlyEntry>, c: Clock): (r: Option<RainEvent>)
    ensures r.None? <==>
      forall i :: 0 <= i < |hourly| && i < LookaheadEntries ==> !IsRainEvent(hourly[i], c)
  {
    var w := Window(hourly);
    assert forall i :: 0 <= i < |w| ==> w[i] == hourly[i];
    match FirstRainEventIndex(w, c)
    case None => None
    case Some(i) => Some(RainEventAt(w[i], c))
  }

  /** The recorded event is the earliest rain event among the first 24 entries,
      and there is none exactly when none of those entries is a rain event. */
  lemma FirstRainEventIsFirstMatch(hourly: seq<HourlyEntry>, c: Clock)
    ensures FirstRainEvent(hourly, c).None? <==>
      forall i :: 0 <= i < |hourly| && i < LookaheadEntries ==> !IsRainEvent(hourly[i], c)
    ensures FirstRainEvent(hourly, c).Some? ==>
      exists i :: 0 <= i < |hourly| && i < LookaheadEntries && IsRainEvent(hourly[i], c) &&
        (forall j :: 0 <= j < i ==> !IsRainEvent(hourly[j], c)) &&
        FirstRainEvent(hourly, c).value == RainEventAt(hourly[i], c)
  {
    var w := Window(hourly);
    assert forall i :: 0 <= i < |w| ==> w[i] == hourly[i];
    match FirstRainEventIndex(w, c)
    case None =>
    case Some(i) =>
      assert IsRainEvent(hourly[i], c);
  }

  /** However high a later entry's probability, it is never recorded once an
      earlier rain event exists. */
  lemma EarlierEventWins(hs: seq<HourlyEntry>, c: Clock, i: nat, j: nat)
    requires i < j < |hs|
    requires IsRainEvent(hs[i], c)
    ensures FirstRainEventIndex(hs, c).Some? && FirstRainEventIndex(hs, c).value <= i
    ensures FirstRainEventIndex(hs, c) != Some(j)
  {
  }

  /** A moderate-rain entry below 70% is never recorded, wherever it stands. */
  lemma ModerateBelowSeventyNeverChosen(hs: seq<HourlyEntry>, c: Clock, i: nat)
    requires i < |hs| && HasFirstCondition(hs[i])
    requires WeatherId(hs[i]) == ModerateRainId && PopPercent(hs[i]) < 70
    ensures FirstRainEventIndex(hs, c) != Some(i)
  {
  }

  /** A stale entry is skipped, and so never recorded. */
  lemma StaleNeverChosen(hs: seq<HourlyEntry>, c: Clock, i: nat)
    requires i < |hs| && IsStale(hs[i], c)
    ensures FirstRainEventIndex(hs, c) != Some(i)
  {
  }

  /** An entry with no probability, no `weather` list, or no id in its first
      condition is never a rain event. */
  lemma MissingFieldsNeverEvent(h: HourlyEntry, c: Clock)
    requires h.pop.None? || h.weather.None? ||
      (h.weather.Some? && |h.weather.value| > 0 && h.weather.value[0].id.None?)
    ensures !IsRainEvent(h, c)
  {
    if HasFirstCondition(h) {
      SignificantIffFamilyThreshold(WeatherId(h), PopPercent(h));
    }
  }

  /** Entries after the first 24 are never examined: appending any entries to
      a list that already fills the window leaves the result unchanged. */
  lemma EntriesBeyondWindowIgnored(hourly: seq<HourlyEntry>, extra: seq<HourlyEntry>, c: Clock)
    requires |hourly| >= LookaheadEntries
    ensures FirstRainEvent(hourly + extra, c) == FirstRainEvent(hourly, c)
  {
    assert Window(hourly + extra) == Window(hourly);
  }
}
