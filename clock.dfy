/** The clock the message builder reads, made an explicit input, and the
    `'%H:%M น.'` rendering of a time of day.

    The separate calls to `datetime.utcnow()` and `datetime.now()` are modelled
    as reading one instant. `now()` and `datetime.fromtimestamp` give naive local
    times in the host's zone, modelled as a fixed offset from UTC in seconds (no
    daylight saving). */
module Clock {

  import opened Options
  import opened Text

  const SecondsPerMinute: nat := 60
  const SecondsPerHour: nat := 3600
  const SecondsPerDay: nat := 86400
  const MicrosPerSecond: nat := 1_000_000

  /** The run's clock: the current instant in microseconds since the epoch,
      and the host's offset from UTC in seconds. */
  datatype Clock = Clock(nowMicros: int, hostOffset: int)

  datatype TimeOfDay = TimeOfDay(hour: nat, minute: nat)

  predicate ValidTimeOfDay(t: TimeOfDay) { t.hour < 24 && t.minute < 60 }

  /** Hour and minute on the wall clock at `secs` seconds past the epoch
      (`secs` already shifted into the zone wanted). The seconds left over after
      the minute are below 60, and `secs` lies a whole number of days from them. */
  function TimeOfDayAt(secs: int): (r: TimeOfDay)
    ensures ValidTimeOfDay(r)
    ensures 0 <= secs - r.hour * SecondsPerHour - r.minute * SecondsPerMinute - (secs / SecondsPerDay) * SecondsPerDay < SecondsPerMinute
  {
    var s := secs % SecondsPerDay;
    TimeOfDay(s / SecondsPerHour, (s % SecondsPerHour) / SecondsPerMinute)
  }

  /** Whole seconds of the clock's instant: `.hour` and `'%H:%M'` ignore the
      fraction of a second. */
  function NowSeconds(c: Clock): int
  {
    c.nowMicros / MicrosPerSecond
  }

  /** `datetime.utcnow().hour`. */
  function UtcHour(c: Clock): (h: nat)
    ensures h < 24
  {
    TimeOfDayAt(NowSeconds(c)).hour
  }

  /** `datetime.now()`, to the minute. */
  function LocalNow(c: Clock): TimeOfDay
  {
    TimeOfDayAt(NowSeconds(c) + c.hostOffset)
  }

  /** `datetime.fromtimestamp(dt) + timedelta(hours=shiftHours)`, to the minute. */
  function LocalTimeOf(c: Clock, dt: int, shiftHours: int): TimeOfDay
  {
    TimeOfDayAt(dt + c.hostOffset + shiftHours * SecondsPerHour)
  }

  const ClockSuffix: string := " น."

  /** `strftime('%H:%M น.')`. */
  function ClockText(t: TimeOfDay): string
    requires ValidTimeOfDay(t)
  {
    TwoDigits(t.hour) + ":" + TwoDigits(t.minute) + ClockSuffix
  }

  /** Reads a `'%H:%M น.'` rendering back into an hour and a minute. */
  function ParseClockText(s: string): (r: Option<TimeOfDay>)
    ensures r.Some? ==> ValidTimeOfDay(r.value)
  {
    if |s| == 5 + |ClockSuffix| && s[2] == ':' && s[5..] == ClockSuffix
      && IsDigit(s[0]) && IsDigit(s[1]) && IsDigit(s[3]) && IsDigit(s[4])
    then
      var h := DigitValue(s[0]) * 10 + DigitValue(s[1]);
      var m := DigitValue(s[3]) * 10 + DigitValue(s[4]);
      if h < 24 && m < 60 then Some(TimeOfDay(h, m)) else None
    else None
  }

  lemma ClockTextRoundTrip(t: TimeOfDay)
    requires ValidTimeOfDay(t)
    ensures ParseClockText(ClockText(t)) == Some(t)
  {
    var s := ClockText(t);
    assert s[..2] == TwoDigits(t.hour);
    assert s[3..5] == TwoDigits(t.minute);
    assert s[5..] == ClockSuffix;
  }
}
