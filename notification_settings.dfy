/** The persisted notification settings store: reminder times (computed from the wake and sleep
    times or set by hand), which reminders are on, and whether notifications are scheduled.
    Every change is written back to storage; the outcome of that write is a parameter. */
module NotificationSettings {
  import opened Common
  import opened JsText

  datatype Timing = Timing(
    middayTime: string, eveningTime: string, eveningTimeStart: string, eveningTimeEnd: string,
    isAutomatic: bool)

  datatype Preferences = Preferences(
    morningReminders: bool, eveningReminders: bool, weeklyStreaks: bool, middayReflection: bool)

  datatype ScheduleStatus = ScheduleStatus(lastScheduled: Option<string>, isScheduled: bool, pendingCount: int)

  /** A `Partial<...>` argument: `None` marks a key that is absent. */
  datatype TimingUpdate = TimingUpdate(
    middayTime: Option<string>, eveningTime: Option<string>, eveningTimeStart: Option<string>,
    eveningTimeEnd: Option<string>, isAutomatic: Option<bool>)

  datatype PreferencesUpdate = PreferencesUpdate(
    morningReminders: Option<bool>, eveningReminders: Option<bool>, weeklyStreaks: Option<bool>,
    middayReflection: Option<bool>)

  datatype StatusUpdate = StatusUpdate(
    lastScheduled: Option<Option<string>>, isScheduled: Option<bool>, pendingCount: Option<int>)

  /** The four reminder switches. */
  datatype Switch = Morning | Evening | Weekly | Midday

  const InitialTiming := Timing("12:00", "20:00", "20:00", "21:30", true)
  const InitialPreferences := Preferences(true, false, true, true)
  const InitialScheduleStatus := ScheduleStatus(None, false, 0)

  const MinutesPerDay := 1440

  // ---------------------------------------------------------------- clock times

  /** The value of a decimal digit. */
  function Digit(c: char): int { c as int - '0' as int }

  /** The minutes since midnight that `new Date("1970-01-01T" + s + ":00")` denotes, or `None` for
      an invalid date: `s` must be two digits, a colon and two digits, an hour below 24 and a
      minute below 60. */
  function ParseClock(s: string): Option<nat> {
    if |s| == 5 && IsDigit(s[0]) && IsDigit(s[1]) && s[2] == ':' && IsDigit(s[3]) && IsDigit(s[4]) then
      var h := Digit(s[0]) * 10 + Digit(s[1]);
      var m := Digit(s[3]) * 10 + Digit(s[4]);
      if h < 24 && m < 60 then Some(h * 60 + m) else None
    else None
  }

  /** The `HH:MM` formatting of a local time given as minutes from the epoch's midnight (negative
      before it, 1440 or more on a later day); an invalid date gives "NaN:NaN". */
  function FormatClock(t: Option<int>): string {
    match t
    case None => "NaN:NaN"
    case Some(minutes) => FormatTimeOfDay(minutes % MinutesPerDay)
  }

  /** `HH:MM` for a number of minutes since midnight. */
  function FormatTimeOfDay(inDay: nat): string
    requires inDay < MinutesPerDay
  {
    TwoDigits(inDay / 60) + ":" + TwoDigits(inDay % 60)
  }

  /** `String(n).padStart(2, "0")` for a number below 100. */
  function TwoDigits(n: nat): string
    requires n < 100
  {
    [DigitChar(n / 10), DigitChar(n % 10)]
  }

  /** The two-digit rendering is the general zero-padding. */
  lemma TwoDigitsIsPad2(n: nat)
    requires n < 100
    ensures TwoDigits(n) == Pad2(n)
  {
    var p := Pad2(n);
    assert DecimalValue(p[..1]) == Digit(p[0]);
    assert DecimalValue(p) == Digit(p[0]) * 10 + Digit(p[1]);
  }

  /** Formatting yields a clock time that parses back to the time of day. */
  lemma FormatThenParse(t: int)
    ensures ParseClock(FormatClock(Some(t))) == Some(t % MinutesPerDay)
  {
  }

  /** A clock time that parses is its own formatting: parsing and formatting are inverse on
      well-formed times. */
  lemma ParseThenFormat(s: string)
    requires ParseClock(s).Some?
    ensures FormatClock(Some(ParseClock(s).value)) == s
  {
    var h := Digit(s[0]) * 10 + Digit(s[1]);
    var m := Digit(s[3]) * 10 + Digit(s[4]);
    var t := h * 60 + m;
    assert t % MinutesPerDay == t;
    assert t / 60 == h && t % 60 == m;
    DigitsOf(s[0], s[1]);
    DigitsOf(s[3], s[4]);
    assert s == TwoDigits(h) + ":" + TwoDigits(m);
  }

  lemma DigitsOf(a: char, b: char)
    requires IsDigit(a) && IsDigit(b)
    ensures TwoDigits(Digit(a) * 10 + Digit(b)) == [a, b]
  {
    var n := Digit(a) * 10 + Digit(b);
    assert n / 10 == Digit(a) && n % 10 == Digit(b);
  }

  // ---------------------------------------------------------------- automatic timing

  /** The computed times as minutes from the epoch's midnight: midday three and a half hours after
      waking, the evening window from three to two hours before sleeping, where a sleep time
      before the wake time falls on the next day. `None` is an invalid date. */
  datatype Offsets = Offsets(midday: Option<int>, eveningEnd: Option<int>, eveningStart: Option<int>)

  function AutomaticOffsets(wake: Option<nat>, sleep0: Option<nat>): (r: Offsets)
    ensures wake.Some? <==> r.midday.Some?
    ensures sleep0.Some? <==> r.eveningEnd.Some? && r.eveningStart.Some?
  {
    var sleep: Option<int> :=
      if wake.Some? && sleep0.Some? && sleep0.value < wake.value then Some(sleep0.value + MinutesPerDay)
      else if sleep0.Some? then Some(sleep0.value) else None;
    Offsets(if wake.Some? then Some(wake.value + 210) else None,
            if sleep.Some? then Some(sleep.value - 120) else None,
            if sleep.Some? then Some(sleep.value - 180) else None)
  }

  /** `calculateAutomaticTiming`: the computed times formatted as `HH:MM`; an unreadable time
      makes the fields computed from it "NaN:NaN". */
  function AutomaticTiming(wakeTime: string, sleepTime: string): (r: Timing)
    ensures r.isAutomatic && r.eveningTime == r.eveningTimeEnd
  {
    var o := AutomaticOffsets(ParseClock(wakeTime), ParseClock(sleepTime));
    Timing(FormatClock(o.midday), FormatClock(o.eveningEnd), FormatClock(o.eveningStart), FormatClock(o.eveningEnd), true)
  }

  /** Formatting only sees the time of day. */
  lemma FormatClockDaily(t: int)
    ensures FormatClock(Some(t + MinutesPerDay)) == FormatClock(Some(t))
  {
    assert (t + MinutesPerDay) % MinutesPerDay == t % MinutesPerDay;
  }

  /** For readable times each computed field is the formatting of the promised offset from the
      wake or sleep time, whether or not the sleep time falls on the next day; with
      `FormatThenParse`, each is a well-formed clock time at that offset modulo a day. */
  lemma AutomaticTimingOffsets(wakeTime: string, sleepTime: string)
    requires ParseClock(wakeTime).Some? && ParseClock(sleepTime).Some?
    ensures AutomaticTiming(wakeTime, sleepTime).middayTime == FormatClock(Some(ParseClock(wakeTime).value + 210))
    ensures AutomaticTiming(wakeTime, sleepTime).eveningTimeEnd == FormatClock(Some(ParseClock(sleepTime).value - 120))
    ensures AutomaticTiming(wakeTime, sleepTime).eveningTimeStart == FormatClock(Some(ParseClock(sleepTime).value - 180))
  {
    FormattedOffsets(ParseClock(wakeTime).value, ParseClock(sleepTime).value);
  }

  /** Once formatted, the computed times do not depend on whether sleep falls on the next day. */
  lemma FormattedOffsets(wake: nat, sleep: nat)
    ensures var o := AutomaticOffsets(Some(wake), Some(sleep));
            FormatClock(o.midday) == FormatClock(Some(wake + 210)) &&
            FormatClock(o.eveningEnd) == FormatClock(Some(sleep - 120)) &&
            FormatClock(o.eveningStart) == FormatClock(Some(sleep - 180))
  {
    if sleep < wake {
      var o := AutomaticOffsets(Some(wake), Some(sleep));
      assert o.eveningEnd == Some(sleep - 120 + MinutesPerDay);
      assert o.eveningStart == Some(sleep - 180 + MinutesPerDay);
      FormatClockDaily(sleep - 120);
      FormatClockDaily(sleep - 180);
    }
  }

  /** An unreadable wake time spoils only the midday time; an unreadable sleep time only the
      evening window. */
  lemma UnreadableTimes(wakeTime: string, sleepTime: string)
    ensures ParseClock(wakeTime).None? ==> AutomaticTiming(wakeTime, sleepTime).middayTime == "NaN:NaN"
    ensures ParseClock(sleepTime).None? ==>
              var r := AutomaticTiming(wakeTime, sleepTime);
              r.eveningTime == "NaN:NaN" && r.eveningTimeStart == "NaN:NaN"
    ensures ParseClock(wakeTime).Some? ==> ParseClock(AutomaticTiming(wakeTime, sleepTime).middayTime).Some?
  {
    if ParseClock(wakeTime).Some? {
      FormatThenParse(ParseClock(wakeTime).value + 210);
    }
  }

  // ---------------------------------------------------------------- merges and switches

  function MergeTiming(t: Timing, u: TimingUpdate): Timing {
    Timing(u.middayTime.GetOr(t.middayTime), u.eveningTime.GetOr(t.eveningTime),
           u.eveningTimeStart.GetOr(t.eveningTimeStart), u.eveningTimeEnd.GetOr(t.eveningTimeEnd),
           u.isAutomatic.GetOr(t.isAutomatic))
  }

  function MergePreferences(p: Preferences, u: PreferencesUpdate): Preferences {
    Preferences(u.morningReminders.GetOr(p.morningReminders), u.eveningReminders.GetOr(p.eveningReminders),
                u.weeklyStreaks.GetOr(p.weeklyStreaks), u.middayReflection.GetOr(p.middayReflection))
  }

  function MergeStatus(s: ScheduleStatus, u: StatusUpdate): ScheduleStatus {
    ScheduleStatus(u.lastScheduled.GetOr(s.lastScheduled), u.isScheduled.GetOr(s.isScheduled),
                   u.pendingCount.GetOr(s.pendingCount))
  }

  /** Applying a timing update twice is applying it once, and an update touching no key changes
      nothing. */
  lemma MergeTimingIdempotent(t: Timing, u: TimingUpdate)
    ensures MergeTiming(MergeTiming(t, u), u) == MergeTiming(t, u)
    ensures MergeTiming(t, TimingUpdate(None, None, None, None, None)) == t
  {
  }

  /** A merge sets every given key to the given value and keeps every other key. */
  lemma MergePreferencesKeys(p: Preferences, u: PreferencesUpdate, k: Switch)
    ensures SwitchOf(MergePreferences(p, u), k) == UpdateOf(u, k).GetOr(SwitchOf(p, k))
  {
  }

  function UpdateOf(u: PreferencesUpdate, k: Switch): Option<bool> {
    match k
    case Morning => u.morningReminders
    case Evening => u.eveningReminders
    case Weekly => u.weeklyStreaks
    case Midday => u.middayReflection
  }

  function SwitchOf(p: Preferences, k: Switch): bool {
    match k
    case Morning => p.morningReminders
    case Evening => p.eveningReminders
    case Weekly => p.weeklyStreaks
    case Midday => p.middayReflection
  }

  /** The preferences with one switch flipped. */
  function Flip(p: Preferences, k: Switch): (r: Preferences)
    ensures forall j :: SwitchOf(r, j) == (if j == k then !SwitchOf(p, j) else SwitchOf(p, j))
  {
    match k
    case Morning => p.(morningReminders := !p.morningReminders)
    case Evening => p.(eveningReminders := !p.eveningReminders)
    case Weekly => p.(weeklyStreaks := !p.weeklyStreaks)
    case Midday => p.(middayReflection := !p.middayReflection)
  }

  /** Preferences are determined by their four switches. */
  lemma SwitchesDetermine(p: Preferences, q: Preferences)
    requires forall k :: SwitchOf(p, k) == SwitchOf(q, k)
    ensures p == q
  {
    assert SwitchOf(p, Morning) == SwitchOf(q, Morning);
    assert SwitchOf(p, Evening) == SwitchOf(q, Evening);
    assert SwitchOf(p, Weekly) == SwitchOf(q, Weekly);
    assert SwitchOf(p, Midday) == SwitchOf(q, Midday);
  }

  /** Toggling the same switch twice restores the preferences, and toggles of different switches
      commute. */
  lemma FlipTwice(p: Preferences, k: Switch, j: Switch)
    ensures Flip(Flip(p, k), k) == p
    ensures Flip(Flip(p, k), j) == Flip(Flip(p, j), k)
  {
    SwitchesDetermine(Flip(Flip(p, k), k), p);
    SwitchesDetermine(Flip(Flip(p, k), j), Flip(Flip(p, j), k));
  }

  // ---------------------------------------------------------------- storage outcomes

  /** The outcome of one write to storage: it succeeded, it reported a failure (with its error
      text, if any), or it threw (with the message of the thrown `Error`, if it was one). */
  datatype WriteOutcome = Written | WriteFailed(error: Option<string>) | WriteThrew(message: Option<string>)

  datatype StoredSettings = StoredSettings(timing: Timing, preferences: Preferences, scheduleStatus: ScheduleStatus)

  /** The outcome of reading all settings; `Read(None)` is a success without data. */
  datatype ReadOutcome = Read(data: Option<StoredSettings>) | ReadFailed(error: Option<string>) | ReadThrew(message: Option<string>)

  /** `text || fallback`. */
  function OrElse(text: Option<string>, fallback: string): string {
    if text.Some? && text.value != "" then text.value else fallback
  }

  /** The store's error after a write: kept when it succeeded, otherwise the failure's text or
      `failMessage`, or for a throw the thrown message or a generic one. */
  function ErrorAfterWrite(current: Option<string>, outcome: WriteOutcome, failMessage: string): (r: Option<string>)
    ensures outcome.Written? ==> r == current
    ensures !outcome.Written? ==> r.Some?
    ensures outcome.WriteFailed? && failMessage != "" ==> r.value != ""
  {
    match outcome
    case Written => current
    case WriteFailed(e) => Some(OrElse(e, failMessage))
    case WriteThrew(m) => Some(m.GetOr("Unknown storage error"))
  }

  class NotificationSettingsStore {
    var timing: Timing
    var preferences: Preferences
    var scheduleStatus: ScheduleStatus
    var isLoading: bool
    var error: Option<string>

    constructor()
      ensures timing == InitialTiming && preferences == InitialPreferences
      ensures scheduleStatus == InitialScheduleStatus && !isLoading && error.None?
    {
      timing := InitialTiming;
      preferences := InitialPreferences;
      scheduleStatus := InitialScheduleStatus;
      isLoading := false;
      error := None;
    }

    /** `saveTimingToStorage`. */
    method SaveTimingToStorage(outcome: WriteOutcome)
      modifies this
      ensures error == ErrorAfterWrite(old(error), outcome, "Failed to save timing settings")
      ensures timing == old(timing) && preferences == old(preferences)
      ensures scheduleStatus == old(scheduleStatus) && isLoading == old(isLoading)
    {
      error := ErrorAfterWrite(error, outcome, "Failed to save timing settings");
    }

    /** `savePreferencesToStorage`. */
    method SavePreferencesToStorage(outcome: WriteOutcome)
      modifies this
      ensures error == ErrorAfterWrite(old(error), outcome, "Failed to save notification preferences")
      ensures timing == old(timing) && preferences == old(preferences)
      ensures scheduleStatus == old(scheduleStatus) && isLoading == old(isLoading)
    {
      error := ErrorAfterWrite(error, outcome, "Failed to save notification preferences");
    }

    /** `saveScheduleStatusToStorage`. */
    method SaveScheduleStatusToStorage(outcome: WriteOutcome)
      modifies this
      ensures error == ErrorAfterWrite(old(error), outcome, "Failed to save schedule status")
      ensures timing == old(timing) && preferences == old(preferences)
      ensures scheduleStatus == old(scheduleStatus) && isLoading == old(isLoading)
    {
      error := ErrorAfterWrite(error, outcome, "Failed to save schedule status");
    }

    /** `saveToStorage`: writes the three parts together. */
    method SaveToStorage(outcome: WriteOutcome)
      modifies this
      ensures error == ErrorAfterWrite(old(error), outcome, "Failed to save notification settings")
      ensures timing == old(timing) && preferences == old(preferences)
      ensures scheduleStatus == old(scheduleStatus) && isLoading == old(isLoading)
    {
      error := ErrorAfterWrite(error, outcome, "Failed to save notification settings");
    }

    /** `loadFromStorage`: stored data replaces all three parts; a failure or a missing record
        keeps them and records an error. */
    method LoadFromStorage(outcome: ReadOutcome)
      modifies this
      ensures !isLoading
      ensures outcome.Read? && outcome.data.Some? ==>
                timing == outcome.data.value.timing && preferences == outcome.data.value.preferences &&
                scheduleStatus == outcome.data.value.scheduleStatus && error.None?
      ensures !(outcome.Read? && outcome.data.Some?) ==>
                timing == old(timing) && preferences == old(preferences) &&
                scheduleStatus == old(scheduleStatus) && error.Some?
      ensures outcome.Read? && outcome.data.None? ==> error == Some("Failed to load notification settings")
      ensures outcome.ReadFailed? ==> error == Some(OrElse(outcome.error, "Failed to load notification settings"))
      ensures outcome.ReadThrew? ==> error == Some(outcome.message.GetOr("Unknown storage error"))
    {
      isLoading, error := true, None;
      match outcome {
        case Read(data) =>
          if data.Some? {
            timing, preferences, scheduleStatus := data.value.timing, data.value.preferences, data.value.scheduleStatus;
            isLoading := false;
          } else {
            isLoading, error := false, Some("Failed to load notification settings");
          }
        case ReadFailed(e) =>
          isLoading, error := false, Some(OrElse(e, "Failed to load notification settings"));
        case ReadThrew(m) =>
          isLoading, error := false, Some(m.GetOr("Unknown storage error"));
      }
    }

    /** `updateTiming`: a shallow merge, then the timing is saved. */
    method UpdateTiming(u: TimingUpdate, outcome: WriteOutcome)
      modifies this
      ensures timing == MergeTiming(old(timing), u)
      ensures preferences == old(preferences) && scheduleStatus == old(scheduleStatus) && isLoading == old(isLoading)
      ensures error == ErrorAfterWrite(old(error), outcome, "Failed to save timing settings")
    {
      timing := MergeTiming(timing, u);
      SaveTimingToStorage(outcome);
    }

    /** `setMiddayTime`: sets the midday time by hand, which turns automatic timing off. */
    method SetMiddayTime(time: string, outcome: WriteOutcome)
      modifies this
      ensures timing == old(timing).(middayTime := time, isAutomatic := false)
      ensures preferences == old(preferences) && scheduleStatus == old(scheduleStatus) && isLoading == old(isLoading)
      ensures error == ErrorAfterWrite(old(error), outcome, "Failed to save timing settings")
    {
      timing := timing.(middayTime := time, isAutomatic := false);
      SaveTimingToStorage(outcome);
    }

    /** `setEveningTime`: sets the evening time and, for older readers, the window start. */
    method SetEveningTime(time: string, outcome: WriteOutcome)
      modifies this
      ensures timing == old(timing).(eveningTime := time, eveningTimeStart := time, isAutomatic := false)
      ensures preferences == old(preferences) && scheduleStatus == old(scheduleStatus) && isLoading == old(isLoading)
      ensures error == ErrorAfterWrite(old(error), outcome, "Failed to save timing settings")
    {
      timing := timing.(eveningTime := time, eveningTimeStart := time, isAutomatic := false);
      SaveTimingToStorage(outcome);
    }

    /** `setEveningWindow`. */
    method SetEveningWindow(startTime: string, endTime: string, outcome: WriteOutcome)
      modifies this
      ensures timing == old(timing).(eveningTimeStart := startTime, eveningTimeEnd := endTime, isAutomatic := false)
      ensures preferences == old(preferences) && scheduleStatus == old(scheduleStatus) && isLoading == old(isLoading)
      ensures error == ErrorAfterWrite(old(error), outcome, "Failed to save timing settings")
    {
      timing := timing.(eveningTimeStart := startTime, eveningTimeEnd := endTime, isAutomatic := false);
      SaveTimingToStorage(outcome);
    }

    /** `setAutomaticTiming`. */
    method SetAutomaticTiming(isAutomatic: bool, outcome: WriteOutcome)
      modifies this
      ensures timing == old(timing).(isAutomatic := isAutomatic)
      ensures preferences == old(preferences) && scheduleStatus == old(scheduleStatus) && this.isLoading == old(this.isLoading)
      ensures error == ErrorAfterWrite(old(error), outcome, "Failed to save timing settings")
    {
      timing := timing.(isAutomatic := isAutomatic);
      SaveTimingToStorage(outcome);
    }

    /** `updatePreferences`: a shallow merge, then the preferences are saved. */
    method UpdatePreferences(u: PreferencesUpdate, outcome: WriteOutcome)
      modifies this
      ensures preferences == MergePreferences(old(preferences), u)
      ensures timing == old(timing) && scheduleStatus == old(scheduleStatus) && isLoading == old(isLoading)
      ensures error == ErrorAfterWrite(old(error), outcome, "Failed to save notification preferences")
    {
      preferences := MergePreferences(preferences, u);
      SavePreferencesToStorage(outcome);
    }

    /** `toggleMorningReminders`, `toggleEveningReminders`, `toggleWeeklyStreaks` and
        `toggleMiddayReflection`, one per switch. */
    method Toggle(k: Switch, outcome: WriteOutcome)
      modifies this
      ensures preferences == Flip(old(preferences), k)
      ensures timing == old(timing) && scheduleStatus == old(scheduleStatus) && isLoading == old(isLoading)
      ensures error == ErrorAfterWrite(old(error), outcome, "Failed to save notification preferences")
    {
      preferences := Flip(preferences, k);
      SavePreferencesToStorage(outcome);
    }

    /** `updateScheduleStatus`. */
    method UpdateScheduleStatus(u: StatusUpdate, outcome: WriteOutcome)
      modifies this
      ensures scheduleStatus == MergeStatus(old(scheduleStatus), u)
      ensures timing == old(timing) && preferences == old(preferences) && isLoading == old(isLoading)
      ensures error == ErrorAfterWrite(old(error), outcome, "Failed to save schedule status")
    {
      scheduleStatus := MergeStatus(scheduleStatus, u);
      SaveScheduleStatusToStorage(outcome);
    }

    /** `markAsScheduled`; `now` is the current time as an ISO string. */
    method MarkAsScheduled(pendingCount: int, now: string, outcome: WriteOutcome)
      modifies this
      ensures scheduleStatus == ScheduleStatus(Some(now), true, pendingCount)
      ensures timing == old(timing) && preferences == old(preferences) && isLoading == old(isLoading)
      ensures error == ErrorAfterWrite(old(error), outcome, "Failed to save schedule status")
    {
      scheduleStatus := ScheduleStatus(Some(now), true, pendingCount);
      SaveScheduleStatusToStorage(outcome);
    }

    /** `markAsUnscheduled`: nothing is scheduled or pending; the last scheduling time is kept. */
    method MarkAsUnscheduled(outcome: WriteOutcome)
      modifies this
      ensures scheduleStatus == ScheduleStatus(old(scheduleStatus).lastScheduled, false, 0)
      ensures timing == old(timing) && preferences == old(preferences) && isLoading == old(isLoading)
      ensures error == ErrorAfterWrite(old(error), outcome, "Failed to save schedule status")
    {
      scheduleStatus := scheduleStatus.(isScheduled := false, pendingCount := 0);
      SaveScheduleStatusToStorage(outcome);
    }

    /** `getTimingForDate`: computed from the wake and sleep times while timing is automatic,
        the stored timing otherwise. */
    method GetTimingForDate(wakeTime: string, sleepTime: string) returns (r: Timing)
      ensures timing.isAutomatic ==> r == AutomaticTiming(wakeTime, sleepTime)
      ensures !timing.isAutomatic ==> r == timing
      ensures r.isAutomatic == timing.isAutomatic
    {
      if timing.isAutomatic {
        r := AutomaticTiming(wakeTime, sleepTime);
      } else {
        r := timing;
      }
    }

    /** `reset`. */
    method Reset()
      modifies this
      ensures timing == InitialTiming && preferences == InitialPreferences
      ensures scheduleStatus == InitialScheduleStatus && !isLoading && error.None?
    {
      timing, preferences, scheduleStatus := InitialTiming, InitialPreferences, InitialScheduleStatus;
      isLoading, error := false, None;
    }
  }
}
