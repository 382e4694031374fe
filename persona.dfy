/** Persona detection from the wake and sleep times, the suggested activities per persona, the
    generated rest activity, and the sleep-duration check.

    Times are "HH:MM" texts read with `parseInt` on the parts around the colon; `None` stands
    for NaN, and every comparison with NaN is false. */
module PersonaService {
  import opened Common
  import opened JsText
  import ProfileUtils

  datatype PersonaType = EarlyBird | NightOwl | Balanced | Flexible

  datatype UserPersona = UserPersona(kind: PersonaType, suggestedActivities: seq<string>, locale: string)

  datatype RestActivity = RestActivity(
    id: string, name: string, color: string, startTime: string, endTime: string, isSystemGenerated: bool)

  datatype TimeRangeCheck = TimeRangeCheck(isValid: bool, error: Option<string>)

  /** `parseInt(time.split(":")[0])`. */
  function HourField(time: string): Option<int> {
    ParseInt(Split(time, ':')[0], Omitted)
  }

  /** `parseInt(time.split(":")[1])`; a missing part is `parseInt(undefined)`, NaN. */
  function MinuteField(time: string): Option<int> {
    var parts := Split(time, ':');
    if |parts| > 1 then ParseInt(parts[1], Omitted) else None
  }

  /** `x <= n`, `x >= n` and `x === n` against a number, false for NaN. */
  predicate AtMost(x: Option<int>, n: int) { x.Some? && x.value <= n }
  predicate AtLeast(x: Option<int>, n: int) { x.Some? && x.value >= n }
  predicate Is(x: Option<int>, n: int) { x.Some? && x.value == n }

  /** The persona rule on the two hours. */
  function PersonaOf(wakeHour: Option<int>, sleepHour: Option<int>): (p: PersonaType)
    ensures p == EarlyBird <==> AtMost(wakeHour, 6) && AtMost(sleepHour, 22)
    ensures p == NightOwl <==> !(AtMost(wakeHour, 6) && AtMost(sleepHour, 22))
                               && AtLeast(wakeHour, 8) && AtLeast(sleepHour, 24)
    ensures p == Balanced <==> Is(wakeHour, 7) && Is(sleepHour, 23)
    ensures (wakeHour.None? || sleepHour.None?) ==> p == Flexible
  {
    if AtMost(wakeHour, 6) && AtMost(sleepHour, 22) then EarlyBird
    else if AtLeast(wakeHour, 8) && AtLeast(sleepHour, 24) then NightOwl
    else if Is(wakeHour, 7) && Is(sleepHour, 23) then Balanced
    else Flexible
  }

  /** `detectPersona`. */
  function DetectPersona(wakeTime: string, sleepTime: string, locale: string): (r: UserPersona)
    ensures r.kind == PersonaOf(HourField(wakeTime), HourField(sleepTime))
    ensures r.suggestedActivities == SuggestedActivities(r.kind)
    ensures r.locale == locale
  {
    var kind := PersonaOf(HourField(wakeTime), HourField(sleepTime));
    UserPersona(kind, SuggestedActivities(kind), locale)
  }

  /** `getSuggestedActivities`: a fixed list per persona; the locale is not consulted. */
  function SuggestedActivities(persona: PersonaType): (r: seq<string>)
    ensures |r| == (if persona == Flexible then 6 else 7)
  {
    match persona
    case EarlyBird =>
      ["Morning Workout", "Meditation", "Reading", "Planning Day", "Healthy Breakfast", "Journaling", "Stretching"]
    case NightOwl =>
      ["Creative Work", "Learning", "Social Time", "Entertainment", "Reflection", "Planning Tomorrow", "Wind Down"]
    case Balanced =>
      ["Exercise", "Work Focus", "Social Connection", "Self Care", "Learning", "Hobbies", "Family Time"]
    case Flexible =>
      ["Mindfulness", "Physical Activity", "Creative Expression", "Social Interaction", "Skill Building",
       "Rest & Recovery"]
  }

  /** The suggestions depend on the times only, never on the locale. */
  lemma SuggestionsIgnoreLocale(wakeTime: string, sleepTime: string, locale1: string, locale2: string)
    ensures DetectPersona(wakeTime, sleepTime, locale1).suggestedActivities
            == DetectPersona(wakeTime, sleepTime, locale2).suggestedActivities
  {
  }

  /** The hour `parseInt` reads from a valid "H:MM"/"HH:MM" time is its hour, at most 23. */
  lemma HourFieldOfValid(time: string)
    requires ProfileUtils.IsValidTimeFormat(time)
    ensures HourField(time) == Some(ProfileUtils.HourOf(time))
  {
    var h := ProfileUtils.HourText(time);
    SplitAtFirst(h, time[|h| + 1..], ':');
    assert Split(time, ':')[0] == h;
    ParseDecimalDigits(h);
    DecimalValueIsDigitsValue(h);
  }

  /** A sleep hour of 24 or more cannot come from a valid time, so a valid sleep time never
      yields the night-owl persona. */
  lemma NoNightOwlForValidSleep(wakeTime: string, sleepTime: string, locale: string)
    requires ProfileUtils.IsValidTimeFormat(sleepTime)
    ensures DetectPersona(wakeTime, sleepTime, locale).kind != NightOwl
  {
    HourFieldOfValid(sleepTime);
  }

  /** `createRestActivity`: the rest block runs from bedtime to wake-up. */
  function CreateRestActivity(wakeTime: string, sleepTime: string, userId: string): (r: RestActivity)
    ensures r.id == "rest-" + userId && r.name == "Rest" && r.color == "#6B73FF"
    ensures r.startTime == sleepTime && r.endTime == wakeTime && r.isSystemGenerated
  {
    RestActivity("rest-" + userId, "Rest", "#6B73FF", sleepTime, wakeTime, true)
  }

  /** `hour * 60 + minute`, NaN when either is. */
  function MinutesOf(hour: Option<int>, minute: Option<int>): Option<int> {
    if hour.Some? && minute.Some? then Some(hour.value * 60 + minute.value) else None
  }

  const TooShort := "Sleep duration too short (minimum 4 hours)"
  const TooLong := "Sleep duration too long (maximum 16 hours)"

  /** `validateTimeRange`. */
  function ValidateTimeRange(wakeTime: string, sleepTime: string): (r: TimeRangeCheck)
    ensures r.isValid <==> r.error.None?
  {
    var wakeMinutes := MinutesOf(HourField(wakeTime), MinuteField(wakeTime));
    var sleepMinutes := MinutesOf(HourField(sleepTime), MinuteField(sleepTime));
    if wakeMinutes.Some? && sleepMinutes.Some? && sleepMinutes.value >= wakeMinutes.value then
      TimeRangeCheck(true, None)
    else if wakeMinutes.None? || sleepMinutes.None? then
      // every comparison below is false for NaN
      TimeRangeCheck(true, None)
    else
      var sleepDuration := sleepMinutes.value + 24 * 60 - wakeMinutes.value;
      if sleepDuration < 4 * 60 then TimeRangeCheck(false, Some(TooShort))
      else if sleepDuration > 16 * 60 then TimeRangeCheck(false, Some(TooLong))
      else TimeRangeCheck(true, None)
  }

  /** With both times readable, a same-day schedule is accepted, and a schedule crossing
      midnight is accepted exactly when the night lasts 4 to 16 hours. */
  lemma TimeRangeRule(wakeTime: string, sleepTime: string)
    requires MinutesOf(HourField(wakeTime), MinuteField(wakeTime)).Some?
    requires MinutesOf(HourField(sleepTime), MinuteField(sleepTime)).Some?
    ensures var w := MinutesOf(HourField(wakeTime), MinuteField(wakeTime)).value;
            var s := MinutesOf(HourField(sleepTime), MinuteField(sleepTime)).value;
            var r := ValidateTimeRange(wakeTime, sleepTime);
            && (s >= w ==> r.isValid)
            && (s < w ==> (r.isValid <==> 240 <= s + 1440 - w <= 960))
            && (s < w && s + 1440 - w < 240 ==> r.error == Some(TooShort))
            && (s < w && s + 1440 - w > 960 ==> r.error == Some(TooLong))
  {
  }

  /** A time without a readable minute part is never rejected: the NaN comparisons all fail. */
  lemma UnreadableTimesAccepted(wakeTime: string, sleepTime: string)
    requires MinuteField(wakeTime).None? || MinuteField(sleepTime).None?
    ensures ValidateTimeRange(wakeTime, sleepTime).isValid
  {
  }
}
