/** The notification settings store: the catalogue of cadence messages, the quote backlog that
    hands out each message once before starting over, preference and timing updates, the list of
    daily notifications to schedule, the permission request, and the in-app flag. */
module NotificationsStore {
  import opened Common
  import opened JsText

  datatype MessageKind = Midday | Evening | Streak

  datatype CadenceMessage = CadenceMessage(id: string, text: string, kind: MessageKind)

  /** The notification types; `OtherType` stands for any other value a caller passes. */
  datatype NotificationType = MiddayReflection | EveningReflection | WeeklyStreaks | OtherType(name: string)

  datatype NotificationPreferences = NotificationPreferences(
    morningReminders: bool, eveningReminders: bool, middayReflection: bool, weeklyStreaks: bool)

  /** A `Partial<NotificationPreferences>`: `None` leaves the setting as it is. */
  datatype PreferencesUpdate = PreferencesUpdate(
    morningReminders: Option<bool>, eveningReminders: Option<bool>, middayReflection: Option<bool>,
    weeklyStreaks: Option<bool>)

  datatype NotificationTiming = NotificationTiming(morningTime: string, middayTime: string, eveningTime: string)

  datatype TimingUpdate = TimingUpdate(morningTime: Option<string>, middayTime: Option<string>, eveningTime: Option<string>)

  datatype PermissionStatus = Granted | Denied | Undetermined

  /** What the permission prompt gave back: a status text, or a thrown error with its message
      (`None` when the thrown value is not an `Error`). */
  datatype PermissionOutcome = Status(status: string) | Threw(message: Option<string>)

  /** One entry of the daily schedule: the type and the "HH:MM" time. */
  datatype PlannedNotification = PlannedNotification(kind: NotificationType, time: string)

  /** One repeating schedule request: the title and type shown, and the trigger's hour and
      minute (`None` for NaN or a missing part). */
  datatype ScheduleRequest = ScheduleRequest(
    title: string, body: string, kind: NotificationType, hour: Option<int>, minute: Option<int>, repeats: bool)

  /** The midday reflection prompts, by position. */
  function MiddayText(i: nat): string
  {
    if i == 0 then "How has time shaped your morning?"
    else if i == 1 then "The morning's behind you. Want to catch its trace?"
    else if i == 2 then "Time's been moving quietly. What have you moved through?"
    else if i == 3 then "The day has a rhythm. How did yours begin?"
    else if i == 4 then "A soft checkpoint. What filled your morning hours?"
    else if i == 5 then "Half the clock turned. Want to mark what's passed?"
    else if i == 6 then "Before the afternoon stretches out—how did you arrive here?"
    else if i == 7 then "Make a midday pause to remember the morning."
    else if i == 8 then "Your morning made a pattern. Want to glimpse it?"
    else "The day's unwinding. Want to press pause and look back?"
  }

  /** The evening quotes, by position. */
  function EveningText(i: nat): string
  {
    if i == 0 then "\"Forever is composed of nows.\" — Emily Dickinson"
    else if i == 1 then "\"Moments of their life together that no one else would ever know...\" — James Joyce"
    else if i == 2 then "\"Time is a river which carries me along...\" — Jorge Luis Borges"
    else if i == 3 then "\"Let everything happen to you... No feeling is final.\" — Rainer Maria Rilke"
    else if i == 4 then "\"For now she need not think of anybody.\" — Virginia Woolf"
    else if i == 5 then "\"All that you touch, you change.\" — Octavia Butler"
    else if i == 6 then "\"What we call the beginning is often the end.\" — T.S. Eliot"
    else if i == 7 then "\"I only achieve simplicity with enormous effort.\" — Clarice Lispector"
    else if i == 8 then "\"Sometimes just to say your own name out loud is a comfort.\" — Anne Carson"
    else if i == 9 then "\"Tell me, what is it you plan to do with your one wild and precious life?\" — Mary Oliver"
    else if i == 10 then "\"In the stillness, I watch the world rearrange itself.\" — Ocean Vuong"
    else if i == 11 then "\"The years teach much which the days never know.\" — Ralph Waldo Emerson"
    else if i == 12 then "\"Every day is a journey, and the journey itself is home.\" — Matsuo Basho"
    else if i == 13 then "\"Nothing is ever really lost to us as long as we remember it.\" — L.M. Montgomery"
    else if i == 14 then "\"Time is the longest distance between two places.\" — Tennessee Williams"
    else if i == 15 then "\"Be patient toward all that is unsolved in your heart.\" — Rainer Maria Rilke"
    else if i == 16 then "\"It is the time you have wasted for your rose that makes your rose so important.\" — Antoine de Saint-Exupery"
    else if i == 17 then "\"The present was an egg laid by the past that had the future inside its shell.\" — Zora Neale Hurston"
    else if i == 18 then "\"We do not remember days, we remember moments.\" — Cesare Pavese"
    else if i == 19 then "\"I am made of hours, and just a little sand.\" — Federico Garcia Lorca"
    else if i == 20 then "\"Each day is a stone you hold, or let slip past.\" — Carl Phillips"
    else if i == 21 then "\"The sky is a daily reminder that we are held by something vast.\" — Lora Mathis"
    else if i == 22 then "\"We are all composed of loops and returns.\" — Bhanu Kapil"
    else if i == 23 then "\"I speak to you from the quiet edge of this day.\" — Traci Brimhall"
    else if i == 24 then "\"We turn the hours into meaning, or they pass through us unnoticed.\" — Ada Limon"
    else if i == 25 then "\"Even the clock holds its breath sometimes.\" — Ocean Vuong"
    else "\"To notice is to begin remembering.\" — Margaret Atwood"
  }

  /** The weekly streak messages, by position; `{{streakCount}}` is filled in when delivered. */
  function StreakText(i: nat): string
  {
    if i == 0 then "You logged {{streakCount}} days this week—your week looks like a constellation."
    else if i == 1 then "Your rhythm is taking shape. {{streakCount}} days of awareness."
    else if i == 2 then "Time becomes visible when you pay attention. Day {{streakCount}}."
    else if i == 3 then "Another day in your timeline. The pattern grows stronger."
    else "Your week is painting itself. {{streakCount}} brushstrokes so far."
  }

  /** The text of message `i` of a kind. */
  function MessageText(kind: MessageKind, i: nat): string {
    match kind
    case Midday => MiddayText(i)
    case Evening => EveningText(i)
    case Streak => StreakText(i)
  }

  /** `texts.map((text, index) => ({ id: `${prefix}_${index}`, text, type }))` over the `count`
      texts of a kind. */
  function Catalogue(prefix: string, count: nat, kind: MessageKind): (r: seq<CadenceMessage>)
    ensures |r| == count
  {
    seq(count, i requires 0 <= i < count => CadenceMessage(prefix + "_" + NatToString(i), MessageText(kind, i), kind))
  }

  /** The 10 midday prompts, the 27 evening quotes and the 5 streak messages. */
  const CadenceMessages: seq<CadenceMessage> :=
    Catalogue("midday", 10, Midday) + Catalogue("evening", 27, Evening) + Catalogue("streak", 5, Streak)

  /** The catalogue holds the 10 midday, 27 evening and 5 streak messages in that order, each
      with its kind's prefix and its position within the kind. */
  lemma CatalogueLayout()
    ensures |CadenceMessages| == 42
    ensures forall i :: 0 <= i < 10 ==>
              CadenceMessages[i] == CadenceMessage("midday_" + NatToString(i), MiddayText(i), Midday)
    ensures forall i :: 10 <= i < 37 ==>
              CadenceMessages[i] == CadenceMessage("evening_" + NatToString(i - 10), EveningText(i - 10), Evening)
    ensures forall i :: 37 <= i < 42 ==>
              CadenceMessages[i] == CadenceMessage("streak_" + NatToString(i - 37), StreakText(i - 37), Streak)
  {
    MiddayLayout();
    EveningLayout();
    StreakLayout();
  }

  lemma MiddayLayout()
    ensures |CadenceMessages| == 42
    ensures forall i :: 0 <= i < 10 ==>
              CadenceMessages[i] == CadenceMessage("midday_" + NatToString(i), MiddayText(i), Midday)
  {
  }

  lemma EveningLayout()
    ensures forall i :: 10 <= i < 37 ==>
              CadenceMessages[i] == CadenceMessage("evening_" + NatToString(i - 10), EveningText(i - 10), Evening)
  {
    var head := Catalogue("midday", 10, Midday) + Catalogue("evening", 27, Evening);
    assert CadenceMessages == head + Catalogue("streak", 5, Streak);
    assert forall i :: 10 <= i < 37 ==> CadenceMessages[i] == head[i];
  }

  lemma StreakLayout()
    ensures forall i :: 37 <= i < 42 ==>
              CadenceMessages[i] == CadenceMessage("streak_" + NatToString(i - 37), StreakText(i - 37), Streak)
  {
  }

  /** The message ids are pairwise distinct. */
  lemma CadenceIdsDistinct()
    ensures forall i, j :: 0 <= i < j < |CadenceMessages| ==> CadenceMessages[i].id != CadenceMessages[j].id
  {
    CatalogueLayout();
    forall i, j | 0 <= i < j < |CadenceMessages| ensures CadenceMessages[i].id != CadenceMessages[j].id {
      var a := CadenceMessages[i].id;
      var b := CadenceMessages[j].id;
      if j < 10 {
        assert a[7..] == NatToString(i) && b[7..] == NatToString(j);
      } else if i >= 10 && j < 37 {
        assert a[8..] == NatToString(i - 10) && b[8..] == NatToString(j - 10);
      } else if i >= 37 {
        assert a[7..] == NatToString(i - 37) && b[7..] == NatToString(j - 37);
      } else {
        assert a[0] != b[0];
      }
    }
  }

  function IdNotIn(used: seq<string>): CadenceMessage -> bool {
    (q: CadenceMessage) => q.id !in used
  }

  /** The messages whose id has not been used. */
  function Available(used: seq<string>): seq<CadenceMessage> {
    Filter(CadenceMessages, IdNotIn(used))
  }

  /** Marking an available message used makes the backlog strictly smaller, so the backlog hands
      out every message once before it is reset. */
  lemma {:induction false} MarkingShrinksBacklog(used: seq<string>, q: CadenceMessage)
    requires q in Available(used)
    ensures |Available(used + [q.id])| < |Available(used)|
  {
    FilterMember(CadenceMessages, IdNotIn(used), q);
    ShrinkStep(CadenceMessages, used, q);
  }

  lemma {:induction false} ShrinkStep(s: seq<CadenceMessage>, used: seq<string>, q: CadenceMessage)
    requires q in s && q.id !in used
    ensures |Filter(s, IdNotIn(used + [q.id]))| < |Filter(s, IdNotIn(used))|
  {
    NoGrowth(s[1..], used, q.id);
    if s[0] != q {
      ShrinkStep(s[1..], used, q);
    }
  }

  lemma {:induction false} NoGrowth(s: seq<CadenceMessage>, used: seq<string>, id: string)
    ensures |Filter(s, IdNotIn(used + [id]))| <= |Filter(s, IdNotIn(used))|
  {
    if s != [] {
      NoGrowth(s[1..], used, id);
    }
  }

  /** `getTitleForType`. */
  function TitleForType(kind: NotificationType): (r: string)
    ensures kind.OtherType? <==> r == "Cadence Reminder"
  {
    match kind
    case MiddayReflection => "Midday Pause"
    case EveningReflection => "Evening Reflection"
    case WeeklyStreaks => "Weekly Progress"
    case OtherType(_) => "Cadence Reminder"
  }

  /** The daily schedule the preferences call for. */
  function ScheduleFor(preferences: NotificationPreferences, timing: NotificationTiming): (r: seq<PlannedNotification>)
    ensures |r| == (if preferences.morningReminders then 1 else 0) + (if preferences.middayReflection then 1 else 0)
                   + (if preferences.eveningReminders then 1 else 0)
  {
    (if preferences.morningReminders then [PlannedNotification(MiddayReflection, timing.morningTime)] else [])
    + (if preferences.middayReflection then [PlannedNotification(MiddayReflection, timing.middayTime)] else [])
    + (if preferences.eveningReminders then [PlannedNotification(EveningReflection, timing.eveningTime)] else [])
  }

  /** Morning reminders use the midday type, only the evening preference yields the evening type,
      and the weekly-streak preference never changes the schedule. */
  lemma ScheduleKinds(preferences: NotificationPreferences, timing: NotificationTiming)
    ensures forall n :: n in ScheduleFor(preferences, timing) ==> n.kind == MiddayReflection || n.kind == EveningReflection
    ensures (exists n :: n in ScheduleFor(preferences, timing) && n.kind == EveningReflection) <==> preferences.eveningReminders
    ensures ScheduleFor(preferences.(weeklyStreaks := !preferences.weeklyStreaks), timing) == ScheduleFor(preferences, timing)
  {
    var r := ScheduleFor(preferences, timing);
    if preferences.eveningReminders {
      assert r[|r| - 1] == PlannedNotification(EveningReflection, timing.eveningTime);
    }
  }

  /** The request for one schedule entry: the time is split at ':' and each part read with
      `Number`. */
  function RequestFor(n: PlannedNotification): (r: ScheduleRequest)
    ensures r.kind == n.kind && r.title == TitleForType(n.kind) && r.repeats
  {
    var parts := Split(n.time, ':');
    ScheduleRequest(TitleForType(n.kind), "Tap to reflect on your day", n.kind, NumberOf(parts[0]),
                    if |parts| > 1 then NumberOf(parts[1]) else None, true)
  }

  /** The requests for a whole schedule, in order. */
  function RequestsFor(list: seq<PlannedNotification>): (r: seq<ScheduleRequest>)
    ensures |r| == |list|
  {
    if list == [] then [] else RequestsFor(list[..|list| - 1]) + [RequestFor(list[|list| - 1])]
  }

  /** The `for ... of` loop that sends one request per schedule entry. */
  method SendRequests(notifications: seq<PlannedNotification>) returns (requests: seq<ScheduleRequest>)
    ensures requests == RequestsFor(notifications)
  {
    requests := [];
    var k := 0;
    while k < |notifications|
      invariant 0 <= k <= |notifications|
      invariant requests == RequestsFor(notifications[..k])
    {
      assert notifications[..k + 1][..k] == notifications[..k];
      requests := requests + [RequestFor(notifications[k])];
      k := k + 1;
    }
    assert notifications[..k] == notifications;
  }

  /** A two-digit "HH:MM" time yields the trigger hour and minute it spells. */
  lemma RequestOfClockTime(n: PlannedNotification, h: string, m: string)
    requires |h| == 2 && |m| == 2 && AllDigits(h) && AllDigits(m)
    requires n.time == h + ":" + m
    ensures RequestFor(n).hour == Some(DecimalValue(h)) && RequestFor(n).minute == Some(DecimalValue(m))
  {
    assert ':' !in h && ':' !in m;
    assert n.time == h + [':'] + m;
    SplitAtFirst(h, m, ':');
    SplitNoSeparator(m, ':');
    NumberOfDigits(h);
    NumberOfDigits(m);
  }

  /** The `{ ...state.preferences, ...newPreferences }` merge. */
  function MergePreferences(p: NotificationPreferences, u: PreferencesUpdate): NotificationPreferences {
    NotificationPreferences(
      u.morningReminders.GetOr(p.morningReminders), u.eveningReminders.GetOr(p.eveningReminders),
      u.middayReflection.GetOr(p.middayReflection), u.weeklyStreaks.GetOr(p.weeklyStreaks))
  }

  /** The `{ ...state.timing, ...newTiming }` merge. */
  function MergeTiming(t: NotificationTiming, u: TimingUpdate): NotificationTiming {
    NotificationTiming(u.morningTime.GetOr(t.morningTime), u.middayTime.GetOr(t.middayTime), u.eveningTime.GetOr(t.eveningTime))
  }

  /** A merge sets exactly the given settings: applying it again changes nothing, and an empty
      update is the identity. */
  lemma MergeFacts(p: NotificationPreferences, u: PreferencesUpdate, t: NotificationTiming, v: TimingUpdate)
    ensures MergePreferences(MergePreferences(p, u), u) == MergePreferences(p, u)
    ensures MergePreferences(p, PreferencesUpdate(None, None, None, None)) == p
    ensures u.eveningReminders.None? ==> MergePreferences(p, u).eveningReminders == p.eveningReminders
    ensures u.eveningReminders.Some? ==> MergePreferences(p, u).eveningReminders == u.eveningReminders.value
    ensures MergeTiming(MergeTiming(t, v), v) == MergeTiming(t, v)
    ensures MergeTiming(t, TimingUpdate(None, None, None)) == t
  {
  }

  const InitialPreferences := NotificationPreferences(true, false, true, true)
  const InitialTiming := NotificationTiming("07:00", "12:00", "19:00")

  class NotificationsStore {
    var preferences: NotificationPreferences
    var timing: NotificationTiming
    var permissionStatus: PermissionStatus
    var isPermissionLoading: bool
    var usedQuoteIds: seq<string>
    var nextQuoteIndex: nat
    var isInApp: bool
    var error: Option<string>

    constructor()
      ensures preferences == InitialPreferences && timing == InitialTiming
      ensures permissionStatus == Undetermined && !isPermissionLoading
      ensures usedQuoteIds == [] && nextQuoteIndex == 0 && isInApp && error.None?
    {
      preferences := InitialPreferences;
      timing := InitialTiming;
      permissionStatus := Undetermined;
      isPermissionLoading := false;
      usedQuoteIds := [];
      nextQuoteIndex := 0;
      isInApp := true;
      error := None;
    }

    /** `scheduleNotifications`: the requests sent, one per schedule entry; none without the
        permission. */
    method ScheduleNotifications() returns (requests: seq<ScheduleRequest>)
      ensures permissionStatus != Granted ==> requests == []
      ensures permissionStatus == Granted ==> requests == RequestsFor(ScheduleFor(preferences, timing))
    {
      if permissionStatus != Granted {
        return [];
      }
      requests := SendRequests(ScheduleFor(preferences, timing));
    }

    /** `updatePreferences`: merges and reschedules. */
    method UpdatePreferences(update: PreferencesUpdate) returns (requests: seq<ScheduleRequest>)
      modifies this
      ensures preferences == MergePreferences(old(preferences), update)
      ensures timing == old(timing) && permissionStatus == old(permissionStatus)
      ensures usedQuoteIds == old(usedQuoteIds) && nextQuoteIndex == old(nextQuoteIndex)
      ensures isInApp == old(isInApp) && error == old(error) && isPermissionLoading == old(isPermissionLoading)
      ensures requests == if permissionStatus == Granted then RequestsFor(ScheduleFor(preferences, timing)) else []
    {
      preferences := MergePreferences(preferences, update);
      requests := ScheduleNotifications();
    }

    /** `updateTiming`: merges and reschedules. */
    method UpdateTiming(update: TimingUpdate) returns (requests: seq<ScheduleRequest>)
      modifies this
      ensures timing == MergeTiming(old(timing), update)
      ensures preferences == old(preferences) && permissionStatus == old(permissionStatus)
      ensures usedQuoteIds == old(usedQuoteIds) && nextQuoteIndex == old(nextQuoteIndex)
      ensures isInApp == old(isInApp) && error == old(error) && isPermissionLoading == old(isPermissionLoading)
      ensures requests == if permissionStatus == Granted then RequestsFor(ScheduleFor(preferences, timing)) else []
    {
      timing := MergeTiming(timing, update);
      requests := ScheduleNotifications();
    }

    /** `requestPermissions`: records the status the prompt gave; a thrown prompt counts as
        denied and stores the error. */
    method RequestPermissions(outcome: PermissionOutcome) returns (granted: bool)
      modifies this
      ensures granted <==> outcome == Status("granted")
      ensures !isPermissionLoading
      ensures outcome.Status? ==>
                && permissionStatus == (if outcome.status == "granted" then Granted
                                        else if outcome.status == "denied" then Denied else Undetermined)
                && error.None?
      ensures outcome.Threw? ==>
                permissionStatus == Denied && error == Some(outcome.message.GetOr("Failed to request permissions"))
      ensures preferences == old(preferences) && timing == old(timing) && usedQuoteIds == old(usedQuoteIds)
      ensures nextQuoteIndex == old(nextQuoteIndex) && isInApp == old(isInApp)
    {
      isPermissionLoading, error := true, None;
      match outcome
      case Status(status) =>
        permissionStatus := if status == "granted" then Granted else if status == "denied" then Denied else Undetermined;
        isPermissionLoading := false;
        granted := status == "granted";
      case Threw(message) =>
        permissionStatus, isPermissionLoading := Denied, false;
        error := Some(if message.Some? then message.value else "Failed to request permissions");
        granted := false;
    }

    /** `getNextQuote`: the next unused message, cycling by `nextQuoteIndex`; when every message
        is used the backlog is reset and the first message returned. */
    method GetNextQuote() returns (quote: CadenceMessage)
      modifies this
      ensures var available := Available(old(usedQuoteIds));
              if available == [] then
                quote == CadenceMessages[0] && usedQuoteIds == [] && nextQuoteIndex == 0
              else
                && quote == available[old(nextQuoteIndex) % |available|]
                && quote in CadenceMessages && quote.id !in old(usedQuoteIds)
                && usedQuoteIds == old(usedQuoteIds) && nextQuoteIndex == old(nextQuoteIndex) + 1
      ensures preferences == old(preferences) && timing == old(timing) && permissionStatus == old(permissionStatus)
      ensures isInApp == old(isInApp) && error == old(error) && isPermissionLoading == old(isPermissionLoading)
    {
      var availableQuotes := Available(usedQuoteIds);
      if |availableQuotes| == 0 {
        usedQuoteIds, nextQuoteIndex := [], 0;
        CatalogueLayout();
        return CadenceMessages[0];
      }
      quote := availableQuotes[nextQuoteIndex % |availableQuotes|];
      assert quote in availableQuotes;
      FilterMember(CadenceMessages, IdNotIn(usedQuoteIds), quote);
      nextQuoteIndex := nextQuoteIndex + 1;
    }

    /** `markQuoteUsed`: appends the id, duplicates included. */
    method MarkQuoteUsed(quoteId: string)
      modifies this
      ensures usedQuoteIds == old(usedQuoteIds) + [quoteId] && nextQuoteIndex == old(nextQuoteIndex)
      ensures preferences == old(preferences) && timing == old(timing) && permissionStatus == old(permissionStatus)
      ensures isInApp == old(isInApp) && error == old(error) && isPermissionLoading == old(isPermissionLoading)
    {
      usedQuoteIds := usedQuoteIds + [quoteId];
    }

    /** `resetQuoteBacklog`. */
    method ResetQuoteBacklog()
      modifies this
      ensures usedQuoteIds == [] && nextQuoteIndex == 0
      ensures preferences == old(preferences) && timing == old(timing) && permissionStatus == old(permissionStatus)
      ensures isInApp == old(isInApp) && error == old(error) && isPermissionLoading == old(isPermissionLoading)
    {
      usedQuoteIds, nextQuoteIndex := [], 0;
    }

    /** `deliverNotification`: marks the quote used (the engine does the delivery). */
    method DeliverNotification(quote: CadenceMessage, kind: NotificationType)
      modifies this
      ensures usedQuoteIds == old(usedQuoteIds) + [quote.id] && nextQuoteIndex == old(nextQuoteIndex)
      ensures preferences == old(preferences) && timing == old(timing) && permissionStatus == old(permissionStatus)
      ensures isInApp == old(isInApp) && error == old(error) && isPermissionLoading == old(isPermissionLoading)
    {
      MarkQuoteUsed(quote.id);
    }

    /** `_updateAppState`: the app is in front exactly when its state is "active". */
    method UpdateAppState(state: string)
      modifies this
      ensures isInApp <==> state == "active"
      ensures preferences == old(preferences) && timing == old(timing) && permissionStatus == old(permissionStatus)
      ensures usedQuoteIds == old(usedQuoteIds) && nextQuoteIndex == old(nextQuoteIndex)
      ensures error == old(error) && isPermissionLoading == old(isPermissionLoading)
    {
      isInApp := state == "active";
    }
  }
}
