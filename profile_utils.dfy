/** Time-of-day parsing, normalisation to "HH:MM" and range checks of the profile screen. */
module ProfileUtils {
  import opened Common
  import opened JsText

  predicate IsDigitIn(c: char, lo: char, hi: char) { lo <= c <= hi }

  /** The pattern `^([0-1]?[0-9]|2[0-3]):([0-5][0-9])$`: an hour of one digit, of two digits
      starting with 0 or 1, or 20..23, then a colon and two minute digits 00..59. */
  predicate IsValidTimeFormat(s: string) {
    (|s| == 4 && IsDigit(s[0]) && s[1] == ':' && IsDigitIn(s[2], '0', '5') && IsDigit(s[3]))
    || (|s| == 5
        && ((IsDigitIn(s[0], '0', '1') && IsDigit(s[1])) || (s[0] == '2' && IsDigitIn(s[1], '0', '3')))
        && s[2] == ':' && IsDigitIn(s[3], '0', '5') && IsDigit(s[4]))
  }

  /** The hour digits of a valid time: everything before the colon. */
  function HourText(s: string): (h: string)
    requires IsValidTimeFormat(s)
    ensures h != [] && |h| + 1 <= |s| && AllDigits(h) && s == h + ":" + s[|h| + 1..]
  {
    if |s| == 4 then s[..1] else s[..2]
  }

  /** The hour of a valid time lies in 0..23 and is what `Number` reads from the first part. */
  lemma HourOfValid(s: string)
    requires IsValidTimeFormat(s)
    ensures DecimalValue(HourText(s)) <= 23
    ensures NumberOf(Split(s, ':')[0]) == Some(DecimalValue(HourText(s)))
  {
    var h := HourText(s);
    SplitAtFirst(h, s[|h| + 1..], ':');
    assert Split(s, ':')[0] == h;
    NumberOfDigits(h);
    if |h| == 2 {
      TwoDigits(h);
    } else {
      assert h[..0] == [];
    }
  }

  /** The characters kept by `replace(/[^\d:]/g, "")`. */
  function Cleaned(input: string): (c: string)
    ensures forall i :: 0 <= i < |c| ==> IsDigit(c[i]) || c[i] == ':'
  {
    FilterSatisfies(input, (x: char) => IsDigit(x) || x == ':');
    Filter(input, (x: char) => IsDigit(x) || x == ':')
  }

  /** The "HH:MM" text of parsed hours and minutes, or `None` when either is NaN or out of range. */
  function HoursMinutes(hours: Option<int>, minutes: Option<int>): (r: Option<string>)
    ensures r.Some? <==> hours.Some? && minutes.Some? && 0 <= hours.value <= 23 && 0 <= minutes.value <= 59
    ensures r.Some? ==> |r.value| == 5 && IsValidTimeFormat(r.value)
  {
    if hours.None? || minutes.None? then None
    else if hours.value < 0 || hours.value > 23 then None
    else if minutes.value < 0 || minutes.value > 59 then None
    else
      PaddedIsValid(hours.value, minutes.value);
      Some(Pad2(hours.value) + ":" + Pad2(minutes.value))
  }

  /** A two-digit string's value is ten times its first digit plus its second. */
  lemma TwoDigits(d: string)
    requires |d| == 2 && AllDigits(d)
    ensures DecimalValue(d) == 10 * (d[0] as int - '0' as int) + (d[1] as int - '0' as int)
  {
    var a := d[..1];
    assert a[..0] == [];
    assert DecimalValue(a) == d[0] as int - '0' as int;
    assert d[..|d| - 1] == a;
  }

  /** Zero-padded hours 0..23 and minutes 0..59 form a time the pattern accepts. */
  lemma PaddedIsValid(hours: nat, minutes: nat)
    requires hours <= 23 && minutes <= 59
    ensures |Pad2(hours) + ":" + Pad2(minutes)| == 5
    ensures IsValidTimeFormat(Pad2(hours) + ":" + Pad2(minutes))
  {
    TwoDigits(Pad2(hours));
    TwoDigits(Pad2(minutes));
  }

  /** `formatTimeInput`: normalise free text to "HH:MM", or `None` when it cannot be read. */
  function FormatTimeInput(input: string): (r: Option<string>)
    ensures input == "" ==> r == None
    ensures r.Some? ==> |r.value| == 5 && IsValidTimeFormat(r.value)
  {
    if input == "" then None else FormatCleaned(Cleaned(input))
  }

  /** The branches of `formatTimeInput` after the input has been cleaned. */
  function FormatCleaned(c: string): (r: Option<string>)
    ensures r.Some? ==> |r.value| == 5 && IsValidTimeFormat(r.value)
  {
    if ':' in c then FormatColon(c) else FormatNoColon(c)
  }

  /** Text with a colon: exactly two parts, read as decimal hours and minutes. */
  function FormatColon(c: string): (r: Option<string>)
    ensures r.Some? ==> |r.value| == 5 && IsValidTimeFormat(r.value)
  {
    var parts := Split(c, ':');
    if |parts| != 2 then None
    else HoursMinutes(ParseInt(parts[0], Ten), ParseInt(parts[1], Ten))
  }

  /** Text without a colon: an hour of one or two digits, or hours and two minute digits. */
  function FormatNoColon(c: string): (r: Option<string>)
    ensures r.Some? ==> |r.value| == 5 && IsValidTimeFormat(r.value)
  {
    if |c| == 1 || |c| == 2 then
      var hours := ParseInt(c, Ten);
      if hours.None? || hours.value < 0 || hours.value > 23 then None
      else
        PaddedIsValid(hours.value, 0);
        Some(Pad2(hours.value) + ":00")
    else if |c| == 3 || |c| == 4 then
      HoursMinutes(ParseInt(c[..|c| - 2], Ten), ParseInt(c[|c| - 2..], Ten))
    else None
  }

  /** Two two-digit strings with the same value are the same string. */
  lemma TwoDigitsInjective(a: string, b: string)
    requires |a| == 2 && |b| == 2 && AllDigits(a) && AllDigits(b)
    requires DecimalValue(a) == DecimalValue(b)
    ensures a == b
  {
    TwoDigits(a);
    TwoDigits(b);
  }

  /** Every time the pattern accepts is accepted by `formatTimeInput`, which only adds the
      missing leading zero of a one-digit hour. */
  lemma ValidTimeAccepted(t: string)
    requires IsValidTimeFormat(t)
    ensures FormatTimeInput(t) == Some(if |t| == 4 then "0" + t else t)
  {
    var h := HourText(t);
    var m := t[|h| + 1..];
    MinutePadded(t);
    HourPadded(t);
    CleanedOfTime(t);
    HourOfValid(t);
    FormatWithOneColon(t, h, m);
    Reassemble(t, h, m);
  }

  /** Putting back a padded hour and the minutes gives the time, with a zero in front of a
      one-digit hour. */
  lemma Reassemble(t: string, h: string, m: string)
    requires t == h + ":" + m && |m| == 2 && 1 <= |h| <= 2
    ensures (if |h| == 1 then "0" + h else h) + ":" + m == if |t| == 4 then "0" + t else t
  {
    if |h| == 1 {
      assert "0" + h + ":" + m == "0" + (h + ":" + m);
    }
  }

  /** The minute text of a valid time has two digits, a value of at most 59 and pads to itself. */
  lemma MinutePadded(t: string)
    requires IsValidTimeFormat(t)
    ensures var m := t[|HourText(t)| + 1..];
      |m| == 2 && AllDigits(m) && DecimalValue(m) <= 59 && Pad2(DecimalValue(m)) == m
  {
    var m := t[|HourText(t)| + 1..];
    assert m == t[|t| - 2..];
    TwoDigits(m);
    TwoDigitsPadded(m);
  }

  /** The hour text of a valid time pads to itself with a leading zero when it has one digit. */
  lemma HourPadded(t: string)
    requires IsValidTimeFormat(t)
    ensures var h := HourText(t);
      Pad2(DecimalValue(h)) == if |h| == 1 then "0" + h else h
  {
    var h := HourText(t);
    if |h| == 2 {
      TwoDigitsPadded(h);
    } else {
      OneDigitPadded(h);
    }
  }

  /** Two digits pad to themselves. */
  lemma TwoDigitsPadded(d: string)
    requires |d| == 2 && AllDigits(d)
    ensures Pad2(DecimalValue(d)) == d
  {
    TwoDigits(d);
    TwoDigitsInjective(Pad2(DecimalValue(d)), d);
  }

  /** One digit pads to itself behind a zero. */
  lemma OneDigitPadded(d: string)
    requires |d| == 1 && AllDigits(d)
    ensures Pad2(DecimalValue(d)) == "0" + d
  {
    assert d[..0] == [];
    var v := DecimalValue(d);
    assert v == d[0] as int - '0' as int;
    assert NatToString(v) == [DigitChar(v)] == d;
  }

  lemma CleanedOfTime(t: string)
    requires IsValidTimeFormat(t)
    ensures Cleaned(t) == t
  {
    FilterAll(t, (x: char) => IsDigit(x) || x == ':');
  }

  /** Normalising is idempotent: a result of `formatTimeInput` formats to itself. */
  lemma FormatIdempotent(input: string)
    requires FormatTimeInput(input).Some?
    ensures FormatTimeInput(FormatTimeInput(input).value) == FormatTimeInput(input)
  {
    ValidTimeAccepted(FormatTimeInput(input).value);
  }

  /** Input whose kept characters are digits, one colon and digits is accepted exactly when
      both sides are present, the hour is at most 23 and the minute at most 59. */
  lemma FormatWithOneColon(input: string, a: string, b: string)
    requires Cleaned(input) == a + ":" + b && AllDigits(a) && AllDigits(b)
    ensures FormatTimeInput(input)
      == if a != [] && b != [] && DecimalValue(a) <= 23 && DecimalValue(b) <= 59
         then Some(Pad2(DecimalValue(a)) + ":" + Pad2(DecimalValue(b)))
         else None
  {
    assert input != [] by {
      assert ':' in Cleaned(input);
    }
    ColonParts(a, b);
  }

  lemma ColonParts(a: string, b: string)
    requires AllDigits(a) && AllDigits(b)
    ensures FormatCleaned(a + ":" + b)
      == if a != [] && b != [] && DecimalValue(a) <= 23 && DecimalValue(b) <= 59
         then Some(Pad2(DecimalValue(a)) + ":" + Pad2(DecimalValue(b)))
         else None
  {
    assert ':' in a + ":" + b;
    assert ':' !in a && ':' !in b;
    SplitAtFirst(a, b, ':');
    SplitNoSeparator(b, ':');
    assert Split(a + ":" + b, ':') == [a, b];
    if a != [] {
      ParseDecimalDigits(a);
      DecimalValueIsDigitsValue(a);
    } else {
      assert ParseInt(a, Ten) == None;
    }
    if b != [] {
      ParseDecimalDigits(b);
      DecimalValueIsDigitsValue(b);
    } else {
      assert ParseInt(b, Ten) == None;
    }
  }

  /** Two or more colons are always rejected. */
  lemma FormatManyColons(input: string)
    requires CountChar(Cleaned(input), ':') >= 2
    ensures FormatTimeInput(input) == None
  {
    SplitCount(Cleaned(input), ':');
    assert ':' in Cleaned(input) by {
      CountCharMember(Cleaned(input), ':');
    }
  }

  lemma {:induction false} CountCharMember(s: string, c: char)
    ensures CountChar(s, c) > 0 <==> c in s
  {
    if s != [] {
      CountCharMember(s[1..], c);
      assert c in s <==> s[0] == c || c in s[1..];
    }
  }

  /** Without a colon, one or two digits are an hour with ":00", three or four digits are hours
      followed by two minute digits, and any other length is rejected. */
  lemma FormatWithoutColon(input: string)
    requires input != [] && ':' !in Cleaned(input)
    ensures var c := Cleaned(input);
      AllDigits(c)
      && FormatTimeInput(input)
         == if |c| == 1 || |c| == 2 then
              (if DecimalValue(c) <= 23 then Some(Pad2(DecimalValue(c)) + ":00") else None)
            else if |c| == 3 || |c| == 4 then
              (if DecimalValue(c[..|c| - 2]) <= 23 && DecimalValue(c[|c| - 2..]) <= 59
               then Some(Pad2(DecimalValue(c[..|c| - 2])) + ":" + Pad2(DecimalValue(c[|c| - 2..])))
               else None)
            else None
  {
    var c := Cleaned(input);
    NoColonDigits(c);
  }

  lemma NoColonDigits(c: string)
    requires ':' !in c && forall i :: 0 <= i < |c| ==> IsDigit(c[i]) || c[i] == ':'
    ensures AllDigits(c)
      && FormatCleaned(c)
         == if |c| == 1 || |c| == 2 then
              (if DecimalValue(c) <= 23 then Some(Pad2(DecimalValue(c)) + ":00") else None)
            else if |c| == 3 || |c| == 4 then
              (if DecimalValue(c[..|c| - 2]) <= 23 && DecimalValue(c[|c| - 2..]) <= 59
               then Some(Pad2(DecimalValue(c[..|c| - 2])) + ":" + Pad2(DecimalValue(c[|c| - 2..])))
               else None)
            else None
  {
    assert AllDigits(c) by {
      forall i | 0 <= i < |c| ensures IsDigit(c[i]) {
        assert c[i] in c;
      }
    }
    if |c| == 1 || |c| == 2 {
      ShortDigits(c);
    } else if |c| == 3 || |c| == 4 {
      LongDigits(c);
    }
  }

  lemma ShortDigits(c: string)
    requires (|c| == 1 || |c| == 2) && AllDigits(c)
    ensures FormatNoColon(c)
      == if DecimalValue(c) <= 23 then Some(Pad2(DecimalValue(c)) + ":00") else None
  {
    ParseDecimalDigits(c);
    DecimalValueIsDigitsValue(c);
  }

  lemma LongDigits(c: string)
    requires (|c| == 3 || |c| == 4) && AllDigits(c)
    ensures FormatNoColon(c)
      == if DecimalValue(c[..|c| - 2]) <= 23 && DecimalValue(c[|c| - 2..]) <= 59
         then Some(Pad2(DecimalValue(c[..|c| - 2])) + ":" + Pad2(DecimalValue(c[|c| - 2..])))
         else None
  {
    var hs, ms := c[..|c| - 2], c[|c| - 2..];
    assert AllDigits(hs) && AllDigits(ms);
    ParseDecimalDigits(hs);
    ParseDecimalDigits(ms);
    DecimalValueIsDigitsValue(hs);
    DecimalValueIsDigitsValue(ms);
  }

  /** The characters kept by `replace(/\D/g, "")`. */
  function DigitsOnly(input: string): (d: string)
    ensures AllDigits(d)
  {
    FilterSatisfies(input, IsDigit);
    Filter(input, IsDigit)
  }

  /** `formatTimeInputLive`: the digits typed so far, with a colon inserted once there are
      three of them. */
  function FormatTimeInputLive(input: string): string {
    if input == "" then ""
    else
      var d := DigitsOnly(input);
      if |d| == 0 then ""
      else if |d| == 1 || |d| == 2 then d
      else if |d| == 3 then d[..1] + ":" + d[1..]
      else d[..2] + ":" + d[2..4]
  }

  /** The live format keeps at most the first four digits, in order; it adds a colon only from
      three digits on, after the first digit for three and after the second for four or more. */
  lemma LiveKeepsFirstFourDigits(input: string)
    ensures var d := DigitsOnly(input);
      var r := FormatTimeInputLive(input);
      Filter(r, IsDigit) == (if |d| <= 4 then d else d[..4])
      && (|d| <= 2 ==> r == d)
      && (|d| == 3 ==> r == d[..1] + ":" + d[1..])
      && (|d| >= 4 ==> r == d[..2] + ":" + d[2..4])
      && |r| <= 5
  {
    var d := DigitsOnly(input);
    if input == "" {
      assert d == [];
    } else if |d| == 3 {
      DigitsAroundColon(d[..1], d[1..]);
      assert d[..1] + d[1..] == d;
    } else if |d| >= 4 {
      DigitsAroundColon(d[..2], d[2..4]);
      assert d[..2] + d[2..4] == d[..4];
    } else {
      FilterAll(d, IsDigit);
    }
  }

  /** Dropping the colon from two digit strings joined by it gives back their concatenation. */
  lemma DigitsAroundColon(x: string, y: string)
    requires AllDigits(x) && AllDigits(y)
    ensures Filter(x + ":" + y, IsDigit) == x + y
  {
    FilterAll(x, IsDigit);
    FilterAll(y, IsDigit);
    FilterAppend(x, ":", IsDigit);
    FilterAppend(x + ":", y, IsDigit);
    assert Filter(":", IsDigit) == [];
  }

  /** The hour of a valid time. */
  function HourOf(s: string): (h: nat)
    requires IsValidTimeFormat(s)
    ensures h <= 23
  {
    HourOfValid(s);
    DecimalValue(HourText(s))
  }

  /** `isReasonableWakeTime`. */
  predicate IsReasonableWakeTime(s: string) {
    IsValidTimeFormat(s)
    && match NumberOf(Split(s, ':')[0])
       case Some(h) => h >= 4 && h <= 12
       case None => false
  }

  /** `isReasonableSleepTime`. */
  predicate IsReasonableSleepTime(s: string) {
    IsValidTimeFormat(s)
    && match NumberOf(Split(s, ':')[0])
       case Some(h) => h >= 20 || h <= 2
       case None => false
  }

  /** A wake time is reasonable iff it is valid with an hour in 4..12; a sleep time iff it is
      valid with an hour of 20 or later or 2 or earlier. */
  lemma ReasonableTimes(s: string)
    ensures IsReasonableWakeTime(s) <==> IsValidTimeFormat(s) && 4 <= HourOf(s) <= 12
    ensures IsReasonableSleepTime(s) <==> IsValidTimeFormat(s) && (HourOf(s) >= 20 || HourOf(s) <= 2)
  {
    if IsValidTimeFormat(s) {
      HourOfValid(s);
    }
  }

  datatype TimeKind = Wake | Sleep

  /** The translation keys `getTimeValidationError` can return. */
  datatype TimeError = TimeRequired | TimeFormat | WakeTimeRange | SleepTimeRange

  function ErrorKey(e: TimeError): string {
    match e
    case TimeRequired => "profile.error-messages.time-required"
    case TimeFormat => "profile.error-messages.time-format"
    case WakeTimeRange => "profile.error-messages.wake-time-range"
    case SleepTimeRange => "profile.error-messages.sleep-time-range"
  }

  /** The first failing check of `getTimeValidationError`, if any. */
  function TimeValidation(input: string, kind: TimeKind): Option<TimeError> {
    if input == "" then Some(TimeRequired)
    else
      var formatted := FormatTimeInput(input);
      if formatted.None? then Some(TimeFormat)
      else if kind == Wake && !IsReasonableWakeTime(formatted.value) then Some(WakeTimeRange)
      else if kind == Sleep && !IsReasonableSleepTime(formatted.value) then Some(SleepTimeRange)
      else None
  }

  /** `getTimeValidationError` with the translation function `t` as a parameter. */
  function GetTimeValidationError(input: string, kind: TimeKind, t: string -> string): string {
    match TimeValidation(input, kind)
    case None => ""
    case Some(e) => t(ErrorKey(e))
  }

  /** There is no error exactly when the input formats to a time whose hour is in range for its
      kind; otherwise the error is the first failing check among required, format and range. */
  lemma TimeValidationCharacterised(input: string, kind: TimeKind)
    ensures TimeValidation(input, kind) == None
      <==> FormatTimeInput(input).Some?
           && (kind == Wake ==> 4 <= HourOf(FormatTimeInput(input).value) <= 12)
           && (kind == Sleep ==> (HourOf(FormatTimeInput(input).value) >= 20
                                  || HourOf(FormatTimeInput(input).value) <= 2))
    ensures input == "" ==> TimeValidation(input, kind) == Some(TimeRequired)
    ensures input != "" && FormatTimeInput(input).None? ==> TimeValidation(input, kind) == Some(TimeFormat)
    ensures TimeValidation(input, kind) == Some(WakeTimeRange) ==> kind == Wake && FormatTimeInput(input).Some?
    ensures TimeValidation(input, kind) == Some(SleepTimeRange) ==> kind == Sleep && FormatTimeInput(input).Some?
  {
    if FormatTimeInput(input).Some? {
      ReasonableTimes(FormatTimeInput(input).value);
    }
  }
}
