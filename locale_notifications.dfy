/** The locale layer in front of a notification provider: it rewrites the title and body of
    each notification in the user's language before handing it on.

    Cadence's own reminders (midday, evening, streak) take a localized title from a fixed
    table and a randomly picked message; every other type is looked up in a per-language
    table of `{{name}}` templates, falling back to English only when the language has no
    table at all, and to a fixed default otherwise. */
module LocaleNotifications {
  import opened Common
  import opened JsText
  import NotificationsStore

  // ---------------------------------------------------------------------------------------
  // Metadata values and template interpolation

  /** A metadata value as far as `toString` and truthiness see it. */
  datatype MetaValue = MString(s: string) | MNumber(n: int) | MBool(b: bool) | MNull | MObject

  /** `value?.toString()`: nothing for `null`. */
  function ToStringOf(v: MetaValue): (r: Option<string>)
    ensures r.None? <==> v.MNull?
  {
    match v
    case MString(s) => Some(s)
    case MNumber(n) => Some(IntToString(n))
    case MBool(b) => Some(if b then "true" else "false")
    case MNull => None
    case MObject => Some("[object Object]")
  }

  /** JavaScript truthiness of a metadata value. */
  predicate IsTruthy(v: MetaValue) {
    match v
    case MString(s) => s != ""
    case MNumber(n) => n != 0
    case MBool(b) => b
    case MNull => false
    case MObject => true
  }

  /** The length of the run of word characters (`\w`) that `s` starts with. */
  function WordRun(s: string): (n: nat)
    ensures n <= |s|
    ensures forall i :: 0 <= i < n ==> IsWordChar(s[i])
    ensures n < |s| ==> !IsWordChar(s[n])
  {
    if s != [] && IsWordChar(s[0]) then 1 + WordRun(s[1..]) else 0
  }

  /** The name of the `{{name}}` placeholder that `s` starts with, if any: the pattern
      `\{\{(\w+)\}\}` anchored at the start of `s`. */
  function PlaceholderKey(s: string): (key: Option<string>)
    ensures key.Some? ==> key.value != "" && |key.value| + 4 <= |s|
    ensures key.Some? ==> forall i :: 0 <= i < |key.value| ==> IsWordChar(key.value[i])
    ensures key.Some? ==> s[..|key.value| + 4] == "{{" + key.value + "}}"
    ensures !StartsWith(s, "{{") ==> key.None?
  {
    if StartsWith(s, "{{") then
      var n := WordRun(s[2..]);
      if n > 0 && StartsWith(s[2 + n..], "}}") then
        assert s[..n + 4] == s[..2] + s[2..2 + n] + s[2 + n..][..2];
        Some(s[2..2 + n])
      else None
    else None
  }

  /** The variable gives a replacement: present, and its string form is not empty. */
  predicate Resolves(key: string, vars: map<string, MetaValue>) {
    key in vars && ToStringOf(vars[key]).Some? && ToStringOf(vars[key]).value != ""
  }

  /** `variables[key]?.toString() || match`. */
  function Replacement(key: string, placeholder: string, vars: map<string, MetaValue>): string {
    if Resolves(key, vars) then ToStringOf(vars[key]).value else placeholder
  }

  /** `text.replace(/\{\{(\w+)\}\}/g, …)`: placeholders are found left to right, each match
      resumes the scan after itself, and each is replaced by its variable's string form, or
      left as it is. */
  function Interpolate(text: string, vars: map<string, MetaValue>): string
    decreases |text|
  {
    if text == [] then []
    else
      match PlaceholderKey(text)
      case Some(key) =>
        Replacement(key, text[..|key| + 4], vars) + Interpolate(text[|key| + 4..], vars)
      case None => [text[0]] + Interpolate(text[1..], vars)
  }

  /** Text in which no placeholder resolves comes out of interpolation unchanged. */
  lemma {:induction false} InterpolateUnresolved(text: string, vars: map<string, MetaValue>)
    requires forall i :: 0 <= i <= |text| && PlaceholderKey(text[i..]).Some? ==>
               !Resolves(PlaceholderKey(text[i..]).value, vars)
    ensures Interpolate(text, vars) == text
    decreases |text|
  {
    if text != [] {
      assert text[0..] == text;
      match PlaceholderKey(text)
      case Some(key) =>
        var n := |key| + 4;
        forall i | 0 <= i <= |text[n..]| && PlaceholderKey(text[n..][i..]).Some?
          ensures !Resolves(PlaceholderKey(text[n..][i..]).value, vars)
        {
          assert text[n..][i..] == text[n + i..];
        }
        InterpolateUnresolved(text[n..], vars);
      case None =>
        forall i | 0 <= i <= |text[1..]| && PlaceholderKey(text[1..][i..]).Some?
          ensures !Resolves(PlaceholderKey(text[1..][i..]).value, vars)
        {
          assert text[1..][i..] == text[1 + i..];
        }
        InterpolateUnresolved(text[1..], vars);
    }
  }

  /** Interpolating with no variables changes nothing. */
  lemma InterpolateNoVariables(text: string)
    ensures Interpolate(text, map[]) == text
  {
    InterpolateUnresolved(text, map[]);
  }

  /** Text without any `{{word}}` placeholder passes through unchanged, whatever the
      variables. */
  lemma NoPlaceholderUnchanged(text: string, vars: map<string, MetaValue>)
    requires forall i :: 0 <= i <= |text| ==> PlaceholderKey(text[i..]).None?
    ensures Interpolate(text, vars) == text
  {
    InterpolateUnresolved(text, vars);
  }

  /** A first character that cannot open a placeholder is copied. */
  lemma PlainStep(t: string, vars: map<string, MetaValue>)
    requires t != [] && t[0] != '{'
    ensures Interpolate(t, vars) == [t[0]] + Interpolate(t[1..], vars)
  {
    assert !StartsWith(t, "{{");
  }

  /** A placeholder at the start is replaced, and the scan resumes after it. */
  lemma PlaceholderStep(t: string, key: string, vars: map<string, MetaValue>)
    requires PlaceholderKey(t) == Some(key)
    ensures Interpolate(t, vars) == Replacement(key, t[..|key| + 4], vars) + Interpolate(t[|key| + 4..], vars)
  {
  }

  /** Text without an opening brace is copied through. */
  lemma {:induction false} PlainPrefix(pre: string, rest: string, vars: map<string, MetaValue>)
    requires '{' !in pre
    ensures Interpolate(pre + rest, vars) == pre + Interpolate(rest, vars)
    decreases |pre|
  {
    if pre == [] {
      assert pre + rest == rest;
    } else {
      var t := pre + rest;
      var tail := pre[1..];
      assert t[0] == pre[0] && t[1..] == tail + rest;
      PlainStep(t, vars);
      PlainPrefix(tail, rest, vars);
      ConsAppend(pre, Interpolate(rest, vars));
    }
  }

  lemma ConsAppend(a: string, b: string)
    requires a != []
    ensures [a[0]] + (a[1..] + b) == a + b
  {
  }

  /** A word followed by a non-word character is the whole word run. */
  lemma {:induction false} WordRunOf(key: string, tail: string)
    requires forall i :: 0 <= i < |key| ==> IsWordChar(key[i])
    requires tail != [] && !IsWordChar(tail[0])
    ensures WordRun(key + tail) == |key|
    decreases |key|
  {
    if key != [] {
      assert (key + tail)[1..] == key[1..] + tail;
      WordRunOf(key[1..], tail);
    } else {
      assert key + tail == tail;
    }
  }

  /** A text with exactly one placeholder, `{{key}}`, surrounded by brace-free text: the
      placeholder becomes the variable's string form when it has one, and stays otherwise. */
  lemma SinglePlaceholder(pre: string, key: string, post: string, vars: map<string, MetaValue>)
    requires '{' !in pre && '{' !in post
    requires key != "" && forall i :: 0 <= i < |key| ==> IsWordChar(key[i])
    ensures Interpolate(pre + "{{" + key + "}}" + post, vars)
            == pre + (if Resolves(key, vars) then ToStringOf(vars[key]).value else "{{" + key + "}}") + post
  {
    var p := "{{" + key + "}}";
    var s := p + post;
    assert pre + "{{" + key + "}}" + post == pre + s;
    PlainPrefix(pre, s, vars);
    PlaceholderOf(key, post);
    assert s[..|key| + 4] == p && s[|key| + 4..] == post;
    PlaceholderStep(s, key, vars);
    BraceFree(post, vars);
  }

  /** `{{key}}` followed by anything is recognised as the placeholder `key`. */
  lemma PlaceholderOf(key: string, post: string)
    requires key != "" && forall i :: 0 <= i < |key| ==> IsWordChar(key[i])
    ensures PlaceholderKey("{{" + key + "}}" + post) == Some(key)
  {
    var s := "{{" + key + "}}" + post;
    assert StartsWith(s, "{{");
    assert s[2..] == key + ("}}" + post);
    WordRunOf(key, "}}" + post);
    assert s[2 + |key|..] == "}}" + post;
    assert s[2..2 + |key|] == key;
  }

  /** `{{key}}`. */
  function Placeholder(key: string): string {
    "{{" + key + "}}"
  }

  /** A text that is one placeholder becomes its variable's string form, if it has one. */
  lemma WholePlaceholder(key: string, vars: map<string, MetaValue>)
    requires key != "" && forall i :: 0 <= i < |key| ==> IsWordChar(key[i])
    ensures Interpolate(Placeholder(key), vars) == Replacement(key, Placeholder(key), vars)
  {
    var p := Placeholder(key);
    assert p == "{{" + key + "}}" + "";
    PlaceholderOf(key, "");
    assert p[..|key| + 4] == p && p[|key| + 4..] == [];
    PlaceholderStep(p, key, vars);
  }

  /** Text without an opening brace has no placeholder. */
  lemma BraceFree(text: string, vars: map<string, MetaValue>)
    requires '{' !in text
    ensures Interpolate(text, vars) == text
  {
    PlainPrefix(text, "", vars);
    assert text + "" == text;
  }

  /** A notification's title and body: both a template and the localized result. */
  datatype Content = Content(title: string, body: string)

  /** `interpolateTemplate`. */
  function InterpolateTemplate(template: Content, vars: map<string, MetaValue>): (c: Content)
    ensures vars == map[] ==> c == template
  {
    InterpolateNoVariables(template.title);
    InterpolateNoVariables(template.body);
    Content(Interpolate(template.title, vars), Interpolate(template.body, vars))
  }

  // ---------------------------------------------------------------------------------------
  // Localized titles

  const MiddayTitleKey := "notifications.midday_reflection.title"
  const EveningTitleKey := "notifications.evening_reflection.title"
  const StreakTitleKey := "notifications.streak_reminder.title"

  /** One row of the title table, one entry per language. */
  datatype TitleRow = TitleRow(en: string, da: string, fr: string, de: string, es: string)

  function TitleRowFor(key: string): Option<TitleRow> {
    if key == MiddayTitleKey then
      Some(TitleRow("Midday Reflection", "Middag Reflektion", "Réflexion de Midi", "Mittags-Reflektion",
                    "Reflexión del Mediodía"))
    else if key == EveningTitleKey then
      Some(TitleRow("Evening Reflection", "Aften Reflektion", "Réflexion du Soir", "Abend-Reflektion",
                    "Reflexión Nocturna"))
    else if key == StreakTitleKey then
      Some(TitleRow("Weekly Progress", "Ugentlig Fremskridt", "Progrès Hebdomadaire", "Wöchentlicher Fortschritt",
                    "Progreso Semanal"))
    else None
  }

  /** `row[language]`. */
  function InLanguage(row: TitleRow, language: string): Option<string> {
    if language == "en" then Some(row.en)
    else if language == "da" then Some(row.da)
    else if language == "fr" then Some(row.fr)
    else if language == "de" then Some(row.de)
    else if language == "es" then Some(row.es)
    else None
  }

  /** `getLocalizedTitle`: the title in the language, else in English, else the key itself. */
  function GetLocalizedTitle(key: string, language: string): (r: string)
    ensures TitleRowFor(key).None? ==> r == key
  {
    match TitleRowFor(key)
    case None => key
    case Some(row) =>
      var t := InLanguage(row, language);
      if t.Some? && t.value != "" then t.value
      else if row.en != "" then row.en
      else key
  }

  /** Every entry of the title table is filled in. */
  lemma TitleRowsFilled(key: string, language: string)
    requires TitleRowFor(key).Some? && InLanguage(TitleRowFor(key).value, language).Some?
    ensures InLanguage(TitleRowFor(key).value, language).value != ""
  {
  }

  /** A known key gets its title in the language when the table has that language and the
      English title otherwise; an unknown key is returned as it is. */
  lemma TitleFallback(key: string, language: string)
    ensures TitleRowFor(key).Some? && InLanguage(TitleRowFor(key).value, language).Some? ==>
              GetLocalizedTitle(key, language) == InLanguage(TitleRowFor(key).value, language).value
    ensures TitleRowFor(key).Some? && InLanguage(TitleRowFor(key).value, language).None? ==>
              GetLocalizedTitle(key, language) == GetLocalizedTitle(key, "en")
    ensures TitleRowFor(key).None? ==> GetLocalizedTitle(key, language) == key
  {
    if TitleRowFor(key).Some? {
      if InLanguage(TitleRowFor(key).value, language).Some? {
        TitleRowsFilled(key, language);
      }
      TitleRowsFilled(key, "en");
    }
  }

  // ---------------------------------------------------------------------------------------
  // Content selection

  /** The content used when no template applies. */
  const DefaultContent := Content("Cadence Notification", "You have a new notification")

  /** `Math.floor(random * n)` for `random` drawn from [0, 1): an index into a list of `n`. */
  function Pick(random: real, n: nat): (i: nat)
    requires 0.0 <= random < 1.0 && n > 0
    ensures i < n
  {
    var x := random * n as real;
    assert 0.0 <= x < n as real;
    x.Floor
  }

  /** `s.replace(pattern, replacement)` with a string pattern: only the first occurrence. */
  function ReplaceFirst(s: string, pattern: string, replacement: string): (r: string)
    ensures !Contains(s, pattern) ==> r == s
    ensures Contains(s, pattern) ==>
              exists k :: OccursAt(s, pattern, k) && (forall j :: 0 <= j < k ==> !OccursAt(s, pattern, j))
                          && r == s[..k] + replacement + s[k + |pattern|..]
  {
    IndexOfFirst(s, pattern);
    var k := IndexOf(s, pattern);
    if k < 0 then s else s[..k] + replacement + s[k + |pattern|..]
  }

  /** `getRandomStreakMessage(count)`: a streak message with its count filled in. */
  function StreakMessage(random: real, count: string): string
    requires 0.0 <= random < 1.0
  {
    ReplaceFirst(NotificationsStore.StreakText(Pick(random, 5)), "{{streakCount}}", count)
  }

  /** The streak path is taken only for a truthy `metadata.streakCount`. */
  predicate TakesStreakPath(kind: string, metadata: Option<map<string, MetaValue>>) {
    kind == "streak-reminder" && metadata.Some? && "streakCount" in metadata.value
    && IsTruthy(metadata.value["streakCount"])
  }

  /** Types answered by Cadence's own message lists rather than by a template. */
  predicate IsCadenceMessage(kind: string, metadata: Option<map<string, MetaValue>>) {
    kind == "midday-reflection" || kind == "evening-reflection" || TakesStreakPath(kind, metadata)
  }

  /** `templates.get(language) || templates.get("en")`. */
  function TemplatesFor(templates: map<string, map<string, Content>>, language: string)
    : Option<map<string, Content>>
  {
    if language in templates then Some(templates[language])
    else if "en" in templates then Some(templates["en"])
    else None
  }

  /** `getLocalizedContent`; `random` stands for the `Math.random()` draw of the message
      pickers. */
  function LocalizedContent(
    templates: map<string, map<string, Content>>, kind: string, language: string,
    metadata: Option<map<string, MetaValue>>, random: real): (c: Content)
    requires 0.0 <= random < 1.0
    ensures kind == "midday-reflection" ==>
              c.title == GetLocalizedTitle(MiddayTitleKey, language)
              && exists i :: 0 <= i < 10 && c.body == NotificationsStore.MiddayText(i)
    ensures kind == "evening-reflection" ==>
              c.title == GetLocalizedTitle(EveningTitleKey, language)
              && exists i :: 0 <= i < 27 && c.body == NotificationsStore.EveningText(i)
    ensures TakesStreakPath(kind, metadata) ==> c.title == GetLocalizedTitle(StreakTitleKey, language)
  {
    if kind == "midday-reflection" then
      Content(GetLocalizedTitle(MiddayTitleKey, language), NotificationsStore.MiddayText(Pick(random, 10)))
    else if kind == "evening-reflection" then
      Content(GetLocalizedTitle(EveningTitleKey, language), NotificationsStore.EveningText(Pick(random, 27)))
    else if TakesStreakPath(kind, metadata) then
      var count := ToStringOf(metadata.value["streakCount"]).GetOr("");
      Content(GetLocalizedTitle(StreakTitleKey, language), StreakMessage(random, count))
    else
      var ts := TemplatesFor(templates, language);
      if ts.Some? && kind in ts.value then
        InterpolateTemplate(ts.value[kind], metadata.GetOr(map[]))
      else DefaultContent
  }

  /** A template type is looked up in the language's own table when it has one: a missing
      type then gives the default content, even when English has a template for it. */
  lemma OwnTableOnly(templates: map<string, map<string, Content>>, kind: string, language: string,
                     metadata: Option<map<string, MetaValue>>, random: real)
    requires 0.0 <= random < 1.0
    requires !IsCadenceMessage(kind, metadata) && language in templates
    ensures kind in templates[language] ==>
              LocalizedContent(templates, kind, language, metadata, random)
              == InterpolateTemplate(templates[language][kind], metadata.GetOr(map[]))
    ensures kind !in templates[language] ==>
              LocalizedContent(templates, kind, language, metadata, random) == DefaultContent
  {
  }

  /** A language with neither templates nor titles of its own is shown exactly as English. */
  lemma UnknownLanguageAsEnglish(templates: map<string, map<string, Content>>, kind: string, language: string,
                                 metadata: Option<map<string, MetaValue>>, random: real)
    requires 0.0 <= random < 1.0
    requires language !in templates && language !in {"en", "da", "fr", "de", "es"}
    ensures LocalizedContent(templates, kind, language, metadata, random)
            == LocalizedContent(templates, kind, "en", metadata, random)
  {
    TitleFallback(MiddayTitleKey, language);
    TitleFallback(EveningTitleKey, language);
    TitleFallback(StreakTitleKey, language);
  }

  /** The streak body is a streak message with its first `{{streakCount}}` replaced by the
      count's string form. */
  lemma StreakBody(kind: string, language: string, templates: map<string, map<string, Content>>,
                   metadata: Option<map<string, MetaValue>>, random: real)
    requires 0.0 <= random < 1.0 && TakesStreakPath(kind, metadata)
    ensures exists i :: 0 <= i < 5 &&
              LocalizedContent(templates, kind, language, metadata, random).body
              == ReplaceFirst(NotificationsStore.StreakText(i), "{{streakCount}}",
                              ToStringOf(metadata.value["streakCount"]).value)
  {
    var i := Pick(random, 5);
    assert LocalizedContent(templates, kind, language, metadata, random).body
           == ReplaceFirst(NotificationsStore.StreakText(i), "{{streakCount}}",
                           ToStringOf(metadata.value["streakCount"]).value);
  }

  // ---------------------------------------------------------------------------------------
  // The language in use

  /** The index of the first '-' or '_' in `s`, or its length. */
  function FirstSeparator(s: string): (k: nat)
    ensures k <= |s|
    ensures forall i :: 0 <= i < k ==> s[i] != '-' && s[i] != '_'
    ensures k < |s| ==> s[k] == '-' || s[k] == '_'
  {
    if s == [] || s[0] == '-' || s[0] == '_' then 0 else 1 + FirstSeparator(s[1..])
  }

  /** `(i18n.language || "en").split(/[-_]/)[0].toLowerCase()`. */
  function CurrentLanguage(i18nLanguage: Option<string>): (r: string)
    ensures forall i :: 0 <= i < |r| ==> r[i] != '-' && r[i] != '_' && !IsUpper(r[i])
    ensures !Truthy(i18nLanguage) ==> r == "en"
  {
    var l := if Truthy(i18nLanguage) then i18nLanguage.value else "en";
    ToLower(l[..FirstSeparator(l)])
  }

  /** A language code already in the form `CurrentLanguage` produces is kept as it is. */
  lemma CurrentLanguageIdempotent(i18nLanguage: Option<string>)
    requires CurrentLanguage(i18nLanguage) != ""
    ensures CurrentLanguage(Some(CurrentLanguage(i18nLanguage))) == CurrentLanguage(i18nLanguage)
  {
    var r := CurrentLanguage(i18nLanguage);
    assert FirstSeparator(r) == |r|;
    assert r[..|r|] == r;
    assert ToLower(r) == r;
  }

  /** "da-DK" and "da_dk" both select Danish. */
  lemma RegionStripped()
    ensures CurrentLanguage(Some("da-DK")) == "da" && CurrentLanguage(Some("da_dk")) == "da"
  {
    assert FirstSeparator("da-DK") == 2 by {
      assert "da-DK"[1..][1..] == "-DK";
    }
    assert FirstSeparator("da_dk") == 2 by {
      assert "da_dk"[1..][1..] == "_dk";
    }
    assert "da-DK"[..2] == "da" == "da_dk"[..2];
  }

  // ---------------------------------------------------------------------------------------
  // The templates and the provider

  /** One language's templates: an achievement with its own title and body, and a reminder
      and a system notification whose body is the message itself. */
  function TemplateTable(achievementTitle: string, achievementBody: string, reminderTitle: string, systemTitle: string)
    : (r: map<string, Content>)
    ensures r.Keys == {"achievement", "reminder", "system"}
    ensures r["reminder"].body == Placeholder("message") && r["system"].body == Placeholder("message")
  {
    map[
      "achievement" := Content(achievementTitle, achievementBody),
      "reminder" := Content(reminderTitle, Placeholder("message")),
      "system" := Content(systemTitle, Placeholder("message"))
    ]
  }

  const InitialLanguages: seq<string> := ["en", "da", "fr", "de", "es"]

  /** The templates `initializeTemplates` installs for one language. */
  function InitialTable(language: string): (r: map<string, Content>)
    requires language in InitialLanguages
    ensures r.Keys == {"achievement", "reminder", "system"}
    ensures r["reminder"].body == Placeholder("message") && r["system"].body == Placeholder("message")
  {
    if language == "en" then
      TemplateTable("Achievement Unlocked!", "Congratulations! You've earned: {{achievementName}}",
                    "Friendly Reminder", "System Notification")
    else if language == "da" then
      TemplateTable("Præstation Låst Op!", "Tillykke! Du har optjent: {{achievementName}}",
                    "Venlig Påmindelse", "Systemmeddelelse")
    else if language == "fr" then
      TemplateTable("Succès Débloqué !", "Félicitations ! Vous avez gagné : {{achievementName}}",
                    "Rappel Amical", "Notification Système")
    else if language == "de" then
      TemplateTable("Erfolg Freigeschaltet!", "Glückwunsch! Sie haben erhalten: {{achievementName}}",
                    "Freundliche Erinnerung", "Systembenachrichtigung")
    else
      TemplateTable("¡Logro Desbloqueado!", "¡Felicitaciones! Has ganado: {{achievementName}}",
                    "Recordatorio Amistoso", "Notificación del Sistema")
  }

  /** The templates `initializeTemplates` installs: English, Danish, French, German and
      Spanish. */
  function InitialTemplates(): (r: map<string, map<string, Content>>)
    ensures forall l :: l in r <==> l in InitialLanguages
    ensures forall l :: l in r ==> r[l] == InitialTable(l)
  {
    map l | l in InitialLanguages :: InitialTable(l)
  }

  /** A reminder's body is its `message` metadata, in every language. */
  lemma ReminderShowsMessage(language: string, message: string, random: real)
    requires 0.0 <= random < 1.0 && message != ""
    ensures LocalizedContent(InitialTemplates(), "reminder", language, Some(map["message" := MString(message)]), random).body
            == message
  {
    var vars := map["message" := MString(message)];
    var ts := InitialReminder(language);
    assert !IsCadenceMessage("reminder", Some(vars));
    MessageInterpolated(message);
  }

  /** Every language, through its own table or the English one, has the reminder template
      `{{message}}`. */
  lemma InitialReminder(language: string) returns (ts: map<string, Content>)
    ensures TemplatesFor(InitialTemplates(), language) == Some(ts)
    ensures "reminder" in ts && ts["reminder"].body == Placeholder("message")
  {
    ts := TemplatesFor(InitialTemplates(), language).value;
  }

  lemma MessageInterpolated(message: string)
    requires message != ""
    ensures Interpolate(Placeholder("message"), map["message" := MString(message)]) == message
  {
    WholePlaceholder("message", map["message" := MString(message)]);
  }

  /** `{ ...existing, ...added }`: the added templates win. */
  function MergeTemplates(existing: map<string, Content>, added: map<string, Content>): (r: map<string, Content>)
    ensures forall k :: k in r <==> k in existing || k in added
    ensures forall k :: k in added ==> r[k] == added[k]
    ensures forall k :: k in existing && k !in added ==> r[k] == existing[k]
  {
    existing + added
  }

  /** The templates of `language` after `addTemplates(language, added)`. */
  function AfterAdd(templates: map<string, map<string, Content>>, language: string, added: map<string, Content>)
    : map<string, map<string, Content>>
  {
    templates[language := MergeTemplates(if language in templates then templates[language] else map[], added)]
  }

  /** After `addTemplates`, a non-Cadence notification of an added type in that language is
      rendered from the added template. */
  lemma AddedTemplateUsed(templates: map<string, map<string, Content>>, language: string, added: map<string, Content>,
                          kind: string, metadata: Option<map<string, MetaValue>>, random: real)
    requires 0.0 <= random < 1.0
    requires kind in added && !IsCadenceMessage(kind, metadata)
    ensures LocalizedContent(AfterAdd(templates, language, added), kind, language, metadata, random)
            == InterpolateTemplate(added[kind], metadata.GetOr(map[]))
  {
    OwnTableOnly(AfterAdd(templates, language, added), kind, language, metadata, random);
  }

  /** The fields of a notification the locale layer reads or rewrites; the rest of the
      notification record is not part of this model. */
  datatype NotificationMessage = NotificationMessage(
    id: string, title: string, body: string, kind: string, metadata: Option<map<string, MetaValue>>)

  class LocaleNotificationProvider {
    /** `templates`, a Map from language to that language's templates ... */
    var templates: map<string, map<string, Content>>
    /** ... and the Map's keys in insertion order. */
    var languages: seq<string>

    ghost predicate Valid()
      reads this
    {
      Distinct(languages) && forall l :: l in templates <==> l in languages
    }

    /** The constructor and `initializeTemplates`. */
    constructor()
      ensures Valid()
      ensures templates == InitialTemplates() && languages == InitialLanguages
    {
      templates := InitialTemplates();
      languages := InitialLanguages;
    }

    /** `addTemplates`: merges the added templates over the language's existing ones; a new
        language is appended to the key order. */
    method AddTemplates(language: string, added: map<string, Content>)
      requires Valid()
      modifies this
      ensures Valid()
      ensures templates == AfterAdd(old(templates), language, added)
      ensures languages == if language in old(templates) then old(languages) else old(languages) + [language]
    {
      if language !in templates {
        languages := languages + [language];
      }
      templates := AfterAdd(templates, language, added);
    }

    /** `getSupportedLanguages`: the languages with templates, in insertion order, each once. */
    method SupportedLanguages() returns (r: seq<string>)
      requires Valid()
      ensures Distinct(r) && forall l :: l in r <==> l in templates
    {
      r := languages;
    }

    /** `localizeNotification`: only the title and the body change. */
    method LocalizeNotification(n: NotificationMessage, i18nLanguage: Option<string>, random: real)
      returns (r: NotificationMessage)
      requires 0.0 <= random < 1.0
      ensures var c := LocalizedContent(templates, n.kind, CurrentLanguage(i18nLanguage), n.metadata, random);
              r.title == c.title && r.body == c.body
      ensures r.id == n.id && r.kind == n.kind && r.metadata == n.metadata
    {
      var c := LocalizedContent(templates, n.kind, CurrentLanguage(i18nLanguage), n.metadata, random);
      r := n.(title := c.title, body := c.body);
    }
  }
}
