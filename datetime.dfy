/** The user date-format helpers: reading a format string such as "DD/MM/YYYY" into the order of
    its components, their padding and the separator; formatting a date with it; and the checks
    of `createSafeDate`.

    A date is given by its local calendar fields (`getDate()`, `getMonth() + 1`,
    `getFullYear()`); the time zone arithmetic behind them is not part of this model. */
module DateTime {
  import opened Common
  import opened JsText

  datatype Component = Day | Month | Year

  /** The form whose presence includes a component. */
  function LongForm(c: Component): string {
    match c
    case Day => "DD"
    case Month => "MM"
    case Year => "YYYY"
  }

  /** The shorter form searched for beside it. */
  function ShortForm(c: Component): string {
    match c
    case Day => "D"
    case Month => "M"
    case Year => "YY"
  }

  /** Where the component starts: the first occurrence of its short form. */
  function StartOf(format: string, c: Component): int {
    IndexOf(format, ShortForm(c))
  }

  // ---------------------------------------------------------------------------------------------
  // parseDateFormat

  /** An entry of `positions`: a component and its index, `None` standing for `Infinity`. */
  datatype Slot = Slot(kind: Component, index: Option<nat>)

  /** `Math.min(format.indexOf(long), format.indexOf(short))`, `Infinity` when negative. */
  function SlotOf(format: string, c: Component): Slot {
    var l, s := IndexOf(format, LongForm(c)), IndexOf(format, ShortForm(c));
    var i := if l < s then l else s;
    Slot(c, if i >= 0 then Some(i) else None)
  }

  /** The comparator `a.index - b.index` says "not after": `Infinity - Infinity` is `NaN`,
      which the sort reads as equal. */
  predicate SlotLe(a: Slot, b: Slot) {
    b.index.None? || (a.index.Some? && a.index.value <= b.index.value)
  }

  /** `positions` after its sort. */
  function Slots(format: string): seq<Slot> {
    SortBy([SlotOf(format, Day), SlotOf(format, Month), SlotOf(format, Year)], SlotLe)
  }

  function Placed(): Slot -> bool {
    (x: Slot) => x.index.Some?
  }

  function KindsOf(slots: seq<Slot>): (r: seq<Component>)
    ensures |r| == |slots| && forall i :: 0 <= i < |slots| ==> r[i] == slots[i].kind
  {
    seq(|slots|, i requires 0 <= i < |slots| => slots[i].kind)
  }

  /** The components of the slots that have an index, in order. */
  function Present(slots: seq<Slot>): seq<Component> {
    KindsOf(Filter(slots, Placed()))
  }

  /** What `parseDateFormat` returns. The separator is always a single character. */
  datatype DateFormat = DateFormat(order: seq<Component>, dayPadding: bool, monthPadding: bool, separator: char)

  /** A character of the class `[DMYdmy]`. */
  predicate IsFormatLetter(c: char) {
    c == 'D' || c == 'M' || c == 'Y' || c == 'd' || c == 'm' || c == 'y'
  }

  /** `(dateFormat.match(/[^DMYdmy]/g) || [])[0] || "/"`. */
  function FirstSeparator(dateFormat: string): char {
    if dateFormat == [] then '/'
    else if !IsFormatLetter(dateFormat[0]) then dateFormat[0]
    else FirstSeparator(dateFormat[1..])
  }

  /** The result of `parseDateFormat`, computed as the source does: on the upper-cased format,
      except for the separator, which is read from the format as given. */
  function DateFormatOf(dateFormat: string): DateFormat {
    var format := ToUpper(dateFormat);
    DateFormat(Present(Slots(format)), Contains(format, "DD"), Contains(format, "MM"), FirstSeparator(dateFormat))
  }

  /** `parseDateFormat`: the sorted positions are walked and each one with a finite index is
      pushed onto `order`. */
  method ParseDateFormat(dateFormat: string) returns (f: DateFormat)
    ensures f == DateFormatOf(dateFormat)
    ensures ListsPresent(ToUpper(dateFormat), f.order)
    ensures StartsIncrease(ToUpper(dateFormat), f.order)
    ensures f.dayPadding <==> Contains(ToUpper(dateFormat), "DD")
    ensures f.monthPadding <==> Contains(ToUpper(dateFormat), "MM")
  {
    var format := ToUpper(dateFormat);
    var positions := Slots(format);
    var order: seq<Component> := [];
    var i := 0;
    while i < |positions|
      invariant 0 <= i <= |positions|
      invariant order == Present(positions[..i])
    {
      var pos := positions[i];
      PresentPrefix(positions, i);
      if pos.index.Some? {
        order := order + [pos.kind];
      }
      i := i + 1;
    }
    PresentWhole(positions);
    f := DateFormat(order, Contains(format, "DD"), Contains(format, "MM"), FirstSeparator(dateFormat));
    OrderFacts(format);
  }

  /** One more slot adds its component to the order exactly when it has an index. */
  lemma PresentPrefix(slots: seq<Slot>, i: nat)
    requires i < |slots|
    ensures Present(slots[..i + 1]) == Present(slots[..i]) + (if slots[i].index.Some? then [slots[i].kind] else [])
  {
    assert slots[..i + 1] == slots[..i] + [slots[i]];
    PresentAppend(slots[..i], slots[i]);
  }

  lemma PresentWhole(slots: seq<Slot>)
    ensures Present(slots[..|slots|]) == Present(slots)
  {
    assert slots[..|slots|] == slots;
  }

  lemma PresentAppend(slots: seq<Slot>, pos: Slot)
    ensures Present(slots + [pos]) == Present(slots) + (if pos.index.Some? then [pos.kind] else [])
  {
    FilterAppend(slots, [pos], Placed());
    var f, g := Filter(slots, Placed()), Filter([pos], Placed());
    assert g == if pos.index.Some? then [pos] else [];
    assert KindsOf(f + g) == KindsOf(f) + KindsOf(g);
  }

  /** A component has an index exactly when its long form occurs, and the index is then where
      its short form first occurs. */
  lemma SlotIndex(format: string, c: Component)
    ensures SlotOf(format, c).index.Some? <==> Contains(format, LongForm(c))
    ensures SlotOf(format, c).index.Some? ==> SlotOf(format, c).index.value == StartOf(format, c)
  {
    var long, short := LongForm(c), ShortForm(c);
    var l, s := IndexOf(format, long), IndexOf(format, short);
    IndexOfFirst(format, long);
    IndexOfFirst(format, short);
    if l >= 0 {
      assert format[l..l + |short|] == format[l..l + |long|][..|short|];
      assert OccursAt(format, short, l);
      ContainsSlice(format, short, l);
    }
  }

  /** The letters that start the short forms differ, so distinct components start at distinct
      places. */
  lemma StartsDiffer(format: string, c: Component, d: Component)
    requires c != d && StartOf(format, c) >= 0 && StartOf(format, d) >= 0
    ensures StartOf(format, c) != StartOf(format, d)
  {
    var i, j := StartOf(format, c), StartOf(format, d);
    assert format[i] == format[i..i + |ShortForm(c)|][0] == ShortForm(c)[0];
    assert format[j] == format[j..j + |ShortForm(d)|][0] == ShortForm(d)[0];
  }

  /** The slot of a component among the three unsorted ones. */
  function Pick(a: Slot, b: Slot, c: Slot, k: Component): Slot {
    match k
    case Day => a
    case Month => b
    case Year => c
  }

  lemma SortedSlots(a: Slot, b: Slot, c: Slot)
    requires a.kind == Day && b.kind == Month && c.kind == Year
    ensures var r := SortBy([a, b, c], SlotLe);
            && SortedBy(r, SlotLe) && Distinct(r)
            && (forall x :: x in r <==> x == a || x == b || x == c)
  {
    var three := [a, b, c];
    SlotLeOrders();
    ThreeDistinct(a, b, c);
    SortByDistinct(three, SlotLe);
    ThreeMembers(SortBy(three, SlotLe), a, b, c);
  }

  lemma ThreeDistinct(a: Slot, b: Slot, c: Slot)
    requires a.kind == Day && b.kind == Month && c.kind == Year
    ensures Distinct([a, b, c])
  {
  }

  lemma ThreeMembers(r: seq<Slot>, a: Slot, b: Slot, c: Slot)
    requires forall x :: x in r <==> x in [a, b, c]
    ensures forall x :: x in r <==> x == a || x == b || x == c
  {
  }

  /** The comparator orders slots totally and transitively. */
  lemma SlotLeOrders()
    ensures Total(SlotLe) && Transitive(SlotLe)
  {
  }

  /** Sorting three slots with distinct indices and keeping those with an index lists exactly
      their components, by increasing index. */
  lemma PresentFacts(a: Slot, b: Slot, c: Slot)
    requires a.kind == Day && b.kind == Month && c.kind == Year
    requires a.index.Some? && b.index.Some? ==> a.index != b.index
    requires a.index.Some? && c.index.Some? ==> a.index != c.index
    requires b.index.Some? && c.index.Some? ==> b.index != c.index
    ensures forall k :: k in Present(SortBy([a, b, c], SlotLe)) <==> Pick(a, b, c, k).index.Some?
    ensures Increasing(Present(SortBy([a, b, c], SlotLe)), a, b, c)
  {
    SortedSlots(a, b, c);
    PresentOfSorted(SortBy([a, b, c], SlotLe), a, b, c);
  }

  lemma PresentOfSorted(slots: seq<Slot>, a: Slot, b: Slot, c: Slot)
    requires a.kind == Day && b.kind == Month && c.kind == Year
    requires a.index.Some? && b.index.Some? ==> a.index != b.index
    requires a.index.Some? && c.index.Some? ==> a.index != c.index
    requires b.index.Some? && c.index.Some? ==> b.index != c.index
    requires SortedBy(slots, SlotLe) && Distinct(slots)
    requires forall x :: x in slots <==> x == a || x == b || x == c
    ensures forall k :: k in Present(slots) <==> Pick(a, b, c, k).index.Some?
    ensures Increasing(Present(slots), a, b, c)
  {
    PresentMembers(slots, a, b, c);
    PresentOrdered(slots, a, b, c);
  }

  lemma PresentMembers(slots: seq<Slot>, a: Slot, b: Slot, c: Slot)
    requires a.kind == Day && b.kind == Month && c.kind == Year
    requires forall x :: x in slots <==> x == a || x == b || x == c
    ensures forall k :: k in Present(slots) <==> Pick(a, b, c, k).index.Some?
  {
    var f := Filter(slots, Placed());
    var order := Present(slots);
    forall k | k in order ensures Pick(a, b, c, k).index.Some? {
      var i :| 0 <= i < |order| && order[i] == k;
      FilterMember(slots, Placed(), f[i]);
    }
    forall k | Pick(a, b, c, k).index.Some? ensures k in order {
      FilterMember(slots, Placed(), Pick(a, b, c, k));
      var i :| 0 <= i < |f| && f[i] == Pick(a, b, c, k);
      assert order[i] == k;
    }
  }

  /** Each component of `order` has an index in the given slots, and the indices increase. */
  predicate Increasing(order: seq<Component>, a: Slot, b: Slot, c: Slot) {
    forall i, j :: 0 <= i < j < |order| ==> Before(a, b, c, order[i], order[j])
  }

  /** Both components have an index among the slots, the first one's smaller. */
  predicate Before(a: Slot, b: Slot, c: Slot, x: Component, y: Component) {
    Pick(a, b, c, x).index.Some? && Pick(a, b, c, y).index.Some?
    && Pick(a, b, c, x).index.value < Pick(a, b, c, y).index.value
  }

  lemma PresentOrdered(slots: seq<Slot>, a: Slot, b: Slot, c: Slot)
    requires a.kind == Day && b.kind == Month && c.kind == Year
    requires a.index.Some? && b.index.Some? ==> a.index != b.index
    requires a.index.Some? && c.index.Some? ==> a.index != c.index
    requires b.index.Some? && c.index.Some? ==> b.index != c.index
    requires SortedBy(slots, SlotLe) && Distinct(slots)
    requires forall x :: x in slots <==> x == a || x == b || x == c
    ensures Increasing(Present(slots), a, b, c)
  {
    var f := Filter(slots, Placed());
    var order := Present(slots);
    FilterSorted(slots, Placed(), SlotLe);
    FilterDistinct(slots, Placed());
    FilterSatisfies(slots, Placed());
    forall x | x in f ensures x == a || x == b || x == c {
      FilterMember(slots, Placed(), x);
    }
    KindsIncreasing(f, order, a, b, c);
  }

  /** The kinds of sorted, distinct, placed slots drawn from three are increasing. */
  lemma KindsIncreasing(f: seq<Slot>, order: seq<Component>, a: Slot, b: Slot, c: Slot)
    requires a.kind == Day && b.kind == Month && c.kind == Year
    requires a.index.Some? && b.index.Some? ==> a.index != b.index
    requires a.index.Some? && c.index.Some? ==> a.index != c.index
    requires b.index.Some? && c.index.Some? ==> b.index != c.index
    requires SortedBy(f, SlotLe) && Distinct(f)
    requires forall x :: x in f ==> x.index.Some? && (x == a || x == b || x == c)
    requires order == KindsOf(f)
    ensures Increasing(order, a, b, c)
  {
    forall i, j | 0 <= i < j < |order| ensures Before(a, b, c, order[i], order[j]) {
      KindsPair(f, order, a, b, c, i, j);
    }
  }

  lemma KindsPair(f: seq<Slot>, order: seq<Component>, a: Slot, b: Slot, c: Slot, i: nat, j: nat)
    requires a.kind == Day && b.kind == Month && c.kind == Year
    requires a.index.Some? && b.index.Some? ==> a.index != b.index
    requires a.index.Some? && c.index.Some? ==> a.index != c.index
    requires b.index.Some? && c.index.Some? ==> b.index != c.index
    requires SortedBy(f, SlotLe) && Distinct(f)
    requires forall x :: x in f ==> x.index.Some? && (x == a || x == b || x == c)
    requires order == KindsOf(f)
    requires i < j < |order|
    ensures Before(a, b, c, order[i], order[j])
  {
    assert f[i] in f && f[j] in f;
    PlacedPair(f[i], f[j], a, b, c);
  }

  /** Two distinct placed slots in sorted order have increasing indices. */
  lemma PlacedPair(x: Slot, y: Slot, a: Slot, b: Slot, c: Slot)
    requires a.kind == Day && b.kind == Month && c.kind == Year
    requires a.index.Some? && b.index.Some? ==> a.index != b.index
    requires a.index.Some? && c.index.Some? ==> a.index != c.index
    requires b.index.Some? && c.index.Some? ==> b.index != c.index
    requires x == a || x == b || x == c
    requires y == a || y == b || y == c
    requires x != y && SlotLe(x, y) && x.index.Some? && y.index.Some?
    ensures Pick(a, b, c, x.kind) == x && Pick(a, b, c, y.kind) == y
    ensures x.index.value < y.index.value
  {
  }

  /** `order` holds exactly the components whose long form occurs in `format`. */
  predicate ListsPresent(format: string, order: seq<Component>) {
    forall c :: c in order <==> Contains(format, LongForm(c))
  }

  /** The components of `order` start in `format`, at increasing places. */
  predicate StartsIncrease(format: string, order: seq<Component>) {
    forall i, j :: 0 <= i < j < |order| ==> 0 <= StartOf(format, order[i]) < StartOf(format, order[j])
  }

  /** The order holds exactly the components whose long form occurs, by increasing start. */
  lemma OrderFacts(format: string)
    ensures ListsPresent(format, Present(Slots(format)))
    ensures StartsIncrease(format, Present(Slots(format)))
  {
    var a, b, c := SlotOf(format, Day), SlotOf(format, Month), SlotOf(format, Year);
    SlotIndex(format, Day);
    SlotIndex(format, Month);
    SlotIndex(format, Year);
    if a.index.Some? && b.index.Some? { StartsDiffer(format, Day, Month); }
    if a.index.Some? && c.index.Some? { StartsDiffer(format, Day, Year); }
    if b.index.Some? && c.index.Some? { StartsDiffer(format, Month, Year); }
    SortedSlots(a, b, c);
    var slots := Slots(format);
    PresentOfSorted(slots, a, b, c);
    forall k
      ensures Pick(a, b, c, k).index.Some? <==> Contains(format, LongForm(k))
      ensures Pick(a, b, c, k).index.Some? ==> Pick(a, b, c, k).index.value == StartOf(format, k)
    {
      PickSlot(format, a, b, c, k);
    }
    PickedOrder(format, Present(slots), a, b, c);
  }

  /** Facts stated through the picked slots, restated through the format. */
  lemma PickedOrder(format: string, order: seq<Component>, a: Slot, b: Slot, c: Slot)
    requires forall k :: Pick(a, b, c, k).index.Some? <==> Contains(format, LongForm(k))
    requires forall k :: Pick(a, b, c, k).index.Some? ==> Pick(a, b, c, k).index.value == StartOf(format, k)
    requires forall k :: k in order <==> Pick(a, b, c, k).index.Some?
    requires Increasing(order, a, b, c)
    ensures ListsPresent(format, order)
    ensures StartsIncrease(format, order)
  {
  }

  /** The slot picked for a component is that component's slot in the format. */
  lemma PickSlot(format: string, a: Slot, b: Slot, c: Slot, k: Component)
    requires a == SlotOf(format, Day) && b == SlotOf(format, Month) && c == SlotOf(format, Year)
    ensures Pick(a, b, c, k).index.Some? <==> Contains(format, LongForm(k))
    ensures Pick(a, b, c, k).index.Some? ==> Pick(a, b, c, k).index.value == StartOf(format, k)
  {
    SlotIndex(format, k);
    match k
    case Day =>
    case Month =>
    case Year =>
  }

  /** The separator is the first character outside `DMYdmy` (at the returned position), or "/"
      when there is none (the position is then -1). */
  lemma {:induction false} SeparatorPosition(dateFormat: string) returns (i: int)
    ensures -1 <= i
    ensures i == -1 ==> FirstSeparator(dateFormat) == '/' && forall k :: 0 <= k < |dateFormat| ==> IsFormatLetter(dateFormat[k])
    ensures i >= 0 ==> i < |dateFormat| && dateFormat[i] == FirstSeparator(dateFormat) && !IsFormatLetter(dateFormat[i])
                       && forall k :: 0 <= k < i ==> IsFormatLetter(dateFormat[k])
  {
    if dateFormat == [] {
      i := -1;
    } else if !IsFormatLetter(dateFormat[0]) {
      i := 0;
    } else {
      var t := dateFormat[1..];
      var j := SeparatorPosition(t);
      i := if j < 0 then -1 else j + 1;
      forall k | 0 < k < |dateFormat| && (j < 0 || k < i) ensures IsFormatLetter(dateFormat[k]) {
        assert dateFormat[k] == t[k - 1];
      }
    }
  }

  /** `ToUpperChar` after `ToLowerChar` is `ToUpperChar`. */
  lemma UpperOfLower(s: string)
    ensures ToUpper(ToLower(s)) == ToUpper(s)
  {
    var l := ToLower(s);
    forall k | 0 <= k < |s| ensures ToUpper(l)[k] == ToUpper(s)[k] {
      assert ToUpperChar(ToLowerChar(s[k])) == ToUpperChar(s[k]);
    }
  }

  /** Detection ignores case: a format and its lower-case form give the same order and
      padding. */
  lemma CaseInsensitive(dateFormat: string)
    ensures DateFormatOf(ToLower(dateFormat)).order == DateFormatOf(dateFormat).order
    ensures DateFormatOf(ToLower(dateFormat)).dayPadding == DateFormatOf(dateFormat).dayPadding
    ensures DateFormatOf(ToLower(dateFormat)).monthPadding == DateFormatOf(dateFormat).monthPadding
  {
    UpperOfLower(dateFormat);
  }

  // ---------------------------------------------------------------------------------------------
  // formatDateWithCustomFormat

  /** The text of one component: `toString()`, padded to two digits with "0" when asked. */
  function ComponentText(f: DateFormat, c: Component, day: nat, month: nat, year: int): string {
    match c
    case Day => if f.dayPadding then Pad2(day) else NatToString(day)
    case Month => if f.monthPadding then Pad2(month) else NatToString(month)
    case Year => IntToString(year)
  }

  function ComponentTexts(f: DateFormat, day: nat, month: nat, year: int): (r: seq<string>)
    ensures |r| == |f.order|
    ensures forall i :: 0 <= i < |r| ==> r[i] == ComponentText(f, f.order[i], day, month, year)
  {
    seq(|f.order|, i requires 0 <= i < |f.order| => ComponentText(f, f.order[i], day, month, year))
  }

  /** `formatDateWithCustomFormat`, with `month` already one-based. */
  function FormatDateWithCustomFormat(day: nat, month: nat, year: int, dateFormat: string): string {
    var f := DateFormatOf(dateFormat);
    Join(ComponentTexts(f, day, month, year), f.separator)
  }

  /** A component's text is made of digits, with a leading minus for a negative year. */
  lemma ComponentTextChars(f: DateFormat, c: Component, day: nat, month: nat, year: int, x: char)
    requires x in ComponentText(f, c, day, month, year)
    ensures IsDigit(x) || x == '-'
  {
    var t := ComponentText(f, c, day, month, year);
    var k :| 0 <= k < |t| && t[k] == x;
    if c == Year && year < 0 {
      assert t == "-" + NatToString(-year);
      if k > 0 { assert t[k] == NatToString(-year)[k - 1]; }
    }
  }

  /** Splitting a formatted date at its separator gives back the component texts in the
      format's order, when the separator is neither a digit nor a minus sign. */
  lemma FormattedParts(day: nat, month: nat, year: int, dateFormat: string)
    requires DateFormatOf(dateFormat).order != []
    requires !IsDigit(DateFormatOf(dateFormat).separator) && DateFormatOf(dateFormat).separator != '-'
    ensures Split(FormatDateWithCustomFormat(day, month, year, dateFormat), DateFormatOf(dateFormat).separator)
            == ComponentTexts(DateFormatOf(dateFormat), day, month, year)
  {
    var f := DateFormatOf(dateFormat);
    var texts := ComponentTexts(f, day, month, year);
    forall k | 0 <= k < |texts| ensures f.separator !in texts[k] {
      if f.separator in texts[k] {
        ComponentTextChars(f, f.order[k], day, month, year, f.separator);
      }
    }
    SplitJoin(texts, f.separator);
  }

  /** "DD/MM/YYYY" gives the padded day, the padded month and the year, joined by "/". */
  lemma DayMonthYear(day: nat, month: nat, year: int, s: string)
    requires s == "DD/MM/YYYY"
    ensures FormatDateWithCustomFormat(day, month, year, s) == Pad2(day) + "/" + Pad2(month) + "/" + IntToString(year)
  {
    assert DayMonthYearText(s);
    DayMonthYearJoined(day, month, year, s);
  }

  lemma DayMonthYearJoined(day: nat, month: nat, year: int, s: string)
    requires DayMonthYearText(s)
    ensures FormatDateWithCustomFormat(day, month, year, s) == Pad2(day) + "/" + Pad2(month) + "/" + IntToString(year)
  {
    var f := DayMonthYearParts(s);
    PaddedTexts(f, day, month, year);
    JoinThree(Pad2(day), Pad2(month), IntToString(year), '/');
  }

  lemma PaddedTexts(f: DateFormat, day: nat, month: nat, year: int)
    requires f.order == [Day, Month, Year] && f.dayPadding && f.monthPadding
    ensures ComponentTexts(f, day, month, year) == [Pad2(day), Pad2(month), IntToString(year)]
  {
  }

  lemma JoinThree(a: string, b: string, c: string, sep: char)
    ensures Join([a, b, c], sep) == a + [sep] + b + [sep] + c
  {
    assert [a, b, c][1..] == [b, c];
    assert [b, c][1..] == [c];
    assert Join([c], sep) == c;
    assert Join([b, c], sep) == b + [sep] + c;
  }

  /** The characters of "DD/MM/YYYY", one by one. */
  predicate DayMonthYearText(s: string) {
    |s| == 10 && s[0] == 'D' && s[1] == 'D' && s[2] == '/' && s[3] == 'M' && s[4] == 'M'
    && s[5] == '/' && s[6] == 'Y' && s[7] == 'Y' && s[8] == 'Y' && s[9] == 'Y'
  }

  /** "DD/MM/YYYY" reads as day, month, year, both padded, separated by "/". */
  lemma DayMonthYearParts(s: string) returns (f: DateFormat)
    requires DayMonthYearText(s)
    ensures f == DateFormatOf(s)
    ensures f == DateFormat([Day, Month, Year], true, true, '/')
  {
    UpperUnchanged(s);
    DayMonthYearForms(s);
    DayMonthYearOrder(s);
    DayMonthYearSeparator(s);
    f := DateFormatOf(s);
  }

  lemma UpperUnchanged(s: string)
    requires DayMonthYearText(s)
    ensures ToUpper(s) == s
  {
    forall k | 0 <= k < |s| ensures ToUpper(s)[k] == s[k] {
      assert s[k] == 'D' || s[k] == '/' || s[k] == 'M' || s[k] == 'Y';
    }
  }

  lemma DayMonthYearOrder(s: string)
    requires DayMonthYearText(s)
    ensures Present(Slots(s)) == [Day, Month, Year]
  {
    OrderFacts(s);
    DayMonthYearForms(s);
    StartsAt(s);
    OrderFromStarts(s, Present(Slots(s)));
  }

  lemma OrderFromStarts(s: string, order: seq<Component>)
    requires StartOf(s, Day) == 0 && StartOf(s, Month) == 3 && StartOf(s, Year) == 6
    requires ListsPresent(s, order) && Contains(s, "DD") && Contains(s, "MM") && Contains(s, "YYYY")
    requires StartsIncrease(s, order)
    ensures order == [Day, Month, Year]
  {
    assert LongForm(Day) == "DD" && LongForm(Month) == "MM" && LongForm(Year) == "YYYY";
    assert Day in order && Month in order && Year in order;
    var start := (k: Component) => StartOf(s, k);
    forall i, j | 0 <= i < j < |order| ensures start(order[i]) < start(order[j]) {
    }
    OrderOfThree(order, start);
  }

  lemma DayMonthYearSeparator(s: string)
    requires DayMonthYearText(s)
    ensures FirstSeparator(s) == '/'
  {
    assert FirstSeparator(s[2..]) == '/';
    assert s[1..][1..] == s[2..];
  }

  /** The three long forms occur in "DD/MM/YYYY". */
  lemma DayMonthYearForms(s: string)
    requires DayMonthYearText(s)
    ensures Contains(s, "DD") && Contains(s, "MM") && Contains(s, "YYYY")
  {
    assert s[0..2] == "DD";
    ContainsSlice(s, "DD", 0);
    assert s[3..5] == "MM";
    ContainsSlice(s, "MM", 3);
    assert s[6..10] == "YYYY";
    ContainsSlice(s, "YYYY", 6);
  }

  /** Where each component of "DD/MM/YYYY" starts. */
  lemma StartsAt(s: string)
    requires DayMonthYearText(s)
    ensures StartOf(s, Day) == 0 && StartOf(s, Month) == 3 && StartOf(s, Year) == 6
  {
    assert s[0..1] == "D" && s[3..4] == "M" && s[6..8] == "YY";
    IndexOfAt(s, "D", 0);
    forall m | 0 <= m < 3 ensures !OccursAt(s, "M", m) {
      assert s[m..m + 1][0] == s[m];
    }
    IndexOfAt(s, "M", 3);
    forall m | 0 <= m < 6 ensures !OccursAt(s, "YY", m) {
      assert s[m..m + 2][0] == s[m];
    }
    IndexOfAt(s, "YY", 6);
  }

  /** An order holding all three components, by increasing start 0, 3, 6, is day, month, year. */
  lemma OrderOfThree(order: seq<Component>, start: Component -> int)
    requires start(Day) == 0 && start(Month) == 3 && start(Year) == 6
    requires Day in order && Month in order && Year in order
    requires forall i, j :: 0 <= i < j < |order| ==> start(order[i]) < start(order[j])
    ensures order == [Day, Month, Year]
  {
    var d :| 0 <= d < |order| && order[d] == Day;
    var m :| 0 <= m < |order| && order[m] == Month;
    var y :| 0 <= y < |order| && order[y] == Year;
    assert d < m < y;
    var last := order[|order| - 1];
    StartsAtLeast(order, start, |order| - 1);
    assert last == Day || last == Month || last == Year;
    assert |order| == 3;
    assert d == 0 && m == 1 && y == 2;
    assert order == [order[0], order[1], order[2]];
  }

  /** Starts drawn from 0, 3 and 6 that strictly increase put the k-th component at 3k or later. */
  lemma {:induction false} StartsAtLeast(order: seq<Component>, start: Component -> int, k: nat)
    requires start(Day) == 0 && start(Month) == 3 && start(Year) == 6
    requires forall i, j :: 0 <= i < j < |order| ==> start(order[i]) < start(order[j])
    requires k < |order|
    ensures start(order[k]) >= 3 * k
  {
    assert order[k] == Day || order[k] == Month || order[k] == Year;
    if k > 0 {
      StartsAtLeast(order, start, k - 1);
      assert start(order[k - 1]) < start(order[k]);
    }
  }

  // ---------------------------------------------------------------------------------------------
  // createSafeDate

  /** The argument of `createSafeDate`: a `Date` (its time value, `None` for an invalid date), a
      string, a number of milliseconds, or a value of some other type. */
  datatype DateInput = DateValue(time: Option<int>) | Text(s: string) | Millis(ms: int) | OtherType(typeName: string)

  datatype SafeDateError = InvalidType(typeName: string) | InvalidValue | YearOutOfBounds(year: int)

  /** The largest time value a `Date` holds: 100 000 000 days either side of the epoch. */
  const MaxTime := 8_640_000_000_000_000

  /** The time value of `new Date(input)`; `parse` stands for the engine's date parser and
      `None` for `NaN`. */
  function TimeOf(input: DateInput, parse: string -> Option<int>): Option<int>
    requires !input.OtherType?
  {
    match input
    case DateValue(t) => t
    case Text(s) => parse(s)
    case Millis(ms) => if -MaxTime <= ms <= MaxTime then Some(ms) else None
  }

  /** `createSafeDate`: `yearOf` gives the local calendar year of a time value. */
  function CreateSafeDate(input: DateInput, parse: string -> Option<int>, yearOf: int -> int): (r: Result<int, SafeDateError>)
    ensures r.Err? && r.error.InvalidType? <==> input.OtherType?
    ensures r.Err? && r.error.InvalidValue? <==> !input.OtherType? && TimeOf(input, parse).None?
    ensures r.Ok? ==> !input.OtherType? && TimeOf(input, parse) == Some(r.value)
                      && 1900 <= yearOf(r.value) <= 2100
  {
    if input.OtherType? then Err(InvalidType(input.typeName))
    else
      match TimeOf(input, parse)
      case None => Err(InvalidValue)
      case Some(t) =>
        var year := yearOf(t);
        if year < 1900 || year > 2100 then Err(YearOutOfBounds(year)) else Ok(t)
  }

  /** The date handed back is accepted again, unchanged. */
  lemma SafeDateIdempotent(input: DateInput, parse: string -> Option<int>, yearOf: int -> int)
    requires CreateSafeDate(input, parse, yearOf).Ok?
    ensures var t := CreateSafeDate(input, parse, yearOf).value;
            CreateSafeDate(DateValue(Some(t)), parse, yearOf) == Ok(t)
  {
  }

  /** The year reported in the error is the one out of bounds. */
  lemma SafeDateYearError(input: DateInput, parse: string -> Option<int>, yearOf: int -> int)
    requires CreateSafeDate(input, parse, yearOf).Err? && CreateSafeDate(input, parse, yearOf).error.YearOutOfBounds?
    ensures var y := CreateSafeDate(input, parse, yearOf).error.year;
            (y < 1900 || y > 2100) && TimeOf(input, parse).Some? && yearOf(TimeOf(input, parse).value) == y
  {
  }
}
