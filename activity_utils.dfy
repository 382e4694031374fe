/** The activity list helpers: filtering by status, the weight-then-name order, grouping by
    category, lookup by id, the form validation and the text colour for a background colour. */
module ActivityUtils {
  import opened Common
  import opened Models
  import opened JsText

  // ---------------------------------------------------------------------------------------------
  // Filtering by status

  function HasStatus(st: ActivityStatus): Activity -> bool {
    (a: Activity) => a.status == Some(st)
  }

  /** `filterActivitiesByStatus`: the activities whose status is `st`, in input order. */
  function FilterByStatus(activities: seq<Activity>, st: ActivityStatus): (r: seq<Activity>)
    ensures forall i :: 0 <= i < |r| ==> r[i].status == Some(st)
  {
    FilterSatisfies(activities, HasStatus(st));
    Filter(activities, HasStatus(st))
  }

  /** An activity is kept exactly when it is in the list and has the status. */
  lemma FilterByStatusMember(activities: seq<Activity>, st: ActivityStatus, a: Activity)
    ensures a in FilterByStatus(activities, st) <==> a in activities && a.status == Some(st)
  {
    FilterMember(activities, HasStatus(st), a);
  }

  /** Filtering distributes over concatenation, so the input order is kept. */
  lemma FilterByStatusAppend(xs: seq<Activity>, ys: seq<Activity>, st: ActivityStatus)
    ensures FilterByStatus(xs + ys, st) == FilterByStatus(xs, st) + FilterByStatus(ys, st)
  {
    FilterAppend(xs, ys, HasStatus(st));
  }

  function NoStatus(): Activity -> bool {
    (a: Activity) => a.status.None?
  }

  /** The three status filters together keep exactly the activities that have a status. */
  lemma {:induction false} StatusFiltersPartition(activities: seq<Activity>)
    ensures |FilterByStatus(activities, Enabled)| + |FilterByStatus(activities, Disabled)|
            + |FilterByStatus(activities, Deleted)|
            == |activities| - CountWhere(activities, NoStatus())
  {
    if activities != [] {
      var t := activities[1..];
      StatusFiltersPartition(t);
      var a := activities[0];
      assert activities == [a] + t;
      assert [a][1..] == [];
      assert |FilterByStatus([a], Enabled)| == if a.status == Some(Enabled) then 1 else 0;
      assert |FilterByStatus([a], Disabled)| == if a.status == Some(Disabled) then 1 else 0;
      assert |FilterByStatus([a], Deleted)| == if a.status == Some(Deleted) then 1 else 0;
      assert CountWhere(activities, NoStatus()) == (if a.status.None? then 1 else 0) + CountWhere(t, NoStatus());
      FilterByStatusAppend([activities[0]], t, Enabled);
      FilterByStatusAppend([activities[0]], t, Disabled);
      FilterByStatusAppend([activities[0]], t, Deleted);
      assert a.status.Some? ==> a.status.value.Enabled? || a.status.value.Disabled? || a.status.value.Deleted?;
    }
  }

  // ---------------------------------------------------------------------------------------------
  // Sorting by weight, then name

  /** `a.weight || 0`. */
  function WeightOrZero(a: Activity): real { a.weight.GetOr(0.0) }

  /** `a.name || ""`. */
  function NameOrEmpty(a: Activity): string { a.name.GetOr("") }

  /** `x.localeCompare(y)`, with the character order standing in for the locale's collation. */
  function LocaleCompare(x: string, y: string): (r: int)
    ensures r == 0 <==> x == y
    ensures r < 0 <==> x != y && StrLe(x, y)
  {
    if x == y then 0 else if StrLe(x, y) then -1 else 1
  }

  /** The comparator of `sortActivities` as written: weights that are not identical are
      subtracted (a missing weight counting as 0), identical weights fall back to the names. */
  function CompareAsWritten(a: Activity, b: Activity): (r: real)
    ensures a.weight != b.weight ==> r == WeightOrZero(b) - WeightOrZero(a)
  {
    if a.weight != b.weight then WeightOrZero(b) - WeightOrZero(a)
    else LocaleCompare(NameOrEmpty(a), NameOrEmpty(b)) as real
  }

  /** The comparator as written is not a consistent ordering: a missing weight and a weight of
      0 compare equal on weight alone, while two missing weights compare by name. */
  lemma ComparatorInconsistent()
    ensures var x := Activity(None, Some("b"), None, None, None, None, None, None);
            var y := Activity(None, Some("a"), None, None, None, None, None, Some(0.0));
            var z := Activity(None, Some("a"), None, None, None, None, None, None);
            && CompareAsWritten(x, y) == 0.0 && CompareAsWritten(y, z) == 0.0
            && CompareAsWritten(x, z) > 0.0
  {
    assert !StrLe("b", "a");
  }

  /** The intended order: heavier first, a missing weight counting as 0, then by name. */
  predicate ActivityLe(a: Activity, b: Activity) {
    WeightOrZero(a) > WeightOrZero(b)
    || (WeightOrZero(a) == WeightOrZero(b) && StrLe(NameOrEmpty(a), NameOrEmpty(b)))
  }

  /** The comparator with the weight test done on `weight || 0`. */
  function CompareCorrected(a: Activity, b: Activity): (r: real) {
    if WeightOrZero(a) != WeightOrZero(b) then WeightOrZero(b) - WeightOrZero(a)
    else LocaleCompare(NameOrEmpty(a), NameOrEmpty(b)) as real
  }

  /** The corrected comparator says "not after" exactly when the intended order holds, and it
      is antisymmetric. */
  lemma CompareCorrectedIsOrder(a: Activity, b: Activity)
    ensures CompareCorrected(a, b) <= 0.0 <==> ActivityLe(a, b)
    ensures CompareCorrected(a, b) == -CompareCorrected(b, a)
  {
    var x, y := NameOrEmpty(a), NameOrEmpty(b);
    StrLeTotal(x, y);
    if x != y && StrLe(x, y) && StrLe(y, x) {
      StrLeAntisymmetric(x, y);
    }
  }

  /** The two comparators differ only when one weight is missing and the other is 0. */
  lemma AsWrittenDiffersOnlyOnMissingVersusZero(a: Activity, b: Activity)
    requires CompareAsWritten(a, b) != CompareCorrected(a, b)
    ensures (a.weight == None && b.weight == Some(0.0)) || (a.weight == Some(0.0) && b.weight == None)
  {
  }

  lemma ActivityLeTotal(a: Activity, b: Activity)
    ensures ActivityLe(a, b) || ActivityLe(b, a)
  {
    StrLeTotal(NameOrEmpty(a), NameOrEmpty(b));
  }

  lemma ActivityLeTransitive(a: Activity, b: Activity, c: Activity)
    requires ActivityLe(a, b) && ActivityLe(b, c)
    ensures ActivityLe(a, c)
  {
    if WeightOrZero(a) == WeightOrZero(b) == WeightOrZero(c) {
      StrLeTransitive(NameOrEmpty(a), NameOrEmpty(b), NameOrEmpty(c));
    }
  }

  /** `sortActivities`: a sorted copy; the input is not changed. */
  function SortActivities(s: seq<Activity>): (r: seq<Activity>)
    ensures multiset(r) == multiset(s)
  {
    SortBy(s, ActivityLe)
  }

  /** The sorted copy is ordered by weight descending, a missing weight as 0, then by name, and
      holds the same activities as the input. */
  lemma SortActivitiesSorted(s: seq<Activity>)
    ensures SortedBy(SortActivities(s), ActivityLe)
    ensures multiset(SortActivities(s)) == multiset(s)
  {
    forall a, b ensures ActivityLe(a, b) || ActivityLe(b, a) {
      ActivityLeTotal(a, b);
    }
    forall a, b, c | ActivityLe(a, b) && ActivityLe(b, c) ensures ActivityLe(a, c) {
      ActivityLeTransitive(a, b, c);
    }
    SortBySorted(s, ActivityLe);
  }

  // ---------------------------------------------------------------------------------------------
  // Grouping by category

  /** `activity.activity_category_id || "uncategorized"`. */
  function CategoryKey(a: Activity): string {
    if Truthy(a.categoryId) then a.categoryId.value else "uncategorized"
  }

  function InGroup(k: string): Activity -> bool {
    (a: Activity) => CategoryKey(a) == k
  }

  function CategoryKeys(activities: seq<Activity>): set<string> {
    set a | a in activities :: CategoryKey(a)
  }

  /** The group of each key: the activities with that key, in input order. */
  function Groups(activities: seq<Activity>): map<string, seq<Activity>> {
    map k | k in CategoryKeys(activities) :: Filter(activities, InGroup(k))
  }

  /** `groupActivitiesByCategory`: the accumulator is filled one activity at a time. */
  method GroupActivitiesByCategory(activities: seq<Activity>) returns (groups: map<string, seq<Activity>>)
    ensures groups == Groups(activities)
  {
    groups := map[];
    var i := 0;
    while i < |activities|
      invariant 0 <= i <= |activities|
      invariant groups == Accumulated(activities[..i])
    {
      var a := activities[i];
      var k := CategoryKey(a);
      assert activities[..i + 1][..i] == activities[..i];
      ghost var before := groups;
      if k !in groups {
        groups := groups[k := []];
        UpdateTwice(before, k, [], [a]);
      }
      groups := groups[k := groups[k] + [a]];
      i := i + 1;
    }
    assert activities[..i] == activities;
    AccumulatedGroups(activities);
  }

  /** The accumulator after the given activities, built as the loop builds it. */
  function Accumulated(activities: seq<Activity>): map<string, seq<Activity>>
    decreases |activities|
  {
    if activities == [] then map[]
    else
      var before, a := Accumulated(activities[..|activities| - 1]), activities[|activities| - 1];
      var k := CategoryKey(a);
      before[k := (if k in before then before[k] else []) + [a]]
  }

  /** The accumulator holds exactly the groups. */
  lemma {:induction false} AccumulatedGroups(activities: seq<Activity>)
    ensures Accumulated(activities) == Groups(activities)
    decreases |activities|
  {
    if activities != [] {
      var n := |activities| - 1;
      AccumulatedGroups(activities[..n]);
      GroupsStep(activities, n);
      assert activities[..n + 1] == activities;
    }
  }

  /** The groups after one more activity: its own group, created empty when missing, gains it. */
  lemma GroupsStep(activities: seq<Activity>, i: nat)
    requires i < |activities|
    ensures var before, k := Groups(activities[..i]), CategoryKey(activities[i]);
            Groups(activities[..i + 1]) == before[k := (if k in before then before[k] else []) + [activities[i]]]
  {
    assert activities[..i + 1] == activities[..i] + [activities[i]];
    GroupsPush(activities[..i], activities[i]);
  }

  lemma GroupsPush(xs: seq<Activity>, a: Activity)
    ensures var before, k := Groups(xs), CategoryKey(a);
            Groups(xs + [a]) == before[k := (if k in before then before[k] else []) + [a]]
  {
    var before, after := Groups(xs), Groups(xs + [a]);
    var k := CategoryKey(a);
    var expected := before[k := (if k in before then before[k] else []) + [a]];
    KeysAppend(xs, a);
    assert after.Keys == expected.Keys;
    forall j | j in after ensures after[j] == expected[j] {
      FilterAppend(xs, [a], InGroup(j));
      if j == k && k !in before {
        NoGroupIsEmpty(xs, k);
      }
    }
  }

  /** One more activity adds its own key. */
  lemma KeysAppend(xs: seq<Activity>, a: Activity)
    ensures CategoryKeys(xs + [a]) == CategoryKeys(xs) + {CategoryKey(a)}
  {
  }

  /** A key no activity has selects nothing. */
  lemma NoGroupIsEmpty(activities: seq<Activity>, k: string)
    requires k !in CategoryKeys(activities)
    ensures Filter(activities, InGroup(k)) == []
  {
    var f := Filter(activities, InGroup(k));
    if f != [] {
      FilterMember(activities, InGroup(k), f[0]);
    }
  }

  /** Every activity lies in exactly one group, the one of its own key. */
  lemma GroupsMember(activities: seq<Activity>, k: string, a: Activity)
    ensures k in Groups(activities) && a in Groups(activities)[k] <==> a in activities && CategoryKey(a) == k
  {
    FilterMember(activities, InGroup(k), a);
  }

  /** Every group is non-empty. */
  lemma GroupsNonEmpty(activities: seq<Activity>, k: string)
    requires k in Groups(activities)
    ensures Groups(activities)[k] != []
  {
    var a :| a in activities && CategoryKey(a) == k;
    FilterMember(activities, InGroup(k), a);
  }

  /** Grouping keeps the input order within each group: a later activity goes after the
      group's earlier members. */
  lemma GroupsAppend(xs: seq<Activity>, ys: seq<Activity>, k: string)
    requires k in Groups(xs) && k in Groups(ys)
    ensures k in Groups(xs + ys) && Groups(xs + ys)[k] == Groups(xs)[k] + Groups(ys)[k]
  {
    FilterAppend(xs, ys, InGroup(k));
    var a :| a in xs && CategoryKey(a) == k;
    assert a in xs + ys;
  }

  // ---------------------------------------------------------------------------------------------
  // Lookup by id

  /** `findActivityById`: the first activity with that id, or nothing. */
  function FindActivityById(activities: seq<Activity>, id: string): (r: Option<Activity>)
    ensures r.Some? ==> r.value in activities && r.value.id == Some(id)
    ensures r.None? ==> forall a :: a in activities ==> a.id != Some(id)
  {
    if activities == [] then None
    else if activities[0].id == Some(id) then Some(activities[0])
    else FindActivityById(activities[1..], id)
  }

  /** The activity found is the first one with that id. */
  lemma {:induction false} FindActivityByIdFirst(activities: seq<Activity>, id: string)
    requires FindActivityById(activities, id).Some?
    ensures exists i :: 0 <= i < |activities| && activities[i] == FindActivityById(activities, id).value
                        && forall j :: 0 <= j < i ==> activities[j].id != Some(id)
  {
    if activities[0].id == Some(id) {
      assert activities[0] == FindActivityById(activities, id).value;
    } else {
      var t := activities[1..];
      FindActivityByIdFirst(t, id);
      var i :| 0 <= i < |t| && t[i] == FindActivityById(t, id).value
               && forall j :: 0 <= j < i ==> t[j].id != Some(id);
      forall j | 0 <= j < i + 1 ensures activities[j].id != Some(id) {
        if j > 0 { assert activities[j] == t[j - 1]; }
      }
      assert activities[i + 1] == FindActivityById(activities, id).value;
    }
  }

  // ---------------------------------------------------------------------------------------------
  // Validation

  /** The weight field of a partial activity: absent, `null`, a number, or `NaN`. */
  datatype WeightField = Absent | Null | Number(value: real) | NotANumber

  /** The fields of a partial activity that the validation looks at. */
  datatype Draft = Draft(name: Option<string>, categoryId: Option<string>, weight: WeightField)

  datatype ValidationError = NameRequired | CategoryRequired | WeightOutOfRange

  function Message(e: ValidationError, min: string, max: string): string {
    match e
    case NameRequired => "Activity name is required"
    case CategoryRequired => "Activity category is required"
    case WeightOutOfRange => "Weight must be a number between " + min + " and " + max
  }

  /** The position of an error in the order the checks run. */
  function Rank(e: ValidationError): nat {
    match e
    case NameRequired => 0
    case CategoryRequired => 1
    case WeightOutOfRange => 2
  }

  /** `Number(weight)` is out of `[min, max]`; `null` reads as 0 and `NaN` is never in range. */
  predicate WeightInvalid(w: WeightField, min: real, max: real) {
    match w
    case Absent => false
    case Null => 0.0 < min || 0.0 > max
    case Number(v) => v < min || v > max
    case NotANumber => true
  }

  /** `validateActivity`, with `WEIGHT_CONFIG.MIN` and `WEIGHT_CONFIG.MAX` as parameters. */
  method ValidateActivity(d: Draft, min: real, max: real) returns (errors: seq<ValidationError>)
    ensures NameRequired in errors <==> d.name.None? || Trim(d.name.value) == ""
    ensures CategoryRequired in errors <==> !Truthy(d.categoryId)
    ensures WeightOutOfRange in errors <==> WeightInvalid(d.weight, min, max)
    ensures forall i, j :: 0 <= i < j < |errors| ==> Rank(errors[i]) < Rank(errors[j])
  {
    errors := [];
    if d.name.None? || Trim(d.name.value) == "" {
      errors := errors + [NameRequired];
    }
    if !Truthy(d.categoryId) {
      errors := errors + [CategoryRequired];
    }
    if d.weight != Absent {
      var weightInvalid := match d.weight
        case Null => 0.0 < min || 0.0 > max
        case Number(v) => v < min || v > max
        case _ => true;
      if weightInvalid {
        errors := errors + [WeightOutOfRange];
      }
    }
  }

  // ---------------------------------------------------------------------------------------------
  // Text colour for a background

  /** `s.replace("#", "")`: the first `#` is removed. */
  function RemoveFirstHash(s: string): (r: string)
    ensures '#' !in s ==> r == s
    ensures '#' in s ==> |r| == |s| - 1
  {
    if s == [] then []
    else if s[0] == '#' then s[1..]
    else [s[0]] + RemoveFirstHash(s[1..])
  }

  /** `s.substr(start, length)` for non-negative arguments, clipped to the string. */
  function Substr(s: string, start: nat, length: nat): (r: string)
    ensures |r| <= length
    ensures start + length <= |s| ==> r == s[start..start + length]
  {
    var b := if start < |s| then start else |s|;
    var e := if start + length < |s| then start + length else |s|;
    s[b..e]
  }

  /** The channel at `index` of the hex colour: `parseInt(hex.substr(2 * index, 2), 16)`. */
  function Channel(hex: string, index: nat): Option<int> {
    ParseInt(Substr(hex, 2 * index, 2), Sixteen)
  }

  const Black := "#000000"
  const White := "#FFFFFF"

  /** `getContrastTextColor`: black on a bright background, white otherwise; a channel that does
      not parse makes the brightness `NaN`, so the colour is white. */
  function ContrastTextColor(backgroundColor: string): (r: string)
    ensures r == Black || r == White
    ensures var hex := RemoveFirstHash(backgroundColor);
            Channel(hex, 0).None? || Channel(hex, 1).None? || Channel(hex, 2).None? ==> r == White
  {
    var hex := RemoveFirstHash(backgroundColor);
    var rc, gc, bc := Channel(hex, 0), Channel(hex, 1), Channel(hex, 2);
    if rc.Some? && gc.Some? && bc.Some? && (rc.value * 299 + gc.value * 587 + bc.value * 114) > 128000
    then Black
    else White
  }

  /** Two hexadecimal digits for a byte, lower case. */
  function Hex2(v: nat): (r: string)
    requires v < 256
    ensures |r| == 2
  {
    [HexDigit(v / 16), HexDigit(v % 16)]
  }

  function HexDigit(d: nat): (c: char)
    requires d < 16
    ensures DigitValue(c, 16) == d
  {
    if d < 10 then ('0' as int + d) as char else ('a' as int + d - 10) as char
  }

  /** A two-digit hex channel parses back to its value. */
  lemma ParseHex2(v: nat)
    requires v < 256
    ensures ParseInt(Hex2(v), Sixteen) == Some(v)
  {
    var s := Hex2(v);
    assert !IsSpace(s[0]);
    assert TrimStart(s) == s;
    assert LeadingDigits(s[1..], 16) == s[1..];
    assert LeadingDigits(s, 16) == s;
    assert s[..1] == [s[0]];
    assert DigitsValue(s[..1], 16) == v / 16 by {
      assert s[..1][..0] == [];
    }
  }

  /** A channel whose two characters are the hex digits of `v` reads as `v`. */
  lemma ChannelOfHex2(hex: string, index: nat, v: nat)
    requires v < 256 && 2 * index + 2 <= |hex| && hex[2 * index..2 * index + 2] == Hex2(v)
    ensures Channel(hex, index) == Some(v)
  {
    ParseHex2(v);
  }

  /** For a colour written "#rrggbb", the text colour is black exactly when the weighted
      brightness `299 r + 587 g + 114 b` of the channels exceeds 128000. */
  lemma ContrastOfRgb(r: nat, g: nat, b: nat)
    requires r < 256 && g < 256 && b < 256
    ensures ContrastTextColor("#" + Hex2(r) + Hex2(g) + Hex2(b)) == Black
            <==> 299 * r + 587 * g + 114 * b > 128000
  {
    var hex := Hex2(r) + Hex2(g) + Hex2(b);
    assert "#" + Hex2(r) + Hex2(g) + Hex2(b) == "#" + hex;
    assert RemoveFirstHash("#" + hex) == hex;
    RgbChannels(r, g, b);
    ContrastFromChannels("#" + hex, r, g, b);
  }

  lemma RgbChannels(r: nat, g: nat, b: nat)
    requires r < 256 && g < 256 && b < 256
    ensures var hex := Hex2(r) + Hex2(g) + Hex2(b);
            Channel(hex, 0) == Some(r) && Channel(hex, 1) == Some(g) && Channel(hex, 2) == Some(b)
  {
    ChannelInRgb(r, g, b, 0, r);
    ChannelInRgb(r, g, b, 1, g);
    ChannelInRgb(r, g, b, 2, b);
  }

  lemma ChannelInRgb(r: nat, g: nat, b: nat, index: nat, v: nat)
    requires r < 256 && g < 256 && b < 256
    requires index < 3 && v == [r, g, b][index]
    ensures Channel(Hex2(r) + Hex2(g) + Hex2(b), index) == Some(v)
  {
    var hex := Hex2(r) + Hex2(g) + Hex2(b);
    assert hex[2 * index..2 * index + 2] == Hex2(v);
    ChannelOfHex2(hex, index, v);
  }

  lemma ContrastFromChannels(backgroundColor: string, r: int, g: int, b: int)
    requires var hex := RemoveFirstHash(backgroundColor);
             Channel(hex, 0) == Some(r) && Channel(hex, 1) == Some(g) && Channel(hex, 2) == Some(b)
    ensures ContrastTextColor(backgroundColor) == Black <==> 299 * r + 587 * g + 114 * b > 128000
  {
  }
}
