/** The weekly insight calculations: time spent per activity, the most frequent mood, the most
    frequent activity and the note statistics of a list of timeslices.

    `Date.parse` is the parameter `parseMs` (milliseconds, or `None` for an unparsable time).
    Durations are kept as integer milliseconds and only turned into minutes, with `Math.round`,
    when an insight is built. */
module Insights {
  import opened Common
  import opened Models
  import opened JsText
  import opened Tallies
  import NoteUtils
  import opened ActivityUtils

  const MsPerMinute := 60000

  /** The running maximum of the time scan starts at -1 minute. */
  const MostTimeFloor := -MsPerMinute

  datatype ActivityInsight = ActivityInsight(
    activityId: string, activityName: Option<string>, totalMinutes: int, color: Option<string>)

  /** `Math.round(ms / 60000)`: the nearest whole minute, halves rounded up. */
  function RoundMinutes(ms: int): (r: int)
    ensures r * MsPerMinute - MsPerMinute / 2 <= ms < r * MsPerMinute + MsPerMinute / 2
  {
    (2 * ms + MsPerMinute) / (2 * MsPerMinute)
  }

  /** `createActivityInsight`: nothing for a missing id or an activity that is not in the list. */
  function CreateActivityInsight(activities: seq<Activity>, id: Option<string>, ms: int): (r: Option<ActivityInsight>)
    ensures r.Some? <==> Truthy(id) && exists a :: a in activities && a.id == id
    ensures r.Some? ==> r.value.activityId == id.value && r.value.totalMinutes == RoundMinutes(ms)
  {
    if !Truthy(id) then None
    else
      match FindActivityById(activities, id.value)
      case None => None
      case Some(a) => Some(ActivityInsight(id.value, a.name, RoundMinutes(ms), a.color))
  }

  /** The insight for the tally entry at `i`, or nothing for -1. */
  function InsightAt(activities: seq<Activity>, es: seq<Entry<string>>, i: int): Option<ActivityInsight>
    requires -1 <= i < |es|
  {
    if i < 0 then None else CreateActivityInsight(activities, Some(es[i].key), es[i].total)
  }

  // ---------------------------------------------------------------------------------------------
  // Time per activity

  /** The length of a timeslice with a truthy start and end that both parse. */
  function DurationMs(t: Timeslice, parseMs: string -> Option<int>): Option<int> {
    if Truthy(t.startTime) && Truthy(t.endTime)
       && parseMs(t.startTime.value).Some? && parseMs(t.endTime.value).Some?
    then Some(parseMs(t.endTime.value).value - parseMs(t.startTime.value).value)
    else None
  }

  /** A timeslice counts toward its activity's time when it has an activity and a duration. */
  function TimeOf(parseMs: string -> Option<int>, t: Timeslice): Option<(string, int)> {
    if Truthy(t.activityId) && DurationMs(t, parseMs).Some?
    then Some((t.activityId.value, DurationMs(t, parseMs).value))
    else None
  }

  function TimeContribution(parseMs: string -> Option<int>): Timeslice -> Option<(string, int)> {
    (t: Timeslice) => TimeOf(parseMs, t)
  }

  /** `activityTimeMap`: the summed milliseconds per activity, in first-seen order. */
  function ActivityTotals(timeslices: seq<Timeslice>, parseMs: string -> Option<int>): seq<Entry<string>> {
    Tally(timeslices, TimeContribution(parseMs))
  }

  /** `calculateActivityInsights`: the activities with the most and the least summed time, the
      first one in first-seen order on a tie. */
  method CalculateActivityInsights(timeslices: seq<Timeslice>, activities: seq<Activity>,
                                   parseMs: string -> Option<int>)
    returns (mostTime: Option<ActivityInsight>, leastTime: Option<ActivityInsight>)
    ensures var es := ActivityTotals(timeslices, parseMs);
            && (exists i :: IsFirstMax(es, i, MostTimeFloor) && mostTime == InsightAt(activities, es, i))
            && (exists m :: IsFirstMin(es, m) && leastTime == InsightAt(activities, es, m))
  {
    var es := TallyEach(timeslices, TimeContribution(parseMs));
    assert es == ActivityTotals(timeslices, parseMs);
    if |es| == 0 {
      assert IsFirstMax(es, -1, MostTimeFloor) && InsightAt(activities, es, -1) == None;
      assert IsFirstMin(es, -1);
      return None, None;
    }
    var most, least := MostAndLeast(es, MostTimeFloor);
    mostTime := InsightAt(activities, es, most);
    leastTime := InsightAt(activities, es, least);
  }

  /** Without a timeslice that has an activity and a parsable duration there is no tally, so
      both insights are null; with one there is. */
  lemma {:induction false} NoTimedTimeslicesNoTally(timeslices: seq<Timeslice>, parseMs: string -> Option<int>)
    ensures ActivityTotals(timeslices, parseMs) == [] <==>
              forall i :: 0 <= i < |timeslices| ==> TimeContribution(parseMs)(timeslices[i]).None?
  {
    var f := TimeContribution(parseMs);
    TallyFacts(timeslices, f);
    var es := Tally(timeslices, f);
    if es != [] {
      assert es[0] in es;
      assert es[0].key in Keys(es);
      var i :| 0 <= i < |timeslices| && Contributes(f, timeslices[i], es[0].key);
    }
    if exists i :: 0 <= i < |timeslices| && f(timeslices[i]).Some? {
      var i :| 0 <= i < |timeslices| && f(timeslices[i]).Some?;
      assert Seen(timeslices, f, f(timeslices[i]).value.0);
    }
  }

  /** The most-time activity's total is at least the least-time activity's total. */
  lemma MostAtLeastLeast(timeslices: seq<Timeslice>, parseMs: string -> Option<int>, i: int, m: int)
    requires IsFirstMax(ActivityTotals(timeslices, parseMs), i, MostTimeFloor)
    requires IsFirstMin(ActivityTotals(timeslices, parseMs), m)
    requires i >= 0
    ensures ActivityTotals(timeslices, parseMs)[m].total <= ActivityTotals(timeslices, parseMs)[i].total
  {
    ExtremesUnique(ActivityTotals(timeslices, parseMs), MostTimeFloor, i, i, m, m);
  }

  /** Each activity's tallied time is the sum of the durations of its timeslices. */
  lemma TotalsAreSums(timeslices: seq<Timeslice>, parseMs: string -> Option<int>, j: nat)
    requires j < |ActivityTotals(timeslices, parseMs)|
    ensures ActivityTotals(timeslices, parseMs)[j].total
              == SumFor(timeslices, TimeContribution(parseMs), ActivityTotals(timeslices, parseMs)[j].key)
  {
    TallyFacts(timeslices, TimeContribution(parseMs));
    EntryTotal(ActivityTotals(timeslices, parseMs), j);
  }

  /** Because the running maximum starts at -1 minute, a lone activity whose summed time is a
      minute or more below zero yields no most-time activity, although it is the least-time
      one. */
  lemma NegativeTimeHasNoMost(t: Timeslice, parseMs: string -> Option<int>)
    requires TimeContribution(parseMs)(t).Some? && TimeContribution(parseMs)(t).value.1 <= MostTimeFloor
    ensures var es := ActivityTotals([t], parseMs);
            |es| == 1 && IsFirstMax(es, -1, MostTimeFloor) && IsFirstMin(es, 0)
  {
    var f := TimeContribution(parseMs);
    var c := f(t).value;
    assert [t][..|[t]| - 1] == [];
    assert Tally([t], f) == Add([], c.0, c.1);
  }

  // ---------------------------------------------------------------------------------------------
  // Most frequent mood

  /** `states.find(s => s.id === id)`. */
  function FindState(states: seq<State>, id: string): (r: Option<State>)
    ensures r.Some? ==> r.value in states && r.value.id == Some(id)
    ensures r.None? ==> forall s :: s in states ==> s.id != Some(id)
  {
    if states == [] then None
    else if states[0].id == Some(id) then Some(states[0])
    else FindState(states[1..], id)
  }

  /** A timeslice counts once for the mood of its state, when it has a state with a mood. */
  function MoodOf(states: seq<State>, t: Timeslice): Option<(int, int)> {
    if Truthy(t.stateId) && FindState(states, t.stateId.value).Some?
       && FindState(states, t.stateId.value).value.mood.Some?
    then Some((FindState(states, t.stateId.value).value.mood.value, 1))
    else None
  }

  function MoodContribution(states: seq<State>): Timeslice -> Option<(int, int)> {
    (t: Timeslice) => MoodOf(states, t)
  }

  /** `calculateMoodInsights`: the first mood, in first-seen order, with the highest count; the
      mood label lookup is not modelled, only `moodValue`. */
  method CalculateMoodInsights(timeslices: seq<Timeslice>, states: seq<State>) returns (moodValue: Option<int>)
    ensures var es := Tally(timeslices, MoodContribution(states));
            exists i :: IsFirstMax(es, i, 0) && moodValue == (if i < 0 then None else Some(es[i].key))
  {
    var f := MoodContribution(states);
    var moodCounts: seq<Entry<int>> := [];
    var totalWithMood := 0;
    for i := 0 to |timeslices|
      invariant moodCounts == Tally(timeslices[..i], f)
      invariant totalWithMood == 0 <==> moodCounts == []
    {
      assert timeslices[..i + 1][..i] == timeslices[..i];
      var ts := timeslices[i];
      if Truthy(ts.stateId) {
        var state := FindState(states, ts.stateId.value);
        if state.Some? && state.value.mood.Some? {
          AddKeys(moodCounts, state.value.mood.value, 1);
          moodCounts := Add(moodCounts, state.value.mood.value, 1);
          totalWithMood := totalWithMood + 1;
        }
      }
    }
    assert timeslices[..|timeslices|] == timeslices;
    if totalWithMood == 0 || |moodCounts| == 0 {
      assert IsFirstMax(moodCounts, -1, 0);
      return None;
    }
    var i := FirstMaxIndex(moodCounts, 0);
    moodValue := if i < 0 then None else Some(moodCounts[i].key);
  }

  /** Every mood seen has a positive count, the number of timeslices with that mood, so a mood
      is reported exactly when some timeslice has a state with a mood. */
  lemma MoodReported(timeslices: seq<Timeslice>, states: seq<State>, i: int)
    requires IsFirstMax(Tally(timeslices, MoodContribution(states)), i, 0)
    ensures i >= 0 <==> exists j :: 0 <= j < |timeslices| && MoodOf(states, timeslices[j]).Some?
  {
    var f := MoodContribution(states);
    var es := Tally(timeslices, f);
    TallyFacts(timeslices, f);
    if exists j :: 0 <= j < |timeslices| && MoodOf(states, timeslices[j]).Some? {
      var j :| 0 <= j < |timeslices| && MoodOf(states, timeslices[j]).Some?;
      MoodSeenCounts(timeslices, states, j);
    }
    if i >= 0 {
      assert es[i] in es;
      assert es[i].key in Keys(es);
      var j :| 0 <= j < |timeslices| && Contributes(f, timeslices[j], es[i].key);
    }
  }

  lemma MoodSeenCounts(timeslices: seq<Timeslice>, states: seq<State>, j: nat)
    requires j < |timeslices| && MoodOf(states, timeslices[j]).Some?
    ensures exists k :: 0 <= k < |Tally(timeslices, MoodContribution(states))|
                        && Tally(timeslices, MoodContribution(states))[k].total > 0
  {
    var f := MoodContribution(states);
    var es := Tally(timeslices, f);
    TallyFacts(timeslices, f);
    var mood := MoodOf(states, timeslices[j]).value.0;
    assert Contributes(f, timeslices[j], mood);
    assert Seen(timeslices, f, mood);
    assert mood in Keys(es);
    var e :| e in es && e.key == mood;
    var k :| 0 <= k < |es| && es[k] == e;
    EntryTotal(es, k);
    SeenSumPositive(timeslices, f, mood);
  }

  // ---------------------------------------------------------------------------------------------
  // Most frequent activity

  /** A timeslice counts once for its activity. */
  function CountContribution(t: Timeslice): Option<(string, int)> {
    if Truthy(t.activityId) then Some((t.activityId.value, 1)) else None
  }

  /** `timeslices.filter(ts => ts.activity_id === id).reduce(...)`: the summed duration of the
      activity's timeslices, skipping those without a parsable start and end. */
  function DurationOfActivity(timeslices: seq<Timeslice>, id: string, parseMs: string -> Option<int>): int
    decreases |timeslices|
  {
    if timeslices == [] then 0
    else
      var t := timeslices[|timeslices| - 1];
      DurationOfActivity(timeslices[..|timeslices| - 1], id, parseMs)
      + (if t.activityId == Some(id) && DurationMs(t, parseMs).Some? then DurationMs(t, parseMs).value else 0)
  }

  /** `calculateMostFrequentActivity`: the first activity, in first-seen order, with the most
      timeslices, with its summed time; nothing when it is not in the activity list. */
  method CalculateMostFrequentActivity(timeslices: seq<Timeslice>, activities: seq<Activity>,
                                       parseMs: string -> Option<int>) returns (r: Option<ActivityInsight>)
    ensures var es := Tally(timeslices, CountContribution);
            exists i :: IsFirstMax(es, i, 0)
                        && r == (if i < 0 then None
                                 else CreateActivityInsight(activities, Some(es[i].key),
                                                            DurationOfActivity(timeslices, es[i].key, parseMs)))
  {
    var activityCounts := TallyEach(timeslices, CountContribution);
    if |activityCounts| == 0 {
      assert IsFirstMax(activityCounts, -1, 0);
      return None;
    }
    var i := FirstMaxIndex(activityCounts, 0);
    if i < 0 {
      return None;
    }
    var id := activityCounts[i].key;
    r := CreateActivityInsight(activities, Some(id), DurationOfActivity(timeslices, id, parseMs));
  }

  /** The most frequent activity's time agrees with the time tally: for any truthy id, the
      filtered sum is the sum the time scan keeps for that activity. */
  lemma {:induction false} FrequentTimeMatchesTally(timeslices: seq<Timeslice>, id: string, parseMs: string -> Option<int>)
    requires id != ""
    ensures DurationOfActivity(timeslices, id, parseMs) == SumFor(timeslices, TimeContribution(parseMs), id)
    ensures DurationOfActivity(timeslices, id, parseMs) == TotalOf(ActivityTotals(timeslices, parseMs), id)
    decreases |timeslices|
  {
    if timeslices != [] {
      FrequentTimeMatchesTally(timeslices[..|timeslices| - 1], id, parseMs);
    }
    TallyFacts(timeslices, TimeContribution(parseMs));
  }

  // ---------------------------------------------------------------------------------------------
  // Note statistics

  /** The note ids listed by the timeslices. */
  function NoteIdsOf(timeslices: seq<Timeslice>): set<string> {
    set t, id | t in timeslices && t.noteIds.Some? && id in t.noteIds.value :: id
  }

  predicate Relevant(ids: set<string>, note: Note) {
    Truthy(note.id) && note.id.value in ids
  }

  function RelevantTo(ids: set<string>): Note -> bool {
    (n: Note) => Relevant(ids, n)
  }

  /** The words of a note: its truthy message trimmed, split on white-space runs, empty parts
      dropped. */
  function WordCount(note: Note): nat {
    var content := if Truthy(note.message) then note.message.value else "";
    |Filter(NoteUtils.SpaceSplit(Trim(content)), NoteUtils.NonEmpty)|
  }

  function WordSum(notes: seq<Note>): nat {
    if notes == [] then 0 else WordCount(notes[0]) + WordSum(notes[1..])
  }

  /** `calculateNoteInsights`: the notes referenced by some timeslice, counted once per entry of
      `notes`, and their summed word counts. */
  method CalculateNoteInsights(timeslices: seq<Timeslice>, notes: seq<Note>) returns (totalNotes: nat, totalWords: nat)
    ensures totalNotes == |Filter(notes, RelevantTo(NoteIdsOf(timeslices)))|
    ensures totalWords == WordSum(Filter(notes, RelevantTo(NoteIdsOf(timeslices))))
  {
    var noteIds: set<string> := {};
    for i := 0 to |timeslices|
      invariant noteIds == NoteIdsOf(timeslices[..i])
    {
      var ts := timeslices[i];
      if ts.noteIds.Some? {
        noteIds := noteIds + set id | id in ts.noteIds.value;
      }
      assert timeslices[..i + 1] == timeslices[..i] + [ts];
    }
    assert timeslices[..|timeslices|] == timeslices;
    if |noteIds| == 0 {
      NothingRelevant(notes, noteIds);
      return 0, 0;
    }
    var relevantNotes := Filter(notes, RelevantTo(noteIds));
    totalNotes := |relevantNotes|;
    totalWords := WordSum(relevantNotes);
  }

  lemma {:induction false} NothingRelevant(notes: seq<Note>, ids: set<string>)
    requires ids == {}
    ensures Filter(notes, RelevantTo(ids)) == []
  {
    if notes != [] {
      NothingRelevant(notes[1..], ids);
    }
  }

  /** The counted notes are notes of the list whose id some timeslice references; there are no
      more of them than notes; a note's word count is the number of its white-space separated
      words. */
  lemma NoteStatsFacts(timeslices: seq<Timeslice>, notes: seq<Note>)
    ensures var counted := Filter(notes, RelevantTo(NoteIdsOf(timeslices)));
            && |counted| <= |notes|
            && forall n :: n in counted <==>
                 n in notes && Truthy(n.id)
                 && exists t :: t in timeslices && t.noteIds.Some? && n.id.value in t.noteIds.value
    ensures forall n :: WordCount(n) ==
              NoteUtils.WordStarts(Trim(if Truthy(n.message) then n.message.value else ""), true)
  {
    var ids := NoteIdsOf(timeslices);
    forall n ensures n in Filter(notes, RelevantTo(ids)) <==> n in notes && Relevant(ids, n) {
      FilterMember(notes, RelevantTo(ids), n);
    }
    forall n ensures WordCount(n) ==
                     NoteUtils.WordStarts(Trim(if Truthy(n.message) then n.message.value else ""), true) {
      NoteUtils.SpaceSplitCountsWords(Trim(if Truthy(n.message) then n.message.value else ""));
    }
  }
}
