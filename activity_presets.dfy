/** The onboarding activity presets and their conversion into activity rows for insertion.

    Weights are exact decimals (`real`). */
module ActivityPresets {
  import opened Common
  import opened Models

  datatype ActivityPreset = ActivityPreset(
    id: string, name: string, nameKey: string, categoryKey: string, color: string, weight: real,
    status: ActivityStatus)

  const PresetCount := 28

  /** `ACTIVITY_PRESETS[i]`. */
  function Preset(i: nat): ActivityPreset
    requires i < PresetCount
  {
    if i == 0 then ActivityPreset("work", "Work", "onboarding.activities.work", "work", "#3B82F6", 0.5, Enabled)
    else if i == 1 then ActivityPreset("admin", "Admin", "onboarding.activities.admin", "work", "#1E40AF", 0.3, Enabled)
    else if i == 2 then ActivityPreset("email", "Email", "onboarding.activities.email", "work", "#2563EB", 0.2, Enabled)
    else if i == 3 then ActivityPreset("meetings", "Meetings", "onboarding.activities.meetings", "work", "#3730A3", 0.2, Enabled)
    else if i == 4 then ActivityPreset("planning", "Planning", "onboarding.activities.planning", "work", "#1D4ED8", 0.4, Enabled)
    else if i == 5 then ActivityPreset("family-time", "Family Time", "onboarding.activities.family-time", "social", "#8B5CF6", 0.9, Enabled)
    else if i == 6 then ActivityPreset("caregiving", "Caregiving", "onboarding.activities.caregiving", "social", "#7C3AED", 0.8, Enabled)
    else if i == 7 then ActivityPreset("friends", "Friends", "onboarding.activities.friends", "social", "#A855F7", 0.8, Enabled)
    else if i == 8 then ActivityPreset("sleep", "Sleep", "onboarding.activities.sleep", "health", "#6366F1", 1.0, Enabled)
    else if i == 9 then ActivityPreset("exercise", "Exercise", "onboarding.activities.exercise", "health", "#EF4444", 1.0, Enabled)
    else if i == 10 then ActivityPreset("meditation", "Meditation", "onboarding.activities.meditation", "health", "#06B6D4", 1.0, Enabled)
    else if i == 11 then ActivityPreset("health", "Health", "onboarding.activities.health", "health", "#10B981", 1.0, Enabled)
    else if i == 12 then ActivityPreset("meal", "Meal", "onboarding.activities.meal", "food", "#F59E0B", 0.7, Enabled)
    else if i == 13 then ActivityPreset("cooking", "Cooking", "onboarding.activities.cooking", "food", "#D97706", 0.8, Enabled)
    else if i == 14 then ActivityPreset("chores", "Chores", "onboarding.activities.chores", "home", "#65A30D", 0.4, Enabled)
    else if i == 15 then ActivityPreset("groceries", "Groceries", "onboarding.activities.groceries", "home", "#84CC16", 0.5, Enabled)
    else if i == 16 then ActivityPreset("home-admin", "Home Admin", "onboarding.activities.home-admin", "home", "#16A34A", 0.3, Enabled)
    else if i == 17 then ActivityPreset("learning", "Learning", "onboarding.activities.learning", "learn", "#059669", 0.9, Enabled)
    else if i == 18 then ActivityPreset("reading", "Reading", "onboarding.activities.reading", "learn", "#10B981", 0.8, Enabled)
    else if i == 19 then ActivityPreset("creative-work", "Creative Work", "onboarding.activities.creative-work", "learn", "#047857", 0.9, Enabled)
    else if i == 20 then ActivityPreset("hobby", "Hobby", "onboarding.activities.hobby", "play", "#EC4899", 0.7, Enabled)
    else if i == 21 then ActivityPreset("relax", "Relax", "onboarding.activities.relax", "play", "#DB2777", 0.6, Enabled)
    else if i == 22 then ActivityPreset("tv", "TV", "onboarding.activities.tv", "play", "#BE185D", 0.0, Enabled)
    else if i == 23 then ActivityPreset("doomscrolling", "Doomscrolling", "onboarding.activities.doomscrolling", "play", "#9D174D", 0.0, Enabled)
    else if i == 24 then ActivityPreset("nature", "Nature", "onboarding.activities.nature", "travel", "#F97316", 0.8, Enabled)
    else if i == 25 then ActivityPreset("walking", "Walking", "onboarding.activities.walking", "travel", "#EA580C", 0.9, Enabled)
    else if i == 26 then ActivityPreset("commute", "Commute", "onboarding.activities.commute", "travel", "#DC2626", 0.2, Enabled)
    else ActivityPreset("reflection", "Reflection", "onboarding.activities.reflection", "rest", "#6B7280", 1.0, Enabled)
  }

  /** `ACTIVITY_PRESETS`. */
  function ActivityPresetList(): (r: seq<ActivityPreset>)
    ensures |r| == PresetCount && forall i :: 0 <= i < PresetCount ==> r[i] == Preset(i)
  {
    seq(PresetCount, i requires 0 <= i < PresetCount => Preset(i))
  }

  /** No two presets share an id. */
  lemma PresetIdsDistinct()
    ensures forall i, j :: 0 <= i < j < |ActivityPresetList()| ==> ActivityPresetList()[i].id != ActivityPresetList()[j].id
  {
    IdsDistinctFrom0();
    IdsDistinctFrom7();
    IdsDistinctFrom14();
    IdsDistinctFrom21();
  }

  lemma IdsDistinctFrom0()
    ensures forall i, j :: 0 <= i < 7 && i < j < PresetCount ==> Preset(i).id != Preset(j).id
  {
  }

  lemma IdsDistinctFrom7()
    ensures forall i, j :: 7 <= i < 14 && i < j < PresetCount ==> Preset(i).id != Preset(j).id
  {
  }

  lemma IdsDistinctFrom14()
    ensures forall i, j :: 14 <= i < 21 && i < j < PresetCount ==> Preset(i).id != Preset(j).id
  {
  }

  lemma IdsDistinctFrom21()
    ensures forall i, j :: 21 <= i < 28 && i < j < PresetCount ==> Preset(i).id != Preset(j).id
  {
  }

  /** Every preset is enabled and weighs between 0 and 1. */
  lemma PresetsEnabledAndWeighted()
    ensures forall p :: p in ActivityPresetList() ==> p.status == Enabled && 0.0 <= p.weight <= 1.0
  {
    forall p | p in ActivityPresetList() ensures p.status == Enabled && 0.0 <= p.weight <= 1.0 {
      var i :| 0 <= i < PresetCount && ActivityPresetList()[i] == p;
      PresetRowFacts(i);
    }
  }

  lemma PresetRowFacts(i: nat)
    requires i < PresetCount
    ensures Preset(i).status == Enabled && 0.0 <= Preset(i).weight <= 1.0
  {
    if i < 14 {
      LowRowFacts(i);
    } else {
      HighRowFacts(i);
    }
  }

  lemma LowRowFacts(i: nat)
    requires i < 14
    ensures Preset(i).status == Enabled && 0.0 <= Preset(i).weight <= 1.0
  {
  }

  lemma HighRowFacts(i: nat)
    requires 14 <= i < PresetCount
    ensures Preset(i).status == Enabled && 0.0 <= Preset(i).weight <= 1.0
  {
  }

  /** `convertPresetToActivity`: the row to insert, without an id and without a parent. */
  function ConvertPresetToActivity(preset: ActivityPreset, userId: string, localizedName: string, categoryId: string)
    : (a: Activity)
    ensures a.id.None? && a.parentId.None?
    ensures a.color == Some(preset.color) && a.status == Some(preset.status) && a.weight == Some(preset.weight)
    ensures a.name == Some(localizedName) && a.userId == Some(userId) && a.categoryId == Some(categoryId)
  {
    Activity(None, Some(localizedName), Some(preset.color), Some(categoryId), None, Some(userId),
             Some(preset.status), Some(preset.weight))
  }

  /** An activity created from any preset is enabled, with a weight between 0 and 1. */
  lemma ConvertedPresetEnabled(p: ActivityPreset, userId: string, localizedName: string, categoryId: string)
    requires p in ActivityPresetList()
    ensures var a := ConvertPresetToActivity(p, userId, localizedName, categoryId);
            a.status == Some(Enabled) && 0.0 <= a.weight.value <= 1.0
  {
    PresetsEnabledAndWeighted();
  }
}
