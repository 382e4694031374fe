/** The cached list of the user's activities. Every action is a backend call, whose outcome is a
    parameter here, followed on success by a pure update of the list from `ResourceLists`. */
module ActivitiesResource {
  import opened Common
  import opened Models
  import opened ResourceLists
  import opened OrderStorage

  function ActivityId(a: Activity): Option<string> { a.id }

  function AsDisabled(a: Activity): Activity { a.(status := Some(ActivityStatus.Disabled)) }

  function DisabledIfListed(ids: seq<string>, a: Activity): Activity {
    if a.id.Some? && a.id.value in ids then AsDisabled(a) else a
  }

  /** `disableActivities`' update: every activity whose id is listed gets the DISABLED status. */
  function DisableListed(activities: seq<Activity>, ids: seq<string>): (r: seq<Activity>)
    ensures |r| == |activities|
  {
    seq(|activities|, i requires 0 <= i < |activities| => DisabledIfListed(ids, activities[i]))
  }

  /** Disabling keeps every activity in its place and changes only the status: a listed activity
      becomes DISABLED, any other stays as it was. Disabling the one-element list `[id]` is the
      single disable, which is the order storage's status change. */
  lemma DisableListedFacts(activities: seq<Activity>, ids: seq<string>)
    ensures var r := DisableListed(activities, ids);
            && |r| == |activities|
            && (forall i :: 0 <= i < |r| ==> r[i].(status := activities[i].status) == activities[i])
            && (forall i :: 0 <= i < |r| ==>
                  (activities[i].id.Some? && activities[i].id.value in ids ==> r[i].status == Some(ActivityStatus.Disabled)))
            && (forall i :: 0 <= i < |r| ==>
                  (!(activities[i].id.Some? && activities[i].id.value in ids) ==> r[i] == activities[i]))
    ensures forall id :: DisableListed(activities, [id]) == SetStatus(activities, id, ActivityStatus.Disabled)
  {
    forall id ensures DisableListed(activities, [id]) == SetStatus(activities, id, ActivityStatus.Disabled) {
      var r := DisableListed(activities, [id]);
      var q := SetStatus(activities, id, ActivityStatus.Disabled);
      forall i | 0 <= i < |activities| ensures r[i] == q[i] {
        assert activities[i].id.Some? && activities[i].id.value in [id] <==> activities[i].id == Some(id);
      }
    }
  }

  class ActivitiesStore {
    var activities: seq<Activity>
    var isLoading: bool
    var error: Option<string>

    /** The initial state: no activities, not loading, no error. */
    constructor()
      ensures activities == [] && !isLoading && error == None
    {
      activities, isLoading, error := [], false, None;
    }

    /** `insertActivity`: the created activity is appended; a null result or a failed call
        leaves the list as it was. */
    method InsertActivity(outcome: ApiOutcome<Option<Activity>>) returns (r: Option<Activity>)
      modifies this
      ensures Settled(outcome, isLoading, error)
      ensures r == ResultOr(outcome, None)
      ensures activities == (if r.Some? then old(activities) + [r.value] else old(activities))
    {
      match outcome
      case Failed(message) =>
        r, isLoading, error := None, false, Some(message);
      case Succeeded(created) =>
        if created.Some? {
          activities := activities + [created.value];
        }
        r, isLoading, error := created, false, None;
    }

    /** `insertActivities`: the created activities are appended in order. */
    method InsertActivities(outcome: ApiOutcome<seq<Activity>>) returns (r: seq<Activity>)
      modifies this
      ensures Settled(outcome, isLoading, error)
      ensures r == ResultOr(outcome, [])
      ensures activities == old(activities) + r
    {
      match outcome
      case Failed(message) =>
        r, isLoading, error := [], false, Some(message);
      case Succeeded(created) =>
        if |created| > 0 {
          activities := activities + created;
        }
        r, isLoading, error := created, false, None;
    }

    /** `upsertActivity`: the result replaces the first activity with its id, or is appended. */
    method UpsertActivity(outcome: ApiOutcome<Option<Activity>>) returns (r: Option<Activity>)
      modifies this
      ensures Settled(outcome, isLoading, error)
      ensures r == ResultOr(outcome, None)
      ensures activities == (if r.Some? then Upsert(old(activities), ActivityId, r.value) else old(activities))
    {
      match outcome
      case Failed(message) =>
        r, isLoading, error := None, false, Some(message);
      case Succeeded(upserted) =>
        if upserted.Some? {
          var existingIndex := FindIndex(activities, ActivityId, upserted.value.id);
          if existingIndex >= 0 {
            activities := activities[existingIndex := upserted.value];
          } else {
            activities := activities + [upserted.value];
          }
        }
        r, isLoading, error := upserted, false, None;
    }

    /** `upsertActivities`: the results are upserted one after the other. */
    method UpsertActivities(outcome: ApiOutcome<seq<Activity>>) returns (r: seq<Activity>)
      modifies this
      ensures Settled(outcome, isLoading, error)
      ensures r == ResultOr(outcome, [])
      ensures activities == UpsertAll(old(activities), ActivityId, r)
    {
      match outcome
      case Failed(message) =>
        r, isLoading, error := [], false, Some(message);
      case Succeeded(upserted) =>
        if |upserted| > 0 {
          activities := UpsertEach(activities, ActivityId, upserted);
        }
        r, isLoading, error := upserted, false, None;
    }

    /** `updateActivity`: every activity with the result's id is replaced; nothing is added. */
    method UpdateActivity(outcome: ApiOutcome<Option<Activity>>) returns (r: Option<Activity>)
      modifies this
      ensures Settled(outcome, isLoading, error)
      ensures r == ResultOr(outcome, None)
      ensures activities == (if r.Some? then ReplaceWhere(old(activities), ActivityId, r.value) else old(activities))
    {
      match outcome
      case Failed(message) =>
        r, isLoading, error := None, false, Some(message);
      case Succeeded(updated) =>
        if updated.Some? {
          activities := ReplaceWhere(activities, ActivityId, updated.value);
        }
        r, isLoading, error := updated, false, None;
    }

    /** `updateActivities`: each cached activity is replaced by the first returned activity
        with its id; nothing is added. */
    method UpdateActivities(outcome: ApiOutcome<Option<seq<Activity>>>) returns (r: Option<seq<Activity>>)
      modifies this
      ensures Settled(outcome, isLoading, error)
      ensures r == ResultOr(outcome, None)
      ensures activities == (if r.Some? then ReplaceFromBatch(old(activities), ActivityId, r.value) else old(activities))
    {
      match outcome
      case Failed(message) =>
        r, isLoading, error := None, false, Some(message);
      case Succeeded(updated) =>
        if updated.Some? && |updated.value| > 0 {
          activities := ReplaceFromBatch(activities, ActivityId, updated.value);
        } else if updated.Some? {
          BatchReplaceFacts(activities, ActivityId, updated.value);
        }
        r, isLoading, error := updated, false, None;
    }

    /** `softDeleteActivity`: every activity with the id leaves the list once the backend
        confirms. */
    method SoftDeleteActivity(id: string, outcome: ApiOutcome<()>)
      modifies this
      ensures Settled(outcome, isLoading, error)
      ensures activities == (if outcome.Succeeded? then WithoutId(old(activities), ActivityId, id) else old(activities))
    {
      match outcome
      case Failed(message) =>
        isLoading, error := false, Some(message);
      case Succeeded(_) =>
        activities := WithoutId(activities, ActivityId, id);
        isLoading, error := false, None;
    }

    /** `softDeleteActivities`: the listed ids leave the list, and so does every activity whose id
        is null; an empty id stays. */
    method SoftDeleteActivities(ids: seq<string>, outcome: ApiOutcome<()>)
      modifies this
      ensures Settled(outcome, isLoading, error)
      ensures activities == (if outcome.Succeeded? then WithoutIds(old(activities), ActivityId, ids, DropNull)
                             else old(activities))
    {
      match outcome
      case Failed(message) =>
        isLoading, error := false, Some(message);
      case Succeeded(_) =>
        activities := WithoutIds(activities, ActivityId, ids, DropNull);
        isLoading, error := false, None;
    }

    /** `disableActivity`: the activities with the id stay in the list with the DISABLED status. */
    method DisableActivity(id: string, outcome: ApiOutcome<()>)
      modifies this
      ensures Settled(outcome, isLoading, error)
      ensures activities == (if outcome.Succeeded? then SetStatus(old(activities), id, ActivityStatus.Disabled)
                             else old(activities))
    {
      match outcome
      case Failed(message) =>
        isLoading, error := false, Some(message);
      case Succeeded(_) =>
        activities := SetStatus(activities, id, ActivityStatus.Disabled);
        isLoading, error := false, None;
    }

    /** `disableActivities`: the listed activities stay in the list with the DISABLED status. */
    method DisableActivities(ids: seq<string>, outcome: ApiOutcome<()>)
      modifies this
      ensures Settled(outcome, isLoading, error)
      ensures activities == (if outcome.Succeeded? then DisableListed(old(activities), ids) else old(activities))
    {
      match outcome
      case Failed(message) =>
        isLoading, error := false, Some(message);
      case Succeeded(_) =>
        activities := DisableListed(activities, ids);
        isLoading, error := false, None;
    }

    /** `refresh`: the whole list becomes the fetched enabled activities, sorted by the stored
        order that is read alongside them. */
    method Refresh(outcome: ApiOutcome<seq<Activity>>, storedOrder: Option<ActivityOrder>)
      modifies this
      ensures Settled(outcome, isLoading, error)
      ensures activities == (if outcome.Succeeded? then SortedByStoredOrder(outcome.data, storedOrder)
                             else old(activities))
    {
      match outcome
      case Failed(message) =>
        isLoading, error := false, Some(message);
      case Succeeded(fetched) =>
        activities := SortedByStoredOrder(fetched, storedOrder);
        isLoading, error := false, None;
    }

    /** `updateActivityOrder`: the list becomes the reordered one, whether or not saving the
        order succeeds. */
    method UpdateActivityOrder(reorderedActivities: seq<Activity>)
      modifies this
      ensures activities == reorderedActivities && isLoading == old(isLoading) && error == old(error)
    {
      activities := reorderedActivities;
    }

    /** `getActivity`: the fetched activity, or null; the list is untouched. */
    method GetActivity(outcome: ApiOutcome<Option<Activity>>) returns (r: Option<Activity>)
      modifies this
      ensures Settled(outcome, isLoading, error)
      ensures r == ResultOr(outcome, None) && activities == old(activities)
    {
      r := ResultOr(outcome, None);
      isLoading := false;
      error := if outcome.Failed? then Some(outcome.message) else None;
    }

    /** `getActivities`, `getEnabledUserActivities`, `getAllActivities`,
        `getAllDisabledActivities`, `getAllDeletedActivities`, `getEnabledActivitiesByCategory`:
        the fetched list, or the empty list; the cached list is untouched. */
    method GetActivities(outcome: ApiOutcome<seq<Activity>>) returns (r: seq<Activity>)
      modifies this
      ensures Settled(outcome, isLoading, error)
      ensures r == ResultOr(outcome, []) && activities == old(activities)
    {
      r := ResultOr(outcome, []);
      isLoading := false;
      error := if outcome.Failed? then Some(outcome.message) else None;
    }

    /** `setLoading`. */
    method SetLoading(loading: bool)
      modifies this
      ensures isLoading == loading && activities == old(activities) && error == old(error)
    {
      isLoading := loading;
    }

    /** `setError`. */
    method SetError(message: Option<string>)
      modifies this
      ensures error == message && activities == old(activities) && isLoading == old(isLoading)
    {
      error := message;
    }

    /** `reset`: back to the initial state. */
    method Reset()
      modifies this
      ensures activities == [] && !isLoading && error == None
    {
      activities, isLoading, error := [], false, None;
    }
  }
}
