/** The cached list of the user's timeslices. Every action is a backend call, whose outcome is a
    parameter here, followed on success by a pure update of the list from `ResourceLists`. */
module TimeslicesResource {
  import opened Common
  import opened Models
  import opened ResourceLists

  function TimesliceId(t: Timeslice): Option<string> { t.id }

  class TimeslicesStore {
    var timeslices: seq<Timeslice>
    var isLoading: bool
    var error: Option<string>

    /** The initial state: no timeslices, not loading, no error. */
    constructor()
      ensures timeslices == [] && !isLoading && error == None
    {
      timeslices, isLoading, error := [], false, None;
    }

    /** `insertTimeslice`: the created timeslice is appended; a null result or a failed call
        leaves the list as it was. */
    method InsertTimeslice(outcome: ApiOutcome<Option<Timeslice>>) returns (r: Option<Timeslice>)
      modifies this
      ensures Settled(outcome, isLoading, error)
      ensures r == ResultOr(outcome, None)
      ensures timeslices == (if r.Some? then old(timeslices) + [r.value] else old(timeslices))
    {
      match outcome
      case Failed(message) =>
        r, isLoading, error := None, false, Some(message);
      case Succeeded(created) =>
        if created.Some? {
          timeslices := timeslices + [created.value];
        }
        r, isLoading, error := created, false, None;
    }

    /** `insertTimeslices`: the created timeslices are appended in order. */
    method InsertTimeslices(outcome: ApiOutcome<seq<Timeslice>>) returns (r: seq<Timeslice>)
      modifies this
      ensures Settled(outcome, isLoading, error)
      ensures r == ResultOr(outcome, [])
      ensures timeslices == old(timeslices) + r
    {
      match outcome
      case Failed(message) =>
        r, isLoading, error := [], false, Some(message);
      case Succeeded(created) =>
        if |created| > 0 {
          timeslices := timeslices + created;
        }
        r, isLoading, error := created, false, None;
    }

    /** `upsertTimeslice`: the result replaces the first timeslice with its id, or is appended. */
    method UpsertTimeslice(outcome: ApiOutcome<Option<Timeslice>>) returns (r: Option<Timeslice>)
      modifies this
      ensures Settled(outcome, isLoading, error)
      ensures r == ResultOr(outcome, None)
      ensures timeslices == (if r.Some? then Upsert(old(timeslices), TimesliceId, r.value) else old(timeslices))
    {
      match outcome
      case Failed(message) =>
        r, isLoading, error := None, false, Some(message);
      case Succeeded(upserted) =>
        if upserted.Some? {
          var existingIndex := FindIndex(timeslices, TimesliceId, upserted.value.id);
          if existingIndex >= 0 {
            timeslices := timeslices[existingIndex := upserted.value];
          } else {
            timeslices := timeslices + [upserted.value];
          }
        }
        r, isLoading, error := upserted, false, None;
    }

    /** `upsertTimeslices`: the results are upserted one after the other. */
    method UpsertTimeslices(outcome: ApiOutcome<seq<Timeslice>>) returns (r: seq<Timeslice>)
      modifies this
      ensures Settled(outcome, isLoading, error)
      ensures r == ResultOr(outcome, [])
      ensures timeslices == UpsertAll(old(timeslices), TimesliceId, r)
    {
      match outcome
      case Failed(message) =>
        r, isLoading, error := [], false, Some(message);
      case Succeeded(upserted) =>
        if |upserted| > 0 {
          timeslices := UpsertEach(timeslices, TimesliceId, upserted);
        }
        r, isLoading, error := upserted, false, None;
    }

    /** `updateTimeslice`: every timeslice with the result's id is replaced; nothing is added. */
    method UpdateTimeslice(outcome: ApiOutcome<Option<Timeslice>>) returns (r: Option<Timeslice>)
      modifies this
      ensures Settled(outcome, isLoading, error)
      ensures r == ResultOr(outcome, None)
      ensures timeslices == (if r.Some? then ReplaceWhere(old(timeslices), TimesliceId, r.value) else old(timeslices))
    {
      match outcome
      case Failed(message) =>
        r, isLoading, error := None, false, Some(message);
      case Succeeded(updated) =>
        if updated.Some? {
          timeslices := ReplaceWhere(timeslices, TimesliceId, updated.value);
        }
        r, isLoading, error := updated, false, None;
    }

    /** `deleteTimeslice`: every timeslice with the id is removed once the backend confirms. */
    method DeleteTimeslice(id: string, outcome: ApiOutcome<()>)
      modifies this
      ensures Settled(outcome, isLoading, error)
      ensures timeslices == (if outcome.Succeeded? then WithoutId(old(timeslices), TimesliceId, id) else old(timeslices))
    {
      match outcome
      case Failed(message) =>
        isLoading, error := false, Some(message);
      case Succeeded(_) =>
        timeslices := WithoutId(timeslices, TimesliceId, id);
        isLoading, error := false, None;
    }

    /** `deleteTimeslices`: the listed ids are removed, and so is every timeslice whose id is
        null or empty. */
    method DeleteTimeslices(ids: seq<string>, outcome: ApiOutcome<()>)
      modifies this
      ensures Settled(outcome, isLoading, error)
      ensures timeslices == (if outcome.Succeeded? then WithoutIds(old(timeslices), TimesliceId, ids, DropFalsy)
                             else old(timeslices))
    {
      match outcome
      case Failed(message) =>
        isLoading, error := false, Some(message);
      case Succeeded(_) =>
        timeslices := WithoutIds(timeslices, TimesliceId, ids, DropFalsy);
        isLoading, error := false, None;
    }

    /** `refresh`: the fetched timeslices are appended, without removing duplicates. */
    method Refresh(outcome: ApiOutcome<seq<Timeslice>>)
      modifies this
      ensures Settled(outcome, isLoading, error)
      ensures timeslices == old(timeslices) + ResultOr(outcome, [])
    {
      match outcome
      case Failed(message) =>
        isLoading, error := false, Some(message);
      case Succeeded(fetched) =>
        timeslices := timeslices + fetched;
        isLoading, error := false, None;
    }

    /** `getTimeslice`: the fetched timeslice, or null; the list is untouched. */
    method GetTimeslice(outcome: ApiOutcome<Option<Timeslice>>) returns (r: Option<Timeslice>)
      modifies this
      ensures Settled(outcome, isLoading, error)
      ensures r == ResultOr(outcome, None) && timeslices == old(timeslices)
    {
      r := ResultOr(outcome, None);
      isLoading := false;
      error := if outcome.Failed? then Some(outcome.message) else None;
    }

    /** `getTimeslices`, `getUserTimeslices`, `getAllTimeslices`: the fetched list, or the empty
        list; the cached list is untouched. */
    method GetTimeslices(outcome: ApiOutcome<seq<Timeslice>>) returns (r: seq<Timeslice>)
      modifies this
      ensures Settled(outcome, isLoading, error)
      ensures r == ResultOr(outcome, []) && timeslices == old(timeslices)
    {
      r := ResultOr(outcome, []);
      isLoading := false;
      error := if outcome.Failed? then Some(outcome.message) else None;
    }

    /** `setLoading`. */
    method SetLoading(loading: bool)
      modifies this
      ensures isLoading == loading && timeslices == old(timeslices) && error == old(error)
    {
      isLoading := loading;
    }

    /** `setError`. */
    method SetError(message: Option<string>)
      modifies this
      ensures error == message && timeslices == old(timeslices) && isLoading == old(isLoading)
    {
      error := message;
    }

    /** `reset`: back to the initial state. */
    method Reset()
      modifies this
      ensures timeslices == [] && !isLoading && error == None
    {
      timeslices, isLoading, error := [], false, None;
    }
  }
}
