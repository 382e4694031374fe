/** The cached list of the user's mood and energy states. Every action is a backend call, whose outcome is a
    parameter here, followed on success by a pure update of the list from `ResourceLists`. */
module StatesResource {
  import opened Common
  import opened Models
  import opened ResourceLists

  function StateId(t: State): Option<string> { t.id }

  class StatesStore {
    var states: seq<State>
    var isLoading: bool
    var error: Option<string>

    /** The initial state: no states, not loading, no error. */
    constructor()
      ensures states == [] && !isLoading && error == None
    {
      states, isLoading, error := [], false, None;
    }

    /** `insertState`: the created state is appended; a null result or a failed call
        leaves the list as it was. */
    method InsertState(outcome: ApiOutcome<Option<State>>) returns (r: Option<State>)
      modifies this
      ensures Settled(outcome, isLoading, error)
      ensures r == ResultOr(outcome, None)
      ensures states == (if r.Some? then old(states) + [r.value] else old(states))
    {
      match outcome
      case Failed(message) =>
        r, isLoading, error := None, false, Some(message);
      case Succeeded(created) =>
        if created.Some? {
          states := states + [created.value];
        }
        r, isLoading, error := created, false, None;
    }

    /** `insertStates`: the created states are appended in order. */
    method InsertStates(outcome: ApiOutcome<seq<State>>) returns (r: seq<State>)
      modifies this
      ensures Settled(outcome, isLoading, error)
      ensures r == ResultOr(outcome, [])
      ensures states == old(states) + r
    {
      match outcome
      case Failed(message) =>
        r, isLoading, error := [], false, Some(message);
      case Succeeded(created) =>
        if |created| > 0 {
          states := states + created;
        }
        r, isLoading, error := created, false, None;
    }

    /** `upsertState`: the result replaces the first state with its id, or is appended. */
    method UpsertState(outcome: ApiOutcome<Option<State>>) returns (r: Option<State>)
      modifies this
      ensures Settled(outcome, isLoading, error)
      ensures r == ResultOr(outcome, None)
      ensures states == (if r.Some? then Upsert(old(states), StateId, r.value) else old(states))
    {
      match outcome
      case Failed(message) =>
        r, isLoading, error := None, false, Some(message);
      case Succeeded(upserted) =>
        if upserted.Some? {
          var existingIndex := FindIndex(states, StateId, upserted.value.id);
          if existingIndex >= 0 {
            states := states[existingIndex := upserted.value];
          } else {
            states := states + [upserted.value];
          }
        }
        r, isLoading, error := upserted, false, None;
    }

    /** `upsertStates`: the results are upserted one after the other. */
    method UpsertStates(outcome: ApiOutcome<seq<State>>) returns (r: seq<State>)
      modifies this
      ensures Settled(outcome, isLoading, error)
      ensures r == ResultOr(outcome, [])
      ensures states == UpsertAll(old(states), StateId, r)
    {
      match outcome
      case Failed(message) =>
        r, isLoading, error := [], false, Some(message);
      case Succeeded(upserted) =>
        if |upserted| > 0 {
          states := UpsertEach(states, StateId, upserted);
        }
        r, isLoading, error := upserted, false, None;
    }

    /** `updateState`: every state with the result's id is replaced; nothing is added. */
    method UpdateState(outcome: ApiOutcome<Option<State>>) returns (r: Option<State>)
      modifies this
      ensures Settled(outcome, isLoading, error)
      ensures r == ResultOr(outcome, None)
      ensures states == (if r.Some? then ReplaceWhere(old(states), StateId, r.value) else old(states))
    {
      match outcome
      case Failed(message) =>
        r, isLoading, error := None, false, Some(message);
      case Succeeded(updated) =>
        if updated.Some? {
          states := ReplaceWhere(states, StateId, updated.value);
        }
        r, isLoading, error := updated, false, None;
    }

    /** `deleteState`: every state with the id is removed once the backend confirms. */
    method DeleteState(id: string, outcome: ApiOutcome<()>)
      modifies this
      ensures Settled(outcome, isLoading, error)
      ensures states == (if outcome.Succeeded? then WithoutId(old(states), StateId, id) else old(states))
    {
      match outcome
      case Failed(message) =>
        isLoading, error := false, Some(message);
      case Succeeded(_) =>
        states := WithoutId(states, StateId, id);
        isLoading, error := false, None;
    }

    /** `deleteStates`: the listed ids are removed; states whose id is null stay. */
    method DeleteStates(ids: seq<string>, outcome: ApiOutcome<()>)
      modifies this
      ensures Settled(outcome, isLoading, error)
      ensures states == (if outcome.Succeeded? then WithoutIds(old(states), StateId, ids, KeepMissing)
                             else old(states))
    {
      match outcome
      case Failed(message) =>
        isLoading, error := false, Some(message);
      case Succeeded(_) =>
        states := WithoutIds(states, StateId, ids, KeepMissing);
        isLoading, error := false, None;
    }

    /** `refresh`: the fetched states are appended, without removing duplicates. */
    method Refresh(outcome: ApiOutcome<seq<State>>)
      modifies this
      ensures Settled(outcome, isLoading, error)
      ensures states == old(states) + ResultOr(outcome, [])
    {
      match outcome
      case Failed(message) =>
        isLoading, error := false, Some(message);
      case Succeeded(fetched) =>
        states := states + fetched;
        isLoading, error := false, None;
    }

    /** `getState`: the fetched state, or null; the list is untouched. */
    method GetState(outcome: ApiOutcome<Option<State>>) returns (r: Option<State>)
      modifies this
      ensures Settled(outcome, isLoading, error)
      ensures r == ResultOr(outcome, None) && states == old(states)
    {
      r := ResultOr(outcome, None);
      isLoading := false;
      error := if outcome.Failed? then Some(outcome.message) else None;
    }

    /** `getStates`, `getUserStates`, `getAllStates`: the fetched list, or the empty
        list; the cached list is untouched. */
    method GetStates(outcome: ApiOutcome<seq<State>>) returns (r: seq<State>)
      modifies this
      ensures Settled(outcome, isLoading, error)
      ensures r == ResultOr(outcome, []) && states == old(states)
    {
      r := ResultOr(outcome, []);
      isLoading := false;
      error := if outcome.Failed? then Some(outcome.message) else None;
    }

    /** `setLoading`. */
    method SetLoading(loading: bool)
      modifies this
      ensures isLoading == loading && states == old(states) && error == old(error)
    {
      isLoading := loading;
    }

    /** `setError`. */
    method SetError(message: Option<string>)
      modifies this
      ensures error == message && states == old(states) && isLoading == old(isLoading)
    {
      error := message;
    }

    /** `reset`: back to the initial state. */
    method Reset()
      modifies this
      ensures states == [] && !isLoading && error == None
    {
      states, isLoading, error := [], false, None;
    }
  }
}
