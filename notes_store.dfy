/** The cached list of the user's notes. Every action is a backend call, whose outcome is a
    parameter here, followed on success by a pure update of the list from `ResourceLists`. */
module NotesResource {
  import opened Common
  import opened Models
  import opened ResourceLists

  function NoteId(n: Note): Option<string> { n.id }

  /** `results.filter(Boolean)`: the notes that were found, in lookup order. */
  function Present(results: seq<Option<Note>>): (r: seq<Note>)
    ensures |r| <= |results|
    ensures forall n :: n in r <==> Some(n) in results
  {
    if results == [] then []
    else
      var rest := Present(results[1..]);
      assert forall o :: o in results <==> o == results[0] || o in results[1..];
      if results[0].Some? then [results[0].value] + rest else rest
  }

  class NotesStore {
    var notes: seq<Note>
    var isLoading: bool
    var error: Option<string>

    /** The initial state: no notes, not loading, no error. */
    constructor()
      ensures notes == [] && !isLoading && error == None
    {
      notes, isLoading, error := [], false, None;
    }

    /** `insertNote`: the created note is appended; a null result or a failed call
        leaves the list as it was. */
    method InsertNote(outcome: ApiOutcome<Option<Note>>) returns (r: Option<Note>)
      modifies this
      ensures Settled(outcome, isLoading, error)
      ensures r == ResultOr(outcome, None)
      ensures notes == (if r.Some? then old(notes) + [r.value] else old(notes))
    {
      match outcome
      case Failed(message) =>
        r, isLoading, error := None, false, Some(message);
      case Succeeded(created) =>
        if created.Some? {
          notes := notes + [created.value];
        }
        r, isLoading, error := created, false, None;
    }

    /** `insertNotes`: the created notes are appended in order. */
    method InsertNotes(outcome: ApiOutcome<seq<Note>>) returns (r: seq<Note>)
      modifies this
      ensures Settled(outcome, isLoading, error)
      ensures r == ResultOr(outcome, [])
      ensures notes == old(notes) + r
    {
      match outcome
      case Failed(message) =>
        r, isLoading, error := [], false, Some(message);
      case Succeeded(created) =>
        if |created| > 0 {
          notes := notes + created;
        }
        r, isLoading, error := created, false, None;
    }

    /** `updateNote`: every note with the result's id is replaced; nothing is added. */
    method UpdateNote(outcome: ApiOutcome<Option<Note>>) returns (r: Option<Note>)
      modifies this
      ensures Settled(outcome, isLoading, error)
      ensures r == ResultOr(outcome, None)
      ensures notes == (if r.Some? then ReplaceWhere(old(notes), NoteId, r.value) else old(notes))
    {
      match outcome
      case Failed(message) =>
        r, isLoading, error := None, false, Some(message);
      case Succeeded(updated) =>
        if updated.Some? {
          notes := ReplaceWhere(notes, NoteId, updated.value);
        }
        r, isLoading, error := updated, false, None;
    }

    /** `updateNotes`: each cached note is replaced by the first returned note with its id;
        nothing is added. */
    method UpdateNotes(outcome: ApiOutcome<Option<seq<Note>>>) returns (r: Option<seq<Note>>)
      modifies this
      ensures Settled(outcome, isLoading, error)
      ensures r == ResultOr(outcome, None)
      ensures notes == (if r.Some? then ReplaceFromBatch(old(notes), NoteId, r.value) else old(notes))
    {
      match outcome
      case Failed(message) =>
        r, isLoading, error := None, false, Some(message);
      case Succeeded(updated) =>
        if updated.Some? && |updated.value| > 0 {
          notes := ReplaceFromBatch(notes, NoteId, updated.value);
        } else if updated.Some? {
          BatchReplaceFacts(notes, NoteId, updated.value);
        }
        r, isLoading, error := updated, false, None;
    }

    /** `deleteNote`: every note with the id is removed once the backend confirms. */
    method DeleteNote(id: string, outcome: ApiOutcome<()>)
      modifies this
      ensures Settled(outcome, isLoading, error)
      ensures notes == (if outcome.Succeeded? then WithoutId(old(notes), NoteId, id) else old(notes))
    {
      match outcome
      case Failed(message) =>
        isLoading, error := false, Some(message);
      case Succeeded(_) =>
        notes := WithoutId(notes, NoteId, id);
        isLoading, error := false, None;
    }

    /** `deleteNotes`: the listed ids are removed, and so is every note whose id is
        null or empty. */
    method DeleteNotes(ids: seq<string>, outcome: ApiOutcome<()>)
      modifies this
      ensures Settled(outcome, isLoading, error)
      ensures notes == (if outcome.Succeeded? then WithoutIds(old(notes), NoteId, ids, DropFalsy)
                             else old(notes))
    {
      match outcome
      case Failed(message) =>
        isLoading, error := false, Some(message);
      case Succeeded(_) =>
        notes := WithoutIds(notes, NoteId, ids, DropFalsy);
        isLoading, error := false, None;
    }

    /** `refresh`: the fetched notes are appended, without removing duplicates. */
    method Refresh(outcome: ApiOutcome<seq<Note>>)
      modifies this
      ensures Settled(outcome, isLoading, error)
      ensures notes == old(notes) + ResultOr(outcome, [])
    {
      match outcome
      case Failed(message) =>
        isLoading, error := false, Some(message);
      case Succeeded(fetched) =>
        notes := notes + fetched;
        isLoading, error := false, None;
    }

    /** `getNote`: the fetched note, or null; the list is untouched. */
    method GetNote(outcome: ApiOutcome<Option<Note>>) returns (r: Option<Note>)
      modifies this
      ensures Settled(outcome, isLoading, error)
      ensures r == ResultOr(outcome, None) && notes == old(notes)
    {
      r := ResultOr(outcome, None);
      isLoading := false;
      error := if outcome.Failed? then Some(outcome.message) else None;
    }

    /** `getNotes`: one lookup per id, all at once; the ids that were not found are dropped. */
    method GetNotes(ids: seq<string>, outcome: ApiOutcome<seq<Option<Note>>>) returns (r: seq<Note>)
      requires outcome.Succeeded? ==> |outcome.data| == |ids|
      modifies this
      ensures Settled(outcome, isLoading, error)
      ensures r == (if outcome.Succeeded? then Present(outcome.data) else []) && notes == old(notes)
      ensures |r| <= |ids|
    {
      match outcome
      case Failed(message) =>
        r, isLoading, error := [], false, Some(message);
      case Succeeded(results) =>
        r := Present(results);
        isLoading, error := false, None;
    }

    /** `getUserNotes`, `getLastXNotes`: the fetched list, or the empty
        list; the cached list is untouched. */
    method GetUserNotes(outcome: ApiOutcome<seq<Note>>) returns (r: seq<Note>)
      modifies this
      ensures Settled(outcome, isLoading, error)
      ensures r == ResultOr(outcome, []) && notes == old(notes)
    {
      r := ResultOr(outcome, []);
      isLoading := false;
      error := if outcome.Failed? then Some(outcome.message) else None;
    }

    /** `setLoading`. */
    method SetLoading(loading: bool)
      modifies this
      ensures isLoading == loading && notes == old(notes) && error == old(error)
    {
      isLoading := loading;
    }

    /** `setError`. */
    method SetError(message: Option<string>)
      modifies this
      ensures error == message && notes == old(notes) && isLoading == old(isLoading)
    {
      error := message;
    }

    /** `reset`: back to the initial state. */
    method Reset()
      modifies this
      ensures notes == [] && !isLoading && error == None
    {
      notes, isLoading, error := [], false, None;
    }
  }
}
