/** The reflection screen's state: the loaded timeslices and their grid, the dates they were
    loaded for, the selected timeslice's details and the selected grid columns (dates) and rows
    (times). Dates are milliseconds since the epoch; the fetch is a parameter. */
module ReflectionState {
  import opened Common
  import opened Models
  import opened ReflectionGrid

  /** The details panel of a selected timeslice. */
  datatype TimesliceInfo = TimesliceInfo(
    timeslice: Option<Timeslice>, activity: Option<Activity>, noteList: Option<seq<Note>>,
    state: Option<State>, hoursOfActivityInView: Option<real>, hoursOfActivityInDay: Option<real>)

  /** Selecting an unselected entry appends it; selecting a selected one removes every copy. */
  function Toggle(selected: seq<string>, x: string): (r: seq<string>)
    ensures x in r <==> x !in selected
    ensures forall y :: y != x ==> (y in r <==> y in selected)
  {
    if x in selected then
      FilterMember(selected, y => y != x, x);
      forall y ensures y in Filter(selected, y => y != x) <==> y in selected && y != x {
        FilterMember(selected, y => y != x, y);
      }
      Filter(selected, y => y != x)
    else selected + [x]
  }

  /** Toggling an unselected entry twice gives back the same list, in the same order. */
  lemma ToggleTwiceRestores(selected: seq<string>, x: string)
    requires x !in selected
    ensures Toggle(Toggle(selected, x), x) == selected
  {
    var p := (y: string) => y != x;
    FilterAppend(selected, [x], p);
    FilterAll(selected, p);
    assert Filter([x], p) == [];
  }

  /** Toggling a selected entry removes it and keeps the others in order. */
  lemma ToggleRemovesKeepsOrder(selected: seq<string>, x: string)
    requires x in selected
    ensures Toggle(selected, x) == Filter(selected, y => y != x)
    ensures |Toggle(selected, x)| < |selected|
  {
    FilterShrinks(selected, y => y != x, x);
  }

  lemma {:induction false} FilterShrinks(s: seq<string>, p: string -> bool, x: string)
    requires x in s && !p(x)
    ensures |Filter(s, p)| < |s|
  {
    if s[0] != x {
      FilterShrinks(s[1..], p, x);
    }
  }

  class ReflectionStore {
    var timeslices: seq<Timeslice>
    var parsedTimeslices: Grid
    var fromDate: Option<int>
    var toDate: Option<int>
    var selectedTimesliceInfo: Option<TimesliceInfo>
    var selectedColumns: seq<string>
    var selectedRows: seq<string>
    var isLoading: bool
    var error: Option<string>

    predicate Initial()
      reads this
    {
      timeslices == [] && parsedTimeslices == map[] && fromDate == None && toDate == None
      && selectedTimesliceInfo == None && selectedColumns == [] && selectedRows == []
      && !isLoading && error == None
    }

    /** The initial state. */
    constructor()
      ensures Initial()
    {
      timeslices, parsedTimeslices, fromDate, toDate := [], map[], None, None;
      selectedTimesliceInfo, selectedColumns, selectedRows := None, [], [];
      isLoading, error := false, None;
    }

    /** `loadReflectionData`: on success the fetched timeslices, their grid and the two dates
        are stored together; on failure only the error is set. Selections are untouched. */
    method LoadReflectionData(from: int, to: int, outcome: ApiOutcome<seq<Timeslice>>,
                              local: string -> Option<LocalStamp>)
      modifies this
      ensures !isLoading
      ensures outcome.Succeeded? ==>
                timeslices == outcome.data && parsedTimeslices == Parsed(outcome.data, local)
                && fromDate == Some(from) && toDate == Some(to) && error == None
      ensures outcome.Failed? ==>
                timeslices == old(timeslices) && parsedTimeslices == old(parsedTimeslices)
                && fromDate == old(fromDate) && toDate == old(toDate) && error == Some(outcome.message)
      ensures selectedColumns == old(selectedColumns) && selectedRows == old(selectedRows)
      ensures selectedTimesliceInfo == old(selectedTimesliceInfo)
    {
      isLoading, error := true, None;
      match outcome
      case Failed(message) =>
        isLoading, error := false, Some(message);
      case Succeeded(fetched) =>
        var parsed := TimeslicesParser(fetched, local);
        timeslices, parsedTimeslices, fromDate, toDate := fetched, parsed, Some(from), Some(to);
        isLoading, error := false, None;
    }

    /** `refreshReflectionData`: reloads the stored dates, and does nothing when either is
        missing. */
    method RefreshReflectionData(outcome: ApiOutcome<seq<Timeslice>>, local: string -> Option<LocalStamp>)
      modifies this
      ensures old(fromDate).None? || old(toDate).None? ==>
                timeslices == old(timeslices) && parsedTimeslices == old(parsedTimeslices)
                && fromDate == old(fromDate) && toDate == old(toDate)
                && isLoading == old(isLoading) && error == old(error)
      ensures old(fromDate).Some? && old(toDate).Some? && outcome.Succeeded? ==>
                timeslices == outcome.data && parsedTimeslices == Parsed(outcome.data, local)
                && fromDate == old(fromDate) && toDate == old(toDate) && error == None && !isLoading
      ensures old(fromDate).Some? && old(toDate).Some? && outcome.Failed? ==>
                timeslices == old(timeslices) && parsedTimeslices == old(parsedTimeslices)
                && fromDate == old(fromDate) && toDate == old(toDate)
                && error == Some(outcome.message) && !isLoading
      ensures selectedColumns == old(selectedColumns) && selectedRows == old(selectedRows)
      ensures selectedTimesliceInfo == old(selectedTimesliceInfo)
    {
      if fromDate.Some? && toDate.Some? {
        LoadReflectionData(fromDate.value, toDate.value, outcome, local);
      }
    }

    /** `setSelectedColumns`. */
    method SetSelectedColumns(columns: seq<string>)
      modifies this`selectedColumns
      ensures selectedColumns == columns
    {
      selectedColumns := columns;
    }

    /** `setSelectedRows`. */
    method SetSelectedRows(rows: seq<string>)
      modifies this`selectedRows
      ensures selectedRows == rows
    {
      selectedRows := rows;
    }

    /** `toggleColumn`: the rows are untouched. */
    method ToggleColumn(dateString: string)
      modifies this`selectedColumns
      ensures selectedColumns == Toggle(old(selectedColumns), dateString)
    {
      selectedColumns := if dateString in selectedColumns
        then Filter(selectedColumns, d => d != dateString)
        else selectedColumns + [dateString];
    }

    /** `toggleRow`: the columns are untouched. */
    method ToggleRow(timeString: string)
      modifies this`selectedRows
      ensures selectedRows == Toggle(old(selectedRows), timeString)
    {
      selectedRows := if timeString in selectedRows
        then Filter(selectedRows, t => t != timeString)
        else selectedRows + [timeString];
    }

    /** `resetSelectedColumns`: only the given date stays selected. */
    method ResetSelectedColumns(dateString: string)
      modifies this`selectedColumns
      ensures selectedColumns == [dateString]
    {
      selectedColumns := [dateString];
    }

    /** `resetSelectedRows`: only the given time stays selected. */
    method ResetSelectedRows(timeString: string)
      modifies this`selectedRows
      ensures selectedRows == [timeString]
    {
      selectedRows := [timeString];
    }

    /** `setSelectedTimesliceInfo`. */
    method SetSelectedTimesliceInfo(info: Option<TimesliceInfo>)
      modifies this`selectedTimesliceInfo
      ensures selectedTimesliceInfo == info
    {
      selectedTimesliceInfo := info;
    }

    /** `reset`: back to the initial state. */
    method Reset()
      modifies this
      ensures Initial()
    {
      timeslices, parsedTimeslices, fromDate, toDate := [], map[], None, None;
      selectedTimesliceInfo, selectedColumns, selectedRows := None, [], [];
      isLoading, error := false, None;
    }
  }
}
