/** The reflection grid: timeslices bucketed by local date and by half-hour slot of the day.

    Turning a start time into its local date key and local clock time depends on the time zone
    and the locale, so it is the parameter `local`; it answers `None` for a start time that
    does not parse, for which the platform's date key is "Invalid Date" and its time key
    "NaN:NaN". */
module ReflectionGrid {
  import opened Common
  import opened Models
  import opened JsText

  type Hour = h: int | 0 <= h < 24
  type Minute = m: int | 0 <= m < 60

  /** A start time read in the local time zone. */
  datatype LocalStamp = LocalStamp(date: string, hour: Hour, minute: Minute)

  type Grid = map<string, map<string, Option<Timeslice>>>

  const InvalidDate := "Invalid Date"
  const InvalidTime := "NaN:NaN"
  const SlotsPerDay := 48

  /** `HH:MM`, both parts padded to two digits. */
  function TimeKey(hour: Hour, minute: Minute): (r: string)
    ensures |r| == 5 && r[2] == ':'
  {
    Pad2(hour) + ":" + Pad2(minute)
  }

  /** The key of slot `i`: its hour and 0 or 30 minutes. */
  function SlotKey(i: int): string
    requires 0 <= i < SlotsPerDay
  {
    TimeKey(i / 2, (i % 2) * 30)
  }

  /** The 48 keys "00:00", "00:30", ..., "23:30", in order. */
  function TimeKeys(): (r: seq<string>)
    ensures |r| == SlotsPerDay
  {
    seq(SlotsPerDay, i requires 0 <= i < SlotsPerDay => SlotKey(i))
  }

  lemma TimeKeyParts(hour: Hour, minute: Minute)
    ensures TimeKey(hour, minute)[..2] == Pad2(hour)
    ensures TimeKey(hour, minute)[3..] == Pad2(minute)
  {
  }

  /** Different clock times have different keys. */
  lemma TimeKeyInjective(h1: Hour, m1: Minute, h2: Hour, m2: Minute)
    requires TimeKey(h1, m1) == TimeKey(h2, m2)
    ensures h1 == h2 && m1 == m2
  {
    TimeKeyParts(h1, m1);
    TimeKeyParts(h2, m2);
    assert DecimalValue(Pad2(h1)) == DecimalValue(Pad2(h2));
    assert DecimalValue(Pad2(m1)) == DecimalValue(Pad2(m2));
  }

  /** The 48 keys are pairwise different, and the key of an unparsable time is none of them. */
  lemma TimeKeysDistinct()
    ensures Distinct(TimeKeys())
    ensures InvalidTime !in TimeKeys()
  {
    var keys := TimeKeys();
    forall i, j | 0 <= i < j < |keys| ensures keys[i] != keys[j] {
      if keys[i] == keys[j] {
        TimeKeyInjective(i / 2, (i % 2) * 30, j / 2, (j % 2) * 30);
      }
    }
    forall i | 0 <= i < |keys| ensures keys[i] != InvalidTime {
      var p := Pad2(i / 2);
      TimeKeyParts(i / 2, (i % 2) * 30);
      assert keys[i][0] == p[0];
      assert IsDigit(p[0]);
    }
  }

  /** Slot `hour * 2 + half` is the one keyed by the hour and `half * 30` minutes. */
  lemma SlotKeyAt(hour: Hour, half: int)
    requires half == 0 || half == 1
    ensures 0 <= hour * 2 + half < SlotsPerDay
    ensures TimeKeys()[hour * 2 + half] == TimeKey(hour, half * 30)
  {
    var i := hour * 2 + half;
    assert i / 2 == hour && i % 2 == half;
  }

  /** Every clock time falls in the slot of its hour and its half hour. */
  lemma SlotOfClock(hour: Hour, minute: Minute)
    ensures TimeKey(hour, minute / 30 * 30) in TimeKeys()
  {
    var half := minute / 30;
    assert half == 0 || half == 1;
    SlotKeyAt(hour, half);
  }

  /** The loop that pre-generates the keys. */
  method GenerateTimeKeys() returns (timeKeys: seq<string>)
    ensures timeKeys == TimeKeys()
  {
    timeKeys := [];
    for hour := 0 to 24
      invariant timeKeys == TimeKeys()[..hour * 2]
    {
      var minute := 0;
      while minute < 60
        invariant minute == 0 || minute == 30 || minute == 60
        invariant timeKeys == TimeKeys()[..hour * 2 + minute / 30]
      {
        SlotKeyAt(hour, minute / 30);
        PrefixSnoc(TimeKeys(), hour * 2 + minute / 30);
        timeKeys := timeKeys + [TimeKey(hour, minute)];
        minute := minute + 30;
      }
    }
  }

  predicate HasStart(t: Timeslice) { t.startTime.Some? }

  function DateKeyOf(t: Timeslice, local: string -> Option<LocalStamp>): string
    requires HasStart(t)
  {
    match local(t.startTime.value)
    case None => InvalidDate
    case Some(s) => s.date
  }

  /** The key of the slot a timeslice starts in: its local hour, minutes rounded down to 0 or
      30. */
  function TimeKeyOf(t: Timeslice, local: string -> Option<LocalStamp>): string
    requires HasStart(t)
  {
    match local(t.startTime.value)
    case None => InvalidTime
    case Some(s) => TimeKey(s.hour, s.minute / 30 * 30)
  }

  predicate InCell(t: Timeslice, d: string, k: string, local: string -> Option<LocalStamp>) {
    HasStart(t) && DateKeyOf(t, local) == d && TimeKeyOf(t, local) == k
  }

  /** The dates that get a row. */
  function DateKeys(valid: seq<Timeslice>, local: string -> Option<LocalStamp>): set<string> {
    set t | t in valid && HasStart(t) :: DateKeyOf(t, local)
  }

  /** The timeslice a cell ends up holding: the last one in the cell, or null. */
  function LastIn(valid: seq<Timeslice>, d: string, k: string, local: string -> Option<LocalStamp>): Option<Timeslice>
    decreases |valid|
  {
    if valid == [] then None
    else if InCell(valid[|valid| - 1], d, k, local) then Some(valid[|valid| - 1])
    else LastIn(valid[..|valid| - 1], d, k, local)
  }

  /** The row of date `d` after the timeslices `placed` have been put in their cells. */
  function Row(placed: seq<Timeslice>, d: string, keys: seq<string>, local: string -> Option<LocalStamp>): map<string, Option<Timeslice>> {
    map k | k in keys :: LastIn(placed, d, k, local)
  }

  /** The grid after the timeslices `placed` have been put in their cells, over the rows
      `dates`. */
  function Fill(placed: seq<Timeslice>, dates: set<string>, keys: seq<string>, local: string -> Option<LocalStamp>): Grid {
    map d | d in dates :: Row(placed, d, keys, local)
  }

  /** What `timeslicesParser` returns. */
  function Parsed(timeslices: seq<Timeslice>, local: string -> Option<LocalStamp>): Grid {
    var valid := Filter(timeslices, HasStart);
    if valid == [] then map[] else Fill(valid, DateKeys(valid, local), TimeKeys(), local)
  }

  /** Putting one more timeslice in a row overwrites its cell, if the row has it, and nothing
      else. */
  lemma RowPush(placed: seq<Timeslice>, t: Timeslice, d: string, keys: seq<string>, local: string -> Option<LocalStamp>)
    requires HasStart(t)
    ensures var row, k := Row(placed, d, keys, local), TimeKeyOf(t, local);
            Row(placed + [t], d, keys, local)
              == if d == DateKeyOf(t, local) && k in row then row[k := Some(t)] else row
  {
    var after := placed + [t];
    assert after[..|after| - 1] == placed;
    assert after[|after| - 1] == t;
  }

  /** Putting one more timeslice in the grid overwrites its cell and nothing else. */
  lemma FillPush(placed: seq<Timeslice>, t: Timeslice, dates: set<string>, keys: seq<string>, local: string -> Option<LocalStamp>)
    requires HasStart(t)
    ensures var g := Fill(placed, dates, keys, local);
            var d, k := DateKeyOf(t, local), TimeKeyOf(t, local);
            Fill(placed + [t], dates, keys, local)
              == if d in g && k in g[d] then g[d := g[d][k := Some(t)]] else g
  {
    var g, g2 := Fill(placed, dates, keys, local), Fill(placed + [t], dates, keys, local);
    var d, k := DateKeyOf(t, local), TimeKeyOf(t, local);
    if d in g && k in g[d] {
      var h := g[d := g[d][k := Some(t)]];
      forall d' | d' in dates ensures g2[d'] == h[d'] {
        RowPush(placed, t, d', keys, local);
      }
      assert g2 == h;
    } else {
      forall d' | d' in dates ensures g2[d'] == g[d'] {
        RowPush(placed, t, d', keys, local);
      }
      assert g2 == g;
    }
  }

  /** Adding a row to the grid before any timeslice is placed gives it a null cell per key. */
  lemma FillAddRow(dates: set<string>, d: string, keys: seq<string>, local: string -> Option<LocalStamp>)
    ensures Fill([], dates + {d}, keys, local) == Fill([], dates, keys, local)[d := map k | k in keys :: None]
  {
    var g, g2 := Fill([], dates, keys, local), Fill([], dates + {d}, keys, local);
    var h := g[d := map k | k in keys :: None];
    assert g2.Keys == h.Keys;
    forall d' | d' in dates + {d} ensures g2[d'] == h[d'] {
      assert Row([], d', keys, local) == map k | k in keys :: None;
    }
    assert g2 == h;
  }

  /** `timeslicesParser`. */
  method TimeslicesParser(timeslices: seq<Timeslice>, local: string -> Option<LocalStamp>) returns (result: Grid)
    ensures result == Parsed(timeslices, local)
  {
    var validTimeslices := Filter(timeslices, HasStart);
    if |validTimeslices| == 0 {
      return map[];
    }
    var dates := DateKeys(validTimeslices, local);
    var timeKeys := GenerateTimeKeys();
    result := NullRows(dates, timeKeys, local);
    FilterSatisfies(timeslices, HasStart);
    result := PlaceAll(validTimeslices, dates, timeKeys, local, result);
  }

  /** The loop over the dates: one row of null cells per date. */
  method NullRows(dates: set<string>, timeKeys: seq<string>, local: string -> Option<LocalStamp>) returns (result: Grid)
    ensures result == Fill([], dates, timeKeys, local)
  {
    result := map[];
    var remaining := dates;
    while remaining != {}
      invariant remaining <= dates
      invariant result == Fill([], dates - remaining, timeKeys, local)
      decreases |remaining|
    {
      var date :| date in remaining;
      var row := NullRow(timeKeys);
      FillAddRow(dates - remaining, date, timeKeys, local);
      assert dates - (remaining - {date}) == (dates - remaining) + {date};
      result := result[date := row];
      remaining := remaining - {date};
    }
    assert dates - remaining == dates;
  }

  /** The loop that puts each timeslice in its cell, a later one over an earlier one. */
  method PlaceAll(validTimeslices: seq<Timeslice>, dates: set<string>, timeKeys: seq<string>,
                  local: string -> Option<LocalStamp>, blank: Grid) returns (result: Grid)
    requires forall i :: 0 <= i < |validTimeslices| ==> HasStart(validTimeslices[i])
    requires blank == Fill([], dates, timeKeys, local)
    ensures result == Fill(validTimeslices, dates, timeKeys, local)
  {
    result := blank;
    for i := 0 to |validTimeslices|
      invariant result == Fill(validTimeslices[..i], dates, timeKeys, local)
    {
      var timeslice := validTimeslices[i];
      FillPush(validTimeslices[..i], timeslice, dates, timeKeys, local);
      var dateKey := DateKeyOf(timeslice, local);
      var timeKey := TimeKeyOf(timeslice, local);
      if dateKey in result && timeKey in result[dateKey] {
        result := result[dateKey := result[dateKey][timeKey := Some(timeslice)]];
      }
      assert validTimeslices[..i + 1] == validTimeslices[..i] + [timeslice];
    }
    assert validTimeslices[..|validTimeslices|] == validTimeslices;
  }

  /** The inner loop that gives a new row a null cell per time key. */
  method NullRow(timeKeys: seq<string>) returns (row: map<string, Option<Timeslice>>)
    ensures row == map k | k in timeKeys :: None
  {
    row := map[];
    for i := 0 to |timeKeys|
      invariant row == map k | k in timeKeys[..i] :: None
    {
      assert timeKeys[..i + 1] == timeKeys[..i] + [timeKeys[i]];
      row := row[timeKeys[i] := None];
    }
    assert timeKeys[..|timeKeys|] == timeKeys;
  }

  // ---------------------------------------------------------------------------------------------
  // What the grid holds

  /** The grid is empty exactly when no timeslice has a start time. */
  lemma EmptyIffNoStart(timeslices: seq<Timeslice>, local: string -> Option<LocalStamp>)
    ensures Parsed(timeslices, local) == map[] <==> forall t :: t in timeslices ==> !HasStart(t)
  {
    var valid := Filter(timeslices, HasStart);
    if exists t :: t in timeslices && HasStart(t) {
      var t :| t in timeslices && HasStart(t);
      FilterMember(timeslices, HasStart, t);
      assert DateKeyOf(t, local) in DateKeys(valid, local);
      assert DateKeyOf(t, local) in Parsed(timeslices, local);
    } else if valid != [] {
      FilterMember(timeslices, HasStart, valid[0]);
    }
  }

  /** The rows are the local dates of the timeslices with a start time, and every row has
      exactly the 48 distinct half-hour keys. */
  lemma GridShape(timeslices: seq<Timeslice>, local: string -> Option<LocalStamp>)
    ensures Parsed(timeslices, local).Keys
         == set t | t in timeslices && HasStart(t) :: DateKeyOf(t, local)
    ensures forall d :: d in Parsed(timeslices, local) ==>
              Parsed(timeslices, local)[d].Keys == set k | k in TimeKeys()
    ensures Distinct(TimeKeys()) && |TimeKeys()| == SlotsPerDay
  {
    TimeKeysDistinct();
    var valid := Filter(timeslices, HasStart);
    forall t ensures t in valid <==> t in timeslices && HasStart(t) {
      FilterMember(timeslices, HasStart, t);
    }
    EmptyIffNoStart(timeslices, local);
  }

  /** A cell holds the last timeslice, in the order given, that starts in it; a cell no
      timeslice starts in is null. */
  lemma {:induction false} LastInIsLast(placed: seq<Timeslice>, d: string, k: string, local: string -> Option<LocalStamp>)
    ensures LastIn(placed, d, k, local).None? <==> forall t :: t in placed ==> !InCell(t, d, k, local)
    ensures LastIn(placed, d, k, local).Some? ==>
              exists i :: 0 <= i < |placed| && placed[i] == LastIn(placed, d, k, local).value
                          && InCell(placed[i], d, k, local)
                          && forall j :: i < j < |placed| ==> !InCell(placed[j], d, k, local)
    decreases |placed|
  {
    if placed != [] {
      var front := placed[..|placed| - 1];
      var last := placed[|placed| - 1];
      LastInIsLast(front, d, k, local);
      assert placed == front + [last];
      if InCell(last, d, k, local) {
        assert placed[|placed| - 1] == LastIn(placed, d, k, local).value;
      } else if LastIn(front, d, k, local).Some? {
        var i :| 0 <= i < |front| && front[i] == LastIn(front, d, k, local).value
                 && InCell(front[i], d, k, local)
                 && forall j :: i < j < |front| ==> !InCell(front[j], d, k, local);
        assert placed[i] == front[i];
        assert forall j :: i < j < |placed| ==> !InCell(placed[j], d, k, local) by {
          forall j | i < j < |placed| ensures !InCell(placed[j], d, k, local) {
            if j < |front| { assert placed[j] == front[j]; }
          }
        }
      }
    }
  }

  /** A timeslice whose start time parses always has a cell in its date's row. */
  lemma EveryParsedStartHasACell(timeslices: seq<Timeslice>, t: Timeslice, local: string -> Option<LocalStamp>)
    requires t in timeslices && HasStart(t) && local(t.startTime.value).Some?
    ensures DateKeyOf(t, local) in Parsed(timeslices, local)
    ensures TimeKeyOf(t, local) in Parsed(timeslices, local)[DateKeyOf(t, local)]
    ensures Parsed(timeslices, local)[DateKeyOf(t, local)][TimeKeyOf(t, local)].Some?
  {
    var s := local(t.startTime.value).value;
    var valid := Filter(timeslices, HasStart);
    FilterMember(timeslices, HasStart, t);
    assert DateKeyOf(t, local) in DateKeys(valid, local);
    SlotOfClock(s.hour, s.minute);
    LastInIsLast(valid, DateKeyOf(t, local), TimeKeyOf(t, local), local);
  }

  /** A timeslice whose start time does not parse gives the "Invalid Date" row but no cell. */
  lemma UnparsedStartHasNoCell(timeslices: seq<Timeslice>, t: Timeslice, local: string -> Option<LocalStamp>)
    requires t in timeslices && HasStart(t) && local(t.startTime.value).None?
    ensures InvalidDate in Parsed(timeslices, local)
    ensures forall k :: k in Parsed(timeslices, local)[InvalidDate] ==>
              Parsed(timeslices, local)[InvalidDate][k] != Some(t)
  {
    var valid := Filter(timeslices, HasStart);
    FilterMember(timeslices, HasStart, t);
    assert DateKeyOf(t, local) in DateKeys(valid, local);
    TimeKeysDistinct();
    forall k | k in Parsed(timeslices, local)[InvalidDate]
      ensures Parsed(timeslices, local)[InvalidDate][k] != Some(t)
    {
      LastInIsLast(valid, InvalidDate, k, local);
    }
  }
}
