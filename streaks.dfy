/** The streak calendar of the insights screen: which days of a range had a timeslice with an
    activity, the longest run of such days and the run that reaches the last day that is not in
    the future.

    Days are day numbers (consecutive integers for consecutive local days). The clock is the
    parameter `today`, the local day of a start time is the parameter `dayOf` (`None` for an
    unparsable time), and the range is its first day `startDay` and the milliseconds `spanMs`
    from its start to its end. */
module Streaks {
  import opened Common
  import opened Models
  import opened JsText

  const MsPerDay := 86400000

  /** `Math.ceil(a / d)` for a positive divisor. */
  function CeilDiv(a: int, d: int): (r: int)
    requires d > 0
    ensures (r - 1) * d < a <= r * d
  {
    -((-a) / d)
  }

  /** `Math.max(1, daysDiff + 1)`: the number of calendar cells. */
  function DaysInRange(spanMs: int): (n: nat)
    ensures n >= 1
    ensures n == 1 || (n - 2) * MsPerDay < spanMs <= (n - 1) * MsPerDay
  {
    var daysDiff := CeilDiv(spanMs, MsPerDay);
    if daysDiff + 1 > 1 then daysDiff + 1 else 1
  }

  /** A timeslice marks its day active when it has an activity and a start that is not after
      today. */
  predicate Counted(t: Timeslice, today: int, dayOf: string -> Option<int>) {
    Truthy(t.activityId) && Truthy(t.startTime)
    && dayOf(t.startTime.value).Some? && dayOf(t.startTime.value).value <= today
  }

  function DayOf(t: Timeslice, dayOf: string -> Option<int>): int
    requires t.startTime.Some? && dayOf(t.startTime.value).Some?
  {
    dayOf(t.startTime.value).value
  }

  /** `activeDaysSet`: the days on which a counted timeslice starts. */
  function ActiveSet(timeslices: seq<Timeslice>, today: int, dayOf: string -> Option<int>): set<int> {
    set t | t in timeslices && Counted(t, today, dayOf) :: DayOf(t, dayOf)
  }

  /** `activeDays`: one cell per day of the range, true for an active day that is not in the
      future. */
  function ActiveDays(n: nat, startDay: int, today: int, active: set<int>): (r: seq<bool>)
    ensures |r| == n
  {
    seq(n, i requires 0 <= i < n => startDay + i <= today && startDay + i in active)
  }

  /** The index of the last cell that is not in the future, or -1. */
  function LastNonFuture(n: nat, startDay: int, today: int): (r: int)
    ensures -1 <= r < n
  {
    if today < startDay || n == 0 then -1
    else if today - startDay < n - 1 then today - startDay
    else n - 1
  }

  /** The number of true cells at the end of `a`. */
  function RunAtEnd(a: seq<bool>): (r: nat)
    ensures r <= |a|
    decreases |a|
  {
    if a == [] || !a[|a| - 1] then 0 else 1 + RunAtEnd(a[..|a| - 1])
  }

  /** The longest run of true cells. */
  function LongestRun(a: seq<bool>): (r: nat)
    decreases |a|
  {
    if a == [] then 0
    else
      var front := LongestRun(a[..|a| - 1]);
      if RunAtEnd(a) > front then RunAtEnd(a) else front
  }

  function CountTrue(a: seq<bool>): nat
    decreases |a|
  {
    if a == [] then 0 else CountTrue(a[..|a| - 1]) + (if a[|a| - 1] then 1 else 0)
  }

  predicate AllTrue(a: seq<bool>, i: int, j: int)
    requires 0 <= i <= j <= |a|
  {
    forall k :: i <= k < j ==> a[k]
  }

  /** `a` holds a block of `len` true cells starting at `i`. */
  predicate Block(a: seq<bool>, i: int, len: nat) {
    0 <= i && i + len <= |a| && AllTrue(a, i, i + len)
  }

  datatype StreakData = StreakData(currentStreak: nat, longestStreak: nat, activeDays: seq<bool>, startDay: int)

  /** The first loop of `calculateStreakData`: the set of active days. */
  method CollectActiveDays(timeslices: seq<Timeslice>, today: int, dayOf: string -> Option<int>)
    returns (activeDaysSet: set<int>)
    ensures activeDaysSet == ActiveSet(timeslices, today, dayOf)
  {
    activeDaysSet := {};
    for i := 0 to |timeslices|
      invariant activeDaysSet == ActiveSet(timeslices[..i], today, dayOf)
    {
      var ts := timeslices[i];
      ActiveSetPush(timeslices[..i], ts, today, dayOf);
      if Truthy(ts.activityId) && Truthy(ts.startTime) {
        var tsDate := dayOf(ts.startTime.value);
        if tsDate.Some? && tsDate.value <= today {
          activeDaysSet := activeDaysSet + {tsDate.value};
        }
      }
      assert timeslices[..i + 1] == timeslices[..i] + [ts];
    }
    assert timeslices[..|timeslices|] == timeslices;
  }

  /** The last loop of `calculateStreakData`: the true cells counted back from index `last`
      until the first false one. */
  method StreakBackFrom(activeDays: seq<bool>, last: int) returns (currentStreak: nat)
    requires -1 <= last < |activeDays|
    ensures currentStreak == RunAtEnd(activeDays[..last + 1])
  {
    currentStreak := 0;
    var j := last;
    while j >= 0
      invariant -1 <= j <= last
      invariant currentStreak == last - j
      invariant RunAtEnd(activeDays[..last + 1]) == currentStreak + RunAtEnd(activeDays[..j + 1])
      decreases j + 1
    {
      if activeDays[j] {
        assert activeDays[..j + 1][..j] == activeDays[..j];
        currentStreak := currentStreak + 1;
        j := j - 1;
      } else {
        break;
      }
    }
  }

  /** `calculateStreakData`. */
  method CalculateStreakData(timeslices: seq<Timeslice>, spanMs: int, startDay: int, today: int,
                             dayOf: string -> Option<int>) returns (s: StreakData)
    ensures s.activeDays == ActiveDays(DaysInRange(spanMs), startDay, today, ActiveSet(timeslices, today, dayOf))
    ensures s.longestStreak == LongestRun(s.activeDays)
    ensures s.currentStreak == RunAtEnd(s.activeDays[..LastNonFuture(DaysInRange(spanMs), startDay, today) + 1])
    ensures s.startDay == startDay
  {
    var daysInRange := DaysInRange(spanMs);
    var activeDaysSet := CollectActiveDays(timeslices, today, dayOf);

    var activeDays: seq<bool> := [];
    var longestStreak, tempStreak := 0, 0;
    var lastNonFutureIndex := -1;
    for i := 0 to daysInRange
      invariant Scanned(i, startDay, today, activeDaysSet, activeDays, lastNonFutureIndex, longestStreak, tempStreak)
    {
      ScanStep(i, startDay, today, activeDaysSet, activeDays, lastNonFutureIndex, longestStreak, tempStreak);
      var isFuture := startDay + i > today;
      if isFuture {
        activeDays := activeDays + [false];
      } else {
        lastNonFutureIndex := i;
        var isActive := startDay + i in activeDaysSet;
        activeDays := activeDays + [isActive];
        if isActive {
          tempStreak := tempStreak + 1;
          if tempStreak > longestStreak {
            longestStreak := tempStreak;
          }
        } else {
          tempStreak := 0;
        }
      }
    }

    var currentStreak := StreakBackFrom(activeDays, lastNonFutureIndex);
    s := StreakData(currentStreak, longestStreak, activeDays, startDay);
  }

  /** Scanning one more timeslice adds its day exactly when it is counted. */
  lemma ActiveSetPush(prefix: seq<Timeslice>, t: Timeslice, today: int, dayOf: string -> Option<int>)
    ensures ActiveSet(prefix + [t], today, dayOf)
         == ActiveSet(prefix, today, dayOf) + (if Counted(t, today, dayOf) then {DayOf(t, dayOf)} else {})
  {
    var l := ActiveSet(prefix + [t], today, dayOf);
    var rr := ActiveSet(prefix, today, dayOf) + (if Counted(t, today, dayOf) then {DayOf(t, dayOf)} else {});
    forall d | d in l ensures d in rr {
      var u :| u in prefix + [t] && Counted(u, today, dayOf) && DayOf(u, dayOf) == d;
      if u != t { assert u in prefix; }
    }
    forall d | d in rr ensures d in l {
      if d !in ActiveSet(prefix, today, dayOf) {
        assert t in prefix + [t];
      } else {
        var u :| u in prefix && Counted(u, today, dayOf) && DayOf(u, dayOf) == d;
        assert u in prefix + [t];
      }
    }
  }

  /** The state of the calendar loop after the first `i` days. */
  predicate Scanned(i: nat, startDay: int, today: int, active: set<int>, activeDays: seq<bool>,
                    last: int, longest: nat, temp: nat) {
    activeDays == ActiveDays(i, startDay, today, active) &&
    last == LastNonFuture(i, startDay, today) &&
    longest == LongestRun(activeDays) &&
    -1 <= last < |activeDays| + 1 &&
    last + 1 <= |activeDays| &&
    temp == RunAtEnd(activeDays[..last + 1])
  }

  /** One day of the calendar loop keeps its state: a future day pushes a false cell, a past day
      pushes its cell, becomes the last non-future day and extends or ends the running streak. */
  lemma ScanStep(i: nat, startDay: int, today: int, active: set<int>, activeDays: seq<bool>,
                 last: int, longest: nat, temp: nat)
    requires Scanned(i, startDay, today, active, activeDays, last, longest, temp)
    ensures startDay + i > today ==> Scanned(i + 1, startDay, today, active, activeDays + [false], last, longest, temp)
    ensures startDay + i <= today ==>
              var x := startDay + i in active;
              var t := if x then temp + 1 else 0;
              Scanned(i + 1, startDay, today, active, activeDays + [x], i, if t > longest then t else longest, t)
  {
    ActiveDaysPush(i, startDay, today, active);
    LastNonFutureStep(i, startDay, today);
    if startDay + i > today {
      PushFalse(activeDays, last + 1);
    } else {
      PushPast(activeDays, startDay + i in active);
    }
  }

  /** One more day adds the cell of day `startDay + i`. */
  lemma ActiveDaysPush(i: nat, startDay: int, today: int, active: set<int>)
    ensures ActiveDays(i + 1, startDay, today, active)
         == ActiveDays(i, startDay, today, active) + [startDay + i <= today && startDay + i in active]
  {
  }

  /** A future day leaves the last non-future index alone; a past day becomes it, and every
      earlier day was past too. */
  lemma LastNonFutureStep(i: nat, startDay: int, today: int)
    ensures startDay + i > today ==> LastNonFuture(i + 1, startDay, today) == LastNonFuture(i, startDay, today)
    ensures startDay + i <= today ==> LastNonFuture(i, startDay, today) == i - 1 && LastNonFuture(i + 1, startDay, today) == i
  {
  }

  /** Pushing a past cell onto cells that are all past. */
  lemma PushPast(a: seq<bool>, x: bool)
    ensures a[..|a|] == a && (a + [x])[..|a| + 1] == a + [x]
    ensures RunAtEnd(a + [x]) == (if x then RunAtEnd(a) + 1 else 0)
    ensures LongestRun(a + [x]) == (if RunAtEnd(a + [x]) > LongestRun(a) then RunAtEnd(a + [x]) else LongestRun(a))
  {
    PushCell(a, x);
  }

  /** Pushing a future cell adds no run and leaves the prefix up to the last past day alone. */
  lemma PushFalse(a: seq<bool>, m: nat)
    requires m <= |a|
    ensures LongestRun(a + [false]) == LongestRun(a)
    ensures (a + [false])[..m] == a[..m]
  {
    assert (a + [false])[..|a|] == a;
  }

  /** Pushing a cell extends the run at the end or ends it. */
  lemma PushCell(a: seq<bool>, x: bool)
    ensures RunAtEnd(a + [x]) == (if x then RunAtEnd(a) + 1 else 0)
    ensures LongestRun(a + [x]) == (if RunAtEnd(a + [x]) > LongestRun(a) then RunAtEnd(a + [x]) else LongestRun(a))
  {
    assert (a + [x])[..|a|] == a;
  }

  // ---------------------------------------------------------------------------------------------
  // What the streak numbers mean

  /** The run at the end is a block of true cells preceded by a false cell or the start. */
  lemma {:induction false} RunAtEndIsBlock(a: seq<bool>)
    ensures AllTrue(a, |a| - RunAtEnd(a), |a|)
    ensures RunAtEnd(a) < |a| ==> !a[|a| - RunAtEnd(a) - 1]
    decreases |a|
  {
    if a != [] && a[|a| - 1] {
      var front := a[..|a| - 1];
      RunAtEndIsBlock(front);
      assert forall k :: 0 <= k < |front| ==> a[k] == front[k];
    }
  }

  /** A block of true cells reaching the end is within the run at the end. */
  lemma {:induction false} SuffixBlockWithinRun(a: seq<bool>, i: int)
    requires 0 <= i <= |a| && AllTrue(a, i, |a|)
    ensures |a| - i <= RunAtEnd(a)
    decreases |a|
  {
    if i < |a| {
      var front := a[..|a| - 1];
      assert AllTrue(front, i, |front|) by {
        forall k | i <= k < |front| ensures front[k] { assert front[k] == a[k]; }
      }
      SuffixBlockWithinRun(front, i);
    }
  }

  /** Every block of true cells is at most the longest run, and a block of that length exists. */
  lemma {:induction false} LongestRunIsLongest(a: seq<bool>)
    ensures forall i, j :: 0 <= i <= j <= |a| && AllTrue(a, i, j) ==> j - i <= LongestRun(a)
    ensures exists i :: Block(a, i, LongestRun(a))
    decreases |a|
  {
    if a == [] {
      assert Block(a, 0, 0);
    } else {
      var front := a[..|a| - 1];
      LongestRunIsLongest(front);
      RunAtEndIsBlock(a);
      forall i, j | 0 <= i <= j <= |a| && AllTrue(a, i, j) ensures j - i <= LongestRun(a) {
        if j < |a| {
          assert AllTrue(front, i, j) by {
            forall k | i <= k < j ensures front[k] { assert front[k] == a[k]; }
          }
        } else {
          SuffixBlockWithinRun(a, i);
        }
      }
      if RunAtEnd(a) > LongestRun(front) {
        assert Block(a, |a| - RunAtEnd(a), RunAtEnd(a));
      } else {
        var i :| Block(front, i, LongestRun(front));
        assert Block(a, i, LongestRun(a)) by {
          forall k | i <= k < i + LongestRun(a) ensures a[k] { assert a[k] == front[k]; }
        }
      }
    }
  }

  lemma {:induction false} CountTruePrefix(a: seq<bool>, m: nat)
    requires m <= |a|
    ensures CountTrue(a[..m]) <= CountTrue(a)
    decreases |a|
  {
    if m < |a| {
      assert a[..|a| - 1][..m] == a[..m];
      CountTruePrefix(a[..|a| - 1], m);
    } else {
      assert a[..m] == a;
    }
  }

  lemma {:induction false} BlockCounts(a: seq<bool>, i: nat, j: nat)
    requires i <= j <= |a| && AllTrue(a, i, j)
    ensures j - i <= CountTrue(a)
    decreases j
  {
    if i < j {
      var front := a[..j - 1];
      assert a[..j][..j - 1] == front;
      assert AllTrue(front, i, j - 1) by {
        forall k | i <= k < j - 1 ensures front[k] { assert front[k] == a[k]; }
      }
      BlockCounts(front, i, j - 1);
      CountTruePrefix(a, j);
      CountTruePrefix(a, j - 1);
      assert CountTrue(a[..j]) == CountTrue(front) + 1;
    }
  }

  /** In any row of cells, the run ending at a cell is at most the longest run, which is at most
      the number of true cells. */
  lemma RunsBounded(a: seq<bool>, last: int)
    requires -1 <= last < |a|
    ensures RunAtEnd(a[..last + 1]) <= LongestRun(a) <= CountTrue(a)
  {
    var p := a[..last + 1];
    RunAtEndIsBlock(p);
    LongestRunIsLongest(a);
    assert AllTrue(a, |p| - RunAtEnd(p), |p|) by {
      forall k | |p| - RunAtEnd(p) <= k < |p| ensures a[k] { assert a[k] == p[k]; }
    }
    var i :| Block(a, i, LongestRun(a));
    BlockCounts(a, i, i + LongestRun(a));
  }

  /** The current streak is at most the longest streak, which is at most the number of active
      days; future cells are never active; there is at least one cell. */
  lemma StreakBounds(timeslices: seq<Timeslice>, spanMs: int, startDay: int, today: int,
                     dayOf: string -> Option<int>)
    ensures var a := ActiveDays(DaysInRange(spanMs), startDay, today, ActiveSet(timeslices, today, dayOf));
            var last := LastNonFuture(DaysInRange(spanMs), startDay, today);
            && |a| >= 1
            && RunAtEnd(a[..last + 1]) <= LongestRun(a) <= CountTrue(a)
            && (forall i :: 0 <= i < |a| && startDay + i > today ==> !a[i])
  {
    var n := DaysInRange(spanMs);
    RunsBounded(ActiveDays(n, startDay, today, ActiveSet(timeslices, today, dayOf)), LastNonFuture(n, startDay, today));
  }
}
