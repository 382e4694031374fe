/** The timeline's queue of timeslices waiting for an activity: new empty timeslices and existing
    ones awaiting an update. Each list holds at most one entry per start time. */
module PendingTimeslices {
  import opened Common
  import opened Models

  /** No two entries share a start time. */
  predicate DistinctStarts(s: seq<Timeslice>) {
    forall i, j :: 0 <= i < j < |s| ==> s[i].startTime != s[j].startTime
  }

  /** `s.some(p => p.start_time === start)`. */
  predicate HasStart(s: seq<Timeslice>, start: Option<string>) {
    exists i :: 0 <= i < |s| && s[i].startTime == start
  }

  /** The add rule: append unless an entry with the same start time is pending. */
  function AddIfNew(s: seq<Timeslice>, timeslice: Timeslice): (r: seq<Timeslice>)
    ensures HasStart(r, timeslice.startTime)
    ensures HasStart(s, timeslice.startTime) ==> r == s
    ensures !HasStart(s, timeslice.startTime) ==> r == s + [timeslice]
  {
    if HasStart(s, timeslice.startTime) then s
    else
      assert (s + [timeslice])[|s|] == timeslice;
      s + [timeslice]
  }

  function StartIsNot(start: Option<string>): Timeslice -> bool {
    (t: Timeslice) => t.startTime != start
  }

  /** The remove rule: `s.filter(p => p.start_time !== start)`. */
  function WithoutStart(s: seq<Timeslice>, start: Option<string>): seq<Timeslice> {
    Filter(s, StartIsNot(start))
  }

  /** Adding keeps the start times distinct. */
  lemma AddKeepsDistinct(s: seq<Timeslice>, timeslice: Timeslice)
    requires DistinctStarts(s)
    ensures DistinctStarts(AddIfNew(s, timeslice))
  {
    if !HasStart(s, timeslice.startTime) {
      var r := s + [timeslice];
      forall i, j | 0 <= i < j < |r| ensures r[i].startTime != r[j].startTime {
        if j == |s| {
          assert r[i] == s[i];
        } else {
          assert r[i] == s[i] && r[j] == s[j];
        }
      }
    }
  }

  /** Removal drops every entry with the start time, keeps the others, and keeps the start times
      distinct. */
  lemma {:induction false} RemoveFacts(s: seq<Timeslice>, start: Option<string>)
    ensures !HasStart(WithoutStart(s, start), start)
    ensures forall t :: t in WithoutStart(s, start) <==> t in s && t.startTime != start
    ensures DistinctStarts(s) ==> DistinctStarts(WithoutStart(s, start))
  {
    var r := WithoutStart(s, start);
    forall t ensures t in r <==> t in s && t.startTime != start {
      FilterMember(s, StartIsNot(start), t);
    }
    FilterSatisfies(s, StartIsNot(start));
    if DistinctStarts(s) {
      FilterKeepsDistinct(s, StartIsNot(start));
    }
  }

  lemma {:induction false} FilterKeepsDistinct(s: seq<Timeslice>, p: Timeslice -> bool)
    requires DistinctStarts(s)
    ensures DistinctStarts(Filter(s, p))
  {
    if s != [] {
      var rest := s[1..];
      assert DistinctStarts(rest) by {
        forall i, j | 0 <= i < j < |rest| ensures rest[i].startTime != rest[j].startTime {
          assert rest[i] == s[i + 1] && rest[j] == s[j + 1];
        }
      }
      FilterKeepsDistinct(rest, p);
      var fr := Filter(rest, p);
      if p(s[0]) {
        forall b | b in fr ensures b.startTime != s[0].startTime {
          FilterMember(rest, p, b);
          var k :| 0 <= k < |rest| && rest[k] == b;
          assert s[k + 1] == b;
        }
        var r := [s[0]] + fr;
        forall i, j | 0 <= i < j < |r| ensures r[i].startTime != r[j].startTime {
          assert r[j] == fr[j - 1];
          assert fr[j - 1] in fr;
          if i > 0 { assert r[i] == fr[i - 1]; }
        }
      }
    }
  }

  /** Adding a timeslice whose start time is not pending and removing it again restores the list. */
  lemma AddThenRemove(s: seq<Timeslice>, timeslice: Timeslice)
    requires !HasStart(s, timeslice.startTime)
    ensures WithoutStart(AddIfNew(s, timeslice), timeslice.startTime) == s
  {
    var p := StartIsNot(timeslice.startTime);
    forall t | t in s ensures p(t) {
      var i :| 0 <= i < |s| && s[i] == t;
    }
    FilterAll(s, p);
    FilterAppend(s, [timeslice], p);
    assert Filter([timeslice], p) == [];
  }

  class PendingTimeslicesStore {
    /** Empty timeslices waiting for an activity. */
    var pendingTimeslices: seq<Timeslice>
    /** Existing timeslices waiting for an activity update. */
    var pendingUpdates: seq<Timeslice>

    predicate Valid()
      reads this
    {
      DistinctStarts(pendingTimeslices) && DistinctStarts(pendingUpdates)
    }

    constructor()
      ensures Valid() && pendingTimeslices == [] && pendingUpdates == []
    {
      pendingTimeslices := [];
      pendingUpdates := [];
    }

    /** `addPendingTimeslice`. */
    method AddPendingTimeslice(timeslice: Timeslice)
      requires Valid()
      modifies this
      ensures Valid()
      ensures pendingTimeslices == AddIfNew(old(pendingTimeslices), timeslice)
      ensures pendingUpdates == old(pendingUpdates)
    {
      AddKeepsDistinct(pendingTimeslices, timeslice);
      if !HasStart(pendingTimeslices, timeslice.startTime) {
        pendingTimeslices := pendingTimeslices + [timeslice];
      }
    }

    /** `addPendingUpdate`. */
    method AddPendingUpdate(timeslice: Timeslice)
      requires Valid()
      modifies this
      ensures Valid()
      ensures pendingUpdates == AddIfNew(old(pendingUpdates), timeslice)
      ensures pendingTimeslices == old(pendingTimeslices)
    {
      AddKeepsDistinct(pendingUpdates, timeslice);
      if !HasStart(pendingUpdates, timeslice.startTime) {
        pendingUpdates := pendingUpdates + [timeslice];
      }
    }

    /** `removePendingTimeslice`. */
    method RemovePendingTimeslice(timeslice: Timeslice)
      requires Valid()
      modifies this
      ensures Valid()
      ensures pendingTimeslices == WithoutStart(old(pendingTimeslices), timeslice.startTime)
      ensures pendingUpdates == old(pendingUpdates)
    {
      RemoveFacts(pendingTimeslices, timeslice.startTime);
      pendingTimeslices := WithoutStart(pendingTimeslices, timeslice.startTime);
    }

    /** `removePendingUpdate`. */
    method RemovePendingUpdate(timeslice: Timeslice)
      requires Valid()
      modifies this
      ensures Valid()
      ensures pendingUpdates == WithoutStart(old(pendingUpdates), timeslice.startTime)
      ensures pendingTimeslices == old(pendingTimeslices)
    {
      RemoveFacts(pendingUpdates, timeslice.startTime);
      pendingUpdates := WithoutStart(pendingUpdates, timeslice.startTime);
    }

    /** `clearPendingTimeslices`. */
    method ClearPendingTimeslices()
      requires Valid()
      modifies this
      ensures Valid()
      ensures pendingTimeslices == [] && pendingUpdates == old(pendingUpdates)
    {
      pendingTimeslices := [];
    }

    /** `clearPendingUpdates`. */
    method ClearPendingUpdates()
      requires Valid()
      modifies this
      ensures Valid()
      ensures pendingUpdates == [] && pendingTimeslices == old(pendingTimeslices)
    {
      pendingUpdates := [];
    }

    /** `clearAll`. */
    method ClearAll()
      modifies this
      ensures Valid()
      ensures pendingTimeslices == [] && pendingUpdates == []
    {
      pendingTimeslices, pendingUpdates := [], [];
    }

    /** `hasAnyPending`: something waits in either list. */
    method HasAnyPending() returns (r: bool)
      ensures r <==> pendingTimeslices != [] || pendingUpdates != []
    {
      r := |pendingTimeslices| > 0 || |pendingUpdates| > 0;
    }
  }
}
