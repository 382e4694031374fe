/** The persisted order of the activity list: saving the enabled and disabled id lists, sorting
    activities by a stored order, moving one enabled activity, changing a status, and removing an
    id from the stored lists.

    The key-value store is the `stored` field of `ActivityOrderStorage`: the order kept under the
    activity-order key, or `None` when the key is absent. Whether a read or a write of the store
    succeeds, and the current time, are parameters. */
module OrderStorage {
  import opened Common
  import opened Models

  datatype ActivityOrder = ActivityOrder(enabled: seq<string>, disabled: seq<string>, lastUpdated: string)

  /** `activity.id` is truthy: present and not empty. */
  predicate HasId(a: Activity) { a.id.Some? && a.id.value != "" }

  predicate IsEnabled(a: Activity) { a.status == Some(Enabled) }
  predicate IsDisabled(a: Activity) { a.status == Some(Disabled) }
  predicate IsOther(a: Activity) { !IsEnabled(a) && !IsDisabled(a) }
  predicate IsNotEnabled(a: Activity) { !IsEnabled(a) }

  /** No two activities share an id. */
  predicate UniqueIds(s: seq<Activity>) {
    forall i, j :: 0 <= i < j < |s| ==> s[i].id != s[j].id
  }

  // ---------------------------------------------------------------------------------------------
  // The order that saveOrder writes

  /** The ids of the activities with the given status and a truthy id, in list order. */
  function IdsWithStatus(activities: seq<Activity>, status: ActivityStatus): (r: seq<string>)
    ensures |r| <= |activities|
    ensures forall id :: id in r <==>
              exists a :: a in activities && a.status == Some(status) && HasId(a) && a.id == Some(id)
  {
    if activities == [] then []
    else
      var a := activities[0];
      var rest := IdsWithStatus(activities[1..], status);
      assert forall b :: b in activities <==> b == a || b in activities[1..];
      if a.status == Some(status) && HasId(a) then [a.id.value] + rest else rest
  }

  /** What `getOrder` yields: the stored order, or the empty default when nothing is stored or
      the read fails. */
  function CurrentOrder(stored: Option<ActivityOrder>, readOk: bool, now: string): ActivityOrder {
    if readOk && stored.Some? then stored.value else ActivityOrder([], [], now)
  }

  /** The order `saveOrder` writes. When preserving, the old disabled ids come first, followed by
      the new ones, each id once (`[...new Set([...old, ...new])]`). */
  function OrderToSave(activities: seq<Activity>, preserveDisabledOrder: bool, current: ActivityOrder,
                       now: string): ActivityOrder
  {
    var disabledIds := IdsWithStatus(activities, Disabled);
    ActivityOrder(
      IdsWithStatus(activities, Enabled),
      if preserveDisabledOrder then Dedup(current.disabled + disabledIds) else disabledIds,
      now)
  }

  /** The saved enabled list is the enabled ids in order; a preserving save keeps every old
      disabled id in its old position at the front and adds the new ones, without duplicates. */
  lemma SaveOrderMerge(activities: seq<Activity>, current: ActivityOrder, now: string)
    ensures var r := OrderToSave(activities, true, current, now);
            && r.enabled == IdsWithStatus(activities, Enabled)
            && Distinct(r.disabled)
            && (forall id :: id in r.disabled <==>
                  id in current.disabled || id in IdsWithStatus(activities, Disabled))
            && (Distinct(current.disabled) ==>
                  |current.disabled| <= |r.disabled| && r.disabled[..|current.disabled|] == current.disabled)
    ensures OrderToSave(activities, false, current, now).disabled == IdsWithStatus(activities, Disabled)
  {
    var old_ := current.disabled;
    var added := IdsWithStatus(activities, Disabled);
    if Distinct(old_) {
      DedupFromAppend(old_, added, {});
      DedupDistinct(old_, {});
    }
  }

  // ---------------------------------------------------------------------------------------------
  // Sorting by a stored order

  /** `pool.find(a => a.id === id)`. */
  function FindById(pool: seq<Activity>, id: string): (r: Option<Activity>)
    ensures r.Some? ==> r.value in pool && r.value.id == Some(id)
    ensures r.None? <==> forall a :: a in pool ==> a.id != Some(id)
  {
    if pool == [] then None
    else if pool[0].id == Some(id) then Some(pool[0])
    else
      assert forall b :: b in pool <==> b == pool[0] || b in pool[1..];
      FindById(pool[1..], id)
  }

  function AsSeq(o: Option<Activity>): seq<Activity> {
    if o.Some? then [o.value] else []
  }

  /** The activities of `pool` found for each id of `ids`, in the order of `ids`. */
  function Picked(ids: seq<string>, pool: seq<Activity>): (r: seq<Activity>)
    ensures |r| <= |ids|
    ensures forall a :: a in r ==> a in pool && a.id.Some? && a.id.value in ids
  {
    if ids == [] then []
    else
      var front := ids[..|ids| - 1];
      assert forall x :: x in front ==> x in ids;
      Picked(front, pool) + AsSeq(FindById(pool, ids[|ids| - 1]))
  }

  /** Keeps the activities with a truthy id that `ids` does not list. */
  function NotListed(ids: seq<string>): Activity -> bool {
    (a: Activity) => HasId(a) && a.id.value !in ids
  }

  /** The activities of `pool` with a truthy id that `ids` does not list, in pool order. */
  function Unlisted(pool: seq<Activity>, ids: seq<string>): seq<Activity> {
    Filter(pool, NotListed(ids))
  }

  /** `sortActivitiesByStoredOrder`. */
  function SortedByStoredOrder(activities: seq<Activity>, storedOrder: Option<ActivityOrder>): seq<Activity> {
    if storedOrder.None? || storedOrder.value.enabled == [] then activities
    else
      var order := storedOrder.value;
      var enabled := Filter(activities, IsEnabled);
      var disabled := Filter(activities, IsDisabled);
      Picked(order.enabled, enabled) + Unlisted(enabled, order.enabled)
      + (if order.disabled != [] then Picked(order.disabled, disabled) + Unlisted(disabled, order.disabled)
         else disabled)
      + Filter(activities, IsOther)
  }

  /** The stored-order part lists, in stored order, exactly the ids that have an activity. */
  lemma {:induction false} PickedFollowsIds(ids: seq<string>, pool: seq<Activity>)
    ensures var present := Filter(ids, (id: string) => FindById(pool, id).Some?);
            |Picked(ids, pool)| == |present|
            && forall k :: 0 <= k < |present| ==> Picked(ids, pool)[k].id == Some(present[k])
  {
    var p := (id: string) => FindById(pool, id).Some?;
    if ids != [] {
      var front := ids[..|ids| - 1];
      var last := ids[|ids| - 1];
      PickedFollowsIds(front, pool);
      assert ids == front + [last];
      FilterAppend(front, [last], p);
      assert Filter([last], p) == (if p(last) then [last] else []) + Filter([], p);
    }
  }

  /** With a stored enabled order, an enabled activity without an id is left out of the result. */
  lemma NullIdEnabledDropped(activities: seq<Activity>, order: ActivityOrder, a: Activity)
    requires order.enabled != []
    requires a in activities && IsEnabled(a) && a.id.None?
    ensures a !in SortedByStoredOrder(activities, Some(order))
  {
    var enabled := Filter(activities, IsEnabled);
    var disabled := Filter(activities, IsDisabled);
    FilterMember(enabled, NotListed(order.enabled), a);
    FilterMember(activities, IsDisabled, a);
    FilterMember(disabled, NotListed(order.disabled), a);
    FilterMember(activities, IsOther, a);
  }

  // Permutation: the lemmas below show that the sort loses and duplicates nothing when ids are
  // unique and truthy and the stored lists have no duplicates.

  function IdIsNot(x: string): Activity -> bool {
    (a: Activity) => a.id != Some(x)
  }

  lemma {:induction false} FilterUniqueIds(s: seq<Activity>, p: Activity -> bool)
    requires UniqueIds(s)
    ensures UniqueIds(Filter(s, p))
  {
    if s != [] {
      var rest := s[1..];
      assert UniqueIds(rest) by {
        forall i, j | 0 <= i < j < |rest| ensures rest[i].id != rest[j].id {
          assert rest[i] == s[i + 1] && rest[j] == s[j + 1];
        }
      }
      FilterUniqueIds(rest, p);
      var fr := Filter(rest, p);
      if p(s[0]) {
        forall b | b in fr ensures b.id != s[0].id {
          FilterMember(rest, p, b);
          var k :| 0 <= k < |rest| && rest[k] == b;
          assert s[k + 1] == b;
        }
        var r := [s[0]] + fr;
        forall i, j | 0 <= i < j < |r| ensures r[i].id != r[j].id {
          assert r[j] == fr[j - 1];
          assert fr[j - 1] in fr;
          if i > 0 { assert r[i] == fr[i - 1]; }
        }
      }
    }
  }

  lemma {:induction false} FilterFilter(s: seq<Activity>, p: Activity -> bool, q: Activity -> bool,
                                        both: Activity -> bool)
    requires forall a :: both(a) == (q(a) && p(a))
    ensures Filter(Filter(s, q), p) == Filter(s, both)
  {
    if s != [] {
      FilterFilter(s[1..], p, q, both);
      var h: seq<Activity> := if q(s[0]) then [s[0]] else [];
      FilterAppend(h, Filter(s[1..], q), p);
      assert Filter(h, p) == (if both(s[0]) then [s[0]] else []) by {
        if q(s[0]) { assert Filter(h, p) == (if p(s[0]) then [s[0]] else []) + Filter([], p); }
      }
    }
  }

  /** Dropping the activities with id `x` does not change what is found for another id. */
  lemma {:induction false} FindIgnoresOtherIds(pool: seq<Activity>, x: string, y: string)
    requires x != y
    ensures FindById(Filter(pool, IdIsNot(x)), y) == FindById(pool, y)
  {
    if pool != [] {
      FindIgnoresOtherIds(pool[1..], x, y);
      var h: seq<Activity> := if IdIsNot(x)(pool[0]) then [pool[0]] else [];
      var tail := Filter(pool[1..], IdIsNot(x));
      assert Filter(pool, IdIsNot(x)) == h + tail;
      if h != [] {
        assert (h + tail)[0] == pool[0];
        assert (h + tail)[1..] == tail;
      } else {
        assert h + tail == tail;
      }
    }
  }

  lemma {:induction false} PickedSamePool(ids: seq<string>, pool: seq<Activity>, pool': seq<Activity>)
    requires forall y :: y in ids ==> FindById(pool, y) == FindById(pool', y)
    ensures Picked(ids, pool) == Picked(ids, pool')
  {
    if ids != [] {
      var front := ids[..|ids| - 1];
      assert forall y :: y in front ==> y in ids;
      assert ids[|ids| - 1] in ids;
      PickedSamePool(front, pool, pool');
    }
  }

  /** With unique ids, the pool splits into the (at most one) activity with id `x` and the rest. */
  lemma {:induction false} SplitOffId(pool: seq<Activity>, x: string)
    requires UniqueIds(pool)
    ensures multiset(pool) == multiset(AsSeq(FindById(pool, x))) + multiset(Filter(pool, IdIsNot(x)))
  {
    if pool != [] {
      var rest := pool[1..];
      assert pool == [pool[0]] + rest;
      UniqueIdsTail(pool);
      if pool[0].id == Some(x) {
        OthersLackId(pool, x);
        FilterAll(rest, IdIsNot(x));
      } else {
        SplitOffId(rest, x);
      }
    }
  }

  lemma UniqueIdsTail(pool: seq<Activity>)
    requires pool != [] && UniqueIds(pool)
    ensures UniqueIds(pool[1..])
  {
    var rest := pool[1..];
    forall i, j | 0 <= i < j < |rest| ensures rest[i].id != rest[j].id {
      assert rest[i] == pool[i + 1] && rest[j] == pool[j + 1];
    }
  }

  /** With unique ids, no activity after the first one shares the first one's id. */
  lemma OthersLackId(pool: seq<Activity>, x: string)
    requires pool != [] && UniqueIds(pool) && pool[0].id == Some(x)
    ensures forall b :: b in pool[1..] ==> IdIsNot(x)(b)
  {
    var rest := pool[1..];
    forall b | b in rest ensures IdIsNot(x)(b) {
      var k :| 0 <= k < |rest| && rest[k] == b;
      assert pool[k + 1] == b;
    }
  }

  /** Finding the ids of `front` ignores the activities with an id `front` does not hold. */
  lemma PickedWithoutId(front: seq<string>, pool: seq<Activity>, x: string)
    requires x !in front
    ensures Picked(front, pool) == Picked(front, Filter(pool, IdIsNot(x)))
  {
    forall y | y in front ensures FindById(pool, y) == FindById(Filter(pool, IdIsNot(x)), y) {
      FindIgnoresOtherIds(pool, x, y);
    }
    PickedSamePool(front, pool, Filter(pool, IdIsNot(x)));
  }

  /** Leaving out one more id equals first dropping that id's activities. */
  lemma UnlistedWithoutId(front: seq<string>, pool: seq<Activity>, x: string)
    ensures Unlisted(pool, front + [x]) == Unlisted(Filter(pool, IdIsNot(x)), front)
  {
    assert forall a :: NotListed(front + [x])(a) == (IdIsNot(x)(a) && NotListed(front)(a));
    FilterFilter(pool, NotListed(front), IdIsNot(x), NotListed(front + [x]));
  }

  /** Dropping the activities with one id keeps ids truthy and unique. */
  lemma WithoutIdKeepsIds(pool: seq<Activity>, x: string)
    requires forall a :: a in pool ==> HasId(a)
    requires UniqueIds(pool)
    ensures forall a :: a in Filter(pool, IdIsNot(x)) ==> HasId(a)
    ensures UniqueIds(Filter(pool, IdIsNot(x)))
  {
    forall a | a in Filter(pool, IdIsNot(x)) ensures HasId(a) {
      FilterMember(pool, IdIsNot(x), a);
    }
    FilterUniqueIds(pool, IdIsNot(x));
  }

  /** The list without its last element has no duplicates and lacks that element. */
  lemma DistinctFront(ids: seq<string>)
    requires ids != [] && Distinct(ids)
    ensures ids[|ids| - 1] !in ids[..|ids| - 1]
    ensures Distinct(ids[..|ids| - 1])
  {
    var front := ids[..|ids| - 1];
    forall k | 0 <= k < |front| ensures front[k] != ids[|ids| - 1] {
      assert front[k] == ids[k];
    }
    forall i, j | 0 <= i < j < |front| ensures front[i] != front[j] {
      assert front[i] == ids[i] && front[j] == ids[j];
    }
  }

  /** The stored-order part and the unlisted part together hold the pool exactly once. */
  lemma {:induction false} PickedAndUnlisted(ids: seq<string>, pool: seq<Activity>)
    requires forall a :: a in pool ==> HasId(a)
    requires UniqueIds(pool)
    requires Distinct(ids)
    ensures multiset(Picked(ids, pool)) + multiset(Unlisted(pool, ids)) == multiset(pool)
  {
    if ids == [] {
      FilterAll(pool, NotListed(ids));
    } else {
      var front := ids[..|ids| - 1];
      var x := ids[|ids| - 1];
      var pool' := Filter(pool, IdIsNot(x));
      DistinctFront(ids);
      PickedWithoutId(front, pool, x);
      assert ids == front + [x];
      UnlistedWithoutId(front, pool, x);
      WithoutIdKeepsIds(pool, x);
      PickedAndUnlisted(front, pool');
      SplitOffId(pool, x);
      assert Picked(ids, pool) == Picked(front, pool') + AsSeq(FindById(pool, x));
    }
  }

  /** Every activity has exactly one of the three status groups. */
  lemma {:induction false} StatusPartition(s: seq<Activity>)
    ensures multiset(Filter(s, IsEnabled)) + multiset(Filter(s, IsDisabled)) + multiset(Filter(s, IsOther))
            == multiset(s)
  {
    if s != [] {
      var a, rest := s[0], s[1..];
      StatusPartition(rest);
      assert s == [a] + rest;
      assert Filter(s, IsEnabled) == (if IsEnabled(a) then [a] else []) + Filter(rest, IsEnabled);
      assert Filter(s, IsDisabled) == (if IsDisabled(a) then [a] else []) + Filter(rest, IsDisabled);
      assert Filter(s, IsOther) == (if IsOther(a) then [a] else []) + Filter(rest, IsOther);
      if IsEnabled(a) {
        assert multiset(Filter(s, IsEnabled)) == multiset{a} + multiset(Filter(rest, IsEnabled));
      } else if IsDisabled(a) {
        assert multiset(Filter(s, IsDisabled)) == multiset{a} + multiset(Filter(rest, IsDisabled));
      } else {
        assert multiset(Filter(s, IsOther)) == multiset{a} + multiset(Filter(rest, IsOther));
      }
    }
  }

  /** With truthy unique ids and duplicate-free stored lists, the sorted list is a permutation of
      the input. */
  lemma SortIsPermutation(activities: seq<Activity>, storedOrder: Option<ActivityOrder>)
    requires forall a :: a in activities ==> HasId(a)
    requires UniqueIds(activities)
    requires storedOrder.Some? ==> Distinct(storedOrder.value.enabled) && Distinct(storedOrder.value.disabled)
    ensures multiset(SortedByStoredOrder(activities, storedOrder)) == multiset(activities)
  {
    if storedOrder.Some? && storedOrder.value.enabled != [] {
      var order := storedOrder.value;
      var enabled := Filter(activities, IsEnabled);
      var disabled := Filter(activities, IsDisabled);
      forall a | a in enabled ensures HasId(a) { FilterMember(activities, IsEnabled, a); }
      forall a | a in disabled ensures HasId(a) { FilterMember(activities, IsDisabled, a); }
      FilterUniqueIds(activities, IsEnabled);
      FilterUniqueIds(activities, IsDisabled);
      PickedAndUnlisted(order.enabled, enabled);
      if order.disabled != [] {
        PickedAndUnlisted(order.disabled, disabled);
      }
      StatusPartition(activities);
    }
  }

  // ---------------------------------------------------------------------------------------------
  // Moving one activity

  /** `splice(from, 1)` followed by `splice(to, 0, item)`. */
  function Move<T>(s: seq<T>, from: nat, to: nat): (r: seq<T>)
    requires from < |s| && to < |s|
    ensures |r| == |s| && r[to] == s[from]
    ensures multiset(r) == multiset(s)
  {
    var rest := s[..from] + s[from + 1..];
    assert s == s[..from] + [s[from]] + s[from + 1..];
    assert multiset(s) == multiset(rest) + multiset{s[from]};
    assert rest == rest[..to] + rest[to..];
    assert multiset(rest[..to] + [s[from]] + rest[to..]) == multiset(rest[..to]) + multiset{s[from]} + multiset(rest[to..]);
    rest[..to] + [s[from]] + rest[to..]
  }

  /** `s` without position `i`. */
  function Without<T>(s: seq<T>, i: nat): (r: seq<T>)
    requires i < |s|
    ensures |r| == |s| - 1
  {
    s[..i] + s[i + 1..]
  }

  /** Moving keeps every other element in its relative order. */
  lemma MoveKeepsOthers<T>(s: seq<T>, from: nat, to: nat)
    requires from < |s| && to < |s|
    ensures Without(Move(s, from, to), to) == Without(s, from)
  {
    var rest := s[..from] + s[from + 1..];
    var r := Move(s, from, to);
    assert r[..to] == rest[..to];
    assert r[to + 1..] == rest[to..];
  }

  /** Moving the element back restores the list. */
  lemma MoveInverse<T>(s: seq<T>, from: nat, to: nat)
    requires from < |s| && to < |s|
    ensures Move(Move(s, from, to), to, from) == s
  {
    var m := Move(s, from, to);
    MoveKeepsOthers(s, from, to);
    var rest := Without(m, to);
    assert Move(m, to, from) == rest[..from] + [s[from]] + rest[from..];
    PutBack(s, from);
  }

  /** Putting an element back where it was taken out restores the list. */
  lemma PutBack<T>(s: seq<T>, i: nat)
    requires i < |s|
    ensures Without(s, i)[..i] + [s[i]] + Without(s, i)[i..] == s
  {
    var rest := Without(s, i);
    assert rest[..i] == s[..i];
    assert rest[i..] == s[i + 1..];
  }

  // ---------------------------------------------------------------------------------------------
  // Status change and removal

  /** The list with the status of every activity whose id is `activityId` replaced. */
  function SetStatus(activities: seq<Activity>, activityId: string, newStatus: ActivityStatus): (r: seq<Activity>)
    ensures |r| == |activities|
  {
    seq(|activities|, i requires 0 <= i < |activities| =>
      if activities[i].id == Some(activityId) then activities[i].(status := Some(newStatus)) else activities[i])
  }

  /** Only the status of the matching activities changes; the activity then shows up among the
      saved ids of its new status. */
  lemma StatusChangeSaved(activities: seq<Activity>, activityId: string, newStatus: ActivityStatus,
                          current: ActivityOrder, now: string)
    requires newStatus != Deleted
    ensures var r := SetStatus(activities, activityId, newStatus);
            forall i :: 0 <= i < |r| ==>
              r[i].(status := activities[i].status) == activities[i]
              && (activities[i].id == Some(activityId) ==> r[i].status == Some(newStatus))
              && (activities[i].id != Some(activityId) ==> r[i] == activities[i])
    ensures activityId != "" && (exists a :: a in activities && a.id == Some(activityId)) ==>
              var saved := OrderToSave(SetStatus(activities, activityId, newStatus), true, current, now);
              if newStatus == Enabled then activityId in saved.enabled else activityId in saved.disabled
  {
    var r := SetStatus(activities, activityId, newStatus);
    if activityId != "" && exists a :: a in activities && a.id == Some(activityId) {
      var a :| a in activities && a.id == Some(activityId);
      var i :| 0 <= i < |activities| && activities[i] == a;
      assert r[i] in r;
      SaveOrderMerge(r, current, now);
    }
  }

  function IsNot(id: string): string -> bool {
    (x: string) => x != id
  }

  /** `ids.filter(x => x !== id)`. */
  function RemoveId(ids: seq<string>, id: string): seq<string> {
    Filter(ids, IsNot(id))
  }

  /** Removal drops exactly `id`, keeps the rest in order, and leaves a list without it as is. */
  lemma RemoveIdFacts(ids: seq<string>, id: string)
    ensures id !in RemoveId(ids, id)
    ensures forall x :: x in RemoveId(ids, id) <==> x in ids && x != id
    ensures id !in ids ==> RemoveId(ids, id) == ids
    ensures RemoveId(RemoveId(ids, id), id) == RemoveId(ids, id)
  {
    forall x ensures x in RemoveId(ids, id) <==> x in ids && x != id {
      FilterMember(ids, IsNot(id), x);
    }
    forall x | x in RemoveId(ids, id) ensures IsNot(id)(x) { }
    FilterAll(RemoveId(ids, id), IsNot(id));
    if id !in ids {
      FilterAll(ids, IsNot(id));
    }
  }

  // ---------------------------------------------------------------------------------------------
  // Loops of the sort

  /** The `forEach` over the stored ids that pushes each activity found. */
  method PickInOrder(ids: seq<string>, pool: seq<Activity>) returns (sorted: seq<Activity>)
    ensures sorted == Picked(ids, pool)
  {
    sorted := [];
    var k := 0;
    while k < |ids|
      invariant 0 <= k <= |ids|
      invariant sorted == Picked(ids[..k], pool)
    {
      var activity := FindById(pool, ids[k]);
      if activity.Some? {
        sorted := sorted + [activity.value];
      }
      assert ids[..k + 1][..k] == ids[..k];
      k := k + 1;
    }
    assert ids[..|ids|] == ids;
  }

  /** The `forEach` over the activities that pushes those with an id the stored list lacks. */
  method CollectUnlisted(pool: seq<Activity>, ids: seq<string>) returns (remaining: seq<Activity>)
    ensures remaining == Unlisted(pool, ids)
  {
    remaining := [];
    var k := 0;
    while k < |pool|
      invariant 0 <= k <= |pool|
      invariant remaining == Filter(pool[..k], NotListed(ids))
    {
      var activity := pool[k];
      assert pool[..k + 1] == pool[..k] + [activity];
      FilterAppend(pool[..k], [activity], NotListed(ids));
      assert Filter([activity], NotListed(ids)) == (if NotListed(ids)(activity) then [activity] else []) + Filter([], NotListed(ids));
      if activity.id.Some? && activity.id.value != "" && activity.id.value !in ids {
        remaining := remaining + [activity];
      }
      k := k + 1;
    }
    assert pool[..|pool|] == pool;
  }

  // ---------------------------------------------------------------------------------------------
  // The storage manager

  class ActivityOrderStorage {
    /** The order under the activity-order key; `None` when the key is absent. */
    var stored: Option<ActivityOrder>

    constructor(initial: Option<ActivityOrder>)
      ensures stored == initial
    {
      stored := initial;
    }

    /** `getOrder`: the stored order or the default; `success` is whether the read worked. */
    method GetOrder(readOk: bool, now: string) returns (success: bool, data: ActivityOrder)
      ensures success == readOk
      ensures readOk && stored.Some? ==> data == stored.value
      ensures !(readOk && stored.Some?) ==> data == ActivityOrder([], [], now)
    {
      success := readOk;
      data := CurrentOrder(stored, readOk, now);
    }

    /** `saveOrder`: writes the enabled ids and the (possibly merged) disabled ids. */
    method SaveOrder(activities: seq<Activity>, preserveDisabledOrder: bool, readOk: bool, writeOk: bool,
                     now: string) returns (ok: bool)
      modifies this
      ensures ok == writeOk
      ensures writeOk ==> stored == Some(OrderToSave(activities, preserveDisabledOrder,
                                                      CurrentOrder(old(stored), readOk, now), now))
      ensures !writeOk ==> stored == old(stored)
    {
      var _, current := GetOrder(readOk, now);
      var orderData := OrderToSave(activities, preserveDisabledOrder, current, now);
      if writeOk {
        stored := Some(orderData);
      }
      ok := writeOk;
    }

    /** `sortActivitiesByStoredOrder`: without a stored enabled order the list is returned as is. */
    method SortActivitiesByStoredOrder(activities: seq<Activity>, storedOrder: Option<ActivityOrder>)
      returns (r: seq<Activity>)
      ensures r == SortedByStoredOrder(activities, storedOrder)
      ensures storedOrder.None? || storedOrder.value.enabled == [] ==> r == activities
    {
      if storedOrder.None? || |storedOrder.value.enabled| == 0 {
        return activities;
      }
      var order := storedOrder.value;
      var enabledActivities := Filter(activities, IsEnabled);
      var disabledActivities := Filter(activities, IsDisabled);
      var otherActivities := Filter(activities, IsOther);
      var sortedEnabled := PickInOrder(order.enabled, enabledActivities);
      var remainingEnabled := CollectUnlisted(enabledActivities, order.enabled);
      var sortedDisabled: seq<Activity> := [];
      var remainingDisabled: seq<Activity> := [];
      if |order.disabled| > 0 {
        sortedDisabled := PickInOrder(order.disabled, disabledActivities);
        remainingDisabled := CollectUnlisted(disabledActivities, order.disabled);
      } else {
        remainingDisabled := disabledActivities;
      }
      r := sortedEnabled + remainingEnabled + sortedDisabled + remainingDisabled + otherActivities;
    }

    /** `reorderActivity`: moves the enabled activity at `fromIndex` to `toIndex`, puts the
        others after the enabled ones, and saves; fails without change on a bad index. */
    method ReorderActivity(currentActivities: seq<Activity>, fromIndex: int, toIndex: int, readOk: bool,
                           writeOk: bool, now: string) returns (success: bool, reordered: Option<seq<Activity>>)
      modifies this
      ensures var enabled := Filter(currentActivities, IsEnabled);
              !(0 <= fromIndex < |enabled| && 0 <= toIndex < |enabled|) ==>
                !success && reordered.None? && stored == old(stored)
      ensures var enabled := Filter(currentActivities, IsEnabled);
              0 <= fromIndex < |enabled| && 0 <= toIndex < |enabled| ==>
                var all := Move(enabled, fromIndex, toIndex) + Filter(currentActivities, IsNotEnabled);
                && success == writeOk
                && reordered == (if writeOk then Some(all) else None)
                && stored == (if writeOk then Some(OrderToSave(all, true, CurrentOrder(old(stored), readOk, now), now))
                              else old(stored))
    {
      var enabledActivities := Filter(currentActivities, IsEnabled);
      if fromIndex < 0 || fromIndex >= |enabledActivities| || toIndex < 0 || toIndex >= |enabledActivities| {
        return false, None;
      }
      var reorderedEnabled := Move(enabledActivities, fromIndex, toIndex);
      var otherActivities := Filter(currentActivities, IsNotEnabled);
      var allReorderedActivities := reorderedEnabled + otherActivities;
      var saved := SaveOrder(allReorderedActivities, true, readOk, writeOk, now);
      success := saved;
      reordered := if saved then Some(allReorderedActivities) else None;
    }

    /** `updateActivityStatus`: changes the status of the matching activity and saves, keeping
        the old disabled order. */
    method UpdateActivityStatus(activities: seq<Activity>, activityId: string, newStatus: ActivityStatus,
                                readOk: bool, writeOk: bool, now: string)
      returns (success: bool, updated: Option<seq<Activity>>)
      requires newStatus != Deleted
      modifies this
      ensures success == writeOk
      ensures updated == (if writeOk then Some(SetStatus(activities, activityId, newStatus)) else None)
      ensures stored == (if writeOk
                         then Some(OrderToSave(SetStatus(activities, activityId, newStatus), true,
                                               CurrentOrder(old(stored), readOk, now), now))
                         else old(stored))
    {
      var updatedActivities := SetStatus(activities, activityId, newStatus);
      var saved := SaveOrder(updatedActivities, true, readOk, writeOk, now);
      success := saved;
      updated := if saved then Some(updatedActivities) else None;
    }

    /** `removeFromOrder`: drops the id from both stored lists; fails when the read fails. */
    method RemoveFromOrder(activityId: string, readOk: bool, writeOk: bool, now: string) returns (ok: bool)
      modifies this
      ensures ok == (readOk && writeOk)
      ensures readOk && writeOk ==>
                var current := CurrentOrder(old(stored), true, now);
                stored == Some(ActivityOrder(RemoveId(current.enabled, activityId),
                                             RemoveId(current.disabled, activityId), now))
      ensures !(readOk && writeOk) ==> stored == old(stored)
    {
      var success, current := GetOrder(readOk, now);
      if !success {
        return false;
      }
      var updatedOrder := ActivityOrder(RemoveId(current.enabled, activityId), RemoveId(current.disabled, activityId), now);
      if writeOk {
        stored := Some(updatedOrder);
      }
      ok := writeOk;
    }

    /** `clearOrder`. */
    method ClearOrder(writeOk: bool) returns (ok: bool)
      modifies this
      ensures ok == writeOk
      ensures stored == (if writeOk then None else old(stored))
    {
      if writeOk {
        stored := None;
      }
      ok := writeOk;
    }

    /** `getOrderStats`: the lengths of the stored lists, zeros when the read fails. */
    method GetOrderStats(readOk: bool, now: string) returns (totalEnabled: nat, totalDisabled: nat,
                                                             lastUpdated: Option<string>)
      ensures !readOk ==> totalEnabled == 0 && totalDisabled == 0 && lastUpdated.None?
      ensures readOk && stored.Some? ==>
                totalEnabled == |stored.value.enabled| && totalDisabled == |stored.value.disabled|
                && lastUpdated == Some(stored.value.lastUpdated)
      ensures readOk && stored.None? ==> totalEnabled == 0 && totalDisabled == 0 && lastUpdated == Some(now)
    {
      var success, data := GetOrder(readOk, now);
      if !success {
        return 0, 0, None;
      }
      totalEnabled, totalDisabled, lastUpdated := |data.enabled|, |data.disabled|, Some(data.lastUpdated);
    }
  }
}
