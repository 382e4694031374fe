/** The in-app notification provider: notifications shown inside the app, kept in a map from id
    to a display record, listed newest first, with a limit on how many are visible at once. */
module InAppNotifications {
  import opened Common

  /** A notification message; only its id matters to the provider. */
  datatype Message = Message(id: string, title: string, body: string)

  /** One shown notification; `timestamp` is the time it was sent, in milliseconds. */
  datatype Display = Display(id: string, message: Message, timestamp: int, isRead: bool, isVisible: bool)

  const DefaultAutoHideDuration := 5000
  const DefaultMaxDisplayed := 3

  /** Every entry is stored under its own id. */
  predicate Keyed(m: map<string, Display>) {
    forall k :: k in m ==> m[k].id == k
  }

  /** The ids a listing returns: all of them, or only the visible ones. */
  function Selected(m: map<string, Display>, onlyVisible: bool): set<string> {
    set k | k in m && (!onlyVisible || m[k].isVisible)
  }

  function VisibleIds(m: map<string, Display>): set<string> {
    Selected(m, true)
  }

  function Ids(s: seq<Display>): set<string> {
    set d | d in s :: d.id
  }

  predicate DistinctIds(s: seq<Display>) {
    forall i, j :: 0 <= i < j < |s| ==> s[i].id != s[j].id
  }

  /** Newest first: `sort((a, b) => b.timestamp - a.timestamp)`. */
  predicate NewestFirst(s: seq<Display>) {
    forall i, j :: 0 <= i < j < |s| ==> s[i].timestamp >= s[j].timestamp
  }

  /** `r` lists the selected entries of `m`, each once and as stored, newest first. */
  predicate Lists(r: seq<Display>, m: map<string, Display>, onlyVisible: bool) {
    NewestFirst(r) && DistinctIds(r) && Ids(r) == Selected(m, onlyVisible) &&
    forall d :: d in r ==> d.id in m && m[d.id] == d
  }

  /** Inserts `d` after every entry at least as new, as a stable sort places a later element. */
  function InsertByTime(s: seq<Display>, d: Display): (r: seq<Display>)
    ensures |r| == |s| + 1
    ensures multiset(r) == multiset(s) + multiset{d}
  {
    if s == [] then [d]
    else if s[0].timestamp >= d.timestamp then
      assert s == [s[0]] + s[1..];
      [s[0]] + InsertByTime(s[1..], d)
    else [d] + s
  }

  /** Insertion adds exactly `d`, keeps the order newest first, and keeps ids distinct when `d`'s
      id is new. */
  lemma InsertByTimeFacts(s: seq<Display>, d: Display)
    requires NewestFirst(s)
    ensures NewestFirst(InsertByTime(s, d))
    ensures DistinctIds(s) && d.id !in Ids(s) ==> DistinctIds(InsertByTime(s, d))
    ensures Ids(InsertByTime(s, d)) == Ids(s) + {d.id}
    ensures forall x :: x in InsertByTime(s, d) <==> x in s || x == d
  {
    InsertMembers(s, d);
    InsertOrder(s, d);
    if DistinctIds(s) && d.id !in Ids(s) {
      InsertDistinct(s, d);
    }
  }

  lemma InsertMembers(s: seq<Display>, d: Display)
    ensures forall x :: x in InsertByTime(s, d) <==> x in s || x == d
    ensures Ids(InsertByTime(s, d)) == Ids(s) + {d.id}
  {
    var r := InsertByTime(s, d);
    forall x ensures x in r <==> x in s || x == d {
      assert x in r <==> x in multiset(r);
      assert x in s <==> x in multiset(s);
    }
  }

  lemma {:induction false} InsertOrder(s: seq<Display>, d: Display)
    requires NewestFirst(s)
    ensures NewestFirst(InsertByTime(s, d))
  {
    if s != [] {
      HeadFacts(s);
      if s[0].timestamp >= d.timestamp {
        InsertOrder(s[1..], d);
        InsertMembers(s[1..], d);
        ConsNewestFirst(s[0], InsertByTime(s[1..], d));
      } else {
        ConsNewestFirst(d, s);
      }
    }
  }

  lemma {:induction false} InsertDistinct(s: seq<Display>, d: Display)
    requires DistinctIds(s) && d.id !in Ids(s)
    ensures DistinctIds(InsertByTime(s, d))
  {
    if s == [] {
    } else if s[0].timestamp >= d.timestamp {
      HeadFacts(s);
      assert s[0] in s;
      InsertDistinct(s[1..], d);
      InsertMembers(s[1..], d);
      ConsDistinct(s[0], InsertByTime(s[1..], d));
    } else {
      ConsDistinct(d, s);
    }
  }

  /** What a non-empty list tells about its first entry and the rest. */
  lemma HeadFacts(s: seq<Display>)
    requires s != []
    ensures forall x :: x in s[1..] ==> x in s
    ensures Ids(s[1..]) <= Ids(s)
    ensures NewestFirst(s) ==> NewestFirst(s[1..]) && forall x :: x in s ==> s[0].timestamp >= x.timestamp
    ensures DistinctIds(s) ==> DistinctIds(s[1..]) && forall x :: x in s[1..] ==> x.id != s[0].id
  {
    var tail := s[1..];
    forall x | x in tail ensures x in s {
      var k :| 0 <= k < |tail| && tail[k] == x;
      assert s[k + 1] == x;
    }
    if NewestFirst(s) {
      forall x | x in s ensures s[0].timestamp >= x.timestamp {
        var k :| 0 <= k < |s| && s[k] == x;
      }
    }
    if DistinctIds(s) {
      forall x | x in tail ensures x.id != s[0].id {
        var k :| 0 <= k < |tail| && tail[k] == x;
        assert s[k + 1] == x;
      }
    }
  }

  lemma ConsNewestFirst(h: Display, rest: seq<Display>)
    requires NewestFirst(rest) && forall x :: x in rest ==> h.timestamp >= x.timestamp
    ensures NewestFirst([h] + rest)
  {
    var r := [h] + rest;
    forall i, j | 0 <= i < j < |r| ensures r[i].timestamp >= r[j].timestamp {
      assert r[j] == rest[j - 1] && rest[j - 1] in rest;
      if i > 0 { assert r[i] == rest[i - 1]; }
    }
  }

  lemma ConsDistinct(h: Display, rest: seq<Display>)
    requires DistinctIds(rest) && forall x :: x in rest ==> x.id != h.id
    ensures DistinctIds([h] + rest)
  {
    var r := [h] + rest;
    forall i, j | 0 <= i < j < |r| ensures r[i].id != r[j].id {
      assert r[j] == rest[j - 1] && rest[j - 1] in rest;
      if i > 0 { assert r[i] == rest[i - 1]; }
    }
  }

  /** A list has no more ids than entries, and exactly as many when its ids are distinct. */
  lemma {:induction false} IdsBound(s: seq<Display>)
    ensures |Ids(s)| <= |s|
    ensures DistinctIds(s) ==> |Ids(s)| == |s|
  {
    if s != [] {
      var init := s[..|s| - 1];
      var last := s[|s| - 1];
      IdsBound(init);
      assert Ids(s) == Ids(init) + {last.id} by {
        assert s == init + [last];
      }
      if DistinctIds(s) {
        InitFacts(s);
      }
    }
  }

  lemma InitFacts(s: seq<Display>)
    requires s != [] && DistinctIds(s)
    ensures DistinctIds(s[..|s| - 1]) && s[|s| - 1].id !in Ids(s[..|s| - 1])
  {
    var init, last := s[..|s| - 1], s[|s| - 1];
    forall i, j | 0 <= i < j < |init| ensures init[i].id != init[j].id {
      assert init[i] == s[i] && init[j] == s[j];
    }
    forall d | d in init ensures d.id != last.id {
      var i :| 0 <= i < |init| && init[i] == d;
      assert s[i] == d;
    }
  }

  /** Collects the selected entries of `m`, newest first (`Array.from(values).filter(...).sort(...)`). */
  method ListEntries(m: map<string, Display>, onlyVisible: bool) returns (r: seq<Display>)
    requires Keyed(m)
    ensures Lists(r, m, onlyVisible)
  {
    r := [];
    var todo := m.Keys;
    while todo != {}
      invariant todo <= m.Keys
      invariant NewestFirst(r) && DistinctIds(r)
      invariant Ids(r) == Selected(m, onlyVisible) - todo
      invariant forall d :: d in r ==> d.id in m && m[d.id] == d
      decreases todo
    {
      var k :| k in todo;
      if !onlyVisible || m[k].isVisible {
        InsertByTimeFacts(r, m[k]);
        r := InsertByTime(r, m[k]);
      }
      todo := todo - {k};
    }
  }

  /** `hideNotification` on a map: the entry becomes invisible, or is dropped when notifications
      are not persisted; an unknown id changes nothing. */
  function Hide(m: map<string, Display>, id: string, persist: bool): (r: map<string, Display>)
    ensures Keyed(m) ==> Keyed(r)
    ensures VisibleIds(r) == VisibleIds(m) - {id}
    ensures forall k :: k in r ==> k in m && (r[k] == m[k] || (k == id && r[k] == m[k].(isVisible := false)))
    ensures persist ==> r.Keys == m.Keys
  {
    if id in m then (if persist then m[id := m[id].(isVisible := false)] else m - {id}) else m
  }

  /** Hides the entries of `ds` one after the other. */
  function HideEach(m: map<string, Display>, ds: seq<Display>, persist: bool): (r: map<string, Display>)
    ensures Keyed(m) ==> Keyed(r)
    ensures VisibleIds(r) == VisibleIds(m) - Ids(ds)
    ensures persist ==> r.Keys == m.Keys
  {
    if ds == [] then m
    else
      var init := ds[..|ds| - 1];
      assert Ids(ds) == Ids(init) + {ds[|ds| - 1].id} by {
        assert ds == init + [ds[|ds| - 1]];
      }
      Hide(HideEach(m, init, persist), ds[|ds| - 1].id, persist)
  }

  /** Hiding changes only visibility (or drops entries), never other fields. */
  lemma {:induction false} HideEachKeeps(m: map<string, Display>, ds: seq<Display>, persist: bool)
    ensures forall k :: k in HideEach(m, ds, persist) ==>
              k in m && HideEach(m, ds, persist)[k].(isVisible := false) == m[k].(isVisible := false)
    ensures forall k :: k in HideEach(m, ds, persist) && k !in Ids(ds) ==> HideEach(m, ds, persist)[k] == m[k]
  {
    if ds != [] {
      var init := ds[..|ds| - 1];
      HideEachKeeps(m, init, persist);
      assert Ids(ds) == Ids(init) + {ds[|ds| - 1].id} by {
        assert ds == init + [ds[|ds| - 1]];
      }
    }
  }

  /** `slice(start)`: a negative start counts from the end. */
  function SliceStart(length: nat, start: int): (r: nat)
    ensures r <= length
    ensures 0 <= start <= length ==> r == start
  {
    if start >= 0 then (if start <= length then start else length)
    else if length + start > 0 then length + start else 0
  }

  /** Hides the visible entries beyond the first `max` of a newest-first listing. */
  method HideBeyond(m: map<string, Display>, listing: seq<Display>, from: nat, persist: bool) returns (r: map<string, Display>)
    requires from <= |listing|
    ensures r == HideEach(m, listing[from..], persist)
  {
    r := m;
    var i := from;
    while i < |listing|
      invariant from <= i <= |listing|
      invariant r == HideEach(m, listing[from..i], persist)
    {
      HideEachStep(m, listing, from, i, persist);
      r := Hide(r, listing[i].id, persist);
      i := i + 1;
    }
    assert listing[from..] == listing[from..|listing|];
  }

  lemma HideEachStep(m: map<string, Display>, listing: seq<Display>, from: nat, i: nat, persist: bool)
    requires from <= i < |listing|
    ensures HideEach(m, listing[from..i + 1], persist) == Hide(HideEach(m, listing[from..i], persist), listing[i].id, persist)
  {
    var ds := listing[from..i + 1];
    assert ds[..|ds| - 1] == listing[from..i] && ds[|ds| - 1] == listing[i];
  }

  /** Splitting a listing with distinct ids splits its ids into two disjoint parts. */
  lemma SplitIds(listing: seq<Display>, at: nat)
    requires DistinctIds(listing) && at <= |listing|
    ensures Ids(listing) == Ids(listing[..at]) + Ids(listing[at..])
    ensures Ids(listing[..at]) !! Ids(listing[at..])
  {
    var kept, dropped := listing[..at], listing[at..];
    assert listing == kept + dropped;
    forall i, j | 0 <= i < |kept| && 0 <= j < |dropped| ensures kept[i].id != dropped[j].id {
      assert listing[i] == kept[i] && listing[at + j] == dropped[j];
    }
    forall x | x in Ids(kept) ensures x !in Ids(dropped) {
      var d :| d in kept && d.id == x;
      var i :| 0 <= i < |kept| && kept[i] == d;
      forall e | e in dropped ensures e.id != x {
        var j :| 0 <= j < |dropped| && dropped[j] == e;
      }
    }
  }

  /** In a newest-first listing, nothing after position `at` is newer than anything before it. */
  lemma SplitOrder(listing: seq<Display>, at: nat)
    requires NewestFirst(listing) && at <= |listing|
    ensures forall x, y :: x in listing[at..] && y in listing[..at] ==> x.timestamp <= y.timestamp
  {
    forall x, y | x in listing[at..] && y in listing[..at] ensures x.timestamp <= y.timestamp {
      var j :| 0 <= j < |listing[at..]| && listing[at..][j] == x;
      var i :| 0 <= i < at && listing[..at][i] == y;
      assert listing[at + j] == x && listing[i] == y;
    }
  }

  /** Hiding everything past position `max` of a newest-first listing of the visible entries
      leaves exactly the first `max` visible. */
  lemma LimitKeepsPrefix(m: map<string, Display>, listing: seq<Display>, max: nat, persist: bool)
    requires Lists(listing, m, true) && max <= |listing|
    ensures VisibleIds(HideEach(m, listing[max..], persist)) == Ids(listing[..max])
    ensures |VisibleIds(HideEach(m, listing[max..], persist))| <= max
  {
    SplitIds(listing, max);
    IdsBound(listing[..max]);
  }

  /** None of the entries hidden by the limit is newer than an entry it keeps. */
  lemma LimitHidesOldest(m: map<string, Display>, listing: seq<Display>, max: nat, persist: bool)
    requires Keyed(m) && Lists(listing, m, true) && max <= |listing|
    ensures forall a, b ::
              (a in VisibleIds(m) - VisibleIds(HideEach(m, listing[max..], persist)) &&
               b in VisibleIds(HideEach(m, listing[max..], persist))) ==> m[a].timestamp <= m[b].timestamp
  {
    var after := HideEach(m, listing[max..], persist);
    LimitKeepsPrefix(m, listing, max, persist);
    SplitOrder(listing, max);
    forall a, b | a in VisibleIds(m) - VisibleIds(after) && b in VisibleIds(after)
      ensures m[a].timestamp <= m[b].timestamp
    {
      var x :| x in listing[max..] && x.id == a;
      var y :| y in listing[..max] && y.id == b;
      assert x in listing && y in listing;
    }
  }

  /** An entry strictly newer than every other visible entry survives a positive limit. */
  lemma LimitKeepsNewest(m: map<string, Display>, listing: seq<Display>, max: nat, persist: bool, d: Display)
    requires Lists(listing, m, true) && 0 < max <= |listing|
    requires d.id in VisibleIds(m) && m[d.id] == d
    requires forall x :: x in VisibleIds(m) && x != d.id ==> m[x].timestamp < d.timestamp
    ensures d.id in VisibleIds(HideEach(m, listing[max..], persist))
  {
    assert d in listing;
    forall x | x in listing && x.id != d.id ensures x.timestamp < d.timestamp {
      assert x.id in Ids(listing);
    }
    NewestComesFirst(listing, d);
    LimitKeepsPrefix(m, listing, max, persist);
    HeadInPrefix(listing, max);
  }

  lemma HeadInPrefix(listing: seq<Display>, max: nat)
    requires 0 < max <= |listing|
    ensures listing[0].id in Ids(listing[..max])
  {
    assert listing[..max][0] == listing[0];
  }

  /** In a newest-first listing with distinct ids, an entry strictly newer than all others comes
      first. */
  lemma NewestComesFirst(listing: seq<Display>, d: Display)
    requires NewestFirst(listing) && DistinctIds(listing) && d in listing
    requires forall x :: x in listing && x.id != d.id ==> x.timestamp < d.timestamp
    ensures listing[0] == d
  {
    var b :| 0 <= b < |listing| && listing[b] == d;
    var head := listing[0];
    assert head in listing;
    assert 0 < b ==> head.timestamp >= d.timestamp;
  }

  /** `after` differs from `before` only in hidden or dropped entries: nothing appears, nothing
      becomes visible, visible entries are unchanged, and with persistence nothing is dropped. */
  predicate OnlyHides(before: map<string, Display>, after: map<string, Display>, persist: bool) {
    VisibleIds(after) <= VisibleIds(before) &&
    (forall k :: k in after ==> k in before && after[k].(isVisible := false) == before[k].(isVisible := false)) &&
    (forall k :: k in VisibleIds(after) ==> after[k] == before[k]) &&
    (persist ==> after.Keys == before.Keys)
  }

  /** With a positive limit `max`: at most `max` entries stay visible, nothing changes when no more
      were visible, no hidden entry is newer than a kept one, and an entry strictly newer than every
      other visible one stays visible. */
  predicate WithinLimit(before: map<string, Display>, after: map<string, Display>, max: int) {
    max > 0 ==>
      |VisibleIds(after)| <= max &&
      (|VisibleIds(before)| <= max ==> after == before) &&
      (forall a, b :: a in VisibleIds(before) - VisibleIds(after) && b in VisibleIds(after) ==>
                     a in before && b in before && before[a].timestamp <= before[b].timestamp) &&
      (forall k :: k in VisibleIds(before) &&
         (forall x :: x in VisibleIds(before) && x != k ==> before[x].timestamp < before[k].timestamp)
         ==> k in VisibleIds(after))
  }

  lemma HideEachOnlyHides(m: map<string, Display>, ds: seq<Display>, persist: bool)
    ensures OnlyHides(m, HideEach(m, ds, persist), persist)
  {
    HideEachKeeps(m, ds, persist);
  }

  /** Hiding past position `max` of a newest-first listing of the visible entries respects the
      limit. */
  lemma HideBeyondWithinLimit(m: map<string, Display>, listing: seq<Display>, max: nat, persist: bool)
    requires Keyed(m) && Lists(listing, m, true) && 0 < max < |listing|
    ensures WithinLimit(m, HideEach(m, listing[max..], persist), max)
  {
    var after := HideEach(m, listing[max..], persist);
    IdsBound(listing);
    LimitKeepsPrefix(m, listing, max, persist);
    LimitHidesOldest(m, listing, max, persist);
    HideEachKeeps(m, listing[max..], persist);
    forall k | k in VisibleIds(m) &&
        (forall x :: x in VisibleIds(m) && x != k ==> m[x].timestamp < m[k].timestamp)
      ensures k in VisibleIds(after)
    {
      LimitKeepsNewest(m, listing, max, persist, m[k]);
    }
  }

  /** `enforceDisplayLimit` on the stored map: with a non-zero limit, lists the visible entries
      newest first and hides those from `slice(max)` on when more than `max` are visible. */
  method LimitDisplay(m: map<string, Display>, max: int, persist: bool) returns (r: map<string, Display>)
    requires Keyed(m)
    ensures Keyed(r)
    ensures OnlyHides(m, r, persist)
    ensures max == 0 ==> r == m
    ensures WithinLimit(m, r, max)
  {
    r := m;
    HideEachOnlyHides(m, [], persist);
    if max == 0 {
      return;
    }
    var visible := ListEntries(m, true);
    IdsBound(visible);
    if |visible| > max {
      var start := SliceStart(|visible|, max);
      r := HideBeyond(m, visible, start, persist);
      HideEachOnlyHides(m, visible[start..], persist);
      if max > 0 {
        HideBeyondWithinLimit(m, visible, max, persist);
      }
    }
  }

  function MarkRead(d: Display): Display { d.(isRead := true) }
  function MarkHidden(d: Display): Display { d.(isVisible := false) }

  /** `forEach` over the stored entries, replacing each by `f` of it. */
  method UpdateEach(m: map<string, Display>, f: Display -> Display) returns (r: map<string, Display>)
    ensures r.Keys == m.Keys
    ensures forall k :: k in r ==> r[k] == f(m[k])
  {
    r := map[];
    var todo := m.Keys;
    while todo != {}
      invariant todo <= m.Keys
      invariant r.Keys == m.Keys - todo
      invariant forall k :: k in r ==> r[k] == f(m[k])
      decreases todo
    {
      var k :| k in todo;
      r := r[k := f(m[k])];
      todo := todo - {k};
    }
  }

  /** The ids of unread entries; `getUnreadCount` is its size. */
  function UnreadIds(m: map<string, Display>): set<string> {
    set k | k in m && !m[k].isRead
  }

  /** Marking one entry read lowers the unread count by one exactly when it was unread. */
  lemma MarkReadCount(m: map<string, Display>, id: string)
    requires id in m
    ensures |UnreadIds(m[id := MarkRead(m[id])])| == |UnreadIds(m)| - (if m[id].isRead then 0 else 1)
  {
    var after := m[id := MarkRead(m[id])];
    assert UnreadIds(after) == UnreadIds(m) - {id};
  }

  /** The record `sendNotification` stores: unread and visible, stamped with the sending time. */
  function NewDisplay(n: Message, now: int): Display {
    Display(n.id, n, now, false, true)
  }

  /** `after` is the result of sending `n` at `now` to `before`: the new record replaces any entry
      with the same id, then a non-zero display limit is enforced. */
  predicate Sent(before: map<string, Display>, after: map<string, Display>, n: Message, now: int, max: int, persist: bool) {
    var put := before[n.id := NewDisplay(n, now)];
    (max == 0 ==> after == put) && OnlyHides(put, after, persist) && WithinLimit(put, after, max)
  }

  /** A notification sent later than every stored one is shown, as sent, whatever the limit. */
  lemma LatestIsShown(before: map<string, Display>, after: map<string, Display>, n: Message, now: int, max: int, persist: bool)
    requires Sent(before, after, n, now, max, persist) && max >= 0
    requires forall k :: k in before ==> before[k].timestamp < now
    ensures n.id in VisibleIds(after) && after[n.id] == NewDisplay(n, now)
  {
    var put := before[n.id := NewDisplay(n, now)];
    assert n.id in VisibleIds(put);
    assert forall x :: x in VisibleIds(put) && x != n.id ==> put[x].timestamp < put[n.id].timestamp;
    if max > 0 {
      assert n.id in VisibleIds(after);
    }
  }

  /** An unread count never exceeds the number of entries. */
  lemma UnreadBound(m: map<string, Display>)
    ensures |UnreadIds(m)| <= |m|
  {
    SubsetSize(UnreadIds(m), m.Keys);
  }

  class InAppNotificationProvider {
    var notifications: map<string, Display>
    /** `autoHideDuration`, `maxDisplayedNotifications` and `persistNotifications` after
        defaults. */
    var autoHideDuration: int
    var maxDisplayed: int
    var persist: bool

    predicate Valid()
      reads this
    {
      Keyed(notifications)
    }

    /** Each option not given takes its default. */
    constructor(autoHide: Option<int>, maxDisplayedGiven: Option<int>, persistGiven: Option<bool>)
      ensures Valid() && notifications == map[]
      ensures autoHideDuration == autoHide.GetOr(DefaultAutoHideDuration)
      ensures maxDisplayed == maxDisplayedGiven.GetOr(DefaultMaxDisplayed)
      ensures persist == persistGiven.GetOr(true)
    {
      notifications := map[];
      autoHideDuration := autoHide.GetOr(DefaultAutoHideDuration);
      maxDisplayed := maxDisplayedGiven.GetOr(DefaultMaxDisplayed);
      persist := persistGiven.GetOr(true);
    }

    /** `getVisibleNotifications`: the visible entries, newest first. */
    method GetVisibleNotifications() returns (r: seq<Display>)
      requires Valid()
      ensures Lists(r, notifications, true)
    {
      r := ListEntries(notifications, true);
    }

    /** `getAllNotifications`: every entry, newest first. */
    method GetAllNotifications() returns (r: seq<Display>)
      requires Valid()
      ensures Lists(r, notifications, false)
    {
      r := ListEntries(notifications, false);
    }

    /** `enforceDisplayLimit`. */
    method EnforceDisplayLimit()
      requires Valid()
      modifies this
      ensures Valid()
      ensures OnlyHides(old(notifications), notifications, persist)
      ensures maxDisplayed == 0 ==> notifications == old(notifications)
      ensures WithinLimit(old(notifications), notifications, maxDisplayed)
      ensures autoHideDuration == old(autoHideDuration) && maxDisplayed == old(maxDisplayed) && persist == old(persist)
    {
      notifications := LimitDisplay(notifications, maxDisplayed, persist);
    }

    /** `sendNotification`; `now` is the sending time. The auto-hide timer is not modelled. */
    method SendNotification(n: Message, now: int)
      requires Valid()
      modifies this
      ensures Valid()
      ensures Sent(old(notifications), notifications, n, now, maxDisplayed, persist)
      ensures autoHideDuration == old(autoHideDuration) && maxDisplayed == old(maxDisplayed) && persist == old(persist)
    {
      var before := notifications;
      notifications := notifications[n.id := NewDisplay(n, now)];
      var put := notifications;
      HideEachOnlyHides(put, [], persist);
      if maxDisplayed != 0 {
        notifications := LimitDisplay(notifications, maxDisplayed, persist);
      }
    }

    /** `scheduleNotification`: a time not after `now` sends at once; a later one is left to a
        timer, which is not modelled. */
    method ScheduleNotification(n: Message, scheduledFor: int, now: int) returns (sentNow: bool)
      requires Valid()
      modifies this
      ensures Valid()
      ensures sentNow <==> scheduledFor - now <= 0
      ensures sentNow ==> Sent(old(notifications), notifications, n, now, maxDisplayed, persist)
      ensures !sentNow ==> notifications == old(notifications)
      ensures autoHideDuration == old(autoHideDuration) && maxDisplayed == old(maxDisplayed) && persist == old(persist)
    {
      sentNow := scheduledFor - now <= 0;
      if sentNow {
        SendNotification(n, now);
      }
    }

    /** `cancelNotification`: drops the entry with that id, if any. */
    method CancelNotification(id: string)
      requires Valid()
      modifies this
      ensures Valid()
      ensures notifications == old(notifications) - {id}
      ensures autoHideDuration == old(autoHideDuration) && maxDisplayed == old(maxDisplayed) && persist == old(persist)
    {
      if id in notifications {
        notifications := notifications - {id};
      }
    }

    /** `cancelAllNotifications` and `clearHistory`. */
    method ClearHistory()
      modifies this
      ensures Valid() && notifications == map[]
      ensures autoHideDuration == old(autoHideDuration) && maxDisplayed == old(maxDisplayed) && persist == old(persist)
    {
      notifications := map[];
    }

    /** `markAsRead`: an unknown id changes nothing. */
    method MarkAsRead(id: string)
      requires Valid()
      modifies this
      ensures Valid()
      ensures id in old(notifications) ==> notifications == old(notifications)[id := MarkRead(old(notifications)[id])]
      ensures id !in old(notifications) ==> notifications == old(notifications)
      ensures |UnreadIds(notifications)| ==
                |UnreadIds(old(notifications))| - (if id in old(notifications) && !old(notifications)[id].isRead then 1 else 0)
      ensures autoHideDuration == old(autoHideDuration) && maxDisplayed == old(maxDisplayed) && persist == old(persist)
    {
      if id in notifications {
        MarkReadCount(notifications, id);
        notifications := notifications[id := MarkRead(notifications[id])];
      }
    }

    /** `markAllAsRead`: every entry becomes read, nothing else changes. */
    method MarkAllAsRead()
      requires Valid()
      modifies this
      ensures Valid()
      ensures notifications.Keys == old(notifications).Keys
      ensures forall k :: k in notifications ==> notifications[k] == MarkRead(old(notifications)[k])
      ensures UnreadIds(notifications) == {}
      ensures autoHideDuration == old(autoHideDuration) && maxDisplayed == old(maxDisplayed) && persist == old(persist)
    {
      notifications := UpdateEach(notifications, MarkRead);
    }

    /** `hideNotification`. */
    method HideNotification(id: string)
      requires Valid()
      modifies this
      ensures Valid()
      ensures notifications == Hide(old(notifications), id, persist)
      ensures autoHideDuration == old(autoHideDuration) && maxDisplayed == old(maxDisplayed) && persist == old(persist)
    {
      notifications := Hide(notifications, id, persist);
    }

    /** `hideAllNotifications`: every entry becomes invisible, and without persistence all are
        dropped. */
    method HideAllNotifications()
      requires Valid()
      modifies this
      ensures Valid()
      ensures VisibleIds(notifications) == {}
      ensures persist ==> notifications.Keys == old(notifications).Keys
      ensures persist ==> forall k :: k in notifications ==> notifications[k] == MarkHidden(old(notifications)[k])
      ensures !persist ==> notifications == map[]
      ensures autoHideDuration == old(autoHideDuration) && maxDisplayed == old(maxDisplayed) && persist == old(persist)
    {
      notifications := UpdateEach(notifications, MarkHidden);
      if !persist {
        notifications := map[];
      }
    }

    /** `getUnreadCount`. */
    method GetUnreadCount() returns (count: nat)
      ensures count == |UnreadIds(notifications)| && count <= |notifications|
    {
      UnreadBound(notifications);
      count := |UnreadIds(notifications)|;
    }
  }
}
