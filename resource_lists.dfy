/** The list updates shared by the resource stores (timeslices, states, activities, notes): each
    store action is a backend call followed by one of these pure updates of the cached list.
    Elements are compared by their nullable `id`, read through `idOf`; JavaScript's `===` on two
    missing ids is `true`, which `Option` equality reproduces. */
module ResourceLists {
  import opened Common

  // ---------------------------------------------------------------------------------------------
  // Call outcome

  /** The flags a finished backend call leaves: not loading, and the error message of a failed
      call, or no error after a successful one. */
  predicate Settled<R>(outcome: ApiOutcome<R>, isLoading: bool, error: Option<string>) {
    !isLoading && error == (if outcome.Failed? then Some(outcome.message) else None)
  }

  /** What the store action returns: the backend's result, or the default when the call failed. */
  function ResultOr<R>(outcome: ApiOutcome<R>, default: R): (r: R)
    ensures outcome.Succeeded? ==> r == outcome.data
    ensures outcome.Failed? ==> r == default
  {
    match outcome
    case Succeeded(data) => data
    case Failed(_) => default
  }

  // ---------------------------------------------------------------------------------------------
  // Looking up by id

  /** Some element has the id. */
  predicate HasId<T>(s: seq<T>, idOf: T -> Option<string>, id: Option<string>) {
    exists i :: 0 <= i < |s| && idOf(s[i]) == id
  }

  /** No two elements share an id. */
  predicate UniqueIds<T>(s: seq<T>, idOf: T -> Option<string>) {
    forall i, j :: 0 <= i < j < |s| ==> idOf(s[i]) != idOf(s[j])
  }

  /** `findIndex(x => x.id === id)`: the first position holding the id, or -1. */
  function FindIndex<T>(s: seq<T>, idOf: T -> Option<string>, id: Option<string>): (r: int)
    ensures -1 <= r < |s|
    ensures 0 <= r ==> idOf(s[r]) == id && forall j :: 0 <= j < r ==> idOf(s[j]) != id
    ensures r == -1 ==> forall j :: 0 <= j < |s| ==> idOf(s[j]) != id
  {
    if s == [] then -1
    else if idOf(s[0]) == id then 0
    else
      var k := FindIndex(s[1..], idOf, id);
      if k < 0 then -1 else k + 1
  }

  /** `find(x => x.id === id)`: the first element holding the id. */
  function FindById<T>(s: seq<T>, idOf: T -> Option<string>, id: Option<string>): (r: Option<T>)
    ensures r.Some? <==> HasId(s, idOf, id)
    ensures r.Some? ==> r.value in s && idOf(r.value) == id
  {
    if s == [] then None
    else if idOf(s[0]) == id then Some(s[0])
    else
      var r := FindById(s[1..], idOf, id);
      assert HasId(s, idOf, id) <==> HasId(s[1..], idOf, id) by {
        if HasId(s[1..], idOf, id) {
          var i :| 0 <= i < |s[1..]| && idOf(s[1..][i]) == id;
          assert s[i + 1] == s[1..][i];
        }
        if HasId(s, idOf, id) {
          var i :| 0 <= i < |s| && idOf(s[i]) == id;
          assert i != 0 && s[1..][i - 1] == s[i];
        }
      }
      r
  }

  /** The first element with the id is found, and only that one. */
  lemma FindIndexIs<T>(s: seq<T>, idOf: T -> Option<string>, k: nat)
    requires k < |s| && forall j :: 0 <= j < k ==> idOf(s[j]) != idOf(s[k])
    ensures FindIndex(s, idOf, idOf(s[k])) == k
  {
  }

  // ---------------------------------------------------------------------------------------------
  // Upsert (insert or replace the first same-id element)

  /** `upsert`: replace the first element with the item's id, or append the item. */
  function Upsert<T>(s: seq<T>, idOf: T -> Option<string>, item: T): seq<T> {
    var k := FindIndex(s, idOf, idOf(item));
    if k >= 0 then s[k := item] else s + [item]
  }

  /** An upsert either replaces the first same-id element in place, keeping the length and every
      other element, or, when no element has the id, appends the item. Every old position keeps
      its id. */
  lemma UpsertFacts<T>(s: seq<T>, idOf: T -> Option<string>, item: T)
    ensures var r := Upsert(s, idOf, item);
            && item in r
            && |s| <= |r| <= |s| + 1
            && (forall i :: 0 <= i < |s| ==> idOf(r[i]) == idOf(s[i]))
            && (HasId(s, idOf, idOf(item)) ==>
                  |r| == |s|
                  && (exists k :: 0 <= k < |s| && r[k] == item && idOf(s[k]) == idOf(item)
                                  && (forall j :: 0 <= j < k ==> idOf(s[j]) != idOf(item))
                                  && (forall j :: 0 <= j < |s| && j != k ==> r[j] == s[j])))
            && (!HasId(s, idOf, idOf(item)) ==> r == s + [item])
  {
    var k := FindIndex(s, idOf, idOf(item));
    if k >= 0 {
      assert Upsert(s, idOf, item)[k] == item;
    } else {
      assert (s + [item])[|s|] == item;
    }
  }

  /** Upserting the same item twice is the same as upserting it once. */
  lemma UpsertIdempotent<T>(s: seq<T>, idOf: T -> Option<string>, item: T)
    ensures Upsert(Upsert(s, idOf, item), idOf, item) == Upsert(s, idOf, item)
  {
    var k := FindIndex(s, idOf, idOf(item));
    var r := Upsert(s, idOf, item);
    if k >= 0 {
      FindIndexIs(r, idOf, k);
    } else {
      FindIndexIs(r, idOf, |s|);
    }
  }

  /** An upsert keeps the ids unique. */
  lemma UpsertKeepsUnique<T>(s: seq<T>, idOf: T -> Option<string>, item: T)
    requires UniqueIds(s, idOf)
    ensures UniqueIds(Upsert(s, idOf, item), idOf)
  {
    UpsertFacts(s, idOf, item);
    var r := Upsert(s, idOf, item);
    if !HasId(s, idOf, idOf(item)) {
      forall i, j | 0 <= i < j < |r| ensures idOf(r[i]) != idOf(r[j]) {
        if j == |s| {
          assert r[i] == s[i];
        }
      }
    }
  }

  /** `upsertMany`: the results upserted one after the other, in order. */
  function UpsertAll<T>(s: seq<T>, idOf: T -> Option<string>, items: seq<T>): seq<T>
    decreases |items|
  {
    if items == [] then s
    else Upsert(UpsertAll(s, idOf, items[..|items| - 1]), idOf, items[|items| - 1])
  }

  /** After upserting many items the list is at least as long, grows by at most the number of
      items, keeps the id of every old position, holds an element with each item's id, and keeps
      the ids unique. */
  lemma {:induction false} UpsertAllFacts<T>(s: seq<T>, idOf: T -> Option<string>, items: seq<T>)
    ensures var r := UpsertAll(s, idOf, items);
            && |s| <= |r| <= |s| + |items|
            && (forall i :: 0 <= i < |s| ==> idOf(r[i]) == idOf(s[i]))
            && (forall j :: 0 <= j < |items| ==> HasId(r, idOf, idOf(items[j])))
            && (UniqueIds(s, idOf) ==> UniqueIds(r, idOf))
    decreases |items|
  {
    if items != [] {
      var front := items[..|items| - 1];
      var last := items[|items| - 1];
      var w := UpsertAll(s, idOf, front);
      UpsertAllFacts(s, idOf, front);
      UpsertFacts(w, idOf, last);
      if UniqueIds(s, idOf) {
        UpsertKeepsUnique(w, idOf, last);
      }
      var r := Upsert(w, idOf, last);
      forall j | 0 <= j < |items| ensures HasId(r, idOf, idOf(items[j])) {
        if j < |items| - 1 {
          assert items[j] == front[j];
          var i :| 0 <= i < |w| && idOf(w[i]) == idOf(front[j]);
          assert idOf(r[i]) == idOf(w[i]);
        } else {
          var i :| 0 <= i < |r| && r[i] == last;
        }
      }
    }
  }

  /** The in-place loop of `upsertMany`: a working copy in which each result replaces the first
      element with its id or is pushed. */
  method UpsertEach<T>(s: seq<T>, idOf: T -> Option<string>, items: seq<T>) returns (r: seq<T>)
    ensures r == UpsertAll(s, idOf, items)
  {
    r := s;
    var n := 0;
    while n < |items|
      invariant 0 <= n <= |items|
      invariant r == UpsertAll(s, idOf, items[..n])
    {
      var item := items[n];
      var existingIndex := FindIndex(r, idOf, idOf(item));
      if existingIndex >= 0 {
        r := r[existingIndex := item];
      } else {
        r := r + [item];
      }
      assert items[..n + 1][..n] == items[..n];
      n := n + 1;
    }
    assert items[..n] == items;
  }

  // ---------------------------------------------------------------------------------------------
  // Replacing by id

  function ReplacedBy<T>(idOf: T -> Option<string>, item: T, x: T): T {
    if idOf(x) == idOf(item) then item else x
  }

  /** `map(x => x.id === item.id ? item : x)`: every element with the item's id is replaced. */
  function ReplaceWhere<T>(s: seq<T>, idOf: T -> Option<string>, item: T): (r: seq<T>)
    ensures |r| == |s|
  {
    seq(|s|, i requires 0 <= i < |s| => ReplacedBy(idOf, item, s[i]))
  }

  /** Replacing never adds an element: the length and each position's id stay, every element is
      the item or the old one, and the item stands wherever its id was. */
  lemma ReplaceNeverAdds<T>(s: seq<T>, idOf: T -> Option<string>, item: T)
    ensures var r := ReplaceWhere(s, idOf, item);
            && |r| == |s|
            && (forall i :: 0 <= i < |s| ==> idOf(r[i]) == idOf(s[i]))
            && (forall i :: 0 <= i < |s| ==> r[i] == item || r[i] == s[i])
            && (forall i :: 0 <= i < |s| && idOf(s[i]) == idOf(item) ==> r[i] == item)
            && (forall i :: 0 <= i < |s| && idOf(s[i]) != idOf(item) ==> r[i] == s[i])
            && (!HasId(s, idOf, idOf(item)) ==> r == s)
  {
  }

  /** With unique ids and the id present, replacing is the same as upserting; with the id
      absent, replacing changes nothing while upserting appends. */
  lemma ReplaceIsUpsertOfExisting<T>(s: seq<T>, idOf: T -> Option<string>, item: T)
    requires UniqueIds(s, idOf)
    ensures HasId(s, idOf, idOf(item)) ==> ReplaceWhere(s, idOf, item) == Upsert(s, idOf, item)
    ensures !HasId(s, idOf, idOf(item)) ==> ReplaceWhere(s, idOf, item) == s
  {
    var k := FindIndex(s, idOf, idOf(item));
    if k >= 0 {
      var r := ReplaceWhere(s, idOf, item);
      forall i | 0 <= i < |s| ensures r[i] == s[k := item][i] {
        if i != k {
          assert idOf(s[i]) != idOf(s[k]);
        }
      }
    }
  }

  /** Replacing by the same item twice is the same as once. */
  lemma ReplaceIdempotent<T>(s: seq<T>, idOf: T -> Option<string>, item: T)
    ensures ReplaceWhere(ReplaceWhere(s, idOf, item), idOf, item) == ReplaceWhere(s, idOf, item)
  {
  }

  function FromBatch<T>(batch: seq<T>, idOf: T -> Option<string>, x: T): T {
    FindById(batch, idOf, idOf(x)).GetOr(x)
  }

  /** `map(x => batch.find(b => b.id === x.id) || x)`: each element replaced by the first batch
      element with its id. */
  function ReplaceFromBatch<T>(s: seq<T>, idOf: T -> Option<string>, batch: seq<T>): (r: seq<T>)
    ensures |r| == |s|
  {
    seq(|s|, i requires 0 <= i < |s| => FromBatch(batch, idOf, s[i]))
  }

  /** A batch replacement never adds an element and keeps each position's id; each element is
      replaced by a batch element exactly when the batch holds its id; an empty batch changes
      nothing, and a one-element batch is the single replacement. */
  lemma BatchReplaceFacts<T>(s: seq<T>, idOf: T -> Option<string>, batch: seq<T>)
    ensures var r := ReplaceFromBatch(s, idOf, batch);
            && |r| == |s|
            && (forall i :: 0 <= i < |s| ==> idOf(r[i]) == idOf(s[i]))
            && (forall i :: 0 <= i < |s| ==> HasId(batch, idOf, idOf(s[i])) ==> r[i] in batch)
            && (forall i :: 0 <= i < |s| ==> !HasId(batch, idOf, idOf(s[i])) ==> r[i] == s[i])
    ensures batch == [] ==> ReplaceFromBatch(s, idOf, batch) == s
    ensures |batch| == 1 ==> ReplaceFromBatch(s, idOf, batch) == ReplaceWhere(s, idOf, batch[0])
  {
    if |batch| == 1 {
      forall i | 0 <= i < |s|
        ensures ReplaceFromBatch(s, idOf, batch)[i] == ReplaceWhere(s, idOf, batch[0])[i]
      {
        assert batch[1..] == [];
      }
    }
  }

  // ---------------------------------------------------------------------------------------------
  // Deleting by id

  function IdIsNot<T>(idOf: T -> Option<string>, id: string): T -> bool {
    (x: T) => idOf(x) != Some(id)
  }

  /** `filter(x => x.id !== id)`. */
  function WithoutId<T>(s: seq<T>, idOf: T -> Option<string>, id: string): seq<T> {
    Filter(s, IdIsNot(idOf, id))
  }

  /** Deleting an id removes every element with it and keeps all others, in order. */
  lemma WithoutIdFacts<T>(s: seq<T>, idOf: T -> Option<string>, id: string)
    ensures !HasId(WithoutId(s, idOf, id), idOf, Some(id))
    ensures forall x :: x in WithoutId(s, idOf, id) <==> x in s && idOf(x) != Some(id)
    ensures !HasId(s, idOf, Some(id)) ==> WithoutId(s, idOf, id) == s
  {
    var p := IdIsNot(idOf, id);
    forall x ensures x in Filter(s, p) <==> x in s && idOf(x) != Some(id) {
      FilterMember(s, p, x);
    }
    FilterSatisfies(s, p);
    if !HasId(s, idOf, Some(id)) {
      forall x | x in s ensures p(x) {
        var i :| 0 <= i < |s| && s[i] == x;
      }
      FilterAll(s, p);
    }
  }

  /** What a many-id delete does with elements whose id is missing: the states store keeps them;
      the activities store drops null ids; the timeslices and notes stores drop every falsy id
      (null or empty). */
  datatype MissingIds = KeepMissing | DropNull | DropFalsy

  /** Whether an element with this id survives deleting `ids`. */
  predicate Survives(id: Option<string>, ids: seq<string>, rule: MissingIds) {
    match rule
    case KeepMissing => !(id.Some? && id.value in ids)
    case DropNull => id.Some? && id.value !in ids
    case DropFalsy => id.Some? && id.value != "" && id.value !in ids
  }

  function SurvivesDelete<T>(idOf: T -> Option<string>, ids: seq<string>, rule: MissingIds): T -> bool {
    (x: T) => Survives(idOf(x), ids, rule)
  }

  /** `filter(x => !ids.includes(x.id))` with the store's treatment of missing ids. */
  function WithoutIds<T>(s: seq<T>, idOf: T -> Option<string>, ids: seq<string>, rule: MissingIds): seq<T> {
    Filter(s, SurvivesDelete(idOf, ids, rule))
  }

  /** A many-id delete keeps exactly the elements whose id is not listed, under the rule for
      missing ids, and no element with a listed id remains. */
  lemma WithoutIdsFacts<T>(s: seq<T>, idOf: T -> Option<string>, ids: seq<string>, rule: MissingIds)
    ensures forall x :: x in WithoutIds(s, idOf, ids, rule) <==>
              x in s && !(idOf(x).Some? && idOf(x).value in ids)
              && (rule == DropNull ==> idOf(x).Some?)
              && (rule == DropFalsy ==> idOf(x).Some? && idOf(x).value != "")
    ensures forall id :: id in ids ==> !HasId(WithoutIds(s, idOf, ids, rule), idOf, Some(id))
  {
    var p := SurvivesDelete(idOf, ids, rule);
    forall x ensures x in Filter(s, p) <==> x in s && p(x) {
      FilterMember(s, p, x);
    }
    FilterSatisfies(s, p);
  }

  lemma {:induction false} FilterSame<T>(s: seq<T>, p: T -> bool, q: T -> bool)
    requires forall x :: x in s ==> p(x) == q(x)
    ensures Filter(s, p) == Filter(s, q)
  {
    if s != [] {
      FilterSame(s[1..], p, q);
    }
  }

  /** Deleting the one-element list `[id]` while keeping missing ids is deleting that id. */
  lemma DeleteOneOfMany<T>(s: seq<T>, idOf: T -> Option<string>, id: string)
    ensures WithoutIds(s, idOf, [id], KeepMissing) == WithoutId(s, idOf, id)
  {
    FilterSame(s, SurvivesDelete(idOf, [id], KeepMissing), IdIsNot(idOf, id));
  }
}
