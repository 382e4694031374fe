/** Per-key running totals as the insight calculations keep them in a JavaScript `Map`: one entry
    per key, in the order keys were first inserted, each holding the sum of the amounts added
    under its key. Also the scans that pick the first entry with the largest or smallest total. */
module Tallies {
  import opened Common

  datatype Entry<K> = Entry(key: K, total: int)

  predicate KeysDistinct<K(==)>(es: seq<Entry<K>>) {
    forall i, j :: 0 <= i < j < |es| ==> es[i].key != es[j].key
  }

  function Keys<K>(es: seq<Entry<K>>): set<K> {
    set e | e in es :: e.key
  }

  /** `map.get(key) || 0`. */
  function TotalOf<K(==)>(es: seq<Entry<K>>, key: K): int {
    if es == [] then 0 else if es[0].key == key then es[0].total else TotalOf(es[1..], key)
  }

  /** `map.set(key, (map.get(key) || 0) + amount)`: an existing key keeps its place, a new key
      goes last. */
  function Add<K(==)>(es: seq<Entry<K>>, key: K, amount: int): (r: seq<Entry<K>>)
    ensures |r| == |es| || |r| == |es| + 1
    ensures forall i :: 0 <= i < |es| ==> r[i].key == es[i].key
  {
    if es == [] then [Entry(key, amount)]
    else if es[0].key == key then [Entry(key, es[0].total + amount)] + es[1..]
    else [es[0]] + Add(es[1..], key, amount)
  }

  lemma KeysCons<K>(es: seq<Entry<K>>)
    requires es != []
    ensures Keys(es) == {es[0].key} + Keys(es[1..])
  {
    assert forall e :: e in es <==> e == es[0] || e in es[1..];
  }

  /** Adding puts the key among the keys and appends it when it is new. */
  lemma {:induction false} AddKeys<K>(es: seq<Entry<K>>, key: K, amount: int)
    ensures Keys(Add(es, key, amount)) == Keys(es) + {key}
    ensures key !in Keys(es) ==> Add(es, key, amount) == es + [Entry(key, amount)]
    ensures key in Keys(es) ==> |Add(es, key, amount)| == |es|
  {
    if es != [] {
      AddKeys(es[1..], key, amount);
      KeysCons(es);
      KeysCons(Add(es, key, amount));
    }
  }

  /** Adding raises the key's total by the amount and leaves every other total alone. */
  lemma {:induction false} AddTotals<K>(es: seq<Entry<K>>, key: K, amount: int)
    ensures TotalOf(Add(es, key, amount), key) == TotalOf(es, key) + amount
    ensures forall k :: k != key ==> TotalOf(Add(es, key, amount), k) == TotalOf(es, k)
  {
    if es != [] {
      AddTotals(es[1..], key, amount);
    }
  }

  lemma DistinctTail<K>(es: seq<Entry<K>>)
    requires es != [] && KeysDistinct(es)
    ensures KeysDistinct(es[1..]) && es[0].key !in Keys(es[1..])
  {
    forall i, j | 0 <= i < j < |es[1..]| ensures es[1..][i].key != es[1..][j].key {
      assert es[1..][i] == es[i + 1] && es[1..][j] == es[j + 1];
    }
    forall e | e in es[1..] ensures e.key != es[0].key {
      var j :| 0 <= j < |es[1..]| && es[1..][j] == e;
      assert es[j + 1] == e;
    }
  }

  /** Adding keeps the keys distinct. */
  lemma {:induction false} AddKeepsDistinct<K>(es: seq<Entry<K>>, key: K, amount: int)
    requires KeysDistinct(es)
    ensures KeysDistinct(Add(es, key, amount))
  {
    if es != [] {
      var r := Add(es, key, amount);
      if es[0].key != key {
        DistinctTail(es);
        AddKeepsDistinct(es[1..], key, amount);
        AddKeys(es[1..], key, amount);
        var rest := Add(es[1..], key, amount);
        forall i, j | 0 <= i < j < |r| ensures r[i].key != r[j].key {
          assert r[j] == rest[j - 1];
          assert rest[j - 1] in rest;
          if i > 0 { assert r[i] == rest[i - 1]; }
        }
      } else {
        forall i, j | 0 <= i < j < |r| ensures r[i].key != r[j].key {
          assert r[i].key == es[i].key && r[j].key == es[j].key;
        }
      }
    }
  }

  // ---------------------------------------------------------------------------------------------
  // Tallying a list

  /** What one element contributes under `f`: a key and an amount, or nothing. */
  predicate Contributes<T, K(==)>(f: T -> Option<(K, int)>, x: T, key: K) {
    f(x).Some? && f(x).value.0 == key
  }

  /** The map after a `forEach` that adds each element's contribution. */
  function Tally<T, K(==)>(xs: seq<T>, f: T -> Option<(K, int)>): seq<Entry<K>>
    decreases |xs|
  {
    if xs == [] then []
    else
      var front := Tally(xs[..|xs| - 1], f);
      match f(xs[|xs| - 1])
      case None => front
      case Some(c) => Add(front, c.0, c.1)
  }

  /** The reference definition: the sum of the amounts contributed under `key`. */
  function SumFor<T, K(==)>(xs: seq<T>, f: T -> Option<(K, int)>, key: K): int
    decreases |xs|
  {
    if xs == [] then 0
    else SumFor(xs[..|xs| - 1], f, key) + (if Contributes(f, xs[|xs| - 1], key) then f(xs[|xs| - 1]).value.1 else 0)
  }

  /** Some element contributes under `key`. */
  predicate Seen<T, K(==)>(xs: seq<T>, f: T -> Option<(K, int)>, key: K) {
    exists i :: 0 <= i < |xs| && Contributes(f, xs[i], key)
  }

  /** The position of the first element contributing under `key`. */
  function FirstSeen<T, K(==)>(xs: seq<T>, f: T -> Option<(K, int)>, key: K): (r: nat)
    requires Seen(xs, f, key)
    ensures r < |xs| && Contributes(f, xs[r], key)
    ensures forall i :: 0 <= i < r ==> !Contributes(f, xs[i], key)
    decreases |xs|
  {
    var front := xs[..|xs| - 1];
    if Seen(front, f, key) then
      var r := FirstSeen(front, f, key);
      assert xs[r] == front[r];
      assert forall i :: 0 <= i < r ==> xs[i] == front[i];
      r
    else
      assert forall i :: 0 <= i < |front| ==> xs[i] == front[i] && !Contributes(f, front[i], key);
      |xs| - 1
  }

  /** Both keys are seen, and `a` first. */
  predicate SeenBefore<T, K(==)>(xs: seq<T>, f: T -> Option<(K, int)>, a: K, b: K) {
    Seen(xs, f, a) && Seen(xs, f, b) && FirstSeen(xs, f, a) < FirstSeen(xs, f, b)
  }

  lemma SeenFront<T, K>(xs: seq<T>, f: T -> Option<(K, int)>, key: K)
    requires xs != []
    ensures Seen(xs, f, key) <==> Seen(xs[..|xs| - 1], f, key) || Contributes(f, xs[|xs| - 1], key)
  {
    var front := xs[..|xs| - 1];
    if Seen(xs, f, key) {
      var i :| 0 <= i < |xs| && Contributes(f, xs[i], key);
      if i < |front| { assert front[i] == xs[i]; }
    }
    if Seen(front, f, key) {
      var i :| 0 <= i < |front| && Contributes(f, front[i], key);
      assert xs[i] == front[i];
    }
  }

  /** The tally holds one entry per contributing key, each total is the sum of the amounts
      contributed under its key, and the entries stand in the order their keys were first seen. */
  lemma {:induction false} TallyFacts<T, K>(xs: seq<T>, f: T -> Option<(K, int)>)
    ensures KeysDistinct(Tally(xs, f))
    ensures forall k :: k in Keys(Tally(xs, f)) <==> Seen(xs, f, k)
    ensures forall k :: TotalOf(Tally(xs, f), k) == SumFor(xs, f, k)
    ensures forall i, j :: 0 <= i < j < |Tally(xs, f)| ==> SeenBefore(xs, f, Tally(xs, f)[i].key, Tally(xs, f)[j].key)
    decreases |xs|
  {
    TallyKeys(xs, f);
    TallyTotals(xs, f);
    TallyOrder(xs, f);
  }

  lemma {:induction false} TallyKeys<T, K>(xs: seq<T>, f: T -> Option<(K, int)>)
    ensures KeysDistinct(Tally(xs, f))
    ensures forall k :: k in Keys(Tally(xs, f)) <==> Seen(xs, f, k)
    decreases |xs|
  {
    if xs != [] {
      var front := xs[..|xs| - 1];
      var x := xs[|xs| - 1];
      TallyKeys(front, f);
      forall k ensures Seen(xs, f, k) <==> Seen(front, f, k) || Contributes(f, x, k) {
        SeenFront(xs, f, k);
      }
      if f(x).Some? {
        AddKeys(Tally(front, f), f(x).value.0, f(x).value.1);
        AddKeepsDistinct(Tally(front, f), f(x).value.0, f(x).value.1);
      }
    }
  }

  lemma {:induction false} TallyTotals<T, K>(xs: seq<T>, f: T -> Option<(K, int)>)
    ensures forall k :: TotalOf(Tally(xs, f), k) == SumFor(xs, f, k)
    decreases |xs|
  {
    if xs != [] {
      var front := xs[..|xs| - 1];
      var x := xs[|xs| - 1];
      TallyTotals(front, f);
      if f(x).Some? {
        AddTotals(Tally(front, f), f(x).value.0, f(x).value.1);
      }
    }
  }

  lemma {:induction false} TallyOrder<T, K>(xs: seq<T>, f: T -> Option<(K, int)>)
    ensures forall i, j :: 0 <= i < j < |Tally(xs, f)| ==> SeenBefore(xs, f, Tally(xs, f)[i].key, Tally(xs, f)[j].key)
    decreases |xs|
  {
    if xs != [] {
      var front := xs[..|xs| - 1];
      var x := xs[|xs| - 1];
      var t := Tally(front, f);
      TallyOrder(front, f);
      TallyKeys(front, f);
      forall k | Seen(front, f, k) ensures Seen(xs, f, k) && FirstSeen(xs, f, k) == FirstSeen(front, f, k) {
        SeenFront(xs, f, k);
      }
      if f(x).None? {
        forall i, j | 0 <= i < j < |t| ensures SeenBefore(xs, f, t[i].key, t[j].key) {
          assert SeenBefore(front, f, t[i].key, t[j].key);
        }
      } else {
        var c := f(x).value;
        AddKeys(t, c.0, c.1);
        var r := Add(t, c.0, c.1);
        forall i, j | 0 <= i < j < |r| ensures SeenBefore(xs, f, r[i].key, r[j].key) {
          assert r[i].key == t[i].key && t[i] in t;
          if j < |t| {
            assert r[j].key == t[j].key;
          } else {
            assert c.0 !in Keys(t);
            FirstSeenLast(xs, f, c.0);
          }
        }
      }
    }
  }

  /** A key first contributed by the last element is first seen there. */
  lemma FirstSeenLast<T, K>(xs: seq<T>, f: T -> Option<(K, int)>, key: K)
    requires xs != [] && Contributes(f, xs[|xs| - 1], key) && !Seen(xs[..|xs| - 1], f, key)
    ensures Seen(xs, f, key) && FirstSeen(xs, f, key) == |xs| - 1
  {
    assert Contributes(f, xs[|xs| - 1], key);
  }

  /** The `forEach` that fills the map. */
  method TallyEach<T, K(==)>(xs: seq<T>, f: T -> Option<(K, int)>) returns (es: seq<Entry<K>>)
    ensures es == Tally(xs, f)
  {
    es := [];
    for i := 0 to |xs|
      invariant es == Tally(xs[..i], f)
    {
      assert xs[..i + 1][..i] == xs[..i];
      match f(xs[i])
      case None =>
      case Some(c) =>
        es := Add(es, c.0, c.1);
    }
    assert xs[..|xs|] == xs;
  }

  /** With distinct keys, an entry's total is the total looked up under its key. */
  lemma {:induction false} EntryTotal<K>(es: seq<Entry<K>>, j: nat)
    requires KeysDistinct(es) && j < |es|
    ensures TotalOf(es, es[j].key) == es[j].total
  {
    if j > 0 {
      DistinctTail(es);
      EntryTotal(es[1..], j - 1);
    }
  }

  /** When every contribution is positive, a key that was seen has a positive sum. */
  lemma {:induction false} SeenSumPositive<T, K>(xs: seq<T>, f: T -> Option<(K, int)>, key: K)
    requires forall i :: 0 <= i < |xs| && f(xs[i]).Some? ==> f(xs[i]).value.1 > 0
    requires Seen(xs, f, key)
    ensures SumFor(xs, f, key) > 0
    decreases |xs|
  {
    var front := xs[..|xs| - 1];
    SeenFront(xs, f, key);
    SumNonNegative(front, f, key);
    if Seen(front, f, key) {
      SeenSumPositive(front, f, key);
    }
  }

  lemma {:induction false} SumNonNegative<T, K>(xs: seq<T>, f: T -> Option<(K, int)>, key: K)
    requires forall i :: 0 <= i < |xs| && f(xs[i]).Some? ==> f(xs[i]).value.1 > 0
    ensures SumFor(xs, f, key) >= 0
    decreases |xs|
  {
    if xs != [] {
      SumNonNegative(xs[..|xs| - 1], f, key);
    }
  }

  // ---------------------------------------------------------------------------------------------
  // Picking the first largest or smallest total

  /** `i` is the first entry with the largest total, and that total exceeds `floor`; or `i` is -1
      and no total exceeds `floor`. This is what a `forEach` keeps with a strict `>` against a
      running maximum that starts at `floor`. */
  predicate IsFirstMax<K>(es: seq<Entry<K>>, i: int, floor: int) {
    if i < 0 then i == -1 && forall j :: 0 <= j < |es| ==> es[j].total <= floor
    else i < |es| && es[i].total > floor
         && (forall j :: 0 <= j < |es| ==> es[j].total <= es[i].total)
         && (forall j :: 0 <= j < i ==> es[j].total < es[i].total)
  }

  /** `i` is the first entry with the smallest total; -1 only for no entries. This is a running
      minimum that starts at `Infinity` with a strict `<`. */
  predicate IsFirstMin<K>(es: seq<Entry<K>>, i: int) {
    if es == [] then i == -1
    else 0 <= i < |es|
         && (forall j :: 0 <= j < |es| ==> es[i].total <= es[j].total)
         && (forall j :: 0 <= j < i ==> es[i].total < es[j].total)
  }

  /** The first maximum and the first minimum are unique, and the maximum is at least the
      minimum. */
  lemma ExtremesUnique<K>(es: seq<Entry<K>>, floor: int, i: int, i': int, m: int, m': int)
    requires IsFirstMax(es, i, floor) && IsFirstMax(es, i', floor)
    requires IsFirstMin(es, m) && IsFirstMin(es, m')
    ensures i == i' && m == m'
    ensures i >= 0 ==> es[m].total <= es[i].total
  {
    if i >= 0 && i' >= 0 {
      assert es[i].total == es[i'].total;
    }
    if m >= 0 && m' >= 0 {
      assert es[m].total == es[m'].total;
    }
  }

  /** The `forEach` that tracks the first largest total above `floor`. */
  method FirstMaxIndex<K>(es: seq<Entry<K>>, floor: int) returns (i: int)
    ensures IsFirstMax(es, i, floor)
  {
    i := -1;
    var maxTotal := floor;
    for k := 0 to |es|
      invariant IsFirstMax(es[..k], i, floor)
      invariant maxTotal == (if i < 0 then floor else es[i].total)
    {
      if es[k].total > maxTotal {
        maxTotal := es[k].total;
        i := k;
      }
    }
    assert es[..|es|] == es;
  }

  /** The `forEach` that tracks both the first largest total above `floor` and the first
      smallest total. */
  method MostAndLeast<K>(es: seq<Entry<K>>, floor: int) returns (most: int, least: int)
    ensures IsFirstMax(es, most, floor) && IsFirstMin(es, least)
  {
    most, least := -1, -1;
    var maxTotal, minTotal := floor, 0;
    for k := 0 to |es|
      invariant IsFirstMax(es[..k], most, floor)
      invariant maxTotal == (if most < 0 then floor else es[most].total)
      invariant IsFirstMin(es[..k], least)
      invariant least >= 0 ==> minTotal == es[least].total
    {
      if es[k].total > maxTotal {
        maxTotal := es[k].total;
        most := k;
      }
      if least < 0 || es[k].total < minTotal {
        minTotal := es[k].total;
        least := k;
      }
    }
    assert es[..|es|] == es;
  }
}
