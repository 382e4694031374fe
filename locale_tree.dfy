/** The translation-key tree of the locale-key extraction script: flattening a JSON object into
    dotted key paths, building a nested template object from dotted keys, and sorting an
    object's keys at every level.

    A JSON object is the list of its members in the order they were added; `PropertyOrder`
    gives the order in which JavaScript lists them, array indices first. */
module LocaleTree {
  import opened Common
  import opened JsText

  datatype Json = JObject(members: seq<Member>) | JArray(items: seq<Json>) | JString(text: string)
                | JNumber(number: int) | JBool(flag: bool) | JNull
  datatype Member = Member(key: string, value: Json)

  /** `prefix ? `${prefix}.${k}` : k`: an empty prefix is falsy. */
  function Next(prefix: string, k: string): string {
    if prefix != "" then prefix + "." + k else k
  }

  /** `extractKeysFromObject`: the dotted path of every member whose value is not an object;
      arrays, strings, numbers, booleans and null are all leaves, and an empty object yields
      nothing. */
  function ExtractKeys(obj: Json, prefix: string): seq<string>
    decreases obj, 1, 0, 0
  {
    if obj.JObject? then ExtractFrom(obj, 0, prefix) else []
  }

  function ExtractFrom(obj: Json, i: nat, prefix: string): seq<string>
    requires obj.JObject? && i <= |obj.members|
    decreases obj, 0, |obj.members| - i, 1
  {
    if i == |obj.members| then [] else MemberKeys(obj, i, prefix) + ExtractFrom(obj, i + 1, prefix)
  }

  /** The keys one member contributes: its own dotted key, or those of the object it holds. */
  function MemberKeys(obj: Json, i: nat, prefix: string): seq<string>
    requires obj.JObject? && i < |obj.members|
    decreases obj, 0, |obj.members| - i, 0
  {
    var m := obj.members[i];
    var next := Next(prefix, m.key);
    if m.value.JObject? then ExtractKeys(m.value, next) else [next]
  }

  /** The loop of `extractKeysFromObject`, recursing into nested objects. */
  method ExtractKeysFromObject(obj: Json, prefix: string) returns (keys: seq<string>)
    ensures keys == ExtractKeys(obj, prefix)
    decreases obj
  {
    keys := [];
    if obj.JObject? {
      for i := 0 to |obj.members|
        invariant ExtractFrom(obj, 0, prefix) == keys + ExtractFrom(obj, i, prefix)
      {
        var m := obj.members[i];
        var next := if prefix != "" then prefix + "." + m.key else m.key;
        if m.value.JObject? {
          var nested := ExtractKeysFromObject(m.value, next);
          keys := keys + nested;
        } else {
          keys := keys + [next];
        }
      }
    }
  }

  // ---------------------------------------------------------------------------------------------
  // Leaf paths

  /** The key paths from `j` to its leaves (every value that is not an object). */
  function Paths(j: Json): set<seq<string>>
    decreases j
  {
    if j.JObject? then set m, p | m in j.members && p in Paths(m.value) :: [m.key] + p
    else {[]}
  }

  function Prefixed(k: string, s: set<seq<string>>): set<seq<string>> {
    set p | p in s :: [k] + p
  }

  /** The leaf paths below a list of members. */
  function MemberPaths(ms: seq<Member>): set<seq<string>> {
    set m, p | m in ms && p in Paths(m.value) :: [m.key] + p
  }

  function Dotted(path: seq<string>): string {
    Join(path, '.')
  }

  lemma {:induction false} JoinSnoc(a: seq<string>, k: string)
    requires a != []
    ensures Join(a + [k], '.') == Join(a, '.') + "." + k
    decreases |a|
  {
    if |a| == 1 {
      assert (a + [k])[1..] == [k];
    } else {
      assert (a + [k])[1..] == a[1..] + [k];
      JoinSnoc(a[1..], k);
    }
  }

  lemma {:induction false} JoinStartsWithFirst(a: seq<string>)
    requires a != []
    ensures |Join(a, '.')| >= |a[0]| && Join(a, '.')[..|a[0]|] == a[0]
  {
    if |a| > 1 {
      assert Join(a, '.') == a[0] + ("." + Join(a[1..], '.'));
    }
  }

  /** The prefix rule of the flattening agrees with joining the path with dots, as long as the
      path does not start with an empty key. */
  lemma NextDotted(path: seq<string>, k: string)
    requires path == [] || path[0] != ""
    ensures Next(Dotted(path), k) == Dotted(path + [k])
  {
    if path != [] {
      JoinStartsWithFirst(path);
      JoinSnoc(path, k);
    } else {
      assert path + [k] == [k];
    }
  }

  predicate NoEmptyFirst(path: seq<string>, j: Json) {
    if path == [] then j.JObject? ==> forall m :: m in j.members ==> m.key != ""
    else path[0] != ""
  }

  /** The dotted leaf paths below the members `ms`, under the prefix path `path`. */
  function DottedUnder(path: seq<string>, ms: seq<Member>): set<string> {
    set m, p | m in ms && p in Paths(m.value) :: Dotted(path + ([m.key] + p))
  }

  lemma DottedUnderCons(path: seq<string>, m: Member, rest: seq<Member>)
    ensures DottedUnder(path, [m] + rest) == DottedUnder(path, [m]) + DottedUnder(path, rest)
  {
    var all := [m] + rest;
    forall x | x in DottedUnder(path, all) ensures x in DottedUnder(path, [m]) + DottedUnder(path, rest) {
      var m', p :| m' in all && p in Paths(m'.value) && x == Dotted(path + ([m'.key] + p));
      if m' == m {
        assert m' in [m];
      } else {
        assert m' in rest;
      }
    }
  }

  /** What one member contributes to the flattening: its dotted leaf paths. */
  lemma {:induction false} MemberDotted(obj: Json, i: nat, path: seq<string>)
    requires obj.JObject? && i < |obj.members| && NoEmptyFirst(path, obj)
    ensures (set x | x in MemberKeys(obj, i, Dotted(path))) == DottedUnder(path, [obj.members[i]])
    decreases obj, 0, |obj.members| - i, 0
  {
    var m := obj.members[i];
    NextDotted(path, m.key);
    assert path == [] ==> m.key != "" by {
      if path == [] { assert m in obj.members; }
    }
    if m.value.JObject? {
      assert (path + [m.key])[0] != "";
      ExtractFromDotted(m.value, 0, path + [m.key]);
      assert m.value.members[0..] == m.value.members;
      NestedDotted(path, m, ExtractKeys(m.value, Next(Dotted(path), m.key)));
    } else {
      LeafDotted(path, m);
    }
  }

  /** A member holding an object contributes the leaf paths of that object, one key deeper. */
  lemma NestedDotted(path: seq<string>, m: Member, head: seq<string>)
    requires m.value.JObject?
    requires (set x | x in head) == DottedUnder(path + [m.key], m.value.members)
    ensures (set x | x in head) == DottedUnder(path, [m])
  {
    forall x | x in DottedUnder(path, [m]) ensures x in DottedUnder(path + [m.key], m.value.members) {
      NestedInto(path, m, x);
    }
    forall x | x in DottedUnder(path + [m.key], m.value.members) ensures x in DottedUnder(path, [m]) {
      NestedFrom(path, m, x);
    }
  }

  lemma NestedInto(path: seq<string>, m: Member, x: string)
    requires m.value.JObject? && x in DottedUnder(path, [m])
    ensures x in DottedUnder(path + [m.key], m.value.members)
  {
    var m', p :| m' in [m] && p in Paths(m'.value) && x == Dotted(path + ([m'.key] + p));
    var m'', p' :| m'' in m.value.members && p' in Paths(m''.value) && p == [m''.key] + p';
    assert path + ([m.key] + p) == (path + [m.key]) + ([m''.key] + p');
  }

  lemma NestedFrom(path: seq<string>, m: Member, x: string)
    requires m.value.JObject? && x in DottedUnder(path + [m.key], m.value.members)
    ensures x in DottedUnder(path, [m])
  {
    var m', p :| m' in m.value.members && p in Paths(m'.value) && x == Dotted((path + [m.key]) + ([m'.key] + p));
    assert path + ([m.key] + ([m'.key] + p)) == (path + [m.key]) + ([m'.key] + p);
    assert [m'.key] + p in Paths(m.value);
    assert m in [m];
  }

  /** A member holding a leaf contributes its own dotted path. */
  lemma LeafDotted(path: seq<string>, m: Member)
    requires !m.value.JObject?
    ensures DottedUnder(path, [m]) == {Dotted(path + [m.key])}
  {
    assert Paths(m.value) == {[]};
    assert path + ([m.key] + []) == path + [m.key];
  }

  /** The flattened keys are the dotted leaf paths, below the given prefix path. */
  lemma {:induction false} ExtractFromDotted(obj: Json, i: nat, path: seq<string>)
    requires obj.JObject? && i <= |obj.members| && NoEmptyFirst(path, obj)
    ensures (set x | x in ExtractFrom(obj, i, Dotted(path))) == DottedUnder(path, obj.members[i..])
    decreases obj, 0, |obj.members| - i, 1
  {
    if i == |obj.members| {
      assert DottedUnder(path, obj.members[i..]) == {};
    } else {
      MemberDotted(obj, i, path);
      ExtractFromDotted(obj, i + 1, path);
      assert obj.members[i..] == [obj.members[i]] + obj.members[i + 1..];
      DottedUnderCons(path, obj.members[i], obj.members[i + 1..]);
    }
  }

  /** Flattening an object from the empty prefix yields exactly its dotted leaf paths, when no
      top-level key is empty. */
  lemma ExtractIsDottedPaths(obj: Json)
    requires obj.JObject? && forall m :: m in obj.members ==> m.key != ""
    ensures (set x | x in ExtractKeys(obj, "")) == set p | p in Paths(obj) :: Dotted(p)
  {
    ExtractFromDotted(obj, 0, []);
    assert obj.members[0..] == obj.members;
    assert Dotted([]) == "";
    DottedUnderRoot(obj);
  }

  /** Below the empty path, the dotted leaf paths are the dotted paths of the object. */
  lemma DottedUnderRoot(obj: Json)
    requires obj.JObject?
    ensures DottedUnder([], obj.members) == set p | p in Paths(obj) :: Dotted(p)
  {
    var rhs := set p | p in Paths(obj) :: Dotted(p);
    forall x | x in DottedUnder([], obj.members) ensures x in rhs {
      var m, p :| m in obj.members && p in Paths(m.value) && x == Dotted([] + ([m.key] + p));
      assert [] + ([m.key] + p) == [m.key] + p;
    }
    forall x | x in rhs ensures x in DottedUnder([], obj.members) {
      var q :| q in Paths(obj) && x == Dotted(q);
      var m, p :| m in obj.members && p in Paths(m.value) && q == [m.key] + p;
      assert [] + ([m.key] + p) == q;
    }
  }

  // ---------------------------------------------------------------------------------------------
  // Building the template tree

  /** The names every plain object inherits from `Object.prototype`: `name in obj` holds for
      them although `obj` has no such own member. */
  const ObjectPrototypeNames: set<string> := {
    "constructor", "hasOwnProperty", "isPrototypeOf", "propertyIsEnumerable", "toLocaleString",
    "toString", "valueOf", "__proto__", "__defineGetter__", "__defineSetter__",
    "__lookupGetter__", "__lookupSetter__"}

  /** The index of the member with key `k`, or -1. */
  function FindKey(ms: seq<Member>, k: string): (r: int)
    ensures -1 <= r < |ms|
    ensures r >= 0 ==> ms[r].key == k && forall i :: 0 <= i < r ==> ms[i].key != k
    ensures r < 0 ==> forall i :: 0 <= i < |ms| ==> ms[i].key != k
  {
    if ms == [] then -1
    else if ms[0].key == k then 0
    else
      var r := FindKey(ms[1..], k);
      if r < 0 then -1 else r + 1
  }

  /** `node[k] = v`: an existing member keeps its place, a new one goes last. */
  function Assign(ms: seq<Member>, k: string, v: Json): seq<Member> {
    var i := FindKey(ms, k);
    if i >= 0 then ms[i := Member(k, v)] else ms + [Member(k, v)]
  }

  /** The inner loop of `buildTree`: the walk of one key's parts down from `node`. The test
      `part in node` also holds for the names in `inherited`; the walk then leaves the tree
      and nothing more is assigned in it. Only "" leaves and objects are ever created, so the
      last branch, a walk into any other value, does not occur. */
  function InsertParts(ms: seq<Member>, parts: seq<string>, inherited: set<string>): seq<Member>
    requires parts != []
    decreases |parts|
  {
    var part := parts[0];
    var i := FindKey(ms, part);
    if i < 0 && part in inherited then ms
    else if |parts| == 1 then
      if i >= 0 then ms else ms + [Member(part, JString(""))]
    else
      var existing := if i >= 0 then ms[i].value else JObject([]);
      var child := if existing.JString? then JObject([]) else existing;
      if child.JObject? then Assign(ms, part, JObject(InsertParts(child.members, parts[1..], inherited)))
      else ms
  }

  /** The members of the tree built from `keys`; empty keys are skipped. */
  function TreeMembers(keys: seq<string>, inherited: set<string>): seq<Member>
    decreases |keys|
  {
    if keys == [] then []
    else
      var built := TreeMembers(keys[..|keys| - 1], inherited);
      var key := keys[|keys| - 1];
      if key == "" then built else InsertParts(built, Split(key, '.'), inherited)
  }

  /** `buildTree` as written: its `in` test sees the names inherited from `Object.prototype`. */
  method BuildTree(keys: seq<string>) returns (root: Json)
    ensures root == JObject(TreeMembers(keys, ObjectPrototypeNames))
  {
    var members: seq<Member> := [];
    for i := 0 to |keys|
      invariant members == TreeMembers(keys[..i], ObjectPrototypeNames)
    {
      var key := keys[i];
      assert keys[..i + 1][..i] == keys[..i];
      if key != "" {
        var parts := Split(key, '.');
        members := InsertParts(members, parts, ObjectPrototypeNames);
      }
    }
    assert keys[..|keys|] == keys;
    root := JObject(members);
  }

  /** `buildTree` with an own-property test in place of `in`. */
  function CorrectedTree(keys: seq<string>): Json {
    JObject(TreeMembers(keys, {}))
  }

  // ---------------------------------------------------------------------------------------------
  // Shape of a built tree

  predicate DistinctKeys(ms: seq<Member>) {
    forall i, j :: 0 <= i < j < |ms| ==> ms[i].key != ms[j].key
  }

  /** A tree `buildTree` can produce: "" leaves, objects with distinct keys free of dots, and
      no empty object below the root. */
  predicate Built(j: Json)
    decreases j
  {
    match j
    case JString(s) => s == ""
    case JObject(ms) =>
      DistinctKeys(ms) && forall m :: m in ms ==> '.' !in m.key && Built(m.value) && m.value != JObject([])
    case _ => false
  }

  predicate IsPrefix(a: seq<string>, b: seq<string>) {
    |a| <= |b| && b[..|a|] == a
  }

  predicate ProperPrefix(a: seq<string>, b: seq<string>) {
    |a| < |b| && b[..|a|] == a
  }

  lemma MemberPathsAppend(ms: seq<Member>, m: Member)
    ensures MemberPaths(ms + [m]) == MemberPaths(ms) + Prefixed(m.key, Paths(m.value))
  {
    forall x | x in MemberPaths(ms + [m]) ensures x in MemberPaths(ms) + Prefixed(m.key, Paths(m.value)) {
      var n, p :| n in ms + [m] && p in Paths(n.value) && x == [n.key] + p;
      if n != m { assert n in ms; }
    }
  }

  lemma MemberPathsReplaceSub(ms: seq<Member>, i: int, w: Json)
    requires 0 <= i < |ms| && DistinctKeys(ms)
    ensures var k := ms[i].key;
            MemberPaths(ms[i := Member(k, w)])
              <= (MemberPaths(ms) - Prefixed(k, Paths(ms[i].value))) + Prefixed(k, Paths(w))
  {
    var k := ms[i].key;
    var after := ms[i := Member(k, w)];
    forall x | x in MemberPaths(after)
      ensures x in (MemberPaths(ms) - Prefixed(k, Paths(ms[i].value))) + Prefixed(k, Paths(w))
    {
      var n, p :| n in after && p in Paths(n.value) && x == [n.key] + p;
      var j :| 0 <= j < |after| && after[j] == n;
      if j != i {
        assert ms[j] == n && n.key != k;
        assert x in MemberPaths(ms);
        assert x[0] != k;
      } else {
        assert n == Member(k, w) && p in Paths(w);
      }
    }
  }

  lemma MemberPathsReplaceSup(ms: seq<Member>, i: int, w: Json)
    requires 0 <= i < |ms| && DistinctKeys(ms)
    ensures var k := ms[i].key;
            (MemberPaths(ms) - Prefixed(k, Paths(ms[i].value))) + Prefixed(k, Paths(w))
              <= MemberPaths(ms[i := Member(k, w)])
  {
    var k, before := ms[i].key, ms[i].value;
    var after := ms[i := Member(k, w)];
    forall x | x in Prefixed(k, Paths(w)) ensures x in MemberPaths(after) {
      var p :| p in Paths(w) && x == [k] + p;
      assert after[i] == Member(k, w);
    }
    forall x | x in MemberPaths(ms) && x !in Prefixed(k, Paths(before)) ensures x in MemberPaths(after) {
      var n, p :| n in ms && p in Paths(n.value) && x == [n.key] + p;
      var j :| 0 <= j < |ms| && ms[j] == n;
      assert j == i ==> x in Prefixed(k, Paths(before));
      assert after[j] == n;
    }
  }

  /** Replacing the value of a member swaps its leaf paths and keeps every other member's. */
  lemma MemberPathsReplace(ms: seq<Member>, i: int, w: Json)
    requires 0 <= i < |ms| && DistinctKeys(ms)
    ensures var k := ms[i].key;
            MemberPaths(ms[i := Member(k, w)])
              == (MemberPaths(ms) - Prefixed(k, Paths(ms[i].value))) + Prefixed(k, Paths(w))
  {
    MemberPathsReplaceSub(ms, i, w);
    MemberPathsReplaceSup(ms, i, w);
  }

  /** A built value that is not the empty object has a leaf path. */
  lemma {:induction false} BuiltHasPath(j: Json) returns (p: seq<string>)
    requires Built(j) && j != JObject([])
    ensures p in Paths(j)
    decreases j
  {
    if j.JString? {
      p := [];
    } else {
      var m := j.members[0];
      assert m in j.members;
      var q := BuiltHasPath(m.value);
      p := [m.key] + q;
    }
  }

  predicate DotFree(parts: seq<string>) {
    forall k :: k in parts ==> '.' !in k
  }

  lemma AssignKeepsBuilt(ms: seq<Member>, k: string, v: Json)
    requires Built(JObject(ms)) && Built(v) && v != JObject([]) && '.' !in k
    ensures Built(JObject(Assign(ms, k, v))) && Assign(ms, k, v) != []
  {
    var r := Assign(ms, k, v);
    forall m | m in r ensures '.' !in m.key && Built(m.value) && m.value != JObject([]) {
      if m != Member(k, v) { assert m in ms; }
    }
  }

  /** Walking a key of dot-free parts into a built tree keeps it a built tree, and not empty. */
  lemma {:induction false} InsertKeepsBuilt(ms: seq<Member>, parts: seq<string>)
    requires Built(JObject(ms)) && parts != [] && DotFree(parts)
    ensures Built(JObject(InsertParts(ms, parts, {}))) && InsertParts(ms, parts, {}) != []
    decreases |parts|
  {
    var part := parts[0];
    assert part in parts;
    var i := FindKey(ms, part);
    if |parts| == 1 {
      if i < 0 {
        AssignKeepsBuilt(ms, part, JString(""));
        assert Assign(ms, part, JString("")) == ms + [Member(part, JString(""))];
      }
    } else {
      var existing := if i >= 0 then ms[i].value else JObject([]);
      if i >= 0 { assert ms[i] in ms; }
      var child := if existing.JString? then JObject([]) else existing;
      assert DotFree(parts[1..]) by {
        forall k | k in parts[1..] ensures '.' !in k { assert k in parts; }
      }
      InsertKeepsBuilt(child.members, parts[1..]);
      AssignKeepsBuilt(ms, part, JObject(InsertParts(child.members, parts[1..], {})));
    }
  }

  predicate Fits(ms: seq<Member>, parts: seq<string>) {
    forall q :: q in MemberPaths(ms) ==> !ProperPrefix(q, parts) && !ProperPrefix(parts, q)
  }

  lemma DotFreeTail(parts: seq<string>)
    requires parts != [] && DotFree(parts)
    ensures DotFree(parts[1..]) && '.' !in parts[0]
  {
    assert parts[0] in parts;
    forall k | k in parts[1..] ensures '.' !in k { assert k in parts; }
  }

  /** Walking in a key that neither runs through an existing leaf nor stops above an existing
      path adds exactly that key's path. */
  lemma {:induction false} InsertAddsPath(ms: seq<Member>, parts: seq<string>)
    requires Built(JObject(ms)) && parts != [] && DotFree(parts) && Fits(ms, parts)
    ensures MemberPaths(InsertParts(ms, parts, {})) == MemberPaths(ms) + {parts}
    decreases |parts|, 2
  {
    var i := FindKey(ms, parts[0]);
    if i >= 0 {
      InsertAddsPathThrough(ms, parts);
    } else if |parts| == 1 {
      MemberPathsAppend(ms, Member(parts[0], JString("")));
      assert Paths(JString("")) == {[]};
      assert [parts[0]] + [] == parts;
    } else {
      InsertAddsPathBranch(ms, parts);
    }
  }

  lemma {:induction false} InsertAddsPathBranch(ms: seq<Member>, parts: seq<string>)
    requires Built(JObject(ms)) && |parts| > 1 && DotFree(parts) && FindKey(ms, parts[0]) < 0
    ensures MemberPaths(InsertParts(ms, parts, {})) == MemberPaths(ms) + {parts}
    decreases |parts|, 0
  {
    var rest := parts[1..];
    DotFreeTail(parts);
    assert MemberPaths([]) == {};
    InsertAddsPath([], rest);
    var w := JObject(InsertParts([], rest, {}));
    MemberPathsAppend(ms, Member(parts[0], w));
    assert Paths(w) == {rest};
    assert [parts[0]] + rest == parts;
  }

  lemma {:induction false} InsertAddsPathThrough(ms: seq<Member>, parts: seq<string>)
    requires Built(JObject(ms)) && parts != [] && DotFree(parts) && Fits(ms, parts)
    requires FindKey(ms, parts[0]) >= 0
    ensures MemberPaths(InsertParts(ms, parts, {})) == MemberPaths(ms) + {parts}
    decreases |parts|, 1
  {
    var part := parts[0];
    var i := FindKey(ms, part);
    assert ms[i] in ms;
    var q := BuiltHasPath(ms[i].value);
    assert [part] + q in MemberPaths(ms);
    if |parts| == 1 {
      assert !ProperPrefix(parts, [part] + q);
      assert q == [];
      assert parts == [part] + q;
    } else {
      assert ms[i].value.JObject? by {
        assert ([part] + q)[..1] == [part];
        assert ms[i].value.JString? ==> q == [] && ProperPrefix([part], parts);
      }
      InsertThroughObject(ms, parts, i);
    }
  }

  lemma {:induction false} InsertThroughObject(ms: seq<Member>, parts: seq<string>, i: int)
    requires Built(JObject(ms)) && |parts| > 1 && DotFree(parts) && Fits(ms, parts)
    requires i == FindKey(ms, parts[0]) && i >= 0 && ms[i].value.JObject?
    ensures MemberPaths(InsertParts(ms, parts, {})) == MemberPaths(ms) + {parts}
    decreases |parts|, 0
  {
    var part, v, rest := parts[0], ms[i].value, parts[1..];
    ChildFits(ms, parts, i);
    DotFreeTail(parts);
    InsertAddsPath(v.members, rest);
    var w := JObject(InsertParts(v.members, rest, {}));
    assert InsertParts(ms, parts, {}) == ms[i := Member(part, w)];
    MemberPathsReplace(ms, i, w);
    PrefixedAdd(part, MemberPaths(v.members), rest);
    PrefixedWithin(ms, i);
    HeadRest(parts);
    SwapWithin(MemberPaths(ms), Prefixed(part, Paths(v)), Prefixed(part, Paths(w)), parts);
  }

  /** Taking out a part of a set and putting it back with one more element adds that element. */
  lemma SwapWithin<T>(all: set<T>, old_: set<T>, new_: set<T>, x: T)
    requires old_ <= all && new_ == old_ + {x}
    ensures (all - old_) + new_ == all + {x}
  {
  }

  /** The member a key walks through keeps the key's remaining parts clear of its own paths. */
  lemma ChildFits(ms: seq<Member>, parts: seq<string>, i: int)
    requires Built(JObject(ms)) && |parts| > 1 && Fits(ms, parts)
    requires 0 <= i < |ms| && ms[i].key == parts[0] && ms[i].value.JObject?
    ensures Built(ms[i].value) && Fits(ms[i].value.members, parts[1..])
  {
    var part, v, rest := parts[0], ms[i].value, parts[1..];
    assert ms[i] in ms;
    forall q' | q' in MemberPaths(v.members) ensures !ProperPrefix(q', rest) && !ProperPrefix(rest, q') {
      assert [part] + q' in MemberPaths(ms);
      assert ([part] + q')[1..] == q';
      assert parts[1..] == rest;
    }
  }

  lemma PrefixedAdd(k: string, a: set<seq<string>>, r: seq<string>)
    ensures Prefixed(k, a + {r}) == Prefixed(k, a) + {[k] + r}
  {
  }

  lemma PrefixedWithin(ms: seq<Member>, i: int)
    requires 0 <= i < |ms|
    ensures Prefixed(ms[i].key, Paths(ms[i].value)) <= MemberPaths(ms)
  {
    assert ms[i] in ms;
  }

  /** Walking in a key whose path is already a leaf changes nothing. */
  lemma {:induction false} InsertExisting(ms: seq<Member>, parts: seq<string>)
    requires Built(JObject(ms)) && parts != [] && parts in MemberPaths(ms)
    ensures InsertParts(ms, parts, {}) == ms
    decreases |parts|
  {
    var m, q :| m in ms && q in Paths(m.value) && parts == [m.key] + q;
    var j :| 0 <= j < |ms| && ms[j] == m;
    var i := FindKey(ms, parts[0]);
    assert i == j;
    if |parts| > 1 {
      var rest := parts[1..];
      assert rest == q;
      assert m.value.JObject?;
      assert rest in MemberPaths(m.value.members);
      InsertExisting(m.value.members, rest);
      assert ms[i := Member(parts[0], m.value)] == ms;
    }
  }

  /** The leaf paths a list of keys asks for: each non-empty key split at its dots. */
  function KeyPaths(keys: seq<string>): set<seq<string>> {
    set k | k in keys && k != "" :: Split(k, '.')
  }

  lemma KeyPathsSnoc(front: seq<string>, key: string)
    ensures KeyPaths(front + [key]) == KeyPaths(front) + (if key != "" then {Split(key, '.')} else {})
  {
  }

  /** No key names a leaf that another key needs as an object: no key's dotted path is a
      proper prefix of another's. */
  predicate NoLeafAboveAnother(keys: seq<string>) {
    forall a, b :: a in keys && b in keys && a != "" && b != "" ==>
      !ProperPrefix(Split(a, '.'), Split(b, '.'))
  }

  /** Built from keys none of which is a dotted prefix of another, the tree holds one leaf per
      distinct non-empty key and nothing else. */
  lemma {:induction false} TreeFacts(keys: seq<string>)
    requires NoLeafAboveAnother(keys)
    ensures Built(JObject(TreeMembers(keys, {})))
    ensures MemberPaths(TreeMembers(keys, {})) == KeyPaths(keys)
    decreases |keys|
  {
    if keys != [] {
      var front, key := keys[..|keys| - 1], keys[|keys| - 1];
      assert keys == front + [key];
      assert NoLeafAboveAnother(front) by {
        forall k | k in front ensures k in keys { }
      }
      TreeFacts(front);
      var built := TreeMembers(front, {});
      if key == "" {
        assert KeyPaths(keys) == KeyPaths(front);
      } else {
        var parts := Split(key, '.');
        assert KeyPaths(keys) == KeyPaths(front) + {parts};
        assert DotFree(parts) by {
          forall k | k in parts ensures '.' !in k {
            var x :| 0 <= x < |parts| && parts[x] == k;
          }
        }
        InsertKeepsBuilt(built, parts);
        if parts in MemberPaths(built) {
          InsertExisting(built, parts);
        } else {
          assert Fits(built, parts) by {
            forall q | q in MemberPaths(built) ensures !ProperPrefix(q, parts) && !ProperPrefix(parts, q) {
              var k :| k in front && k != "" && q == Split(k, '.');
              assert k in keys;
            }
          }
          InsertAddsPath(built, parts);
        }
      }
    }
  }

  /** A member of a built tree leads to a leaf below it. */
  lemma MemberLeadsToLeaf(ms: seq<Member>, m: Member) returns (p: seq<string>)
    requires Built(JObject(ms)) && m in ms
    ensures p in MemberPaths(ms) && p[0] == m.key
  {
    var q := BuiltHasPath(m.value);
    p := [m.key] + q;
  }

  /** Round trip: flattening the corrected tree of keys, none of which starts with a dot or is
      a dotted prefix of another, gives back exactly the non-empty keys. */
  lemma CorrectedRoundTrip(keys: seq<string>)
    requires NoLeafAboveAnother(keys)
    requires forall k :: k in keys && k != "" ==> k[0] != '.'
    ensures (set x | x in ExtractKeys(CorrectedTree(keys), "")) == set k | k in keys && k != ""
  {
    var tree := CorrectedTree(keys);
    TreeFacts(keys);
    assert Paths(tree) == KeyPaths(keys);
    forall m | m in tree.members ensures m.key != "" {
      var p := MemberLeadsToLeaf(tree.members, m);
      var k :| k in keys && k != "" && p == Split(k, '.');
    }
    ExtractIsDottedPaths(tree);
    forall k | k in keys && k != "" ensures Dotted(Split(k, '.')) == k {
      JoinSplit(k, '.');
    }
  }

  // ---------------------------------------------------------------------------------------------
  // The `in` test as written

  lemma {:induction false} InsertIgnoresUnusedNames(ms: seq<Member>, parts: seq<string>, inherited: set<string>)
    requires parts != [] && forall k :: k in parts ==> k !in inherited
    ensures InsertParts(ms, parts, inherited) == InsertParts(ms, parts, {})
    decreases |parts|
  {
    if |parts| > 1 {
      assert parts[0] in parts;
      var i := FindKey(ms, parts[0]);
      var existing := if i >= 0 then ms[i].value else JObject([]);
      var child := if existing.JString? then JObject([]) else existing;
      if child.JObject? {
        forall k | k in parts[1..] ensures k !in inherited { assert k in parts; }
        InsertIgnoresUnusedNames(child.members, parts[1..], inherited);
      }
    } else {
      assert parts[0] in parts;
    }
  }

  /** When no key has a part named like a property of `Object.prototype`, `buildTree` as
      written builds the corrected tree. */
  lemma {:induction false} AsWrittenAgreesWithoutPrototypeNames(keys: seq<string>)
    requires forall k, part :: k in keys && part in Split(k, '.') ==> part !in ObjectPrototypeNames
    ensures JObject(TreeMembers(keys, ObjectPrototypeNames)) == CorrectedTree(keys)
    decreases |keys|
  {
    if keys != [] {
      var front, key := keys[..|keys| - 1], keys[|keys| - 1];
      assert forall k :: k in front ==> k in keys;
      AsWrittenAgreesWithoutPrototypeNames(front);
      if key != "" {
        assert key in keys;
        InsertIgnoresUnusedNames(TreeMembers(front, {}), Split(key, '.'), ObjectPrototypeNames);
      }
    }
  }

  /** The key "constructor" is lost by `buildTree` as written, because `"constructor" in {}`
      holds; the corrected tree keeps it as a leaf. */
  lemma PrototypeNamedKeyLost()
    ensures TreeMembers(["constructor"], ObjectPrototypeNames) == []
  {
    SplitNoSeparator("constructor", '.');
    assert ["constructor"][..0] == [];
  }

  lemma CorrectedKeepsConstructor()
    ensures CorrectedTree(["constructor"]) == JObject([Member("constructor", JString(""))])
    ensures ExtractKeys(CorrectedTree(["constructor"]), "") == ["constructor"]
  {
    SplitNoSeparator("constructor", '.');
    assert ["constructor"][..0] == [];
  }

  // ---------------------------------------------------------------------------------------------
  // Any keys: a leaf above another key's path does not survive

  /** Some path of `s` runs through (or ends at) `q`. */
  predicate Covers(s: set<seq<string>>, q: seq<string>) {
    exists p :: p in s && IsPrefix(q, p)
  }

  predicate CoversAll(s: set<seq<string>>, t: set<seq<string>>) {
    forall q :: q in t ==> Covers(s, q)
  }

  lemma CoversTransitive(s: set<seq<string>>, t: set<seq<string>>, q: seq<string>)
    requires Covers(t, q) && CoversAll(s, t)
    ensures Covers(s, q)
  {
    var p :| p in t && IsPrefix(q, p);
    var r :| r in s && IsPrefix(p, r);
    assert r[..|q|] == r[..|p|][..|q|];
  }

  lemma CoversUnderKey(k: string, s: set<seq<string>>, q: seq<string>)
    requires Covers(s, q)
    ensures Covers(Prefixed(k, s), [k] + q)
  {
    var p :| p in s && IsPrefix(q, p);
    assert ([k] + p)[..|q| + 1] == [k] + p[..|q|];
    assert [k] + p in Prefixed(k, s);
  }

  /** Replacing a member's value by one that covers its old paths covers all the old paths. */
  lemma ReplaceCovers(ms: seq<Member>, i: int, w: Json)
    requires 0 <= i < |ms| && DistinctKeys(ms) && CoversAll(Paths(w), Paths(ms[i].value))
    ensures CoversAll(MemberPaths(ms[i := Member(ms[i].key, w)]), MemberPaths(ms))
  {
    var k, before := ms[i].key, ms[i].value;
    var after := ms[i := Member(k, w)];
    MemberPathsReplace(ms, i, w);
    forall q | q in MemberPaths(ms) ensures Covers(MemberPaths(after), q) {
      ReplaceCoversOne(MemberPaths(after), MemberPaths(ms), k, Paths(before), Paths(w), q);
    }
  }

  lemma ReplaceCoversOne(after: set<seq<string>>, all: set<seq<string>>, k: string,
                         before: set<seq<string>>, w: set<seq<string>>, q: seq<string>)
    requires CoversAll(w, before)
    requires after == (all - Prefixed(k, before)) + Prefixed(k, w)
    requires q in all
    ensures Covers(after, q)
  {
    if q in Prefixed(k, before) {
      var q' :| q' in before && q == [k] + q';
      CoversUnderKey(k, w, q');
    } else {
      assert IsPrefix(q, q);
    }
  }

  /** Adding a member keeps every old path. */
  lemma AppendCovers(ms: seq<Member>, m: Member)
    ensures CoversAll(MemberPaths(ms + [m]), MemberPaths(ms))
  {
    MemberPathsAppend(ms, m);
    forall q | q in MemberPaths(ms) ensures Covers(MemberPaths(ms + [m]), q) {
      assert IsPrefix(q, q);
    }
  }

  /** After a key's walk, the key's path runs into the tree and every old path is still
      there or has grown into a subtree. */
  lemma {:induction false} InsertCovers(ms: seq<Member>, parts: seq<string>)
    requires Built(JObject(ms)) && parts != [] && DotFree(parts)
    ensures Covers(MemberPaths(InsertParts(ms, parts, {})), parts)
    ensures CoversAll(MemberPaths(InsertParts(ms, parts, {})), MemberPaths(ms))
    decreases |parts|, 1
  {
    var i := FindKey(ms, parts[0]);
    if i < 0 {
      InsertCoversNew(ms, parts);
    } else {
      InsertCoversExisting(ms, parts, i);
    }
  }

  lemma {:induction false} InsertCoversNew(ms: seq<Member>, parts: seq<string>)
    requires Built(JObject(ms)) && parts != [] && DotFree(parts) && FindKey(ms, parts[0]) < 0
    ensures Covers(MemberPaths(InsertParts(ms, parts, {})), parts)
    ensures CoversAll(MemberPaths(InsertParts(ms, parts, {})), MemberPaths(ms))
    decreases |parts|, 0
  {
    var part, rest := parts[0], parts[1..];
    assert parts == [part] + rest;
    if |parts| == 1 {
      var m := Member(part, JString(""));
      AppendCovers(ms, m);
      MemberPathsAppend(ms, m);
      assert [part] + [] in Prefixed(part, Paths(JString("")));
      assert IsPrefix(parts, parts);
    } else {
      DotFreeTail(parts);
      InsertCovers([], rest);
      var w := JObject(InsertParts([], rest, {}));
      var m := Member(part, w);
      AppendCovers(ms, m);
      MemberPathsAppend(ms, m);
      CoversUnderKey(part, Paths(w), rest);
      CoversSubset(Prefixed(part, Paths(w)), MemberPaths(ms + [m]), parts);
    }
  }

  lemma CoversSubset(s: set<seq<string>>, t: set<seq<string>>, q: seq<string>)
    requires Covers(s, q) && s <= t
    ensures Covers(t, q)
  {
    var p :| p in s && IsPrefix(q, p);
    assert p in t;
  }

  lemma {:induction false} InsertCoversExisting(ms: seq<Member>, parts: seq<string>, i: int)
    requires Built(JObject(ms)) && parts != [] && DotFree(parts)
    requires i == FindKey(ms, parts[0]) && i >= 0
    ensures Covers(MemberPaths(InsertParts(ms, parts, {})), parts)
    ensures CoversAll(MemberPaths(InsertParts(ms, parts, {})), MemberPaths(ms))
    decreases |parts|, 0
  {
    var part, rest, before := parts[0], parts[1..], ms[i].value;
    assert parts == [part] + rest;
    assert ms[i] in ms;
    if |parts| == 1 {
      LeafCoversExisting(ms, parts, i);
    } else {
      DotFreeTail(parts);
      var child := if before.JString? then JObject([]) else before;
      InsertCovers(child.members, rest);
      var w := JObject(InsertParts(child.members, rest, {}));
      assert InsertParts(ms, parts, {}) == ms[i := Member(part, w)];
      assert CoversAll(Paths(w), Paths(before)) by {
        if before.JString? {
          var p :| p in Paths(w) && IsPrefix(rest, p);
          assert Paths(before) == {[]};
          assert IsPrefix([], p);
        }
      }
      ReplaceCovers(ms, i, w);
      MemberPathsReplace(ms, i, w);
      CoversUnderKey(part, Paths(w), rest);
      CoversSubset(Prefixed(part, Paths(w)), MemberPaths(ms[i := Member(part, w)]), parts);
    }
  }

  /** A one-part key that is already present leaves the members as they are. */
  lemma LeafCoversExisting(ms: seq<Member>, parts: seq<string>, i: int)
    requires Built(JObject(ms)) && |parts| == 1 && DotFree(parts)
    requires i == FindKey(ms, parts[0]) && i >= 0
    ensures Covers(MemberPaths(InsertParts(ms, parts, {})), parts)
    ensures CoversAll(MemberPaths(InsertParts(ms, parts, {})), MemberPaths(ms))
  {
    var part, before := parts[0], ms[i].value;
    assert ms[i] in ms;
    var q := BuiltHasPath(before);
    assert [part] + q in MemberPaths(ms);
    assert ([part] + q)[..1] == parts;
    forall q | q in MemberPaths(ms) ensures Covers(MemberPaths(ms), q) {
      assert IsPrefix(q, q);
    }
  }

  /** A key's walk adds no leaf other than the key's own path. */
  lemma {:induction false} InsertAddsAtMostPath(ms: seq<Member>, parts: seq<string>)
    requires Built(JObject(ms)) && parts != [] && DotFree(parts)
    ensures MemberPaths(InsertParts(ms, parts, {})) <= MemberPaths(ms) + {parts}
    decreases |parts|
  {
    var part, rest := parts[0], parts[1..];
    var i := FindKey(ms, part);
    assert parts == [part] + rest;
    if |parts| == 1 {
      if i < 0 {
        MemberPathsAppend(ms, Member(part, JString("")));
        assert Paths(JString("")) == {[]};
      }
    } else {
      DotFreeTail(parts);
      var before := if i >= 0 then ms[i].value else JObject([]);
      if i >= 0 { assert ms[i] in ms; }
      var child := if before.JString? then JObject([]) else before;
      InsertAddsAtMostPath(child.members, rest);
      var w := JObject(InsertParts(child.members, rest, {}));
      assert Paths(w) <= MemberPaths(child.members) + {rest};
      if i < 0 {
        assert MemberPaths([]) == {};
        MemberPathsAppend(ms, Member(part, w));
        PrefixedOne(part, Paths(w), rest);
      } else {
        assert InsertParts(ms, parts, {}) == ms[i := Member(part, w)];
        MemberPathsReplace(ms, i, w);
        if before.JObject? {
          PrefixedWithin(ms, i);
          PrefixedUnion(part, Paths(w), Paths(before), rest);
        } else {
          assert MemberPaths(child.members) == {};
          PrefixedOne(part, Paths(w), rest);
        }
      }
    }
  }

  lemma PrefixedOne(k: string, s: set<seq<string>>, rest: seq<string>)
    requires s <= {rest}
    ensures Prefixed(k, s) <= {[k] + rest}
  {
  }

  lemma PrefixedUnion(k: string, s: set<seq<string>>, t: set<seq<string>>, rest: seq<string>)
    requires s <= t + {rest}
    ensures Prefixed(k, s) <= Prefixed(k, t) + {[k] + rest}
  {
  }

  /** In a built tree no leaf lies on the way to another: leaf paths are prefix-free. */
  lemma {:induction false} BuiltPrefixFree(j: Json, p: seq<string>, q: seq<string>)
    requires Built(j) && p in Paths(j) && q in Paths(j)
    ensures !ProperPrefix(q, p)
    decreases j
  {
    if j.JObject? && ProperPrefix(q, p) {
      var a, p' := PathThrough(j, p);
      var b, q' := PathThrough(j, q);
      assert p[0] == q[0];
      assert a == b;
      TailsPrefix(j.members[a].key, p', q');
      BuiltPrefixFree(j.members[a].value, p', q');
    }
  }

  /** A leaf path of an object runs through one of its members. */
  lemma PathThrough(j: Json, p: seq<string>) returns (a: int, p': seq<string>)
    requires j.JObject? && p in Paths(j)
    ensures 0 <= a < |j.members| && p' in Paths(j.members[a].value) && p == [j.members[a].key] + p'
  {
    var m, r :| m in j.members && r in Paths(m.value) && p == [m.key] + r;
    a :| 0 <= a < |j.members| && j.members[a] == m;
    p' := r;
  }

  lemma TailsPrefix(k: string, p: seq<string>, q: seq<string>)
    requires ProperPrefix([k] + q, [k] + p)
    ensures ProperPrefix(q, p)
  {
    assert p[..|q|] == ([k] + p)[..|q| + 1][1..];
  }

  /** The parts of a split at '.' hold no '.'. */
  lemma SplitDotFree(key: string)
    ensures DotFree(Split(key, '.'))
  {
    var parts := Split(key, '.');
    forall k | k in parts ensures '.' !in k {
      var x :| 0 <= x < |parts| && parts[x] == k;
    }
  }

  /** What the earlier keys' paths covered stays covered, and the new key's path is covered. */
  lemma CoversAfterInsert(front: seq<string>, key: string, before: set<seq<string>>, after: set<seq<string>>)
    requires forall k :: k in front && k != "" ==> Covers(before, Split(k, '.'))
    requires CoversAll(after, before) && Covers(after, Split(key, '.'))
    ensures forall k :: k in front + [key] && k != "" ==> Covers(after, Split(k, '.'))
  {
    forall k | k in front + [key] && k != "" ensures Covers(after, Split(k, '.')) {
      if k != key {
        assert k in front;
        CoversTransitive(after, before, Split(k, '.'));
      }
    }
  }

  /** The corrected tree of any keys: built, no leaf outside the keys' paths, and every
      non-empty key's path runs into it. */
  lemma TreeShape(keys: seq<string>)
    ensures Built(CorrectedTree(keys))
    ensures Paths(CorrectedTree(keys)) <= KeyPaths(keys)
    ensures forall k :: k in keys && k != "" ==> Covers(Paths(CorrectedTree(keys)), Split(k, '.'))
  {
    MembersShaped(keys);
  }

  /** The members built from `keys` form a built tree, have leaves only on the keys' paths and
      cover every non-empty key's path. */
  predicate Shaped(keys: seq<string>, ms: seq<Member>) {
    Built(JObject(ms)) && MemberPaths(ms) <= KeyPaths(keys)
    && forall k :: k in keys && k != "" ==> Covers(MemberPaths(ms), Split(k, '.'))
  }

  lemma {:induction false} MembersShaped(keys: seq<string>)
    ensures Shaped(keys, TreeMembers(keys, {}))
    decreases |keys|
  {
    if keys != [] {
      var front, key := keys[..|keys| - 1], keys[|keys| - 1];
      MembersShaped(front);
      ShapeStep(front, key, TreeMembers(front, {}));
      FrontLast(keys);
    }
  }

  /** One more key keeps the members shaped. */
  lemma ShapeStep(front: seq<string>, key: string, built: seq<Member>)
    requires Shaped(front, built)
    ensures Shaped(front + [key], if key == "" then built else InsertParts(built, Split(key, '.'), {}))
  {
    KeyPathsSnoc(front, key);
    if key != "" {
      var parts := Split(key, '.');
      SplitDotFree(key);
      InsertKeepsBuilt(built, parts);
      InsertAddsAtMostPath(built, parts);
      InsertCovers(built, parts);
      CoversAfterInsert(front, key, MemberPaths(built), MemberPaths(InsertParts(built, parts, {})));
    } else {
      forall k | k in front + [key] && k != "" ensures Covers(MemberPaths(built), Split(k, '.')) {
        assert k in front;
      }
    }
  }

  /** Every flattened key of a built tree whose leaves are paths of keys is one of the keys,
      and its path is a leaf. */
  lemma ExtractedAreLeafKeys(tree: Json, keys: seq<string>)
    requires tree.JObject? && Built(tree) && Paths(tree) <= KeyPaths(keys)
    requires forall k :: k in keys && k != "" ==> k[0] != '.'
    ensures forall x :: x in ExtractKeys(tree, "") ==> x in keys && Split(x, '.') in Paths(tree)
  {
    forall m | m in tree.members ensures m.key != "" {
      var r := MemberLeadsToLeaf(tree.members, m);
      assert r in KeyPaths(keys);
      var k :| k in keys && k != "" && r == Split(k, '.');
    }
    ExtractIsDottedPaths(tree);
    var extracted := set y | y in ExtractKeys(tree, "");
    var dotted := set p | p in Paths(tree) :: Dotted(p);
    assert extracted == dotted;
    forall x | x in ExtractKeys(tree, "") ensures x in keys && Split(x, '.') in Paths(tree) {
      assert x in extracted;
      assert x in dotted;
      var r :| r in Paths(tree) && Dotted(r) == x;
      assert r in KeyPaths(keys);
      var k :| k in keys && k != "" && r == Split(k, '.');
      JoinSplit(k, '.');
    }
  }

  lemma NotALeaf(tree: Json, pa: seq<string>, pb: seq<string>)
    requires Built(tree) && Covers(Paths(tree), pb) && ProperPrefix(pa, pb)
    ensures pa !in Paths(tree)
  {
    var p :| p in Paths(tree) && IsPrefix(pb, p);
    assert p[..|pa|] == p[..|pb|][..|pa|];
    if pa in Paths(tree) {
      BuiltPrefixFree(tree, p, pa);
    }
  }

  /** A key whose dotted path is a proper prefix of another key's is not a leaf of the tree
      and is not among its flattened keys: the longer key turned it into an object. */
  lemma LeafAboveAnotherLost(keys: seq<string>, a: string, b: string)
    requires a in keys && b in keys && a != "" && b != ""
    requires ProperPrefix(Split(a, '.'), Split(b, '.'))
    requires forall k :: k in keys && k != "" ==> k[0] != '.'
    ensures Split(a, '.') !in Paths(CorrectedTree(keys))
    ensures a !in ExtractKeys(CorrectedTree(keys), "")
  {
    var tree := CorrectedTree(keys);
    TreeShape(keys);
    NotALeaf(tree, Split(a, '.'), Split(b, '.'));
    ExtractedAreLeafKeys(tree, keys);
  }

  // ---------------------------------------------------------------------------------------------
  // sortTree

  predicate Ordered(ks: seq<string>) {
    forall i :: 0 < i < |ks| ==> StrLe(ks[i - 1], ks[i])
  }

  /** `.sort()` on a list of keys. */
  function SortStrings(ks: seq<string>): (r: seq<string>)
    ensures Ordered(r) && multiset(r) == multiset(ks)
  {
    StrLeSorts(ks);
    SortBy(ks, StrLe)
  }

  lemma StrLeSorts(ks: seq<string>)
    ensures Ordered(SortBy(ks, StrLe)) && SortedBy(SortBy(ks, StrLe), StrLe)
  {
    forall a, b ensures StrLe(a, b) || StrLe(b, a) {
      StrLeTotal(a, b);
    }
    forall a, b, c | StrLe(a, b) && StrLe(b, c) ensures StrLe(a, c) {
      StrLeTransitive(a, b, c);
    }
    SortBySorted(ks, StrLe);
    var r := SortBy(ks, StrLe);
    assert forall i :: 0 < i < |r| ==> StrLe(r[i - 1], r[i]);
  }

  /** `Object.keys`: the member keys in order. */
  function KeysOf(ms: seq<Member>): (r: seq<string>)
    ensures |r| == |ms| && forall i :: 0 <= i < |ms| ==> r[i] == ms[i].key
  {
    seq(|ms|, i requires 0 <= i < |ms| => ms[i].key)
  }

  /** `sortTree`: an object is rebuilt with its keys in sorted order, each value sorted in
      turn; anything else is returned as it is. */
  function SortTree(j: Json): Json
    decreases j, 1
  {
    if j.JObject? then
      var ks := SortStrings(KeysOf(j.members));
      assert forall k :: k in ks ==> k in multiset(KeysOf(j.members));
      JObject(SortedMembers(j, ks))
    else j
  }

  /** The loop of `sortTree`: one member per sorted key, holding that key's sorted value. */
  function SortedMembers(j: Json, ks: seq<string>): (r: seq<Member>)
    requires j.JObject? && forall k :: k in ks ==> k in KeysOf(j.members)
    ensures KeysOf(r) == ks
    decreases j, 0, |ks|
  {
    if ks == [] then []
    else
      var i := FindKey(j.members, ks[0]);
      assert ks[0] in KeysOf(j.members);
      assert j.members[i] in j.members;
      [Member(ks[0], SortTree(j.members[i].value))] + SortedMembers(j, ks[1..])
  }

  /** Keys in sorted order in every object of the tree. */
  predicate OrderedEverywhere(j: Json)
    decreases j
  {
    j.JObject? ==> Ordered(KeysOf(j.members)) && forall m :: m in j.members ==> OrderedEverywhere(m.value)
  }

  /** `sortTree` orders the keys of every object, at every level. */
  lemma {:induction false} SortTreeOrdered(j: Json)
    ensures OrderedEverywhere(SortTree(j))
    decreases j, 1
  {
    if j.JObject? {
      var ks := SortStrings(KeysOf(j.members));
      assert forall k :: k in ks ==> k in multiset(KeysOf(j.members));
      SortedMembersOrdered(j, ks);
    }
  }

  lemma {:induction false} SortedMembersOrdered(j: Json, ks: seq<string>)
    requires j.JObject? && forall k :: k in ks ==> k in KeysOf(j.members)
    ensures forall m :: m in SortedMembers(j, ks) ==> OrderedEverywhere(m.value)
    decreases j, 0, |ks|
  {
    if ks != [] {
      var i := FindKey(j.members, ks[0]);
      assert ks[0] in KeysOf(j.members);
      assert j.members[i] in j.members;
      SortTreeOrdered(j.members[i].value);
      SortedMembersOrdered(j, ks[1..]);
    }
  }

  // ---------------------------------------------------------------------------------------------
  // The order in which an object lists its keys

  /** A canonical array index: "0", or digits without a leading zero, below 2^32 - 1. */
  predicate IsArrayIndex(k: string) {
    k != "" && AllDigits(k) && (k[0] != '0' || |k| == 1) && DecimalValue(k) < 0xFFFF_FFFF
  }

  predicate NotArrayIndex(k: string) { !IsArrayIndex(k) }

  /** The numeric value of an array index; other keys rank as 0 (they are never compared). */
  function IndexRank(k: string): nat {
    if IsArrayIndex(k) then DecimalValue(k) else 0
  }

  predicate IndexLe(a: string, b: string) { IndexRank(a) <= IndexRank(b) }

  /** `Object.keys`, `Object.entries` and `JSON.stringify` on an object whose keys were added
      in the order `ks`: the array indices first, by numeric value, then the other keys in the
      order they were added. */
  function PropertyOrder(ks: seq<string>): (r: seq<string>)
    ensures multiset(r) == multiset(ks)
  {
    FilterPartition(ks, IsArrayIndex, NotArrayIndex);
    SortBy(Filter(ks, IsArrayIndex), IndexLe) + Filter(ks, NotArrayIndex)
  }

  /** The order `sortTree`'s result is written in: array indices by value before every other
      key, the other keys by `.sort()`'s string order. */
  predicate ListedLe(a: string, b: string) {
    if IsArrayIndex(a) then !IsArrayIndex(b) || DecimalValue(a) <= DecimalValue(b)
    else !IsArrayIndex(b) && StrLe(a, b)
  }

  /** Every object of the tree lists its keys in `ListedLe` order. */
  predicate ListedEverywhere(j: Json)
    decreases j
  {
    j.JObject? ==> SortedBy(PropertyOrder(KeysOf(j.members)), ListedLe)
                   && forall m :: m in j.members ==> ListedEverywhere(m.value)
  }

  /** Keys added in string order are listed with the array indices first, by value, and the
      other keys after them in string order. */
  lemma PropertyOrderOfSorted(ks: seq<string>)
    requires SortedBy(ks, StrLe)
    ensures SortedBy(PropertyOrder(ks), ListedLe)
  {
    var idx := Filter(ks, IsArrayIndex);
    var a := SortBy(idx, IndexLe);
    var b := Filter(ks, NotArrayIndex);
    assert Total(IndexLe) && Transitive(IndexLe);
    SortBySorted(idx, IndexLe);
    FilterSorted(ks, NotArrayIndex, StrLe);
    FilterSatisfies(ks, IsArrayIndex);
    FilterSatisfies(ks, NotArrayIndex);
    PermutationMembers(a, idx);
    assert forall x :: x in a ==> IsArrayIndex(x) by {
      forall x | x in a ensures IsArrayIndex(x) {
        var k :| 0 <= k < |idx| && idx[k] == x;
      }
    }
    var r := a + b;
    forall i, j | 0 <= i < j < |r| ensures ListedLe(r[i], r[j]) {
      if j < |a| {
        assert r[i] == a[i] && r[j] == a[j] && IndexLe(a[i], a[j]);
        assert a[i] in a && a[j] in a;
      } else if i < |a| {
        assert r[i] == a[i] && a[i] in a && r[j] == b[j - |a|];
      } else {
        assert r[i] == b[i - |a|] && r[j] == b[j - |a|];
      }
    }
  }

  /** `sortTree` lists the keys of every object, at every level, in `ListedLe` order. */
  lemma {:induction false} SortTreeListed(j: Json)
    ensures ListedEverywhere(SortTree(j))
    decreases j, 1
  {
    if j.JObject? {
      var ks := SortStrings(KeysOf(j.members));
      assert forall k :: k in ks ==> k in multiset(KeysOf(j.members));
      StrLeSorts(KeysOf(j.members));
      PropertyOrderOfSorted(ks);
      SortedMembersListed(j, ks);
    }
  }

  lemma {:induction false} SortedMembersListed(j: Json, ks: seq<string>)
    requires j.JObject? && forall k :: k in ks ==> k in KeysOf(j.members)
    ensures forall m :: m in SortedMembers(j, ks) ==> ListedEverywhere(m.value)
    decreases j, 0, |ks|
  {
    if ks != [] {
      var i := FindKey(j.members, ks[0]);
      assert ks[0] in KeysOf(j.members);
      assert j.members[i] in j.members;
      SortTreeListed(j.members[i].value);
      SortedMembersListed(j, ks[1..]);
    }
  }

  /** "9" and "10" are array indices, and "10" sorts first as a string. */
  lemma NineAndTen()
    ensures IsArrayIndex("9") && IsArrayIndex("10")
    ensures IndexRank("9") == 9 && IndexRank("10") == 10
    ensures StrLe("10", "9") && !StrLe("9", "10")
  {
    assert DecimalValue("9") == 9;
    assert DecimalValue("1") == 1;
    assert DecimalValue("10") == 10;
  }

  /** The object with keys "10" and "9", added in that order, lists "9" first. */
  lemma TenNineListed()
    ensures PropertyOrder(["10", "9"]) == ["9", "10"]
  {
    NineAndTen();
    assert Filter(["10", "9"], IsArrayIndex) == ["10", "9"];
    assert Filter(["10", "9"], NotArrayIndex) == [];
    assert SortBy(["9"], IndexLe) == ["9"];
    assert InsertBy("10", ["9"], IndexLe) == ["9", "10"];
  }

  /** `.sort()` puts "10" before "9", from either order. */
  lemma TenNineSorted(first: string, second: string)
    requires first in {"9", "10"} && second in {"9", "10"} && first != second
    ensures SortStrings([first, second]) == ["10", "9"]
  {
    NineAndTen();
    assert SortBy([second], StrLe) == [second];
  }

  /** For the keys "10" and "9", in either order, the sorted object holds "10" first in
      insertion order, as string order puts it, yet lists "9" first. */
  lemma IndexKeysByValue(first: string, second: string)
    requires first in {"9", "10"} && second in {"9", "10"} && first != second
    ensures var tree := SortTree(JObject([Member(first, JString("")), Member(second, JString(""))]));
            KeysOf(tree.members) == ["10", "9"]
            && PropertyOrder(KeysOf(tree.members)) == ["9", "10"]
  {
    var ms := [Member(first, JString("")), Member(second, JString(""))];
    var keys := KeysOf(SortTree(JObject(ms)).members);
    assert keys == ["10", "9"] by {
      assert KeysOf(ms) == [first, second];
      SortTreeKeys(ms);
      TenNineSorted(first, second);
    }
    TenNineListed();
  }

  /** The sorted object holds the sorted keys of the original, in that order. */
  lemma SortTreeKeys(ms: seq<Member>)
    ensures KeysOf(SortTree(JObject(ms)).members) == SortStrings(KeysOf(ms))
  {
  }

  /** The leaf paths below the members whose keys are listed in `ks`. */
  function KeyedPaths(ms: seq<Member>, ks: seq<string>): set<seq<string>> {
    set m, p | m in ms && m.key in ks && p in Paths(m.value) :: [m.key] + p
  }

  lemma MemberPathsCons(m: Member, rest: seq<Member>)
    ensures MemberPaths([m] + rest) == Prefixed(m.key, Paths(m.value)) + MemberPaths(rest)
  {
    forall x | x in MemberPaths([m] + rest) ensures x in Prefixed(m.key, Paths(m.value)) + MemberPaths(rest) {
      var n, p :| n in [m] + rest && p in Paths(n.value) && x == [n.key] + p;
      if n != m { assert n in rest; }
    }
  }

  /** The member with a given key is the one `FindKey` finds, when keys are distinct. */
  lemma KeyedPathsCons(ms: seq<Member>, k: string, ks: seq<string>)
    requires DistinctKeys(ms) && FindKey(ms, k) >= 0
    ensures KeyedPaths(ms, [k] + ks)
              == Prefixed(k, Paths(ms[FindKey(ms, k)].value)) + KeyedPaths(ms, ks)
  {
    var i := FindKey(ms, k);
    assert ms[i] in ms;
    forall x | x in KeyedPaths(ms, [k] + ks)
      ensures x in Prefixed(k, Paths(ms[i].value)) + KeyedPaths(ms, ks)
    {
      var m, p :| m in ms && m.key in [k] + ks && p in Paths(m.value) && x == [m.key] + p;
      var a :| 0 <= a < |ms| && ms[a] == m;
      assert m.key == k ==> a == i;
    }
  }

  /** `sortTree` keeps every leaf path of a tree `buildTree` builds, and nothing more. */
  lemma {:induction false} SortTreePaths(j: Json)
    requires Built(j)
    ensures Paths(SortTree(j)) == Paths(j)
    decreases j, 1
  {
    if j.JObject? {
      var ms := j.members;
      var ks := SortStrings(KeysOf(ms));
      KeysCovered(ms, ks);
      SortedMembersPaths(j, ks);
      KeyedAll(ms, ks);
    }
  }

  /** A permutation of the keys of `ms` holds exactly those keys. */
  lemma KeysCovered(ms: seq<Member>, ks: seq<string>)
    requires multiset(ks) == multiset(KeysOf(ms))
    ensures forall k :: k in ks ==> k in KeysOf(ms)
    ensures forall m :: m in ms ==> m.key in ks
  {
    PermutationMembers(ks, KeysOf(ms));
    forall m | m in ms ensures m.key in ks {
      var a :| 0 <= a < |ms| && ms[a] == m;
      assert KeysOf(ms)[a] == m.key;
    }
  }

  /** When every key is selected, the selected paths are all the paths. */
  lemma KeyedAll(ms: seq<Member>, ks: seq<string>)
    requires forall m :: m in ms ==> m.key in ks
    ensures KeyedPaths(ms, ks) == MemberPaths(ms)
  {
  }

  lemma {:induction false} SortedMembersPaths(j: Json, ks: seq<string>)
    requires Built(j) && j.JObject? && forall k :: k in ks ==> k in KeysOf(j.members)
    ensures MemberPaths(SortedMembers(j, ks)) == KeyedPaths(j.members, ks)
    decreases j, 0, |ks|
  {
    if ks == [] {
      assert KeyedPaths(j.members, ks) == {};
    } else {
      var ms := j.members;
      var i := FindKey(ms, ks[0]);
      assert ks[0] in KeysOf(ms);
      assert ms[i] in ms;
      SortTreePaths(ms[i].value);
      SortedMembersPaths(j, ks[1..]);
      MemberPathsCons(Member(ks[0], SortTree(ms[i].value)), SortedMembers(j, ks[1..]));
      HeadRest(ks);
      KeyedPathsCons(ms, ks[0], ks[1..]);
    }
  }
}
