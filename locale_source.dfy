/** The scan of a source text for translation calls in `scripts/extract-locale-keys.js`: the
    global regular expression for `t('…')`, `t("…")` and `t(`…`)`, run with `exec` from one
    match's end to the next, and `uniq` over the keys found. */
module LocaleSource {
  import opened Common
  import opened JsText

  /** The characters `.` does not match without the `s` flag. */
  predicate IsLineTerminator(c: char) {
    c == '\n' || c == '\r' || c == '\U{2028}' || c == '\U{2029}'
  }

  predicate IsQuote(c: char) { c == '\'' || c == '"' || c == '`' }

  /** `\b` in front of a word character: the start of the text or a non-word character. */
  predicate WordStart(src: string, i: int)
    requires 0 <= i <= |src|
  {
    i == 0 || !IsWordChar(src[i - 1])
  }

  /** The language of `(?:\\.|[^q\\])*`: escaped characters other than line terminators,
      and characters that are neither the quote nor a backslash. */
  predicate QuotedBody(s: string, q: char)
    decreases |s|
  {
    s == []
    || (s[0] == '\\' && |s| >= 2 && !IsLineTerminator(s[1]) && QuotedBody(s[2..], q))
    || (s[0] != q && s[0] != '\\' && QuotedBody(s[1..], q))
  }

  // ---------------------------------------------------------------------------------------------
  // The regular expression, read declaratively

  /** `\s*` matches `src[k..r]`. */
  predicate SpaceBetween(src: string, k: int, r: int)
    requires 0 <= k <= r <= |src|
  {
    forall j :: k <= j < r ==> IsSpace(src[j])
  }

  /** The literal body `(?:\\.|[^q\\])*` matches `src[k..e]`. */
  predicate BodyBetween(src: string, q: char, k: int, e: int)
    requires 0 <= k <= e <= |src|
    decreases e - k
  {
    k == e
    || (src[k] == '\\' && k + 2 <= e && !IsLineTerminator(src[k + 1]) && BodyBetween(src, q, k + 2, e))
    || (src[k] != q && src[k] != '\\' && BodyBetween(src, q, k + 1, e))
  }

  /** The body read on positions is the body read on the literal's text. */
  lemma {:induction false} BodyBetweenIsQuotedBody(src: string, q: char, k: int, e: int)
    requires 0 <= k <= e <= |src|
    ensures BodyBetween(src, q, k, e) <==> QuotedBody(src[k..e], q)
    decreases e - k
  {
    if k < e {
      var s := src[k..e];
      assert s[0] == src[k];
      if k + 1 < e { assert s[1] == src[k + 1]; }
      if k + 2 <= e {
        assert s[2..] == src[k + 2..e];
        BodyBetweenIsQuotedBody(src, q, k + 2, e);
      }
      assert s[1..] == src[k + 1..e];
      BodyBetweenIsQuotedBody(src, q, k + 1, e);
    }
  }

  /** A match starting at `i`, with `(` at `a`, the opening quote at `b`, the closing quote at
      `e` and `)` at `c`. */
  predicate MatchesWith(src: string, i: int, a: int, b: int, e: int, c: int) {
    0 <= i < a < b < e < c < |src|
    && src[i] == 't' && WordStart(src, i)
    && SpaceBetween(src, i + 1, a) && src[a] == '('
    && SpaceBetween(src, a + 1, b) && IsQuote(src[b])
    && BodyBetween(src, src[b], b + 1, e) && src[e] == src[b]
    && SpaceBetween(src, e + 1, c) && src[c] == ')'
  }

  /** A match at `i` whose captured literal is `key` and which ends before `end`. */
  ghost predicate Matches(src: string, i: int, key: string, end: int) {
    exists a, b, e, c :: MatchesWith(src, i, a, b, e, c) && key == src[b + 1..e] && end == c + 1
  }

  // ---------------------------------------------------------------------------------------------
  // The matcher

  datatype Found = Found(start: nat, key: string, end: nat)

  /** `\s*` from `k`: the first position that is not white space. */
  function SkipSpace(src: string, k: nat): (r: nat)
    requires k <= |src|
    ensures k <= r <= |src|
    decreases |src| - k
  {
    if k < |src| && IsSpace(src[k]) then SkipSpace(src, k + 1) else k
  }

  /** `\s*` skips white space only, and all of it. */
  lemma {:induction false} SkipSpaceSkipsSpace(src: string, k: nat, r: nat)
    requires k <= |src| && r == SkipSpace(src, k)
    ensures SpaceBetween(src, k, r) && (r == |src| || !IsSpace(src[r]))
    decreases |src| - k
  {
    if k < |src| && IsSpace(src[k]) {
      SkipSpaceSkipsSpace(src, k + 1, r);
    }
  }

  /** The greedy body of a literal opened by `q` at `k - 1`: where the body stops. */
  function BodyEnd(src: string, q: char, k: nat): (r: nat)
    requires k <= |src|
    ensures k <= r <= |src|
    decreases |src| - k
  {
    if k == |src| then k
    else if src[k] == '\\' then
      if k + 1 < |src| && !IsLineTerminator(src[k + 1]) then BodyEnd(src, q, k + 2) else k
    else if src[k] == q then k
    else BodyEnd(src, q, k + 1)
  }

  /** What the body consumes is in the language of the body, and it stops only at the quote,
      at a backslash it cannot pair, or at the end. */
  lemma {:induction false} BodyEndIsBody(src: string, q: char, k: nat, r: nat)
    requires k <= |src| && r == BodyEnd(src, q, k)
    ensures BodyBetween(src, q, k, r) && (r < |src| && src[r] != '\\' ==> src[r] == q)
    decreases |src| - k
  {
    if k < |src| {
      if src[k] == '\\' {
        if k + 1 < |src| && !IsLineTerminator(src[k + 1]) {
          BodyEndIsBody(src, q, k + 2, r);
        }
      } else if src[k] != q {
        BodyEndIsBody(src, q, k + 1, r);
      }
    }
  }

  /** The regular expression tried at position `i` only (its sticky form). */
  function MatchAt(src: string, i: nat): (r: Option<Found>)
    ensures r.Some? ==> r.value.start == i && i < r.value.end <= |src|
  {
    if i < |src| && src[i] == 't' && WordStart(src, i) then
      var a := SkipSpace(src, i + 1);
      if a < |src| && src[a] == '(' then
        var b := SkipSpace(src, a + 1);
        if b < |src| && IsQuote(src[b]) then
          var e := BodyEnd(src, src[b], b + 1);
          if e < |src| && src[e] == src[b] then
            var c := SkipSpace(src, e + 1);
            if c < |src| && src[c] == ')' then Some(Found(i, src[b + 1..e], c + 1))
            else None
          else None
        else None
      else None
    else None
  }

  lemma {:induction false} SkipSpaceUnique(src: string, k: nat, a: nat)
    requires k <= a < |src| && SpaceBetween(src, k, a) && !IsSpace(src[a])
    ensures SkipSpace(src, k) == a
    decreases a - k
  {
    if k < a {
      SkipSpaceUnique(src, k + 1, a);
    }
  }

  lemma {:induction false} BodyEndUnique(src: string, q: char, k: nat, e: nat)
    requires IsQuote(q) && k <= e < |src| && BodyBetween(src, q, k, e) && src[e] == q
    ensures BodyEnd(src, q, k) == e
    decreases e - k
  {
    if k < e {
      if src[k] == '\\' {
        BodyEndUnique(src, q, k + 2, e);
      } else {
        BodyEndUnique(src, q, k + 1, e);
      }
    }
  }

  /** The positions the matcher stops at when it finds a match at `i`. */
  lemma MatchAtPositions(src: string, i: nat) returns (a: nat, b: nat, e: nat, c: nat)
    requires MatchAt(src, i).Some?
    ensures i < a < b < e < c < |src| && src[i] == 't' && WordStart(src, i)
    ensures a == SkipSpace(src, i + 1) && src[a] == '('
    ensures b == SkipSpace(src, a + 1) && IsQuote(src[b])
    ensures e == BodyEnd(src, src[b], b + 1) && src[e] == src[b]
    ensures c == SkipSpace(src, e + 1) && src[c] == ')'
    ensures MatchAt(src, i) == Some(Found(i, src[b + 1..e], c + 1))
  {
    a := SkipSpace(src, i + 1);
    b := SkipSpace(src, a + 1);
    e := BodyEnd(src, src[b], b + 1);
    c := SkipSpace(src, e + 1);
  }

  lemma OpeningSpaces(src: string, i: nat, a: nat, b: nat)
    requires i < a < b < |src| && a == SkipSpace(src, i + 1) && b == SkipSpace(src, a + 1)
    ensures SpaceBetween(src, i + 1, a) && SpaceBetween(src, a + 1, b)
  {
    SkipSpaceSkipsSpace(src, i + 1, a);
    SkipSpaceSkipsSpace(src, a + 1, b);
  }

  lemma BodyAndClosing(src: string, b: nat, e: nat, c: nat)
    requires b < e < c < |src| && e == BodyEnd(src, src[b], b + 1) && c == SkipSpace(src, e + 1)
    ensures BodyBetween(src, src[b], b + 1, e) && SpaceBetween(src, e + 1, c)
  {
    BodyEndIsBody(src, src[b], b + 1, e);
    SkipSpaceSkipsSpace(src, e + 1, c);
  }

  lemma MatchAtMatches(src: string, i: nat, key: string, end: nat)
    requires MatchAt(src, i) == Some(Found(i, key, end))
    ensures Matches(src, i, key, end)
  {
    var a, b, e, c := MatchAtPositions(src, i);
    OpeningSpaces(src, i, a, b);
    BodyAndClosing(src, b, e, c);
    assert MatchesWith(src, i, a, b, e, c);
  }

  lemma MatchesMatchAt(src: string, i: nat, key: string, end: nat)
    requires Matches(src, i, key, end)
    ensures MatchAt(src, i) == Some(Found(i, key, end))
  {
    var a, b, e, c :| MatchesWith(src, i, a, b, e, c) && key == src[b + 1..e] && end == c + 1;
    MatchesWithMatchAt(src, i, a, b, e, c);
  }

  lemma MatchesWithMatchAt(src: string, i: nat, a: nat, b: nat, e: nat, c: nat)
    requires MatchesWith(src, i, a, b, e, c)
    ensures MatchAt(src, i) == Some(Found(i, src[b + 1..e], c + 1))
  {
    SkipSpaceUnique(src, i + 1, a);
    SkipSpaceUnique(src, a + 1, b);
    LiteralEnd(src, b, e, c);
  }

  lemma LiteralEnd(src: string, b: nat, e: nat, c: nat)
    requires b < e < c < |src| && IsQuote(src[b]) && BodyBetween(src, src[b], b + 1, e)
    requires src[e] == src[b] && SpaceBetween(src, e + 1, c) && src[c] == ')'
    ensures BodyEnd(src, src[b], b + 1) == e && SkipSpace(src, e + 1) == c
  {
    BodyEndUnique(src, src[b], b + 1, e);
    SkipSpaceUnique(src, e + 1, c);
  }

  /** The matcher finds a match at `i` exactly when the regular expression matches there,
      with the same captured literal and the same end. */
  lemma MatchAtIffMatches(src: string, i: nat, key: string, end: nat)
    ensures MatchAt(src, i) == Some(Found(i, key, end)) <==> Matches(src, i, key, end)
  {
    if MatchAt(src, i) == Some(Found(i, key, end)) {
      MatchAtMatches(src, i, key, end);
    }
    if Matches(src, i, key, end) {
      MatchesMatchAt(src, i, key, end);
    }
  }

  /** `exec` on the global expression from `lastIndex == from`: the leftmost match at or after
      `from`. */
  function NextMatch(src: string, from: nat): (r: Option<Found>)
    ensures r.Some? ==> from <= r.value.start < r.value.end <= |src|
    decreases |src| - from
  {
    if from >= |src| then None
    else match MatchAt(src, from)
      case Some(f) => Some(f)
      case None => NextMatch(src, from + 1)
  }

  /** What `exec` returns is a match, and no match starts between `from` and it. */
  lemma {:induction false} NextMatchIsLeftmost(src: string, from: nat)
    ensures NextMatch(src, from).Some? ==> MatchAt(src, NextMatch(src, from).value.start) == NextMatch(src, from)
    ensures forall j: nat :: from <= j && (NextMatch(src, from).None? || j < NextMatch(src, from).value.start)
              ==> MatchAt(src, j).None?
    decreases |src| - from
  {
    if from < |src| && MatchAt(src, from).None? {
      NextMatchIsLeftmost(src, from + 1);
    }
  }

  /** The keys the scan pushes from the match `m` on: each match's literal, when it is not
      empty, then the keys after the match's end. */
  function KeysAfter(src: string, m: Option<Found>): seq<string>
    requires m.Some? ==> m.value.start < m.value.end <= |src|
    decreases if m.Some? then |src| - m.value.start else 0
  {
    match m
    case None => []
    case Some(f) =>
      var next := NextMatch(src, f.end);
      (if f.key != "" then [f.key] else []) + KeysAfter(src, next)
  }

  /** The keys the scan pushes when `exec` starts from `lastIndex == from`. */
  function KeysFrom(src: string, from: nat): seq<string> {
    KeysAfter(src, NextMatch(src, from))
  }

  /** `extractKeysFromSource`. */
  method ExtractKeysFromSource(src: string) returns (keys: seq<string>)
    ensures keys == KeysFrom(src, 0)
  {
    keys := [];
    var m := NextMatch(src, 0);
    ghost var all := KeysAfter(src, m);
    while m.Some?
      invariant m.Some? ==> m.value.start < m.value.end <= |src|
      invariant keys + KeysAfter(src, m) == all
      decreases if m.Some? then |src| - m.value.start else 0
    {
      var f := m.value;
      var next := NextMatch(src, f.end);
      ghost var rest := KeysAfter(src, next);
      if f.key != "" {
        assert KeysAfter(src, m) == [f.key] + rest;
        assert keys + ([f.key] + rest) == (keys + [f.key]) + rest;
        keys := keys + [f.key];
      } else {
        assert KeysAfter(src, m) == [] + rest == rest;
      }
      m := next;
    }
    assert keys + [] == keys;
  }

  /** Every key the scan yields from a match on is the non-empty literal of a call the
      regular expression matches. */
  lemma {:induction false} KeysAfterAreCallLiterals(src: string, m: Option<Found>)
    requires m.Some? ==> m.value.start < m.value.end <= |src| && MatchAt(src, m.value.start) == m
    ensures forall k :: k in KeysAfter(src, m) ==> k != "" && exists i: nat, end :: Matches(src, i, k, end)
    decreases if m.Some? then |src| - m.value.start else 0
  {
    if m.Some? {
      var f := m.value;
      var next := NextMatch(src, f.end);
      NextMatchIsLeftmost(src, f.end);
      KeysAfterAreCallLiterals(src, next);
      MatchAtMatches(src, f.start, f.key, f.end);
      forall k | k in KeysAfter(src, m) ensures k != "" && exists i: nat, end :: Matches(src, i, k, end) {
        if k !in KeysAfter(src, next) {
          assert k == f.key && Matches(src, f.start, k, f.end);
        }
      }
    }
  }

  /** Every key `extractKeysFromSource` yields is the non-empty literal of a `t(…)` call the
      regular expression matches somewhere in the text. */
  lemma ScannedKeysAreCallLiterals(src: string)
    ensures forall k :: k in KeysFrom(src, 0) ==> k != "" && exists i: nat, end :: Matches(src, i, k, end)
  {
    NextMatchIsLeftmost(src, 0);
    KeysAfterAreCallLiterals(src, NextMatch(src, 0));
  }

  /** A text that is one call `t(<q>L<q>)` with a non-empty literal yields exactly `[L]`. */
  lemma SingleCallYieldsItsKey(q: char, lit: string)
    requires IsQuote(q) && QuotedBody(lit, q) && lit != ""
    ensures KeysFrom("t(" + [q] + lit + [q] + ")", 0) == [lit]
  {
    var src := "t(" + [q] + lit + [q] + ")";
    var e := 3 + |lit|;
    assert src[3..e] == lit;
    BodyBetweenIsQuotedBody(src, q, 3, e);
    assert MatchesWith(src, 0, 1, 2, e, e + 1);
    MatchAtIffMatches(src, 0, lit, |src|);
    var f := Found(0, lit, |src|);
    assert NextMatch(src, 0) == Some(f);
    assert NextMatch(src, |src|) == None;
    assert KeysAfter(src, None) == [];
    assert KeysAfter(src, Some(f)) == [lit] + KeysAfter(src, None);
  }

  /** `uniq`: the set of a list, in insertion order; appending a value keeps it when new and
      drops it when already present. */
  lemma UniqSnoc(s: seq<string>, x: string)
    ensures Dedup(s + [x]) == Dedup(s) + (if x in s then [] else [x])
  {
    DedupFromAppend(s, [x], {});
    assert {} + (set y | y in s) == set y | y in s;
  }
}
