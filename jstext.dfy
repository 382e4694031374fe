/** The JavaScript string primitives the Cadence sources rely on, with their ECMAScript
    semantics: `trim`, `split` on one character, `includes`, `startsWith`, `parseInt`,
    `Number` on integer literals, `String(n)` and `padStart(2, "0")`. */
module JsText {
  import opened Common

  /** The characters matched by `\s` and removed by `trim` (WhiteSpace and LineTerminator). */
  predicate IsSpace(c: char) {
    c == '\t' || c == '\U{000B}' || c == '\U{000C}' || c == ' ' || c == '\U{00A0}'
    || c == '\U{FEFF}' || c == '\U{1680}' || ('\U{2000}' <= c <= '\U{200A}')
    || c == '\U{202F}' || c == '\U{205F}' || c == '\U{3000}'
    || c == '\n' || c == '\r' || c == '\U{2028}' || c == '\U{2029}'
  }

  predicate AllSpace(s: string) {
    forall i :: 0 <= i < |s| ==> IsSpace(s[i])
  }

  /** A nullable string is truthy: present and not empty. */
  predicate Truthy(s: Option<string>) { s.Some? && s.value != "" }

  predicate IsDigit(c: char) { '0' <= c <= '9' }

  predicate AllDigits(s: string) {
    forall i :: 0 <= i < |s| ==> IsDigit(s[i])
  }

  /** `\w`: ASCII letters, digits and underscore. */
  predicate IsWordChar(c: char) {
    ('a' <= c <= 'z') || ('A' <= c <= 'Z') || IsDigit(c) || c == '_'
  }

  predicate IsUpper(c: char) { 'A' <= c <= 'Z' }
  predicate IsLower(c: char) { 'a' <= c <= 'z' }

  function ToLowerChar(c: char): char {
    if IsUpper(c) then (c as int + 32) as char else c
  }

  function ToUpperChar(c: char): char {
    if IsLower(c) then (c as int - 32) as char else c
  }

  function ToLower(s: string): (r: string)
    ensures |r| == |s| && forall i :: 0 <= i < |s| ==> r[i] == ToLowerChar(s[i])
  {
    if s == [] then [] else [ToLowerChar(s[0])] + ToLower(s[1..])
  }

  function ToUpper(s: string): (r: string)
    ensures |r| == |s| && forall i :: 0 <= i < |s| ==> r[i] == ToUpperChar(s[i])
  {
    if s == [] then [] else [ToUpperChar(s[0])] + ToUpper(s[1..])
  }

  /** `String.prototype.trimStart`. */
  function TrimStart(s: string): (r: string)
    ensures |r| <= |s| && r == s[|s| - |r|..]
    ensures AllSpace(s[..|s| - |r|])
    ensures r == [] || !IsSpace(r[0])
  {
    if s != [] && IsSpace(s[0]) then
      var r := TrimStart(s[1..]);
      assert s[1..][..|s[1..]| - |r|] == s[1..|s| - |r|];
      r
    else s
  }

  /** `String.prototype.trimEnd`. */
  function TrimEnd(s: string): (r: string)
    ensures |r| <= |s| && r == s[..|r|]
    ensures AllSpace(s[|r|..])
    ensures r == [] || !IsSpace(r[|r| - 1])
  {
    if s != [] && IsSpace(s[|s| - 1]) then
      var r := TrimEnd(s[..|s| - 1]);
      assert s[..|s| - 1][|r|..] == s[|r|..|s| - 1];
      assert AllSpace(s[|r|..]) by {
        forall k | |r| <= k < |s| ensures IsSpace(s[k]) {
          if k < |s| - 1 {
            assert s[k] == s[..|s| - 1][|r|..][k - |r|];
          }
        }
      }
      r
    else s
  }

  /** `String.prototype.trim`. */
  function Trim(s: string): string {
    TrimEnd(TrimStart(s))
  }

  /** Trimming removes exactly the surrounding white space: the result is a slice of `s`
      with white space only outside it, and no white space at either end of it. */
  lemma TrimSlice(s: string)
    ensures exists i, j :: (0 <= i <= j <= |s| && Trim(s) == s[i..j]
                            && AllSpace(s[..i]) && AllSpace(s[j..]))
    ensures Trim(s) == [] || (!IsSpace(Trim(s)[0]) && !IsSpace(Trim(s)[|Trim(s)| - 1]))
  {
    var t := TrimStart(s);
    var r := TrimEnd(t);
    var i := |s| - |t|;
    var j := i + |r|;
    assert r == s[i..j];
    assert s[j..] == t[|r|..];
    assert 0 <= i <= j <= |s| && Trim(s) == s[i..j] && AllSpace(s[..i]) && AllSpace(s[j..]);
    TrimEnds(s);
  }

  /** A trimmed string neither starts nor ends with white space. */
  lemma TrimEnds(s: string)
    ensures Trim(s) == [] || (!IsSpace(Trim(s)[0]) && !IsSpace(Trim(s)[|Trim(s)| - 1]))
  {
    var t := TrimStart(s);
    var r := TrimEnd(t);
    if r != [] {
      assert r[0] == t[0];
    }
  }

  /** A string trims to "" exactly when it is all white space. */
  lemma {:induction false} TrimEmptyIffAllSpace(s: string)
    ensures Trim(s) == [] <==> AllSpace(s)
  {
    if AllSpace(s) {
      TrimStartAllSpace(s);
    }
    if Trim(s) == [] {
      TrimSlice(s);
      var i, j :| 0 <= i <= j <= |s| && Trim(s) == s[i..j] && AllSpace(s[..i]) && AllSpace(s[j..]);
      assert i == j;
      forall k | 0 <= k < |s| ensures IsSpace(s[k]) {
        if k < i { assert s[..i][k] == s[k]; } else { assert s[j..][k - j] == s[k]; }
      }
    }
  }

  lemma {:induction false} TrimStartAllSpace(s: string)
    requires AllSpace(s)
    ensures TrimStart(s) == []
  {
    if s != [] {
      TrimStartAllSpace(s[1..]);
    }
  }

  lemma TrimIdempotent(s: string)
    ensures Trim(Trim(s)) == Trim(s)
  {
    TrimSlice(s);
  }

  predicate StartsWith(s: string, prefix: string) {
    |prefix| <= |s| && s[..|prefix|] == prefix
  }

  /** `String.prototype.includes`. */
  predicate Contains(s: string, sub: string)
    decreases |s|
  {
    StartsWith(s, sub) || (s != [] && Contains(s[1..], sub))
  }

  lemma {:induction false} ContainsSlice(s: string, sub: string, i: nat)
    requires i + |sub| <= |s| && s[i..i + |sub|] == sub
    ensures Contains(s, sub)
    decreases i
  {
    if i > 0 {
      assert s[1..][i - 1..i - 1 + |sub|] == sub;
      ContainsSlice(s[1..], sub, i - 1);
    }
  }

  lemma {:induction false} ContainsAppend(a: string, b: string, sub: string)
    requires Contains(a, sub) || Contains(b, sub)
    ensures Contains(a + b, sub) && Contains(b + a, sub)
  {
    var i := ContainsWitness(if Contains(a, sub) then a else b, sub);
    if Contains(a, sub) {
      assert (a + b)[i..i + |sub|] == sub;
      assert (b + a)[|b| + i..|b| + i + |sub|] == sub;
      ContainsSlice(a + b, sub, i);
      ContainsSlice(b + a, sub, |b| + i);
    } else {
      assert (b + a)[i..i + |sub|] == sub;
      assert (a + b)[|a| + i..|a| + i + |sub|] == sub;
      ContainsSlice(b + a, sub, i);
      ContainsSlice(a + b, sub, |a| + i);
    }
  }

  lemma {:induction false} ContainsWitness(s: string, sub: string) returns (i: nat)
    requires Contains(s, sub)
    ensures i + |sub| <= |s| && s[i..i + |sub|] == sub
    decreases |s|
  {
    if StartsWith(s, sub) {
      i := 0;
    } else {
      var k := ContainsWitness(s[1..], sub);
      assert s[1..][k..k + |sub|] == s[k + 1..k + 1 + |sub|];
      i := k + 1;
    }
  }

  /** A string that contains `sub` contains every character of `sub`. */
  lemma ContainsHasChar(s: string, sub: string, c: char)
    ensures Contains(s, sub) && c in sub ==> c in s
  {
    if Contains(s, sub) && c in sub {
      var i := ContainsWitness(s, sub);
      var k :| 0 <= k < |sub| && sub[k] == c;
      assert s[i + k] == c;
    }
  }

  /** `sub` occurs in `s` at position `k`. */
  predicate OccursAt(s: string, sub: string, k: int) {
    0 <= k && k + |sub| <= |s| && s[k..k + |sub|] == sub
  }

  /** `s.indexOf(sub)`: the first position where `sub` occurs, or -1. */
  function IndexOf(s: string, sub: string): (r: int)
    ensures r == -1 || OccursAt(s, sub, r)
    decreases |s|
  {
    if StartsWith(s, sub) then 0
    else if s == [] then -1
    else
      var k := IndexOf(s[1..], sub);
      if k < 0 then -1
      else
        assert s[1..][k..k + |sub|] == s[k + 1..k + 1 + |sub|];
        k + 1
  }

  /** An occurrence with none before it is the one `indexOf` finds. */
  lemma IndexOfAt(s: string, sub: string, k: nat)
    requires OccursAt(s, sub, k)
    requires forall m :: 0 <= m < k ==> !OccursAt(s, sub, m)
    ensures IndexOf(s, sub) == k
  {
    IndexOfFirst(s, sub);
    ContainsSlice(s, sub, k);
  }

  /** `indexOf` finds the first occurrence, and finds one exactly when `includes` holds. */
  lemma {:induction false} IndexOfFirst(s: string, sub: string)
    ensures IndexOf(s, sub) == -1 <==> !Contains(s, sub)
    ensures forall k :: OccursAt(s, sub, k) ==> IndexOf(s, sub) <= k
    decreases |s|
  {
    if !StartsWith(s, sub) && s != [] {
      IndexOfFirst(s[1..], sub);
      forall k | OccursAt(s, sub, k) ensures IndexOf(s, sub) <= k {
        if k > 0 {
          assert s[1..][k - 1..k - 1 + |sub|] == s[k..k + |sub|];
          assert OccursAt(s[1..], sub, k - 1);
          ContainsSlice(s[1..], sub, k - 1);
        }
      }
    }
  }

  /** `s.split(c)` for a one-character separator: at least one part, none holding `c`. */
  function Split(s: string, c: char): (r: seq<string>)
    ensures |r| >= 1
    ensures forall k :: 0 <= k < |r| ==> c !in r[k]
  {
    if s == [] then [""]
    else
      var rest := Split(s[1..], c);
      if s[0] == c then [""] + rest
      else [[s[0]] + rest[0]] + rest[1..]
  }

  /** `parts.join(c)`. */
  function Join(parts: seq<string>, c: char): string {
    if parts == [] then ""
    else if |parts| == 1 then parts[0]
    else parts[0] + [c] + Join(parts[1..], c)
  }

  /** Joining the parts of a split with the same separator gives back the string. */
  lemma {:induction false} JoinSplit(s: string, c: char)
    ensures Join(Split(s, c), c) == s
  {
    if s != [] {
      JoinSplit(s[1..], c);
      var rest := Split(s[1..], c);
      if s[0] != c {
        var r := [[s[0]] + rest[0]] + rest[1..];
        assert r[1..] == rest[1..];
        if |rest| == 1 {
          assert s == [s[0]] + s[1..];
        } else {
          assert Join(rest, c) == rest[0] + [c] + Join(rest[1..], c);
        }
      }
    }
  }

  /** Splitting a join of separator-free parts gives the parts back. */
  lemma {:induction false} SplitJoin(parts: seq<string>, c: char)
    requires |parts| >= 1 && forall k :: 0 <= k < |parts| ==> c !in parts[k]
    ensures Split(Join(parts, c), c) == parts
  {
    if |parts| == 1 {
      SplitNoSeparator(parts[0], c);
    } else {
      SplitJoin(parts[1..], c);
      SplitAtFirst(parts[0], Join(parts[1..], c), c);
      assert [parts[0]] + parts[1..] == parts;
    }
  }

  /** The number of occurrences of `c` in `s`. */
  function CountChar(s: string, c: char): nat {
    if s == [] then 0 else (if s[0] == c then 1 else 0) + CountChar(s[1..], c)
  }

  /** A split yields one part more than there are separators. */
  lemma {:induction false} SplitCount(s: string, c: char)
    ensures |Split(s, c)| == 1 + CountChar(s, c)
  {
    if s != [] {
      SplitCount(s[1..], c);
    }
  }

  /** A string without the separator splits into itself alone. */
  lemma {:induction false} SplitNoSeparator(s: string, c: char)
    requires c !in s
    ensures Split(s, c) == [s]
  {
    if s != [] {
      SplitNoSeparator(s[1..], c);
      assert [s[0]] + s[1..] == s;
    }
  }

  /** Splitting `a + [c] + b` where `a` has no separator puts `a` first. */
  lemma {:induction false} SplitAtFirst(a: string, b: string, c: char)
    requires c !in a
    ensures Split(a + [c] + b, c) == [a] + Split(b, c)
  {
    if a == [] {
      assert a + [c] + b == [c] + b;
      assert ([c] + b)[1..] == b;
    } else {
      SplitAtFirst(a[1..], b, c);
      assert (a + [c] + b)[1..] == a[1..] + [c] + b;
      assert [a[0]] + a[1..] == a;
    }
  }

  /** The value of a digit in base 10 or 16; -1 when it is not one. */
  function DigitValue(c: char, base: nat): int {
    if '0' <= c <= '9' && (c as int - '0' as int) < base then c as int - '0' as int
    else if base == 16 && 'a' <= c <= 'f' then c as int - 'a' as int + 10
    else if base == 16 && 'A' <= c <= 'F' then c as int - 'A' as int + 10
    else if base == 8 && '0' <= c <= '7' then c as int - '0' as int
    else -1
  }

  predicate IsDigitIn(c: char, base: nat) { DigitValue(c, base) >= 0 }

  /** The longest prefix of `s` made of digits of `base`. */
  function LeadingDigits(s: string, base: nat): (r: string)
    ensures |r| <= |s| && r == s[..|r|]
    ensures forall i :: 0 <= i < |r| ==> IsDigitIn(r[i], base)
    ensures |r| == |s| || !IsDigitIn(s[|r|], base)
  {
    if s != [] && IsDigitIn(s[0], base) then [s[0]] + LeadingDigits(s[1..], base) else []
  }

  /** The value of a string of digits of `base`, most significant first. */
  function DigitsValue(s: string, base: nat): (v: nat)
    requires forall i :: 0 <= i < |s| ==> IsDigitIn(s[i], base)
  {
    if s == [] then 0
    else
      assert IsDigitIn(s[|s| - 1], base);
      DigitsValue(s[..|s| - 1], base) * base + DigitValue(s[|s| - 1], base) as nat
  }

  /** The radix argument of `parseInt`: 10, 16, or omitted. */
  datatype Radix = Ten | Sixteen | Omitted

  /** `parseInt(s, radix)`; `None` stands for NaN. Leading white space is skipped, one sign is
      read, a "0x"/"0X" prefix switches to base 16 unless the radix is 10, and the longest
      prefix of digits is read. */
  function ParseInt(s: string, radix: Radix): Option<int> {
    var t := TrimStart(s);
    if t != [] && (t[0] == '-' || t[0] == '+') then
      match ParseUnsigned(t[1..], radix)
      case None => None
      case Some(v) =>
        var w: int := if t[0] == '-' then -(v as int) else v;
        Some(w)
    else
      match ParseUnsigned(t, radix)
      case None => None
      case Some(v) => Some(v)
  }

  /** The digits after the sign: an optional hexadecimal prefix, then the longest run of digits. */
  function ParseUnsigned(u: string, radix: Radix): Option<nat> {
    var hexPrefix := radix != Ten && |u| >= 2 && u[0] == '0' && (u[1] == 'x' || u[1] == 'X');
    var base := if hexPrefix || radix == Sixteen then 16 else 10;
    var digits := LeadingDigits(if hexPrefix then u[2..] else u, base);
    if digits == [] then None else Some(DigitsValue(digits, base))
  }

  /** `parseInt` with radix 10 on a non-empty string of decimal digits reads all of it. */
  lemma ParseDecimalDigits(s: string)
    requires s != [] && AllDigits(s)
    ensures forall i :: 0 <= i < |s| ==> IsDigitIn(s[i], 10)
    ensures ParseInt(s, Ten) == Some(DigitsValue(s, 10))
    ensures ParseInt(s, Omitted) == Some(DigitsValue(s, 10))
  {
    ParseUnsignedDigits(s);
    TrimStartNoSpace(s);
  }

  lemma TrimStartNoSpace(s: string)
    requires s != [] && IsDigit(s[0])
    ensures TrimStart(s) == s
  {
  }

  lemma ParseUnsignedDigits(s: string)
    requires s != [] && AllDigits(s)
    ensures forall i :: 0 <= i < |s| ==> IsDigitIn(s[i], 10)
    ensures ParseUnsigned(s, Ten) == Some(DigitsValue(s, 10))
    ensures ParseUnsigned(s, Omitted) == Some(DigitsValue(s, 10))
  {
    DecimalDigitsInBase(s);
    LeadingDigitsWhole(s, 10);
    NoHexPrefix(s);
  }

  lemma DecimalDigitsInBase(s: string)
    requires AllDigits(s)
    ensures forall i :: 0 <= i < |s| ==> IsDigitIn(s[i], 10)
  {
    forall i | 0 <= i < |s| ensures IsDigitIn(s[i], 10) {
      assert IsDigit(s[i]);
    }
  }

  /** Decimal digits never start with a "0x" prefix. */
  lemma NoHexPrefix(s: string)
    requires AllDigits(s)
    ensures !(|s| >= 2 && s[0] == '0' && (s[1] == 'x' || s[1] == 'X'))
  {
    if |s| >= 2 {
      assert IsDigit(s[1]);
    }
  }

  /** When every character is a digit of `base`, the longest digit prefix is everything. */
  lemma LeadingDigitsWhole(s: string, base: nat)
    requires forall i :: 0 <= i < |s| ==> IsDigitIn(s[i], base)
    ensures LeadingDigits(s, base) == s
  {
  }

  /** `Number(s)` for strings denoting integers: surrounding white space is ignored, "" is 0,
      an optional sign may precede decimal digits, and "0x", "0o" and "0b" prefixes select
      bases 16, 8 and 2. `None` stands for NaN. */
  function NumberOf(s: string): Option<int> {
    NumberOfTrimmed(Trim(s))
  }

  function NumberOfTrimmed(t: string): Option<int> {
    if t == [] then Some(0)
    else if |t| > 2 && t[0] == '0' && (t[1] == 'x' || t[1] == 'X')
      && forall i :: 2 <= i < |t| ==> IsDigitIn(t[i], 16) then
      Some(DigitsValue(t[2..], 16))
    else if |t| > 2 && t[0] == '0' && (t[1] == 'o' || t[1] == 'O')
      && forall i :: 2 <= i < |t| ==> IsDigitIn(t[i], 8) then
      Some(DigitsValue(t[2..], 8))
    else if |t| > 2 && t[0] == '0' && (t[1] == 'b' || t[1] == 'B')
      && forall i :: 2 <= i < |t| ==> t[i] == '0' || t[i] == '1' then
      Some(BinaryValue(t[2..]))
    else
      var negative := t[0] == '-';
      var u := if t[0] == '-' || t[0] == '+' then t[1..] else t;
      if u != [] && AllDigits(u) then
        var v: int := DecimalValue(u);
        Some(if negative then -v else v)
      else None
  }

  function BinaryValue(s: string): nat
    requires forall i :: 0 <= i < |s| ==> s[i] == '0' || s[i] == '1'
  {
    if s == [] then 0 else BinaryValue(s[..|s| - 1]) * 2 + (if s[|s| - 1] == '1' then 1 else 0)
  }

  /** The value of a string of decimal digits. */
  function DecimalValue(s: string): nat
    requires AllDigits(s)
  {
    if s == [] then 0 else DecimalValue(s[..|s| - 1]) * 10 + (s[|s| - 1] as int - '0' as int)
  }

  lemma {:induction false} DecimalValueIsDigitsValue(s: string)
    requires AllDigits(s)
    ensures forall i :: 0 <= i < |s| ==> IsDigitIn(s[i], 10)
    ensures DecimalValue(s) == DigitsValue(s, 10)
  {
    if s != [] {
      DecimalValueIsDigitsValue(s[..|s| - 1]);
    }
  }

  /** A string of decimal digits has a value below 10 to the power of its length. */
  lemma {:induction false} DecimalValueBound(s: string)
    requires AllDigits(s)
    ensures DecimalValue(s) < Pow10(|s|)
  {
    if s != [] {
      DecimalValueBound(s[..|s| - 1]);
    }
  }

  function Pow10(n: nat): nat {
    if n == 0 then 1 else 10 * Pow10(n - 1)
  }

  /** `Number` of a non-empty string of decimal digits is its decimal value. */
  lemma NumberOfDigits(s: string)
    requires s != [] && AllDigits(s)
    ensures NumberOf(s) == Some(DecimalValue(s))
  {
    assert !IsSpace(s[0]) && !IsSpace(s[|s| - 1]);
    assert TrimStart(s) == s;
    assert TrimEnd(s) == s;
    NumberOfTrimmedDigits(s);
  }

  lemma NumberOfTrimmedDigits(s: string)
    requires s != [] && AllDigits(s)
    ensures NumberOfTrimmed(s) == Some(DecimalValue(s))
  {
    assert !(s[0] == '-' || s[0] == '+');
    if |s| > 2 {
      assert IsDigit(s[1]);
    }
  }

  function DigitChar(d: nat): (c: char)
    requires d < 10
    ensures IsDigit(c) && c as int - '0' as int == d
  {
    ('0' as int + d) as char
  }

  /** `String(n)` for a natural number: its decimal digits without leading zeros. */
  function NatToString(n: nat): (r: string)
    ensures r != [] && AllDigits(r)
    ensures |r| == 1 <==> n < 10
    ensures DecimalValue(r) == n
  {
    if n < 10 then [DigitChar(n)]
    else
      var r := NatToString(n / 10) + [DigitChar(n % 10)];
      assert r[..|r| - 1] == NatToString(n / 10);
      r
  }

  /** `String(n).padStart(2, "0")`. */
  function Pad2(n: nat): (r: string)
    ensures AllDigits(r) && DecimalValue(r) == n
    ensures n < 100 ==> |r| == 2
  {
    var d := NatToString(n);
    if |d| < 2 then
      var r := ['0'] + d;
      assert r[..|r| - 1] == ['0'];
      r
    else
      assert n < 100 ==> |d| == 2 by {
        if n < 100 {
          assert n / 10 < 10;
          assert NatToString(n) == NatToString(n / 10) + [DigitChar(n % 10)];
        }
      }
      d
  }

  /** `String(i)` for an integer. */
  function IntToString(i: int): string {
    if i < 0 then "-" + NatToString(-i) else NatToString(i)
  }

  /** The default order of `Array.prototype.sort` on strings: character by character, a
      prefix first. */
  predicate StrLe(a: string, b: string) {
    if a == [] then true
    else if b == [] then false
    else if a[0] != b[0] then a[0] < b[0]
    else StrLe(a[1..], b[1..])
  }

  lemma {:induction false} StrLeTotal(a: string, b: string)
    ensures StrLe(a, b) || StrLe(b, a)
    decreases |a|
  {
    if a != [] && b != [] && a[0] == b[0] {
      StrLeTotal(a[1..], b[1..]);
    }
  }

  lemma {:induction false} StrLeTransitive(a: string, b: string, c: string)
    requires StrLe(a, b) && StrLe(b, c)
    ensures StrLe(a, c)
    decreases |a|
  {
    if a != [] && b != [] && c != [] && a[0] == b[0] && b[0] == c[0] {
      StrLeTransitive(a[1..], b[1..], c[1..]);
    }
  }

  lemma {:induction false} StrLeAntisymmetric(a: string, b: string)
    requires StrLe(a, b) && StrLe(b, a)
    ensures a == b
    decreases |a|
  {
    if a != [] && b != [] {
      StrLeAntisymmetric(a[1..], b[1..]);
      assert a == [a[0]] + a[1..] && b == [b[0]] + b[1..];
    }
  }
}
