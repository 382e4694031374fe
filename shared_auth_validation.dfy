/** Sign-up field validators: each runs its checks in a fixed order and returns the message of
    the first one that fails, or `None` (`null`) when all pass. */
module SharedAuthValidation {
  import opened Common
  import opened JsText

  /** `/^[^\s@]+@[^\s@]+\.[^\s@]+$/`: no white space, exactly one "@" with text before it, and a
      dot after it that is neither the first nor the last character of the domain. */
  predicate IsValidEmail(email: string) {
    (forall i :: 0 <= i < |email| ==> !IsSpace(email[i]))
    && exists at ::
         0 < at < |email| && email[at] == '@' && CountChar(email, '@') == 1
         && HasInnerDot(email[at + 1..])
  }

  /** A dot with at least one character on each side. */
  predicate HasInnerDot(domain: string) {
    exists k :: 1 <= k < |domain| - 1 && domain[k] == '.'
  }

  const NameRequired := "Name is required"
  const NameTooShort := "Name must be at least 2 characters"
  const NameNeedsBoth := "Please enter both first and last name"

  /** `validateName`. */
  function ValidateName(name: string): Option<string> {
    ValidateTrimmedName(Trim(name))
  }

  /** The checks of `validateName` on the trimmed name. */
  function ValidateTrimmedName(trimmed: string): Option<string> {
    if |trimmed| == 0 then Some(NameRequired)
    else if |trimmed| < 2 then Some(NameTooShort)
    else
      var parts := Split(trimmed, ' ');
      if |parts| < 2 || |Trim(parts[1])| == 0 then Some(NameNeedsBoth)
      else None
  }

  /** A name is accepted exactly when, after trimming, it has a first word, a space and a second
      part that is not blank up to the next space; several spaces in a row leave that part empty. */
  lemma ValidateNameAccepts(name: string, first: string, rest: string)
    requires Trim(name) == first + " " + rest && ' ' !in first
    ensures ValidateName(name) == None <==> !AllSpace(Split(rest, ' ')[0])
    ensures |rest| > 0 && rest[0] == ' ' ==> ValidateName(name) == Some(NameNeedsBoth)
  {
    var t := Trim(name);
    TrimEnds(name);
    // a trimmed text does not start with white space, so the first word is not empty
    assert t[0] == (if first == "" then ' ' else first[0]);
    TrimmedNameParts(first, rest);
  }

  lemma TrimmedNameParts(first: string, rest: string)
    requires first != [] && ' ' !in first
    ensures ValidateTrimmedName(first + " " + rest) == None <==> !AllSpace(Split(rest, ' ')[0])
    ensures |rest| > 0 && rest[0] == ' ' ==> ValidateTrimmedName(first + " " + rest) == Some(NameNeedsBoth)
  {
    var t := first + " " + rest;
    var second := Split(rest, ' ')[0];
    assert |t| >= 2 && |Split(t, ' ')| >= 2 && Split(t, ' ')[1] == second by {
      SplitAtFirst(first, rest, ' ');
    }
    assert ValidateTrimmedName(t) == if Trim(second) == [] then Some(NameNeedsBoth) else None;
    assert Trim(second) == [] <==> AllSpace(second) by {
      TrimEmptyIffAllSpace(second);
    }
    if |rest| > 0 && rest[0] == ' ' {
      SecondPartEmpty(rest);
    }
  }

  lemma SecondPartEmpty(rest: string)
    requires |rest| > 0 && rest[0] == ' '
    ensures Split(rest, ' ')[0] == ""
  {
  }

  /** A trimmed name without any space is rejected. */
  lemma ValidateNameSingleWord(name: string)
    requires ' ' !in Trim(name) && |Trim(name)| >= 2
    ensures ValidateName(name) == Some(NameNeedsBoth)
  {
    SplitNoSeparator(Trim(name), ' ');
    assert |Split(Trim(name), ' ')| == 1;
  }

  const EmailRequired := "Email is required"
  const EmailInvalid := "Please enter a valid email address"

  /** `validateEmailField`. */
  function ValidateEmailField(email: string): (r: Option<string>)
    ensures email == "" ==> r == Some(EmailRequired)
    ensures email != "" ==> (r == Some(EmailInvalid) <==> !IsValidEmail(email))
    ensures r == None <==> IsValidEmail(email)
  {
    if |email| == 0 then Some(EmailRequired)
    else if !IsValidEmail(email) then Some(EmailInvalid)
    else None
  }

  predicate HasLower(p: string) { exists i :: 0 <= i < |p| && IsLower(p[i]) }
  predicate HasUpper(p: string) { exists i :: 0 <= i < |p| && IsUpper(p[i]) }
  predicate HasDigit(p: string) { exists i :: 0 <= i < |p| && IsDigit(p[i]) }

  /** The class `[!@#$%^&*()_+\-=[\]{};':"\\|<>?,./`~]`. */
  predicate IsSpecial(c: char) {
    c in "!@#$%^&*()_+-=[]{};':\"\\|<>?,./`~"
  }

  predicate HasSpecial(p: string) { exists i :: 0 <= i < |p| && IsSpecial(p[i]) }

  /** The strength rules, in the order both validators check them. */
  datatype PasswordRule = MinLength | Lowercase | Uppercase | Digit | Special

  const Rules: seq<PasswordRule> := [MinLength, Lowercase, Uppercase, Digit, Special]

  predicate Holds(rule: PasswordRule, p: string) {
    match rule
    case MinLength => |p| >= 10
    case Lowercase => HasLower(p)
    case Uppercase => HasUpper(p)
    case Digit => HasDigit(p)
    case Special => HasSpecial(p)
  }

  function RuleMessage(rule: PasswordRule): string {
    match rule
    case MinLength => "Password must be at least 10 characters"
    case Lowercase => "Password must contain at least one lowercase letter"
    case Uppercase => "Password must contain at least one uppercase letter"
    case Digit => "Password must contain at least one digit"
    case Special => "Password must contain at least one special character"
  }

  /** The first rule of `rules` that `p` breaks. */
  function FirstBroken(rules: seq<PasswordRule>, p: string): Option<PasswordRule> {
    if rules == [] then None
    else if !Holds(rules[0], p) then Some(rules[0])
    else FirstBroken(rules[1..], p)
  }

  /** `FirstBroken` is `None` exactly when every rule holds, and otherwise names a broken rule all
      of whose predecessors hold. */
  lemma {:induction false} FirstBrokenSpec(rules: seq<PasswordRule>, p: string)
    ensures FirstBroken(rules, p).None? <==> forall k :: 0 <= k < |rules| ==> Holds(rules[k], p)
    ensures FirstBroken(rules, p).Some? ==>
      exists k :: 0 <= k < |rules| && rules[k] == FirstBroken(rules, p).value
        && !Holds(rules[k], p) && forall j :: 0 <= j < k ==> Holds(rules[j], p)
  {
    if rules != [] && Holds(rules[0], p) {
      FirstBrokenSpec(rules[1..], p);
      var r := FirstBroken(rules[1..], p);
      if r.Some? {
        var k :| 0 <= k < |rules[1..]| && rules[1..][k] == r.value && !Holds(rules[1..][k], p)
                 && forall j :: 0 <= j < k ==> Holds(rules[1..][j], p);
        assert rules[k + 1] == r.value;
        assert forall j :: 0 <= j < k + 1 ==> Holds(rules[j], p) by {
          forall j | 0 <= j < k + 1 ensures Holds(rules[j], p) {
            if j > 0 { assert rules[j] == rules[1..][j - 1]; }
          }
        }
      } else {
        forall k | 0 <= k < |rules| ensures Holds(rules[k], p) {
          if k > 0 { assert rules[k] == rules[1..][k - 1]; }
        }
      }
    } else if rules != [] {
      assert !Holds(rules[0], p);
    }
  }

  const PasswordRequired := "Password is required"

  /** `validatePasswordField`. */
  function ValidatePasswordField(p: string): Option<string> {
    if |p| == 0 then Some(PasswordRequired)
    else if |p| < 10 then Some(RuleMessage(MinLength))
    else if !HasLower(p) then Some(RuleMessage(Lowercase))
    else if !HasUpper(p) then Some(RuleMessage(Uppercase))
    else if !HasDigit(p) then Some(RuleMessage(Digit))
    else if !HasSpecial(p) then Some(RuleMessage(Special))
    else None
  }

  /** The password field reports "required" for "", and otherwise the message of the first broken
      rule in the order length, lowercase, uppercase, digit, special; it is `None` exactly when
      every rule holds. */
  lemma PasswordFieldFirstBroken(p: string)
    ensures p == "" ==> ValidatePasswordField(p) == Some(PasswordRequired)
    ensures p != "" ==> (ValidatePasswordField(p)
                         == match FirstBroken(Rules, p)
                            case None => None
                            case Some(rule) => Some(RuleMessage(rule)))
    ensures ValidatePasswordField(p) == None <==> forall k :: 0 <= k < |Rules| ==> Holds(Rules[k], p)
  {
    FirstBrokenSpec(Rules, p);
    var r1, r2, r3, r4 := Rules[1..], Rules[2..], Rules[3..], Rules[4..];
    assert r1 == [Lowercase, Uppercase, Digit, Special] && r1[1..] == r2;
    assert r2 == [Uppercase, Digit, Special] && r2[1..] == r3;
    assert r3 == [Digit, Special] && r3[1..] == r4;
    assert r4 == [Special] && r4[1..] == [];
    assert FirstBroken(r4, p) == if !HasSpecial(p) then Some(Special) else None;
    assert FirstBroken(r3, p) == if !HasDigit(p) then Some(Digit) else FirstBroken(r4, p);
    assert FirstBroken(r2, p) == if !HasUpper(p) then Some(Uppercase) else FirstBroken(r3, p);
    assert FirstBroken(r1, p) == if !HasLower(p) then Some(Lowercase) else FirstBroken(r2, p);
    assert FirstBroken(Rules, p) == if |p| < 10 then Some(MinLength) else FirstBroken(r1, p);
  }

  const ConfirmRequired := "Please confirm your password"
  const PasswordsDontMatch := "Passwords do not match"

  /** `validateRepeatPasswordField`: an empty confirmation is reported before a mismatch. */
  function ValidateRepeatPasswordField(repeat: string, password: string): (r: Option<string>)
    ensures repeat == "" ==> r == Some(ConfirmRequired)
    ensures repeat != "" ==> (r == None <==> repeat == password)
    ensures r != None ==> r == Some(ConfirmRequired) || r == Some(PasswordsDontMatch)
  {
    if |repeat| == 0 then Some(ConfirmRequired)
    else if repeat != password then Some(PasswordsDontMatch)
    else None
  }

  datatype PasswordValidationResult = PasswordValidationResult(isValid: bool, error: Option<string>)

  const TermsRequired := "You must agree to the terms and conditions"

  /** `validatePassword`: mismatch, then the strength rules, then the terms agreement. */
  function ValidatePassword(password: string, repeat: string, agreeToTerms: bool): (r: PasswordValidationResult)
    ensures r.isValid <==> r.error.None?
  {
    if password != repeat then PasswordValidationResult(false, Some(PasswordsDontMatch))
    else if |password| < 10 then PasswordValidationResult(false, Some(RuleMessage(MinLength)))
    else if !HasLower(password) then PasswordValidationResult(false, Some(RuleMessage(Lowercase)))
    else if !HasUpper(password) then PasswordValidationResult(false, Some(RuleMessage(Uppercase)))
    else if !HasDigit(password) then PasswordValidationResult(false, Some(RuleMessage(Digit)))
    else if !HasSpecial(password) then PasswordValidationResult(false, Some(RuleMessage(Special)))
    else if !agreeToTerms then PasswordValidationResult(false, Some(TermsRequired))
    else PasswordValidationResult(true, None)
  }

  /** A mismatch is reported before any rule; the terms are reported only once every rule holds;
      and a password the field validator accepts passes the combined check when repeated and
      the terms are agreed. */
  lemma ValidatePasswordOrder(password: string, repeat: string, agreeToTerms: bool)
    ensures password != repeat ==> ValidatePassword(password, repeat, agreeToTerms).error == Some(PasswordsDontMatch)
    ensures ValidatePassword(password, repeat, agreeToTerms).error == Some(TermsRequired)
      <==> password == repeat && !agreeToTerms && ValidatePasswordField(password) == None
    ensures password == repeat && password != "" ==>
      ValidatePassword(password, repeat, agreeToTerms).error
        == (if ValidatePasswordField(password).Some? then ValidatePasswordField(password)
            else if agreeToTerms then None else Some(TermsRequired))
    ensures ValidatePasswordField(password) == None ==> ValidatePassword(password, password, true).isValid
  {
    assert TermsRequired != PasswordsDontMatch;
    assert forall rule :: RuleMessage(rule) != TermsRequired;
  }
}
