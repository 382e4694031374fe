/** Login, sign-up and reset-password form validation, and the password strength meter.
    The message table and the minimum password length are configuration that is not part of
    this model: messages are named by `Message`, and the minimum length is a parameter. */
module AuthFormValidation {
  import opened Common
  import opened JsText
  import SharedAuthValidation

  /** The five strength requirements, in the order they are declared. */
  datatype Requirements = Requirements(
    minLength: bool, hasUppercase: bool, hasLowercase: bool, hasNumber: bool, hasSpecialChar: bool)

  /** `text` is the source's `label` field (a reserved word in Dafny). */
  datatype PasswordStrength = PasswordStrength(
    score: nat, text: string, color: string, requirements: Requirements)

  /** The class `[!@#$%^&*(),.?":{}|<>]`. */
  predicate IsStrengthSpecial(c: char) {
    c in "!@#$%^&*(),.?\":{}|<>"
  }

  predicate HasStrengthSpecial(p: string) { exists i :: 0 <= i < |p| && IsStrengthSpecial(p[i]) }

  function RequirementsOf(password: string, minLength: nat): Requirements {
    Requirements(
      |password| >= minLength,
      SharedAuthValidation.HasUpper(password),
      SharedAuthValidation.HasLower(password),
      SharedAuthValidation.HasDigit(password),
      HasStrengthSpecial(password))
  }

  function B(b: bool): nat { if b then 1 else 0 }

  /** `Object.values(requirements).filter(Boolean).length`. */
  function Score(r: Requirements): nat {
    B(r.minLength) + B(r.hasUppercase) + B(r.hasLowercase) + B(r.hasNumber) + B(r.hasSpecialChar)
  }

  /** `strengthMap`: the label and colour shown for each score. */
  function StrengthLabel(score: nat): string
    requires score <= 5
  {
    ["Very Weak", "Weak", "Fair", "Good", "Strong", "Very Strong"][score]
  }

  function StrengthColor(score: nat): string
    requires score <= 5
  {
    ["#ff4444", "#ff8800", "#ffcc00", "#88cc00", "#44cc44", "#00cc44"][score]
  }

  /** `calculatePasswordStrength`. */
  function CalculatePasswordStrength(password: string, minLength: nat): (s: PasswordStrength)
    ensures s.score <= 5
    ensures s.score == 5 <==> s.requirements == Requirements(true, true, true, true, true)
    ensures s.score == 0 <==> s.requirements == Requirements(false, false, false, false, false)
    ensures s.text == StrengthLabel(s.score) && s.color == StrengthColor(s.score)
    ensures s.requirements == RequirementsOf(password, minLength) && s.score == Score(s.requirements)
  {
    var r := RequirementsOf(password, minLength);
    var score := Score(r);
    PasswordStrength(score, StrengthLabel(score), StrengthColor(score), r)
  }

  /** Typing one more character never lowers the strength score. */
  lemma StrengthMonotone(password: string, c: char, minLength: nat)
    ensures CalculatePasswordStrength(password + [c], minLength).score
            >= CalculatePasswordStrength(password, minLength).score
  {
    RequirementsGrow(password, c, minLength);
  }

  /** Each requirement a password meets, the password with one more character meets too. */
  lemma RequirementsGrow(password: string, c: char, minLength: nat)
    ensures var r, q := RequirementsOf(password, minLength), RequirementsOf(password + [c], minLength);
            (r.minLength ==> q.minLength) && (r.hasUppercase ==> q.hasUppercase) && (r.hasLowercase ==> q.hasLowercase)
            && (r.hasNumber ==> q.hasNumber) && (r.hasSpecialChar ==> q.hasSpecialChar)
  {
    var p := password + [c];
    assert forall i :: 0 <= i < |password| ==> p[i] == password[i];
    if SharedAuthValidation.HasUpper(password) {
      var i :| 0 <= i < |password| && IsUpper(password[i]);
      assert IsUpper(p[i]);
    }
    if SharedAuthValidation.HasLower(password) {
      var i :| 0 <= i < |password| && IsLower(password[i]);
      assert IsLower(p[i]);
    }
    if SharedAuthValidation.HasDigit(password) {
      var i :| 0 <= i < |password| && IsDigit(password[i]);
      assert IsDigit(p[i]);
    }
    if HasStrengthSpecial(password) {
      var i :| 0 <= i < |password| && IsStrengthSpecial(password[i]);
      assert IsStrengthSpecial(p[i]);
    }
  }

  datatype Field = Email | Password | ConfirmPassword | FullName | AgreeToTerms

  /** The entries of the message table the validators use. */
  datatype Message =
    | EmailRequired | EmailInvalid | PasswordRequired | PasswordTooShort | PasswordWeak
    | PleaseConfirm | PasswordsDontMatch | NameRequired | TermsRequired

  /** `isValid` is `Object.keys(errors).length === 0`: the error map has no keys. */
  datatype ValidationResult = ValidationResult(isValid: bool, errors: map<Field, Message>)

  datatype SignupForm = SignupForm(
    email: string, password: string, confirmPassword: string, fullName: string, agreeToTerms: bool)

  /** The email check shared by the three forms: required, then the email pattern. */
  predicate EmailOk(email: string) {
    email != "" && SharedAuthValidation.IsValidEmail(email)
  }

  function EmailError(email: string): Message
    requires !EmailOk(email)
  {
    if email == "" then EmailRequired else EmailInvalid
  }

  /** `validateLoginForm`: the email must be present and well formed, the password present. */
  method ValidateLoginForm(email: string, password: string) returns (r: ValidationResult)
    ensures r.isValid <==> r.errors.Keys == {}
    ensures r.errors.Keys <= {Email, Password}
    ensures Email in r.errors <==> !EmailOk(email)
    ensures Email in r.errors ==> r.errors[Email] == EmailError(email)
    ensures Password in r.errors <==> password == ""
    ensures Password in r.errors ==> r.errors[Password] == PasswordRequired
    ensures r.isValid <==> EmailOk(email) && password != ""
  {
    var errors: map<Field, Message> := map[];
    if email == "" {
      errors := errors[Email := EmailRequired];
    } else if !SharedAuthValidation.IsValidEmail(email) {
      errors := errors[Email := EmailInvalid];
    }
    if password == "" {
      errors := errors[Password := PasswordRequired];
    }
    r := ValidationResult(errors.Keys == {}, errors);
  }

  /** The sign-up password rule: required, then at least `minLength` long, then a strength
      score of at least 3 ("Good"). */
  function PasswordError(password: string, minLength: nat): (e: Option<Message>)
    ensures password == "" ==> e == Some(PasswordRequired)
    ensures password != "" && |password| < minLength ==> e == Some(PasswordTooShort)
    ensures e == Some(PasswordWeak) <==>
              password != "" && |password| >= minLength && CalculatePasswordStrength(password, minLength).score < 3
    ensures e.None? <==>
              password != "" && |password| >= minLength && CalculatePasswordStrength(password, minLength).score >= 3
  {
    if password == "" then Some(PasswordRequired)
    else if |password| < minLength then Some(PasswordTooShort)
    else if CalculatePasswordStrength(password, minLength).score < 3 then Some(PasswordWeak)
    else None
  }

  /** The confirmation must be present, then equal to the password. */
  function ConfirmError(password: string, confirmPassword: string): (e: Option<Message>)
    ensures e.None? <==> confirmPassword != "" && confirmPassword == password
    ensures confirmPassword == "" ==> e == Some(PleaseConfirm)
    ensures confirmPassword != "" && confirmPassword != password ==> e == Some(PasswordsDontMatch)
  {
    if confirmPassword == "" then Some(PleaseConfirm)
    else if password != confirmPassword then Some(PasswordsDontMatch)
    else None
  }

  /** A name made only of white space is missing. */
  function FullNameError(fullName: string): (e: Option<Message>)
    ensures e.Some? <==> AllSpace(fullName)
    ensures e.Some? ==> e.value == NameRequired
  {
    TrimEmptyIffAllSpace(fullName);
    if Trim(fullName) == "" then Some(NameRequired) else None
  }

  /** `validateSignupForm`: each field's error is recorded under its name, and the form is
      valid exactly when no field has one. */
  method ValidateSignupForm(form: SignupForm, minLength: nat) returns (r: ValidationResult)
    ensures r.isValid <==> r.errors.Keys == {}
    ensures Email in r.errors <==> !EmailOk(form.email)
    ensures Email in r.errors ==> r.errors[Email] == EmailError(form.email)
    ensures Password in r.errors <==> PasswordError(form.password, minLength).Some?
    ensures Password in r.errors ==> r.errors[Password] == PasswordError(form.password, minLength).value
    ensures ConfirmPassword in r.errors <==> ConfirmError(form.password, form.confirmPassword).Some?
    ensures ConfirmPassword in r.errors
            ==> r.errors[ConfirmPassword] == ConfirmError(form.password, form.confirmPassword).value
    ensures FullName in r.errors <==> AllSpace(form.fullName)
    ensures FullName in r.errors ==> r.errors[FullName] == NameRequired
    ensures AgreeToTerms in r.errors <==> !form.agreeToTerms
    ensures AgreeToTerms in r.errors ==> r.errors[AgreeToTerms] == TermsRequired
  {
    var errors: map<Field, Message> := map[];
    if form.email == "" {
      errors := errors[Email := EmailRequired];
    } else if !SharedAuthValidation.IsValidEmail(form.email) {
      errors := errors[Email := EmailInvalid];
    }
    var password := PasswordError(form.password, minLength);
    if password.Some? {
      errors := errors[Password := password.value];
    }
    var confirm := ConfirmError(form.password, form.confirmPassword);
    if confirm.Some? {
      errors := errors[ConfirmPassword := confirm.value];
    }
    var name := FullNameError(form.fullName);
    if name.Some? {
      errors := errors[FullName := name.value];
    }
    if !form.agreeToTerms {
      errors := errors[AgreeToTerms := TermsRequired];
    }
    r := ValidationResult(errors.Keys == {}, errors);
  }

  /** `validateResetPasswordForm`: the email alone, with the login form's rules. */
  method ValidateResetPasswordForm(email: string) returns (r: ValidationResult)
    ensures r.isValid <==> r.errors.Keys == {}
    ensures r.errors.Keys <= {Email}
    ensures Email in r.errors <==> !EmailOk(email)
    ensures Email in r.errors ==> r.errors[Email] == EmailError(email)
  {
    var errors: map<Field, Message> := map[];
    if email == "" {
      errors := errors[Email := EmailRequired];
    } else if !SharedAuthValidation.IsValidEmail(email) {
      errors := errors[Email := EmailInvalid];
    }
    r := ValidationResult(errors.Keys == {}, errors);
  }
}
