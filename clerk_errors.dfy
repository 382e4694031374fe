/** Parsing of the error payloads returned by the Clerk authentication service into per-field
    messages and a toast message, the field clearers, and the error-code message table.

    A field value is an `Option<string>`: `None` is `null`, and `Some("")` stands for a field
    that was assigned an empty or missing message (still `!== null` in the source). */
module ClerkErrors {
  import opened Common

  /** One entry of `error.errors`: `meta.paramName`, `message` and `longMessage` ("" when absent). */
  datatype ClerkEntry = ClerkEntry(paramName: Option<string>, message: string, longMessage: string)

  /** The error value handed to the parser. `Falsy` is `null`, `undefined` or another falsy
      value. Otherwise `errors` is the `errors` array when it is present and an array, and
      `message` and `text` are `error.message` and `error.toString()` ("" when falsy). */
  datatype ClerkPayload =
    | Falsy
    | Payload(errors: Option<seq<ClerkEntry>>, message: string, text: string)

  datatype ClerkErrorMapping = ClerkErrorMapping(
    email: Option<string>, firstName: Option<string>, lastName: Option<string>,
    password: Option<string>, general: Option<string>)

  datatype ParsedClerkError = ParsedClerkError(
    fieldErrors: ClerkErrorMapping, hasErrors: bool,
    generalError: Option<string>, toastMessage: Option<string>)

  /** The keys of `ClerkErrorMapping`. */
  datatype ClerkField = EmailField | FirstNameField | LastNameField | PasswordField | GeneralField

  const FallbackMessage := "An unexpected error occurred. Please try again."

  const NoErrors := ClerkErrorMapping(None, None, None, None, None)

  /** `err.message || err.longMessage`. */
  function EntryMessage(e: ClerkEntry): string {
    if e.message != "" then e.message else e.longMessage
  }

  /** The `switch (paramName)`: which field an entry is written to. */
  function Route(paramName: Option<string>): (f: ClerkField)
    ensures f == GeneralField <==>
              paramName !in {Some("email_address"), Some("first_name"), Some("last_name"), Some("password")}
  {
    match paramName
    case Some("email_address") => EmailField
    case Some("first_name") => FirstNameField
    case Some("last_name") => LastNameField
    case Some("password") => PasswordField
    case _ => GeneralField
  }

  function Field(m: ClerkErrorMapping, f: ClerkField): Option<string> {
    match f
    case EmailField => m.email
    case FirstNameField => m.firstName
    case LastNameField => m.lastName
    case PasswordField => m.password
    case GeneralField => m.general
  }

  /** `{ ...prev, [field]: value }`. */
  function SetField(m: ClerkErrorMapping, f: ClerkField, v: Option<string>): (r: ClerkErrorMapping)
    ensures Field(r, f) == v
    ensures forall g :: g != f ==> Field(r, g) == Field(m, g)
  {
    match f
    case EmailField => m.(email := v)
    case FirstNameField => m.(firstName := v)
    case LastNameField => m.(lastName := v)
    case PasswordField => m.(password := v)
    case GeneralField => m.(general := v)
  }

  /** `Object.values(fieldErrors).some(error => error !== null)`. */
  predicate AnySet(m: ClerkErrorMapping) {
    exists f :: Field(m, f).Some?
  }

  /** The message of the last entry routed to the named field `f`, if any. */
  function LastRouted(es: seq<ClerkEntry>, f: ClerkField): Option<string> {
    if es == [] then None
    else if Route(es[|es| - 1].paramName) == f then Some(EntryMessage(es[|es| - 1]))
    else LastRouted(es[..|es| - 1], f)
  }

  /** The general message after the entries `es`: an entry routed to `general` writes its
      message only while the current value is falsy. */
  function GeneralAfter(es: seq<ClerkEntry>): Option<string> {
    if es == [] then None
    else
      var g := GeneralAfter(es[..|es| - 1]);
      var e := es[|es| - 1];
      if Route(e.paramName) == GeneralField && (g.None? || g.value == "") then Some(EntryMessage(e))
      else g
  }

  /** The entry messages, in order. */
  function Messages(es: seq<ClerkEntry>): (ms: seq<string>)
    ensures |ms| == |es| && forall i :: 0 <= i < |es| ==> ms[i] == EntryMessage(es[i])
  {
    seq(|es|, i requires 0 <= i < |es| => EntryMessage(es[i]))
  }

  function NonEmpty(s: string): bool { s != "" }

  /** The fallback record used when there is no usable `errors` array. */
  function FallbackResult(message: string): ParsedClerkError {
    ParsedClerkError(NoErrors.(general := Some(message)), true, Some(message), Some(message))
  }

  /** The `error.errors.forEach` loop of `parseClerkErrors`: each entry writes its message to
      its field (the general field only while it is falsy), and non-empty messages are
      collected in order. */
  method CollectEntries(es: seq<ClerkEntry>) returns (fieldErrors: ClerkErrorMapping, errorMessages: seq<string>)
    ensures forall f :: f != GeneralField ==> Field(fieldErrors, f) == LastRouted(es, f)
    ensures fieldErrors.general == GeneralAfter(es)
    ensures errorMessages == Filter(Messages(es), NonEmpty)
    ensures es != [] ==> AnySet(fieldErrors)
  {
    fieldErrors := NoErrors;
    errorMessages := [];
    var k := 0;
    while k < |es|
      invariant 0 <= k <= |es|
      invariant forall f :: f != GeneralField ==> Field(fieldErrors, f) == LastRouted(es[..k], f)
      invariant fieldErrors.general == GeneralAfter(es[..k])
      invariant errorMessages == Filter(Messages(es[..k]), NonEmpty)
      invariant k > 0 ==> AnySet(fieldErrors)
    {
      var err := es[k];
      var message := EntryMessage(err);
      var f := Route(err.paramName);
      StepFacts(es, k);
      if message != "" {
        errorMessages := errorMessages + [message];
      }
      if f != GeneralField {
        fieldErrors := SetField(fieldErrors, f, Some(message));
      } else if fieldErrors.general.None? || fieldErrors.general.value == "" {
        fieldErrors := fieldErrors.(general := Some(message));
      }
      assert Field(fieldErrors, f).Some?;
      forall g | g != GeneralField ensures Field(fieldErrors, g) == LastRouted(es[..k + 1], g) {
        if g != f {
          assert Field(fieldErrors, g) == LastRouted(es[..k], g);
        }
      }
      k := k + 1;
    }
    assert es[..k] == es;
  }

  /** How one more entry extends the specification functions. */
  lemma StepFacts(es: seq<ClerkEntry>, k: nat)
    requires k < |es|
    ensures forall g :: LastRouted(es[..k + 1], g) ==
                          if Route(es[k].paramName) == g then Some(EntryMessage(es[k])) else LastRouted(es[..k], g)
    ensures var g := GeneralAfter(es[..k]);
            GeneralAfter(es[..k + 1]) ==
              if Route(es[k].paramName) == GeneralField && (g.None? || g.value == "")
              then Some(EntryMessage(es[k])) else g
    ensures Filter(Messages(es[..k + 1]), NonEmpty) ==
              Filter(Messages(es[..k]), NonEmpty) + (if EntryMessage(es[k]) != "" then [EntryMessage(es[k])] else [])
  {
    var q := es[..k + 1];
    assert q[|q| - 1] == es[k] && q[..|q| - 1] == es[..k];
    forall g ensures LastRouted(q, g) ==
                       if Route(es[k].paramName) == g then Some(EntryMessage(es[k])) else LastRouted(es[..k], g) {
      assert q != [];
    }
    assert Messages(q) == Messages(es[..k]) + [EntryMessage(es[k])];
    FilterAppend(Messages(es[..k]), [EntryMessage(es[k])], NonEmpty);
  }

  /** `parseClerkErrors`. */
  method ParseClerkErrors(error: ClerkPayload) returns (r: ParsedClerkError)
    ensures error.Falsy? ==> r == FallbackResult(FallbackMessage)
    ensures error.Payload? && (error.errors.None? || error.errors.value == []) ==>
              r == FallbackResult(if error.message != "" then error.message
                                  else if error.text != "" then error.text
                                  else FallbackMessage)
    ensures error.Payload? && error.errors.Some? && error.errors.value != [] ==>
              var es := error.errors.value;
              && (forall f :: f != GeneralField ==> Field(r.fieldErrors, f) == LastRouted(es, f))
              && r.fieldErrors.general == GeneralAfter(es)
              && r.generalError == GeneralAfter(es)
              && var ms := Filter(Messages(es), NonEmpty);
                 r.toastMessage == (if ms == [] then None else Some(ms[0]))
    ensures r.hasErrors <==> AnySet(r.fieldErrors)
    ensures r.hasErrors
  {
    var fieldErrors := NoErrors;
    var toastMessage: Option<string> := None;
    var generalError: Option<string> := None;
    if error.Falsy? {
      fieldErrors := fieldErrors.(general := Some(FallbackMessage));
      generalError := Some(FallbackMessage);
      toastMessage := Some(FallbackMessage);
      assert Field(fieldErrors, GeneralField).Some?;
      return ParsedClerkError(fieldErrors, true, generalError, toastMessage);
    }
    if error.errors.Some? && |error.errors.value| > 0 {
      var errorMessages;
      fieldErrors, errorMessages := CollectEntries(error.errors.value);
      generalError := fieldErrors.general;
      if |errorMessages| > 0 {
        toastMessage := Some(errorMessages[0]);
      }
    } else {
      var fallbackMessage :=
        if error.message != "" then error.message
        else if error.text != "" then error.text
        else FallbackMessage;
      fieldErrors := fieldErrors.(general := Some(fallbackMessage));
      generalError := Some(fallbackMessage);
      toastMessage := Some(fallbackMessage);
      assert Field(fieldErrors, GeneralField).Some?;
    }
    var hasErrors := AnySet(fieldErrors);
    r := ParsedClerkError(fieldErrors, hasErrors, generalError, toastMessage);
  }

  /** The named-field value is the message of the last entry routed there: a later entry
      overwrites an earlier one. */
  lemma {:induction false} LastRoutedIsLast(es: seq<ClerkEntry>, f: ClerkField)
    ensures LastRouted(es, f).None? <==> forall i :: 0 <= i < |es| ==> Route(es[i].paramName) != f
    ensures LastRouted(es, f).Some? ==>
              exists i :: 0 <= i < |es| && Route(es[i].paramName) == f
                          && LastRouted(es, f) == Some(EntryMessage(es[i]))
                          && forall j :: i < j < |es| ==> Route(es[j].paramName) != f
  {
    LastRoutedNone(es, f);
    if LastRouted(es, f).Some? {
      LastRoutedSome(es, f);
    }
  }

  lemma {:induction false} LastRoutedNone(es: seq<ClerkEntry>, f: ClerkField)
    ensures LastRouted(es, f).None? <==> forall i :: 0 <= i < |es| ==> Route(es[i].paramName) != f
  {
    if es != [] {
      var p := es[..|es| - 1];
      LastRoutedNone(p, f);
      assert forall i :: 0 <= i < |p| ==> es[i] == p[i];
    }
  }

  /** Entry `i` is routed to `f`, and no later entry is. */
  predicate LastRoutedAt(es: seq<ClerkEntry>, f: ClerkField, i: int) {
    0 <= i < |es| && Route(es[i].paramName) == f && forall j :: i < j < |es| ==> Route(es[j].paramName) != f
  }

  lemma {:induction false} LastRoutedSome(es: seq<ClerkEntry>, f: ClerkField)
    requires LastRouted(es, f).Some?
    ensures exists i :: 0 <= i < |es| && Route(es[i].paramName) == f
                        && LastRouted(es, f) == Some(EntryMessage(es[i]))
                        && forall j :: i < j < |es| ==> Route(es[j].paramName) != f
  {
    var i := LastRoutedIndex(es, f);
    assert LastRoutedAt(es, f, i);
  }

  lemma {:induction false} LastRoutedIndex(es: seq<ClerkEntry>, f: ClerkField) returns (i: int)
    requires LastRouted(es, f).Some?
    ensures LastRoutedAt(es, f, i) && LastRouted(es, f) == Some(EntryMessage(es[i]))
  {
    var n := |es| - 1;
    if Route(es[n].paramName) == f {
      i := n;
    } else {
      var p := es[..n];
      i := LastRoutedIndex(p, f);
      assert es[i] == p[i];
      assert forall j :: i < j < n ==> es[j] == p[j];
    }
  }

  /** The first entry routed to `general` that has a non-empty message, if any. */
  function FirstGeneral(es: seq<ClerkEntry>): (r: Option<string>)
    ensures r.Some? ==> r.value != ""
  {
    if es == [] then None
    else if Route(es[0].paramName) == GeneralField && EntryMessage(es[0]) != "" then Some(EntryMessage(es[0]))
    else FirstGeneral(es[1..])
  }

  predicate AnyGeneral(es: seq<ClerkEntry>) {
    exists i :: 0 <= i < |es| && Route(es[i].paramName) == GeneralField
  }

  /** The general message is the first non-empty general message; failing that, an entry
      routed to `general` leaves an empty message there, and no such entry leaves `null`. */
  lemma {:induction false} GeneralIsFirst(es: seq<ClerkEntry>)
    ensures GeneralAfter(es) ==
              (if FirstGeneral(es).Some? then FirstGeneral(es)
               else if AnyGeneral(es) then Some("") else None)
  {
    if es != [] {
      var n := |es| - 1;
      var p := es[..n];
      GeneralIsFirst(p);
      FirstGeneralAppend(p, es[n]);
      assert p + [es[n]] == es;
      var e := es[n];
      assert forall i :: 0 <= i < n ==> es[i] == p[i];
      if Route(e.paramName) == GeneralField {
        assert AnyGeneral(es);
      } else if AnyGeneral(p) {
        var i :| 0 <= i < |p| && Route(p[i].paramName) == GeneralField;
        assert Route(es[i].paramName) == GeneralField;
      } else {
        assert !AnyGeneral(es);
      }
    }
  }

  lemma {:induction false} FirstGeneralAppend(p: seq<ClerkEntry>, e: ClerkEntry)
    ensures FirstGeneral(p + [e]) ==
              (if FirstGeneral(p).Some? then FirstGeneral(p)
               else if Route(e.paramName) == GeneralField && EntryMessage(e) != "" then Some(EntryMessage(e))
               else None)
  {
    if p == [] {
      assert [e][1..] == [];
    } else {
      assert (p + [e])[1..] == p[1..] + [e];
      FirstGeneralAppend(p[1..], e);
    }
  }

  /** The toast is the first non-empty entry message, in array order. */
  lemma ToastIsFirstMessage(es: seq<ClerkEntry>)
    ensures var ms := Filter(Messages(es), NonEmpty);
            (ms == [] <==> forall i :: 0 <= i < |es| ==> EntryMessage(es[i]) == "")
            && (ms != [] ==> exists i :: 0 <= i < |es| && ms[0] == EntryMessage(es[i]) != ""
                                         && forall j :: 0 <= j < i ==> EntryMessage(es[j]) == "")
  {
    var ms := Messages(es);
    AllEmptyIff(ms);
    if Filter(ms, NonEmpty) != [] {
      var i := FirstNonEmptyIndex(ms);
      assert ms[i] == EntryMessage(es[i]);
    }
  }

  predicate AllEmpty(ms: seq<string>) { forall i :: 0 <= i < |ms| ==> ms[i] == "" }

  /** `ms[i]` is the first non-empty string of `ms`. */
  predicate FirstNonEmptyAt(ms: seq<string>, i: int)
  {
    0 <= i < |ms| && ms[i] != "" && forall j :: 0 <= j < i ==> ms[j] == ""
  }

  lemma {:induction false} AllEmptyIff(ms: seq<string>)
    ensures Filter(ms, NonEmpty) == [] <==> AllEmpty(ms)
  {
    if ms != [] {
      var t := ms[1..];
      AllEmptyIff(t);
      if ms[0] != "" {
        assert Filter(ms, NonEmpty) == [ms[0]] + Filter(t, NonEmpty);
      } else {
        assert Filter(ms, NonEmpty) == Filter(t, NonEmpty);
        if AllEmpty(t) {
          forall i | 0 < i < |ms| ensures ms[i] == "" { assert ms[i] == t[i - 1]; }
        }
        if AllEmpty(ms) {
          forall i | 0 <= i < |t| ensures t[i] == "" { assert t[i] == ms[i + 1]; }
        }
      }
    }
  }

  lemma {:induction false} FirstNonEmptyIndex(ms: seq<string>) returns (i: int)
    requires Filter(ms, NonEmpty) != []
    ensures FirstNonEmptyAt(ms, i) && Filter(ms, NonEmpty)[0] == ms[i]
  {
    var t := ms[1..];
    if ms[0] != "" {
      assert Filter(ms, NonEmpty) == [ms[0]] + Filter(t, NonEmpty);
      i := 0;
    } else {
      assert Filter(ms, NonEmpty) == Filter(t, NonEmpty);
      var k := FirstNonEmptyIndex(t);
      i := k + 1;
      assert ms[i] == t[k];
      forall j | 0 < j < i ensures ms[j] == "" { assert ms[j] == t[j - 1]; }
    }
  }

  /** `createClerkErrorClearer(set)(field)`: the updater it applies. */
  function ClearField(prev: ClerkErrorMapping, f: ClerkField): (r: ClerkErrorMapping)
    ensures Field(r, f).None?
    ensures forall g :: g != f ==> Field(r, g) == Field(prev, g)
  {
    SetField(prev, f, None)
  }

  /** `clearAllClerkErrors`: the state it installs. */
  function ClearAll(): (r: ClerkErrorMapping)
    ensures forall f :: Field(r, f).None?
    ensures !AnySet(r)
  {
    NoErrors
  }

  /** `CLERK_ERROR_MESSAGES`: an entry exactly for the known codes, never an empty message. */
  function ClerkMessage(code: string): (m: Option<string>)
    ensures m.Some? <==> code in KnownCodes
  {
    match code
    case "form_identifier_exists" => Some("That email address is already taken. Please try another.")
    case "form_param_nil" => Some("This field is required.")
    case "form_password_pwned" =>
      Some("This password has been found in a data breach. Please choose a different password.")
    case "form_password_too_common" => Some("This password is too common. Please choose a more secure password.")
    case "form_invalid_email_address" => Some("Please enter a valid email address.")
    case "form_password_length_too_short" => Some("Password must be at least 8 characters long.")
    case "session_exists" => Some("You are already signed in.")
    case "identifier_already_signed_in" => Some("You are already signed in with this account.")
    case _ => None
  }

  const KnownCodes: set<string> := {
    "form_identifier_exists", "form_param_nil", "form_password_pwned", "form_password_too_common",
    "form_invalid_email_address", "form_password_length_too_short", "session_exists",
    "identifier_already_signed_in"}

  /** `getClerkErrorMessage`: the table entry for a known code, the fallback otherwise. */
  function GetClerkErrorMessage(code: string, fallback: string): (r: string)
    ensures code in KnownCodes ==> r == ClerkMessage(code).value && r != ""
    ensures code !in KnownCodes ==> r == fallback
  {
    var m := ClerkMessage(code);
    ClerkMessageNonEmpty(code);
    if m.Some? && m.value != "" then m.value else fallback
  }

  /** Every message of the table is non-empty, so `|| fallback` only applies to unknown codes. */
  lemma ClerkMessageNonEmpty(code: string)
    ensures ClerkMessage(code).Some? ==> ClerkMessage(code).value != ""
  {
    if code in {"form_identifier_exists", "form_param_nil"} {
      IdentifierMessagesNonEmpty(code);
    } else if code in {"form_password_pwned", "form_password_too_common"} {
      PasswordMessagesNonEmpty(code);
    } else if code in KnownCodes {
      LastMessagesNonEmpty(code);
    }
  }

  lemma IdentifierMessagesNonEmpty(code: string)
    requires code in {"form_identifier_exists", "form_param_nil"}
    ensures ClerkMessage(code).Some? && ClerkMessage(code).value != ""
  {
  }

  lemma PasswordMessagesNonEmpty(code: string)
    requires code in {"form_password_pwned", "form_password_too_common"}
    ensures ClerkMessage(code).Some? && ClerkMessage(code).value != ""
  {
  }

  lemma LastMessagesNonEmpty(code: string)
    requires code in KnownCodes
    requires code !in {"form_identifier_exists", "form_param_nil", "form_password_pwned", "form_password_too_common"}
    ensures ClerkMessage(code).Some? && ClerkMessage(code).value != ""
  {
  }
}
