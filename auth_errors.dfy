/** Classification of authentication errors into error types, the user-facing message for each
    type, and the handling of authentication responses.

    Translation is a parameter `t` mapping a key to its text, with "" for a missing entry. */
module AuthErrors {
  import opened Common
  import opened JsText

  /** `AuthErrorType`, plus `Timeout`: the pattern table has a "timeout" group whose name is not
      one of the declared types, and the classifier returns it all the same. */
  datatype AuthErrorType =
    | InvalidCredentials | EmailNotConfirmed | TooManyAttempts | NetworkError | BadRequest
    | Unauthorized | RateLimit | ValidationError | UnexpectedError | AppleNotConfigured
    | AppleCanceled | AppleUnavailable | Unknown
    | Timeout

  /** The error value handed to the classifier. `Falsy` is `null`, `undefined` or another falsy
      value. Text fields are "" and status fields 0 when absent or falsy. */
  datatype AuthErrorInput =
    | Falsy
    | ErrorObject(message: string, errorDescription: string, code: string, status: int, statusCode: int)

  datatype AuthError = AuthError(
    kind: AuthErrorType, message: string, originalError: AuthErrorInput, statusCode: int, errorCode: string)

  /** `ERROR_PATTERNS`, in declaration order. */
  const ErrorPatterns: seq<(AuthErrorType, seq<string>)> := [
    (InvalidCredentials, ["invalid login credentials", "invalid email or password", "email or password is incorrect"]),
    (EmailNotConfirmed, ["email not confirmed", "email_not_confirmed", "signup_not_confirmed"]),
    (TooManyAttempts, ["too many requests", "rate limit exceeded", "too many login attempts"]),
    (NetworkError, ["network request failed", "fetch error", "connection failed", "network error"]),
    (AppleNotConfigured, ["provider (issuer \"https://appleid.apple.com\") is not enabled",
                          "apple sign in is not configured", "provider not enabled"]),
    (AppleCanceled, ["apple sign in was canceled", "err_request_canceled", "err_canceled", "canceled"]),
    (AppleUnavailable, ["apple sign in is not available", "apple authentication is not available",
                        "not available on this device"]),
    (Timeout, ["timeout", "request timeout", "operation timeout"])
  ]

  /** `STATUS_CODE_MAPPINGS`. */
  function StatusMapping(status: int): Option<AuthErrorType> {
    match status
    case 400 => Some(BadRequest)
    case 401 => Some(Unauthorized)
    case 403 => Some(Unauthorized)
    case 429 => Some(TooManyAttempts)
    case 500 => Some(NetworkError)
    case 502 => Some(NetworkError)
    case 503 => Some(NetworkError)
    case 504 => Some(NetworkError)
    case _ => None
  }

  /** `error.status || error.statusCode`. */
  function StatusOf(e: AuthErrorInput): int
    requires e.ErrorObject?
  {
    if e.status != 0 then e.status else e.statusCode
  }

  /** `(error.message || error.error_description || "").toLowerCase()`. */
  function MessageOf(e: AuthErrorInput): string
    requires e.ErrorObject?
  {
    ToLower(if e.message != "" then e.message else e.errorDescription)
  }

  predicate AnyContained(message: string, patterns: seq<string>) {
    exists p :: p in patterns && Contains(message, p)
  }

  /** The `for … of Object.entries(ERROR_PATTERNS)` scan: the first group with a pattern that
      occurs in the message. */
  function FirstMatchingGroup(groups: seq<(AuthErrorType, seq<string>)>, message: string): Option<AuthErrorType> {
    if groups == [] then None
    else if AnyContained(message, groups[0].1) then Some(groups[0].0)
    else FirstMatchingGroup(groups[1..], message)
  }

  /** The scan returns the type of the first matching group, and nothing when no group matches. */
  lemma {:induction false} FirstMatchingGroupSpec(groups: seq<(AuthErrorType, seq<string>)>, message: string)
    ensures FirstMatchingGroup(groups, message).None? <==>
              forall i :: 0 <= i < |groups| ==> !AnyContained(message, groups[i].1)
    ensures FirstMatchingGroup(groups, message).Some? ==>
              exists i :: 0 <= i < |groups| && groups[i].0 == FirstMatchingGroup(groups, message).value
                          && AnyContained(message, groups[i].1)
                          && forall j :: 0 <= j < i ==> !AnyContained(message, groups[j].1)
  {
    if groups != [] && !AnyContained(message, groups[0].1) {
      var t := groups[1..];
      FirstMatchingGroupSpec(t, message);
      assert forall i :: 0 < i < |groups| ==> groups[i] == t[i - 1];
      if FirstMatchingGroup(t, message).Some? {
        var i :| 0 <= i < |t| && t[i].0 == FirstMatchingGroup(t, message).value
                 && AnyContained(message, t[i].1)
                 && forall j :: 0 <= j < i ==> !AnyContained(message, t[j].1);
        assert groups[i + 1] == t[i];
      }
    }
  }

  /** `classifyAuthError`. */
  function ClassifyAuthError(error: AuthErrorInput): AuthErrorType {
    if error.Falsy? then Unknown
    else
      var status := StatusOf(error);
      if status != 0 && StatusMapping(status).Some? then StatusMapping(status).value
      else if error.code == "too_many_requests" || status == 429 then TooManyAttempts
      else match FirstMatchingGroup(ErrorPatterns, MessageOf(error))
           case Some(kind) => kind
           case None => if status >= 500 then NetworkError else Unknown
  }

  /** The order of the classifier's decisions: falsy errors, then the status table, then the
      error code, then the message patterns, then server status codes. */
  lemma ClassifyAuthErrorOrder(error: AuthErrorInput)
    ensures error.Falsy? ==> ClassifyAuthError(error) == Unknown
    ensures error.ErrorObject? && StatusMapping(StatusOf(error)).Some? ==>
              ClassifyAuthError(error) == StatusMapping(StatusOf(error)).value
    ensures error.ErrorObject? && StatusMapping(StatusOf(error)).None? && error.code == "too_many_requests" ==>
              ClassifyAuthError(error) == TooManyAttempts
    ensures error.ErrorObject? && StatusMapping(StatusOf(error)).None? && error.code != "too_many_requests" ==>
              var m := FirstMatchingGroup(ErrorPatterns, MessageOf(error));
              ClassifyAuthError(error) ==
                (if m.Some? then m.value else if StatusOf(error) >= 500 then NetworkError else Unknown)
  {
  }

  /** A message classified through the pattern table contains a pattern of the returned group,
      and no pattern of an earlier group. */
  lemma ClassifiedByPattern(error: AuthErrorInput)
    requires error.ErrorObject? && StatusMapping(StatusOf(error)).None? && error.code != "too_many_requests"
    requires FirstMatchingGroup(ErrorPatterns, MessageOf(error)).Some?
    ensures exists i :: 0 <= i < |ErrorPatterns| && ErrorPatterns[i].0 == ClassifyAuthError(error)
                        && AnyContained(MessageOf(error), ErrorPatterns[i].1)
                        && forall j :: 0 <= j < i ==> !AnyContained(MessageOf(error), ErrorPatterns[j].1)
  {
    FirstMatchingGroupSpec(ErrorPatterns, MessageOf(error));
  }

  /** Any message mentioning "timeout" and none of the earlier patterns is classified as the
      type outside the declared union. */
  lemma TimeoutEscapesUnion(error: AuthErrorInput)
    requires error.ErrorObject? && StatusMapping(StatusOf(error)).None? && error.code != "too_many_requests"
    requires forall j :: 0 <= j < 7 ==> !AnyContained(MessageOf(error), ErrorPatterns[j].1)
    requires Contains(MessageOf(error), "timeout")
    ensures ClassifyAuthError(error) == Timeout
  {
    var m := MessageOf(error);
    SkipUnmatchedGroups(ErrorPatterns, 7, m);
    assert AnyContained(m, ErrorPatterns[7..][0].1);
  }

  /** Groups that do not match are passed over by the scan. */
  lemma {:induction false} SkipUnmatchedGroups(groups: seq<(AuthErrorType, seq<string>)>, k: nat, message: string)
    requires k <= |groups|
    requires forall j :: 0 <= j < k ==> !AnyContained(message, groups[j].1)
    ensures FirstMatchingGroup(groups, message) == FirstMatchingGroup(groups[k..], message)
  {
    if k > 0 {
      assert !AnyContained(message, groups[0].1);
      SkipUnmatchedGroups(groups[1..], k - 1, message);
      assert groups[1..][k - 1..] == groups[k..];
    }
  }

  /** `getErrorMessage`: the translated text for the type, or its English default when the
      translation is missing; for `unknown`, a non-empty original message comes first. The
      `Timeout` type has no entry and yields `undefined` (here `None`). */
  function GetErrorMessage(kind: AuthErrorType, t: string -> string, originalMessage: string): (r: Option<string>)
    ensures r.None? <==> kind == Timeout
    ensures r.Some? ==> r.value != ""
    ensures kind == Unknown && originalMessage != "" ==> r == Some(originalMessage)
    ensures kind !in {Unknown, Timeout} ==> r == Some(Or(t(TranslationKey(kind)), DefaultMessage(kind)))
  {
    if kind == Timeout then None
    else if kind == Unknown then Some(Or(originalMessage, Or(t("auth.errors.unknown"), "An error occurred. Please try again")))
    else Some(Or(t(TranslationKey(kind)), DefaultMessage(kind)))
  }

  /** `a || b` on strings. */
  function Or(a: string, b: string): string { if a != "" then a else b }

  function TranslationKey(kind: AuthErrorType): string {
    match kind
    case InvalidCredentials => "auth.errors.invalidCredentials"
    case EmailNotConfirmed => "auth.errors.emailNotConfirmed"
    case TooManyAttempts => "auth.errors.tooManyAttempts"
    case NetworkError => "auth.errors.networkError"
    case BadRequest => "auth.errors.badRequest"
    case Unauthorized => "auth.errors.unauthorized"
    case RateLimit => "auth.errors.rateLimit"
    case ValidationError => "auth.errors.validationError"
    case UnexpectedError => "auth.errors.unexpectedError"
    case AppleNotConfigured => "auth.errors.appleNotConfigured"
    case AppleCanceled => "auth.errors.appleCanceled"
    case AppleUnavailable => "auth.errors.appleUnavailable"
    case Unknown => "auth.errors.unknown"
    case Timeout => "auth.errors.timeout"
  }

  function DefaultMessage(kind: AuthErrorType): (r: string)
    ensures r != ""
  {
    match kind
    case InvalidCredentials => "Invalid email or password"
    case EmailNotConfirmed => "Please check your email and confirm your account"
    case TooManyAttempts => "Too many attempts. Please wait before trying again"
    case NetworkError => "Network error. Please check your connection"
    case BadRequest => "Invalid request. Please check your input"
    case Unauthorized => "Invalid email or password"
    case RateLimit => "Too many requests. Please wait before trying again"
    case ValidationError => "Please check your input and try again"
    case UnexpectedError => "An unexpected error occurred"
    case AppleNotConfigured | AppleCanceled | AppleUnavailable => AppleDefaultMessage(kind)
    case Unknown => "An error occurred. Please try again"
    case Timeout => "An error occurred. Please try again"
  }

  /** The English defaults of the Sign in with Apple errors. */
  function AppleDefaultMessage(kind: AuthErrorType): (r: string)
    requires kind in {AppleNotConfigured, AppleCanceled, AppleUnavailable}
    ensures r != ""
  {
    match kind
    case AppleNotConfigured => "Apple Sign In is not configured. Please use email/password or contact support."
    case AppleCanceled => "Apple Sign In was canceled"
    case AppleUnavailable => "Apple Sign In is not available on this device"
  }

  /** The unknown-error message is kept when it is longer than five characters and does not
      mention "undefined". */
  predicate Meaningful(message: string) {
    message != "" && !Contains(message, "undefined") && |message| > 5
  }

  /** `processAuthError`. */
  function ProcessAuthError(error: AuthErrorInput): (r: AuthError)
    ensures r.kind == ClassifyAuthError(error) && r.originalError == error
    ensures r.message != "" <==> r.kind == Unknown && error.ErrorObject? && Meaningful(error.message)
    ensures r.message != "" ==> r.message == error.message
    ensures error.Falsy? ==> r == AuthError(Unknown, "", Falsy, 0, "")
  {
    var kind := ClassifyAuthError(error);
    if error.Falsy? then AuthError(kind, "", error, 0, "")
    else
      var preserve := kind == Unknown && Meaningful(error.message);
      AuthError(kind, if preserve then error.message else "", error, StatusOf(error), error.code)
  }

  /** `handleAuthError` of `useAuthErrorHandler`: the processed error with its message replaced
      by the user-facing text. */
  function HandleAuthError(error: AuthErrorInput, t: string -> string): (r: Option<AuthError>)
    ensures r.None? <==> ClassifyAuthError(error) == Timeout
    ensures r.Some? ==> r.value.kind == ClassifyAuthError(error) && r.value.message != ""
    ensures error.ErrorObject? && ClassifyAuthError(error) == Unknown && Meaningful(error.message) ==>
              r == Some(ProcessAuthError(error).(message := error.message))
  {
    var processed := ProcessAuthError(error);
    match GetErrorMessage(processed.kind, t, processed.message)
    case Some(m) => Some(processed.(message := m))
    case None => None
  }

  /** What `handleAuthResponse` does with its callbacks. */
  datatype ResponseAction<T> = CalledOnSuccess(data: T) | CalledOnError(error: AuthError) | NoCallback

  /** `handleAuthResponse`: `data` is `None` when it is missing or falsy, `error` "" when absent. */
  function HandleAuthResponse<T>(success: bool, error: string, data: Option<T>): (r: (bool, ResponseAction<T>))
    ensures r.0 <==> success && data.Some?
    ensures r.0 ==> r.1 == CalledOnSuccess(data.value)
    ensures r.1.CalledOnError? <==> !(success && data.Some?) && error != ""
    ensures r.1.CalledOnError? ==> r.1.error == ProcessAuthError(ErrorObject(error, "", "", 0, 0))
  {
    if success && data.Some? then (true, CalledOnSuccess(data.value))
    else if error != "" then (false, CalledOnError(ProcessAuthError(ErrorObject(error, "", "", 0, 0))))
    else (false, NoCallback)
  }

  /** A response error is never classified by status or code: only its message counts. */
  lemma ResponseErrorByMessage(error: string)
    ensures var m := FirstMatchingGroup(ErrorPatterns, ToLower(error));
            ClassifyAuthError(ErrorObject(error, "", "", 0, 0)) == (if m.Some? then m.value else Unknown)
  {
  }
}
