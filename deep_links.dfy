/** Authentication deep links: reading the parameters of an incoming link, choosing the auth
    modal it opens, completing a login from its callback parameters, and building a callback
    link.

    `URLSearchParams` decoding and serialisation (application/x-www-form-urlencoded, section
    5 of the WHATWG URL Standard) and `Linking.parse` are parameters: `decode` turns a query
    string into its name/value entries in order, `encode` does the reverse, and `linking`
    gives the query parameters expo-linking reads from a URL, or reports that it threw. */
module DeepLinks {
  import opened Common
  import opened JsText

  /** The name/value entries of a query string, in order. */
  type Entries = seq<(string, string)>

  /** `DeepLinkParams`: parameter name to value. */
  type Params = map<string, string>

  /** What `Linking.parse(url)` gives: its query parameters (absent for `null`), or an
      exception. */
  datatype LinkingParse = ParseThrew | Parsed(queryParams: Option<Params>)

  // ---------------------------------------------------------------------------------------
  // Assigning entries into a parameter object

  function EntryKeys(es: Entries): set<string> {
    set i | 0 <= i < |es| :: es[i].0
  }

  /** `for (const [key, value] of entries) params[key] = value`. */
  function Assigned(m: Params, es: Entries): Params
    decreases |es|
  {
    if es == [] then m
    else Assigned(m, es[..|es| - 1])[es[|es| - 1].0 := es[|es| - 1].1]
  }

  /** The value of the last entry named `k`. */
  function LastValue(es: Entries, k: string): string
    requires k in EntryKeys(es)
    decreases |es|
  {
    var last := es[|es| - 1];
    if last.0 == k then last.1
    else
      assert k in EntryKeys(es[..|es| - 1]) by {
        var i :| 0 <= i < |es| && es[i].0 == k;
        assert es[..|es| - 1][i].0 == k;
      }
      LastValue(es[..|es| - 1], k)
  }

  lemma FrontKeys(es: Entries)
    requires es != []
    ensures EntryKeys(es) == EntryKeys(es[..|es| - 1]) + {es[|es| - 1].0}
  {
    var front := es[..|es| - 1];
    forall k | k in EntryKeys(es) ensures k in EntryKeys(front) + {es[|es| - 1].0} {
      var i :| 0 <= i < |es| && es[i].0 == k;
      if i < |es| - 1 {
        assert front[i].0 == k;
      }
    }
    forall k | k in EntryKeys(front) ensures k in EntryKeys(es) {
      var i :| 0 <= i < |front| && front[i].0 == k;
      assert es[i].0 == k;
    }
  }

  /** After the assignments, a key named by an entry holds its last value, and every other
      key keeps what it had. */
  lemma {:induction false} AssignedLookup(m: Params, es: Entries, k: string)
    ensures k in Assigned(m, es) <==> k in m || k in EntryKeys(es)
    ensures k in EntryKeys(es) ==> Assigned(m, es)[k] == LastValue(es, k)
    ensures k !in EntryKeys(es) && k in m ==> Assigned(m, es)[k] == m[k]
    decreases |es|
  {
    if es != [] {
      FrontKeys(es);
      AssignedLookup(m, es[..|es| - 1], k);
    }
  }

  /** The loop of `parseDeepLinkUrl` that copies entries into `params`. */
  method AssignEntries(params: Params, es: Entries) returns (r: Params)
    ensures r == Assigned(params, es)
  {
    r := params;
    var i := 0;
    while i < |es|
      invariant 0 <= i <= |es|
      invariant r == Assigned(params, es[..i])
    {
      assert es[..i + 1][..i] == es[..i];
      r := r[es[i].0 := es[i].1];
      i := i + 1;
    }
    assert es[..i] == es;
  }

  // ---------------------------------------------------------------------------------------
  // Parsing

  /** `s.split(c)[k]`, with the empty string for a missing part (both are falsy). */
  function Part(s: string, c: char, k: nat): string {
    var parts := Split(s, c);
    if k < |parts| then parts[k] else ""
  }

  /** The fragment entries `parseDeepLinkUrl` reads: those of the text after the first '#'
      when that text is not empty. */
  function FragmentEntries(url: string, decode: string -> Entries): Entries {
    if '#' in url && Part(url, '#', 1) != "" then decode(Part(url, '#', 1)) else []
  }

  /** The query entries of an exp:// URL: those of the text after the first '?', cut at the
      first '#'. */
  function QueryEntries(url: string, decode: string -> Entries): Entries {
    if '?' in url && Part(url, '?', 1) != "" then decode(Part(Part(url, '?', 1), '#', 0)) else []
  }

  predicate IsExpoUrl(url: string) { StartsWith(url, "exp://") }

  /** The parameters `parseDeepLinkUrl` returns. */
  function ParsedParams(url: string, decode: string -> Entries, linking: string -> LinkingParse): Params {
    if IsExpoUrl(url) then
      Assigned(Assigned(map[], FragmentEntries(url, decode)), QueryEntries(url, decode))
    else
      match linking(url)
      case ParseThrew => map[]
      case Parsed(q) => q.GetOr(map[]) + Assigned(map[], FragmentEntries(url, decode))
  }

  /** `parseDeepLinkUrl`. */
  method ParseDeepLinkUrl(url: string, decode: string -> Entries, linking: string -> LinkingParse)
    returns (params: Params)
    ensures params == ParsedParams(url, decode, linking)
  {
    if IsExpoUrl(url) {
      params := map[];
      if '#' in url {
        var fragmentPart := Part(url, '#', 1);
        if fragmentPart != "" {
          params := AssignEntries(params, decode(fragmentPart));
        }
      }
      if '?' in url {
        var queryPart := Part(url, '?', 1);
        if queryPart != "" {
          params := AssignEntries(params, decode(Part(queryPart, '#', 0)));
        }
      }
      return;
    }
    match linking(url)
    case ParseThrew =>
      params := map[];
    case Parsed(q) =>
      params := q.GetOr(map[]);
      if '#' in url {
        var fragmentPart := Part(url, '#', 1);
        if fragmentPart != "" {
          var fragmentObject := AssignEntries(map[], decode(fragmentPart));
          params := params + fragmentObject;
        }
      }
  }

  /** In an exp:// URL the query is read after the fragment, so a query parameter wins a
      clash; a fragment parameter counts only when the query lacks it. */
  lemma ExpoQueryWins(url: string, decode: string -> Entries, linking: string -> LinkingParse, k: string)
    requires IsExpoUrl(url)
    ensures var p := ParsedParams(url, decode, linking);
            var q := QueryEntries(url, decode);
            var f := FragmentEntries(url, decode);
            (k in p <==> k in EntryKeys(q) || k in EntryKeys(f))
            && (k in EntryKeys(q) ==> p[k] == LastValue(q, k))
            && (k !in EntryKeys(q) && k in EntryKeys(f) ==> p[k] == LastValue(f, k))
  {
    var f := FragmentEntries(url, decode);
    AssignedLookup(map[], f, k);
    AssignedLookup(Assigned(map[], f), QueryEntries(url, decode), k);
  }

  /** For other URLs the fragment's parameters override the query parameters expo-linking
      found. */
  lemma FragmentWins(url: string, decode: string -> Entries, linking: string -> LinkingParse, k: string)
    requires !IsExpoUrl(url) && linking(url).Parsed?
    ensures var p := ParsedParams(url, decode, linking);
            var q := linking(url).queryParams.GetOr(map[]);
            var f := FragmentEntries(url, decode);
            (k in p <==> k in q || k in EntryKeys(f))
            && (k in EntryKeys(f) ==> p[k] == LastValue(f, k))
            && (k !in EntryKeys(f) && k in q ==> p[k] == q[k])
  {
    AssignedLookup(map[], FragmentEntries(url, decode), k);
  }

  /** When expo-linking throws, the link has no parameters. */
  lemma ParseFailureEmpty(url: string, decode: string -> Entries, linking: string -> LinkingParse)
    requires !IsExpoUrl(url) && linking(url).ParseThrew?
    ensures ParsedParams(url, decode, linking) == map[]
  {
  }

  // ---------------------------------------------------------------------------------------
  // The modal a link opens

  /** The `DEEP_LINK_TYPES` values the modal choice compares `type` with. */
  datatype DeepLinkTypes = DeepLinkTypes(recovery: string, magicLink: string)

  predicate TypeIs(p: Params, t: string) { "type" in p && p["type"] == t }

  /** The modal rules in the order they are tried: a route and whether it applies. */
  function ModalRules(url: string, p: Params, types: DeepLinkTypes): seq<(string, bool)> {
    [("reset-password", TypeIs(p, types.recovery) || Contains(url, "reset-password")),
     ("magic-link", TypeIs(p, types.magicLink) || Contains(url, "magic-link")),
     ("login", Contains(url, "login")),
     ("signup", Contains(url, "signup")),
     ("otp", Contains(url, "otp"))]
  }

  /** The route of the first rule that applies. */
  function FirstMatch(rules: seq<(string, bool)>): Option<string> {
    if rules == [] then None
    else if rules[0].1 then Some(rules[0].0)
    else FirstMatch(rules[1..])
  }

  /** `FirstMatch` finds a route exactly when some rule applies, and its route is that of an
      applicable rule with none applicable before it. */
  lemma {:induction false} FirstMatchFirst(rules: seq<(string, bool)>)
    ensures FirstMatch(rules).Some? <==> exists i :: 0 <= i < |rules| && rules[i].1
    ensures FirstMatch(rules).Some? ==>
              exists i :: 0 <= i < |rules| && rules[i].1 && rules[i].0 == FirstMatch(rules).value
                          && forall j :: 0 <= j < i ==> !rules[j].1
  {
    if rules != [] && !rules[0].1 {
      var rest := rules[1..];
      FirstMatchFirst(rest);
      forall i | 0 < i < |rules| ensures rules[i] == rest[i - 1] {
      }
      if FirstMatch(rest).Some? {
        var i :| 0 <= i < |rest| && rest[i].1 && rest[i].0 == FirstMatch(rest).value
                 && forall j :: 0 <= j < i ==> !rest[j].1;
        assert rules[i + 1].1 && rules[i + 1].0 == FirstMatch(rules).value;
        assert forall j :: 0 <= j < i + 1 ==> !rules[j].1;
      }
    }
  }

  /** `getDeepLinkModalRoute`: nothing for an empty URL; otherwise reset-password,
      magic-link, login, signup or otp, the first whose sign the link carries; and nothing
      when none does, tokens or not. */
  function ModalRoute(url: string, decode: string -> Entries, linking: string -> LinkingParse, types: DeepLinkTypes)
    : (r: Option<string>)
    ensures url == "" ==> r.None?
  {
    if url == "" then None
    else
      var p := ParsedParams(url, decode, linking);
      if TypeIs(p, types.recovery) || Contains(url, "reset-password") then Some("reset-password")
      else if TypeIs(p, types.magicLink) || Contains(url, "magic-link") then Some("magic-link")
      else if Contains(url, "login") then Some("login")
      else if Contains(url, "signup") then Some("signup")
      else if Contains(url, "otp") then Some("otp")
      else None
  }

  /** The route is the first applicable rule in the order reset-password, magic-link,
      login, signup, otp. */
  lemma ModalRouteFirstMatch(url: string, decode: string -> Entries, linking: string -> LinkingParse, types: DeepLinkTypes)
    requires url != ""
    ensures ModalRoute(url, decode, linking, types)
            == FirstMatch(ModalRules(url, ParsedParams(url, decode, linking), types))
  {
    var rules := ModalRules(url, ParsedParams(url, decode, linking), types);
    var r1 := rules[1..];
    var r2 := r1[1..];
    var r3 := r2[1..];
    var r4 := r3[1..];
    assert FirstMatch(r4) == if r4[0].1 then Some(r4[0].0) else None;
    assert FirstMatch(r3) == if r3[0].1 then Some(r3[0].0) else FirstMatch(r4);
    assert FirstMatch(r2) == if r2[0].1 then Some(r2[0].0) else FirstMatch(r3);
    assert FirstMatch(r1) == if r1[0].1 then Some(r1[0].0) else FirstMatch(r2);
  }

  /** A modal is opened only for a link naming it, or for reset-password and magic-link a
      link of that type. */
  lemma ModalNeedsSign(url: string, decode: string -> Entries, linking: string -> LinkingParse, types: DeepLinkTypes)
    ensures var r := ModalRoute(url, decode, linking, types);
            var p := ParsedParams(url, decode, linking);
            r.Some? ==>
              Contains(url, r.value)
              || (r.value == "reset-password" && TypeIs(p, types.recovery))
              || (r.value == "magic-link" && TypeIs(p, types.magicLink))
  {
  }

  // ---------------------------------------------------------------------------------------
  // The login callback

  /** The user record the session exchange returns. */
  datatype SessionUser = SessionUser(
    id: string, fullName: Option<string>, email: Option<string>, avatarUrl: Option<string>,
    createdAt: string, lastSignInAt: Option<string>)

  datatype AuthUser = AuthUser(
    id: string, name: string, email: string, avatarUrl: Option<string>, createdAt: string,
    lastSignInAt: Option<string>)

  /** `AuthResponse<AuthUser>`. */
  datatype AuthResponse = AuthSuccess(user: AuthUser) | AuthFailure(error: string)

  /** The outcome of `exchangeCodeForSession`. */
  datatype ExchangeOutcome = ExchangeFailed(message: string) | ExchangeSession(user: SessionUser) | ExchangeNoSession

  /** The tokens handed to `handleAuthCallbackAPI`. */
  datatype TokenCallback = TokenCallback(
    accessToken: string, refreshToken: string, expiresAt: Option<string>, expiresIn: Option<string>,
    tokenType: Option<string>)

  function Get(p: Params, k: string): Option<string> {
    if k in p then Some(p[k]) else None
  }

  /** The user built from a fresh session: the name is the full name, else the email, else
      empty. */
  function ToAuthUser(u: SessionUser): (a: AuthUser)
    ensures a.id == u.id && a.email == u.email.GetOr("")
    ensures Truthy(u.fullName) ==> a.name == u.fullName.value
    ensures !Truthy(u.fullName) ==> a.name == u.email.GetOr("")
  {
    var email := if Truthy(u.email) then u.email.value else "";
    var name := if Truthy(u.fullName) then u.fullName.value else email;
    AuthUser(u.id, name, email, u.avatarUrl, u.createdAt, u.lastSignInAt)
  }

  /** `handleLoginCallback`: `exchange` stands for the session exchange of an authorization
      code and `direct` for `handleAuthCallbackAPI`. */
  function HandleLoginCallback(
    url: string, decode: string -> Entries, linking: string -> LinkingParse,
    exchange: string -> ExchangeOutcome, direct: TokenCallback -> AuthResponse): AuthResponse
  {
    var p := ParsedParams(url, decode, linking);
    if Truthy(Get(p, "error")) then
      AuthFailure(if Truthy(Get(p, "error_description")) then p["error_description"] else p["error"])
    else
      var viaCode :=
        if Truthy(Get(p, "code")) then
          match exchange(p["code"])
          case ExchangeFailed(m) => Some(AuthFailure(m))
          case ExchangeSession(u) => Some(AuthSuccess(ToAuthUser(u)))
          case ExchangeNoSession => None
        else None;
      if viaCode.Some? then viaCode.value
      else if Truthy(Get(p, "access_token")) && Truthy(Get(p, "refresh_token")) then
        direct(TokenCallback(p["access_token"], p["refresh_token"], Get(p, "expires_at"), Get(p, "expires_in"),
                             Get(p, "token_type")))
      else AuthFailure("Invalid authentication callback")
  }

  /** A callback carrying an error fails with its description, or else the error itself,
      whatever the session exchange and the token handler would do: neither is consulted. */
  lemma ErrorBeforeNetwork(
    url: string, decode: string -> Entries, linking: string -> LinkingParse,
    exchange1: string -> ExchangeOutcome, direct1: TokenCallback -> AuthResponse,
    exchange2: string -> ExchangeOutcome, direct2: TokenCallback -> AuthResponse)
    requires Truthy(Get(ParsedParams(url, decode, linking), "error"))
    ensures var p := ParsedParams(url, decode, linking);
            var r := HandleLoginCallback(url, decode, linking, exchange1, direct1);
            r == HandleLoginCallback(url, decode, linking, exchange2, direct2)
            && r == AuthFailure(if Truthy(Get(p, "error_description")) then p["error_description"] else p["error"])
  {
  }

  /** A callback with neither an error, a code nor both tokens is rejected. */
  lemma MissingParametersRejected(
    url: string, decode: string -> Entries, linking: string -> LinkingParse,
    exchange: string -> ExchangeOutcome, direct: TokenCallback -> AuthResponse)
    requires var p := ParsedParams(url, decode, linking);
             !Truthy(Get(p, "error")) && !Truthy(Get(p, "code"))
             && !(Truthy(Get(p, "access_token")) && Truthy(Get(p, "refresh_token")))
    ensures HandleLoginCallback(url, decode, linking, exchange, direct) == AuthFailure("Invalid authentication callback")
  {
  }

  /** A code that yields a session logs the user in without the token handler. */
  lemma CodeSessionSucceeds(
    url: string, decode: string -> Entries, linking: string -> LinkingParse,
    exchange: string -> ExchangeOutcome, direct: TokenCallback -> AuthResponse)
    requires var p := ParsedParams(url, decode, linking);
             !Truthy(Get(p, "error")) && Truthy(Get(p, "code")) && exchange(p["code"]).ExchangeSession?
    ensures var p := ParsedParams(url, decode, linking);
            HandleLoginCallback(url, decode, linking, exchange, direct)
            == AuthSuccess(ToAuthUser(exchange(p["code"]).user))
  {
  }

  // ---------------------------------------------------------------------------------------
  // Building a callback link

  /** The parameters given a value, in order, as `[name, value]` entries. */
  function DefinedEntries(params: seq<(string, Option<string>)>): (es: Entries)
    decreases |params|
  {
    if params == [] then []
    else
      var last := params[|params| - 1];
      DefinedEntries(params[..|params| - 1]) + (if last.1.Some? then [(last.0, last.1.value)] else [])
  }

  /** An entry is kept exactly when its parameter has a value. */
  lemma {:induction false} DefinedMembers(params: seq<(string, Option<string>)>, k: string, v: string)
    ensures (k, v) in DefinedEntries(params) <==> (k, Some(v)) in params
    decreases |params|
  {
    if params != [] {
      DefinedMembers(params[..|params| - 1], k, v);
      FrontLast(params);
    }
  }

  predicate DistinctKeys<V>(ps: seq<(string, V)>) {
    forall i, j :: 0 <= i < j < |ps| ==> ps[i].0 != ps[j].0
  }

  lemma {:induction false} DefinedDistinct(params: seq<(string, Option<string>)>)
    requires DistinctKeys(params)
    ensures DistinctKeys(DefinedEntries(params))
    ensures forall i :: 0 <= i < |DefinedEntries(params)| ==> exists j :: 0 <= j < |params| && params[j].0 == DefinedEntries(params)[i].0
    decreases |params|
  {
    if params != [] {
      var front := params[..|params| - 1];
      DefinedDistinct(front);
    }
  }

  /** With distinct names, the last value of a name is its only one. */
  lemma {:induction false} LastValueDistinct(es: Entries, k: string, v: string)
    requires DistinctKeys(es) && (k, v) in es
    ensures k in EntryKeys(es) && LastValue(es, k) == v
    decreases |es|
  {
    var i :| 0 <= i < |es| && es[i] == (k, v);
    assert es[i].0 == k;
    if es[|es| - 1].0 != k {
      var front := es[..|es| - 1];
      assert front[i] == (k, v);
      LastValueDistinct(front, k, v);
    }
  }

  const DefaultBaseUrl := "exp://192.168.1.27:8081"

  /** The link `createAuthDeepLink` returns for the serialised parameters `query`. */
  function AuthLink(baseUrl: string, query: string): string {
    if IsExpoUrl(baseUrl) then baseUrl + "/--/auth-callback#" + query else baseUrl + "#" + query
  }

  /** `createAuthDeepLink`: appends each parameter that has a value, in order, and puts the
      serialised result in the fragment. */
  method CreateAuthDeepLink(params: seq<(string, Option<string>)>, baseUrl: string, encode: Entries -> string)
    returns (url: string)
    ensures url == AuthLink(baseUrl, encode(DefinedEntries(params)))
  {
    var searchParams: Entries := [];
    var i := 0;
    while i < |params|
      invariant 0 <= i <= |params|
      invariant searchParams == DefinedEntries(params[..i])
    {
      assert params[..i + 1][..i] == params[..i];
      if params[i].1.Some? {
        searchParams := searchParams + [(params[i].0, params[i].1.value)];
      }
      i := i + 1;
    }
    assert params[..i] == params;
    if IsExpoUrl(baseUrl) {
      url := baseUrl + "/--/auth-callback#" + encode(searchParams);
    } else {
      url := baseUrl + "#" + encode(searchParams);
    }
  }

  /** The fragment of a link made of a '#'-free head, '#', and a '#'-free tail is the tail. */
  lemma FragmentOf(head: string, tail: string)
    requires '#' !in head && '#' !in tail
    ensures Part(head + "#" + tail, '#', 1) == tail && '#' in head + "#" + tail
  {
    SplitAtFirst(head, tail, '#');
    SplitNoSeparator(tail, '#');
    assert head + "#" + tail == head + ['#'] + tail;
    assert (head + "#" + tail)[|head|] == '#';
  }

  /** A link built for an exp:// base without '#' or '?' parses back to exactly the
      parameters that had a value, provided the serialiser escapes '#' and '?' and the
      decoder inverts it. */
  lemma ExpoLinkRoundTrip(params: seq<(string, Option<string>)>, baseUrl: string,
                          encode: Entries -> string, decode: string -> Entries, linking: string -> LinkingParse)
    requires IsExpoUrl(baseUrl) && '#' !in baseUrl && '?' !in baseUrl
    requires var d := DefinedEntries(params);
             decode(encode(d)) == d && '#' !in encode(d) && '?' !in encode(d) && (d != [] ==> encode(d) != "")
    ensures ParsedParams(AuthLink(baseUrl, encode(DefinedEntries(params))), decode, linking)
            == Assigned(map[], DefinedEntries(params))
  {
    var d := DefinedEntries(params);
    ExpoLinkShape(baseUrl, encode(d));
  }

  /** An exp:// link built from a base and a query free of '#' and '?' has the query as its
      fragment and no '?'. */
  lemma ExpoLinkShape(baseUrl: string, query: string)
    requires IsExpoUrl(baseUrl) && '#' !in baseUrl && '?' !in baseUrl && '#' !in query && '?' !in query
    ensures var url := AuthLink(baseUrl, query);
            IsExpoUrl(url) && '#' in url && Part(url, '#', 1) == query && '?' !in url
  {
    var head := baseUrl + "/--/auth-callback";
    var url := AuthLink(baseUrl, query);
    assert url == head + "#" + query;
    assert '#' !in head && '?' !in head by {
      assert forall c :: c in head ==> c in baseUrl || c in "/--/auth-callback";
    }
    FragmentOf(head, query);
    assert '?' !in url by {
      assert forall c :: c in url ==> c in head || c == '#' || c in query;
    }
    assert IsExpoUrl(url) by {
      assert url[..6] == baseUrl[..6];
    }
  }

  /** With distinct names, a parameter given a value reads back as that value. */
  lemma DefinedValueReadBack(params: seq<(string, Option<string>)>, k: string, v: string)
    requires DistinctKeys(params) && (k, Some(v)) in params
    ensures var m := Assigned(map[], DefinedEntries(params)); k in m && m[k] == v
  {
    DefinedMembers(params, k, v);
    DefinedDistinct(params);
    LastValueDistinct(DefinedEntries(params), k, v);
    AssignedLookup(map[], DefinedEntries(params), k);
  }
}
