/**
 `saveSnippet`: the ordered pre-flight checks against storage, the request
 that is sent, and the classification of the response or network failure
 into the value returned or the error thrown.
 */
module Snippets {
  import opened Wrappers
  import opened Text
  import opened Storage
  import opened Session

  const ApiBaseUrl := "http://localhost:8010/api/v1"

  /** The keys removed when the token has expired or the API answers 401. */
  const SessionClearKeys: set<string> := {AuthTokenKey, IdTokenKey, ExpiryKey, LoggedInKey, RefreshTokenKey}

  const NotAuthenticatedError := "User not authenticated. Please login via the extension popup."
  const TokenMissingError := "Authentication token missing. Please login again."
  const TokenExpiredError := "Authentication token has expired. Please login again via the extension popup."
  /** "Authentication failed with API (401). Please login again.", held in pieces
      short enough to inspect character by character. */
  const Unauthorized401Error := "Authentication" + " failed with" + " API (401)." + " Please login again."
  const OfflineError := "Network error: You appear to be offline. Please check your connection."
  const UnreachableError := "Network error. Unable to connect to Ah-Ha! server. Is the backend running at " + ApiBaseUrl + "?"
  const FetchFailure := "Failed to fetch"

  const TitleLength := 70

  /** What the caller hands over: the selected text and the page it came from. */
  datatype SnippetData = SnippetData(textContent: string, sourceUrl: string)

  /** The JSON body of the POST: only these three fields are sent. */
  datatype Payload = Payload(title: string, content: string, permalinkToOrigin: string)

  /** `POST {ApiBaseUrl}/snippets` with `Authorization: Bearer <bearer>`. */
  datatype Request = Request(bearer: Value, payload: Payload)

  /** `response.json()`: the parsed `message` and `detail` members (`None` when absent or
      falsy), or the error `json()` threw. */
  datatype Body = Parsed(message: Option<string>, detail: Option<string>) | Unparsable(error: string)

  /** What `fetch` yields: a response, or a thrown error with its message. */
  datatype FetchResult = Response(status: int, statusText: string, body: Body) | NetworkFailure(message: string)

  /** The store afterwards, the request sent (if any), and the resolved value or the thrown message. */
  datatype SaveOutcome = SaveOutcome(store: Store, request: Option<Request>, result: Result)
  datatype Result = Saved(body: Body) | Thrown(message: string)

  /** `snippetData.textContent.substring(0, 70) + (length > 70 ? "..." : "")`. */
  function Title(text: string): (title: string)
    ensures |title| <= TitleLength + 3
    ensures |text| <= TitleLength ==> title == text
    ensures |text| > TitleLength ==> |title| == TitleLength + 3 && title[TitleLength..] == "..."
    ensures title[..if |text| <= TitleLength then |text| else TitleLength] == text[..if |text| <= TitleLength then |text| else TitleLength]
  {
    if |text| > TitleLength then text[..TitleLength] + "..." else text
  }

  /** JavaScript `now > expiry` on a stored value: `true` and `false` compare as 1 and 0;
      strings are not converted (such a comparison is taken to be false). */
  predicate LaterThan(now: int, expiry: Value) {
    match expiry
    case Num(n) => now > n
    case Bool(b) => now > (if b then 1 else 0)
    case Null => now > 0
    case Str(_) => false
  }

  /** `tokenExpiryTime && Date.now() > tokenExpiryTime`. */
  predicate Expired(s: Store, now: int) {
    TruthyAt(s, ExpiryKey) && LaterThan(now, s[ExpiryKey])
  }

  predicate IsOk(status: int) {
    200 <= status <= 299
  }

  /** `API Error ${status}: ${detail}`. */
  function ApiError(status: int, detail: string): string {
    "API Error " + StatusText(status) + ": " + detail
  }

  /** `HTTP error ${status}: ${statusText}`, the message used when the body says nothing. */
  function HttpFallback(status: int, statusText: string): string {
    "HTTP error " + StatusText(status) + ": " + statusText
  }

  /** The message a non-ok, non-401 response is reported with: the body's `message`, else its
      `detail`, else the status line. */
  function ApiErrorMessage(status: int, statusText: string, body: Body): (msg: string)
    ensures body.Parsed? && Present(body.message) ==> msg == ApiError(status, body.message.value)
    ensures body.Parsed? && !Present(body.message) && Present(body.detail) ==> msg == ApiError(status, body.detail.value)
    ensures body.Unparsable? || (!Present(body.message) && !Present(body.detail)) ==>
      msg == ApiError(status, HttpFallback(status, statusText))
  {
    var detail :=
      match body
      case Unparsable(_) => HttpFallback(status, statusText)
      case Parsed(m, d) => if Present(m) then m.value else if Present(d) then d.value else HttpFallback(status, statusText);
    ApiError(status, detail)
  }

  /** `${response.status}`; HTTP status codes are non-negative. */
  function StatusText(status: int): string {
    if status < 0 then "-" + NatToString(-status) else NatToString(status)
  }

  /**
   The `catch` around the request: a message containing "Failed to fetch" is
   replaced by the offline or unreachable message, depending on
   `navigator.onLine`; every other message is rethrown unchanged.
   */
  function ClassifyThrown(message: string, online: bool): (out: string)
    ensures Contains(message, FetchFailure) && !online ==> out == OfflineError
    ensures Contains(message, FetchFailure) && online ==> out == UnreachableError
    ensures !Contains(message, FetchFailure) ==> out == message
  {
    if Contains(message, FetchFailure) then (if !online then OfflineError else UnreachableError)
    else message
  }

  /** The response handling inside the `try`, before the `catch` sees any error. */
  function HandleResponse(s: Store, fetched: FetchResult): (Store, Result) {
    match fetched
    case NetworkFailure(m) => (s, Thrown(m))
    case Response(status, statusText, body) =>
      if status == 401 then (RemoveKeys(s, SessionClearKeys), Thrown(Unauthorized401Error))
      else if !IsOk(status) then (s, Thrown(ApiErrorMessage(status, statusText, body)))
      else match body
        case Parsed(_, _) => (s, Saved(body))
        case Unparsable(e) => (s, Thrown(e))
  }

  /** The `try`/`catch` around the request: the store afterwards and what the call resolves or throws. */
  function Send(s: Store, fetched: FetchResult, online: bool): (r: (Store, Result))
    ensures fetched.Response? && fetched.status == 401 ==>
      r == (RemoveKeys(s, SessionClearKeys), Thrown(Unauthorized401Error))
    ensures !(fetched.Response? && fetched.status == 401) ==> r.0 == s
    ensures r.1.Saved? <==> fetched.Response? && IsOk(fetched.status) && fetched.body.Parsed?
    ensures r.1.Saved? ==> r.1.body == fetched.body
    ensures fetched.Response? && fetched.status != 401 && !IsOk(fetched.status) ==>
      r.1 == Thrown(ClassifyThrown(ApiErrorMessage(fetched.status, fetched.statusText, fetched.body), online))
    ensures fetched.NetworkFailure? ==> r.1 == Thrown(ClassifyThrown(fetched.message, online))
    ensures fetched.Response? && IsOk(fetched.status) && fetched.body.Unparsable? ==>
      r.1 == Thrown(ClassifyThrown(fetched.body.error, online))
  {
    AuthErrorsNotRewritten(online);
    var (t, result) := HandleResponse(s, fetched);
    match result
    case Saved(_) => (t, result)
    case Thrown(m) => (t, Thrown(ClassifyThrown(m, online)))
  }

  /** Removing the five session keys ends the session as `checkAuthenticationStatus` sees it. */
  lemma ClearedSessionIsLoggedOut(s: Store)
    ensures !CheckAuthenticationStatus(RemoveKeys(s, SessionClearKeys), false)
  {
  }

  /**
   `saveSnippet(snippetData)`. `authReadFails` is the storage read inside
   `checkAuthenticationStatus`; `fetched` is what the network would answer
   and is consulted only when the request is sent.
   */
  function SaveSnippet(s: Store, authReadFails: bool, now: int, data: SnippetData, fetched: FetchResult, online: bool): (r: SaveOutcome)
    // 1. not authenticated: nothing sent, nothing changed
    ensures !CheckAuthenticationStatus(s, authReadFails) ==>
      r == SaveOutcome(s, None, Thrown(NotAuthenticatedError))
    // 2. authenticated through the flag alone: nothing sent, nothing changed
    ensures CheckAuthenticationStatus(s, authReadFails) && !TruthyAt(s, AuthTokenKey) ==>
      r == SaveOutcome(s, None, Thrown(TokenMissingError))
    // 3. expired: nothing sent, the five session keys removed
    ensures CheckAuthenticationStatus(s, authReadFails) && TruthyAt(s, AuthTokenKey) && Expired(s, now) ==>
      r == SaveOutcome(RemoveKeys(s, SessionClearKeys), None, Thrown(TokenExpiredError))
    // otherwise exactly one request, carrying the stored token and the three payload fields
    ensures r.request.Some? <==> CheckAuthenticationStatus(s, authReadFails) && TruthyAt(s, AuthTokenKey) && !Expired(s, now)
    ensures r.request.Some? ==>
      && r.request.value == Request(s[AuthTokenKey], Payload(Title(data.textContent), data.textContent, data.sourceUrl))
      && (r.store, r.result) == Send(s, fetched, online)
    // the store changes only by losing the five session keys, which logs the user out
    ensures r.store == s || r.store == RemoveKeys(s, SessionClearKeys)
    ensures r.store != s ==> !CheckAuthenticationStatus(r.store, false)
  {
    ClearedSessionIsLoggedOut(s);
    if !CheckAuthenticationStatus(s, authReadFails) then
      SaveOutcome(s, None, Thrown(NotAuthenticatedError))
    else if !TruthyAt(s, AuthTokenKey) then
      SaveOutcome(s, None, Thrown(TokenMissingError))
    else if Expired(s, now) then
      SaveOutcome(RemoveKeys(s, SessionClearKeys), None, Thrown(TokenExpiredError))
    else
      var request := Request(s[AuthTokenKey], Payload(Title(data.textContent), data.textContent, data.sourceUrl));
      var (t, result) := Send(s, fetched, online);
      SaveOutcome(t, Some(request), result)
  }

  lemma NoCapitalF(s: string)
    requires s == "Authentication" || s == " failed with" || s == " API (401)." || s == " Please login again."
    ensures 'F' !in s
  {
  }

  /** The 401 message does not mention "Failed to fetch", so the `catch` rethrows it unchanged. */
  lemma AuthErrorsNotRewritten(online: bool)
    ensures ClassifyThrown(Unauthorized401Error, online) == Unauthorized401Error
  {
    NoCapitalF("Authentication");
    NoCapitalF(" failed with");
    NoCapitalF(" API (401).");
    NoCapitalF(" Please login again.");
    NotContainsWithoutFirstChar(Unauthorized401Error, FetchFailure);
  }

  /**
   The `catch` also sees the API errors thrown inside the `try`: a server
   message that mentions "Failed to fetch" turns a non-ok response into a
   network error.
   */
  lemma ServerMessageCanLookLikeNetworkError(status: int, statusText: string, message: string, online: bool)
    requires status != 401 && !IsOk(status)
    requires message != "" && Contains(message, FetchFailure)
    ensures var r := Send(map[], Response(status, statusText, Parsed(Some(message), None)), online);
      r.1 == Thrown(if online then UnreachableError else OfflineError)
  {
    ContainsInContext("API Error " + StatusText(status) + ": ", message, "", FetchFailure);
    assert ApiError(status, message) == "API Error " + StatusText(status) + ": " + message + "";
  }
}
