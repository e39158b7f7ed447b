# Ah-Ha! Capture: extension session logic and backend tag derivation, in Dafny

This project models two sequential pieces of the Ah-Ha! Capture system and
proves properties of them.

1. **The Chrome extension's login and session logic** (`background.js`).
   `chrome.storage.local` is an immutable `map<string, Value>`. Every browser
   answer is a parameter:
   - the redirect of `launchWebAuthFlow`
   - the fragment parameters
   - the claims decoded from the identity token
   - the random draws
   - storage errors
   - the clock
   - the HTTP response
   - `navigator.onLine`

   The modelled operations are:
   - `checkAuthenticationStatus`
   - the `LOGOUT` message branch
   - `generateNonce` and `clearOauthNonce`
   - the segment handling of `parseJwt`
   - every branch of `initiateOAuthFlow`, each ending in exactly one report to the popup
   - the pre-flight checks, the request and the error classification of `saveSnippet`

2. **The backend's tag derivation** (`main.py`). `suggest_tags` is a
   keyword-frequency ranker. `STOP_WORDS` is a `set<string>`. The model also
   covers the comma-separated parser for the language model's tag answer, and
   how `create_ah_ha` fills in `generated_tags` and `timestamp`.

Modules: `Wrappers` (Option), `Text` (the string built-ins used: split/join,
`includes`, `indexOf`, `strip`, `lower`, whitespace `split`), `Storage`,
`Session`, `Nonce`, `Jwt`, `AuthFlow`, `Snippets`, `Config`, `TagSuggest`,
`Tagging`.

The model follows the code as written:
- There is no in-process token cache. Every check reads storage (`background.js:158`, `background.js:456`).
- `LOGOUT` removes only `authToken`, `ahHaUserLoggedIn` and `refreshToken`. It leaves `idToken` and `tokenExpiryTime` in place.
- The stored nonce is removed before it is read back (`background.js:222`, `background.js:255`). See Findings.
- The request body is only `{title, content, permalink_to_origin}`. There is no `notes` or `content_type`.
- The expiry check and a 401 also remove `refreshToken`.
- The `catch` of `saveSnippet` also sees the API errors thrown inside its own `try`. So a server message that mentions "Failed to fetch" is reported as a network error (`Snippets.ServerMessageCanLookLikeNetworkError`).

## Model

| member | source | states |
|---|---|---|
| `Session.CheckAuthenticationStatus` | ah-ha-chrome-extension/background.js:153-174 | authenticated iff `authToken` or `ahHaUserLoggedIn` is truthy; false whenever the storage read fails (fails closed) |
| `Session.AuthStatusReadsTwoKeys` | ah-ha-chrome-extension/background.js:158-166 | the answer depends only on the two keys read: stores that agree on them get the same answer |
| `Session.Logout` | ah-ha-chrome-extension/background.js:47-66 | on success exactly `authToken`, `ahHaUserLoggedIn`, `refreshToken` are absent and every other key is unchanged, with the success reply; on a removal error the store is unchanged and the failure reply carries the error |
| `Session.LogoutEndsSession` | ah-ha-chrome-extension/background.js:47-66 | after a successful logout the user is not authenticated, while `idToken` and `tokenExpiryTime` keep their values |
| `Nonce.GenerateNonce` | ah-ha-chrome-extension/background.js:416-425 | the nonce has the requested length and character `i` is the alphabet character at draw `i` |
| `Nonce.AlphabetIndexed` | ah-ha-chrome-extension/background.js:417-420 | the alphabet has 62 characters, upper case, lower case and digits, each at a distinct position |
| `Nonce.NonceOfInjective` | ah-ha-chrome-extension/background.js:416-425 | different draw sequences give different nonces |
| `Nonce.ClearOauthNonce` | ah-ha-chrome-extension/background.js:428-435 | a working removal leaves `oauthNonce` absent and every other key unchanged; a failing one is swallowed and changes nothing |
| `Jwt.PayloadSegment` | ah-ha-chrome-extension/background.js:398 | there is a second segment iff the token contains a dot, and that segment contains no dot |
| `Jwt.PayloadOfCompactToken` | ah-ha-chrome-extension/background.js:398 | for `header.payload.signature` the selected segment is exactly `payload` |
| `Jwt.PayloadOfSegments` | ah-ha-chrome-extension/background.js:398 | for any two or more dot-free segments joined with dots, the selected segment is the second one |
| `Jwt.Base64TranslationRoundTrip` | ah-ha-chrome-extension/background.js:399 | the `-`/`_` to `+`/`/` translation leaves no `-` or `_`; translating back restores any segment that had no `+` or `/`, and the reverse round trip restores any text that had no `-` or `_` |
| `Jwt.ParseJwt` | ah-ha-chrome-extension/background.js:396-413 | null for a token without a dot; for a token with a dot, exactly the decoding of its second segment after the `-`/`_` translation (the decoder's null included) |
| `Text.AfterFirst` | ah-ha-chrome-extension/background.js:247-249 | the fragment is everything after the first `#`, or the whole URL when there is none |
| `AuthFlow.ExtensionConfigured` | ah-ha-chrome-extension/background.js:8-11 | the client identifier and authorization endpoint the extension ships with pass the configuration check of lines 178-183, so "OAuth not configured." needs edited settings |
| `AuthFlow.VerifyNonce` | ah-ha-chrome-extension/background.js:254-343 | passes iff the stored nonce is truthy, `id_token` is present, it parses and its `nonce` claim equals the stored value; otherwise the first failing step decides the report: no stored nonce gives the setup error, no `id_token` gives ID token missing, an unparsable token or a falsy claim gives claim missing, a truthy claim that differs gives mismatch; never "Could not parse" |
| `AuthFlow.LoginFlowShape` | ah-ha-chrome-extension/background.js:177-392 | for either read-back position: one report per run; not configured and nonce-store failure leave the store unchanged; every failure after launch writes the logged-out record and touches no other key; success holds exactly the login conditions |
| `AuthFlow.LoginFlowReports` | ah-ha-chrome-extension/background.js:224-389 | for either read-back position, the report of each branch after launch: exception, cancelled (with `lastError` or "Cancelled"), the nonce check's own failure, or no access token with the `error` parameter or "Token missing" |
| `AuthFlow.InitiateOAuthFlow` | ah-ha-chrome-extension/background.js:177-392 | exactly one report, and which one: a throw gives the exception report with its message, a cancellation or empty redirect the cancelled report with `lastError` or "Cancelled", a failed nonce check that check's report, a passed check without an access token the no-access-token report with the `error` parameter or "Token missing"; never "Could not parse"; every failure after launch writes `ahHaUserLoggedIn=false` and null `authToken`, `idToken`, `tokenExpiryTime`, touches nothing else and leaves the user unauthenticated; success stores access token, id token, `now + expires_in*1000` (or null) and `true`; success happens iff the login conditions hold, and only if the nonce removal failed |
| `AuthFlow.ClearedNonceBlocksLogin` | ah-ha-chrome-extension/background.js:221-270 | when the nonce removal works, every redirect that returns a URL reports the nonce setup error and logs out, whatever the provider returned |
| `AuthFlow.ClearedNonceStatus` | ah-ha-chrome-extension/background.js:266-268 | on that path the popup receives exactly one report, whose status text is "OAuth flow failed: Nonce verification setup error." |
| `AuthFlow.InitiateOAuthFlowReadFirst` | ah-ha-chrome-extension/background.js:221-270 | the flow with the read-back before the removal: the same frame, single-report and per-branch report guarantees, success iff the claim matches and an access token is present, and no nonce left behind when the removal works |
| `AuthFlow.ReadFirstAcceptsMatchingNonce` | ah-ha-chrome-extension/background.js:272-358 | with the read-back first, a claim equal to the issued nonce plus an access token log in |
| `Snippets.Title` | ah-ha-chrome-extension/background.js:491-493 | at most 73 characters; the text itself when it has at most 70; otherwise its first 70 characters followed by "..." |
| `Snippets.ApiErrorMessage` | ah-ha-chrome-extension/background.js:534-551 | `API Error <status>: ` followed by the body's `message`, else its `detail`, else `HTTP error <status>: <statusText>` (also when the body is not JSON) |
| `Snippets.ClassifyThrown` | ah-ha-chrome-extension/background.js:557-576 | a message containing "Failed to fetch" becomes the offline message when offline and the unreachable message otherwise; any other message is rethrown unchanged |
| `Snippets.Send` | ah-ha-chrome-extension/background.js:508-576 | a 401 removes the five session keys and throws the 401 error; any other response leaves the store alone; only a 2xx JSON response resolves, with its body; a 2xx body that is not JSON throws the parse error through the same classification; other failures are classified as above |
| `Snippets.SaveSnippet` | ah-ha-chrome-extension/background.js:438-577 | checks in order: not authenticated, token missing even with the flag set, expired (truthy expiry and `now` strictly later); none of them sends a request and only expiry removes the five keys; otherwise exactly one request with the stored token and the three-field payload; the store only ever loses the five keys, which leaves the user unauthenticated |
| `Snippets.ClearedSessionIsLoggedOut` | ah-ha-chrome-extension/background.js:477-483 | removing the five session keys makes `checkAuthenticationStatus` false |
| `Snippets.AuthErrorsNotRewritten` | ah-ha-chrome-extension/background.js:529-575 | the 401 error passes through the `catch` unchanged |
| `Snippets.ServerMessageCanLookLikeNetworkError` | ah-ha-chrome-extension/background.js:534-573 | a non-ok response whose `message` contains "Failed to fetch" is reported as the offline or unreachable error |
| `Text.Split` | ah-ha-backend/main.py:142 | one more piece than separators, no piece contains the separator |
| `Text.JoinSplit` | ah-ha-backend/main.py:142 | joining the pieces with the separator gives back the text |
| `Text.SplitJoin` | ah-ha-chrome-extension/background.js:398 | splitting separator-free pieces joined by the separator gives back the pieces |
| `Text.StripSpec` | ah-ha-backend/main.py:144 | the stripped text is a contiguous part of the input with only whitespace before and after it, has no whitespace at either end, and is empty iff the input is all whitespace |
| `Text.Words` | ah-ha-backend/main.py:297 | every word is non-empty, has no whitespace and is made of characters of the text |
| `Text.WordsCoverText` | ah-ha-backend/main.py:297 | the words concatenated are exactly the non-whitespace characters of the text, in order |
| `Text.WordsAroundSpace` | ah-ha-backend/main.py:288-297 | no word spans a whitespace character: the words of `a`, a whitespace character, `b` are the words of `a` followed by those of `b` |
| `Text.WordsOfJoin` | ah-ha-backend/main.py:288-297 | non-empty, whitespace-free words joined by a whitespace character split back into the same words, so the word count is fixed |
| `TagSuggest.StripPunctuation` | ah-ha-backend/main.py:296 | only word and whitespace characters remain, all taken from the input; a text made only of such characters is unchanged |
| `TagSuggest.StripPunctuationCounts` | ah-ha-backend/main.py:296 | each word or whitespace character is kept as many times as it occurs, any other character is dropped |
| `TagSuggest.StripPunctuationAppend` | ah-ha-backend/main.py:296 | the filter works character by character: the result for `a + b` is the result for `a` followed by that for `b`, so order is kept |
| `TagSuggest.Keywords` | ah-ha-backend/main.py:299-303 | every kept word is a keyword of the input and every keyword of the input is kept |
| `TagSuggest.KeywordsCounts` | ah-ha-backend/main.py:299-303 | each keyword occurs in the result as many times as in the words (the counts `Counter` ranks by); every other word occurs zero times |
| `TagSuggest.KeywordsAppend` | ah-ha-backend/main.py:299-303 | the filter works word by word: the keywords of `a + b` are those of `a` followed by those of `b`, so first-occurrence order is kept |
| `TagSuggest.Distinct` | ah-ha-backend/main.py:310 | the same words as the input, each once, in order of first occurrence (the key order of `Counter`) |
| `TagSuggest.FirstIndexAppend` | ah-ha-backend/main.py:310 | appending a word keeps every earlier word's first occurrence where it was; a new word first occurs at the end |
| `TagSuggest.InsertRanked` | ah-ha-backend/main.py:313 | inserting a new keyword into a ranked list keeps it ranked |
| `TagSuggest.RankRanked` | ah-ha-backend/main.py:313 | sorting distinct keywords yields a list ranked by count descending, ties by first occurrence |
| `TagSuggest.MostCommon` | ah-ha-backend/main.py:310-313 | every distinct keyword exactly once, ranked by count descending with ties in first-occurrence order |
| `TagSuggest.TopKeywords` | ah-ha-backend/main.py:310-317 | at most 7 tags without duplicates, all keywords, ranked; all keywords when there are at most 7 distinct ones; a keyword left out has a count no larger than any returned tag's and ranks after every returned tag (fewer occurrences, or as many and first seen later) |
| `TagSuggest.SuggestTags` | ah-ha-backend/main.py:287-318 | empty for an empty text or fewer than 3 whitespace-separated words of the original text; otherwise the top keywords, so a keyword left out ranks after every returned tag; every tag is a word of the lowercased, punctuation-stripped text, has at least 3 characters and is not a stop word |
| `TagSuggest.TagsAreLowercaseWords` | ah-ha-backend/main.py:293-297 | every tag consists of lowercase word characters only |
| `Tagging.ParseTags` | ah-ha-backend/main.py:142-145 | at most (number of commas + 1) tags, each non-empty, without surrounding whitespace and lowercase |
| `Tagging.CleanPiecesOfPiece` | ah-ha-backend/main.py:143-145 | one piece yields its stripped, lowercased text, or nothing when it is blank |
| `Tagging.CleanPiecesAppend` | ah-ha-backend/main.py:143-145 | pieces are cleaned one at a time, so tags come out in the order of their pieces |
| `Tagging.ParseTagsAtComma` | ah-ha-backend/main.py:142-145 | text with a comma parses to the tag of the part before it (if not blank), followed by the tags of the rest |
| `Tagging.ParseTagsOfPiece` | ah-ha-backend/main.py:142-145 | comma-free text parses to its stripped, lowercased self, or to nothing when it is blank |
| `Tagging.ParseJoinedTags` | ah-ha-backend/main.py:142-145 | clean comma-free tags joined with commas parse back to themselves |
| `Tagging.GeneratedTags` | ah-ha-backend/main.py:176-192 | empty when the runner, the agent or the content is missing, when generation throws or yields no final text; otherwise exactly the parse of the stripped final text (empty when that parse is empty); every tag is clean |
| `Tagging.GeneratedTagsOfCleanAnswer` | ah-ha-backend/main.py:125-192 | when the model answers with clean, comma-free tags joined by commas, exactly those tags are stored |
| `Tagging.PrepareSnippet` | ah-ha-backend/main.py:50-51 | the timestamp is replaced only when absent; `generated_tags` is set; every other field is unchanged |

## Left out

- Chrome APIs are modelled as a map and parameters. Storage callbacks and promises run as straight-line steps. Logging out while a login is in flight is a concurrency question and is not modelled.
- Storage calls are assumed to succeed except where a failure is modelled: the read in `checkAuthenticationStatus`, the nonce write, the nonce removal and the logout removal. A rejected write at `background.js:284` or `background.js:302` lies inside the `try` of lines 273-324, so its `catch` would report "OAuth flow failed: Could not parse ID token.". A rejected write elsewhere after launch goes to the outer exception branch. A rejected write inside that `catch` sends no report at all. None of these paths is modelled, so the nonce read-back and the second read in `saveSnippet` never fail here.
- AuthFlow.VerifyNonce: "never Could not parse" holds only because storage writes succeed; `parseJwt` itself never throws.
- AuthFlow.InitiateOAuthFlow: "never Could not parse" and "exactly one report" rest on the same assumption that storage writes succeed.
- When the logout removal reports an error, the store is taken to be unchanged.
- The authorization URL built at `background.js:205-213` is not modelled, because URL encoding is platform behaviour. The nonce written to storage is the one generated.
- AuthFlow.InitiateOAuthFlow: the single-report guarantee assumes an authorization URL that `new URL` accepts. `new URL` at `background.js:205` runs outside the `try` that starts at line 215, so an edited endpoint that is not an absolute URL throws inside the storage callback: no report is sent and `oauthNonce` stays stored. `Configured` only rejects empty and placeholder settings; `AuthFlow.ExtensionConfigured` covers the shipped endpoint, which is an absolute URL.
- `atob`, `decodeURIComponent` and `JSON.parse` inside `parseJwt` are one decoding parameter. `URLSearchParams` over the fragment is another.
- `parseInt` edge cases are not modelled: `expires_in` is an `Option<int>`. Storage numbers are integers, with no NaN and no fractions.
- `Math.random` is a sequence of draws already scaled into `[0, 62)`.
- `Snippets.LaterThan`: a string-valued `tokenExpiryTime` is treated as never expired, because JavaScript's string-to-number conversion is not modelled.
- `Snippets.ApiErrorMessage`: `message` and `detail` are the strings they render to. A non-string JSON value is not modelled, for example FastAPI's list-valued `detail`.
- Only `message` and `detail` of a success response body are kept. `fetch` itself is the `FetchResult` parameter.
- `GET_AUTH_STATUS`, `CAPTURE_SNIPPET`, the context menu, notifications and `handleContextMenuClick` are UI glue and are not modelled.
- Python's Unicode `lower()`, `\w` and `\s` are approximated by their ASCII parts.
- Snippets.Title: lengths count Unicode scalar values, while JavaScript's `length` and `substring` count UTF-16 code units. For text outside the Basic Multilingual Plane the source cuts earlier: 70 emoji give the first 35 plus "...", where the model keeps the text whole. Strings here are sequences of characters with no UTF-16 encoding.
- The ADK event stream is one parameter: it throws, or it ends with the final text or none. That parameter also covers the HTML stripping that feeds the stream. Firestore, FastAPI routing and the other endpoints are I/O and are not modelled.
- Timestamps are abstract integers.

## Findings

| source | as written | input that shows it | evidently intended | confidence | as-written member | corrected member |
|---|---|---|---|---|---|---|
| ah-ha-chrome-extension/background.js:221-270 | `clearOauthNonce()` removes `oauthNonce` before `chrome.storage.local.get("oauthNonce")` reads it back, so the read finds nothing whenever the removal works | any configured run whose nonce write and removal succeed and whose redirect returns a URL with a valid `id_token` carrying the issued nonce and an `access_token`: it reports "Nonce verification setup error" and logs out | read the stored nonce first, then clear it, so that a matching claim logs in and no nonce is left behind | high (not executed) | `AuthFlow.ClearedNonceBlocksLogin` | `AuthFlow.InitiateOAuthFlowReadFirst` |
