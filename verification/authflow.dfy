/**
 `initiateOAuthFlow`: the OAuth 2.0 implicit-flow login of the extension,
 as one pass over the storage map. The asynchronous callbacks run as
 straight-line steps; the browser supplies its answers through `Oracles`.
 Every run ends with exactly one report to the popup.
 */
module AuthFlow {
  import opened Wrappers
  import opened Text
  import opened Storage
  import opened Session
  import opened Nonce
  import opened Jwt

  datatype OAuthConfig = OAuthConfig(clientId: string, authorizationUrl: string)

  /** The client identifier and authorization endpoint the extension ships with, each
      written as a short first piece and the rest. */
  const ExtensionConfig := OAuthConfig(
    "3607" + "0612387-nib9a64uruobemn3hicj5oio9k3t5sdb.apps.googleusercontent.com",
    "http" + "s://accounts.google.com/o/oauth2/v2/auth")

  /** Neither setting is empty or left at its placeholder. */
  predicate Configured(cfg: OAuthConfig) {
    && cfg.clientId != "" && cfg.clientId != "YOUR_OAUTH_CLIENT_ID"
    && cfg.authorizationUrl != "" && cfg.authorizationUrl != "YOUR_OAUTH_PROVIDER_AUTH_URL"
  }

  /** The shipped settings pass the check, so the not-configured report needs edited settings. */
  lemma ExtensionConfigured()
    ensures Configured(ExtensionConfig)
  {
  }

  /** What `chrome.identity.launchWebAuthFlow` does: resolve with a redirect URL,
      finish without one (or with `chrome.runtime.lastError` set), or throw. */
  datatype Redirect = Url(url: string) | Cancelled(lastError: Option<string>) | Threw(message: string)

  /** `URLSearchParams.get` on the fragment: `None` is `null`. `expiresIn` is the
      `parseInt` of a non-empty `expires_in`, `None` when it is absent or empty. */
  datatype FragmentParams = FragmentParams(
    accessToken: Option<string>, idToken: Option<string>, expiresIn: Option<int>, error: Option<string>)

  /** The single status report sent to the popup, one constructor per branch. */
  datatype Report =
    | NotConfigured
    | NonceStorageFailed(error: string)
    | FlowCancelled(error: string)
    | NonceSetupError
    | NonceMismatch
    | NonceClaimMissing
    | IdTokenUnparsable
    | IdTokenMissing
    | NoAccessToken(error: string)
    | LoginSuccessful
    | FlowException(error: string)
  {
    /** The `status` text of the message. */
    function Status(): string {
      match this
      case NotConfigured => "OAuth not configured."
      case NonceStorageFailed(_) => "OAuth setup failed (nonce storage)."
      case FlowCancelled(_) => "OAuth flow failed or cancelled."
      case NonceSetupError => "OAuth flow failed: Nonce verification setup error."
      case NonceMismatch => "OAuth flow failed: Nonce mismatch. Security check failed."
      case NonceClaimMissing => "OAuth flow failed: Nonce claim missing in ID token."
      case IdTokenUnparsable => "OAuth flow failed: Could not parse ID token."
      case IdTokenMissing => "OAuth flow failed: ID token missing from response."
      case NoAccessToken(_) => "OAuth flow failed: No access token received."
      case LoginSuccessful => "Login successful. Tokens stored."
      case FlowException(_) => "OAuth flow threw an exception."
    }

    /** The failures reported once the identity provider has been launched. */
    predicate FailedAfterLaunch() {
      !(NotConfigured? || NonceStorageFailed? || LoginSuccessful?)
    }
  }

  /** Everything the browser decides during one run. */
  datatype Oracles = Oracles(
    draws: seq<int>,                              // Math.random, scaled, per nonce character
    nonceWrite: WriteResult,                      // storing `oauthNonce`
    redirect: Redirect,                           // launchWebAuthFlow
    nonceRemovalFails: bool,                      // clearOauthNonce's removal (errors are swallowed)
    fragmentParams: string -> FragmentParams,     // URLSearchParams over the fragment
    decodeClaims: string -> Option<Claims>,       // atob + decodeURIComponent + JSON.parse
    now: int)                                     // Date.now()

  /** The store after the run and the reports sent to the popup, in order. */
  datatype Run = Run(store: Store, reports: seq<Report>)

  /** Whether the stored nonce is read back after `clearOauthNonce` (as the extension
      does) or before it. */
  datatype ReadBack = AfterClear | BeforeClear

  const SessionKeys: set<string> := {AuthTokenKey, IdTokenKey, ExpiryKey, LoggedInKey}

  /** The record every failure after launch writes. */
  const LoggedOutItems: map<string, Value> :=
    map[LoggedInKey := Bool(false), AuthTokenKey := Null, IdTokenKey := Null, ExpiryKey := Null]

  /** `Date.now() + parseInt(expiresIn, 10) * 1000`, or `null` without `expires_in`. */
  function ExpiryValue(expiresIn: Option<int>, now: int): Value {
    match expiresIn
    case Some(e) => Num(now + e * 1000)
    case None => Null
  }

  /** The record a successful login writes. */
  function SuccessItems(accessToken: string, idToken: string, expiresIn: Option<int>, now: int): map<string, Value> {
    map[AuthTokenKey := Str(accessToken), IdTokenKey := Str(idToken),
        ExpiryKey := ExpiryValue(expiresIn, now), LoggedInKey := Bool(true)]
  }

  /** A failure after launch: write the logged-out record, send one report. */
  function FailWith(s: Store, report: Report): Run {
    Run(SetItems(s, LoggedOutItems), [report])
  }

  /** The `nonce` claim of the returned `id_token`; `None` when there is no token, it does not
      parse, or it has no such claim. */
  function ClaimedNonce(p: FragmentParams, decode: string -> Option<Claims>): Option<Value> {
    if !Present(p.idToken) then None
    else match ParseJwt(p.idToken.value, decode)
      case None => None
      case Some(claims) => claims.nonce
  }

  /**
   The nonce check, in the extension's order: stored nonce, then `id_token`,
   then the decoded claim, then equality. `None` means the check passed.
   `parseJwt` never throws, so the `catch` of the check is never entered.
   */
  function VerifyNonce(storedNonce: Option<Value>, p: FragmentParams, decode: string -> Option<Claims>): (failure: Option<Report>)
    ensures failure.None? <==>
      && Truthy(storedNonce)
      && Present(p.idToken)
      && ParseJwt(p.idToken.value, decode).Some?
      && ParseJwt(p.idToken.value, decode).value.nonce == storedNonce
    ensures failure != Some(IdTokenUnparsable)
    ensures !Truthy(storedNonce) ==> failure == Some(NonceSetupError)
    ensures Truthy(storedNonce) && !Present(p.idToken) ==> failure == Some(IdTokenMissing)
    ensures Truthy(storedNonce) && Present(p.idToken) && !Truthy(ClaimedNonce(p, decode)) ==> failure == Some(NonceClaimMissing)
    ensures Truthy(storedNonce) && Truthy(ClaimedNonce(p, decode)) && ClaimedNonce(p, decode) != storedNonce ==> failure == Some(NonceMismatch)
    ensures failure.Some? ==> failure.value in {NonceSetupError, IdTokenMissing, NonceClaimMissing, NonceMismatch}
  {
    if !Truthy(storedNonce) then Some(NonceSetupError)
    else if !Present(p.idToken) then Some(IdTokenMissing)
    else
      var decoded := ParseJwt(p.idToken.value, decode);
      if decoded.None? || !Truthy(decoded.value.nonce) then Some(NonceClaimMissing)
      else if decoded.value.nonce != storedNonce then Some(NonceMismatch)
      else None
  }

  /** The `error` parameter, or "Token missing" when it is absent or empty. */
  function MissingTokenError(p: FragmentParams): string {
    if Present(p.error) then p.error.value else "Token missing"
  }

  /** After a passed nonce check: store the tokens, or fail without an access token. */
  function Complete(s: Store, p: FragmentParams, now: int): Run
    requires Present(p.idToken)
  {
    if Present(p.accessToken) then
      Run(SetItems(s, SuccessItems(p.accessToken.value, p.idToken.value, p.expiresIn, now)), [LoginSuccessful])
    else
      FailWith(s, NoAccessToken(MissingTokenError(p)))
  }

  /** Everything after the nonce has been stored as `oauthNonce` in `s1`. */
  function AfterLaunch(readBack: ReadBack, s1: Store, o: Oracles): Run {
    var s2 := ClearOauthNonce(s1, o.nonceRemovalFails);
    match o.redirect
    case Threw(m) => FailWith(s2, FlowException(m))
    case Cancelled(e) => FailWith(s2, FlowCancelled(e.GetOr("Cancelled")))
    case Url(u) =>
      if u == "" then FailWith(s2, FlowCancelled("Cancelled"))
      else
        var p := o.fragmentParams(AfterFirst(u, '#'));
        var stored := if readBack == AfterClear then Lookup(s2, NonceKey) else Lookup(s1, NonceKey);
        match VerifyNonce(stored, p, o.decodeClaims)
        case Some(failure) => FailWith(s2, failure)
        case None => Complete(s2, p, o.now)
  }

  /** The whole flow, parameterised by where the stored nonce is read back. */
  function LoginFlow(readBack: ReadBack, cfg: OAuthConfig, s: Store, o: Oracles): Run
    requires ValidDraws(o.draws, NonceLength)
  {
    if !Configured(cfg) then Run(s, [NotConfigured])
    else
      match o.nonceWrite
      case WriteFailed(m) => Run(s, [NonceStorageFailed(m)])
      case WriteOk => AfterLaunch(readBack, SetItems(s, map[NonceKey := Str(NonceOf(o.draws))]), o)
  }

  // ---------------------------------------------------------------------------
  // What the store looks like after a run.
  // ---------------------------------------------------------------------------

  /** The nonce key after the run: gone, unless the removal failed. */
  predicate NonceLeftAs(t: Store, o: Oracles)
    requires ValidDraws(o.draws, NonceLength)
  {
    Lookup(t, NonceKey) == (if o.nonceRemovalFails then Some(Str(NonceOf(o.draws))) else None)
  }

  /** `t` is `s` with the logged-out record written and the nonce handled, nothing else. */
  ghost predicate LoggedOutAfter(s: Store, t: Store, o: Oracles)
    requires ValidDraws(o.draws, NonceLength)
  {
    && Lookup(t, LoggedInKey) == Some(Bool(false))
    && Lookup(t, AuthTokenKey) == Some(Null)
    && Lookup(t, IdTokenKey) == Some(Null)
    && Lookup(t, ExpiryKey) == Some(Null)
    && NonceLeftAs(t, o)
    && AgreeOutside(s, t, SessionKeys + {NonceKey})
  }

  /** `t` is `s` with the tokens of `p` stored and the nonce handled, nothing else. */
  ghost predicate LoggedInAfter(s: Store, t: Store, o: Oracles, p: FragmentParams)
    requires ValidDraws(o.draws, NonceLength)
  {
    && Present(p.accessToken) && Present(p.idToken)
    && Lookup(t, AuthTokenKey) == Some(Str(p.accessToken.value))
    && Lookup(t, IdTokenKey) == Some(Str(p.idToken.value))
    && Lookup(t, ExpiryKey) == Some(ExpiryValue(p.expiresIn, o.now))
    && Lookup(t, LoggedInKey) == Some(Bool(true))
    && NonceLeftAs(t, o)
    && AgreeOutside(s, t, SessionKeys + {NonceKey})
  }

  /** The fragment parameters of a launched run that returned a URL. */
  function ParamsOf(o: Oracles): FragmentParams
    requires o.redirect.Url?
  {
    o.fragmentParams(AfterFirst(o.redirect.url, '#'))
  }

  /** The conditions under which a run logs in, for either read-back position. */
  ghost predicate LoginConditions(readBack: ReadBack, cfg: OAuthConfig, o: Oracles)
    requires ValidDraws(o.draws, NonceLength)
  {
    && Configured(cfg)
    && o.nonceWrite.WriteOk?
    && o.redirect.Url? && o.redirect.url != ""
    && (readBack == AfterClear ==> o.nonceRemovalFails)
    && Present(ParamsOf(o).idToken)
    && ParseJwt(ParamsOf(o).idToken.value, o.decodeClaims).Some?
    && ParseJwt(ParamsOf(o).idToken.value, o.decodeClaims).value.nonce == Some(Str(NonceOf(o.draws)))
    && Present(ParamsOf(o).accessToken)
  }

  /** The store right after `clearOauthNonce`, compared with the store before the run. */
  lemma ClearedStore(s: Store, o: Oracles)
    requires ValidDraws(o.draws, NonceLength)
    ensures var s2 := ClearOauthNonce(SetItems(s, map[NonceKey := Str(NonceOf(o.draws))]), o.nonceRemovalFails);
      NonceLeftAs(s2, o) && AgreeOutside(s, s2, {NonceKey})
  {
  }

  lemma FailWithLogsOut(s: Store, s2: Store, o: Oracles, report: Report)
    requires ValidDraws(o.draws, NonceLength)
    requires NonceLeftAs(s2, o) && AgreeOutside(s, s2, {NonceKey})
    ensures LoggedOutAfter(s, FailWith(s2, report).store, o)
  {
  }

  lemma CompleteLogsIn(s: Store, s2: Store, o: Oracles, p: FragmentParams)
    requires ValidDraws(o.draws, NonceLength)
    requires NonceLeftAs(s2, o) && AgreeOutside(s, s2, {NonceKey})
    requires Present(p.idToken) && Present(p.accessToken)
    ensures LoggedInAfter(s, Complete(s2, p, o.now).store, o, p)
  {
  }

  /** The stored nonce as the check reads it: absent when it is read after a removal that
      worked, the issued nonce otherwise. */
  function NonceSeen(readBack: ReadBack, o: Oracles): Option<Value>
    requires ValidDraws(o.draws, NonceLength)
  {
    if readBack == AfterClear && !o.nonceRemovalFails then None else Some(Str(NonceOf(o.draws)))
  }

  /** The nonce the check sees, computed from the stores before and after the removal. */
  lemma StoredNonceSeen(readBack: ReadBack, s: Store, o: Oracles)
    requires ValidDraws(o.draws, NonceLength)
    ensures var s1 := SetItems(s, map[NonceKey := Str(NonceOf(o.draws))]);
      var s2 := ClearOauthNonce(s1, o.nonceRemovalFails);
      (if readBack == AfterClear then Lookup(s2, NonceKey) else Lookup(s1, NonceKey)) == NonceSeen(readBack, o)
    ensures Truthy(Some(Str(NonceOf(o.draws))))
  {
    assert |NonceOf(o.draws)| == 32;
  }

  /** Facts shared by both read-back positions. */
  lemma LoginFlowShape(readBack: ReadBack, cfg: OAuthConfig, s: Store, o: Oracles)
    requires ValidDraws(o.draws, NonceLength)
    ensures var r := LoginFlow(readBack, cfg, s, o);
      && |r.reports| == 1
      && r.reports[0] != IdTokenUnparsable
      && (!Configured(cfg) ==> r == Run(s, [NotConfigured]))
      && (Configured(cfg) && o.nonceWrite.WriteFailed? ==> r == Run(s, [NonceStorageFailed(o.nonceWrite.message)]))
      && (r.reports[0].FailedAfterLaunch() ==> LoggedOutAfter(s, r.store, o))
      && (r.reports[0] == LoginSuccessful ==> o.redirect.Url? && LoggedInAfter(s, r.store, o, ParamsOf(o)))
      && (r.reports[0] == LoginSuccessful <==> LoginConditions(readBack, cfg, o))
  {
    if Configured(cfg) && o.nonceWrite.WriteOk? {
      var s1 := SetItems(s, map[NonceKey := Str(NonceOf(o.draws))]);
      var s2 := ClearOauthNonce(s1, o.nonceRemovalFails);
      ClearedStore(s, o);
      StoredNonceSeen(readBack, s, o);
      var r := AfterLaunch(readBack, s1, o);
      assert r == LoginFlow(readBack, cfg, s, o);
      match o.redirect
      case Threw(m) =>
        FailWithLogsOut(s, s2, o, FlowException(m));
      case Cancelled(e) =>
        FailWithLogsOut(s, s2, o, FlowCancelled(e.GetOr("Cancelled")));
      case Url(u) =>
        if u == "" {
          FailWithLogsOut(s, s2, o, FlowCancelled("Cancelled"));
        } else {
          var p := ParamsOf(o);
          var stored := if readBack == AfterClear then Lookup(s2, NonceKey) else Lookup(s1, NonceKey);
          var v := VerifyNonce(stored, p, o.decodeClaims);
          if v.Some? {
            FailWithLogsOut(s, s2, o, v.value);
          } else if Present(p.accessToken) {
            CompleteLogsIn(s, s2, o, p);
          } else {
            FailWithLogsOut(s, s2, o, NoAccessToken(MissingTokenError(p)));
          }
        }
    }
  }

  /** The two records decide `checkAuthenticationStatus`. */
  lemma RecordsDecideSession(s: Store, t: Store, o: Oracles, p: FragmentParams)
    requires ValidDraws(o.draws, NonceLength)
    ensures LoggedOutAfter(s, t, o) ==> !CheckAuthenticationStatus(t, false)
    ensures LoggedInAfter(s, t, o, p) ==> CheckAuthenticationStatus(t, false)
  {
  }

  /** A login with the read-back after the clear leaves the nonce in storage. */
  lemma ReadAfterClearLeavesNonce(cfg: OAuthConfig, s: Store, t: Store, o: Oracles)
    requires ValidDraws(o.draws, NonceLength)
    ensures LoginConditions(AfterClear, cfg, o) && LoggedInAfter(s, t, o, ParamsOf(o)) ==>
      o.nonceRemovalFails && TruthyAt(t, NonceKey)
  {
    StoredNonceSeen(AfterClear, s, o);
  }

  /** With the read-back after a working removal, the check fails at its first step. */
  lemma ClearedNonceFailsCheck(s: Store, o: Oracles, p: FragmentParams)
    requires ValidDraws(o.draws, NonceLength)
    requires !o.nonceRemovalFails
    ensures var s1 := SetItems(s, map[NonceKey := Str(NonceOf(o.draws))]);
      VerifyNonce(Lookup(ClearOauthNonce(s1, false), NonceKey), p, o.decodeClaims) == Some(NonceSetupError)
  {
    StoredNonceSeen(AfterClear, s, o);
  }

  /** The provider was launched: the flow is configured and the nonce was stored. */
  predicate Launched(cfg: OAuthConfig, o: Oracles) {
    Configured(cfg) && o.nonceWrite.WriteOk?
  }

  /** A launched run that came back with a non-empty redirect URL. */
  predicate Returned(cfg: OAuthConfig, o: Oracles) {
    Launched(cfg, o) && o.redirect.Url? && o.redirect.url != ""
  }

  /** Which report each branch after launch sends, for either read-back position. */
  lemma LoginFlowReports(readBack: ReadBack, cfg: OAuthConfig, s: Store, o: Oracles)
    requires ValidDraws(o.draws, NonceLength)
    ensures Launched(cfg, o) && o.redirect.Threw? ==>
      LoginFlow(readBack, cfg, s, o).reports == [FlowException(o.redirect.message)]
    ensures Launched(cfg, o) && o.redirect.Cancelled? ==>
      LoginFlow(readBack, cfg, s, o).reports == [FlowCancelled(o.redirect.lastError.GetOr("Cancelled"))]
    ensures Launched(cfg, o) && o.redirect == Url("") ==>
      LoginFlow(readBack, cfg, s, o).reports == [FlowCancelled("Cancelled")]
    ensures Returned(cfg, o) && VerifyNonce(NonceSeen(readBack, o), ParamsOf(o), o.decodeClaims).Some? ==>
      LoginFlow(readBack, cfg, s, o).reports == [VerifyNonce(NonceSeen(readBack, o), ParamsOf(o), o.decodeClaims).value]
    ensures Returned(cfg, o) && VerifyNonce(NonceSeen(readBack, o), ParamsOf(o), o.decodeClaims).None? && !Present(ParamsOf(o).accessToken) ==>
      LoginFlow(readBack, cfg, s, o).reports == [NoAccessToken(MissingTokenError(ParamsOf(o)))]
  {
  }

  // ---------------------------------------------------------------------------
  // The flow as written, and the flow with the read-back moved before the clear.
  // ---------------------------------------------------------------------------

  /**
   `initiateOAuthFlow` as written: `clearOauthNonce` runs right after the
   redirect, and the stored nonce is read back afterwards.
   */
  function InitiateOAuthFlow(cfg: OAuthConfig, s: Store, o: Oracles): (r: Run)
    requires ValidDraws(o.draws, NonceLength)
    ensures |r.reports| == 1
    ensures r.reports[0] != IdTokenUnparsable
    ensures !Configured(cfg) ==> r == Run(s, [NotConfigured])
    ensures Configured(cfg) && o.nonceWrite.WriteFailed? ==> r == Run(s, [NonceStorageFailed(o.nonceWrite.message)])
    ensures r.reports[0].FailedAfterLaunch() ==> LoggedOutAfter(s, r.store, o) && !CheckAuthenticationStatus(r.store, false)
    ensures r.reports[0] == LoginSuccessful ==> o.redirect.Url? && LoggedInAfter(s, r.store, o, ParamsOf(o)) && CheckAuthenticationStatus(r.store, false)
    ensures r.reports[0] == LoginSuccessful <==> LoginConditions(AfterClear, cfg, o)
    ensures r.reports[0] == LoginSuccessful ==> o.nonceRemovalFails && TruthyAt(r.store, NonceKey)
    ensures Launched(cfg, o) && o.redirect.Threw? ==> r.reports == [FlowException(o.redirect.message)]
    ensures Launched(cfg, o) && o.redirect.Cancelled? ==> r.reports == [FlowCancelled(o.redirect.lastError.GetOr("Cancelled"))]
    ensures Launched(cfg, o) && o.redirect == Url("") ==> r.reports == [FlowCancelled("Cancelled")]
    ensures Returned(cfg, o) && VerifyNonce(NonceSeen(AfterClear, o), ParamsOf(o), o.decodeClaims).Some? ==>
      r.reports == [VerifyNonce(NonceSeen(AfterClear, o), ParamsOf(o), o.decodeClaims).value]
    ensures Returned(cfg, o) && VerifyNonce(NonceSeen(AfterClear, o), ParamsOf(o), o.decodeClaims).None? && !Present(ParamsOf(o).accessToken) ==>
      r.reports == [NoAccessToken(MissingTokenError(ParamsOf(o)))]
  {
    LoginFlowShape(AfterClear, cfg, s, o);
    LoginFlowReports(AfterClear, cfg, s, o);
    var r := LoginFlow(AfterClear, cfg, s, o);
    RecordsDecideSession(s, r.store, o, if o.redirect.Url? then ParamsOf(o) else o.fragmentParams(""));
    ReadAfterClearLeavesNonce(cfg, s, r.store, o);
    r
  }

  /**
   When `clearOauthNonce` does remove the nonce, the read-back finds nothing:
   every redirect that returns a URL ends in the setup error with the
   logged-out record written, whatever the identity provider sent.
   */
  lemma ClearedNonceBlocksLogin(cfg: OAuthConfig, s: Store, o: Oracles)
    requires ValidDraws(o.draws, NonceLength)
    requires Configured(cfg) && o.nonceWrite.WriteOk? && !o.nonceRemovalFails
    requires o.redirect.Url? && o.redirect.url != ""
    ensures InitiateOAuthFlow(cfg, s, o).reports == [NonceSetupError]
    ensures LoggedOutAfter(s, InitiateOAuthFlow(cfg, s, o).store, o)
  {
    var s1 := SetItems(s, map[NonceKey := Str(NonceOf(o.draws))]);
    var s2 := ClearOauthNonce(s1, false);
    ClearedNonceFailsCheck(s, o, ParamsOf(o));
    assert LoginFlow(AfterClear, cfg, s, o) == AfterLaunch(AfterClear, s1, o) == FailWith(s2, NonceSetupError);
    ClearedStore(s, o);
    FailWithLogsOut(s, s2, o, NonceSetupError);
  }

  /** The popup's status line on that path names the setup error. */
  lemma ClearedNonceStatus(cfg: OAuthConfig, s: Store, o: Oracles)
    requires ValidDraws(o.draws, NonceLength)
    requires Configured(cfg) && o.nonceWrite.WriteOk? && !o.nonceRemovalFails
    requires o.redirect.Url? && o.redirect.url != ""
    ensures |InitiateOAuthFlow(cfg, s, o).reports| == 1
    ensures InitiateOAuthFlow(cfg, s, o).reports[0].Status() == "OAuth flow failed: Nonce verification setup error."
  {
    ClearedNonceBlocksLogin(cfg, s, o);
  }

  /**
   The flow with the stored nonce read back before `clearOauthNonce` runs. A
   matching claim now logs in whether or not the removal works, and a
   working removal leaves no nonce behind on any path after launch.
   */
  function InitiateOAuthFlowReadFirst(cfg: OAuthConfig, s: Store, o: Oracles): (r: Run)
    requires ValidDraws(o.draws, NonceLength)
    ensures |r.reports| == 1
    ensures r.reports[0] != IdTokenUnparsable
    ensures !Configured(cfg) ==> r == Run(s, [NotConfigured])
    ensures Configured(cfg) && o.nonceWrite.WriteFailed? ==> r == Run(s, [NonceStorageFailed(o.nonceWrite.message)])
    ensures r.reports[0].FailedAfterLaunch() ==> LoggedOutAfter(s, r.store, o) && !CheckAuthenticationStatus(r.store, false)
    ensures r.reports[0] == LoginSuccessful ==> o.redirect.Url? && LoggedInAfter(s, r.store, o, ParamsOf(o)) && CheckAuthenticationStatus(r.store, false)
    ensures r.reports[0] == LoginSuccessful <==> LoginConditions(BeforeClear, cfg, o)
    ensures (r.reports[0].FailedAfterLaunch() || r.reports[0] == LoginSuccessful) && !o.nonceRemovalFails ==> NonceKey !in r.store
    ensures Launched(cfg, o) && o.redirect.Threw? ==> r.reports == [FlowException(o.redirect.message)]
    ensures Launched(cfg, o) && o.redirect.Cancelled? ==> r.reports == [FlowCancelled(o.redirect.lastError.GetOr("Cancelled"))]
    ensures Launched(cfg, o) && o.redirect == Url("") ==> r.reports == [FlowCancelled("Cancelled")]
    ensures Returned(cfg, o) && VerifyNonce(NonceSeen(BeforeClear, o), ParamsOf(o), o.decodeClaims).Some? ==>
      r.reports == [VerifyNonce(NonceSeen(BeforeClear, o), ParamsOf(o), o.decodeClaims).value]
    ensures Returned(cfg, o) && VerifyNonce(NonceSeen(BeforeClear, o), ParamsOf(o), o.decodeClaims).None? && !Present(ParamsOf(o).accessToken) ==>
      r.reports == [NoAccessToken(MissingTokenError(ParamsOf(o)))]
  {
    LoginFlowShape(BeforeClear, cfg, s, o);
    LoginFlowReports(BeforeClear, cfg, s, o);
    var r := LoginFlow(BeforeClear, cfg, s, o);
    RecordsDecideSession(s, r.store, o, if o.redirect.Url? then ParamsOf(o) else o.fragmentParams(""));
    r
  }

  /** With the read-back first, a claim equal to the issued nonce and an access token log in. */
  lemma ReadFirstAcceptsMatchingNonce(cfg: OAuthConfig, s: Store, o: Oracles)
    requires ValidDraws(o.draws, NonceLength)
    requires Configured(cfg) && o.nonceWrite.WriteOk? && o.redirect.Url? && o.redirect.url != ""
    requires Present(ParamsOf(o).idToken) && Present(ParamsOf(o).accessToken)
    requires ParseJwt(ParamsOf(o).idToken.value, o.decodeClaims) == Some(Claims(Some(Str(NonceOf(o.draws)))))
    ensures InitiateOAuthFlowReadFirst(cfg, s, o).reports == [LoginSuccessful]
    ensures !o.nonceRemovalFails ==> NonceKey !in InitiateOAuthFlowReadFirst(cfg, s, o).store
  {
  }
}
