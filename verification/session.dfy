/**
 The extension's login check (`checkAuthenticationStatus`) and the
 `LOGOUT` message branch of the background script.
 */
module Session {
  import opened Wrappers
  import opened Storage

  /**
   `checkAuthenticationStatus`: reads `authToken` and `ahHaUserLoggedIn` from
   storage on every call (there is no in-process cache) and reports
   authenticated when either is truthy. A failing read reports false.
   */
  function CheckAuthenticationStatus(s: Store, readFails: bool): (authenticated: bool)
    ensures readFails ==> !authenticated
    ensures !readFails ==> (authenticated <==> TruthyAt(s, AuthTokenKey) || TruthyAt(s, LoggedInKey))
  {
    !readFails && (TruthyAt(s, AuthTokenKey) || TruthyAt(s, LoggedInKey))
  }

  /** The answer depends on the two keys it reads and on nothing else in the store. */
  lemma AuthStatusReadsTwoKeys(s: Store, t: Store, readFails: bool)
    requires Lookup(s, AuthTokenKey) == Lookup(t, AuthTokenKey)
    requires Lookup(s, LoggedInKey) == Lookup(t, LoggedInKey)
    ensures CheckAuthenticationStatus(s, readFails) == CheckAuthenticationStatus(t, readFails)
  {
  }

  /** The keys `LOGOUT` removes. */
  const LogoutKeys: set<string> := {AuthTokenKey, LoggedInKey, RefreshTokenKey}

  datatype LogoutReply = LogoutReply(status: string, error: Option<string>)

  /**
   The `LOGOUT` branch: one removal of `authToken`, `ahHaUserLoggedIn` and
   `refreshToken`, then one reply. When the removal reports an error the
   store is taken to be unchanged.
   */
  function Logout(s: Store, removal: WriteResult): (r: (Store, LogoutReply))
    ensures removal.WriteOk? ==>
      && (forall k :: k in LogoutKeys ==> k !in r.0)
      && AgreeOutside(s, r.0, LogoutKeys)
      && r.1 == LogoutReply("Logout successful. Tokens cleared.", None)
    ensures removal.WriteFailed? ==>
      r.0 == s && r.1 == LogoutReply("Logout failed to clear tokens.", Some(removal.message))
  {
    match removal
    case WriteOk => (RemoveKeys(s, LogoutKeys), LogoutReply("Logout successful. Tokens cleared.", None))
    case WriteFailed(m) => (s, LogoutReply("Logout failed to clear tokens.", Some(m)))
  }

  /**
   A successful logout ends the session as `checkAuthenticationStatus` sees
   it, yet leaves `idToken` and `tokenExpiryTime` where they were.
   */
  lemma LogoutEndsSession(s: Store, readFails: bool)
    ensures !CheckAuthenticationStatus(Logout(s, WriteOk).0, readFails)
    ensures Lookup(Logout(s, WriteOk).0, IdTokenKey) == Lookup(s, IdTokenKey)
    ensures Lookup(Logout(s, WriteOk).0, ExpiryKey) == Lookup(s, ExpiryKey)
  {
  }
}
