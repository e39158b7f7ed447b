/**
 `chrome.storage.local` as an immutable map from key to JSON value, with the
 JavaScript truthiness test the extension applies to what it reads back, and
 the key names the extension uses.
 */
module Storage {
  import opened Wrappers

  /** The JSON values the extension stores. Numbers are integral (epoch milliseconds). */
  datatype Value = Null | Bool(b: bool) | Num(n: int) | Str(s: string)

  type Store = map<string, Value>

  const AuthTokenKey := "authToken"
  const LoggedInKey := "ahHaUserLoggedIn"
  const IdTokenKey := "idToken"
  const ExpiryKey := "tokenExpiryTime"
  const RefreshTokenKey := "refreshToken"
  const NonceKey := "oauthNonce"

  /** The outcome of a storage write or removal, as reported through `chrome.runtime.lastError`. */
  datatype WriteResult = WriteOk | WriteFailed(message: string)

  /** Reading one key: `None` is JavaScript `undefined`. */
  function Lookup(s: Store, k: string): (v: Option<Value>)
    ensures v.Some? <==> k in s
    ensures v.Some? ==> v.value == s[k]
  {
    if k in s then Some(s[k]) else None
  }

  /** JavaScript `!!v`: `undefined`, `null`, `false`, `0` and `""` are falsy. */
  predicate Truthy(v: Option<Value>) {
    match v
    case None => false
    case Some(Null) => false
    case Some(Bool(b)) => b
    case Some(Num(n)) => n != 0
    case Some(Str(t)) => t != ""
  }

  /** A string that may be `null` (a query parameter, a JSON member) used as a condition:
      `null` and `""` are falsy. */
  predicate Present(v: Option<string>) {
    v.Some? && v.value != ""
  }

  predicate TruthyAt(s: Store, k: string) {
    Truthy(Lookup(s, k))
  }

  /** `chrome.storage.local.set(items)`: the given keys take the given values. */
  function SetItems(s: Store, items: map<string, Value>): (t: Store)
    ensures t.Keys == s.Keys + items.Keys
    ensures forall k :: k in items ==> Lookup(t, k) == Some(items[k])
    ensures AgreeOutside(s, t, items.Keys)
  {
    s + items
  }

  /** `chrome.storage.local.remove(keys)`: the given keys become absent. */
  function RemoveKeys(s: Store, keys: set<string>): (t: Store)
    ensures t.Keys == s.Keys - keys
    ensures forall k :: k in keys ==> Lookup(t, k) == None
    ensures AgreeOutside(s, t, keys)
  {
    s - keys
  }

  /** `s` and `t` hold the same thing under every key outside `keys`. */
  ghost predicate AgreeOutside(s: Store, t: Store, keys: set<string>) {
    forall k :: k !in keys ==> Lookup(t, k) == Lookup(s, k)
  }
}
