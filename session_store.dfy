/** The Flask session: a string-keyed dictionary whose values are either
    strings (the CSRF token) or small string dictionaries (the OAuth
    tokens, stored as `dict(zip(token._fields, token))`). */
module SessionStore {

  datatype Value = Text(s: string) | Fields(m: map<string, string>)

  type SessionMap = map<string, Value>

  const CsrfKey: string := "csrf_token"
  const RequestTokenKey: string := "oauth_request_token"
  const AccessTokenKey: string := "oauth_access_token"

  /** Every key other than `key` is bound, or unbound, the same way in both
      sessions. */
  predicate SameExcept(s: SessionMap, t: SessionMap, key: string) {
    (forall k :: k in s && k != key ==> k in t && t[k] == s[k])
    && (forall k :: k in t && k != key ==> k in s)
  }
}
