/** The CSRF guard: issuing the session's token for a form
    (`csrf_token`) and the check `submit_sense_from_request` makes before
    it acts on a POST. */
module Csrf {
  import opened Wrappers
  import opened PyStrings
  import opened SessionStore

  /** `string.ascii_letters + string.digits` */
  const TokenAlphabet: string := "abcdefghijklmnopqrstuvwxyzABCDEFGHIJKLMNOPQRSTUVWXYZ0123456789"
  const TokenLength: nat := 64

  /** A token the generator can produce: 64 characters drawn from
      `TokenAlphabet`. */
  predicate IsGeneratedToken(t: string) {
    |t| == TokenLength && forall i :: 0 <= i < |t| ==> t[i] in TokenAlphabet
  }

  datatype Issued = Issued(session: SessionMap, token: Value)

  /** `csrf_token()`: `generated` stands for the 64 random characters
      `csrf_token` draws; they are used only when the session has no token yet. */
  function Issue(s: SessionMap, generated: string): (r: Issued)
    requires IsGeneratedToken(generated)
    ensures CsrfKey in r.session && r.session[CsrfKey] == r.token
    ensures CsrfKey in s ==> r.session == s
    ensures CsrfKey !in s ==> r.token == Text(generated) && IsGeneratedToken(r.token.s)
    ensures SameExcept(s, r.session, CsrfKey)
  {
    if CsrfKey in s then Issued(s, s[CsrfKey])
    else Issued(s[CsrfKey := Text(generated)], Text(generated))
  }

  /** Asking for the token again gives the same token and the same session,
      whatever the generator would draw the second time. */
  lemma IssueIdempotent(s: SessionMap, g1: string, g2: string)
    requires IsGeneratedToken(g1) && IsGeneratedToken(g2)
    ensures Issue(Issue(s, g1).session, g2) == Issue(s, g1)
  {
  }

  /** Python truthiness of `session.pop('csrf_token', None)`: None, an
      empty string and an empty dict are false. */
  predicate Truthy(v: Option<Value>) {
    match v
    case None => false
    case Some(Text(t)) => t != ""
    case Some(Fields(m)) => m != map[]
  }

  datatype Check = Pass | Reject | NoReferrer

  /** The condition of `submit_sense_from_request`, evaluated with Python's
      short-circuiting `or`: `stored` is the popped token, `submitted` the
      form's `csrf_token`, `referrer` the Referer header and `indexUrl` the
      application's index URL. The referrer is only read once the token
      matched, and a missing one then raises AttributeError. */
  function CheckToken(stored: Option<Value>, submitted: Option<string>, referrer: Option<string>,
                      indexUrl: string): (r: Check)
    ensures r == Pass <==>
      stored.Some? && stored.value.Text? && stored.value.s != "" && submitted == Some(stored.value.s)
      && referrer.Some? && indexUrl <= referrer.value
    ensures r == NoReferrer <==>
      stored.Some? && stored.value.Text? && stored.value.s != "" && submitted == Some(stored.value.s)
      && referrer.None?
  {
    if !Truthy(stored) then Reject
    else if !(stored.value.Text? && submitted == Some(stored.value.s)) then Reject
    else if referrer.None? then NoReferrer
    else if !StartsWith(referrer.value, indexUrl) then Reject
    else Pass
  }
}
