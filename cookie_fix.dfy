/** The before-request hook that detects a duplicate session cookie left
    over from the cookie path change and asks the client to drop the one
    scoped to `/`. The check is a plain substring search, so any occurrence
    of `session=` counts, `mysession=` included. */
module CookieFix {
  import opened Wrappers
  import opened PyStrings

  const SessionNeedle: string := "session="

  datatype Cookie = Cookie(name: string, value: string, expires: int, path: string)

  /** A redirect to `location` that also sets `cookie`. */
  datatype Response = Redirect(location: string, cookie: Cookie)

  /** The response that deletes the `/`-scoped session cookie and reloads. */
  function ClearRootSession(currentUrl: string): Response {
    Redirect(currentUrl, Cookie("session", "", 0, "/"))
  }

  /** The header holds `session=` at two different positions. */
  predicate HasTwoSessionCookies(header: string) {
    exists i, j | 0 <= i < j <= |header| :: OccursAt(header, SessionNeedle, i) && OccursAt(header, SessionNeedle, j)
  }

  /** `fixSessionToken`: `applicationRoot` is the configured
      `APPLICATION_ROOT` (default `/`), `cookieHeader` the request's
      `Cookie` header and `currentUrl` the URL being served. */
  function FixSessionToken(applicationRoot: Option<string>, cookieHeader: Option<string>,
                           currentUrl: string): (r: Option<Response>)
    ensures r.Some? ==> r.value == ClearRootSession(currentUrl)
    ensures r.Some? ==> applicationRoot.GetOr("/") != "/" && cookieHeader.Some?
  {
    if applicationRoot.GetOr("/") == "/" then None
    else if cookieHeader.None? || cookieHeader.value == "" then None
    else
      var header := cookieHeader.value;
      var first := Find(header, SessionNeedle);
      if first < 0 then None
      else
        var second := Find(header[first + 1..], SessionNeedle);
        if second < 0 then None
        else Some(ClearRootSession(currentUrl))
  }

  /** Two occurrences found by the two `find` calls are two occurrences. */
  lemma RedirectMeansDuplicate(header: string)
    requires Find(header, SessionNeedle) >= 0
    requires Find(header[Find(header, SessionNeedle) + 1..], SessionNeedle) >= 0
    ensures HasTwoSessionCookies(header)
  {
    var first := Find(header, SessionNeedle);
    var second := Find(header[first + 1..], SessionNeedle);
    OccursAtShift(header, SessionNeedle, first + 1, second);
    var j := first + 1 + second;
    assert 0 <= first < j <= |header| && OccursAt(header, SessionNeedle, first) && OccursAt(header, SessionNeedle, j);
  }

  /** A second occurrence lies after the first one `find` reports, so the
      second `find` sees it. */
  lemma DuplicateMeansRedirect(header: string)
    requires HasTwoSessionCookies(header)
    ensures Find(header, SessionNeedle) >= 0
    ensures Find(header[Find(header, SessionNeedle) + 1..], SessionNeedle) >= 0
  {
    var i, j :| 0 <= i < j <= |header| && OccursAt(header, SessionNeedle, i) && OccursAt(header, SessionNeedle, j);
    var first := Find(header, SessionNeedle);
    assert first <= i < j;
    OccursAtShift(header, SessionNeedle, first + 1, j - first - 1);
    assert OccursAt(header[first + 1..], SessionNeedle, j - first - 1);
  }

  /** The hook redirects exactly when the application is not mounted at `/`
      and the Cookie header contains `session=` at least twice; with no
      header, or zero or one occurrence, it lets the request through. */
  lemma RedirectsIffDuplicateSession(applicationRoot: Option<string>, cookieHeader: Option<string>,
                                     currentUrl: string)
    ensures FixSessionToken(applicationRoot, cookieHeader, currentUrl).Some?
        <==> applicationRoot.GetOr("/") != "/" && cookieHeader.Some? && HasTwoSessionCookies(cookieHeader.value)
  {
    if applicationRoot.GetOr("/") != "/" && cookieHeader.Some? {
      var header := cookieHeader.value;
      if HasTwoSessionCookies(header) {
        DuplicateMeansRedirect(header);
      } else if Find(header, SessionNeedle) >= 0 && Find(header[Find(header, SessionNeedle) + 1..], SessionNeedle) >= 0 {
        RedirectMeansDuplicate(header);
      }
    }
  }

  /** `mysession=` is counted as a session cookie too. */
  lemma OtherCookieNameCounts()
    ensures FixSessionToken(Some("/senses"), Some("mysession=a; session=b"), "u")
         == Some(ClearRootSession("u"))
  {
    var header := "mysession=a; session=b";
    assert OccursAt(header, SessionNeedle, 2);
    assert OccursAt(header, SessionNeedle, 13);
    RedirectsIffDuplicateSession(Some("/senses"), Some(header), "u");
  }

  /** A single session cookie is left alone. */
  lemma SingleCookiePasses()
    ensures FixSessionToken(Some("/senses"), Some("session=a"), "u") == None
  {
    var header := "session=a";
    assert OccursAt(header, SessionNeedle, 0);
    forall i | i != 0 ensures !OccursAt(header, SessionNeedle, i) {
      if i == 1 { assert header[1..9][0] != SessionNeedle[0]; }
    }
    RedirectsIffDuplicateSession(Some("/senses"), Some(header), "u");
  }
}
