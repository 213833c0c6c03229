# Wikidata Senses: a Dafny model of the request core

Wikidata Senses is a small Flask tool that shows a volunteer a Wikidata
lexeme without any sense and posts the definition they type back to
Wikidata. Most of `app.py` is glue around SPARQL, MediaWiki OAuth and the
MediaWiki write API. This project models the sequential core inside that
glue and proves what it promises:

- the visitor's session, a string-keyed map, as the field of a class
  (`App.RequestContext`) whose handlers issue and consume the CSRF token
  and store the OAuth request and access tokens; each handler's effect is
  a specification function (`Csrf.Issue`, `Submission.SubmitSense`,
  `OAuthFlow.Login`, `OAuthFlow.Callback`) about which the lemmas are
  stated, including that over any sequence of page views and submissions
  a CSRF token is accepted at most once when each request carries the
  session the previous response set (a client resending an older session
  cookie is not bound by this, see `Submission.StaleCookieReplayPostsAgain`);
- the pure helpers: the escaping of a user name for a SPARQL string
  literal, checked against the literal's own reading of backslash escapes
  (section 19.7 of the SPARQL 1.1 Query Language recommendation, and its
  STRING_LITERAL2 production); the duplicate-session-cookie check, a plain
  substring search for `session=`; the edit payload and summary; the
  lexeme id taken from the text after the last `/`;
- `get_all_languages`, a loop that folds the query bindings into an
  insertion-ordered dictionary keyed by language label.

Randomness, network results and request data are inputs: the 64 random
token characters, the candidate index `random.choice` would draw, the
tokens `mwoauth.initiate` / `mwoauth.complete` return, the Referer header,
the index URL and the query bindings. Python exceptions are modelled as
`Errors.PyError` values (KeyError, TypeError, AttributeError, NameError).

Modules: `Wrappers` and `Errors` (wrappers.dfy), `PyStrings`
(py_strings.dfy), `SparqlEscape`, `CookieFix`, `SessionStore`, `Csrf`,
`OAuthFlow`, `SensePayload`, `Submission`, `Languages`, `LexemePages` and
`App` (request_context.dfy).

Behaviour of the code worth knowing, all of it modelled as written:

- after a successful callback the request token is NOT removed from the
  session; it stays next to the access token;
- a failed CSRF check still consumes the token (it is popped before any
  check), so the session does change on failure;
- besides the token comparison, the code also requires the Referer header
  to start with the index URL, and a request with a matching token and no
  Referer header raises AttributeError (after the token was consumed);
- an empty candidate list is not guarded: `random.choice` raises, so the
  pick is modelled with a precondition that the list is non-empty;
- with OAuth not configured, a validated submission raises NameError
  (`senses` is unbound) instead of returning a payload;
- a validated submission from a session without `oauth_access_token`
  raises KeyError in `generate_auth` and posts nothing.

## Model

| member | source | states |
|---|---|---|
| `PyStrings.StartsWith` | app.py:300 | `startswith` holds exactly when the prefix is a sequence prefix of the string |
| `PyStrings.Find` | app.py:65-68 | `find` returns -1 exactly when the needle occurs nowhere, otherwise an index where it occurs with no occurrence before it |
| `PyStrings.ReplaceChar` | app.py:291 | `s.replace(from, to)` for a one-character `from`, applied character by character: a string without `from` is returned unchanged, no `from` survives unless `to` holds one, and a one-character `to` keeps the length |
| `PyStrings.ReplaceCharChars` | app.py:291 | every character after `replace(from, to)` is a character of the input other than `from`, or a character of `to` |
| `PyStrings.ReplaceCharConcat` | app.py:291 | `replace` on a single character distributes over concatenation |
| `PyStrings.Split` | app.py:336 | `split(sep)` never gives an empty list |
| `PyStrings.SplitPiecesHaveNoSep` | app.py:336 | no piece of `split(sep)` holds `sep` |
| `PyStrings.JoinSplit` | app.py:336 | joining the pieces of `split(sep)` with `sep` gives the input back |
| `PyStrings.SplitLastField` | app.py:336 | the last piece of `split(sep)` is a suffix of the input: all of it when there is one piece, otherwise directly preceded by `sep` |
| `PyStrings.LastSegment` | app.py:336 | `split("/")[-1]` holds no `/` and is a suffix of the input that is either all of it or directly preceded by `/` |
| `PyStrings.LastSegmentUnique` | app.py:354 | those two facts determine `split("/")[-1]` uniquely |
| `PyStrings.LastSegmentAfterSlash` | app.py:336 | the last segment of `prefix + "/" + id` is `id` when `id` holds no `/` |
| `SparqlEscape.EscapeUserName` | app.py:291 | the escaped user name contains no space |
| `SparqlEscape.EscapeUserNameCons` | app.py:291 | the three chained replacements act one character at a time: space to `_`, `\` to `\\`, `"` to `\"` |
| `SparqlEscape.EscapeRoundTrip` | app.py:291 | reading the escaped name back with the backslash escapes of a SPARQL double-quoted literal (ECHAR; the `\u`/`\U` codepoint pass is not applied) succeeds, so no bare `"` closes the literal early, and yields exactly the name with spaces turned into `_` |
| `SparqlEscape.EscapedNameStaysInsideLiteral` | app.py:291 | for every name, whatever it holds, the escaped text read inside a double-quoted literal (a backslash taking the next character along) reaches its end without a `"` closing the literal |
| `CookieFix.FixSessionToken` | app.py:60-74 | any response is the redirect to the current URL that expires the `session` cookie on path `/`, and it is only produced when the application root is not `/` and a Cookie header is present |
| `CookieFix.RedirectsIffDuplicateSession` | app.py:60-74 | the hook redirects if and only if the application root is not `/` and the Cookie header contains `session=` at two different positions; otherwise it returns nothing |
| `CookieFix.OtherCookieNameCounts` | app.py:65-68 | `mysession=a; session=b` triggers the redirect: the search is a plain substring search |
| `CookieFix.SingleCookiePasses` | app.py:65-70 | a header with one `session=` is let through |
| `Csrf.Issue` | app.py:78-82 | the token is stored under `csrf_token` and returned; an existing token leaves the session unchanged; otherwise the fresh 64-character token over letters and digits is stored; no other key changes |
| `Csrf.IssueIdempotent` | app.py:78-82 | asking for the token twice gives the same token and session whatever the second random draw |
| `Csrf.CheckToken` | app.py:297-303 | the check passes exactly when the stored token is a non-empty string equal to the form's `csrf_token` and the referrer starts with the index URL; a missing referrer is read (and raises) only once the token matched |
| `OAuthFlow.TokenToDict` | app.py:366-367 | `dict(zip(token._fields, token))` has exactly the keys `key` and `secret` |
| `OAuthFlow.DictToToken` | app.py:373-374 | `Token(**d)` succeeds exactly when `d` has the keys `key` and `secret` |
| `OAuthFlow.TokenDictRoundTrip` | app.py:366-374 | a token stored as a dict reads back as the same token |
| `OAuthFlow.ReadToken` | app.py:373-374 | reading a token slot raises KeyError when the slot is missing, succeeds exactly when it holds a {key, secret} dict, and then gives the token that dict encodes |
| `OAuthFlow.Login` | app.py:366-367 | `login` leaves the returned request token readable in `oauth_request_token` and changes no other key |
| `OAuthFlow.Callback` | app.py:373-381 | `oauth_callback` fails exactly when the request token cannot be read (KeyError / TypeError, before `complete` is reached) or `complete` raises (that error); on success it handed the stored request token to `complete`, stores the access token `complete` returned and changes no other key (the request token stays) |
| `OAuthFlow.LoginThenCallback` | app.py:361-382 | given that `complete` returns, a callback after a login succeeds with the login's request token, ends Authenticated and keeps the request token |
| `OAuthFlow.FailedExchangeStaysPending` | app.py:361-381 | when `complete` raises after a login, the callback raises that error and stores no access token, so the visitor stays Pending |
| `OAuthFlow.CallbackWithoutLoginFails` | app.py:373-374 | a callback with no stored request token raises KeyError, whatever `complete` would have returned |
| `SensePayload.BuildSenses` | app.py:189-193 | the payload holds exactly one sense with `add: ""` whose glosses map only `lang` to `{language: lang, value: submitted}`; a form without `sense` raises KeyError |
| `SensePayload.EditSummary` | app.py:237-238 | the summary starts with `Added sense: ` and ends with `.` |
| `SensePayload.SubmittedTextUnaltered` | app.py:189-193 | the submitted text is the payload's gloss value and the summary's middle part, unaltered |
| `Submission.SubmitSense` | app.py:296-313 | the token is removed from the session whatever the outcome; the outcome is a CSRF rejection exactly when the check rejects; a matching token without Referer raises AttributeError; an edit is handed to the write API if and only if the check passes, OAuth is configured, the form has `lang`, `sense` and `word_id` and an access token is stored, and it is the edit the form describes |
| `Submission.SecondSubmissionRejected` | app.py:297 | a second submission on the session the first one left is rejected, whatever the forms |
| `Submission.TokensAcceptedAtMostOnce` | app.py:297-303 | over any sequence of form views, submissions, logins and callbacks, when each request carries the session the previous response set, edits posted plus the token still held never exceed tokens minted plus the token held at the start |
| `Submission.StaleCookieReplayPostsAgain` | app.py:297-311 | a submission that posts, sent twice, posts once when the second request carries the session the first response set, and twice when both carry the session of before (the `pop` only changes the cookie sent back) |
| `Submission.ReplayPostsAtMostOnce` | app.py:297-303 | submitting the same form twice in a row, when each request carries the session the previous response set, posts at most one edit |
| `Languages.Insert` | app.py:172 | `langs[label] = info` keeps the keys distinct and in insertion order: a new key is appended, an existing key keeps its place and takes the new value |
| `Languages.DistinctLabels` | app.py:169-172 | the labels each once, exactly those of the bindings, ordered by first appearance |
| `Languages.GetAllLanguages` | app.py:150-173 | the keys are the distinct language labels in order of first appearance and each label maps to the total and code of the last binding with that label |
| `LexemePages.AddPage` | app.py:334-340 | the page shows the picked binding's lemma and part of speech, the route's language, and the text after the last `/` of its URI as id; a binding without `posLabel` raises KeyError |
| `LexemePages.UserPage` | app.py:352-358 | the page shows the picked binding's lemmas, language code and category, and the text after the last `/` of its URI as id |
| `LexemePages.UserPageIdIsLexemeId` | app.py:354 | the page's id is the lexeme id at the end of the entity URI |
| `App.RequestContext.CsrfToken` | app.py:78-82 | the session becomes `Csrf.Issue` of the old session and the returned string is the stored token |
| `App.RequestContext.SubmitSenseFromRequest` | app.py:296-313 | session and outcome are those of `Submission.SubmitSense`; `g.csrf_error` and `g.repeat_form` are set exactly on a CSRF rejection |
| `App.RequestContext.LogIn` | app.py:361-368 | the session becomes `OAuthFlow.Login` of the old session |
| `App.RequestContext.OAuthCallback` | app.py:371-382 | the session and result follow `OAuthFlow.Callback`; on an error, an unreadable request token or a raising `complete`, the session is untouched |
| `App.SubmitTwice` | app.py:296-311 | a logged-in visitor, whether or not the session already holds a token from an earlier page view, who views the form and submits it twice, each request with a fresh `flask.g` and carrying the session the previous response set, posts the edit the form describes once, and the second submission is rejected |

## Left out

- SPARQL query execution, the query texts and the JSON shape of responses: bindings are taken as input sequences of records.
- `mwoauth.initiate` / `complete` / `identify`, the mwapi CSRF-token fetch and the `wbeditentity` post, `get_word_data`: foreign network calls; their results are inputs and the edit handed to the write API is returned as a value instead of being sent. The outcome of `complete` is an input that may be an error (`OAuthFlow.Callback`). A failing `initiate` raises before `login` touches the session, which is the same as no login. A failure of the CSRF-token fetch or of the post itself, after the edit is handed over, is not modelled: `Posted` means the edit reached the write API call, not that Wikidata accepted it.
- `generate_auth` beyond reading `oauth_access_token` from the session (building the OAuth1 signer is foreign crypto code).
- Flask routing, `url_for` / `full_url` / `current_url`, redirects, `render_template`, `denyFrame`, `redirect_to_https` and configuration loading: framework plumbing; the index URL and current URL are inputs.
- The Markup helpers (`form_value`, `form_attributes`, `user_link`, `authentication_area`): their content is markupsafe escaping, which is not part of this model.
- `logged_in_user_name` and its per-request caching in `flask.g`: a memo around the external identify call.
- Random token generation and `random.choice`: the draws are inputs, constrained to 64 letters or digits and to an index in range.
- Whether Flask persists the session after a handler raised: the model gives the in-memory session at the point of the exception.
- `json.dumps` of the payload: the payload is modelled as a datatype.
- The raw interpolation of `lang` into the per-language query: that query text is not modelled, and no escaping is claimed for it.
- LexemePages.AddPage: requires a non-empty candidate list (index in range), because `random.choice` raises IndexError on an empty list and the code does not guard it.
- LexemePages.UserPage: requires a non-empty candidate list for the same reason.
- SparqlEscape.EscapeRoundTrip: stated for names without line feed or carriage return; the code passes those through unescaped, and SPARQL does not allow them raw inside a double-quoted literal.
- SparqlEscape.EscapeRoundTrip: the `\u`/`\U` codepoint escapes, which section 19.2 of SPARQL 1.1 applies to the whole query text before parsing, are not modelled; the round trip is not claimed for names that hold `\u` or `\U` followed by hex digits (for `\u0041` the escaped `\\u0041` becomes `\A` and the query does not parse). That the escaped name never closes the literal early is proved for every name, line breaks and `\u` sequences included, by `SparqlEscape.EscapedNameStaysInsideLiteral`, reading the text with backslash pairs and without the codepoint pass.
- Submission.TokensAcceptedAtMostOnce, Submission.ReplayPostsAtMostOnce, App.SubmitTwice: assume each request carries the session the previous response set. The Flask session is a signed cookie held by the client, so a client that resends an earlier Cookie header (a double submit before the first response arrives, or a replay) presents the consumed token again and posts again; `Submission.StaleCookieReplayPostsAgain` states that case.
