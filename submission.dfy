/** `submit_sense_from_request`: consume the CSRF token, check it, and only
    then build the edit and hand it to the write API; plus a run of page
    views and submissions, to state that a token is accepted at most once. */
module Submission {
  import opened Wrappers
  import opened Errors
  import opened SessionStore
  import opened Csrf
  import opened OAuthFlow
  import opened SensePayload

  /** The `wbeditentity` call the request would make: the target lexeme,
      the JSON payload, the summary and the OAuth credentials. */
  datatype Edit = Edit(wordId: string, payload: EditPayload, summary: string, auth: OAuthToken)

  /** CsrfRejected sets `g.csrf_error` and `g.repeat_form`; Posted is the
      edit handed to the write API; Raised is an exception escaping the
      handler. */
  datatype Outcome = CsrfRejected | Posted(edit: Edit) | Raised(error: PyError)

  datatype Submitted = Submitted(session: SessionMap, outcome: Outcome)

  /** `request.form.get(key)` */
  function FormGet(form: Form, key: string): Option<string> {
    if key in form then Some(form[key]) else None
  }

  /** `session.pop(key, None)` as the value it yields. */
  function Peek(s: SessionMap, key: string): Option<Value> {
    if key in s then Some(s[key]) else None
  }

  /** The POST handling of `add` and `user`. `oauthConfigured` is whether
      the configuration has an `oauth` section. */
  function SubmitSense(s: SessionMap, form: Form, referrer: Option<string>, indexUrl: string,
                       oauthConfigured: bool): (r: Submitted)
    // The token is consumed before anything is checked, whatever the outcome.
    ensures r.session == s - {CsrfKey}
    ensures r.outcome == CsrfRejected <==>
      CheckToken(Peek(s, CsrfKey), FormGet(form, CsrfKey), referrer, indexUrl) == Reject
    // An edit is posted only for a matching non-empty token, a referrer
    // inside the application, a configured OAuth consumer and a logged-in
    // session, and it is the edit the form describes.
    ensures r.outcome.Posted? ==>
      && CsrfKey in s && CsrfKey in form && form[CsrfKey] != "" && s[CsrfKey] == Text(form[CsrfKey])
      && referrer.Some? && indexUrl <= referrer.value
      && oauthConfigured
      && ReadToken(s, AccessTokenKey) == Ok(r.outcome.edit.auth)
      && "lang" in form && "sense" in form && "word_id" in form
      && r.outcome.edit.wordId == form["word_id"]
      && r.outcome.edit.payload == BuildSenses(form, form["lang"]).value
      && r.outcome.edit.summary == SummaryPrefix + form["sense"] + "."
    // Conversely, a passing check with OAuth configured, the three form
    // fields and a stored access token does post.
    ensures
      (&& CheckToken(Peek(s, CsrfKey), FormGet(form, CsrfKey), referrer, indexUrl) == Pass
       && oauthConfigured && "lang" in form && "sense" in form && "word_id" in form
       && ReadToken(s, AccessTokenKey).Ok?)
      ==> r.outcome.Posted?
    // A matching token with no Referer header raises AttributeError.
    ensures CheckToken(Peek(s, CsrfKey), FormGet(form, CsrfKey), referrer, indexUrl) == NoReferrer ==>
      r.outcome == Raised(AttributeError)
  {
    var popped := s - {CsrfKey};
    match CheckToken(Peek(s, CsrfKey), FormGet(form, CsrfKey), referrer, indexUrl)
    case Reject => Submitted(popped, CsrfRejected)
    case NoReferrer => Submitted(popped, Raised(AttributeError))
    case Pass =>
      if !oauthConfigured then Submitted(popped, Raised(NameError("senses")))
      else if "lang" !in form then Submitted(popped, Raised(KeyError("lang")))
      else
        var lang := form["lang"];
        match BuildSenses(form, lang)
        case Err(e) => Submitted(popped, Raised(e))
        case Ok(payload) =>
          if "word_id" !in form then Submitted(popped, Raised(KeyError("word_id")))
          else
            match ReadToken(popped, AccessTokenKey)
            case Err(e) => Submitted(popped, Raised(e))
            case Ok(auth) =>
              Submitted(popped, Posted(Edit(form["word_id"], payload, EditSummary(payload, lang), auth)))
  }

  /** Submitting again on the session the first submission left is always
      rejected, even with the very same form. */
  lemma SecondSubmissionRejected(s: SessionMap, form1: Form, form2: Form, referrer1: Option<string>,
                                 referrer2: Option<string>, indexUrl: string, oauthConfigured: bool)
    ensures var first := SubmitSense(s, form1, referrer1, indexUrl, oauthConfigured);
      SubmitSense(first.session, form2, referrer2, indexUrl, oauthConfigured).outcome == CsrfRejected
  {
  }

  /** What a visitor can do: view a form (which asks for the CSRF token;
      `generated` is what the generator would draw), submit one, log in,
      or come back from the authorization server. */
  datatype Event =
    | ShowForm(generated: string)
    | Submit(form: Form, referrer: Option<string>, indexUrl: string)
    | LogIn(requestToken: OAuthToken)
    | ReturnFromAuthorization(exchange: Result<OAuthToken, PyError>)

  predicate WellFormedEvents(evs: seq<Event>) {
    forall i :: 0 <= i < |evs| && evs[i].ShowForm? ==> IsGeneratedToken(evs[i].generated)
  }

  /** Session after a run, the number of edits posted and the number of
      fresh tokens the generator supplied. */
  datatype Tally = Tally(session: SessionMap, posted: nat, minted: nat)

  function Step(s: SessionMap, e: Event, oauthConfigured: bool): (t: Tally)
    requires e.ShowForm? ==> IsGeneratedToken(e.generated)
  {
    match e
    case ShowForm(g) => Tally(Issue(s, g).session, 0, if CsrfKey in s then 0 else 1)
    case Submit(form, referrer, indexUrl) =>
      var r := SubmitSense(s, form, referrer, indexUrl, oauthConfigured);
      Tally(r.session, if r.outcome.Posted? then 1 else 0, 0)
    case LogIn(t) => Tally(Login(s, t), 0, 0)
    case ReturnFromAuthorization(t) =>
      match Callback(s, t)
      case Ok(c) => Tally(c.session, 0, 0)
      case Err(_) => Tally(s, 0, 0)
  }

  function Run(s: SessionMap, evs: seq<Event>, oauthConfigured: bool): (t: Tally)
    requires WellFormedEvents(evs)
    decreases |evs|
  {
    if evs == [] then Tally(s, 0, 0)
    else
      var first := Step(s, evs[0], oauthConfigured);
      var rest := Run(first.session, evs[1..], oauthConfigured);
      Tally(rest.session, first.posted + rest.posted, first.minted + rest.minted)
  }

  function Held(s: SessionMap): nat {
    if CsrfKey in s then 1 else 0
  }

  /** Every posted edit used up a token: over any run, the edits posted plus
      the token still held never exceed the tokens minted plus the token
      held at the start. In particular a token is accepted at most once. */
  lemma {:induction false} TokensAcceptedAtMostOnce(s: SessionMap, evs: seq<Event>, oauthConfigured: bool)
    requires WellFormedEvents(evs)
    ensures var t := Run(s, evs, oauthConfigured); t.posted + Held(t.session) <= t.minted + Held(s)
    decreases |evs|
  {
    if evs != [] {
      var first := Step(s, evs[0], oauthConfigured);
      assert first.posted + Held(first.session) <= first.minted + Held(s) by {
        match evs[0]
        case ShowForm(g) =>
        case Submit(form, referrer, indexUrl) =>
        case LogIn(t) =>
          assert CsrfKey in first.session <==> CsrfKey in s;
        case ReturnFromAuthorization(t) =>
          assert CsrfKey in first.session <==> CsrfKey in s;
      }
      assert WellFormedEvents(evs[1..]) by {
        forall i | 0 <= i < |evs[1..]| && evs[1..][i].ShowForm?
          ensures IsGeneratedToken(evs[1..][i].generated)
        {
          assert evs[1..][i] == evs[i + 1];
        }
      }
      TokensAcceptedAtMostOnce(first.session, evs[1..], oauthConfigured);
    }
  }

  /** The session lives in the cookie the client sends back, so the `pop`
      only changes the cookie of the response. When the second request
      carries the cookie the first response set, the form posts once; when
      both carry the cookie of before the submission (a double submit before
      the first response arrives, or a replay), it posts twice. */
  lemma StaleCookieReplayPostsAgain(s: SessionMap, form: Form, referrer: Option<string>, indexUrl: string,
                                    oauthConfigured: bool)
    requires SubmitSense(s, form, referrer, indexUrl, oauthConfigured).outcome.Posted?
    ensures Run(s, [Submit(form, referrer, indexUrl), Submit(form, referrer, indexUrl)], oauthConfigured).posted == 1
    ensures Run(s, [Submit(form, referrer, indexUrl)], oauthConfigured).posted
          + Run(s, [Submit(form, referrer, indexUrl)], oauthConfigured).posted == 2
  {
    var e := Submit(form, referrer, indexUrl);
    var s1 := Step(s, e, oauthConfigured).session;
    SecondSubmissionRejected(s, form, form, referrer, referrer, indexUrl, oauthConfigured);
    assert [e, e][1..] == [e] && [e][1..] == [];
    assert Run(s1, [e], oauthConfigured).posted == 0;
  }

  /** Two submissions of the same form with no page view in between post at
      most one edit. */
  lemma ReplayPostsAtMostOnce(s: SessionMap, form: Form, referrer: Option<string>, indexUrl: string,
                              oauthConfigured: bool)
    ensures Run(s, [Submit(form, referrer, indexUrl), Submit(form, referrer, indexUrl)], oauthConfigured).posted <= 1
  {
    var e := Submit(form, referrer, indexUrl);
    var s1 := Step(s, e, oauthConfigured).session;
    var s2 := Step(s1, e, oauthConfigured).session;
    assert [e, e][1..] == [e] && [e][1..] == [];
    assert Run(s2, [], oauthConfigured).minted == 0;
    assert Run(s1, [e], oauthConfigured).minted == 0;
    assert Run(s, [e, e], oauthConfigured).minted == 0;
    TokensAcceptedAtMostOnce(s, [e, e], oauthConfigured);
  }
}
