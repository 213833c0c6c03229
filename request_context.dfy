/** The handlers that change state in place: the Flask session of the
    visitor and the per-request `flask.g` flags, as the fields of one
    request context. Each handler's effect is the matching specification
    function of Csrf, Submission or OAuthFlow. */
module App {
  import opened Wrappers
  import opened Errors
  import opened SessionStore
  import opened Csrf
  import opened OAuthFlow
  import opened SensePayload
  import opened Submission

  class RequestContext {
    /** `flask.session` */
    var session: SessionMap
    /** `flask.g.csrf_error` and `flask.g.repeat_form` */
    var csrfError: bool
    var repeatForm: bool
    /** `'oauth' in app.config` */
    const oauthConfigured: bool

    /** Only `csrf_token` writes the CSRF slot, and it writes a string. */
    ghost predicate Valid()
      reads this
    {
      CsrfKey in session ==> session[CsrfKey].Text?
    }

    constructor (session: SessionMap, oauthConfigured: bool)
      requires CsrfKey in session ==> session[CsrfKey].Text?
      ensures Valid()
      ensures this.session == session && this.oauthConfigured == oauthConfigured
      ensures !csrfError && !repeatForm
    {
      this.session := session;
      this.oauthConfigured := oauthConfigured;
      csrfError, repeatForm := false, false;
    }

    /** `csrf_token()`; `generated` is the random draw. */
    method CsrfToken(generated: string) returns (token: string)
      requires Valid() && IsGeneratedToken(generated)
      modifies this`session
      ensures Valid()
      ensures var issued := Issue(old(session), generated);
        session == issued.session && issued.token == Text(token)
    {
      if CsrfKey !in session {
        session := session[CsrfKey := Text(generated)];
      }
      token := session[CsrfKey].s;
    }

    /** `submit_sense_from_request()`; the posted edit is returned instead
        of being sent. */
    method SubmitSenseFromRequest(form: Form, referrer: Option<string>, indexUrl: string)
      returns (outcome: Outcome)
      requires Valid()
      modifies this
      ensures Valid()
      ensures var r := SubmitSense(old(session), form, referrer, indexUrl, oauthConfigured);
        session == r.session && outcome == r.outcome
      ensures csrfError == (old(csrfError) || outcome == CsrfRejected)
      ensures repeatForm == (old(repeatForm) || outcome == CsrfRejected)
    {
      var token: Option<Value> := None;
      if CsrfKey in session {
        token := Some(session[CsrfKey]);
      }
      session := session - {CsrfKey};
      var check := CheckToken(token, FormGet(form, CsrfKey), referrer, indexUrl);
      if check == Reject {
        csrfError := true;
        repeatForm := true;
        return CsrfRejected;
      }
      if check == NoReferrer {
        return Raised(AttributeError);
      }
      if !oauthConfigured {
        return Raised(NameError("senses"));
      }
      if "lang" !in form {
        return Raised(KeyError("lang"));
      }
      var lang := form["lang"];
      var senses := BuildSenses(form, lang);
      if senses.Err? {
        return Raised(senses.error);
      }
      if "word_id" !in form {
        return Raised(KeyError("word_id"));
      }
      var auth := ReadToken(session, AccessTokenKey);
      if auth.Err? {
        return Raised(auth.error);
      }
      outcome := Posted(Edit(form["word_id"], senses.value, EditSummary(senses.value, lang), auth.value));
    }

    /** `login()`; `requestToken` is what `mwoauth.initiate` returned. */
    method LogIn(requestToken: OAuthToken)
      requires Valid()
      modifies this`session
      ensures Valid()
      ensures session == Login(old(session), requestToken)
    {
      session := session[RequestTokenKey := Fields(TokenToDict(requestToken))];
    }

    /** `oauth_callback()`; `exchange` is what `mwoauth.complete` returned
        or raised. On success the result is the request token that was
        handed to `complete`; on an error the session is untouched. */
    method OAuthCallback(exchange: Result<OAuthToken, PyError>) returns (result: Result<OAuthToken, PyError>)
      requires Valid()
      modifies this`session
      ensures Valid()
      ensures match Callback(old(session), exchange)
        case Ok(c) => session == c.session && result == Ok(c.requestToken)
        case Err(e) => session == old(session) && result == Err(e)
    {
      var stored := ReadToken(session, RequestTokenKey);
      if stored.Err? {
        return Err(stored.error);
      }
      if exchange.Err? {
        return Err(exchange.error);
      }
      session := session[AccessTokenKey := Fields(TokenToDict(exchange.value))];
      result := Ok(stored.value);
    }
  }

  /** A visitor who is logged in, with or without a token from an earlier
      page view, views the form and submits it twice, each request carrying
      the session the previous response set: the first submission posts
      the edit the form describes, the second is turned away as a CSRF
      failure. */
  method SubmitTwice(s: SessionMap, form: Form, generated: string, referrer: string, indexUrl: string)
    returns (first: Outcome, second: Outcome)
    requires CsrfKey in s ==> s[CsrfKey].Text? && IsGeneratedToken(s[CsrfKey].s)
    requires ReadToken(s, AccessTokenKey).Ok?
    requires IsGeneratedToken(generated) && indexUrl <= referrer
    requires "lang" in form && "sense" in form && "word_id" in form
    ensures first.Posted? && first.edit.wordId == form["word_id"]
    ensures first.Posted? ==> first.edit.payload == BuildSenses(form, form["lang"]).value
    ensures first.Posted? ==> first.edit.summary == SummaryPrefix + form["sense"] + "."
    ensures second == CsrfRejected
  {
    // Each request gets a fresh `flask.g` and the session the previous
    // response set.
    var view := new RequestContext(s, true);
    var token := view.CsrfToken(generated);
    var posted := form[CsrfKey := token];
    var submit := new RequestContext(view.session, true);
    first := submit.SubmitSenseFromRequest(posted, Some(referrer), indexUrl);
    var replay := new RequestContext(submit.session, true);
    second := replay.SubmitSenseFromRequest(posted, Some(referrer), indexUrl);
  }
}
