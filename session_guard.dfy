/** The session guard: admits a request only when its session cookie names a valid session. */
module SessionGuard {
  import opened Tables
  import opened Store

  const CookieMissing := "Session cookie missing"
  const InvalidSession := "Invalid or expired session"
  const DefaultCookieName := "session"

  /** A session as the session store returns it, with its user attached. */
  datatype Session = Session(id: Id, user: User, expiresAt: Timestamp)

  /** The incoming request: its cookies, if any were parsed, and the identity the guard attaches. */
  class Request {
    const cookies: Option<map<string, string>>
    var user: Option<User>
    var session: Option<Session>

    constructor (cookies: Option<map<string, string>>)
      ensures this.cookies == cookies && user == None && session == None
    {
      this.cookies := cookies;
      user, session := None, None;
    }
  }

  /** The configured cookie name, `session` when none is configured;
      a configured name is kept even when it is empty. */
  function CookieName(configured: Option<string>): (name: string)
    ensures configured.Some? ==> name == configured.value
    ensures name == DefaultCookieName <==> configured.None? || configured.value == DefaultCookieName
  {
    if configured.Some? then configured.value else DefaultCookieName
  }

  /** The session token carried under cookie `name`; a missing or empty cookie carries none. */
  function SessionToken(cookies: Option<map<string, string>>, name: string): (token: Option<string>)
    ensures token.Some? <==> cookies.Some? && name in cookies.value && cookies.value[name] != ""
    ensures token.Some? ==> token.value == cookies.value[name]
  {
    if cookies.Some? && name in cookies.value && cookies.value[name] != "" then Some(cookies.value[name])
    else None
  }

  class SessionAuthGuard {
    /** The session store's validation, which is not part of this model. */
    const validateSession: string -> Option<Session>
    /** The `SESSION_COOKIE_NAME` setting. */
    const cookieNameSetting: Option<string>

    constructor (validateSession: string -> Option<Session>, cookieNameSetting: Option<string>)
      ensures this.validateSession == validateSession && this.cookieNameSetting == cookieNameSetting
    {
      this.validateSession := validateSession;
      this.cookieNameSetting := cookieNameSetting;
    }

    /** Admits the request or fails it Unauthorized; it never answers false.
        `validated` lists the tokens handed to the session store. */
    method CanActivate(request: Request) returns (r: Result<bool>, ghost validated: seq<string>)
      modifies request`user, request`session
      ensures r.Ok? ==> r.value
      ensures SessionToken(request.cookies, CookieName(cookieNameSetting)).None? ==>
                r == Err(Unauthorized(CookieMissing)) && validated == []
      ensures SessionToken(request.cookies, CookieName(cookieNameSetting)).Some? ==>
                validated == [SessionToken(request.cookies, CookieName(cookieNameSetting)).value]
      ensures |validated| == 1 && validateSession(validated[0]).None? ==>
                r == Err(Unauthorized(InvalidSession))
      ensures r.Err? ==> request.user == old(request.user) && request.session == old(request.session)
      ensures r.Ok? <==> |validated| == 1 && validateSession(validated[0]).Some?
      ensures r.Ok? ==>
                && request.session == validateSession(validated[0])
                && request.user == Some(request.session.value.user)
    {
      var cookieName := CookieName(cookieNameSetting);
      var sessionToken := SessionToken(request.cookies, cookieName);
      if sessionToken.None? {
        return Err(Unauthorized(CookieMissing)), [];
      }
      validated := [sessionToken.value];
      var session := validateSession(sessionToken.value);
      if session.None? {
        return Err(Unauthorized(InvalidSession)), validated;
      }
      request.user := Some(session.value.user);
      request.session := session;
      return Ok(true), validated;
    }
  }
}
