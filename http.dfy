/** The servlet-container surface the core touches: the user bean kept in
 *  the session, the session itself, request parameters, and the response a
 *  handler fills in (headers, status, content type, character encoding,
 *  body, redirect). JSON serialisation is represented by the datatypes the
 *  handlers hand to Gson, not by the text Gson would produce. */
module Http {
  import opened JavaLang

  /** ethioskill.models.User with the five fields the login flow fills in. */
  datatype User = User(id: int, fullName: string, phone: string, role: string, status: string)

  /** A live HttpSession; its "user" attribute is absent until login sets it. */
  datatype Session = Session(user: Option<User>)

  /** A JSON value, standing for an arbitrary object given to Gson. */
  datatype Json =
    | JNull
    | JBool(b: bool)
    | JInt(n: int)
    | JString(s: string)
    | JArray(items: seq<Json>)
    | JObject(members: seq<(string, Json)>)

  /** The {success, message} envelope and the {success, message, data}
   *  envelope. AuthFilter's private Response class has the first shape. */
  datatype Envelope =
    | Response(success: bool, message: Option<string>)
    | DataResponse(success: bool, message: Option<string>, data: Json)

  /** What a handler writes to the response body. */
  datatype Body =
    | Alert(envelope: Envelope)
      // {success: true, user, needsRegistration?}, written by the login flow
    | LoginReply(user: User, needsRegistration: Option<bool>)
      // {success: true, message: "Account created successfully!", userId, status}
    | SignupReply(userId: int, status: string)

  const SC_OK := 200
  const SC_FOUND := 302
  const SC_UNAUTHORIZED := 401
  const SC_FORBIDDEN := 403

  const JsonContentType := "application/json"
  const Utf8 := "UTF-8"

  /** Everything a handler can set on the response, as one value. */
  datatype ResponseState = ResponseState(
    headers: map<string, string>,
    status: int,
    contentType: Option<string>,
    encoding: Option<string>,
    body: seq<Body>,
    redirect: Option<string>)

  /** The state after setContentType("application/json"),
   *  setCharacterEncoding("UTF-8") and one write of b. */
  function WithJson(st: ResponseState, b: Body): ResponseState
  {
    st.(contentType := Some(JsonContentType), encoding := Some(Utf8), body := st.body + [b])
  }

  /** The state after sendRedirect(location): status 302 and the target. */
  function Redirected(st: ResponseState, location: string): ResponseState
  {
    st.(status := SC_FOUND, redirect := Some(location))
  }

  /** HttpServletResponse, reduced to what the core sets. */
  class HttpResponse {
    var headers: map<string, string>
    var status: int
    var contentType: Option<string>
    var encoding: Option<string>
    var body: seq<Body>
    var redirect: Option<string>

    function State(): ResponseState
      reads this
    {
      ResponseState(headers, status, contentType, encoding, body, redirect)
    }

    constructor ()
      ensures State() == ResponseState(map[], SC_OK, None, None, [], None)
    {
      headers, status, contentType, encoding, body, redirect := map[], SC_OK, None, None, [], None;
    }

    method SetHeader(name: string, value: string)
      modifies this
      ensures State() == old(State()).(headers := old(headers)[name := value])
    {
      headers := headers[name := value];
    }

    method SetContentType(t: string)
      modifies this
      ensures State() == old(State()).(contentType := Some(t))
    {
      contentType := Some(t);
    }

    method SetCharacterEncoding(e: string)
      modifies this
      ensures State() == old(State()).(encoding := Some(e))
    {
      encoding := Some(e);
    }

    method SetStatus(code: int)
      modifies this
      ensures State() == old(State()).(status := code)
    {
      status := code;
    }

    /** getWriter().write(...) of one serialised value. */
    method Write(b: Body)
      modifies this
      ensures State() == old(State()).(body := old(body) + [b])
    {
      body := body + [b];
    }

    method SendRedirect(location: string)
      modifies this
      ensures State() == Redirected(old(State()), location)
    {
      status, redirect := SC_FOUND, Some(location);
    }
  }

  /** getParameter on a parameter map: null when the parameter is absent. */
  function ParamOf(params: map<string, string>, name: string): (v: Option<string>)
    ensures v.Some? <==> name in params
    ensures v.Some? ==> v.value == params[name]
  {
    if name in params then Some(params[name]) else None
  }

  /** HttpServletRequest: the URI, the context path, the parameters, and the
   *  session the container keeps for this client. */
  class Request {
    const uri: string
    const contextPath: string
    const params: map<string, string>
    var session: Option<Session>

    constructor (uri: string, contextPath: string, params: map<string, string>, session: Option<Session>)
      ensures this.uri == uri && this.contextPath == contextPath
      ensures this.params == params && this.session == session
    {
      this.uri, this.contextPath, this.params, this.session := uri, contextPath, params, session;
    }

    /** getParameter: null when the parameter is absent. */
    function Parameter(name: string): (v: Option<string>)
      ensures v == ParamOf(params, name)
    {
      ParamOf(params, name)
    }

    /** getRequestURI().substring(getContextPath().length()). */
    function Path(): string
      requires StartsWith(uri, contextPath)
    {
      uri[|contextPath|..]
    }

    /** getSession() followed by setAttribute("user", u): the session is
     *  created when there is none. */
    method SetSessionUser(u: User)
      modifies this
      ensures session == Some(Session(Some(u)))
    {
      session := Some(Session(Some(u)));
    }

    /** getSession(false), and invalidate() when a session exists. */
    method InvalidateSession()
      modifies this
      ensures session == None
    {
      if session.Some? {
        session := None;
      }
    }
  }
}
