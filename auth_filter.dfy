/** The request gateway that runs before every resource: it sets three
 *  hardening headers, lets public paths through, turns away requests
 *  without a logged-in user, and applies the role rules. */
module AuthFilter {
  import opened JavaLang
  import opened Http

  /** PUBLIC_PATHS: a path is public when one of these is a prefix of it. */
  const PublicPaths: seq<string> := [
    "/pages/login.html", "/pages/signup.html", "/LoginServlet", "/SignupServlet",
    "/images/", "/css/", "/js/", "/uploads/"]

  const LoginPage := "/pages/login.html"
  const AuthenticationRequired := "Authentication required"
  const AccessDenied := "Access denied"

  /** The three headers set on every response the gateway sees. */
  const SecurityHeaders: map<string, string> := map[
    "X-Content-Type-Options" := "nosniff",
    "X-Frame-Options" := "DENY",
    "X-XSS-Protection" := "1; mode=block"]

  predicate IsPublic(path: string)
  {
    exists i :: 0 <= i < |PublicPaths| && StartsWith(path, PublicPaths[i])
  }

  /** isPublicPath: the loop over the allow-list. */
  method IsPublicPath(path: string) returns (b: bool)
    ensures b <==> IsPublic(path)
  {
    for i := 0 to |PublicPaths|
      invariant forall j :: 0 <= j < i ==> !StartsWith(path, PublicPaths[j])
    {
      if StartsWith(path, PublicPaths[i]) {
        return true;
      }
    }
    return false;
  }

  // ---------------------------------------------------------------------
  // Role rules

  /** The paths of rule 1, reserved for "Admin". */
  predicate AdminArea(path: string)
  {
    StartsWith(path, "/AdminServlet") || Contains(path, "admin-dashboard")
  }

  /** The paths of rule 2, reserved for "Provider". */
  predicate ProviderArea(path: string)
  {
    StartsWith(path, "/ProviderServlet") || Contains(path, "provider-dashboard") ||
    Contains(path, "provider-register") || Contains(path, "service-form")
  }

  /** The paths of rule 3, reserved for "Seeker". */
  predicate SeekerArea(path: string)
  {
    StartsWith(path, "/SeekerServlet") || Contains(path, "seeker-dashboard") ||
    Contains(path, "booking-form")
  }

  /** hasAccess: each rule denies its area to every other role; the three
   *  are applied one after the other, so all of them must allow. */
  predicate HasAccess(role: string, path: string)
  {
    && !(AdminArea(path) && role != "Admin")
    && !(ProviderArea(path) && role != "Provider")
    && !(SeekerArea(path) && role != "Seeker")
  }

  // ---------------------------------------------------------------------
  // The decision

  datatype Outcome = Public | Pass | Unauthenticated | Forbidden

  /** The decision doFilter takes for a path and the client's session. */
  function Decide(path: string, session: Option<Session>): Outcome
  {
    if IsPublic(path) then Public
    else if session.None? || session.value.user.None? then Unauthenticated
    else if !HasAccess(session.value.user.value.role, path) then Forbidden
    else Pass
  }

  /** The paths answered with JSON rather than a redirect. */
  predicate IsApiPath(path: string)
  {
    StartsWith(path, "/") && (EndsWith(path, "Servlet") || Contains(path, "api"))
  }

  /** How a denial is answered. */
  datatype Denial = JsonError(status: int, envelope: Envelope) | RedirectTo(location: string)

  /** handleUnauthorized and handleForbidden. */
  function DenialFor(outcome: Outcome, path: string, contextPath: string): (d: Denial)
    requires outcome == Unauthenticated || outcome == Forbidden
    ensures d.JsonError? <==> IsApiPath(path)
    ensures d.JsonError? ==> !d.envelope.success && d.envelope.Response?
    ensures d.JsonError? && outcome == Unauthenticated ==> d.status == SC_UNAUTHORIZED
    ensures d.JsonError? && outcome == Forbidden ==> d.status == SC_FORBIDDEN
    ensures d.RedirectTo? ==> d.location == contextPath + LoginPage
  {
    if IsApiPath(path) then
      if outcome == Unauthenticated then JsonError(SC_UNAUTHORIZED, Response(false, Some(AuthenticationRequired)))
      else JsonError(SC_FORBIDDEN, Response(false, Some(AccessDenied)))
    else RedirectTo(contextPath + LoginPage)
  }

  /** The response state a denial leaves: a JSON body with its status (no
   *  character encoding is set), or a redirect. */
  function Answer(st: ResponseState, d: Denial): ResponseState
  {
    match d
    case JsonError(code, env) =>
      st.(contentType := Some(JsonContentType), status := code, body := st.body + [Alert(env)])
    case RedirectTo(location) => Redirected(st, location)
  }

  /** handleUnauthorized / handleForbidden on the response object. */
  method HandleDenial(resp: HttpResponse, outcome: Outcome, path: string, contextPath: string)
    requires outcome == Unauthenticated || outcome == Forbidden
    modifies resp
    ensures resp.State() == Answer(old(resp.State()), DenialFor(outcome, path, contextPath))
  {
    if StartsWith(path, "/") && (EndsWith(path, "Servlet") || Contains(path, "api")) {
      resp.SetContentType(JsonContentType);
      var code := if outcome == Unauthenticated then SC_UNAUTHORIZED else SC_FORBIDDEN;
      var message := if outcome == Unauthenticated then AuthenticationRequired else AccessDenied;
      resp.SetStatus(code);
      resp.Write(Alert(Response(false, Some(message))));
    } else {
      resp.SendRedirect(contextPath + LoginPage);
    }
  }

  /** The three hardening headers doFilter sets on every response. */
  method SetSecurityHeaders(resp: HttpResponse)
    modifies resp
    ensures resp.State() == old(resp.State()).(headers := old(resp.headers) + SecurityHeaders)
  {
    resp.SetHeader("X-Content-Type-Options", "nosniff");
    resp.SetHeader("X-Frame-Options", "DENY");
    resp.SetHeader("X-XSS-Protection", "1; mode=block");
  }

  /** doFilter. The result says whether the request was passed down the
   *  chain. The session is only read: getSession(false) creates none. */
  method DoFilter(req: Request, resp: HttpResponse) returns (forwarded: bool)
    requires StartsWith(req.uri, req.contextPath)
    modifies resp
    ensures var outcome := Decide(req.Path(), req.session);
      && (forwarded <==> outcome == Public || outcome == Pass)
      && resp.headers == old(resp.headers) + SecurityHeaders
      && (forwarded ==> resp.State() == old(resp.State()).(headers := resp.headers))
      && (!forwarded ==>
            resp.State() == Answer(old(resp.State()).(headers := resp.headers),
                                   DenialFor(outcome, req.Path(), req.contextPath)))
    ensures req.session == old(req.session)
  {
    var session := req.session;
    var path := req.uri[|req.contextPath|..];
    SetSecurityHeaders(resp);
    var isPublic := IsPublicPath(path);
    if isPublic {
      return true;
    }
    if session.None? || session.value.user.None? {
      HandleDenial(resp, Unauthenticated, path, req.contextPath);
      return false;
    }
    var user := session.value.user.value;
    if !HasAccess(user.role, path) {
      HandleDenial(resp, Forbidden, path, req.contextPath);
      return false;
    }
    return true;
  }

  // ---------------------------------------------------------------------
  // Properties of the decision

  /** Fail-closed: a request goes through only if its path is public or it
   *  carries a user whose role the rules allow; and every such request
   *  does go through. */
  lemma PassesExactly(path: string, session: Option<Session>)
    ensures Decide(path, session) in {Public, Pass} <==>
      IsPublic(path) ||
      (session.Some? && session.value.user.Some? && HasAccess(session.value.user.value.role, path))
  {
  }

  /** Without a session, or with a session lacking a user, every non-public
   *  path is refused as unauthenticated. */
  lemma NoUserIsUnauthenticated(path: string, session: Option<Session>)
    requires !IsPublic(path)
    requires session.None? || session.value.user.None?
    ensures Decide(path, session) == Unauthenticated
  {
  }

  /** The allow-list is matched by prefix alone: whatever follows a public
   *  prefix is public too, with or without a session. */
  lemma PublicIsPrefixClosed(path: string, suffix: string, session: Option<Session>)
    requires IsPublic(path)
    ensures IsPublic(path + suffix) && Decide(path + suffix, session) == Public
  {
    var i :| 0 <= i < |PublicPaths| && StartsWith(path, PublicPaths[i]);
    assert (path + suffix)[..|PublicPaths[i]|] == path[..|PublicPaths[i]|];
  }

  lemma StylesheetIsPublic()
    ensures IsPublic("/css/admin-dashboard.css")
  {
    assert StartsWith("/css/admin-dashboard.css", PublicPaths[5]);
  }

  lemma StylesheetInAdminArea()
    ensures AdminArea("/css/admin-dashboard.css")
  {
    var p := "/css/admin-dashboard.css";
    assert p[5..20] == "admin-dashboard";
    ContainsAt(p, "admin-dashboard", 5);
  }

  /** A stylesheet whose name mentions the admin dashboard is served to
   *  anyone: the public check comes before the role rules. */
  lemma PublicBeforeRoles()
    ensures AdminArea("/css/admin-dashboard.css")
    ensures Decide("/css/admin-dashboard.css", None) == Public
  {
    StylesheetIsPublic();
    StylesheetInAdminArea();
  }

  /** A path in one role's area is allowed to that exact role string only. */
  lemma AreaNeedsExactRole(role: string, path: string)
    ensures AdminArea(path) && HasAccess(role, path) ==> role == "Admin"
    ensures ProviderArea(path) && HasAccess(role, path) ==> role == "Provider"
    ensures SeekerArea(path) && HasAccess(role, path) ==> role == "Seeker"
    ensures AdminArea(path) && !ProviderArea(path) && !SeekerArea(path) ==> HasAccess("Admin", path)
    ensures ProviderArea(path) && !AdminArea(path) && !SeekerArea(path) ==> HasAccess("Provider", path)
    ensures SeekerArea(path) && !AdminArea(path) && !ProviderArea(path) ==> HasAccess("Seeker", path)
  {
  }

  /** The rules are not first-match: a path in two areas is denied to every
   *  role. */
  lemma TwoAreasDenyEveryone(role: string, path: string)
    requires (AdminArea(path) && ProviderArea(path)) || (AdminArea(path) && SeekerArea(path)) ||
             (ProviderArea(path) && SeekerArea(path))
    ensures !HasAccess(role, path)
  {
  }

  /** For instance, a provider page that also mentions booking-form. */
  lemma OverlappingPathExample(role: string)
    ensures !HasAccess(role, "/ProviderServlet/booking-form")
  {
    var p := "/ProviderServlet/booking-form";
    assert p[17..29] == "booking-form";
    ContainsAt(p, "booking-form", 17);
    assert StartsWith(p, "/ProviderServlet");
  }

  /** Outside every area any logged-in user passes, whatever the role string. */
  lemma NoAreaAllowsAnyRole(role: string, path: string, u: User)
    requires !AdminArea(path) && !ProviderArea(path) && !SeekerArea(path)
    requires !IsPublic(path)
    ensures HasAccess(role, path)
    ensures Decide(path, Some(Session(Some(u)))) == Pass
  {
  }

  lemma AdminServletNotPublic()
    ensures !IsPublic("/AdminServlet")
  {
    var p := "/AdminServlet";
    forall i | 0 <= i < |PublicPaths|
      ensures !StartsWith(p, PublicPaths[i])
    {
      assert PublicPaths[i][1] != 'A' || PublicPaths[i][2] != 'd';
    }
  }

  lemma AdminServletNotProviderArea()
    ensures !ProviderArea("/AdminServlet")
  {
    var p := "/AdminServlet";
    ContainsChars(p, "provider-dashboard", 'o');
    ContainsChars(p, "provider-register", 'o');
    ContainsChars(p, "service-form", 'o');
  }

  lemma AdminServletNotSeekerArea()
    ensures !SeekerArea("/AdminServlet")
  {
    var p := "/AdminServlet";
    ContainsChars(p, "seeker-dashboard", 'k');
    ContainsChars(p, "booking-form", 'k');
  }

  /** The admin servlet: no session gives 401, a Seeker 403 answered in
   *  JSON, an Admin passes. */
  lemma AdminServletExamples(seeker: User, admin: User)
    requires seeker.role == "Seeker" && admin.role == "Admin"
    ensures Decide("/AdminServlet", None) == Unauthenticated
    ensures Decide("/AdminServlet", Some(Session(Some(seeker)))) == Forbidden
    ensures Decide("/AdminServlet", Some(Session(Some(admin)))) == Pass
    ensures DenialFor(Forbidden, "/AdminServlet", "/app") == JsonError(SC_FORBIDDEN, Response(false, Some(AccessDenied)))
  {
    AdminServletNotPublic();
    AdminServletNotProviderArea();
    AdminServletNotSeekerArea();
    assert StartsWith("/AdminServlet", "/AdminServlet");
    assert EndsWith("/AdminServlet", "Servlet");
  }

  /** A dashboard page is answered with a redirect to the login page. */
  lemma PageDenialRedirects(contextPath: string)
    ensures DenialFor(Unauthenticated, "/pages/seeker-dashboard.html", contextPath)
      == RedirectTo(contextPath + "/pages/login.html")
  {
    var p := "/pages/seeker-dashboard.html";
    assert p[|p| - 1] == 'l';
    assert 'i' !in p;
    NotApiPath(p);
  }

  /** A path ending in neither "t" nor holding an 'i' is not an API path. */
  lemma NotApiPath(p: string)
    requires |p| > 0 && p[|p| - 1] != 't' && 'i' !in p
    ensures !IsApiPath(p)
  {
    assert "Servlet"[6] == 't';
    ContainsChars(p, "api", 'i');
  }
}
