/** The servlets and the gateway together: an account created by signup can
 *  log in with the same phone, password and role; the session it gets
 *  passes the gateway according to the stored role alone; logging out
 *  closes every protected path again. */
module Lifecycle {
  import opened JavaLang
  import opened Http
  import opened Store
  import Validator
  import PasswordUtil
  import AuthFilter
  import SignupServlet
  import LoginServlet

  /** After a signup that passed every check and stored its row, logging in
   *  with the same phone (in either spelling it was typed), password and
   *  account type as role attaches the new row's user. The stored password
   *  has the salted-hash format. */
  lemma SignupThenLogin(p: PasswordUtil.Primitives, users: map<string, UserRow>, details: map<int, string>,
                        notes: seq<(int, string)>, next: int, st: ResponseState,
                        users': map<string, UserRow>, details': map<int, string>, notes': seq<(int, string)>,
                        next': int, st': ResponseState, thrown: Option<JavaException>,
                        random: seq<byte>, autoVerify: bool, fullName: Option<string>, phone: Option<string>,
                        password: Option<string>, accountType: Option<string>)
    requires PasswordUtil.Lawful(p) && p.digestAvailable && |random| == PasswordUtil.SaltLength
    requires SignupServlet.SignupCheck(users, fullName, phone, password, accountType).None?
    requires SignupServlet.Created(users, details, notes, next, st, users', details', notes', next', st', thrown,
                                   p, random, autoVerify, Trim(fullName.value), Validator.FormatPhone(phone).value,
                                   password.value, accountType.value)
    ensures var key := Validator.FormatPhone(phone).value;
      && key in users'
      && PasswordUtil.IsValidHashFormat(Some(users'[key].password))
      && LoginServlet.Login(p, users', details', phone, password, accountType) ==
         LoginServlet.LoggedIn(LoginServlet.UserOf(users'[key]),
                               if accountType.value == "Provider" then Some(next !in details) else None)
  {
    var key := Validator.FormatPhone(phone).value;
    AcceptedSignupPassesLoginChecks(p, users, users', details', fullName, phone, password, accountType);
    PasswordUtil.StoredHashFormat(p, random, password.value);
    StoredRowAuthenticates(p, users', details', key, random, password.value, accountType.value);
  }

  /** The fields a signup accepted also pass login's own checks, so login
   *  goes straight to the lookup under the same key. */
  lemma AcceptedSignupPassesLoginChecks(p: PasswordUtil.Primitives, users: map<string, UserRow>,
                                        users': map<string, UserRow>, details': map<int, string>,
                                        fullName: Option<string>, phone: Option<string>,
                                        password: Option<string>, accountType: Option<string>)
    requires SignupServlet.SignupCheck(users, fullName, phone, password, accountType).None?
    ensures phone.Some? && password.Some? && accountType.Some?
    ensures LoginServlet.Login(p, users', details', phone, password, accountType) ==
            LoginServlet.Authenticate(p, users', details', Validator.FormatPhone(phone).value,
                                      password.value, accountType.value)
  {
    SignupServlet.SignupAcceptsExactly(users, fullName, phone, password, accountType);
    Validator.ValidPasswordNotBlank(password.value);
    assert !IsBlank(phone.value) by {
      assert |Trim(phone.value)| >= 10;
    }
  }

  /** A row whose role is the requested one and whose password field is
   *  the salted hash of the attempt authenticates. */
  lemma StoredRowAuthenticates(p: PasswordUtil.Primitives, users: map<string, UserRow>, details: map<int, string>,
                               key: string, salt: seq<byte>, password: string, role: string)
    requires PasswordUtil.Lawful(p) && p.digestAvailable && |salt| == PasswordUtil.SaltLength
    requires key in users && users[key].role == role
    requires users[key].password == PasswordUtil.StoredHash(p, salt, password)
    ensures LoginServlet.Authenticate(p, users, details, key, password, role) ==
            LoginServlet.LoggedIn(LoginServlet.UserOf(users[key]),
                                  if role == "Provider" then Some(users[key].id !in details) else None)
  {
    PasswordUtil.VerifyRoundTrip(p, salt, password);
  }

  /** Signup stores any account type, so a client can register itself as
   *  "Admin", log in with that role and pass the gateway's admin rule,
   *  although its status is still "Pending". */
  lemma SelfRegisteredAdminPasses(p: PasswordUtil.Primitives, users: map<string, UserRow>, details: map<int, string>,
                                  notes: seq<(int, string)>, next: int, st: ResponseState,
                                  users': map<string, UserRow>, details': map<int, string>, notes': seq<(int, string)>,
                                  next': int, st': ResponseState, thrown: Option<JavaException>,
                                  random: seq<byte>, autoVerify: bool, fullName: Option<string>, phone: Option<string>,
                                  password: Option<string>)
    requires PasswordUtil.Lawful(p) && p.digestAvailable && |random| == PasswordUtil.SaltLength
    requires SignupServlet.SignupCheck(users, fullName, phone, password, Some("Admin")).None?
    requires SignupServlet.Created(users, details, notes, next, st, users', details', notes', next', st', thrown,
                                   p, random, autoVerify, Trim(fullName.value), Validator.FormatPhone(phone).value,
                                   password.value, "Admin")
    ensures var r := LoginServlet.Login(p, users', details', phone, password, Some("Admin"));
      && r.LoggedIn? && r.user.role == "Admin" && r.user.status == "Pending"
      && AuthFilter.Decide("/AdminServlet", Some(Session(Some(r.user)))) == AuthFilter.Pass
  {
    SignupThenLogin(p, users, details, notes, next, st, users', details', notes', next', st', thrown,
                    random, autoVerify, fullName, phone, password, Some("Admin"));
    var u := LoginServlet.Login(p, users', details', phone, password, Some("Admin")).user;
    AuthFilter.AdminServletExamples(u.(role := "Seeker"), u);
  }

  /** The gateway reads the role of the session's user and nothing else of
   *  it: the account status and the other fields never change the decision. */
  lemma GatewayReadsOnlyRole(path: string, u: User, v: User)
    requires u.role == v.role
    ensures AuthFilter.Decide(path, Some(Session(Some(u)))) == AuthFilter.Decide(path, Some(Session(Some(v))))
  {
  }

  /** The session a client holds after a sequence of login attempts and
   *  logouts: a successful login attaches its user, a rejected one leaves
   *  the session as it was, a logout removes it. */
  datatype Step = LoginStep(result: LoginServlet.LoginResult) | LogoutStep

  function After(session: Option<Session>, steps: seq<Step>): Option<Session>
    decreases |steps|
  {
    if |steps| == 0 then session
    else After(Apply(session, steps[0]), steps[1..])
  }

  function Apply(session: Option<Session>, step: Step): Option<Session>
  {
    match step
    case LoginStep(LoggedIn(u, _)) => Some(Session(Some(u)))
    case LoginStep(Rejected(_)) => session
    case LogoutStep => None
  }

  /** A login step is what LoginServlet.DoPost does to the session: the
   *  session its contract prescribes for a result is the one Apply gives. */
  lemma LoginAnswerIsStep(r: LoginServlet.LoginResult, before: ResponseState, after: ResponseState,
                          session: Option<Session>, session': Option<Session>)
    requires LoginServlet.Answered(r, before, after, session, session')
    ensures session' == Apply(session, LoginStep(r))
  {
  }

  /** A logout step is what LoginServlet.DoGet does to the session. */
  lemma LogoutAnswerIsStep(session: Option<Session>, session': Option<Session>)
    requires session' == None
    ensures session' == Apply(session, LogoutStep)
  {
  }

  predicate StepAttaches(step: Step)
  {
    step.LoginStep? && step.result.LoggedIn?
  }

  /** Whatever happened before, a client whose last step was a logout is
   *  unauthenticated on every path outside the public list. */
  lemma {:induction false} LogoutLocksOut(session: Option<Session>, steps: seq<Step>, path: string)
    requires |steps| > 0 && steps[|steps| - 1] == LogoutStep
    requires !AuthFilter.IsPublic(path)
    ensures AuthFilter.Decide(path, After(session, steps)) == AuthFilter.Unauthenticated
  {
    AfterLogout(session, steps);
  }

  lemma {:induction false} AfterLogout(session: Option<Session>, steps: seq<Step>)
    requires |steps| > 0 && steps[|steps| - 1] == LogoutStep
    ensures After(session, steps) == None
    decreases |steps|
  {
    if |steps| > 1 {
      assert steps[1..][|steps[1..]| - 1] == LogoutStep;
      AfterLogout(Apply(session, steps[0]), steps[1..]);
    }
  }

  /** A client that never logged in successfully and started without a
   *  user holds none: the gateway refuses it as unauthenticated on every
   *  protected path. */
  lemma {:induction false} NoLoginNoAccess(steps: seq<Step>, path: string)
    requires forall k | 0 <= k < |steps| :: !StepAttaches(steps[k])
    requires !AuthFilter.IsPublic(path)
    ensures AuthFilter.Decide(path, After(None, steps)) == AuthFilter.Unauthenticated
    decreases |steps|
  {
    if |steps| > 0 {
      assert forall k | 0 <= k < |steps[1..]| :: steps[1..][k] == steps[k + 1];
      assert After(None, steps) == After(None, steps[1..]);
      NoLoginNoAccess(steps[1..], path);
    }
  }
}
