/** Login and logout: the credential check that attaches a user to the
 *  session, and the invalidation that removes it. */
module LoginServlet {
  import opened JavaLang
  import opened Http
  import opened Store
  import Validator
  import PasswordUtil
  import AlertUtil
  import AuthFilter

  const InvalidAction := "Invalid action"
  const AllFieldsRequired := "All fields are required"
  const InvalidPhoneFormat := "Invalid phone number format"
  const InvalidCredentials := "Invalid credentials or role mismatch"

  datatype LoginResult =
    | Rejected(message: string)
    | LoggedIn(user: User, needsRegistration: Option<bool>)

  /** The session bean built from a users row. */
  function UserOf(row: UserRow): User
  {
    User(row.id, row.fullName, row.phone, row.role, row.status)
  }

  /** The decision handleLogin takes, as a function of its parameters and
   *  of the tables it reads. */
  function Login(p: PasswordUtil.Primitives, users: map<string, UserRow>, providerDetails: map<int, string>,
                 phone: Option<string>, password: Option<string>, role: Option<string>): LoginResult
  {
    if phone.None? || password.None? || role.None? || IsBlank(phone.value) || IsBlank(password.value) then
      Rejected(AllFieldsRequired)
    else if !Validator.IsValidPhone(phone) then
      Rejected(InvalidPhoneFormat)
    else
      Authenticate(p, users, providerDetails, Validator.FormatPhone(phone).value, password.value, role.value)
  }

  /** The lookup by (normalised phone, role) and the password check. */
  function Authenticate(p: PasswordUtil.Primitives, users: map<string, UserRow>, providerDetails: map<int, string>,
                        key: string, password: string, role: string): LoginResult
  {
    match FindUser(users, key, role)
    case None => Rejected(InvalidCredentials)
    case Some(row) =>
      if !PasswordUtil.VerifyPassword(p, Some(password), Some(row.password)) then Rejected(InvalidCredentials)
      else
        var needs := if role == "Provider" then Some(row.id !in providerDetails) else None;
        LoggedIn(UserOf(row), needs)
  }

  /** doPost: the action dispatch in front of handleLogin. */
  function Attempt(p: PasswordUtil.Primitives, users: map<string, UserRow>, providerDetails: map<int, string>,
                   params: map<string, string>): LoginResult
  {
    if ParamOf(params, "action") != Some("login") then Rejected(InvalidAction)
    else Login(p, users, providerDetails, ParamOf(params, "phone"), ParamOf(params, "password"), ParamOf(params, "role"))
  }

  /** What the response and the session hold after an attempt. */
  predicate Answered(r: LoginResult, before: ResponseState, after: ResponseState,
                     sessionBefore: Option<Session>, sessionAfter: Option<Session>)
  {
    match r
    case Rejected(m) =>
      sessionAfter == sessionBefore &&
      after == WithJson(before, Alert(AlertUtil.MessageEnvelope(false, Some(m))))
    case LoggedIn(u, needs) =>
      sessionAfter == Some(Session(Some(u))) &&
      after == WithJson(before, LoginReply(u, needs))
  }

  /** doPost with handleLogin. */
  method DoPost(req: Request, resp: HttpResponse, db: Database, p: PasswordUtil.Primitives)
    modifies req, resp
    ensures Answered(Attempt(p, db.users, db.providerDetails, req.params),
                     old(resp.State()), resp.State(), old(req.session), req.session)
  {
    var action := req.Parameter("action");
    if action != Some("login") {
      AlertUtil.SendError(resp, Some(InvalidAction));
      return;
    }
    var phone := req.Parameter("phone");
    var password := req.Parameter("password");
    var role := req.Parameter("role");
    if phone.None? || password.None? || role.None? || IsBlank(phone.value) || IsBlank(password.value) {
      AlertUtil.SendError(resp, Some(AllFieldsRequired));
      return;
    }
    if !Validator.IsValidPhone(phone) {
      AlertUtil.SendError(resp, Some(InvalidPhoneFormat));
      return;
    }
    phone := Validator.FormatPhone(phone);
    var row := FindUser(db.users, phone.value, role.value);
    if row.None? {
      AlertUtil.SendError(resp, Some(InvalidCredentials));
      return;
    }
    if !PasswordUtil.VerifyPassword(p, password, Some(row.value.password)) {
      AlertUtil.SendError(resp, Some(InvalidCredentials));
      return;
    }
    var user := UserOf(row.value);
    req.SetSessionUser(user);
    var needs: Option<bool> := None;
    if role.value == "Provider" {
      needs := Some(user.id !in db.providerDetails);
    }
    resp.SetContentType(JsonContentType);
    resp.SetCharacterEncoding(Utf8);
    resp.Write(LoginReply(user, needs));
  }

  /** doGet: logout. Afterwards the gateway refuses every non-public path. */
  method DoGet(req: Request, resp: HttpResponse)
    modifies req, resp
    ensures req.session == None
    ensures resp.State() == Redirected(old(resp.State()), req.contextPath + AuthFilter.LoginPage)
    ensures forall path :: !AuthFilter.IsPublic(path) ==>
      AuthFilter.Decide(path, req.session) == AuthFilter.Unauthenticated
  {
    req.InvalidateSession();
    resp.SendRedirect(req.contextPath + AuthFilter.LoginPage);
  }

  // ---------------------------------------------------------------------
  // Properties of the decision

  /** The user is attached only after the password verifies against the
   *  row stored under the normalised phone with the requested role, and
   *  the user carries that row's fields. */
  lemma LoggedInOnlyAfterVerify(p: PasswordUtil.Primitives, users: map<string, UserRow>,
                                providerDetails: map<int, string>,
                                phone: Option<string>, password: Option<string>, role: Option<string>)
    requires KeyedByPhone(users)
    ensures Login(p, users, providerDetails, phone, password, role).LoggedIn? ==>
      && Validator.IsValidPhone(phone) && password.Some? && role.Some?
      && var key := Validator.FormatPhone(phone).value;
      && key in users && users[key].role == role.value
      && PasswordUtil.VerifyPassword(p, password, Some(users[key].password))
      && Login(p, users, providerDetails, phone, password, role).user == UserOf(users[key])
      && Login(p, users, providerDetails, phone, password, role).user.phone == key
  {
    var r := Login(p, users, providerDetails, phone, password, role);
    if r.LoggedIn? {
      var key := Validator.FormatPhone(phone).value;
      assert FindUser(users, key, role.value).Some?;
    }
  }

  /** An unknown (phone, role) pair and a wrong password get the same
   *  answer; that answer is given exactly when the input is well formed
   *  but no stored row both matches and verifies. */
  lemma SameAnswerForUnknownUserAndWrongPassword(p: PasswordUtil.Primitives, users: map<string, UserRow>,
                                                 providerDetails: map<int, string>,
                                                 phone: Option<string>, password: Option<string>, role: Option<string>)
    requires phone.Some? && password.Some? && role.Some?
    requires !IsBlank(phone.value) && !IsBlank(password.value) && Validator.IsValidPhone(phone)
    ensures var key := Validator.FormatPhone(phone).value;
      Login(p, users, providerDetails, phone, password, role) == Rejected(InvalidCredentials) <==>
        !(key in users && users[key].role == role.value &&
          PasswordUtil.VerifyPassword(p, password, Some(users[key].password)))
  {
  }

  /** The required-field test comes first and covers a missing field or a
   *  blank phone or password; the role is only required to be present.
   *  The phone format is checked next. */
  lemma ValidationOrder(p: PasswordUtil.Primitives, users: map<string, UserRow>,
                        providerDetails: map<int, string>,
                        phone: Option<string>, password: Option<string>, role: Option<string>)
    ensures var r := Login(p, users, providerDetails, phone, password, role);
      var missing := phone.None? || password.None? || role.None? || IsBlank(phone.value) || IsBlank(password.value);
      && (r == Rejected(AllFieldsRequired) <==> missing)
      && (r == Rejected(InvalidPhoneFormat) <==> !missing && !Validator.IsValidPhone(phone))
  {
  }

  /** needsRegistration is present only for the role "Provider", and then
   *  says whether the provider has no provider_details row. */
  lemma NeedsRegistrationOnlyForProviders(p: PasswordUtil.Primitives, users: map<string, UserRow>,
                                          providerDetails: map<int, string>,
                                          phone: Option<string>, password: Option<string>, role: Option<string>)
    ensures var r := Login(p, users, providerDetails, phone, password, role);
      r.LoggedIn? ==>
        && r.user.role == role.value
        && (r.needsRegistration.Some? <==> role.value == "Provider")
        && (r.needsRegistration.Some? ==> r.needsRegistration.value == (r.user.id !in providerDetails))
  {
  }

  /** The decision sees a valid phone only through its normalised key. */
  lemma LoginDependsOnKey(p: PasswordUtil.Primitives, users: map<string, UserRow>,
                          providerDetails: map<int, string>, a: string, b: string,
                          password: Option<string>, role: Option<string>)
    requires Validator.IsValidPhone(Some(a)) && Validator.IsValidPhone(Some(b))
    requires Validator.FormatPhone(Some(a)) == Validator.FormatPhone(Some(b))
    ensures Login(p, users, providerDetails, Some(a), password, role) ==
            Login(p, users, providerDetails, Some(b), password, role)
  {
    assert !IsBlank(a) && !IsBlank(b);
  }

  /** The international and local spellings of a number log in alike. */
  lemma PhoneSpellingsLogInAlike(p: PasswordUtil.Primitives, users: map<string, UserRow>,
                                 providerDetails: map<int, string>, d: string,
                                 password: Option<string>, role: Option<string>)
    requires |d| == 9 && AllDigits(d) && (d[0] == '9' || d[0] == '7')
    ensures Login(p, users, providerDetails, Some("+251" + d), password, role) ==
            Login(p, users, providerDetails, Some("0" + d), password, role)
  {
    Validator.InternationalAndLocalShareKey(d);
    LoginDependsOnKey(p, users, providerDetails, "+251" + d, "0" + d, password, role);
  }
}
