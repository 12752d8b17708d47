/** Account creation: the validation chain, the duplicate check on the
 *  normalised phone, the stored credential record, the status rule and the
 *  welcome notification for providers. */
module SignupServlet {
  import opened JavaLang
  import opened Http
  import opened Store
  import Validator
  import PasswordUtil
  import AlertUtil

  const InvalidAction := "Invalid action"
  const AllFieldsRequired := "All fields are required"
  const InvalidPhoneFormat := "Invalid phone number format. Use 09XXXXXXXX or +251XXXXXXXXX"
  const WeakPassword := "Password must be at least 6 characters with uppercase, lowercase, and number"
  const AlreadyRegistered := "This phone number is already registered"
  const WelcomePrefix := "Welcome to Ethiopian Skill Match System! "
  const PendingNotice := "Your account is pending admin approval."
  const VerifiedNotice := "Your account has been auto-verified. Please complete your profile."

  /** The required-field test: a parameter is absent, or the name, phone or
   *  password is blank. The account type is only required to be present. */
  predicate FieldsMissing(fullName: Option<string>, phone: Option<string>,
                          password: Option<string>, accountType: Option<string>)
  {
    fullName.None? || phone.None? || password.None? || accountType.None? ||
    IsBlank(fullName.value) || IsBlank(phone.value) || IsBlank(password.value)
  }

  /** The checks of handleSignup in their order; the message of the first
   *  that fails, or None when the account may be created. */
  function SignupCheck(users: map<string, UserRow>, fullName: Option<string>, phone: Option<string>,
                       password: Option<string>, accountType: Option<string>): Option<string>
  {
    if FieldsMissing(fullName, phone, password, accountType) then Some(AllFieldsRequired)
    else if !Validator.IsValidPhone(phone) then Some(InvalidPhoneFormat)
    else if !Validator.IsValidPassword(password) then Some(WeakPassword)
    else if Validator.FormatPhone(phone).value in users then Some(AlreadyRegistered)
    else None
  }

  /** The status written with the new row: only a Seeker starts verified. */
  function InitialStatus(accountType: string): (s: string)
    ensures s == "Verified" <==> accountType == "Seeker"
    ensures s == "Verified" || s == "Pending"
  {
    if accountType == "Seeker" then "Verified" else "Pending"
  }

  /** The status after the auto-verify step, which upgrades providers only. */
  function FinalStatus(accountType: string, autoVerify: bool): (s: string)
    ensures s == "Verified" <==> accountType == "Seeker" || (accountType == "Provider" && autoVerify)
    ensures s == "Verified" || s == "Pending"
  {
    if accountType == "Provider" && autoVerify then "Verified" else InitialStatus(accountType)
  }

  /** The notification text sent to a new provider. */
  function WelcomeMessage(status: string): (m: string)
    ensures StartsWith(m, WelcomePrefix)
    ensures m[|WelcomePrefix|..] == (if status == "Pending" then PendingNotice else VerifiedNotice)
  {
    WelcomePrefix + (if status == "Pending" then PendingNotice else VerifiedNotice)
  }

  /** The four signup fields as read from the request. */
  datatype Form = Form(fullName: Option<string>, phone: Option<string>,
                       password: Option<string>, accountType: Option<string>)

  function FormOf(params: map<string, string>): Form
  {
    Form(ParamOf(params, "fullName"), ParamOf(params, "phone"), ParamOf(params, "password"),
         ParamOf(params, "accountType"))
  }

  function Check(users: map<string, UserRow>, f: Form): Option<string>
  {
    SignupCheck(users, f.fullName, f.phone, f.password, f.accountType)
  }

  /** doPost with handleSignup. The result is the exception that escapes,
   *  which only a missing digest algorithm raises; the auto-verify setting
   *  is given as a parameter. */
  method DoPost(req: Request, resp: HttpResponse, db: Database, p: PasswordUtil.Primitives,
                random: seq<byte>, autoVerify: bool) returns (thrown: Option<JavaException>)
    requires db.Valid() && |random| == PasswordUtil.SaltLength
    modifies db, resp
    ensures db.Valid()
    ensures ParamOf(req.params, "action") != Some("signup") ==>
      thrown.None? && unchanged(db) &&
      resp.State() == WithJson(old(resp.State()), Alert(AlertUtil.MessageEnvelope(false, Some(InvalidAction))))
    ensures var f := FormOf(req.params);
      ParamOf(req.params, "action") == Some("signup") && Check(old(db.users), f).Some? ==>
        thrown.None? && unchanged(db) &&
        resp.State() == WithJson(old(resp.State()), Alert(AlertUtil.MessageEnvelope(false, Check(old(db.users), f))))
    ensures var f := FormOf(req.params);
      ParamOf(req.params, "action") == Some("signup") && Check(old(db.users), f).None? ==>
        Created(old(db.users), old(db.providerDetails), old(db.notifications), old(db.nextUserId), old(resp.State()),
                db.users, db.providerDetails, db.notifications, db.nextUserId, resp.State(), thrown,
                p, random, autoVerify, Trim(f.fullName.value), Validator.FormatPhone(f.phone).value,
                f.password.value, f.accountType.value)
  {
    thrown := None;
    var action := req.Parameter("action");
    if action != Some("signup") {
      AlertUtil.SendError(resp, Some(InvalidAction));
      return;
    }
    var fullName := req.Parameter("fullName");
    var phone := req.Parameter("phone");
    var password := req.Parameter("password");
    var accountType := req.Parameter("accountType");
    if FieldsMissing(fullName, phone, password, accountType) {
      AlertUtil.SendError(resp, Some(AllFieldsRequired));
      return;
    }
    if !Validator.IsValidPhone(phone) {
      AlertUtil.SendError(resp, Some(InvalidPhoneFormat));
      return;
    }
    if !Validator.IsValidPassword(password) {
      AlertUtil.SendError(resp, Some(WeakPassword));
      return;
    }
    phone := Validator.FormatPhone(phone);
    if phone.value in db.users {
      AlertUtil.SendError(resp, Some(AlreadyRegistered));
      return;
    }
    thrown := CreateAccount(resp, db, p, random, autoVerify, Trim(fullName.value), phone.value,
                            password.value, accountType.value);
  }

  /** What creating the account does: with the digest algorithm missing,
   *  the exception escapes and nothing changes; otherwise one row is
   *  inserted under the key with the next id, the stored hash and the final
   *  status, a provider gets the welcome notification, and the reply carries
   *  the id and status. */
  ghost predicate Created(users: map<string, UserRow>, details: map<int, string>, notes: seq<(int, string)>,
                          next: int, st: ResponseState,
                          users': map<string, UserRow>, details': map<int, string>, notes': seq<(int, string)>,
                          next': int, st': ResponseState, thrown: Option<JavaException>,
                          p: PasswordUtil.Primitives, random: seq<byte>, autoVerify: bool,
                          fullName: string, key: string, password: string, accountType: string)
  {
    if !p.digestAvailable then
      thrown == Some(JavaLang.Runtime(NoSuchAlgorithm)) &&
      users' == users && details' == details && notes' == notes && next' == next && st' == st
    else
      var status := FinalStatus(accountType, autoVerify);
      && thrown.None?
      && users' == users[key := UserRow(next, fullName, key, PasswordUtil.StoredHash(p, random, password),
                                        accountType, status)]
      && next' == next + 1
      && details' == details
      && notes' == notes + (if accountType == "Provider" then [(next, WelcomeMessage(status))] else [])
      && st' == WithJson(st, SignupReply(next, status))
  }

  /** The part of handleSignup after the checks: hash, insert, auto-verify,
   *  notify, reply. */
  method CreateAccount(resp: HttpResponse, db: Database, p: PasswordUtil.Primitives, random: seq<byte>,
                       autoVerify: bool, fullName: string, key: string, password: string, accountType: string)
    returns (thrown: Option<JavaException>)
    requires db.Valid() && key !in db.users && |random| == PasswordUtil.SaltLength
    modifies db, resp
    ensures db.Valid()
    ensures Created(old(db.users), old(db.providerDetails), old(db.notifications), old(db.nextUserId),
                    old(resp.State()), db.users, db.providerDetails, db.notifications, db.nextUserId,
                    resp.State(), thrown, p, random, autoVerify, fullName, key, password, accountType)
  {
    var status := InitialStatus(accountType);
    var hashed := PasswordUtil.HashPassword(p, Some(password), random);
    if hashed.Thrown? {
      return Some(hashed.exception);
    }
    thrown := None;
    var userId, status' := InsertAccount(db, autoVerify, fullName, key, hashed.value, accountType);
    if accountType == "Provider" {
      db.SendNotification(userId, WelcomeMessage(status'));
    }
    resp.SetContentType(JsonContentType);
    resp.SetCharacterEncoding(Utf8);
    resp.Write(SignupReply(userId, status'));
  }

  /** The insert with the initial status, followed for a provider under
   *  auto-verification by the status update; the row ends with the final
   *  status. */
  method InsertAccount(db: Database, autoVerify: bool, fullName: string, key: string, hash: string,
                       accountType: string) returns (userId: int, status: string)
    requires db.Valid() && key !in db.users
    modifies db
    ensures db.Valid()
    ensures userId == old(db.nextUserId) && db.nextUserId == userId + 1
    ensures status == FinalStatus(accountType, autoVerify)
    ensures db.users == old(db.users)[key := UserRow(userId, fullName, key, hash, accountType, status)]
    ensures db.providerDetails == old(db.providerDetails) && db.notifications == old(db.notifications)
  {
    status := InitialStatus(accountType);
    userId := db.InsertUser(fullName, key, hash, accountType, status);
    if accountType == "Provider" && autoVerify {
      ghost var row := UserRow(userId, fullName, key, hash, accountType, status);
      SetStatusOfFreshRow(db.users, key, userId, "Verified");
      db.SetUserStatus(userId, "Verified");
      status := "Verified";
      assert db.users == old(db.users)[key := row][key := row.(status := status)];
    }
  }

  /** Updating the status by user id touches only the row holding that id
   *  when ids are distinct. */
  lemma SetStatusOfFreshRow(users: map<string, UserRow>, key: string, id: int, status: string)
    requires key in users && users[key].id == id
    requires forall ph, qh :: ph in users && qh in users && ph != qh ==> users[ph].id != users[qh].id
    ensures (map ph | ph in users :: if users[ph].id == id then users[ph].(status := status) else users[ph])
            == users[key := users[key].(status := status)]
  {
  }

  // ---------------------------------------------------------------------
  // Properties of the checks

  /** The checks let an account through exactly when the name and account
   *  type are present, the name is not blank, the phone and password pass
   *  their rules and the normalised phone is not yet registered. */
  lemma SignupAcceptsExactly(users: map<string, UserRow>, fullName: Option<string>, phone: Option<string>,
                             password: Option<string>, accountType: Option<string>)
    ensures SignupCheck(users, fullName, phone, password, accountType).None? <==>
      && fullName.Some? && accountType.Some? && !IsBlank(fullName.value)
      && Validator.IsValidPhone(phone) && Validator.IsValidPassword(password)
      && Validator.FormatPhone(phone).value !in users
  {
    if phone.Some? && Validator.IsValidPhone(phone) {
      assert |Trim(phone.value)| >= 10;
    }
    if password.Some? {
      Validator.ValidPasswordNotBlank(password.value);
    }
  }

  /** The first failing check decides the message: each message implies
   *  that every earlier check passed. */
  lemma FirstFailureWins(users: map<string, UserRow>, fullName: Option<string>, phone: Option<string>,
                         password: Option<string>, accountType: Option<string>)
    ensures var r := SignupCheck(users, fullName, phone, password, accountType);
      var missing := FieldsMissing(fullName, phone, password, accountType);
      && (r == Some(AllFieldsRequired) <==> missing)
      && (r == Some(InvalidPhoneFormat) <==> !missing && !Validator.IsValidPhone(phone))
      && (r == Some(WeakPassword) <==>
            !missing && Validator.IsValidPhone(phone) && !Validator.IsValidPassword(password))
      && (r == Some(AlreadyRegistered) <==>
            !missing && Validator.IsValidPhone(phone) && Validator.IsValidPassword(password) &&
            Validator.FormatPhone(phone).value in users)
  {
  }

  /** The account type is only checked for presence: any value, "Admin"
   *  included, gets the same verdict. */
  lemma AccountTypeNotChecked(users: map<string, UserRow>, fullName: Option<string>, phone: Option<string>,
                              password: Option<string>, t: string, t': string)
    ensures SignupCheck(users, fullName, phone, password, Some(t)) ==
            SignupCheck(users, fullName, phone, password, Some(t'))
  {
  }

  /** Two spellings of one number are one account: after either is
   *  registered the other is refused. */
  lemma DuplicateAcrossSpellings(users: map<string, UserRow>, d: string, fullName: Option<string>,
                                 password: Option<string>, accountType: Option<string>)
    requires |d| == 9 && AllDigits(d) && d[0] == '9'
    requires "0" + d in users
    ensures SignupCheck(users, fullName, Some("+251" + d), password, accountType) != None
  {
    Validator.InternationalAndLocalShareKey(d);
  }
}
