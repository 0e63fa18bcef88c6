/**
 * The authentication endpoints (apps/controllers/auth_controller.py): what
 * each handler checks before it calls the service, and the HTTP status it
 * picks from the service's answer. The body is parsed before any `try`, so
 * an exception while validating or reading fields escapes the view; an
 * exception inside the service call is caught and answered with 500.
 */
module AuthController {
  import opened Common
  import opened Http
  import opened AuthValidation
  import opened AuthService
  import U = UserModel
  import opened Store

  const Conflicting := ["đã tồn tại", "đã được sử dụng"]
  const DisabledMark := "vô hiệu hóa"
  const EmailNotSent := "Không thể gửi email. Vui lòng thử lại sau."
  const ResetLinkSent := "Link đặt lại mật khẩu đã được gửi đến email của bạn. Vui lòng kiểm tra hộp thư."

  /** `{'user': user_to_dict(user), 'token': token}`; `user_to_dict(None)` raises, inside the `try`. */
  function Credentials(status: nat, a: AuthReply): Response {
    if a.user.None? then ServerError(AttributeError)
    else Done(status, a.message,
              Obj(map["user" := Obj(UserToDict(a.user.value)), "token" := (if a.token.Some? then Str(a.token.value) else Null)]))
  }

  // ------------------------------------------------------------ register

  datatype RegisterArgs = RegisterArgs(username: string, email: string, fullName: string, password: Value)

  /** Lines before the `try` of `register()`: validation, then the three stripped fields and the raw password. */
  function PrepareRegister(data: Option<Body>): (p: Prepared<RegisterArgs>)
    ensures p.Call? ==> data.Some? && ValidateRegisterData(data).Ret? && ValidateRegisterData(data).value.ok
    ensures p.Call? ==> && data.value["username"].Str? && p.args.username == Strip(data.value["username"].s)
                        && data.value["email"].Str? && p.args.email == Strip(data.value["email"].s)
                        && data.value["full_name"].Str? && p.args.fullName == Strip(data.value["full_name"].s)
                        && p.args.password == data.value["password"]
  {
    match Screen(ValidateRegisterData(data))
    case Some(r) => Answer(r)
    case None =>
      match StripField(data, "username")
      case Raise(e) => Answer(Unhandled(e))
      case Ret(username) =>
        match StripField(data, "email")
        case Raise(e) => Answer(Unhandled(e))
        case Ret(email) =>
          match StripField(data, "full_name")
          case Raise(e) => Answer(Unhandled(e))
          case Ret(fullName) =>
            match RawField(data, "password")
            case Raise(e) => Answer(Unhandled(e))
            case Ret(password) => Call(RegisterArgs(username, email, fullName, password))
  }

  /** `409 if "đã tồn tại" in message or "đã được sử dụng" in message else 400` */
  function RegisterStatus(message: string): nat {
    if Contains(message, Conflicting[0]) || Contains(message, Conflicting[1]) then 409 else 400
  }

  /** The response `register()` builds from the service's answer. */
  function RegisterAnswer(a: AuthReply): Response {
    if !a.success then Fail(RegisterStatus(a.message), a.message) else Credentials(201, a)
  }

  /** `register()` on the tables `t`, with the service's hidden inputs as in `RegisterReply`. */
  function RegisterHandled(t: Tables, c: Codec, data: Option<Body>, salt: string, newId: string,
                           stamp: DateTime, now: int, fault: bool, errText: string): Response {
    match PrepareRegister(data)
    case Answer(r) => r
    case Call(a) =>
      Caught(RegisterReply(t, c, a.username, a.email, a.fullName, a.password, salt, newId, stamp, now, fault, errText),
             RegisterAnswer)
  }

  /** The tables after `register()`: untouched unless the service is called. */
  function RegisterHandledTables(t: Tables, data: Option<Body>, salt: string, newId: string, stamp: DateTime, fault: bool): Tables {
    match PrepareRegister(data)
    case Answer(_) => t
    case Call(a) => RegisterTables(t, a.username, a.email, a.fullName, a.password, salt, newId, stamp, fault)
  }

  /** `AuthController.register()` */
  method Register(db: Database, s: Session, c: Codec, data: Option<Body>, salt: string, newId: string,
                  stamp: DateTime, now: int, fault: bool, errText: string) returns (resp: Response)
    requires db.Valid()
    modifies db, s
    ensures db.Valid()
    ensures resp == RegisterHandled(old(db.Snapshot()), c, data, salt, newId, stamp, now, fault, errText)
    ensures db.Snapshot() == RegisterHandledTables(old(db.Snapshot()), data, salt, newId, stamp, fault)
    ensures !Succeeded(resp) ==> unchanged(s)
  {
    ghost var t := db.Snapshot();
    var p := PrepareRegister(data);
    if p.Answer? {
      return p.response;
    }
    var a := p.args;
    var r := RegisterUser(db, s, c, a.username, a.email, a.fullName, a.password, salt, newId, stamp, now, fault, errText);
    resp := Caught(r, RegisterAnswer);
    RegisterCalled(t, c, data, a, salt, newId, stamp, now, fault, errText);
    if r.Ret? && r.value.success {
      SuccessfulRegisterHasUser(t, c, a.username, a.email, a.fullName, a.password, salt, newId, stamp, now, fault, errText);
      SuccessAnswered(r);
    }
  }

  /** A successful reply that carries the account is answered with success. */
  lemma SuccessAnswered(r: Py<AuthReply>)
    requires r.Ret? && r.value.success && r.value.user.Some?
    ensures Succeeded(Caught(r, RegisterAnswer))
  {
    assert Caught(r, RegisterAnswer) == Credentials(201, r.value);
  }

  /** Once the request reaches the service, `register()` answers with the service's reply and its tables. */
  lemma RegisterCalled(t: Tables, c: Codec, data: Option<Body>, a: RegisterArgs, salt: string, newId: string,
                       stamp: DateTime, now: int, fault: bool, errText: string)
    requires PrepareRegister(data) == Call(a)
    ensures RegisterHandled(t, c, data, salt, newId, stamp, now, fault, errText)
            == Caught(RegisterReply(t, c, a.username, a.email, a.fullName, a.password, salt, newId, stamp, now, fault, errText), RegisterAnswer)
    ensures RegisterHandledTables(t, data, salt, newId, stamp, fault)
            == RegisterTables(t, a.username, a.email, a.fullName, a.password, salt, newId, stamp, fault)
  {
  }

  /** A successful registration carries the new account. */
  lemma SuccessfulRegisterHasUser(t: Tables, c: Codec, username: string, email: string, fullName: string,
                                  password: Value, salt: string, newId: string, stamp: DateTime, now: int,
                                  fault: bool, errText: string)
    ensures var r := RegisterReply(t, c, username, email, fullName, password, salt, newId, stamp, now, fault, errText);
      r.Ret? && r.value.success ==> r.value.user.Some?
  {
  }

  // ------------------------------------------------------------ login

  datatype LoginArgs = LoginArgs(username: string, password: Value)

  /** Lines before the `try` of `login()`: validation, the stripped username and the raw password. */
  function PrepareLogin(data: Option<Body>): (p: Prepared<LoginArgs>)
    ensures p.Call? ==> data.Some? && ValidateLoginData(data).Ret? && ValidateLoginData(data).value.ok
    ensures p.Call? ==> && data.value["username"].Str? && p.args.username == Strip(data.value["username"].s)
                        && p.args.password == data.value["password"]
  {
    match Screen(ValidateLoginData(data))
    case Some(r) => Answer(r)
    case None =>
      match StripField(data, "username")
      case Raise(e) => Answer(Unhandled(e))
      case Ret(username) =>
        match RawField(data, "password")
        case Raise(e) => Answer(Unhandled(e))
        case Ret(password) => Call(LoginArgs(username, password))
  }

  /** `403 if "vô hiệu hóa" in message else 401` */
  function LoginStatus(message: string): nat {
    if Contains(message, DisabledMark) then 403 else 401
  }

  function LoginAnswer(a: AuthReply): Response {
    if !a.success then Fail(LoginStatus(a.message), a.message) else Credentials(200, a)
  }

  /** `login()` against the accounts `users` at time `now`. */
  function LoginHandled(users: seq<U.User>, c: Codec, data: Option<Body>, now: int): Response {
    match PrepareLogin(data)
    case Answer(r) => r
    case Call(a) => Caught(LoginReply(users, c, a.username, a.password, now), LoginAnswer)
  }

  /** `AuthController.login()` */
  method Login(db: Database, s: Session, c: Codec, data: Option<Body>, now: int) returns (resp: Response)
    modifies s
    ensures resp == LoginHandled(db.users, c, data, now)
    ensures !Succeeded(resp) ==> unchanged(s)
  {
    var p := PrepareLogin(data);
    if p.Answer? {
      return p.response;
    }
    var r := LoginUser(db, s, c, p.args.username, p.args.password, now);
    resp := Caught(r, LoginAnswer);
  }

  // ------------------------------------------------------------ logout

  /** `AuthController.logout(current_user)`: the service's pair, always with 200. */
  method Logout(s: Session) returns (resp: Response)
    modifies s
    ensures resp == Json(200, map["success" := Bool(true), "message" := Str(LoggedOut)])
    ensures s.entries == map[]
  {
    var success, message := LogoutUser(s);
    resp := Json(200, map["success" := Bool(success), "message" := Str(message)]);
  }

  // ------------------------------------------------------------ password reset

  /**
   * `request_reset_password()`. The reset validator and service are not
   * part of this model: `validate` is the validator and `service` gives
   * `(success, message)` for the stripped email; `emailSent` is what the
   * mail service reports.
   */
  function RequestResetPassword(data: Option<Body>, validate: Option<Body> -> Py<Verdict>,
                                service: string -> Py<(bool, string)>, emailSent: bool): (r: Response)
    ensures Screen(validate(data)).Some? ==> r == Screen(validate(data)).value
    ensures Succeeded(r) <==> r == DoneNoData(200, ResetLinkSent)
    ensures Succeeded(r) ==> validate(data).Ret? && validate(data).value.ok && emailSent
  {
    match Screen(validate(data))
    case Some(r) => r
    case None =>
      match StripField(data, "email")
      case Raise(e) => Unhandled(e)
      case Ret(email) =>
        match service(email)
        case Raise(e) => ServerError(e)
        case Ret((ok, m)) =>
          if !ok then Fail(if Contains(m, DisabledMark) then 403 else 404, m)
          else if !emailSent then Fail(500, EmailNotSent)
          else DoneNoData(200, ResetLinkSent)
  }

  /**
   * `reset_password()`: `service` gives `(success, message, new_token)` for
   * the stripped token and the raw new password.
   */
  function ResetPassword(data: Option<Body>, validate: Option<Body> -> Py<Verdict>,
                         service: (string, Value) -> Py<(bool, string, Value)>): (r: Response)
    ensures Screen(validate(data)).Some? ==> r == Screen(validate(data)).value
    ensures Succeeded(r) ==>
      && validate(data).Ret? && validate(data).value.ok
      && r.status == 200 && "data" in r.body && r.body["data"].Obj? && r.body["data"].fields.Keys == {"token"}
  {
    match Screen(validate(data))
    case Some(r) => r
    case None =>
      match StripField(data, "token")
      case Raise(e) => Unhandled(e)
      case Ret(token) =>
        match RawField(data, "new_password")
        case Raise(e) => Unhandled(e)
        case Ret(password) =>
          match service(token, password)
          case Raise(e) => ServerError(e)
          case Ret((ok, m, newToken)) =>
            if !ok then Fail(if Contains(m, DisabledMark) then 403 else 400, m)
            else Done(200, m, Obj(map["token" := newToken]))
  }

  // ------------------------------------------------------------ properties

  /** A refused validation is answered with 400 and its message, and the service is never consulted. */
  lemma ValidationFirst(data: Option<Body>, m: string, t: Tables, users: seq<U.User>, c: Codec, salt: string, newId: string,
                        stamp: DateTime, now: int, fault: bool, errText: string)
    ensures ValidateRegisterData(data) == Ret(Verdict(false, m)) ==>
      && RegisterHandled(t, c, data, salt, newId, stamp, now, fault, errText) == Fail(400, m)
      && RegisterHandledTables(t, data, salt, newId, stamp, fault) == t
    ensures ValidateLoginData(data) == Ret(Verdict(false, m)) ==> LoginHandled(users, c, data, now) == Fail(400, m)
  {
  }

  /** The same for the reset endpoints, whatever their services would answer. */
  lemma ResetValidationFirst(data: Option<Body>, m: string, validate: Option<Body> -> Py<Verdict>,
                             s1: string -> Py<(bool, string)>, s2: string -> Py<(bool, string)>, sent1: bool, sent2: bool,
                             r1: (string, Value) -> Py<(bool, string, Value)>, r2: (string, Value) -> Py<(bool, string, Value)>)
    requires validate(data) == Ret(Verdict(false, m))
    ensures RequestResetPassword(data, validate, s1, sent1) == RequestResetPassword(data, validate, s2, sent2) == Fail(400, m)
    ensures ResetPassword(data, validate, r1) == ResetPassword(data, validate, r2) == Fail(400, m)
  {
  }

  /** A conflict is 409; a failed insert whose error text has no `đ` is 400. */
  lemma RegisterStatuses(errText: string)
    ensures RegisterStatus(UsernameExists) == 409
    ensures RegisterStatus(EmailInUse) == 409
    ensures 'đ' !in errText ==> RegisterStatus(CreateFailedPrefix + errText) == 400
  {
    assert OccursAt(UsernameExists, Conflicting[0], 9);
    assert OccursAt(EmailInUse, Conflicting[1], 6);
    if 'đ' !in errText {
      assert 'đ' !in CreateFailedPrefix + errText;
      LacksHead(CreateFailedPrefix + errText, Conflicting[0]);
      LacksHead(CreateFailedPrefix + errText, Conflicting[1]);
    }
  }

  /** A disabled account is 403, wrong credentials 401. */
  lemma LoginStatuses()
    ensures LoginStatus(Disabled) == 403
    ensures LoginStatus(BadCredentials) == 401
  {
    assert OccursAt(Disabled, DisabledMark, 16);
    LacksHead(BadCredentials, DisabledMark);
  }

  /**
   * A register request whose fields are read is answered by the service:
   * 409 for a taken username or (username free) a taken email, and 201 with
   * the new account and its token on success.
   */
  lemma RegisterAnswers(t: Tables, c: Codec, data: Option<Body>, salt: string, newId: string,
                        stamp: DateTime, now: int, fault: bool, errText: string)
    requires PrepareRegister(data).Call?
    ensures var a := PrepareRegister(data).args;
      var resp := RegisterHandled(t, c, data, salt, newId, stamp, now, fault, errText);
      && (UsernameTaken(t.users, a.username) ==> resp == Fail(409, UsernameExists))
      && (!UsernameTaken(t.users, a.username) && EmailTaken(t.users, a.email) ==> resp == Fail(409, EmailInUse))
      && (RegisterCheck(t.users, a.username, a.email, a.password) == Ret(None) && !fault
          && Committable(WithUser(t, NewUser(newId, a.username, a.email, a.fullName, U.Bcrypt(salt, a.password.s), stamp))) ==>
            resp == Done(201, Registered, Obj(map[
              "user" := Obj(U.ToDict(NewUser(newId, a.username, a.email, a.fullName, U.Bcrypt(salt, a.password.s), stamp))),
              "token" := Str(CreateToken(c, newId, a.username, now))])))
  {
    RegisterStatuses(errText);
  }

  /**
   * Validation does not look at the type of `full_name`: a non-string
   * `full_name` that passes escapes as AttributeError from `strip()`.
   */
  lemma FullNameTypeUnchecked(d: Body)
    requires ValidateRegisterData(Some(d)) == Ret(Verdict(true, ""))
    requires !d["full_name"].Str?
    ensures RegisterHandled(Tables([], [], [], []), Codec(k => "", s => None), Some(d), "", "", DateTime(0, ""), 0, false, "")
            == Unhandled(AttributeError)
  {
    RegisterAccepted(Some(d));
  }

  /**
   * A login request that is read is answered by the service: 403 for a
   * disabled account and 401 for bad credentials, whether the username is
   * unknown or the password wrong.
   */
  lemma LoginAnswers(users: seq<U.User>, c: Codec, data: Option<Body>, now: int)
    requires PrepareLogin(data).Call?
    ensures var a := PrepareLogin(data).args;
      var resp := LoginHandled(users, c, data, now);
      && (LoginCheck(users, a.username, a.password) == Ret(Refused(Disabled)) ==> resp == Fail(403, Disabled))
      && (LoginCheck(users, a.username, a.password) == Ret(Refused(BadCredentials)) ==> resp == Fail(401, BadCredentials))
      && (!UsernameTaken(users, a.username) ==> resp == Fail(401, BadCredentials))
      && (LoginCheck(users, a.username, a.password).Ret? && LoginCheck(users, a.username, a.password).value.Admitted? ==>
            var u := LoginCheck(users, a.username, a.password).value.user;
            resp == Done(200, LoggedIn, Obj(map["user" := Obj(U.ToDict(u)), "token" := Str(CreateToken(c, u.id, u.username, now))])))
  {
    LoginStatuses();
    var a := PrepareLogin(data).args;
    LoginEnumerationResistant(users, a.username, a.password);
  }

  /**
   * Once a reset request passes validation and its email is read: a
   * refusal is 403 when it mentions a disabled account and 404 otherwise, an
   * unsent email 500, and otherwise 200.
   */
  lemma RequestResetStatuses(data: Option<Body>, validate: Option<Body> -> Py<Verdict>,
                             service: string -> Py<(bool, string)>, emailSent: bool)
    requires Screen(validate(data)).None? && StripField(data, "email").Ret?
    ensures var email := StripField(data, "email").value;
      var resp := RequestResetPassword(data, validate, service, emailSent);
      && (service(email).Raise? ==> resp == ServerError(service(email).exc))
      && (service(email).Ret? && !service(email).value.0 ==>
            Status(resp) == (if Contains(service(email).value.1, DisabledMark) then 403 else 404)
            && MessageOf(resp) == Some(service(email).value.1))
      && (service(email).Ret? && service(email).value.0 ==>
            (Status(resp) == 500 <==> !emailSent) && (Succeeded(resp) <==> emailSent))
  {
  }

  /**
   * Once a reset passes validation and its token and new password are read:
   * a refusal is 403 when it mentions a disabled account and 400 otherwise,
   * and a success is 200 carrying the new token.
   */
  lemma ResetStatuses(data: Option<Body>, validate: Option<Body> -> Py<Verdict>,
                      service: (string, Value) -> Py<(bool, string, Value)>)
    requires Screen(validate(data)).None? && StripField(data, "token").Ret? && RawField(data, "new_password").Ret?
    ensures var reply := service(StripField(data, "token").value, RawField(data, "new_password").value);
      var resp := ResetPassword(data, validate, service);
      && (reply.Raise? ==> resp == ServerError(reply.exc))
      && (reply.Ret? && !reply.value.0 ==>
            Status(resp) == (if Contains(reply.value.1, DisabledMark) then 403 else 400)
            && MessageOf(resp) == Some(reply.value.1) && !Succeeded(resp))
      && (reply.Ret? && reply.value.0 ==>
            resp == Done(200, reply.value.1, Obj(map["token" := reply.value.2])) && Succeeded(resp))
  {
  }
}
