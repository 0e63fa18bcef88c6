/**
 * Accounts, passwords, tokens and the login session
 * (apps/services/auth_service.py). bcrypt and the HS256 signer are kept
 * abstract; the wall clock is the parameter `now`, in seconds.
 */
module AuthService {
  import opened Common
  import U = UserModel
  import opened Store

  const UsernameExists := "Username đã tồn tại"
  const EmailInUse := "Email đã được sử dụng"
  const Registered := "Đăng ký thành công"
  const CreateFailedPrefix := "Lỗi khi tạo user: "
  const BadCredentials := "Username hoặc password không đúng"
  const Disabled := "Tài khoản đã bị vô hiệu hóa"
  const LoggedIn := "Đăng nhập thành công"
  const LoggedOut := "Đăng xuất thành công"
  const Refreshed := "Token đã được làm mới"

  /** `JWT_EXPIRATION_HOURS` = 24, in seconds. */
  const TokenLifetime := 24 * 60 * 60

  // ------------------------------------------------------------ passwords

  /** `hash_password(password)` with the salt `gensalt()` drew; only a string has `encode`. */
  function HashPassword(password: Value, salt: string): (r: Py<U.Digest>)
    ensures r.Ret? <==> password.Str?
    ensures r.Raise? ==> r.exc == AttributeError
    ensures r.Ret? ==> r.value.salt == salt && VerifyPassword(password, r.value) == Ret(true)
  {
    if password.Str? then Ret(U.Bcrypt(salt, password.s)) else Raise(AttributeError)
  }

  /** `verify_password(plain, hashed)`: rehash `plain` with the salt stored in `hashed` and compare. */
  function VerifyPassword(plain: Value, hashed: U.Digest): (r: Py<bool>)
    ensures r.Ret? <==> plain.Str?
    ensures r == Ret(true) <==> plain.Str? && plain.s == hashed.secret
  {
    if plain.Str? then Ret(U.Bcrypt(hashed.salt, plain.s) == hashed) else Raise(AttributeError)
  }

  /** A hash verifies the password it was made from, and no other. */
  lemma HashThenVerify(p: string, q: string, salt: string)
    ensures HashPassword(Str(p), salt).Ret?
    ensures VerifyPassword(Str(q), HashPassword(Str(p), salt).value) == Ret(p == q)
    ensures HashPassword(Str(p), salt).value.secret == p
  {
  }

  // ------------------------------------------------------------ tokens

  /** A JWT payload: `user_id`, `username`, and the `iat` and `exp` NumericDates (RFC 7519 sections 4.1.6, 4.1.4). */
  datatype Claims = Claims(userId: string, username: string, iat: int, exp: int)

  /** HS256 (RFC 7518 section 3.2) under the server's secret key, kept abstract: `sign` encodes, `open` checks the signature. */
  datatype Codec = Codec(sign: Claims -> string, open: string -> Option<Claims>)

  /**
   * A signed payload opens to itself, and a signed token is a non-empty
   * string with no space in it, as the compact serialisation of section 7.1
   * of RFC 7515 (base64url segments joined by dots) always is.
   */
  ghost predicate Sound(c: Codec) {
    forall k: Claims {:trigger c.sign(k)} :: c.open(c.sign(k)) == Some(k) && c.sign(k) != [] && ' ' !in c.sign(k)
  }

  /** The three outcomes of `jwt.decode`: a payload, ExpiredSignatureError, or another InvalidTokenError. */
  datatype Decoded = Valid(claims: Claims) | Expired | Invalid

  /**
   * `jwt.decode(token, SECRET_KEY, algorithms=['HS256'])` at time `now`: a
   * token whose signature does not check is invalid; otherwise it has
   * expired once `exp <= now`.
   */
  function JwtDecode(c: Codec, token: string, now: int): Decoded {
    match c.open(token)
    case None => Invalid
    case Some(k) => if k.exp <= now then Expired else Valid(k)
  }

  /** The payload `create_token` signs at time `now`. */
  function TokenClaims(userId: string, username: string, now: int): Claims {
    Claims(userId, username, now, now + TokenLifetime)
  }

  /** `create_token(user_id, username)` */
  function CreateToken(c: Codec, userId: string, username: string, now: int): (r: string)
    ensures Sound(c) ==> c.open(r) == Some(TokenClaims(userId, username, now)) && r != [] && ' ' !in r
  {
    c.sign(TokenClaims(userId, username, now))
  }

  /** `decode_token(token)`: the payload, or None for any invalid or expired token. */
  function DecodeToken(c: Codec, token: string, now: int): (r: Option<Claims>)
    ensures r.Some? <==> JwtDecode(c, token, now).Valid?
    ensures r.Some? ==> r.value.exp > now
  {
    match JwtDecode(c, token, now)
    case Valid(k) => Some(k)
    case _ => None
  }

  /**
   * A token decodes, until 24 hours after it was issued, to exactly the
   * user id and username it was created for; from then on it has expired.
   */
  lemma TokenRoundTrip(c: Codec, userId: string, username: string, issued: int, now: int)
    requires Sound(c)
    ensures now < issued + TokenLifetime ==>
      DecodeToken(c, CreateToken(c, userId, username, issued), now) == Some(Claims(userId, username, issued, issued + TokenLifetime))
    ensures now >= issued + TokenLifetime ==>
      JwtDecode(c, CreateToken(c, userId, username, issued), now) == Expired
      && DecodeToken(c, CreateToken(c, userId, username, issued), now).None?
  {
    assert c.open(c.sign(TokenClaims(userId, username, issued))) == Some(TokenClaims(userId, username, issued));
  }

  /** `refresh_user_token(user_id, username)`: a new token, with no account lookup, always successful. */
  function RefreshUserToken(c: Codec, userId: string, username: string, now: int): (r: (bool, string, string))
    ensures r.0 && r.1 == Refreshed
    ensures Sound(c) ==> DecodeToken(c, r.2, now) == Some(TokenClaims(userId, username, now))
  {
    (true, Refreshed, CreateToken(c, userId, username, now))
  }

  /** A refreshed token is a token for the same user that is valid for the next 24 hours. */
  lemma RefreshIsFresh(c: Codec, userId: string, username: string, now: int, later: int)
    requires Sound(c) && now <= later < now + TokenLifetime
    ensures RefreshUserToken(c, userId, username, now).0
    ensures DecodeToken(c, RefreshUserToken(c, userId, username, now).2, later) == Some(TokenClaims(userId, username, now))
  {
    TokenRoundTrip(c, userId, username, now, later);
  }

  // ------------------------------------------------------------ serialisation

  /** `user_to_dict(user)` */
  function UserToDict(u: U.User): (d: Body)
    ensures d == U.ToDict(u)
  {
    map[
      "id" := Str(u.id),
      "username" := Str(u.username),
      "email" := Str(u.email),
      "full_name" := Str(u.fullName),
      "is_active" := Bool(u.isActive),
      "created_at" := IsoOrNull(u.createdAt),
      "updated_at" := IsoOrNull(u.updatedAt)]
  }

  // ------------------------------------------------------------ the session

  /** Flask keeps `session.permanent` under this key of the session itself. */
  const PermanentKey := "_permanent"

  /** The request's cookie session. */
  class Session {
    var entries: map<string, Value>

    constructor ()
      ensures entries == map[]
    {
      entries := map[];
    }
  }

  /** The session after `create_session(user)`. */
  function Opened(entries: map<string, Value>, u: U.User): map<string, Value> {
    entries[PermanentKey := Bool(true)]["user_id" := Str(u.id)]["username" := Str(u.username)]["email" := Str(u.email)]
  }

  /**
   * Opening a session marks it permanent and writes exactly the user id,
   * username and email, leaving every other key as it was.
   */
  lemma OpenedWrites(entries: map<string, Value>, u: U.User)
    ensures Opened(entries, u).Keys == entries.Keys + {PermanentKey, "user_id", "username", "email"}
    ensures Opened(entries, u)[PermanentKey] == Bool(true)
    ensures Opened(entries, u)["user_id"] == Str(u.id)
    ensures Opened(entries, u)["username"] == Str(u.username)
    ensures Opened(entries, u)["email"] == Str(u.email)
    ensures forall k :: k in entries && k !in {PermanentKey, "user_id", "username", "email"} ==> Opened(entries, u)[k] == entries[k]
  {
  }

  /** `create_session(user)` */
  method CreateSession(s: Session, u: U.User)
    modifies s
    ensures s.entries == Opened(old(s.entries), u)
  {
    s.entries := s.entries[PermanentKey := Bool(true)];
    s.entries := s.entries["user_id" := Str(u.id)];
    s.entries := s.entries["username" := Str(u.username)];
    s.entries := s.entries["email" := Str(u.email)];
  }

  /** `clear_session()` */
  method ClearSession(s: Session)
    modifies s
    ensures s.entries == map[]
  {
    s.entries := map[];
  }

  // ------------------------------------------------------------ register, login, logout

  /** The `(success, message, user, token)` a register or login answers. */
  datatype AuthReply = AuthReply(success: bool, message: string, user: Option<U.User>, token: Option<string>)

  function Refusal(message: string): AuthReply {
    AuthReply(false, message, None, None)
  }

  predicate UsernameTaken(users: seq<U.User>, username: string) {
    exists i :: 0 <= i < |users| && users[i].username == username
  }

  predicate EmailTaken(users: seq<U.User>, email: string) {
    exists i :: 0 <= i < |users| && users[i].email == email
  }

  /**
   * The checks `register_user` makes before it inserts: the message it
   * refuses with, the exception hashing raises, or None to go on.
   */
  function RegisterCheck(users: seq<U.User>, username: string, email: string, password: Value): Py<Option<string>> {
    if UsernameTaken(users, username) then Ret(Some(UsernameExists))
    else if EmailTaken(users, email) then Ret(Some(EmailInUse))
    else if !password.Str? then Raise(AttributeError)
    else Ret(None)
  }

  /** The account `register_user` inserts once its checks pass. */
  function NewUser(id: string, username: string, email: string, fullName: string, hash: U.Digest, stamp: DateTime): U.User {
    U.User(id, username, email, fullName, hash, U.DefaultActive, Some(stamp), Some(stamp))
  }

  /** The unit of work a successful register check commits: the new account appended. */
  function WithUser(t: Tables, nu: U.User): Tables {
    Tables(t.users + [nu], t.projects, t.tasks, t.comments)
  }

  /**
   * What `register_user` answers on the tables `t`. `salt` is what
   * `gensalt()` draws, `newId` the `uuid4()` default, `stamp` the
   * `utcnow()` default; `fault` and `errText` stand for a flush that fails
   * and the text of the exception it raises.
   */
  function RegisterReply(t: Tables, c: Codec, username: string, email: string, fullName: string,
                         password: Value, salt: string, newId: string, stamp: DateTime, now: int,
                         fault: bool, errText: string): Py<AuthReply> {
    match RegisterCheck(t.users, username, email, password)
    case Raise(e) => Raise(e)
    case Ret(Some(m)) => Ret(Refusal(m))
    case Ret(None) =>
      var nu := NewUser(newId, username, email, fullName, U.Bcrypt(salt, password.s), stamp);
      if !fault && Committable(WithUser(t, nu)) then
        Ret(AuthReply(true, Registered, Some(nu), Some(CreateToken(c, newId, username, now))))
      else Ret(Refusal(CreateFailedPrefix + errText))
  }

  /** The tables after `register_user`: only a check that passes reaches the commit. */
  function RegisterTables(t: Tables, username: string, email: string, fullName: string,
                          password: Value, salt: string, newId: string, stamp: DateTime, fault: bool): Tables {
    if RegisterCheck(t.users, username, email, password) == Ret(None) then
      CommitOutcome(t, WithUser(t, NewUser(newId, username, email, fullName, U.Bcrypt(salt, password.s), stamp)), fault)
    else t
  }

  /** `register_user(db, username, email, full_name, password)` */
  method RegisterUser(db: Database, s: Session, c: Codec, username: string, email: string, fullName: string,
                      password: Value, salt: string, newId: string, stamp: DateTime, now: int,
                      fault: bool, errText: string) returns (r: Py<AuthReply>)
    requires db.Valid()
    modifies db, s
    ensures db.Valid()
    ensures r == RegisterReply(old(db.Snapshot()), c, username, email, fullName, password, salt, newId, stamp, now, fault, errText)
    ensures db.Snapshot() == RegisterTables(old(db.Snapshot()), username, email, fullName, password, salt, newId, stamp, fault)
    ensures r.Ret? && r.value.success ==> s.entries == Opened(old(s.entries), r.value.user.value)
    ensures !(r.Ret? && r.value.success) ==> unchanged(s)
  {
    var byName := First(db.users, (u: U.User) => u.username == username);
    if byName.Some? {
      return Ret(Refusal(UsernameExists));
    }
    var byEmail := First(db.users, (u: U.User) => u.email == email);
    if byEmail.Some? {
      return Ret(Refusal(EmailInUse));
    }
    var hashed := HashPassword(password, salt);
    if hashed.Raise? {
      return Raise(hashed.exc);
    }
    var nu := NewUser(newId, username, email, fullName, hashed.value, stamp);
    assert nu == NewUser(newId, username, email, fullName, U.Bcrypt(salt, password.s), stamp);
    var ok := db.Commit(WithUser(db.Snapshot(), nu), fault);
    if !ok {
      return Ret(Refusal(CreateFailedPrefix + errText));
    }
    var token := CreateToken(c, nu.id, nu.username, now);
    CreateSession(s, nu);
    r := Ret(AuthReply(true, Registered, Some(nu), Some(token)));
  }

  /** What `login_user` decides: the account it signs in, or the message it refuses with. */
  datatype Admission = Admitted(user: U.User) | Refused(message: string)

  /**
   * The checks of `login_user`: the first account with that username, that
   * it is active, then the password. Only a string password can be verified.
   */
  function LoginCheck(users: seq<U.User>, username: string, password: Value): Py<Admission> {
    match First(users, (u: U.User) => u.username == username)
    case None => Ret(Refused(BadCredentials))
    case Some(i) =>
      if !users[i].isActive then Ret(Refused(Disabled))
      else match VerifyPassword(password, users[i].passwordHash)
        case Raise(e) => Raise(e)
        case Ret(ok) => if ok then Ret(Admitted(users[i])) else Ret(Refused(BadCredentials))
  }

  /** What `login_user` answers on the accounts `users` at time `now`. */
  function LoginReply(users: seq<U.User>, c: Codec, username: string, password: Value, now: int): Py<AuthReply> {
    match LoginCheck(users, username, password)
    case Raise(e) => Raise(e)
    case Ret(Refused(m)) => Ret(Refusal(m))
    case Ret(Admitted(u)) => Ret(AuthReply(true, LoggedIn, Some(u), Some(CreateToken(c, u.id, u.username, now))))
  }

  /** `login_user(db, username, password)`; the store is only read. */
  method LoginUser(db: Database, s: Session, c: Codec, username: string, password: Value, now: int)
    returns (r: Py<AuthReply>)
    modifies s
    ensures r == LoginReply(db.users, c, username, password, now)
    ensures r.Ret? && r.value.success ==> s.entries == Opened(old(s.entries), r.value.user.value)
    ensures !(r.Ret? && r.value.success) ==> unchanged(s)
  {
    var check := LoginCheck(db.users, username, password);
    match check
    case Raise(e) => r := Raise(e);
    case Ret(Refused(m)) => r := Ret(Refusal(m));
    case Ret(Admitted(u)) =>
      var token := CreateToken(c, u.id, u.username, now);
      CreateSession(s, u);
      r := Ret(AuthReply(true, LoggedIn, Some(u), Some(token)));
  }

  /** `logout_user()`: always successful, and the session is empty afterwards. */
  method LogoutUser(s: Session) returns (success: bool, message: string)
    modifies s
    ensures success && message == LoggedOut
    ensures s.entries == map[]
  {
    ClearSession(s);
    success, message := true, LoggedOut;
  }

  // ------------------------------------------------------------ properties

  /** Register checks the username before the email: a double clash reports the username. */
  lemma RegisterChecksUsernameFirst(users: seq<U.User>, username: string, email: string, password: Value)
    ensures UsernameTaken(users, username) ==> RegisterCheck(users, username, email, password) == Ret(Some(UsernameExists))
    ensures !UsernameTaken(users, username) && EmailTaken(users, email) ==>
      RegisterCheck(users, username, email, password) == Ret(Some(EmailInUse))
    ensures RegisterCheck(users, username, email, password) == Ret(None) <==>
      !UsernameTaken(users, username) && !EmailTaken(users, email) && password.Str?
  {
  }

  /**
   * Login does not tell an unknown username from a wrong password, and
   * reports a disabled account before it looks at the password.
   */
  lemma LoginEnumerationResistant(users: seq<U.User>, username: string, password: Value)
    ensures !UsernameTaken(users, username) ==> LoginCheck(users, username, password) == Ret(Refused(BadCredentials))
    ensures forall i :: 0 <= i < |users| && users[i].username == username && (forall j :: 0 <= j < i ==> users[j].username != username) ==>
      && (!users[i].isActive ==> LoginCheck(users, username, password) == Ret(Refused(Disabled)))
      && (users[i].isActive && password.Str? && U.Bcrypt(users[i].passwordHash.salt, password.s) != users[i].passwordHash ==>
            LoginCheck(users, username, password) == Ret(Refused(BadCredentials)))
  {
    var p := (u: U.User) => u.username == username;
    var f := First(users, p);
    forall i | 0 <= i < |users| && users[i].username == username && (forall j :: 0 <= j < i ==> users[j].username != username)
      ensures f == Some(i)
    {
      assert p(users[i]);
    }
  }

  /**
   * Every refusal of register, and every exception it raises, leaves the
   * store as it was; a success adds exactly one active account, hashed with
   * the drawn salt, and carries a token for it.
   */
  lemma RegisterOutcome(t: Tables, c: Codec, username: string, email: string, fullName: string,
                        password: Value, salt: string, newId: string, stamp: DateTime, now: int,
                        fault: bool, errText: string)
    ensures var r := RegisterReply(t, c, username, email, fullName, password, salt, newId, stamp, now, fault, errText);
      var after := RegisterTables(t, username, email, fullName, password, salt, newId, stamp, fault);
      && (!(r.Ret? && r.value.success) ==> after == t && (r.Ret? ==> r.value.user.None? && r.value.token.None?))
      && (r.Ret? && r.value.success ==>
            && password.Str?
            && r.value.user == Some(NewUser(newId, username, email, fullName, U.Bcrypt(salt, password.s), stamp))
            && after == WithUser(t, r.value.user.value)
            && r.value.user.value.isActive
            && r.value.token == Some(CreateToken(c, newId, username, now)))
    ensures UsernameTaken(t.users, username) ==>
      RegisterReply(t, c, username, email, fullName, password, salt, newId, stamp, now, fault, errText) == Ret(Refusal(UsernameExists))
    ensures !UsernameTaken(t.users, username) && EmailTaken(t.users, email) ==>
      RegisterReply(t, c, username, email, fullName, password, salt, newId, stamp, now, fault, errText) == Ret(Refusal(EmailInUse))
    ensures RegisterCheck(t.users, username, email, password) == Ret(None) && fault ==>
      RegisterReply(t, c, username, email, fullName, password, salt, newId, stamp, now, fault, errText) == Ret(Refusal(CreateFailedPrefix + errText))
  {
  }

  /** An account registered with a password signs in with that same password. */
  lemma RegisterThenLogin(users: seq<U.User>, username: string, email: string, fullName: string,
                                            p: string, salt: string, newId: string, stamp: DateTime)
    requires RegisterCheck(users, username, email, Str(p)) == Ret(None)
    ensures LoginCheck(users + [NewUser(newId, username, email, fullName, U.Bcrypt(salt, p), stamp)], username, Str(p))
            == Ret(Admitted(NewUser(newId, username, email, fullName, U.Bcrypt(salt, p), stamp)))
  {
    var nu := NewUser(newId, username, email, fullName, U.Bcrypt(salt, p), stamp);
    var rows := users + [nu];
    var pr := (u: U.User) => u.username == username;
    var f := First(rows, pr);
    assert pr(rows[|users|]);
    assert f == Some(|users|);
  }
}
