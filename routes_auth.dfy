/**
 * The sign-in routes: `POST /api/auth/register`, `POST /api/auth/login` and
 * `POST /api/admin/login`. Every exception inside a handler is caught and
 * answered with status 500 and the handler's generic message. bcrypt's hash and
 * compare are parameters of the model; like bcryptjs they only accept a string
 * password, and any other JSON value throws.
 */
module AuthRoutes {
  import opened Wrappers
  import Js
  import Rows
  import Store
  import Auth
  import opened Http

  const RegisterFailed: string := "Ошибка регистрации"
  const FieldsRequired: string := "Все поля обязательны"
  const EmailTaken: string := "Пользователь с таким email уже существует"
  const LoginFailed: string := "Ошибка входа"
  const CredentialsRequired: string := "Email и пароль обязательны"
  const BadCredentials: string := "Неверный email или пароль"
  const PasswordRequired: string := "Пароль обязателен"
  const BadPassword: string := "Неверный пароль"

  // ================================================================ register

  predicate RegisterFieldsGiven(req: Request) {
    req.body.Some? && Js.Truthy(BodyField(req, "email")) && Js.Truthy(BodyField(req, "password"))
    && Js.Truthy(BodyField(req, "username"))
  }

  /**
   * A registration goes through when all three fields are given, the email binds
   * as text and is not taken, the password is a string bcrypt can hash, and the
   * username binds as text.
   */
  predicate RegisterAccepted(t: Store.Tables, req: Request) {
    RegisterFieldsGiven(req)
    && TextParam(BodyField(req, "email")).Some?
    && Store.GetUserByEmail(t, TextParam(BodyField(req, "email")).value).None?
    && BodyField(req, "password").Str?
    && TextParam(BodyField(req, "username")).Some?
  }

  /**
   * `POST /api/auth/register`: on success the user is stored with the hashed
   * password under the next id, the session cookie carries that id, and the
   * response echoes id, email and username; every failure leaves the store and
   * the cookies untouched.
   */
  method Register(db: Store.Database, jar: Auth.CookieJar, req: Request, hash: string -> string, production: bool)
    returns (resp: Response)
    requires db.Valid()
    modifies db, jar
    ensures db.Valid()
    ensures req.body.None? ==> resp == Fail(500, RegisterFailed)
    ensures req.body.Some? && !RegisterFieldsGiven(req) ==> resp == Fail(400, FieldsRequired)
    ensures RegisterFieldsGiven(req) && TextParam(BodyField(req, "email")).Some?
            && old(Store.GetUserByEmail(db.State(), TextParam(BodyField(req, "email")).value)).Some?
            ==> resp == Fail(400, EmailTaken)
    ensures resp.status == 200 <==> RegisterAccepted(old(db.State()), req)
    ensures resp.status != 200 ==> resp.status == 400 || resp == Fail(500, RegisterFailed)
    ensures resp.status != 200 ==> db.State() == old(db.State()) && jar.cookies == old(jar.cookies)
    ensures RegisterAccepted(old(db.State()), req) ==>
              var t := old(db.State());
              var email := TextParam(BodyField(req, "email")).value;
              var username := TextParam(BodyField(req, "username")).value;
              db.State() == Store.WithUser(t, email, hash(BodyField(req, "password").s), username)
              && jar.cookies == old(jar.cookies)[Auth.SessionCookieName := Auth.UserCookie(t.nextUserId, production)]
              && resp == Ok(SignedIn(t.nextUserId, email, username))
  {
    if req.body.None? {
      return Fail(500, RegisterFailed);
    }
    var emailArg, password, usernameArg := BodyField(req, "email"), BodyField(req, "password"), BodyField(req, "username");
    if !Js.Truthy(emailArg) || !Js.Truthy(password) || !Js.Truthy(usernameArg) {
      return Fail(400, FieldsRequired);
    }
    var email := TextParam(emailArg);
    if email.None? {
      return Fail(500, RegisterFailed);
    }
    if Store.GetUserByEmail(db.State(), email.value).Some? {
      return Fail(400, EmailTaken);
    }
    if !password.Str? {
      return Fail(500, RegisterFailed);
    }
    var passwordHash := hash(password.s);
    var username := TextParam(usernameArg);
    if username.None? {
      return Fail(500, RegisterFailed);
    }
    var user := db.CreateUser(email.value, passwordHash, username.value);
    jar.SetSession(user.value.id, production);
    resp := Ok(SignedIn(user.value.id, user.value.email, user.value.username));
  }

  /**
   * After a registration the new session resolves to the new account: its id,
   * email and username, no avatar, and it is the only account with that email.
   */
  lemma RegisterSignsIn(t: Store.Tables, req: Request, hash: string -> string, cookies: map<string, Auth.Cookie>, production: bool)
    requires t.Valid() && RegisterAccepted(t, req)
    ensures var email := TextParam(BodyField(req, "email")).value;
            var username := TextParam(BodyField(req, "username")).value;
            var t' := Store.WithUser(t, email, hash(BodyField(req, "password").s), username);
            Auth.GetSession(cookies[Auth.SessionCookieName := Auth.UserCookie(t.nextUserId, production)], t')
            == Some(Store.UserRow(t.nextUserId, email, username, None, t.clock))
            && |Rows.Filter(t'.users, Store.HasEmail(email))| == 1
  {
    var email := TextParam(BodyField(req, "email")).value;
    var username := TextParam(BodyField(req, "username")).value;
    var h := hash(BodyField(req, "password").s);
    Store.CreateUserSpec(t, email, h, username);
    Auth.SessionRoundTrip(cookies, Store.WithUser(t, email, h, username), t.nextUserId, production);
  }

  // ================================================================ login

  /**
   * The account a login signs in to, or `None`: both fields given, the email
   * binds as text and is stored, the password is a string and bcrypt accepts it
   * against the stored hash.
   */
  function LoginUser(t: Store.Tables, req: Request, compare: (string, string) -> bool): (r: Option<Store.User>)
    ensures r.Some? ==> r.value in t.users && TextParam(BodyField(req, "email")) == Some(r.value.email)
                        && BodyField(req, "password").Str? && compare(BodyField(req, "password").s, r.value.passwordHash)
    ensures req.body.Some? && Js.Truthy(BodyField(req, "email")) && Js.Truthy(BodyField(req, "password"))
            && TextParam(BodyField(req, "email")).Some?
            && Store.GetUserByEmail(t, TextParam(BodyField(req, "email")).value).Some?
            && BodyField(req, "password").Str?
            && compare(BodyField(req, "password").s, Store.GetUserByEmail(t, TextParam(BodyField(req, "email")).value).value.passwordHash)
            ==> r == Store.GetUserByEmail(t, TextParam(BodyField(req, "email")).value)
  {
    var email, password := BodyField(req, "email"), BodyField(req, "password");
    if req.body.None? || !Js.Truthy(email) || !Js.Truthy(password) || TextParam(email).None? then None
    else
      match Store.GetUserByEmail(t, TextParam(email).value)
      case None => None
      case Some(u) => if password.Str? && compare(password.s, u.passwordHash) then Some(u) else None
  }

  /**
   * `POST /api/auth/login`: the store never changes; on success the session
   * cookie carries the account's id; an unknown email and a wrong password get
   * the same 401 answer.
   */
  method Login(db: Store.Database, jar: Auth.CookieJar, req: Request, compare: (string, string) -> bool, production: bool)
    returns (resp: Response)
    requires db.Valid()
    modifies jar
    ensures req.body.None? ==> resp == Fail(500, LoginFailed)
    ensures req.body.Some? && (!Js.Truthy(BodyField(req, "email")) || !Js.Truthy(BodyField(req, "password")))
            ==> resp == Fail(400, CredentialsRequired)
    ensures resp.status == 200 <==> LoginUser(db.State(), req, compare).Some?
    ensures resp.status != 200 ==> jar.cookies == old(jar.cookies)
    ensures resp.status != 200 ==> resp.status == 400 || resp == Fail(401, BadCredentials) || resp == Fail(500, LoginFailed)
    ensures req.body.Some? && Js.Truthy(BodyField(req, "email")) && Js.Truthy(BodyField(req, "password"))
            && TextParam(BodyField(req, "email")).Some?
            && Store.GetUserByEmail(db.State(), TextParam(BodyField(req, "email")).value).None?
            ==> resp == Fail(401, BadCredentials)
    ensures req.body.Some? && Js.Truthy(BodyField(req, "email")) && Js.Truthy(BodyField(req, "password"))
            && TextParam(BodyField(req, "email")).Some?
            && Store.GetUserByEmail(db.State(), TextParam(BodyField(req, "email")).value).Some?
            && BodyField(req, "password").Str?
            && !compare(BodyField(req, "password").s, Store.GetUserByEmail(db.State(), TextParam(BodyField(req, "email")).value).value.passwordHash)
            ==> resp == Fail(401, BadCredentials)
    ensures LoginUser(db.State(), req, compare).Some? ==>
              var u := LoginUser(db.State(), req, compare).value;
              jar.cookies == old(jar.cookies)[Auth.SessionCookieName := Auth.UserCookie(u.id, production)]
              && resp == Ok(SignedIn(u.id, u.email, u.username))
  {
    if req.body.None? {
      return Fail(500, LoginFailed);
    }
    var emailArg, password := BodyField(req, "email"), BodyField(req, "password");
    if !Js.Truthy(emailArg) || !Js.Truthy(password) {
      return Fail(400, CredentialsRequired);
    }
    var email := TextParam(emailArg);
    if email.None? {
      return Fail(500, LoginFailed);
    }
    var user := Store.GetUserByEmail(db.State(), email.value);
    if user.None? {
      return Fail(401, BadCredentials);
    }
    if !password.Str? {
      return Fail(500, LoginFailed);
    }
    if !compare(password.s, user.value.passwordHash) {
      return Fail(401, BadCredentials);
    }
    jar.SetSession(user.value.id, production);
    resp := Ok(SignedIn(user.value.id, user.value.email, user.value.username));
  }

  /**
   * A successful login opens a session on exactly the account whose email was
   * given, and the bcrypt check is against that account's stored hash.
   */
  lemma LoginSignsIn(t: Store.Tables, req: Request, compare: (string, string) -> bool, cookies: map<string, Auth.Cookie>, production: bool)
    requires t.Valid() && LoginUser(t, req, compare).Some?
    ensures var u := LoginUser(t, req, compare).value;
            Auth.GetSession(cookies[Auth.SessionCookieName := Auth.UserCookie(u.id, production)], t) == Some(Store.Public(u))
            && Store.GetUserByEmail(t, u.email) == Some(u)
  {
    var u := LoginUser(t, req, compare).value;
    Auth.SessionOfStoredUser(cookies, t, u, production);
    Store.GetUserByEmailOfMember(t, u);
  }

  /** An unknown email never signs in, whatever the password. */
  lemma LoginNeedsAccount(t: Store.Tables, req: Request, compare: (string, string) -> bool)
    requires TextParam(BodyField(req, "email")).Some?
    requires Store.GetUserByEmail(t, TextParam(BodyField(req, "email")).value).None?
    ensures LoginUser(t, req, compare).None?
  {
  }

  // ================================================================ admin login

  /**
   * `POST /api/admin/login`: only the exact configured password string opens the
   * admin session; nothing else changes.
   */
  method AdminLogin(jar: Auth.CookieJar, req: Request, production: bool) returns (resp: Response)
    modifies jar
    ensures req.body.None? ==> resp == Fail(500, LoginFailed)
    ensures req.body.Some? && !Js.Truthy(BodyField(req, "password")) ==> resp == Fail(400, PasswordRequired)
    ensures req.body.Some? && Js.Truthy(BodyField(req, "password")) && !Auth.VerifyAdminPassword(BodyField(req, "password"))
            ==> resp == Fail(401, BadPassword)
    ensures resp.status == 200 <==> req.body.Some? && BodyField(req, "password") == Js.Str(Auth.AdminPassword)
    ensures resp.status == 200 ==> resp == Ok(Done) && jar.cookies == old(jar.cookies)[Auth.AdminCookieName := Auth.AdminCookie(production)]
    ensures resp.status != 200 ==> jar.cookies == old(jar.cookies)
  {
    if req.body.None? {
      return Fail(500, LoginFailed);
    }
    var password := BodyField(req, "password");
    if !Js.Truthy(password) {
      return Fail(400, PasswordRequired);
    }
    if !Auth.VerifyAdminPassword(password) {
      return Fail(401, BadPassword);
    }
    jar.SetAdminSession(production);
    resp := Ok(Done);
  }
}
