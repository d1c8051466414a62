/**
 * The two session mechanisms of `lib/auth.ts` and `lib/admin-auth.ts` over a
 * cookie jar: a user session cookie holding the decimal user id, resolved
 * against the users table on every read, and an admin cookie that is a plain
 * capability token set after an exact password comparison.
 */
module Auth {
  import opened Wrappers
  import Js
  import Store

  const SessionCookieName: string := "geppu_session"
  /** 30 days, in seconds. */
  const SessionMaxAge: int := 60 * 60 * 24 * 30

  const AdminPassword: string := "2284856"
  const AdminCookieName: string := "geppu_admin_session"
  const AdminToken: string := "authenticated"
  /** 24 hours, in seconds. */
  const AdminMaxAge: int := 60 * 60 * 24

  /** A cookie as `cookies().set` stores it: the value and its options. */
  datatype Cookie = Cookie(value: string, httpOnly: bool, secure: bool, sameSite: string, maxAge: int, path: string)

  /** The options both `setSession` and `setAdminSession` use; `secure` only in production. */
  function SessionCookie(value: string, production: bool, maxAge: int): (c: Cookie)
    ensures c.value == value && c.maxAge == maxAge
    ensures c.httpOnly && c.sameSite == "lax" && c.path == "/" && (c.secure <==> production)
  {
    Cookie(value, true, production, "lax", maxAge, "/")
  }

  /** The cookie `setSession(userId)` writes. */
  function UserCookie(userId: int, production: bool): Cookie {
    SessionCookie(Js.IntToString(userId), production, SessionMaxAge)
  }

  /** The cookie `setAdminSession` writes. */
  function AdminCookie(production: bool): Cookie {
    SessionCookie(AdminToken, production, AdminMaxAge)
  }

  /**
   * `getSession`: no cookie gives null; otherwise the cookie value goes through
   * `parseInt` and `getUserById`. A value that is not a number makes the lookup
   * throw, which is caught and gives null too.
   */
  function GetSession(cookies: map<string, Cookie>, t: Store.Tables): (r: Option<Store.UserRow>)
    ensures SessionCookieName !in cookies ==> r.None?
    ensures r.Some? <==>
              SessionCookieName in cookies && Js.ParseInt(cookies[SessionCookieName].value).Some?
              && Store.GetUserById(t, Js.ParseInt(cookies[SessionCookieName].value).value).Some?
    ensures r.Some? ==> r == Store.GetUserById(t, Js.ParseInt(cookies[SessionCookieName].value).value)
  {
    if SessionCookieName !in cookies then None
    else
      match Js.ParseInt(cookies[SessionCookieName].value)
      case None => None
      case Some(id) => Store.GetUserById(t, id)
  }

  /** `requireAuth`: the session user, or the error "Unauthorized". */
  function RequireAuth(cookies: map<string, Cookie>, t: Store.Tables): (r: Result<Store.UserRow, string>)
    ensures r.Success? <==> GetSession(cookies, t).Some?
    ensures r.Success? ==> r.value == GetSession(cookies, t).value
    ensures r.Failure? ==> r.error == "Unauthorized"
  {
    match GetSession(cookies, t)
    case Some(u) => Success(u)
    case None => Failure("Unauthorized")
  }

  /** `checkAdminAuth`: the admin cookie holds exactly `"authenticated"`. */
  predicate CheckAdminAuth(cookies: map<string, Cookie>) {
    AdminCookieName in cookies && cookies[AdminCookieName].value == AdminToken
  }

  /**
   * `verifyAdminPassword`: strict equality with the configured password. The
   * argument is whatever the JSON body held, so a number never matches.
   */
  predicate VerifyAdminPassword(password: Js.Value) {
    password == Js.Str(AdminPassword)
  }

  /** Only the configured string passes; the number with the same digits does not. */
  lemma VerifyAdminPasswordSpec(password: Js.Value)
    ensures VerifyAdminPassword(password) <==> password.Str? && password.s == "2284856"
    ensures !VerifyAdminPassword(Js.Num(2284856))
  {
  }

  /**
   * After `setSession(id)` the session resolves to the user with that id, or to
   * null when no such user exists (or it was deleted meanwhile).
   */
  lemma SessionRoundTrip(cookies: map<string, Cookie>, t: Store.Tables, userId: int, production: bool)
    ensures GetSession(cookies[SessionCookieName := UserCookie(userId, production)], t) == Store.GetUserById(t, userId)
  {
    assert Js.IntToString(userId) + [] == Js.IntToString(userId);
    Js.ParseIntOfIntToString(userId, []);
  }

  /** A session opened for a stored user resolves to that user's public row. */
  lemma SessionOfStoredUser(cookies: map<string, Cookie>, t: Store.Tables, u: Store.User, production: bool)
    requires t.Valid() && u in t.users
    ensures GetSession(cookies[SessionCookieName := UserCookie(u.id, production)], t) == Some(Store.Public(u))
    ensures RequireAuth(cookies[SessionCookieName := UserCookie(u.id, production)], t) == Success(Store.Public(u))
  {
    SessionRoundTrip(cookies, t, u.id, production);
    Store.GetUserByIdOfMember(t, u);
  }

  /** A session depends on the users table only. */
  lemma SessionOfSameUsers(cookies: map<string, Cookie>, t: Store.Tables, t': Store.Tables)
    requires t.users == t'.users
    ensures GetSession(cookies, t) == GetSession(cookies, t')
  {
    if SessionCookieName in cookies && Js.ParseInt(cookies[SessionCookieName].value).Some? {
      var id := Js.ParseInt(cookies[SessionCookieName].value).value;
      assert Store.GetUserById(t, id) == Store.GetUserById(t', id);
    }
  }

  /** After `clearSession` there is no session. */
  lemma ClearedSession(cookies: map<string, Cookie>, t: Store.Tables)
    ensures GetSession(cookies - {SessionCookieName}, t).None?
    ensures RequireAuth(cookies - {SessionCookieName}, t) == Failure("Unauthorized")
  {
  }

  /** After `setAdminSession` the admin check passes; after `clearAdminSession` it fails. */
  lemma AdminSessionToggles(cookies: map<string, Cookie>, production: bool)
    ensures CheckAdminAuth(cookies[AdminCookieName := AdminCookie(production)])
    ensures AdminCookie(production).maxAge == 86400
    ensures !CheckAdminAuth(cookies - {AdminCookieName})
  {
  }

  /**
   * The two cookies are independent: writing or deleting the admin cookie never
   * changes the user session, and writing or deleting the user cookie never
   * changes the admin check.
   */
  lemma SessionsIndependent(cookies: map<string, Cookie>, t: Store.Tables, c: Cookie)
    ensures GetSession(cookies[AdminCookieName := c], t) == GetSession(cookies, t)
    ensures GetSession(cookies - {AdminCookieName}, t) == GetSession(cookies, t)
    ensures CheckAdminAuth(cookies[SessionCookieName := c]) == CheckAdminAuth(cookies)
    ensures CheckAdminAuth(cookies - {SessionCookieName}) == CheckAdminAuth(cookies)
  {
    assert SessionCookieName != AdminCookieName by {
      assert SessionCookieName[7] != AdminCookieName[7];
    }
  }

  /** The cookie store of one request/response exchange. */
  class CookieJar {
    var cookies: map<string, Cookie>

    constructor (initial: map<string, Cookie>)
      ensures cookies == initial
    {
      cookies := initial;
    }

    /** `setSession`: the decimal id under `geppu_session`, for 30 days. */
    method SetSession(userId: int, production: bool)
      modifies this
      ensures cookies == old(cookies)[SessionCookieName := UserCookie(userId, production)]
      ensures cookies[SessionCookieName].maxAge == 2592000
    {
      cookies := cookies[SessionCookieName := UserCookie(userId, production)];
    }

    /** `clearSession`. */
    method ClearSession()
      modifies this
      ensures cookies == old(cookies) - {SessionCookieName}
    {
      cookies := cookies - {SessionCookieName};
    }

    /** `setAdminSession`: `"authenticated"` under `geppu_admin_session`, for 24 hours. */
    method SetAdminSession(production: bool)
      modifies this
      ensures cookies == old(cookies)[AdminCookieName := AdminCookie(production)]
    {
      cookies := cookies[AdminCookieName := AdminCookie(production)];
    }

    /** `clearAdminSession`. */
    method ClearAdminSession()
      modifies this
      ensures cookies == old(cookies) - {AdminCookieName}
    {
      cookies := cookies - {AdminCookieName};
    }
  }
}
