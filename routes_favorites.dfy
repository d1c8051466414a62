/**
 * The favourite routes: `app/api/favorites/route.ts`, used by the favourite
 * button with a camel-case `releaseId`, and `app/api/user/favorites/route.ts`,
 * used by the profile page with a snake-case `release_id`. The first answers 401
 * without a session; the second calls `requireAuth`, whose exception is caught
 * like any other and answered with 500.
 */
module FavoriteRoutes {
  import opened Wrappers
  import Js
  import Store
  import Auth
  import opened Http

  const Unauthorized: string := "Unauthorized"
  const ReleaseIdRequired: string := "Release ID is required"
  const AddFailed: string := "Failed to add to favorites"
  const RemoveFailed: string := "Failed to remove from favorites"
  const CheckFailed: string := "Failed to check favorite"
  const ListFailed: string := "Ошибка получения избранного"
  const UserAddFailed: string := "Ошибка добавления в избранное"
  const UserRemoveFailed: string := "Ошибка удаления из избранного"

  predicate SignedIn(cookies: map<string, Auth.Cookie>, t: Store.Tables) {
    Auth.GetSession(cookies, t).Some?
  }

  /** The id of the session user. */
  function SessionUserId(cookies: map<string, Auth.Cookie>, t: Store.Tables): int
    requires SignedIn(cookies, t)
  {
    Auth.GetSession(cookies, t).value.id
  }

  // ================================================================ /api/favorites

  /**
   * `POST /api/favorites`: 401 before the body is read; a falsy `releaseId`
   * (absent, 0, "") gives 400; otherwise the pair (session user, release) is
   * added once, and a value that does not bind as an integer fails with 500.
   */
  method AddFavorite(db: Store.Database, jar: Auth.CookieJar, req: Request) returns (resp: Response)
    requires db.Valid()
    modifies db
    ensures db.Valid()
    ensures !SignedIn(jar.cookies, old(db.State())) ==> resp == Fail(401, Unauthorized)
    ensures SignedIn(jar.cookies, old(db.State())) && req.body.None? ==> resp == Fail(500, AddFailed)
    ensures SignedIn(jar.cookies, old(db.State())) && req.body.Some? && !Js.Truthy(BodyField(req, "releaseId"))
            ==> resp == Fail(400, ReleaseIdRequired)
    ensures resp.status == 200 <==>
              SignedIn(jar.cookies, old(db.State())) && Js.Truthy(BodyField(req, "releaseId"))
              && IntParam(BodyField(req, "releaseId")).IntVal?
    ensures resp.status == 200 ==>
              resp == Ok(Done)
              && db.State() == Store.WithFavorite(old(db.State()), SessionUserId(jar.cookies, old(db.State())),
                                                  IntParam(BodyField(req, "releaseId")).n)
    ensures resp.status != 200 ==> db.State() == old(db.State())
    ensures resp.status != 200 && resp.status != 400 ==> resp == Fail(401, Unauthorized) || resp == Fail(500, AddFailed)
  {
    var user := Auth.GetSession(jar.cookies, db.State());
    if user.None? {
      return Fail(401, Unauthorized);
    }
    if req.body.None? {
      return Fail(500, AddFailed);
    }
    var releaseId := BodyField(req, "releaseId");
    if !Js.Truthy(releaseId) {
      return Fail(400, ReleaseIdRequired);
    }
    match IntParam(releaseId) {
      case IntVal(n) =>
        db.AddToFavorites(user.value.id, n);
        resp := Ok(Done);
      case _ =>
        resp := Fail(500, AddFailed);
    }
  }

  /**
   * `DELETE /api/favorites?releaseId=`: 401 without a session, 400 without the
   * query parameter; otherwise the pair with `parseInt(releaseId)` is removed,
   * whether or not it was a favourite. A parameter with no leading digits is
   * NaN, which the database refuses.
   */
  method RemoveFavorite(db: Store.Database, jar: Auth.CookieJar, req: Request) returns (resp: Response)
    requires db.Valid()
    modifies db
    ensures db.Valid()
    ensures !SignedIn(jar.cookies, old(db.State())) ==> resp == Fail(401, Unauthorized)
    ensures SignedIn(jar.cookies, old(db.State())) && !Given(Query(req, "releaseId")) ==> resp == Fail(400, ReleaseIdRequired)
    ensures resp.status == 200 <==>
              SignedIn(jar.cookies, old(db.State())) && Given(Query(req, "releaseId"))
              && Js.ParseInt(Query(req, "releaseId").value).Some?
    ensures resp.status == 200 ==>
              resp == Ok(Done)
              && db.State() == Store.WithoutFavorite(old(db.State()), SessionUserId(jar.cookies, old(db.State())),
                                                     Js.ParseInt(Query(req, "releaseId").value).value)
    ensures resp.status != 200 ==> db.State() == old(db.State())
    ensures resp.status != 200 && resp.status != 400 ==> resp == Fail(401, Unauthorized) || resp == Fail(500, RemoveFailed)
  {
    var user := Auth.GetSession(jar.cookies, db.State());
    if user.None? {
      return Fail(401, Unauthorized);
    }
    var releaseId := Query(req, "releaseId");
    if !Given(releaseId) {
      return Fail(400, ReleaseIdRequired);
    }
    match Js.ParseInt(releaseId.value) {
      case Some(n) =>
        db.RemoveFromFavorites(user.value.id, n);
        resp := Ok(Done);
      case None =>
        resp := Fail(500, RemoveFailed);
    }
  }

  /**
   * `GET /api/favorites?releaseId=`: without a session the answer is a plain
   * `isFavorite: false`; with one, whether the pair is stored.
   */
  function CheckFavorite(cookies: map<string, Auth.Cookie>, t: Store.Tables, req: Request): (r: Response)
    ensures !SignedIn(cookies, t) ==> r == Ok(FavoriteFlag(false))
    ensures SignedIn(cookies, t) && !Given(Query(req, "releaseId")) ==> r == Fail(400, ReleaseIdRequired)
    ensures SignedIn(cookies, t) && Given(Query(req, "releaseId")) ==>
              match Js.ParseInt(Query(req, "releaseId").value)
              case None => r == Fail(500, CheckFailed)
              case Some(n) =>
                r == Ok(FavoriteFlag(Store.IsFavorite(t, SessionUserId(cookies, t), n)))
                && (r.payload.isFavorite <==> exists f :: f in t.favorites && f.userId == SessionUserId(cookies, t) && f.releaseId == n)
  {
    match Auth.GetSession(cookies, t)
    case None => Ok(FavoriteFlag(false))
    case Some(user) =>
      var releaseId := Query(req, "releaseId");
      if !Given(releaseId) then Fail(400, ReleaseIdRequired)
      else
        match Js.ParseInt(releaseId.value)
        case None => Fail(500, CheckFailed)
        case Some(n) =>
          Store.IsFavoriteIff(t, user.id, n);
          Ok(FavoriteFlag(Store.IsFavorite(t, user.id, n)))
  }

  /**
   * The button's round trip: after a `POST` for a release the `GET` for it says
   * true, and after a `DELETE` for it the `GET` says false.
   */
  lemma FavoriteRoundTrip(cookies: map<string, Auth.Cookie>, t: Store.Tables, userId: int, releaseId: int, req: Request)
    requires t.Valid() && SignedIn(cookies, t) && SessionUserId(cookies, t) == userId
    requires Given(Query(req, "releaseId")) && Js.ParseInt(Query(req, "releaseId").value) == Some(releaseId)
    ensures CheckFavorite(cookies, Store.WithFavorite(t, userId, releaseId), req) == Ok(FavoriteFlag(true))
    ensures CheckFavorite(cookies, Store.WithoutFavorite(t, userId, releaseId), req) == Ok(FavoriteFlag(false))
  {
    Store.WithFavoriteSpec(t, userId, releaseId);
    Store.WithoutFavoriteSpec(t, userId, releaseId);
    SessionKeptByFavorites(cookies, t, userId, releaseId);
  }

  /** Favourite writes touch no user, so the session user stays the same. */
  lemma SessionKeptByFavorites(cookies: map<string, Auth.Cookie>, t: Store.Tables, userId: int, releaseId: int)
    ensures Auth.GetSession(cookies, Store.WithFavorite(t, userId, releaseId)) == Auth.GetSession(cookies, t)
    ensures Auth.GetSession(cookies, Store.WithoutFavorite(t, userId, releaseId)) == Auth.GetSession(cookies, t)
  {
    Auth.SessionOfSameUsers(cookies, t, Store.WithFavorite(t, userId, releaseId));
    Auth.SessionOfSameUsers(cookies, t, Store.WithoutFavorite(t, userId, releaseId));
  }

  // ================================================================ /api/user/favorites

  /** `GET /api/user/favorites`: the session user's favourite releases; 500 without a session. */
  function ListUserFavorites(cookies: map<string, Auth.Cookie>, t: Store.Tables): (r: Response)
    ensures !SignedIn(cookies, t) ==> r == Fail(500, ListFailed)
    ensures SignedIn(cookies, t) ==> r == Ok(Favorites(Store.GetUserFavorites(t, SessionUserId(cookies, t))))
  {
    match Auth.RequireAuth(cookies, t)
    case Failure(_) => Fail(500, ListFailed)
    case Success(user) => Ok(Favorites(Store.GetUserFavorites(t, user.id)))
  }

  /**
   * `POST /api/user/favorites`: `release_id` from the body goes to
   * `addToFavorites` unchecked; a NULL or non-integer value makes the insert
   * fail, the release column being assumed to refuse NULL. Without a session
   * the answer is 500.
   */
  method AddUserFavorite(db: Store.Database, jar: Auth.CookieJar, req: Request) returns (resp: Response)
    requires db.Valid()
    modifies db
    ensures db.Valid()
    ensures resp.status == 200 <==>
              SignedIn(jar.cookies, old(db.State())) && req.body.Some? && IntParam(BodyField(req, "release_id")).IntVal?
    ensures resp.status == 200 ==>
              resp == Ok(Done)
              && db.State() == Store.WithFavorite(old(db.State()), SessionUserId(jar.cookies, old(db.State())),
                                                  IntParam(BodyField(req, "release_id")).n)
    ensures resp.status != 200 ==> resp == Fail(500, UserAddFailed) && db.State() == old(db.State())
  {
    var auth := Auth.RequireAuth(jar.cookies, db.State());
    if auth.Failure? || req.body.None? {
      return Fail(500, UserAddFailed);
    }
    match IntParam(BodyField(req, "release_id")) {
      case IntVal(n) =>
        db.AddToFavorites(auth.value.id, n);
        resp := Ok(Done);
      case _ =>
        resp := Fail(500, UserAddFailed);
    }
  }

  /**
   * `DELETE /api/user/favorites`: removes the pair named by `release_id` in the
   * body. A missing or null `release_id` compares with NULL, matches no row and
   * still succeeds; a non-integer value fails.
   */
  method RemoveUserFavorite(db: Store.Database, jar: Auth.CookieJar, req: Request) returns (resp: Response)
    requires db.Valid()
    modifies db
    ensures db.Valid()
    ensures resp.status == 200 <==>
              SignedIn(jar.cookies, old(db.State())) && req.body.Some? && !IntParam(BodyField(req, "release_id")).IntBad?
    ensures resp.status == 200 ==> resp == Ok(Done)
    ensures resp.status == 200 && IntParam(BodyField(req, "release_id")).IntVal? ==>
              db.State() == Store.WithoutFavorite(old(db.State()), SessionUserId(jar.cookies, old(db.State())),
                                                  IntParam(BodyField(req, "release_id")).n)
    ensures IntParam(BodyField(req, "release_id")).IntNull? ==> db.State() == old(db.State())
    ensures resp.status != 200 ==> resp == Fail(500, UserRemoveFailed) && db.State() == old(db.State())
  {
    var auth := Auth.RequireAuth(jar.cookies, db.State());
    if auth.Failure? || req.body.None? {
      return Fail(500, UserRemoveFailed);
    }
    match IntParam(BodyField(req, "release_id")) {
      case IntVal(n) =>
        db.RemoveFromFavorites(auth.value.id, n);
        resp := Ok(Done);
      case IntNull =>
        resp := Ok(Done);
      case IntBad =>
        resp := Fail(500, UserRemoveFailed);
    }
  }

  /** The profile page's list after a `POST` holds the added release, when it exists. */
  lemma UserFavoriteListed(t: Store.Tables, userId: int, x: Store.Release)
    requires t.Valid() && x in t.releases
    ensures x in Store.GetUserFavorites(Store.WithFavorite(t, userId, x.id), userId)
    ensures x !in Store.GetUserFavorites(Store.WithoutFavorite(t, userId, x.id), userId)
  {
    Store.WithFavoriteSpec(t, userId, x.id);
    Store.WithoutFavoriteSpec(t, userId, x.id);
    var t1 := Store.WithFavorite(t, userId, x.id);
    var t2 := Store.WithoutFavorite(t, userId, x.id);
    Store.IsFavoriteIff(t1, userId, x.id);
    Store.GetUserFavoritesComplete(t1, userId, x);
    if x in Store.GetUserFavorites(t2, userId) {
      Store.GetUserFavoritesSound(t2, userId, x);
      Store.IsFavoriteIff(t2, userId, x.id);
    }
  }
}
