/**
 * `PUT /api/user/profile`: the session user changes their username and/or
 * avatar. The handler starts from the session user and replaces it by the row
 * each update returns, so when both fields change the answer is the row of the
 * avatar update, which already carries the new username. Without a session
 * `requireAuth` throws and the answer is 500.
 */
module ProfileRoute {
  import opened Wrappers
  import Js
  import Store
  import Auth
  import opened Http

  const ProfileFailed: string := "Ошибка обновления профиля"

  /** `username && username !== user.username`. */
  predicate NameChange(u: Store.UserRow, v: Js.Value) {
    Js.Truthy(v) && v != Js.Str(u.username)
  }

  /** `avatar_url && avatar_url !== user.avatar_url`; a null avatar differs from every truthy value. */
  predicate AvatarChange(u: Store.UserRow, v: Js.Value) {
    Js.Truthy(v) && (u.avatarUrl.None? || v != Js.Str(u.avatarUrl.value))
  }

  /** Every field that is written binds as text. */
  predicate ProfileBinds(u: Store.UserRow, name: Js.Value, avatar: Js.Value) {
    (NameChange(u, name) ==> TextParam(name).Some?) && (AvatarChange(u, avatar) ==> TextParam(avatar).Some?)
  }

  /** The username the user ends up with. */
  function FinalUsername(u: Store.UserRow, name: Js.Value): string
    requires NameChange(u, name) ==> TextParam(name).Some?
  {
    if NameChange(u, name) then TextParam(name).value else u.username
  }

  /** The avatar the user ends up with. */
  function FinalAvatar(u: Store.UserRow, avatar: Js.Value): Option<string>
    requires AvatarChange(u, avatar) ==> TextParam(avatar).Some?
  {
    if AvatarChange(u, avatar) then Some(TextParam(avatar).value) else u.avatarUrl
  }

  /** The store after the username write, when there is one. */
  function AfterName(t: Store.Tables, u: Store.UserRow, name: Js.Value): Store.Tables
    requires NameChange(u, name) ==> TextParam(name).Some?
  {
    if NameChange(u, name) then Store.WithUsername(t, u.id, TextParam(name).value) else t
  }

  /** The store after both writes, in the handler's order. */
  function AfterProfile(t: Store.Tables, u: Store.UserRow, name: Js.Value, avatar: Js.Value): Store.Tables
    requires ProfileBinds(u, name, avatar)
  {
    var t1 := AfterName(t, u, name);
    if AvatarChange(u, avatar) then Store.WithAvatar(t1, u.id, TextParam(avatar).value) else t1
  }

  /**
   * The writes change exactly the session user's username and avatar, as
   * supplied, and nothing else; with no change there is no write.
   */
  lemma AfterProfileSpec(t: Store.Tables, u: Store.UserRow, name: Js.Value, avatar: Js.Value)
    requires t.Valid() && Store.GetUserById(t, u.id) == Some(u) && ProfileBinds(u, name, avatar)
    ensures AfterProfile(t, u, name, avatar).Valid()
    ensures Store.GetUserById(AfterProfile(t, u, name, avatar), u.id)
            == Some(u.(username := FinalUsername(u, name), avatarUrl := FinalAvatar(u, avatar)))
    ensures |AfterProfile(t, u, name, avatar).users| == |t.users|
    ensures forall i :: 0 <= i < |t.users| && t.users[i].id != u.id ==> AfterProfile(t, u, name, avatar).users[i] == t.users[i]
    ensures AfterProfile(t, u, name, avatar).(users := t.users) == t
    ensures !NameChange(u, name) && !AvatarChange(u, avatar) ==> AfterProfile(t, u, name, avatar) == t
  {
    var t1 := AfterName(t, u, name);
    if NameChange(u, name) {
      Store.WithUsernameSpec(t, u.id, TextParam(name).value);
    }
    if AvatarChange(u, avatar) {
      Store.WithAvatarSpec(t1, u.id, TextParam(avatar).value);
    }
  }

  /** A session resolves to a row that `getUserById` finds under its own id. */
  lemma SessionUserStored(cookies: map<string, Auth.Cookie>, t: Store.Tables)
    requires Auth.GetSession(cookies, t).Some?
    ensures Store.GetUserById(t, Auth.GetSession(cookies, t).value.id) == Auth.GetSession(cookies, t)
  {
  }

  predicate ProfileRequest(cookies: map<string, Auth.Cookie>, t: Store.Tables, req: Request) {
    Auth.GetSession(cookies, t).Some? && req.body.Some?
  }

  /**
   * `PUT /api/user/profile`: each supplied, non-empty and different field is
   * written, the username first; the answer is the user as stored afterwards.
   * A value that does not bind as text fails that write with 500 and keeps the
   * writes already made.
   */
  method UpdateProfile(db: Store.Database, jar: Auth.CookieJar, req: Request) returns (resp: Response)
    requires db.Valid()
    modifies db
    ensures db.Valid()
    ensures !ProfileRequest(jar.cookies, old(db.State()), req) ==>
              resp == Fail(500, ProfileFailed) && db.State() == old(db.State())
    ensures ProfileRequest(jar.cookies, old(db.State()), req) ==>
              var u := Auth.GetSession(jar.cookies, old(db.State())).value;
              var name, avatar := BodyField(req, "username"), BodyField(req, "avatar_url");
              if NameChange(u, name) && TextParam(name).None? then
                resp == Fail(500, ProfileFailed) && db.State() == old(db.State())
              else if AvatarChange(u, avatar) && TextParam(avatar).None? then
                resp == Fail(500, ProfileFailed) && db.State() == AfterName(old(db.State()), u, name)
              else
                db.State() == AfterProfile(old(db.State()), u, name, avatar)
                && resp == Ok(Profile(u.id, u.email, FinalUsername(u, name), FinalAvatar(u, avatar)))
  {
    var auth := Auth.RequireAuth(jar.cookies, db.State());
    if auth.Failure? || req.body.None? {
      return Fail(500, ProfileFailed);
    }
    var user := auth.value;
    ghost var t := db.State();
    SessionUserStored(jar.cookies, t);
    var name, avatar := BodyField(req, "username"), BodyField(req, "avatar_url");
    var updatedUser := user;

    if NameChange(user, name) {
      var username := TextParam(name);
      if username.None? {
        return Fail(500, ProfileFailed);
      }
      Store.WithUsernameSpec(db.State(), user.id, username.value);
      var r := db.UpdateUserProfile(user.id, username.value);
      updatedUser := r.value;
    }
    assert db.State() == AfterName(t, user, name);
    assert Store.GetUserById(db.State(), user.id) == Some(updatedUser);

    if AvatarChange(user, avatar) {
      var avatarUrl := TextParam(avatar);
      if avatarUrl.None? {
        return Fail(500, ProfileFailed);
      }
      Store.WithAvatarSpec(db.State(), user.id, avatarUrl.value);
      var r := db.UpdateUserAvatar(user.id, avatarUrl.value);
      updatedUser := r.value;
    }
    AfterProfileSpec(t, user, name, avatar);
    resp := Ok(Profile(updatedUser.id, updatedUser.email, updatedUser.username, updatedUser.avatarUrl));
  }
}
