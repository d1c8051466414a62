/**
 * `app/api/admin/episodes/route.ts`: the admin episode CRUD, behind the same
 * admin-cookie check as the release routes.
 */
module AdminEpisodeRoutes {
  import opened Wrappers
  import Js
  import Store
  import Auth
  import opened Http

  const Unauthorized: string := "Unauthorized"
  const ReleaseIdRequired: string := "Release ID не указан"
  const ListFailed: string := "Ошибка получения эпизодов"
  const CreateFailed: string := "Ошибка создания эпизода"
  const UpdateFailed: string := "Ошибка обновления эпизода"
  const DeleteFailed: string := "Ошибка удаления эпизода"
  const IdRequired: string := "ID не указан"

  // ================================================================ field coercions

  /** `data.duration ? Number.parseInt(data.duration) : undefined`, then `|| null`: NaN is stored as NULL too. */
  function DurationArg(v: Js.Value): Option<int> {
    if Js.Truthy(v) then Js.ParseIntValue(v) else None
  }

  /** A text duration is read with `parseInt` unless it is empty. */
  lemma DurationArgOfText(s: string)
    ensures DurationArg(Js.Str(s)) == if s == "" then None else Js.ParseInt(s)
  {
    Js.ParseIntValueOfText(s);
  }

  /** An absent, empty or zero duration is sent as nothing; a number is sent as itself. */
  lemma DurationArgSpec(v: Js.Value, n: int)
    ensures !Js.Truthy(v) ==> DurationArg(v).None?
    ensures DurationArg(Js.Undefined).None? && DurationArg(Js.Str("")).None? && DurationArg(Js.Num(0)).None?
    ensures n != 0 ==> DurationArg(Js.Num(n)) == Some(n)
    ensures Store.NumberOrNull(DurationArg(Js.Num(n))) == (if n == 0 then None else Some(n))
  {
    Js.ParseIntValueOfNum(n);
  }

  /** `data.thumbnail_url || null`: a falsy value is NULL, any other binds as text. */
  function ThumbnailArg(v: Js.Value): (r: Option<Option<string>>)
    ensures !Js.Truthy(v) ==> r == Some(None)
    ensures v.Str? && v.s != "" ==> r == Some(Some(v.s))
  {
    if !Js.Truthy(v) then Some(None)
    else match TextParam(v)
      case None => None
      case Some(s) => Some(Some(s))
  }

  /** The columns of a `POST` or `PUT` body, or `None` when a column refuses its value. */
  function EpisodeForm(req: Request): Option<Store.EpisodeData> {
    var number := Js.ParseIntValue(BodyField(req, "episode_number"));
    var title, url := TextParam(BodyField(req, "title")), TextParam(BodyField(req, "vk_video_url"));
    var thumbnail := ThumbnailArg(BodyField(req, "thumbnail_url"));
    var date := TextParam(BodyField(req, "release_date"));
    if req.body.Some? && number.Some? && title.Some? && url.Some? && thumbnail.Some? && date.Some? then
      Some(Store.EpisodeData(number.value, title.value, url.value, thumbnail.value,
                             DurationArg(BodyField(req, "duration")), date.value))
    else None
  }

  /**
   * Every parameter of the statement binds: the body decoded, the episode
   * number is an integer, the thumbnail binds, and each required text column
   * receives text or NULL. A NULL is refused only by a row the statement writes.
   */
  predicate EpisodeBinds(req: Request) {
    && req.body.Some?
    && Js.ParseIntValue(BodyField(req, "episode_number")).Some?
    && NullableTextParam(BodyField(req, "title")).Some?
    && NullableTextParam(BodyField(req, "vk_video_url")).Some?
    && ThumbnailArg(BodyField(req, "thumbnail_url")).Some?
    && NullableTextParam(BodyField(req, "release_date")).Some?
  }

  /** Null and undefined both bind as NULL. */
  predicate Missing(v: Js.Value) { v.Null? || v.Undefined? }

  /** Among bound bodies, the form is refused exactly when a required text column is null or missing. */
  lemma EpisodeFormBinds(req: Request)
    ensures EpisodeForm(req).Some? ==> EpisodeBinds(req)
    ensures EpisodeBinds(req) ==>
              (EpisodeForm(req).None? <==>
                 Missing(BodyField(req, "title")) || Missing(BodyField(req, "vk_video_url")) || Missing(BodyField(req, "release_date")))
  {
  }

  /** The episode number is `parseInt` of the field, and a falsy duration is sent as nothing. */
  lemma EpisodeFormSpec(req: Request)
    requires EpisodeForm(req).Some?
    ensures Some(EpisodeForm(req).value.episodeNumber) == Js.ParseIntValue(BodyField(req, "episode_number"))
    ensures !Js.Truthy(BodyField(req, "duration")) ==> EpisodeForm(req).value.duration.None?
    ensures EpisodeForm(req).value.duration.Some? ==> Some(EpisodeForm(req).value.duration.value) == Js.ParseIntValue(BodyField(req, "duration"))
  {
  }

  // ================================================================ handlers

  /** `GET /api/admin/episodes?releaseId=`: the release's episodes by episode number. */
  function ListEpisodes(cookies: map<string, Auth.Cookie>, t: Store.Tables, req: Request): (r: Response)
    ensures !Auth.CheckAdminAuth(cookies) ==> r == Fail(401, Unauthorized)
    ensures Auth.CheckAdminAuth(cookies) && !Given(Query(req, "releaseId")) ==> r == Fail(400, ReleaseIdRequired)
    ensures Auth.CheckAdminAuth(cookies) && Given(Query(req, "releaseId")) ==>
              match Js.ParseInt(Query(req, "releaseId").value)
              case None => r == Fail(500, ListFailed)
              case Some(id) =>
                r.status == 200 && r.payload.Episodes?
                && (forall e :: e in r.payload.episodes <==> e in t.episodes && e.releaseId == id)
                && (forall i, j :: 0 <= i < j < |r.payload.episodes| ==>
                      r.payload.episodes[i].episodeNumber <= r.payload.episodes[j].episodeNumber)
  {
    if !Auth.CheckAdminAuth(cookies) then Fail(401, Unauthorized)
    else
      var releaseId := Query(req, "releaseId");
      if !Given(releaseId) then Fail(400, ReleaseIdRequired)
      else
        match Js.ParseInt(releaseId.value)
        case None => Fail(500, ListFailed)
        case Some(id) =>
          Store.GetEpisodesByReleaseIdSpec(t, id);
          Ok(Episodes(Store.GetEpisodesByReleaseId(t, id)))
  }

  /** `POST /api/admin/episodes`: adds the episode to release `parseInt(release_id)` and returns it. */
  method CreateEpisode(db: Store.Database, jar: Auth.CookieJar, req: Request) returns (resp: Response)
    requires db.Valid()
    modifies db
    ensures db.Valid()
    ensures !Auth.CheckAdminAuth(jar.cookies) ==> resp == Fail(401, Unauthorized) && db.State() == old(db.State())
    ensures Auth.CheckAdminAuth(jar.cookies) && (EpisodeForm(req).None? || Js.ParseIntValue(BodyField(req, "release_id")).None?) ==>
              resp == Fail(500, CreateFailed) && db.State() == old(db.State())
    ensures Auth.CheckAdminAuth(jar.cookies) && EpisodeForm(req).Some? && Js.ParseIntValue(BodyField(req, "release_id")).Some? ==>
              var releaseId := Js.ParseIntValue(BodyField(req, "release_id")).value;
              db.State() == Store.WithEpisode(old(db.State()), releaseId, EpisodeForm(req).value)
              && resp == Ok(EpisodeSaved(Some(Store.NewEpisode(old(db.State()), releaseId, EpisodeForm(req).value))))
  {
    if !Auth.CheckAdminAuth(jar.cookies) {
      return Fail(401, Unauthorized);
    }
    var releaseId := Js.ParseIntValue(BodyField(req, "release_id"));
    var form := EpisodeForm(req);
    if releaseId.None? || form.None? {
      return Fail(500, CreateFailed);
    }
    var episode := db.CreateEpisode(releaseId.value, form.value);
    resp := Ok(EpisodeSaved(Some(episode)));
  }

  /**
   * `PUT /api/admin/episodes`: rewrites episode `data.id` but never its release.
   * A parameter that does not bind fails the statement whatever the id. An id
   * matching nothing (a null one included) writes nothing, so a NULL title,
   * URL or date is never checked against the column, and the answer is success
   * without an episode. Only a matched row refuses such a NULL.
   */
  method UpdateEpisode(db: Store.Database, jar: Auth.CookieJar, req: Request) returns (resp: Response)
    requires db.Valid()
    modifies db
    ensures db.Valid()
    ensures !Auth.CheckAdminAuth(jar.cookies) ==> resp == Fail(401, Unauthorized) && db.State() == old(db.State())
    ensures Auth.CheckAdminAuth(jar.cookies) && (!EpisodeBinds(req) || IntParam(BodyField(req, "id")).IntBad?) ==>
              resp == Fail(500, UpdateFailed) && db.State() == old(db.State())
    ensures Auth.CheckAdminAuth(jar.cookies) && EpisodeBinds(req) && IntParam(BodyField(req, "id")).IntNull? ==>
              resp == Ok(EpisodeSaved(None)) && db.State() == old(db.State())
    ensures Auth.CheckAdminAuth(jar.cookies) && EpisodeBinds(req) && IntParam(BodyField(req, "id")).IntVal?
            && Store.FindEpisode(old(db.State()), IntParam(BodyField(req, "id")).n).None? ==>
              resp == Ok(EpisodeSaved(None)) && db.State() == old(db.State())
    ensures Auth.CheckAdminAuth(jar.cookies) && EpisodeBinds(req) && EpisodeForm(req).None? && IntParam(BodyField(req, "id")).IntVal?
            && Store.FindEpisode(old(db.State()), IntParam(BodyField(req, "id")).n).Some? ==>
              resp == Fail(500, UpdateFailed) && db.State() == old(db.State())
    ensures Auth.CheckAdminAuth(jar.cookies) && EpisodeForm(req).Some? && IntParam(BodyField(req, "id")).IntVal? ==>
              var id := IntParam(BodyField(req, "id")).n;
              db.State() == Store.WithEpisodeUpdate(old(db.State()), id, EpisodeForm(req).value)
              && resp == Ok(EpisodeSaved(Store.FindEpisode(db.State(), id)))
              && (forall i :: 0 <= i < |old(db.State()).episodes| ==>
                    db.State().episodes[i].releaseId == old(db.State()).episodes[i].releaseId)
  {
    if !Auth.CheckAdminAuth(jar.cookies) {
      return Fail(401, Unauthorized);
    }
    if !EpisodeBinds(req) {
      return Fail(500, UpdateFailed);
    }
    EpisodeFormBinds(req);
    var form := EpisodeForm(req);
    match IntParam(BodyField(req, "id")) {
      case IntVal(id) =>
        ghost var t := db.State();
        if form.None? {
          if Store.FindEpisode(db.State(), id).Some? {
            return Fail(500, UpdateFailed);
          }
          return Ok(EpisodeSaved(None));
        }
        if Store.FindEpisode(t, id).None? {
          UpdateOfAbsentEpisode(t, id, form.value);
        }
        Store.WithEpisodeUpdateSpec(t, id, form.value);
        var episode := db.UpdateEpisode(id, form.value);
        resp := Ok(EpisodeSaved(episode));
      case IntNull =>
        resp := Ok(EpisodeSaved(None));
      case IntBad =>
        resp := Fail(500, UpdateFailed);
    }
  }

  /** An update of an id no episode has writes nothing, whatever the columns. */
  lemma UpdateOfAbsentEpisode(t: Store.Tables, id: int, d: Store.EpisodeData)
    requires t.Valid() && Store.FindEpisode(t, id).None?
    ensures Store.WithEpisodeUpdate(t, id, d) == t
  {
    var t' := Store.WithEpisodeUpdate(t, id, d);
    Store.WithEpisodeUpdateSpec(t, id, d);
    assert |t'.episodes| == |t.episodes|;
    forall i | 0 <= i < |t.episodes| ensures t'.episodes[i] == t.episodes[i] {
      assert t.episodes[i] in t.episodes;
    }
  }

  /**
   * `DELETE /api/admin/episodes?id=`: 400 without an id; otherwise the episode
   * and its watch history go, answered with success whether or not it existed.
   */
  method DeleteEpisode(db: Store.Database, jar: Auth.CookieJar, req: Request) returns (resp: Response)
    requires db.Valid()
    modifies db
    ensures db.Valid()
    ensures !Auth.CheckAdminAuth(jar.cookies) ==> resp == Fail(401, Unauthorized) && db.State() == old(db.State())
    ensures Auth.CheckAdminAuth(jar.cookies) && !Given(Query(req, "id")) ==>
              resp == Fail(400, IdRequired) && db.State() == old(db.State())
    ensures Auth.CheckAdminAuth(jar.cookies) && Given(Query(req, "id")) ==>
              match Js.ParseInt(Query(req, "id").value)
              case None => resp == Fail(500, DeleteFailed) && db.State() == old(db.State())
              case Some(id) => resp == Ok(Done) && db.State() == Store.AfterDeleteEpisode(old(db.State()), id)
  {
    if !Auth.CheckAdminAuth(jar.cookies) {
      return Fail(401, Unauthorized);
    }
    var id := Query(req, "id");
    if !Given(id) {
      return Fail(400, IdRequired);
    }
    match Js.ParseInt(id.value) {
      case None =>
        resp := Fail(500, DeleteFailed);
      case Some(n) =>
        var deleted := db.DeleteEpisode(n);
        resp := Ok(Done);
    }
  }
}
