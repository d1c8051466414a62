/**
 * `app/api/admin/releases/route.ts`: the admin release CRUD. Every method first
 * checks the admin cookie and answers 401 without touching the store. The body
 * fields are bound to the statement's parameters as they come; a value the
 * column refuses (a text column given null, `parseInt` giving NaN) makes the
 * statement fail, and the handler answers 500 with nothing written.
 */
module AdminReleaseRoutes {
  import opened Wrappers
  import Js
  import Store
  import Auth
  import opened Http

  const Unauthorized: string := "Unauthorized"
  const ListFailed: string := "Ошибка получения релизов"
  const CreateFailed: string := "Ошибка создания релиза"
  const UpdateFailed: string := "Ошибка обновления релиза"
  const DeleteFailed: string := "Ошибка удаления релиза"
  const IdRequired: string := "ID не указан"

  // ================================================================ field coercions

  /**
   * The ten form columns of a `POST` or `PUT` body: text columns as given,
   * `year` and `total_episodes` through `parseInt`, `genres` as the array it is.
   * `None` when a column refuses its value.
   */
  function ReleaseForm(req: Request): Option<Store.ReleaseData> {
    var title, titleRu, description := TextParam(BodyField(req, "title")), TextParam(BodyField(req, "title_ru")),
                                       TextParam(BodyField(req, "description"));
    var cover, season, status := TextParam(BodyField(req, "cover_image_url")), TextParam(BodyField(req, "season")),
                                 TextParam(BodyField(req, "status"));
    var rating, genres := TextParam(BodyField(req, "rating")), TextArrayParam(BodyField(req, "genres"));
    var year, total := Js.ParseIntValue(BodyField(req, "year")), Js.ParseIntValue(BodyField(req, "total_episodes"));
    if req.body.Some? && title.Some? && titleRu.Some? && description.Some? && cover.Some? && season.Some?
       && status.Some? && rating.Some? && genres.Some? && year.Some? && total.Some? then
      Some(Store.ReleaseData(title.value, titleRu.value, description.value, cover.value, year.value, season.value,
                             total.value, status.value, genres.value, rating.value))
    else None
  }

  /**
   * The form as stored: numbers are `parseInt` of the fields (so the string
   * "2024" and the number 2024 both give 2024), the genre array is passed on
   * unchanged, and string fields are kept verbatim.
   */
  lemma ReleaseFormSpec(req: Request, year: int, total: int)
    requires ReleaseForm(req).Some?
    ensures var d := ReleaseForm(req).value;
            Some(d.year) == Js.ParseIntValue(BodyField(req, "year"))
            && Some(d.totalEpisodes) == Js.ParseIntValue(BodyField(req, "total_episodes"))
            && BodyField(req, "genres") == Js.StrList(d.genres)
            && (BodyField(req, "title").Str? ==> d.title == BodyField(req, "title").s)
            && (BodyField(req, "title_ru").Str? ==> d.titleRu == BodyField(req, "title_ru").s)
    ensures BodyField(req, "year") == Js.Num(year) ==> ReleaseForm(req).value.year == year
    ensures BodyField(req, "year") == Js.Str(Js.IntToString(year)) ==> ReleaseForm(req).value.year == year
    ensures BodyField(req, "total_episodes") == Js.Num(total) ==> ReleaseForm(req).value.totalEpisodes == total
  {
    Js.ParseIntValueOfNum(year);
    Js.ParseIntValueOfNum(total);
  }

  /** `data.featured` as `updateRelease` binds `featured ?? false`: a boolean, or nothing. */
  function FeaturedArg(v: Js.Value): (r: Option<Option<bool>>)
    ensures v.Undefined? || v.Null? ==> r == Some(None)
    ensures v.Bool? ==> r == Some(Some(v.b))
    ensures !(v.Undefined? || v.Null? || v.Bool?) ==> r.None?
  {
    match v
    case Undefined => Some(None)
    case Null => Some(None)
    case Bool(b) => Some(Some(b))
    case _ => None
  }

  /** `data.featured_order ? Number.parseInt(data.featured_order) : 0`; NaN is refused by the column. */
  function FeaturedOrderArg(v: Js.Value): Option<int> {
    if Js.Truthy(v) then Js.ParseIntValue(v) else Some(0)
  }

  /** A falsy order becomes 0; any other is `parseInt`'d, and a number is kept. */
  lemma FeaturedOrderArgSpec(v: Js.Value, n: int)
    ensures !Js.Truthy(v) ==> FeaturedOrderArg(v) == Some(0)
    ensures FeaturedOrderArg(Js.Num(n)) == Some(n)
    ensures FeaturedOrderArg(Js.Str(Js.IntToString(n))) == Some(n)
  {
    Js.ParseIntValueOfNum(n);
  }

  /** The `release_day` the handler computes: kept undefined, kept null, or `parseInt`'d (`None` is NaN). */
  datatype DayArg = DayUndefined | DayNull | DayNumber(day: Option<int>)

  function ReleaseDayArg(v: Js.Value): DayArg {
    if v != Js.Undefined then (if v == Js.Null then DayNull else DayNumber(Js.ParseIntValue(v))) else DayUndefined
  }

  lemma ReleaseDayArgSpec(v: Js.Value, n: int)
    ensures ReleaseDayArg(Js.Undefined) == DayUndefined
    ensures ReleaseDayArg(Js.Null) == DayNull
    ensures ReleaseDayArg(Js.Num(n)) == DayNumber(Some(n))
    ensures ReleaseDayArg(Js.Str(Js.IntToString(n))) == DayNumber(Some(n))
    ensures !v.Undefined? && !v.Null? ==> ReleaseDayArg(v) == DayNumber(Js.ParseIntValue(v))
  {
    Js.ParseIntValueOfNum(n);
    assert ReleaseDayArg(Js.Num(n)) == DayNumber(Js.ParseIntValue(Js.Num(n)));
    assert ReleaseDayArg(Js.Str(Js.IntToString(n))) == DayNumber(Js.ParseIntValue(Js.Str(Js.IntToString(n))));
  }

  /** The whole argument of `updateRelease`, or `None` when a column refuses its value. */
  function ReleaseUpdateArg(req: Request): Option<Store.ReleaseUpdate> {
    var form := ReleaseForm(req);
    var featured := FeaturedArg(BodyField(req, "featured"));
    var order := FeaturedOrderArg(BodyField(req, "featured_order"));
    if form.Some? && featured.Some? && order.Some? then
      Some(Store.ReleaseUpdate(form.value, featured.value, Some(order.value)))
    else None
  }

  /** A `PUT` without `featured` unfeatures the release; without `featured_order` the order becomes 0. */
  lemma ReleaseUpdateArgDefaults(req: Request)
    requires ReleaseUpdateArg(req).Some?
    ensures BodyField(req, "featured").Undefined? ==> ReleaseUpdateArg(req).value.featured.GetOr(false) == false
    ensures !Js.Truthy(BodyField(req, "featured_order")) ==> ReleaseUpdateArg(req).value.featuredOrder == Some(0)
    ensures ReleaseUpdateArg(req).value.data == ReleaseForm(req).value
  {
  }

  // ================================================================ handlers

  /** `GET /api/admin/releases`: every release, newest first, for the admin only. */
  function ListReleases(cookies: map<string, Auth.Cookie>, t: Store.Tables): (r: Response)
    ensures !Auth.CheckAdminAuth(cookies) ==> r == Fail(401, Unauthorized)
    ensures Auth.CheckAdminAuth(cookies) ==> r.status == 200 && r.payload.Releases?
    ensures Auth.CheckAdminAuth(cookies) ==>
              (forall x :: x in r.payload.releases <==> x in t.releases) && |r.payload.releases| == |t.releases|
    ensures Auth.CheckAdminAuth(cookies) ==> r == Ok(Releases(Store.GetAllReleases(t)))
  {
    if !Auth.CheckAdminAuth(cookies) then Fail(401, Unauthorized)
    else Ok(Releases(Store.GetAllReleases(t)))
  }

  /** For the admin, the list holds every release exactly once, newest first. */
  lemma ListReleasesSpec(cookies: map<string, Auth.Cookie>, t: Store.Tables)
    requires t.Valid() && Auth.CheckAdminAuth(cookies)
    ensures multiset(ListReleases(cookies, t).payload.releases) == multiset(t.releases)
    ensures Store.NewestFirst(ListReleases(cookies, t).payload.releases)
  {
    Store.GetAllReleasesSpec(t);
  }

  /** `POST /api/admin/releases`: inserts the form as a new, unfeatured release and returns it. */
  method CreateRelease(db: Store.Database, jar: Auth.CookieJar, req: Request) returns (resp: Response)
    requires db.Valid()
    modifies db
    ensures db.Valid()
    ensures !Auth.CheckAdminAuth(jar.cookies) ==> resp == Fail(401, Unauthorized) && db.State() == old(db.State())
    ensures Auth.CheckAdminAuth(jar.cookies) && ReleaseForm(req).None? ==>
              resp == Fail(500, CreateFailed) && db.State() == old(db.State())
    ensures Auth.CheckAdminAuth(jar.cookies) && ReleaseForm(req).Some? ==>
              db.State() == Store.WithRelease(old(db.State()), ReleaseForm(req).value)
              && resp == Ok(ReleaseSaved(Some(Store.NewRelease(old(db.State()), ReleaseForm(req).value))))
  {
    if !Auth.CheckAdminAuth(jar.cookies) {
      return Fail(401, Unauthorized);
    }
    var form := ReleaseForm(req);
    if form.None? {
      return Fail(500, CreateFailed);
    }
    var release := db.CreateRelease(form.value);
    resp := Ok(ReleaseSaved(Some(release)));
  }

  /**
   * `PUT /api/admin/releases`: rewrites the release `data.id`. An id that
   * matches no row (including a null one) leaves `release` undefined, and the
   * following read of `release.release_day` throws: the answer is then 500,
   * though nothing was written. `release_day` is computed but never stored.
   */
  method UpdateRelease(db: Store.Database, jar: Auth.CookieJar, req: Request) returns (resp: Response)
    requires db.Valid()
    modifies db
    ensures db.Valid()
    ensures !Auth.CheckAdminAuth(jar.cookies) ==> resp == Fail(401, Unauthorized) && db.State() == old(db.State())
    ensures Auth.CheckAdminAuth(jar.cookies) && (ReleaseUpdateArg(req).None? || !IntParam(BodyField(req, "id")).IntVal?) ==>
              resp == Fail(500, UpdateFailed) && db.State() == old(db.State())
    ensures Auth.CheckAdminAuth(jar.cookies) && ReleaseUpdateArg(req).Some? && IntParam(BodyField(req, "id")).IntVal? ==>
              var id := IntParam(BodyField(req, "id")).n;
              db.State() == Store.WithReleaseUpdate(old(db.State()), id, ReleaseUpdateArg(req).value)
              && (Store.FindRelease(old(db.State()), id).None? ==> resp == Fail(500, UpdateFailed) && db.State() == old(db.State()))
              && (Store.FindRelease(old(db.State()), id).Some? ==> resp == Ok(ReleaseSaved(Store.FindRelease(db.State(), id))))
  {
    if !Auth.CheckAdminAuth(jar.cookies) {
      return Fail(401, Unauthorized);
    }
    if req.body.None? {
      return Fail(500, UpdateFailed);
    }
    var update := ReleaseUpdateArg(req);
    var releaseDay := ReleaseDayArg(BodyField(req, "release_day"));
    if update.None? {
      return Fail(500, UpdateFailed);
    }
    match IntParam(BodyField(req, "id")) {
      case IntVal(id) =>
        ghost var t := db.State();
        Store.WithReleaseUpdateSpec(t, id, update.value);
        if Store.FindRelease(t, id).None? {
          UpdateOfAbsentRelease(t, id, update.value);
        }
        var release := db.UpdateRelease(id, update.value);
        if release.None? {
          return Fail(500, UpdateFailed);
        }
        resp := Ok(ReleaseSaved(release));
      case _ =>
        resp := Fail(500, UpdateFailed);
    }
  }

  /** An update of an id no release has writes nothing. */
  lemma UpdateOfAbsentRelease(t: Store.Tables, id: int, u: Store.ReleaseUpdate)
    requires Store.FindRelease(t, id).None?
    ensures Store.WithReleaseUpdate(t, id, u) == t
  {
    var t' := Store.WithReleaseUpdate(t, id, u);
    Store.WithReleaseUpdateFrame(t, id, u);
    forall i | 0 <= i < |t.releases| ensures t'.releases[i] == t.releases[i] {
      assert t.releases[i] in t.releases;
    }
  }

  /**
   * `DELETE /api/admin/releases?id=`: 400 without an id; otherwise the cascade
   * of `deleteRelease`, answered with success whether or not the release
   * existed. An id with no leading digits is NaN and the first statement fails.
   */
  method DeleteRelease(db: Store.Database, jar: Auth.CookieJar, req: Request) returns (resp: Response)
    requires db.Valid()
    modifies db
    ensures db.Valid()
    ensures !Auth.CheckAdminAuth(jar.cookies) ==> resp == Fail(401, Unauthorized) && db.State() == old(db.State())
    ensures Auth.CheckAdminAuth(jar.cookies) && !Given(Query(req, "id")) ==>
              resp == Fail(400, IdRequired) && db.State() == old(db.State())
    ensures Auth.CheckAdminAuth(jar.cookies) && Given(Query(req, "id")) ==>
              match Js.ParseInt(Query(req, "id").value)
              case None => resp == Fail(500, DeleteFailed) && db.State() == old(db.State())
              case Some(id) => resp == Ok(Done) && db.State() == Store.AfterDeleteRelease(old(db.State()), id)
  {
    if !Auth.CheckAdminAuth(jar.cookies) {
      return Fail(401, Unauthorized);
    }
    var id := Query(req, "id");
    if !Given(id) {
      return Fail(400, IdRequired);
    }
    match Js.ParseInt(id.value) {
      case None =>
        resp := Fail(500, DeleteFailed);
      case Some(n) =>
        var deleted := db.DeleteRelease(n);
        resp := Ok(Done);
    }
  }
}
