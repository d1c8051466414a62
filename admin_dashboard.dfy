/**
 * `components/admin-dashboard.tsx`: the admin page's forms. The release form
 * edits genres as one comma-separated text field; the episode form keeps its
 * numbers as text. The dashboard's state changes handler by handler; each
 * awaited `fetch` ends as the `outcome` parameter says, and the answers that
 * refresh the lists arrive through `ReceiveEpisodes`.
 */
module AdminDashboard {
  import opened Wrappers
  import Js
  import Http
  import Client
  import Store
  import AdminReleaseRoutes
  import AdminEpisodeRoutes

  // ================================================================ genres field

  /** `genres.split(",").map((g) => g.trim())`: the genres a form submits. */
  function SplitGenres(field: string): (genres: seq<string>)
    ensures |genres| == |Js.Split(field, ',')|
    ensures forall i :: 0 <= i < |genres| ==> genres[i] == Js.Trim(Js.Split(field, ',')[i])
  {
    var pieces := Js.Split(field, ',');
    seq(|pieces|, i requires 0 <= i < |pieces| => Js.Trim(pieces[i]))
  }

  /** `release.genres.join(", ")`: the field the edit form shows. */
  function JoinGenres(genres: seq<string>): string {
    Js.Join(genres, ", ")
  }

  /** A genre the field can carry unchanged: no comma, nothing for `trim` to remove. */
  predicate CleanGenre(g: string) {
    Js.Excludes(g, ',') && Js.Trimmed(g)
  }

  /** Splitting the joined field on "," gives the first genre, then each other one after a space. */
  lemma {:induction false} SplitJoined(genres: seq<string>)
    requires |genres| > 0 && forall i :: 0 <= i < |genres| ==> Js.Excludes(genres[i], ',')
    ensures |Js.Split(JoinGenres(genres), ',')| == |genres|
    ensures Js.Split(JoinGenres(genres), ',')[0] == genres[0]
    ensures forall i :: 0 < i < |genres| ==> Js.Split(JoinGenres(genres), ',')[i] == " " + genres[i]
    decreases |genres|
  {
    if |genres| == 1 {
      Js.SplitNoSep(genres[0], ',');
    } else {
      var rest := genres[1..];
      var joined := JoinGenres(rest);
      SplitJoined(rest);
      var inner := Js.Split(joined, ',');
      SplitAfterFirst(genres[0], joined);
      var whole := Js.Split(JoinGenres(genres), ',');
      assert whole == [genres[0]] + ([" " + inner[0]] + inner[1..]);
      forall i | 0 < i < |genres| ensures whole[i] == " " + genres[i] {
        if i > 1 {
          assert whole[i] == inner[i - 1] == " " + rest[i - 1];
        }
      }
    }
  }

  /** One step of `SplitJoined`: the first genre, then the rest's pieces with a space on the first. */
  lemma SplitAfterFirst(first: string, joined: string)
    requires Js.Excludes(first, ',')
    ensures Js.Split(first + ", " + joined, ',') == [first] + ([" " + Js.Split(joined, ',')[0]] + Js.Split(joined, ',')[1..])
  {
    assert Js.Excludes(" ", ',');
    Js.SplitPrefix(" ", ',', joined);
    assert first + ", " + joined == first + [','] + (" " + joined);
    Js.SplitAtSep(first, ',', " " + joined);
  }

  /**
   * The edit form's field submits the genres it was made from, provided there
   * is at least one and none holds a comma or leading or trailing whitespace.
   */
  lemma GenresRoundTrip(genres: seq<string>)
    requires |genres| > 0 && forall i :: 0 <= i < |genres| ==> CleanGenre(genres[i])
    ensures SplitGenres(JoinGenres(genres)) == genres
  {
    SplitJoined(genres);
    var pieces := Js.Split(JoinGenres(genres), ',');
    var split := SplitGenres(JoinGenres(genres));
    forall i | 0 <= i < |genres| ensures split[i] == genres[i] {
      if i == 0 {
        Js.TrimOfTrimmed(genres[0]);
      } else {
        TrimSpaced(genres[i]);
      }
    }
  }

  /** `trim` takes off the space `join(", ")` put in front of a genre. */
  lemma TrimSpaced(g: string)
    requires Js.Trimmed(g)
    ensures Js.Trim(" " + g) == g
  {
    assert Js.IsSpace(" "[0]);
    Js.TrimAfterSpaces(" ", g);
  }

  /** An empty field submits one empty genre, so a release without genres comes back with `[""]`. */
  lemma EmptyGenresField()
    ensures SplitGenres("") == [""]
    ensures SplitGenres(JoinGenres([])) == [""]
  {
    assert Js.Trim("") == "";
  }

  // ================================================================ forms

  /** A release as the admin list receives it; `featured` and `featured_order` may be missing. */
  datatype ListedRelease = ListedRelease(
    id: int, title: string, titleRu: string, description: string, coverImageUrl: string,
    year: int, season: string, totalEpisodes: int, status: string, genres: seq<string>, rating: string,
    featured: Option<bool>, featuredOrder: Option<int>)

  /** `releaseForm`: every field is text except the `featured` checkbox. */
  datatype ReleaseForm = ReleaseForm(
    title: string, titleRu: string, description: string, coverImageUrl: string,
    year: string, season: string, totalEpisodes: string, status: string, genres: string, rating: string,
    featured: bool, featuredOrder: string)

  /** `episodeForm`: every field is text. */
  datatype EpisodeForm = EpisodeForm(
    releaseId: string, episodeNumber: string, title: string, vkVideoUrl: string,
    thumbnailUrl: string, duration: string, releaseDate: string)

  /** The empty release form, dated with the current year. */
  function BlankReleaseForm(currentYear: int): ReleaseForm {
    ReleaseForm("", "", "", "", Js.IntToString(currentYear), "summer", "", "ongoing", "", "16+", false, "0")
  }

  /** The form `handleEditRelease` fills in from a release. */
  function EditForm(r: ListedRelease): ReleaseForm {
    ReleaseForm(r.title, r.titleRu, r.description, r.coverImageUrl, Js.IntToString(r.year), r.season,
                Js.IntToString(r.totalEpisodes), r.status, JoinGenres(r.genres), r.rating,
                r.featured == Some(true), Js.IntToString(if r.featuredOrder.Some? then r.featuredOrder.value else 0))
  }

  /**
   * `handleEditRelease`: a missing `featured` is unchecked, a missing or zero
   * `featured_order` is "0", numbers are shown as text that reads back as the
   * same number, and clean genres come back from the genres field.
   */
  lemma EditFormSpec(r: ListedRelease)
    ensures var form := EditForm(r);
            form.title == r.title && form.titleRu == r.titleRu && form.description == r.description
            && form.coverImageUrl == r.coverImageUrl && form.season == r.season && form.status == r.status
            && form.rating == r.rating
            && (form.featured <==> r.featured == Some(true))
            && (r.featuredOrder.None? || r.featuredOrder == Some(0) ==> form.featuredOrder == "0")
            && Js.ParseInt(form.featuredOrder) == Some(r.featuredOrder.GetOr(0))
            && Js.ParseInt(form.year) == Some(r.year)
            && Js.ParseInt(form.totalEpisodes) == Some(r.totalEpisodes)
    ensures |r.genres| > 0 && (forall i :: 0 <= i < |r.genres| ==> CleanGenre(r.genres[i])) ==>
              SplitGenres(EditForm(r).genres) == r.genres
  {
    ParsesBack(r.year);
    ParsesBack(r.totalEpisodes);
    ParsesBack(r.featuredOrder.GetOr(0));
    if |r.genres| > 0 && (forall i :: 0 <= i < |r.genres| ==> CleanGenre(r.genres[i])) {
      GenresRoundTrip(r.genres);
    }
  }

  /** `n.toString()` reads back as `n`. */
  lemma ParsesBack(n: int)
    ensures Js.ParseInt(Js.IntToString(n)) == Some(n)
  {
    Js.ParseIntOfIntToString(n, []);
    assert Js.IntToString(n) + [] == Js.IntToString(n);
  }

  /** `(Number.parseInt(episode_number) + 1).toString()`: "NaN" when the field holds no number. */
  function NextEpisodeNumber(field: string): string {
    match Js.ParseInt(field)
    case Some(n) => Js.IntToString(n + 1)
    case None => "NaN"
  }

  /** The episode form after an episode is created. */
  function AfterEpisodeCreated(form: EpisodeForm): EpisodeForm {
    form.(episodeNumber := NextEpisodeNumber(form.episodeNumber), title := "", vkVideoUrl := "", thumbnailUrl := "")
  }

  /**
   * After a creation the episode number is one more, the title, video and
   * thumbnail are cleared, and the release, duration and date are kept.
   */
  lemma AfterEpisodeCreatedSpec(form: EpisodeForm)
    ensures var next := AfterEpisodeCreated(form);
            next.releaseId == form.releaseId && next.duration == form.duration && next.releaseDate == form.releaseDate
            && next.title == "" && next.vkVideoUrl == "" && next.thumbnailUrl == ""
            && (Js.ParseInt(form.episodeNumber).Some? ==>
                  Js.ParseInt(next.episodeNumber) == Some(Js.ParseInt(form.episodeNumber).value + 1))
            && (Js.ParseInt(form.episodeNumber).None? ==> next.episodeNumber == "NaN")
  {
    if Js.ParseInt(form.episodeNumber).Some? {
      ParsesBack(Js.ParseInt(form.episodeNumber).value + 1);
    }
  }

  /** The form `handleEditEpisode` fills in; an absent thumbnail or duration is the empty text. */
  function EpisodeEditForm(e: Store.Episode): EpisodeForm {
    EpisodeForm(Js.IntToString(e.releaseId), Js.IntToString(e.episodeNumber), e.title, e.vkVideoUrl,
                e.thumbnailUrl.GetOr(""), if e.duration.Some? then Js.IntToString(e.duration.value) else "",
                e.releaseDate)
  }

  /** The form cleared after an update: only the selected release, if any, stays named. */
  function BlankEpisodeForm(selected: Option<ListedRelease>, today: string): EpisodeForm {
    EpisodeForm(if selected.Some? then Js.IntToString(selected.value.id) else "", "", "", "", "", "", today)
  }

  // ================================================================ requests

  /** The JSON body of a release form: the form's fields, with the genres split. */
  function ReleaseBody(form: ReleaseForm): map<string, Js.Value> {
    map["title" := Js.Str(form.title), "title_ru" := Js.Str(form.titleRu), "description" := Js.Str(form.description),
        "cover_image_url" := Js.Str(form.coverImageUrl), "year" := Js.Str(form.year), "season" := Js.Str(form.season),
        "total_episodes" := Js.Str(form.totalEpisodes), "status" := Js.Str(form.status),
        "genres" := Js.StrList(SplitGenres(form.genres)), "rating" := Js.Str(form.rating),
        "featured" := Js.Bool(form.featured), "featured_order" := Js.Str(form.featuredOrder)]
  }

  /** `JSON.stringify(episodeForm)`. */
  function EpisodeBody(form: EpisodeForm): map<string, Js.Value> {
    map["release_id" := Js.Str(form.releaseId), "episode_number" := Js.Str(form.episodeNumber),
        "title" := Js.Str(form.title), "vk_video_url" := Js.Str(form.vkVideoUrl),
        "thumbnail_url" := Js.Str(form.thumbnailUrl), "duration" := Js.Str(form.duration),
        "release_date" := Js.Str(form.releaseDate)]
  }

  /** `POST /api/admin/releases` with the release form. */
  function ReleasePost(form: ReleaseForm): Client.Fetch {
    Client.Fetch("POST", "/api/admin/releases", Http.Request(Some(ReleaseBody(form)), map[]))
  }

  /** `PUT /api/admin/releases` with the release form and the edited release's id. */
  function ReleasePut(form: ReleaseForm, id: int): Client.Fetch {
    Client.Fetch("PUT", "/api/admin/releases", Http.Request(Some(ReleaseBody(form)["id" := Js.Num(id)]), map[]))
  }

  /** `DELETE /api/admin/releases?id=`. */
  function ReleaseDelete(id: int): Client.Fetch {
    Client.Fetch("DELETE", "/api/admin/releases", Http.Request(None, map["id" := Js.IntToString(id)]))
  }

  /** `POST /api/admin/episodes` with the episode form. */
  function EpisodePost(form: EpisodeForm): Client.Fetch {
    Client.Fetch("POST", "/api/admin/episodes", Http.Request(Some(EpisodeBody(form)), map[]))
  }

  /** `fetchReleases`. */
  function ReleasesRefresh(): Client.Fetch {
    Client.Fetch("GET", "/api/admin/releases", Http.Request(None, map[]))
  }

  /** `fetchEpisodes(releaseId)`. */
  function EpisodesRefresh(releaseId: int): Client.Fetch {
    Client.WithReleaseQuery("GET", "/api/admin/episodes", releaseId)
  }

  /** The fields the episodes endpoint reads from an episode form's body. */
  lemma EpisodeBodyFields(form: EpisodeForm)
    ensures var req := Http.Request(Some(EpisodeBody(form)), map[]);
            Http.BodyField(req, "release_id") == Js.Str(form.releaseId)
            && Http.BodyField(req, "episode_number") == Js.Str(form.episodeNumber)
            && Http.BodyField(req, "title") == Js.Str(form.title)
            && Http.BodyField(req, "vk_video_url") == Js.Str(form.vkVideoUrl)
            && Http.BodyField(req, "thumbnail_url") == Js.Str(form.thumbnailUrl)
            && Http.BodyField(req, "duration") == Js.Str(form.duration)
            && Http.BodyField(req, "release_date") == Js.Str(form.releaseDate)
  {
  }

  /**
   * An episode form whose number is numeric is accepted by the episodes
   * endpoint: the episode it stores has the form's number, texts and date, an
   * empty thumbnail or duration is stored as nothing, and the release is the
   * number in `release_id`.
   */
  lemma EpisodeSubmissionAccepted(form: EpisodeForm)
    requires Js.ParseInt(form.episodeNumber).Some?
    ensures var req := EpisodePost(form).req;
            AdminEpisodeRoutes.EpisodeForm(req)
              == Some(Store.EpisodeData(Js.ParseInt(form.episodeNumber).value, form.title, form.vkVideoUrl,
                                        if form.thumbnailUrl == "" then None else Some(form.thumbnailUrl),
                                        if form.duration == "" then None else Js.ParseInt(form.duration),
                                        form.releaseDate))
            && Js.ParseIntValue(Http.BodyField(req, "release_id")) == Js.ParseInt(form.releaseId)
  {
    var req := EpisodePost(form).req;
    EpisodeBodyFields(form);
    Js.ParseIntValueOfText(form.episodeNumber);
    Js.ParseIntValueOfText(form.releaseId);
    AdminEpisodeRoutes.DurationArgOfText(form.duration);
    EpisodeFormOfTexts(req, form, Js.ParseInt(form.episodeNumber).value,
                       if form.duration == "" then None else Js.ParseInt(form.duration));
  }

  /** The endpoint reads `release_id` from the form's body as `parseInt` of the form's text. */
  lemma ReleaseIdSubmitted(form: EpisodeForm)
    ensures Js.ParseIntValue(Http.BodyField(EpisodePost(form).req, "release_id")) == Js.ParseInt(form.releaseId)
  {
    EpisodeBodyFields(form);
    Js.ParseIntValueOfText(form.releaseId);
  }

  /** What the episodes endpoint reads from a body with these text fields, a number and a duration. */
  lemma EpisodeFormOfTexts(req: Http.Request, form: EpisodeForm, number: int, duration: Option<int>)
    requires req.body.Some?
    requires Js.ParseIntValue(Http.BodyField(req, "episode_number")) == Some(number)
    requires AdminEpisodeRoutes.DurationArg(Http.BodyField(req, "duration")) == duration
    requires Http.BodyField(req, "title") == Js.Str(form.title)
    requires Http.BodyField(req, "vk_video_url") == Js.Str(form.vkVideoUrl)
    requires Http.BodyField(req, "thumbnail_url") == Js.Str(form.thumbnailUrl)
    requires Http.BodyField(req, "release_date") == Js.Str(form.releaseDate)
    ensures AdminEpisodeRoutes.EpisodeForm(req)
              == Some(Store.EpisodeData(number, form.title, form.vkVideoUrl,
                                        if form.thumbnailUrl == "" then None else Some(form.thumbnailUrl),
                                        duration, form.releaseDate))
  {
  }

  /** The text fields of an episode edit's `PUT` body. */
  lemma EpisodePutTexts(form: EpisodeForm, id: int)
    ensures var req := EpisodePut(form, id).req;
            Http.BodyField(req, "title") == Js.Str(form.title)
            && Http.BodyField(req, "vk_video_url") == Js.Str(form.vkVideoUrl)
            && Http.BodyField(req, "thumbnail_url") == Js.Str(form.thumbnailUrl)
            && Http.BodyField(req, "release_date") == Js.Str(form.releaseDate)
  {
  }

  /** The numeric fields of an episode edit's `PUT` body, the episode's id among them. */
  lemma EpisodePutNumbers(form: EpisodeForm, id: int)
    ensures var req := EpisodePut(form, id).req;
            Http.BodyField(req, "id") == Js.Num(id)
            && Http.BodyField(req, "episode_number") == Js.Str(form.episodeNumber)
            && Http.BodyField(req, "release_id") == Js.Str(form.releaseId)
            && Http.BodyField(req, "duration") == Js.Str(form.duration)
  {
  }

  /**
   * What the episodes endpoint reads from an episode form sent as a `PUT` for
   * `id`: the form's texts and numbers, for that id.
   */
  lemma EpisodePutRead(form: EpisodeForm, id: int, number: int, duration: Option<int>)
    requires Js.ParseInt(form.episodeNumber) == Some(number)
    requires duration == if form.duration == "" then None else Js.ParseInt(form.duration)
    ensures var req := EpisodePut(form, id).req;
            AdminEpisodeRoutes.EpisodeForm(req)
              == Some(Store.EpisodeData(number, form.title, form.vkVideoUrl,
                                        if form.thumbnailUrl == "" then None else Some(form.thumbnailUrl),
                                        duration, form.releaseDate))
            && Http.IntParam(Http.BodyField(req, "id")) == Http.IntVal(id)
            && Js.ParseIntValue(Http.BodyField(req, "release_id")) == Js.ParseInt(form.releaseId)
  {
    var req := EpisodePut(form, id).req;
    EpisodePutTexts(form, id);
    EpisodePutNumbers(form, id);
    Js.ParseIntValueOfText(form.episodeNumber);
    Js.ParseIntValueOfText(form.releaseId);
    AdminEpisodeRoutes.DurationArgOfText(form.duration);
    EpisodeFormOfTexts(req, form, number, duration);
  }

  /**
   * Saving the edit form of an episode unchanged sends a `PUT` for the
   * episode's id that stores the episode's own columns, except that an empty
   * thumbnail comes back as none; the body still names the episode's release.
   */
  lemma UnchangedEpisodeEditSaved(e: Store.Episode)
    ensures var req := EpisodePut(EpisodeEditForm(e), e.id).req;
            AdminEpisodeRoutes.EpisodeForm(req)
              == Some(Store.EpisodeData(e.episodeNumber, e.title, e.vkVideoUrl,
                                        if e.thumbnailUrl == Some("") then None else e.thumbnailUrl,
                                        e.duration, e.releaseDate))
            && Http.IntParam(Http.BodyField(req, "id")) == Http.IntVal(e.id)
            && Js.ParseIntValue(Http.BodyField(req, "release_id")) == Some(e.releaseId)
  {
    var form := EpisodeEditForm(e);
    ParsesBack(e.episodeNumber);
    ParsesBack(e.releaseId);
    if e.duration.Some? {
      ParsesBack(e.duration.value);
    }
    EpisodePutRead(form, e.id, e.episodeNumber, e.duration);
  }

  /** The text fields the releases endpoint reads from a release form's body. */
  lemma ReleaseBodyTexts(form: ReleaseForm)
    ensures var req := Http.Request(Some(ReleaseBody(form)), map[]);
            Http.BodyField(req, "title") == Js.Str(form.title)
            && Http.BodyField(req, "title_ru") == Js.Str(form.titleRu)
            && Http.BodyField(req, "description") == Js.Str(form.description)
            && Http.BodyField(req, "cover_image_url") == Js.Str(form.coverImageUrl)
            && Http.BodyField(req, "season") == Js.Str(form.season)
  {
  }

  /** The other fields the releases endpoint reads from a release form's body. */
  lemma ReleaseBodyOthers(form: ReleaseForm)
    ensures var req := Http.Request(Some(ReleaseBody(form)), map[]);
            Http.BodyField(req, "year") == Js.Str(form.year)
            && Http.BodyField(req, "total_episodes") == Js.Str(form.totalEpisodes)
            && Http.BodyField(req, "status") == Js.Str(form.status)
            && Http.BodyField(req, "genres") == Js.StrList(SplitGenres(form.genres))
            && Http.BodyField(req, "rating") == Js.Str(form.rating)
  {
  }

  /** The text fields of a release edit's `PUT` body. */
  lemma ReleasePutTexts(form: ReleaseForm, id: int)
    ensures var req := ReleasePut(form, id).req;
            Http.BodyField(req, "title") == Js.Str(form.title)
            && Http.BodyField(req, "title_ru") == Js.Str(form.titleRu)
            && Http.BodyField(req, "description") == Js.Str(form.description)
            && Http.BodyField(req, "cover_image_url") == Js.Str(form.coverImageUrl)
            && Http.BodyField(req, "season") == Js.Str(form.season)
  {
  }

  /** The other columns of a release edit's `PUT` body. */
  lemma ReleasePutOthers(form: ReleaseForm, id: int)
    ensures var req := ReleasePut(form, id).req;
            Http.BodyField(req, "year") == Js.Str(form.year)
            && Http.BodyField(req, "total_episodes") == Js.Str(form.totalEpisodes)
            && Http.BodyField(req, "status") == Js.Str(form.status)
            && Http.BodyField(req, "genres") == Js.StrList(SplitGenres(form.genres))
            && Http.BodyField(req, "rating") == Js.Str(form.rating)
  {
  }

  /** The id, flag and order of a release edit's `PUT` body. */
  lemma ReleasePutFlags(form: ReleaseForm, id: int)
    ensures var req := ReleasePut(form, id).req;
            Http.BodyField(req, "id") == Js.Num(id)
            && Http.BodyField(req, "featured") == Js.Bool(form.featured)
            && Http.BodyField(req, "featured_order") == Js.Str(form.featuredOrder)
  {
  }

  /**
   * Saving the edit form of a release unchanged sends a `PUT` for the
   * release's id that writes back its own columns, its `featured` flag (false
   * when it had none) and its order (0 when it had none), provided it has at
   * least one genre and its genres hold no comma and no surrounding whitespace.
   */
  lemma UnchangedEditSaved(r: ListedRelease)
    requires |r.genres| > 0 && forall i :: 0 <= i < |r.genres| ==> CleanGenre(r.genres[i])
    ensures var req := ReleasePut(EditForm(r), r.id).req;
            AdminReleaseRoutes.ReleaseUpdateArg(req)
              == Some(Store.ReleaseUpdate(ListedData(r), Some(r.featured == Some(true)), Some(r.featuredOrder.GetOr(0))))
            && Http.IntParam(Http.BodyField(req, "id")) == Http.IntVal(r.id)
  {
    var form := EditForm(r);
    EditFormSpec(r);
    ReleasePutForm(form, r.id, r.year, r.totalEpisodes);
    ReleasePutFlags(form, r.id);
    UpdateArgOfForm(ReleasePut(form, r.id).req, ListedData(r), form.featured, form.featuredOrder, r.featuredOrder.GetOr(0));
  }

  /** The columns the releases endpoint reads from a release edit's `PUT` body. */
  lemma ReleasePutForm(form: ReleaseForm, id: int, year: int, total: int)
    requires Js.ParseInt(form.year) == Some(year) && Js.ParseInt(form.totalEpisodes) == Some(total)
    ensures AdminReleaseRoutes.ReleaseForm(ReleasePut(form, id).req)
              == Some(Store.ReleaseData(form.title, form.titleRu, form.description, form.coverImageUrl, year, form.season,
                                        total, form.status, SplitGenres(form.genres), form.rating))
  {
    ReleasePutTexts(form, id);
    ReleasePutOthers(form, id);
    ReleaseFormOfTexts(ReleasePut(form, id).req, form, year, total);
  }

  /** A body whose columns bind, with a boolean flag and a numeric order text, is read as that update. */
  lemma UpdateArgOfForm(req: Http.Request, d: Store.ReleaseData, featured: bool, orderText: string, order: int)
    requires AdminReleaseRoutes.ReleaseForm(req) == Some(d)
    requires Http.BodyField(req, "featured") == Js.Bool(featured)
    requires Http.BodyField(req, "featured_order") == Js.Str(orderText) && Js.ParseInt(orderText) == Some(order)
    ensures AdminReleaseRoutes.ReleaseUpdateArg(req) == Some(Store.ReleaseUpdate(d, Some(featured), Some(order)))
  {
    Js.ParseIntValueOfText(orderText);
  }

  /** What the releases endpoint reads from a body whose fields are those of `form`, with numeric year and count. */
  lemma ReleaseFormOfTexts(req: Http.Request, form: ReleaseForm, year: int, total: int)
    requires req.body.Some? && Js.ParseInt(form.year) == Some(year) && Js.ParseInt(form.totalEpisodes) == Some(total)
    requires Http.BodyField(req, "title") == Js.Str(form.title)
    requires Http.BodyField(req, "title_ru") == Js.Str(form.titleRu)
    requires Http.BodyField(req, "description") == Js.Str(form.description)
    requires Http.BodyField(req, "cover_image_url") == Js.Str(form.coverImageUrl)
    requires Http.BodyField(req, "year") == Js.Str(form.year)
    requires Http.BodyField(req, "season") == Js.Str(form.season)
    requires Http.BodyField(req, "total_episodes") == Js.Str(form.totalEpisodes)
    requires Http.BodyField(req, "status") == Js.Str(form.status)
    requires Http.BodyField(req, "genres") == Js.StrList(SplitGenres(form.genres))
    requires Http.BodyField(req, "rating") == Js.Str(form.rating)
    ensures AdminReleaseRoutes.ReleaseForm(req)
              == Some(Store.ReleaseData(form.title, form.titleRu, form.description, form.coverImageUrl, year, form.season,
                                        total, form.status, SplitGenres(form.genres), form.rating))
  {
  }

  /** `POST /api/admin/logout`. */
  function Logout(): Client.Fetch {
    Client.Fetch("POST", "/api/admin/logout", Http.Request(None, map[]))
  }

  /** `PUT /api/admin/episodes` with the episode form and the edited episode's id. */
  function EpisodePut(form: EpisodeForm, id: int): Client.Fetch {
    Client.Fetch("PUT", "/api/admin/episodes", Http.Request(Some(EpisodeBody(form)["id" := Js.Num(id)]), map[]))
  }

  /** `DELETE /api/admin/episodes?id=`. */
  function EpisodeDelete(id: int): Client.Fetch {
    Client.Fetch("DELETE", "/api/admin/episodes", Http.Request(None, map["id" := Js.IntToString(id)]))
  }

  /** The episodes reload a finished episode change sends: one for the selected release, if any. */
  function EpisodesReload(selected: Option<ListedRelease>): seq<Client.Fetch> {
    if selected.Some? then [EpisodesRefresh(selected.value.id)] else []
  }

  // ================================================================ carousel tab

  /**
   * `{ id: release.id, ...release }`: the release's fields as the list answer
   * gave them; `JSON.stringify` leaves out a missing `featured` or
   * `featured_order`.
   */
  function ListedBody(r: ListedRelease): map<string, Js.Value> {
    var body := map["id" := Js.Num(r.id), "title" := Js.Str(r.title), "title_ru" := Js.Str(r.titleRu),
                    "description" := Js.Str(r.description), "cover_image_url" := Js.Str(r.coverImageUrl),
                    "year" := Js.Num(r.year), "season" := Js.Str(r.season), "total_episodes" := Js.Num(r.totalEpisodes),
                    "status" := Js.Str(r.status), "genres" := Js.StrList(r.genres), "rating" := Js.Str(r.rating)];
    var withFeatured := if r.featured.Some? then body["featured" := Js.Bool(r.featured.value)] else body;
    if r.featuredOrder.Some? then withFeatured["featured_order" := Js.Num(r.featuredOrder.value)] else withFeatured
  }

  /** The "В карусели" checkbox: `PUT` of the release with `featured` set to the new check state. */
  function FeaturedPut(r: ListedRelease, checked: bool): Client.Fetch {
    Client.Fetch("PUT", "/api/admin/releases", Http.Request(Some(ListedBody(r)["featured" := Js.Bool(checked)]), map[]))
  }

  /** `Number.parseInt(e.target.value) || 0`: NaN and 0 both give 0. */
  function OrderInput(text: string): (order: int)
    ensures Js.ParseInt(text).None? ==> order == 0
    ensures order != 0 ==> Js.ParseInt(text) == Some(order)
  {
    match Js.ParseInt(text)
    case Some(n) => n
    case None => 0
  }

  /** The order box: `PUT` of the release with `featured_order` set to `order`, the number typed. */
  function OrderPut(r: ListedRelease, order: int): Client.Fetch {
    Client.Fetch("PUT", "/api/admin/releases", Http.Request(Some(ListedBody(r)["featured_order" := Js.Num(order)]), map[]))
  }

  /** The columns of a listed release, as the releases endpoint stores them. */
  function ListedData(r: ListedRelease): Store.ReleaseData {
    Store.ReleaseData(r.title, r.titleRu, r.description, r.coverImageUrl, r.year, r.season,
                      r.totalEpisodes, r.status, r.genres, r.rating)
  }

  /** What the releases endpoint reads from a body whose columns are those of the listed release `r`. */
  lemma ReleaseFormOfListed(req: Http.Request, r: ListedRelease)
    requires req.body.Some?
    requires Http.BodyField(req, "title") == Js.Str(r.title)
    requires Http.BodyField(req, "title_ru") == Js.Str(r.titleRu)
    requires Http.BodyField(req, "description") == Js.Str(r.description)
    requires Http.BodyField(req, "cover_image_url") == Js.Str(r.coverImageUrl)
    requires Http.BodyField(req, "year") == Js.Num(r.year)
    requires Http.BodyField(req, "season") == Js.Str(r.season)
    requires Http.BodyField(req, "total_episodes") == Js.Num(r.totalEpisodes)
    requires Http.BodyField(req, "status") == Js.Str(r.status)
    requires Http.BodyField(req, "genres") == Js.StrList(r.genres)
    requires Http.BodyField(req, "rating") == Js.Str(r.rating)
    ensures AdminReleaseRoutes.ReleaseForm(req) == Some(ListedData(r))
  {
    Js.ParseIntValueOfNum(r.year);
    Js.ParseIntValueOfNum(r.totalEpisodes);
  }

  /** The text columns of the checkbox's body. */
  lemma FeaturedPutTexts(r: ListedRelease, checked: bool)
    ensures var req := FeaturedPut(r, checked).req;
            Http.BodyField(req, "title") == Js.Str(r.title)
            && Http.BodyField(req, "title_ru") == Js.Str(r.titleRu)
            && Http.BodyField(req, "description") == Js.Str(r.description)
            && Http.BodyField(req, "cover_image_url") == Js.Str(r.coverImageUrl)
            && Http.BodyField(req, "season") == Js.Str(r.season)
  {
  }

  /** The other columns of the checkbox's body. */
  lemma FeaturedPutOthers(r: ListedRelease, checked: bool)
    ensures var req := FeaturedPut(r, checked).req;
            Http.BodyField(req, "year") == Js.Num(r.year)
            && Http.BodyField(req, "total_episodes") == Js.Num(r.totalEpisodes)
            && Http.BodyField(req, "status") == Js.Str(r.status)
            && Http.BodyField(req, "genres") == Js.StrList(r.genres)
            && Http.BodyField(req, "rating") == Js.Str(r.rating)
  {
  }

  /** The id, flag and order of the checkbox's body. */
  lemma FeaturedPutFlags(r: ListedRelease, checked: bool)
    ensures var req := FeaturedPut(r, checked).req;
            Http.BodyField(req, "id") == Js.Num(r.id)
            && Http.BodyField(req, "featured") == Js.Bool(checked)
            && Http.BodyField(req, "featured_order") == (if r.featuredOrder.Some? then Js.Num(r.featuredOrder.value) else Js.Undefined)
  {
  }

  /** The text columns of the order box's body. */
  lemma OrderPutTexts(r: ListedRelease, order: int)
    ensures var req := OrderPut(r, order).req;
            Http.BodyField(req, "title") == Js.Str(r.title)
            && Http.BodyField(req, "title_ru") == Js.Str(r.titleRu)
            && Http.BodyField(req, "description") == Js.Str(r.description)
            && Http.BodyField(req, "cover_image_url") == Js.Str(r.coverImageUrl)
            && Http.BodyField(req, "season") == Js.Str(r.season)
  {
  }

  /** The other columns of the order box's body. */
  lemma OrderPutOthers(r: ListedRelease, order: int)
    ensures var req := OrderPut(r, order).req;
            Http.BodyField(req, "year") == Js.Num(r.year)
            && Http.BodyField(req, "total_episodes") == Js.Num(r.totalEpisodes)
            && Http.BodyField(req, "status") == Js.Str(r.status)
            && Http.BodyField(req, "genres") == Js.StrList(r.genres)
            && Http.BodyField(req, "rating") == Js.Str(r.rating)
  {
  }

  /** The id, flag and order of the order box's body. */
  lemma OrderPutFlags(r: ListedRelease, order: int)
    ensures var req := OrderPut(r, order).req;
            Http.BodyField(req, "id") == Js.Num(r.id)
            && Http.BodyField(req, "featured") == (if r.featured.Some? then Js.Bool(r.featured.value) else Js.Undefined)
            && Http.BodyField(req, "featured_order") == Js.Num(order)
  {
  }

  /**
   * Ticking the checkbox saves the release's own columns and its order (0 when
   * it had none), with `featured` now the check state.
   */
  lemma FeaturedPutSaved(r: ListedRelease, checked: bool)
    ensures var req := FeaturedPut(r, checked).req;
            AdminReleaseRoutes.ReleaseUpdateArg(req)
              == Some(Store.ReleaseUpdate(ListedData(r), Some(checked), Some(r.featuredOrder.GetOr(0))))
            && Http.IntParam(Http.BodyField(req, "id")) == Http.IntVal(r.id)
  {
    var req := FeaturedPut(r, checked).req;
    FeaturedPutTexts(r, checked);
    FeaturedPutOthers(r, checked);
    FeaturedPutFlags(r, checked);
    ReleaseFormOfListed(req, r);
    if r.featuredOrder.Some? {
      AdminReleaseRoutes.FeaturedOrderArgSpec(Js.Undefined, r.featuredOrder.value);
    }
  }

  /**
   * Typing in the order box saves the release's own columns and its
   * `featured` flag (unfeatured when it had none), with the typed order, or 0
   * when the text is not a number.
   */
  lemma OrderPutSaved(r: ListedRelease, text: string)
    ensures var req := OrderPut(r, OrderInput(text)).req;
            AdminReleaseRoutes.ReleaseUpdateArg(req)
              == Some(Store.ReleaseUpdate(ListedData(r), r.featured, Some(OrderInput(text))))
            && Http.IntParam(Http.BodyField(req, "id")) == Http.IntVal(r.id)
  {
    var req := OrderPut(r, OrderInput(text)).req;
    OrderPutTexts(r, OrderInput(text));
    OrderPutOthers(r, OrderInput(text));
    OrderPutFlags(r, OrderInput(text));
    ReleaseFormOfListed(req, r);
    AdminReleaseRoutes.FeaturedOrderArgSpec(Js.Undefined, OrderInput(text));
  }

  /** The number shown in the order box reads back as itself; text that is not a number gives 0. */
  lemma OrderInputOf(n: int)
    ensures OrderInput(Js.IntToString(n)) == n
    ensures OrderInput("") == 0
  {
    ParsesBack(n);
  }

  /**
   * The admin page's state. Each handler runs to its end in one call: the
   * awaited request ends as `outcome` says, and a confirmation dialog's answer
   * is `confirmed`. The lists' reload requests are recorded in `sent`; their
   * answers arrive through `ReceiveReleases` and `ReceiveEpisodes`.
   */
  class Dashboard {
    var releaseForm: ReleaseForm
    var episodeForm: EpisodeForm
    var releases: seq<ListedRelease>
    var editingRelease: Option<ListedRelease>
    var selectedRelease: Option<ListedRelease>
    var episodes: seq<Store.Episode>
    var editingEpisode: Option<Store.Episode>
    var loading: bool
    /** The requests sent so far, oldest first. */
    var sent: seq<Client.Fetch>

    /** The first render and its effect; `today` is the date part of the current time in ISO form. */
    constructor(currentYear: int, today: string)
      ensures releaseForm == BlankReleaseForm(currentYear)
      ensures episodeForm == EpisodeForm("", "", "", "", "", "", today)
      ensures releases == [] && editingRelease == None && selectedRelease == None
      ensures episodes == [] && editingEpisode == None && !loading
      ensures sent == [ReleasesRefresh()]
    {
      releaseForm := BlankReleaseForm(currentYear);
      episodeForm := EpisodeForm("", "", "", "", "", "", today);
      releases := [];
      editingRelease := None;
      selectedRelease := None;
      episodes := [];
      editingEpisode := None;
      loading := false;
      sent := [ReleasesRefresh()];
    }

    /** The end of `fetchReleases`: an `ok` answer replaces the release list. */
    method ReceiveReleases(outcome: Client.Outcome, list: seq<ListedRelease>)
      modifies this
      ensures releases == (if Client.IsOk(outcome) then list else old(releases))
      ensures sent == old(sent) && releaseForm == old(releaseForm) && episodeForm == old(episodeForm)
      ensures editingRelease == old(editingRelease) && selectedRelease == old(selectedRelease)
      ensures episodes == old(episodes) && editingEpisode == old(editingEpisode) && loading == old(loading)
    {
      if Client.IsOk(outcome) {
        releases := list;
      }
    }

    /** The end of `fetchEpisodes`: an `ok` answer replaces the episode list. */
    method ReceiveEpisodes(outcome: Client.Outcome, list: seq<Store.Episode>)
      modifies this
      ensures episodes == (if Client.IsOk(outcome) then list else old(episodes))
      ensures sent == old(sent) && releaseForm == old(releaseForm) && episodeForm == old(episodeForm)
      ensures releases == old(releases) && editingRelease == old(editingRelease) && selectedRelease == old(selectedRelease)
      ensures editingEpisode == old(editingEpisode) && loading == old(loading)
    {
      if Client.IsOk(outcome) {
        episodes := list;
      }
    }

    /** `handleLogout`: the logout request (the page refresh that follows is not modelled). */
    method HandleLogout()
      modifies this
      ensures sent == old(sent) + [Logout()]
      ensures releaseForm == old(releaseForm) && episodeForm == old(episodeForm) && releases == old(releases)
      ensures editingRelease == old(editingRelease) && selectedRelease == old(selectedRelease)
      ensures episodes == old(episodes) && editingEpisode == old(editingEpisode) && loading == old(loading)
    {
      sent := sent + [Logout()];
    }

    /** `handleCreateRelease`: the form is submitted; on success it is cleared and the list reloaded. */
    method HandleCreateRelease(outcome: Client.Outcome, currentYear: int)
      modifies this
      ensures Client.IsOk(outcome) ==>
                sent == old(sent) + [ReleasePost(old(releaseForm)), ReleasesRefresh()] && releaseForm == BlankReleaseForm(currentYear)
      ensures !Client.IsOk(outcome) ==> sent == old(sent) + [ReleasePost(old(releaseForm))] && releaseForm == old(releaseForm)
      ensures !loading && episodeForm == old(episodeForm) && releases == old(releases)
      ensures editingRelease == old(editingRelease) && selectedRelease == old(selectedRelease)
      ensures episodes == old(episodes) && editingEpisode == old(editingEpisode)
    {
      loading := true;
      sent := sent + [ReleasePost(releaseForm)];
      if Client.IsOk(outcome) {
        releaseForm := BlankReleaseForm(currentYear);
        sent := sent + [ReleasesRefresh()];
      }
      loading := false;
    }

    /** `handleUpdateRelease`: only while editing; on success editing ends, the form is cleared and the list reloaded. */
    method HandleUpdateRelease(outcome: Client.Outcome, currentYear: int)
      modifies this
      ensures old(editingRelease).None? ==>
                sent == old(sent) && releaseForm == old(releaseForm) && loading == old(loading) && editingRelease == None
      ensures old(editingRelease).Some? && Client.IsOk(outcome) ==>
                sent == old(sent) + [ReleasePut(old(releaseForm), old(editingRelease).value.id), ReleasesRefresh()]
                && editingRelease == None && releaseForm == BlankReleaseForm(currentYear) && !loading
      ensures old(editingRelease).Some? && !Client.IsOk(outcome) ==>
                sent == old(sent) + [ReleasePut(old(releaseForm), old(editingRelease).value.id)]
                && editingRelease == old(editingRelease) && releaseForm == old(releaseForm) && !loading
      ensures episodeForm == old(episodeForm) && releases == old(releases) && selectedRelease == old(selectedRelease)
      ensures episodes == old(episodes) && editingEpisode == old(editingEpisode)
    {
      if editingRelease.None? {
        return;
      }
      loading := true;
      sent := sent + [ReleasePut(releaseForm, editingRelease.value.id)];
      if Client.IsOk(outcome) {
        editingRelease := None;
        releaseForm := BlankReleaseForm(currentYear);
        sent := sent + [ReleasesRefresh()];
      }
      loading := false;
    }

    /**
     * `handleDeleteRelease(id)`: after confirmation, `DELETE ?id=`; on success
     * the list is reloaded and, when the deleted release is the selected one,
     * the selection and its episode list are cleared.
     */
    method HandleDeleteRelease(id: int, confirmed: bool, outcome: Client.Outcome)
      modifies this
      ensures !confirmed ==> sent == old(sent)
      ensures confirmed && !Client.IsOk(outcome) ==> sent == old(sent) + [ReleaseDelete(id)]
      ensures confirmed && Client.IsOk(outcome) ==> sent == old(sent) + [ReleaseDelete(id), ReleasesRefresh()]
      ensures confirmed && Client.IsOk(outcome) && old(selectedRelease).Some? && old(selectedRelease).value.id == id ==>
                selectedRelease == None && episodes == []
      ensures !(confirmed && Client.IsOk(outcome) && old(selectedRelease).Some? && old(selectedRelease).value.id == id) ==>
                selectedRelease == old(selectedRelease) && episodes == old(episodes)
      ensures releaseForm == old(releaseForm) && episodeForm == old(episodeForm) && releases == old(releases)
      ensures editingRelease == old(editingRelease) && editingEpisode == old(editingEpisode) && loading == old(loading)
    {
      if !confirmed {
        return;
      }
      sent := sent + [ReleaseDelete(id)];
      if Client.IsOk(outcome) {
        sent := sent + [ReleasesRefresh()];
        if selectedRelease.Some? && selectedRelease.value.id == id {
          selectedRelease := None;
          episodes := [];
        }
      }
    }

    /** `handleEditRelease(release)`: the release form shows the release, to be saved by `HandleUpdateRelease`. */
    method HandleEditRelease(r: ListedRelease)
      modifies this
      ensures editingRelease == Some(r) && releaseForm == EditForm(r)
      ensures sent == old(sent) && episodeForm == old(episodeForm) && releases == old(releases)
      ensures selectedRelease == old(selectedRelease) && episodes == old(episodes)
      ensures editingEpisode == old(editingEpisode) && loading == old(loading)
    {
      editingRelease := Some(r);
      releaseForm := EditForm(r);
    }

    /**
     * `handleCreateEpisode`: the form is submitted as text; on success the
     * form moves on to the next episode and the selected release's episodes are
     * reloaded.
     */
    method HandleCreateEpisode(outcome: Client.Outcome)
      modifies this
      ensures Client.IsOk(outcome) ==> episodeForm == AfterEpisodeCreated(old(episodeForm))
      ensures Client.IsOk(outcome) ==> sent == old(sent) + [EpisodePost(old(episodeForm))] + EpisodesReload(selectedRelease)
      ensures !Client.IsOk(outcome) ==> episodeForm == old(episodeForm) && sent == old(sent) + [EpisodePost(old(episodeForm))]
      ensures !loading && releaseForm == old(releaseForm) && releases == old(releases)
      ensures editingRelease == old(editingRelease) && selectedRelease == old(selectedRelease)
      ensures episodes == old(episodes) && editingEpisode == old(editingEpisode)
    {
      var submitted := episodeForm;
      var next := AfterEpisodeCreated(submitted);
      loading := true;
      sent := sent + [EpisodePost(submitted)];
      if Client.IsOk(outcome) {
        episodeForm := next;
        sent := sent + EpisodesReload(selectedRelease);
      }
      loading := false;
    }

    /**
     * `handleUpdateEpisode`: only while editing an episode; on success editing
     * ends, the form is cleared down to the selected release, and its episodes
     * are reloaded.
     */
    method HandleUpdateEpisode(outcome: Client.Outcome, today: string)
      modifies this
      ensures old(editingEpisode).None? ==>
                sent == old(sent) && episodeForm == old(episodeForm) && loading == old(loading) && editingEpisode == None
      ensures old(editingEpisode).Some? && Client.IsOk(outcome) ==>
                sent == old(sent) + [EpisodePut(old(episodeForm), old(editingEpisode).value.id)] + EpisodesReload(selectedRelease)
                && editingEpisode == None && episodeForm == BlankEpisodeForm(selectedRelease, today) && !loading
      ensures old(editingEpisode).Some? && !Client.IsOk(outcome) ==>
                sent == old(sent) + [EpisodePut(old(episodeForm), old(editingEpisode).value.id)]
                && editingEpisode == old(editingEpisode) && episodeForm == old(episodeForm) && !loading
      ensures releaseForm == old(releaseForm) && releases == old(releases) && editingRelease == old(editingRelease)
      ensures selectedRelease == old(selectedRelease) && episodes == old(episodes)
    {
      if editingEpisode.None? {
        return;
      }
      loading := true;
      sent := sent + [EpisodePut(episodeForm, editingEpisode.value.id)];
      if Client.IsOk(outcome) {
        editingEpisode := None;
        episodeForm := BlankEpisodeForm(selectedRelease, today);
        sent := sent + EpisodesReload(selectedRelease);
      }
      loading := false;
    }

    /** `handleDeleteEpisode(id)`: after confirmation, `DELETE ?id=`; on success the episodes are reloaded. */
    method HandleDeleteEpisode(id: int, confirmed: bool, outcome: Client.Outcome)
      modifies this
      ensures !confirmed ==> sent == old(sent)
      ensures confirmed && !Client.IsOk(outcome) ==> sent == old(sent) + [EpisodeDelete(id)]
      ensures confirmed && Client.IsOk(outcome) ==> sent == old(sent) + [EpisodeDelete(id)] + EpisodesReload(selectedRelease)
      ensures releaseForm == old(releaseForm) && episodeForm == old(episodeForm) && releases == old(releases)
      ensures editingRelease == old(editingRelease) && selectedRelease == old(selectedRelease)
      ensures episodes == old(episodes) && editingEpisode == old(editingEpisode) && loading == old(loading)
    {
      if !confirmed {
        return;
      }
      sent := sent + [EpisodeDelete(id)];
      if Client.IsOk(outcome) {
        sent := sent + EpisodesReload(selectedRelease);
      }
    }

    /** `handleEditEpisode(episode)`: the episode form shows the episode, to be saved by `HandleUpdateEpisode`. */
    method HandleEditEpisode(e: Store.Episode)
      modifies this
      ensures editingEpisode == Some(e) && episodeForm == EpisodeEditForm(e)
      ensures sent == old(sent) && releaseForm == old(releaseForm) && releases == old(releases)
      ensures editingRelease == old(editingRelease) && selectedRelease == old(selectedRelease)
      ensures episodes == old(episodes) && loading == old(loading)
    {
      editingEpisode := Some(e);
      episodeForm := EpisodeEditForm(e);
    }

    /** `handleSelectRelease(release)`: the episode form names it, as text, and its episodes are fetched. */
    method HandleSelectRelease(r: ListedRelease)
      modifies this
      ensures selectedRelease == Some(r)
      ensures episodeForm == old(episodeForm).(releaseId := Js.IntToString(r.id))
      ensures Js.ParseInt(episodeForm.releaseId) == Some(r.id)
      ensures sent == old(sent) + [EpisodesRefresh(r.id)]
      ensures releaseForm == old(releaseForm) && releases == old(releases) && editingRelease == old(editingRelease)
      ensures episodes == old(episodes) && editingEpisode == old(editingEpisode) && loading == old(loading)
    {
      selectedRelease := Some(r);
      episodeForm := episodeForm.(releaseId := Js.IntToString(r.id));
      ParsesBack(r.id);
      sent := sent + [EpisodesRefresh(r.id)];
    }

    /**
     * The release form's cancel button: editing ends and the form is blank
     * again; nothing is sent.
     */
    method CancelReleaseEdit(currentYear: int)
      modifies this
      ensures editingRelease == None && releaseForm == BlankReleaseForm(currentYear)
      ensures sent == old(sent) && episodeForm == old(episodeForm) && releases == old(releases)
      ensures selectedRelease == old(selectedRelease) && episodes == old(episodes)
      ensures editingEpisode == old(editingEpisode) && loading == old(loading)
    {
      editingRelease := None;
      releaseForm := BlankReleaseForm(currentYear);
    }

    /**
     * The episode form's cancel button, shown in the selected release's panel:
     * editing ends and the form is blank for that release and today.
     */
    method CancelEpisodeEdit(today: string)
      requires selectedRelease.Some?
      modifies this
      ensures editingEpisode == None && episodeForm == BlankEpisodeForm(selectedRelease, today)
      ensures Js.ParseInt(episodeForm.releaseId) == Some(old(selectedRelease).value.id)
      ensures sent == old(sent) && releaseForm == old(releaseForm) && releases == old(releases)
      ensures editingRelease == old(editingRelease) && selectedRelease == old(selectedRelease)
      ensures episodes == old(episodes) && loading == old(loading)
    {
      editingEpisode := None;
      episodeForm := EpisodeForm(Js.IntToString(selectedRelease.value.id), "", "", "", "", "", today);
      ParsesBack(selectedRelease.value.id);
    }

    /**
     * The carousel tab's checkbox for release `r`: the `PUT`, then the list
     * reload whatever the answer; a thrown `fetch` skips the reload.
     */
    method ToggleFeatured(r: ListedRelease, checked: bool, outcome: Client.Outcome)
      modifies this
      ensures outcome.Threw? ==> sent == old(sent) + [FeaturedPut(r, checked)]
      ensures outcome.Answered? ==> sent == old(sent) + [FeaturedPut(r, checked), ReleasesRefresh()]
      ensures releaseForm == old(releaseForm) && episodeForm == old(episodeForm) && releases == old(releases)
      ensures editingRelease == old(editingRelease) && selectedRelease == old(selectedRelease)
      ensures episodes == old(episodes) && editingEpisode == old(editingEpisode) && loading == old(loading)
    {
      sent := sent + [FeaturedPut(r, checked)];
      if outcome.Answered? {
        sent := sent + [ReleasesRefresh()];
      }
    }

    /**
     * The carousel tab's order box for release `r`, on each change of its
     * text: the `PUT`, then the list reload whatever the answer.
     */
    method ChangeOrder(r: ListedRelease, text: string, outcome: Client.Outcome)
      modifies this
      ensures outcome.Threw? ==> sent == old(sent) + [OrderPut(r, OrderInput(text))]
      ensures outcome.Answered? ==> sent == old(sent) + [OrderPut(r, OrderInput(text)), ReleasesRefresh()]
      ensures releaseForm == old(releaseForm) && episodeForm == old(episodeForm) && releases == old(releases)
      ensures editingRelease == old(editingRelease) && selectedRelease == old(selectedRelease)
      ensures episodes == old(episodes) && editingEpisode == old(editingEpisode) && loading == old(loading)
    {
      sent := sent + [OrderPut(r, OrderInput(text))];
      if outcome.Answered? {
        sent := sent + [ReleasesRefresh()];
      }
    }
  }

  /**
   * Selecting a release and then creating an episode submits a form whose
   * `release_id` the episodes endpoint reads as that release, and reloads
   * that release's episodes on success.
   */
  method SelectThenCreateEpisode(d: Dashboard, r: ListedRelease, outcome: Client.Outcome)
    modifies d
    ensures |d.sent| >= |old(d.sent)| + 2
    ensures Js.ParseIntValue(Http.BodyField(d.sent[|old(d.sent)| + 1].req, "release_id")) == Some(r.id)
    ensures d.sent[|old(d.sent)|] == EpisodesRefresh(r.id)
    ensures Client.IsOk(outcome) ==> |d.sent| == |old(d.sent)| + 3 && d.sent[|old(d.sent)| + 2] == EpisodesRefresh(r.id)
    ensures !Client.IsOk(outcome) ==> |d.sent| == |old(d.sent)| + 2
  {
    ghost var s0 := d.sent;
    d.HandleSelectRelease(r);
    var post := EpisodePost(d.episodeForm);
    ReleaseIdSubmitted(d.episodeForm);
    ghost var s1 := d.sent;
    assert s1 == s0 + [EpisodesRefresh(r.id)];
    d.HandleCreateEpisode(outcome);
    assert d.sent[..|s1| + 1] == s1 + [post];
    assert d.sent[|s0| + 1] == post;
  }
}
