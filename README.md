# geppu.tv core, modelled in Dafny

geppu.tv is an anime streaming site built with Next.js and PostgreSQL. This
project models its core:

- the data layer (`lib/db.ts`): users, releases, episodes and favourites, and
  the queries and updates on them;
- the session cookies (`lib/auth.ts`, `lib/admin-auth.ts`);
- the JSON API routes under `app/api/`: registration and login, admin login,
  favourites, watch lists, profile, search, and the admin CRUD for releases
  and episodes;
- the client components that hold state or logic: the admin dashboard, the
  hero carousel, the schedule and catalog filters, the list and favourite
  buttons, and the VK player's video-id extraction.

The database is a value of type `Store.Tables`. It holds each table as a
sequence in insertion order, plus the id counters and a monotone clock that
stands in for `created_at`. `Store.Database` is the class the routes mutate.
Each of its methods is proved against a pure function of the old tables, such
as `WithRelease` or `AfterDeleteRelease`. Lemmas about those functions state
what the SQL promises: which rows a query returns, in what order, and which
invariants an update keeps. The invariants include unique ids, one favourite
row per (user, release) pair, and `created_at` increasing with insertion.

A route handler is a function or method. It takes the cookie jar, the
request's parsed JSON body and query string, and the database, and it returns
`Http.Response`, which holds a status code and a payload. `Http.IntParam`
models how the database driver binds a JSON value to an integer column, and
`Http.TextParam` does the same for a text column. A value PostgreSQL rejects
makes the statement fail, and the route's `catch` then answers 500. The schema
and the driver's serialization are not in the repository, so these bindings
are assumptions of the model; "## Left out" lists them.

Each client component is a class. Its fields are the component's React state.
Its methods are the event handlers, and each takes the outcome of its `fetch`
as a parameter. The `sent` field records the requests the component sent.
Lemmas check that those requests are what the API routes accept. Examples: the
dashboard's episode form, submitted as text, is parsed back into the episode
the admin typed; the list button's statuses are exactly the ones the lists
route accepts.

Module map:

| file | module | models |
|---|---|---|
| wrappers.dfy | Wrappers | `Option` / `Result` |
| js.dfy | Js | JSON values, truthiness, `parseInt`, `toString`, `split`, `trim`, `includes`, the default string sort order |
| rows.dfy | Rows | the list operations behind `WHERE`, `ORDER BY`, `LIMIT`, `filter`, `sort` |
| http.dfy | Http | requests, responses, the database driver's parameter binding |
| store.dfy | Store | `lib/db.ts` |
| auth.dfy | Auth | `lib/auth.ts`, `lib/admin-auth.ts` |
| routes_*.dfy | AuthRoutes, FavoriteRoutes, ListRoutes, ProfileRoute, SearchRoute, AdminReleaseRoutes, AdminEpisodeRoutes | `app/api/**/route.ts` |
| client.dfy | Client | how a component's `fetch` ends, and what it sends |
| admin_dashboard.dfy, carousel.dfy, schedule.dfy, catalog.dfy, list_button.dfy, favorite_button.dfy, vk_player.dfy | AdminDashboard, HeroCarousel, Schedule, Catalog, ListButton, FavoriteButton, VkPlayer | `components/*.tsx` |

## Model

| member | source | states |
|---|---|---|
| Store.GetUserByEmail | lib/db.ts:68-73 | the row returned has that email; none is returned exactly when no user has it |
| Store.GetUserById | lib/db.ts:75-81 | the public row returned has that id; none exactly when no user has it |
| Store.GetUserByIdOfMember | lib/db.ts:75-81 | a stored user is found by id, as its public columns (id, email, username, avatar, created_at) |
| Store.GetUserByEmailOfMember | lib/db.ts:68-73 | a stored user is found by email, with its password hash |
| Store.UserIdUnique | lib/db.ts:83-90 | in valid tables two users with the same id are the same row |
| Store.WithUserValid | lib/db.ts:83-90 | inserting a user whose email is new keeps the tables valid |
| Store.CreateUserSpec | lib/db.ts:83-90 | the new user gets a fresh id; its email appears in exactly one row; it is found by email and by id with a NULL avatar; no other table changes |
| Store.Database.CreateUser | lib/db.ts:83-90 | a duplicate email leaves the tables unchanged and returns nothing (the UNIQUE violation); otherwise the tables become `WithUser` and the new public row is returned |
| Store.WithUsernameSpec | lib/db.ts:185-193 | only that user's username changes; a missing id changes nothing; other rows and tables are untouched; validity is kept |
| Store.WithAvatarSpec | lib/db.ts:175-183 | only that user's avatar changes; a missing id changes nothing; other rows and tables are untouched; validity is kept |
| Store.UsersUpdateValid | lib/db.ts:175-193 | an `UPDATE users … WHERE id` that keeps ids and emails keeps the tables valid |
| Store.UserUpdateFound | lib/db.ts:175-193 | after such an update the id is found exactly when it was before, with the updated row |
| Store.Database.UpdateUserProfile | lib/db.ts:185-193 | the tables become `WithUsername`; the result is the row now stored under that id (`RETURNING`) |
| Store.Database.UpdateUserAvatar | lib/db.ts:175-183 | the tables become `WithAvatar`; the result is the row now stored under that id |
| Store.FindRelease | lib/db.ts:52-57 | the release returned is stored and has that id; none exactly when no release has it |
| Store.ReleaseIdUnique | lib/db.ts:124-149 | in valid tables two releases with the same id are the same row |
| Store.NewestFirstOfReverse | lib/db.ts:117-122 | reversing insertion order lists releases newest `created_at` first |
| Store.GetAllReleasesSpec | lib/db.ts:117-122 | every release exactly once, newest first |
| Store.SearchReleasesSpec | lib/db.ts:290-300 | exactly the releases whose Russian title, title or description matches the LIKE pattern `%query%` under case folding; newest first |
| Store.LiteralQueryMatches | lib/db.ts:290-300 | for a query without `%`, `_` or `\`, the pattern matches exactly the columns that contain the query, both case-folded |
| Store.SearchPatternParses | lib/db.ts:294-296 | `'%' + query + '%'` is always a valid pattern: a trailing `\` in the query escapes the final `%` instead of failing |
| Store.UnderscoreIsWildcard | lib/db.ts:294-296 | `_` in the query stands for any one character: "a_b" finds "axb" |
| Store.PercentMatchesAll | lib/db.ts:294-296 | the queries "%" and "" match every column |
| Store.SearchEmptyQuery | lib/db.ts:290-300 | the empty query (`ILIKE '%%'`) matches every release |
| Store.GetReleasesByGenreSpec | lib/db.ts:302-309 | exactly the releases whose genre array holds the genre; newest first |
| Store.GetReleasesByWeekdaySpec | lib/db.ts:319-326 | exactly the ongoing releases with a weekday, each once, ordered by weekday and then by Russian title |
| Store.WeekdaySorted | lib/db.ts:319-326 | sorting by (release_day, title_ru) yields a sorted sequence |
| Store.FeaturedSorted | lib/db.ts:280-288 | sorting by (featured_order ASC, created_at DESC) yields a sorted sequence |
| Store.GetFeaturedReleasesSpec | lib/db.ts:280-288 | at most 10 rows, all featured, in slider order; when 10 or fewer are featured, exactly those |
| Store.FeaturedCutoff | lib/db.ts:280-288 | every featured release left out by `LIMIT 10` sorts after every one shown |
| Store.WithReleaseSpec | lib/db.ts:124-149 | the new release gets a fresh id, is found by it, heads the newest-first listing, is not featured, has featured_order 0 and no weekday; no other table changes |
| Store.Database.CreateRelease | lib/db.ts:124-149 | the tables become `WithRelease` and the inserted row is returned |
| Store.ReleasesUpdateValid | lib/db.ts:195-230 | an `UPDATE releases … WHERE id` that keeps ids and created_at keeps the tables valid |
| Store.ReleaseUpdateFound | lib/db.ts:195-230 | after such an update the id is found exactly when it was before, with the updated row |
| Store.WithReleaseUpdateSpec | lib/db.ts:195-230 | the updated release takes all ten form columns (title, title_ru, description, cover_image_url, year, season, total_episodes, status, genres, rating); featured defaults to false and featured_order to 0 (`??`); release_day and created_at are kept; a missing id stays missing |
| Store.WithReleaseUpdateFrame | lib/db.ts:195-230 | no release's id or release_day changes; other releases and tables are untouched |
| Store.Database.UpdateRelease | lib/db.ts:195-230 | the tables become `WithReleaseUpdate`; the result is the row now stored under that id, or nothing when it is missing |
| Store.AfterDeleteReleaseValid | lib/db.ts:232-243 | the cascade keeps the tables valid |
| Store.AfterDeleteReleaseSpec | lib/db.ts:232-243 | the release, its episodes, its favourites and its watch history are deleted and nothing else; users are untouched; the id is no longer found; a missing id changes no release |
| Store.Database.DeleteRelease | lib/db.ts:232-243 | the tables become `AfterDeleteRelease`; the result is the deleted row, if any |
| Store.TextOrNull | lib/db.ts:167 | `x \|\| null` on text: NULL exactly for a missing or empty string, the string otherwise |
| Store.NumberOrNull | lib/db.ts:168 | `x \|\| null` on a number: NULL exactly for a missing value or 0 |
| Store.FindEpisode | lib/db.ts:245-278 | the episode returned is stored and has that id; none exactly when no episode has it |
| Store.EpisodeIdUnique | lib/db.ts:151-173 | in valid tables two episodes with the same id are the same row |
| Store.GetEpisodesByReleaseIdSpec | lib/db.ts:59-66 | exactly the release's episodes, each once, in ascending episode_number |
| Store.WithEpisodeSpec | lib/db.ts:151-173 | the new episode gets a fresh id and is listed under its release; an empty thumbnail and a zero duration are stored as NULL; no other table changes |
| Store.Database.CreateEpisode | lib/db.ts:151-173 | the tables become `WithEpisode` and the inserted row is returned |
| Store.WithEpisodeUpdateSpec | lib/db.ts:245-268 | the episode takes the new columns (with the same NULL folding) and keeps its release; a missing id stays missing; other episodes and tables are untouched |
| Store.WithEpisodeUpdateFound | lib/db.ts:245-268 | a stored episode is found after the update as the update applied to it |
| Store.WithEpisodeUpdateValid | lib/db.ts:245-268 | the update keeps the tables valid |
| Store.Database.UpdateEpisode | lib/db.ts:245-268 | the tables become `WithEpisodeUpdate`; the result is the row now stored under that id, or nothing |
| Store.AfterDeleteEpisodeSpec | lib/db.ts:270-278 | the episode and its watch history are deleted and nothing else; validity is kept |
| Store.Database.DeleteEpisode | lib/db.ts:270-278 | the tables become `AfterDeleteEpisode`; the result is the deleted row, if any |
| Store.IsFavoriteIff | lib/db.ts:311-317 | `COUNT(*) > 0` holds exactly when a favourite row for the pair exists |
| Store.AtMostOneRow | lib/db.ts:102-108 | under the (user_id, release_id) uniqueness that `ON CONFLICT` relies on, each pair has at most one row |
| Store.WithFavoriteSpec | lib/db.ts:102-108 | afterwards the pair has exactly one row and is a favourite; adding twice equals adding once; other pairs and tables are untouched; validity is kept |
| Store.Database.AddToFavorites | lib/db.ts:102-108 | the tables become `WithFavorite` |
| Store.WithoutFavoriteSpec | lib/db.ts:110-115 | afterwards the pair is not a favourite; exactly the other rows remain; deleting an absent pair changes nothing; validity is kept |
| Store.Database.RemoveFromFavorites | lib/db.ts:110-115 | the tables become `WithoutFavorite` |
| Store.JoinReleasesMember | lib/db.ts:92-100 | a release is in the join exactly when some favourite row names its id |
| Store.GetUserFavoritesSound | lib/db.ts:92-100 | every listed release exists and is a favourite of the user |
| Store.GetUserFavoritesComplete | lib/db.ts:92-100 | every stored release the user has favourited is listed |
| Store.GetUserFavoritesSpec | lib/db.ts:92-100 | the listing holds exactly the user's favourited releases |
| Store.Database.constructor | lib/db.ts:7 | the database starts with empty, valid tables |
| Store.Database.RecordListCall | app/api/lists/route.ts:23-45 | a list helper imported by the lists route is appended to the call log, and nothing else changes |
| Auth.SessionCookie | lib/auth.ts:23-32 | the cookie carries the value and max-age, is httpOnly, SameSite=lax, path `/`, and is secure exactly in production |
| Auth.GetSession | lib/auth.ts:6-21 | no cookie gives no user; a user is returned exactly when the cookie parses as an integer naming a stored user, and it is that user's public row |
| Auth.RequireAuth | lib/auth.ts:39-45 | succeeds exactly when there is a session, with its user; fails with "Unauthorized" otherwise |
| Auth.VerifyAdminPasswordSpec | lib/admin-auth.ts:3-30 | only the string "2284856" is accepted (strict `===`, so not the number) |
| Auth.SessionRoundTrip | lib/auth.ts:6-32 | after `setSession(id)` the session is whatever user id names in the database |
| Auth.SessionOfStoredUser | lib/auth.ts:6-45 | after `setSession` for a stored user, `getSession` and `requireAuth` give that user's public row |
| Auth.SessionOfSameUsers | lib/auth.ts:6-21 | the session depends only on the users table |
| Auth.ClearedSession | lib/auth.ts:34-45 | after `clearSession` there is no session and `requireAuth` fails |
| Auth.AdminSessionToggles | lib/admin-auth.ts:6-26 | after `setAdminSession` the admin check passes, with a max-age of one day; after `clearAdminSession` it fails |
| Auth.SessionsIndependent | lib/auth.ts:4 | the user cookie and the admin cookie do not affect each other's checks |
| Auth.CookieJar.constructor | lib/auth.ts:7-8 | the jar holds the request's cookies |
| Auth.CookieJar.SetSession | lib/auth.ts:23-32 | the session cookie is set to the user id, for 30 days; other cookies are kept |
| Auth.CookieJar.ClearSession | lib/auth.ts:34-37 | the session cookie is removed; other cookies are kept |
| Auth.CookieJar.SetAdminSession | lib/admin-auth.ts:12-21 | the admin cookie is set; other cookies are kept |
| Auth.CookieJar.ClearAdminSession | lib/admin-auth.ts:23-26 | the admin cookie is removed; other cookies are kept |
| Http.TextParam | lib/db.ts:83-90 | a string binds as itself; under the schema and driver assumed by this model, null, undefined and arrays do not bind to a text column |
| Http.PgIntTextOfIntToString | app/api/admin/releases/route.ts:72 | PostgreSQL reads the decimal text of an integer back as that integer |
| Http.IntParamOfNumber | app/api/favorites/route.ts:12-18 | a JSON number, or its decimal text, binds to an integer column as that number |
| Http.NullableTextParam | lib/db.ts:245-268 | null and undefined bind as NULL; any other value binds exactly when it binds as text |
| Http.PgTrim | app/api/favorites/route.ts:12-18 | the trimmed text neither starts nor ends with PostgreSQL white space |
| Http.IntParamOfSpacedText | app/api/favorites/route.ts:12-18 | decimal text with white space before and after still binds to an integer column as that number |
| AuthRoutes.Register | app/api/auth/register/route.ts:5-41 | an unreadable body gives 500; missing fields give 400; a taken email gives 400; success (200) happens exactly when the request is acceptable, and then the user is stored with the hashed password, signed in, and returned; every failure leaves the database and cookies unchanged |
| AuthRoutes.RegisterSignsIn | app/api/auth/register/route.ts:24-27 | after registering, the session names the new user and its email appears in exactly one row |
| AuthRoutes.LoginUser | app/api/auth/login/route.ts:14-24 | a user is accepted only when stored, with the email given and a password that matches its hash |
| AuthRoutes.Login | app/api/auth/login/route.ts:5-41 | an unreadable body gives 500; missing fields give 400; success (200) happens exactly when `LoginUser` accepts, and then the session cookie is set and the public fields returned; otherwise the cookies are unchanged and the answer is 400, 401 or 500 |
| AuthRoutes.LoginSignsIn | app/api/auth/login/route.ts:27 | after login, the session is the user who logged in |
| AuthRoutes.LoginNeedsAccount | app/api/auth/login/route.ts:15-18 | an email with no account is never accepted |
| AuthRoutes.AdminLogin | app/api/admin/login/route.ts:4-23 | an unreadable body gives 500; a missing password 400; a wrong one 401; success exactly for the string admin password, which sets the admin cookie; failure leaves the cookies unchanged |
| FavoriteRoutes.AddFavorite | app/api/favorites/route.ts:5-24 | not signed in gives 401; an unreadable body 500; a missing releaseId 400; success exactly when the id binds as an integer, and then the pair is a favourite; failure leaves the database unchanged |
| FavoriteRoutes.RemoveFavorite | app/api/favorites/route.ts:26-46 | not signed in gives 401; a missing query 400; success exactly when the query parses, and then the pair is removed; failure leaves the database unchanged |
| FavoriteRoutes.CheckFavorite | app/api/favorites/route.ts:48-68 | anonymous callers get `false`; a missing query 400; an unparsable one 500; otherwise the flag is true exactly when a row for the pair exists |
| FavoriteRoutes.FavoriteRoundTrip | app/api/favorites/route.ts:5-68 | after POST the check answers true, after DELETE false |
| FavoriteRoutes.SessionKeptByFavorites | app/api/favorites/route.ts:5-46 | adding or removing favourites does not change who is signed in |
| FavoriteRoutes.ListUserFavorites | app/api/user/favorites/route.ts:5-14 | without a session 500; otherwise the user's favourite releases |
| FavoriteRoutes.AddUserFavorite | app/api/user/favorites/route.ts:16-28 | success exactly for a signed-in user whose release_id binds as an integer, and then the pair is a favourite; otherwise 500 and no change |
| FavoriteRoutes.RemoveUserFavorite | app/api/user/favorites/route.ts:30-42 | success exactly for a signed-in user whose release_id binds (null binds and deletes nothing); an integer removes the pair; otherwise 500 and no change |
| FavoriteRoutes.UserFavoriteListed | app/api/user/favorites/route.ts:5-42 | after adding, the release is listed; after removing, it is not |
| ListRoutes.IsValidStatusSpec | app/api/lists/route.ts:18-21 | exactly the five strings watching, completed, on_hold, dropped and planned are accepted |
| ListRoutes.AddToList | app/api/lists/route.ts:5-29 | 401 without a user; 500 for an unreadable body; 400 for missing fields or an invalid status; otherwise the `addToList` call is logged and its success decides 200 or 500 |
| ListRoutes.RemoveFromList | app/api/lists/route.ts:31-51 | 401 without a user; 400 without a query; otherwise the `removeFromList` call is logged and its success decides 200 or 500 |
| ListRoutes.ListStatusOf | app/api/lists/route.ts:53-73 | anonymous callers get `status: null`; a missing query 400; otherwise the status read, or 500 when the read fails |
| ProfileRoute.AfterProfileSpec | app/api/user/profile/route.ts:12-18 | only the signed-in user's username and avatar change, each only when given and different; the tables stay valid |
| ProfileRoute.SessionUserStored | app/api/user/profile/route.ts:6-10 | the session user is the row stored under its id |
| ProfileRoute.UpdateProfile | app/api/user/profile/route.ts:5-33 | without a session or a readable body 500; a changed name that cannot bind fails before any write; a changed avatar that cannot bind fails after the name was written; otherwise both updates apply and the new profile is returned |
| SearchRoute.Search | app/api/search/route.ts:5-18 | no `q` gives an empty list; otherwise the store's search results |
| SearchRoute.SearchSpec | app/api/search/route.ts:13-14 | with `q`, exactly the releases whose title_ru, title or description matches the LIKE pattern `%q%`, case-folded, newest first |
| SearchRoute.EmptyQueryListsNothing | app/api/search/route.ts:9-11 | `q=` gives an empty list, although the store would match every release |
| AdminReleaseRoutes.ReleaseFormSpec | app/api/admin/releases/route.ts:29-40 | year and total_episodes are `parseInt` of the body's values; genres and titles are taken as given |
| AdminReleaseRoutes.FeaturedArg | app/api/admin/releases/route.ts:71 | undefined and null pass no value, which `featured ?? false` in `updateRelease` stores as false; a boolean passes as itself; anything else fails to bind |
| AdminReleaseRoutes.FeaturedOrderArgSpec | app/api/admin/releases/route.ts:72 | a falsy featured_order becomes 0; a number or its decimal text is kept |
| AdminReleaseRoutes.ReleaseDayArgSpec | app/api/admin/releases/route.ts:73-78 | undefined and null are told apart; anything else is `parseInt` of it |
| AdminReleaseRoutes.ReleaseUpdateArgDefaults | app/api/admin/releases/route.ts:60-78 | a missing featured reads as false, a falsy featured_order as 0, and the other columns as in POST |
| AdminReleaseRoutes.ListReleases | app/api/admin/releases/route.ts:5-18 | 401 without the admin cookie; otherwise the answer is `getAllReleases` |
| AdminReleaseRoutes.ListReleasesSpec | app/api/admin/releases/route.ts:12-13 | for the admin, every release exactly once (same multiset), newest first |
| AdminReleaseRoutes.CreateRelease | app/api/admin/releases/route.ts:20-47 | 401 without the admin cookie; 500 when the body does not bind; otherwise the release is inserted and returned |
| AdminReleaseRoutes.UpdateRelease | app/api/admin/releases/route.ts:49-88 | 401 without the admin cookie; 500 when the body or id does not bind, or when the id names no release (the dereference at line 81); otherwise `updateRelease` applies and the row is returned; the computed `release_day` is never written, so the weekday stays as it was |
| AdminReleaseRoutes.UpdateOfAbsentRelease | app/api/admin/releases/route.ts:60-81 | updating a missing id changes nothing |
| AdminReleaseRoutes.DeleteRelease | app/api/admin/releases/route.ts:90-111 | 401 without the admin cookie; 400 without `id`; 500 when it does not parse; otherwise the cascade delete |
| AdminEpisodeRoutes.DurationArgOfText | app/api/admin/episodes/route.ts:42 | an empty duration text is undefined; any other is `parseInt` of it |
| AdminEpisodeRoutes.DurationArgSpec | app/api/admin/episodes/route.ts:42 | a falsy duration becomes undefined (so 0 is stored as NULL); a non-zero number is kept |
| AdminEpisodeRoutes.ThumbnailArg | app/api/admin/episodes/route.ts:41 | a falsy thumbnail becomes NULL; a non-empty string is kept |
| AdminEpisodeRoutes.EpisodeFormSpec | app/api/admin/episodes/route.ts:36-44 | episode_number is `parseInt` of the body's value; duration is NULL when falsy and `parseInt` of it otherwise |
| AdminEpisodeRoutes.ListEpisodes | app/api/admin/episodes/route.ts:5-25 | 401 without the admin cookie; 400 without `releaseId`; 500 when it does not parse; otherwise exactly that release's episodes in ascending number |
| AdminEpisodeRoutes.CreateEpisode | app/api/admin/episodes/route.ts:27-51 | 401 without the admin cookie; 500 when the body or release_id does not bind; otherwise the episode is inserted and returned |
| AdminEpisodeRoutes.UpdateEpisode | app/api/admin/episodes/route.ts:53-76 | 401 without the admin cookie; 500 when a parameter does not bind; a null id or an id matching no episode writes nothing and answers success without an episode, even with a null title, URL or date; a matched episode refuses such a null with 500; otherwise the update applies, keeps the episode's release and returns the row |
| AdminEpisodeRoutes.EpisodeFormBinds | lib/db.ts:245-268 | among bodies whose parameters bind, the columns are refused exactly when the title, the URL or the date is null or missing |
| AdminEpisodeRoutes.UpdateOfAbsentEpisode | lib/db.ts:257-266 | an `UPDATE … WHERE id` that matches no episode leaves the tables as they were |
| AdminEpisodeRoutes.DeleteEpisode | app/api/admin/episodes/route.ts:78-99 | 401 without the admin cookie; 400 without `id`; 500 when it does not parse; otherwise the episode is deleted |
| Client.ReleaseQueryParses | components/favorite-button.tsx:23 | `?releaseId=${id}` is read back by the routes as that id |
| FavoriteButton.ToggleRequestNamesRelease | components/favorite-button.tsx:42-54 | both the DELETE query and the POST body name the release to the route |
| FavoriteButton.ButtonText | components/favorite-button.tsx:65 | the "in favourites" text is shown exactly when the release is a favourite |
| FavoriteButton.FavoriteButton.constructor | components/favorite-button.tsx:14-15 | not a favourite, not loading, nothing sent |
| FavoriteButton.FavoriteButton.CheckFavorite | components/favorite-button.tsx:18-32 | only a signed-in user's flag is fetched; an answer sets it, a throw keeps it |
| FavoriteButton.FavoriteButton.ToggleFavorite | components/favorite-button.tsx:34-60 | anonymous users go to /login; otherwise the request for the current flag is sent and any answer flips the flag |
| FavoriteButton.ToggleTwice | components/favorite-button.tsx:34-60 | two answered toggles restore the flag, after a POST and a DELETE for the same release |
| ListButton.SameStatusTwice | components/list-button.tsx:57-71 | choosing a status adds it with POST; choosing it again removes it with DELETE |
| ListButton.PostRequestAccepted | components/list-button.tsx:65-69 | the POST body names the release and the status; a menu status passes the route's check |
| ListButton.DeleteRequestNamesRelease | components/list-button.tsx:59-61 | the DELETE query names the release to the route |
| ListButton.StatusLabel | components/list-button.tsx:79 | a label is shown exactly for a valid status, and it is that status's menu caption |
| ListButton.LabelOf | components/list-button.tsx:79 | `find` returns a caption exactly when some item has the value, and it is that item's caption |
| ListButton.MenuValuesAreValidStatuses | components/list-button.tsx:20-26 | the menu's values are exactly the statuses the lists route accepts |
| ListButton.ButtonText | components/list-button.tsx:86 | the button shows the status's caption, or the default text |
| ListButton.RemoveItemRemoves | components/list-button.tsx:100-107 | the "remove" item clears the status with a DELETE |
| ListButton.ListButton.constructor | components/list-button.tsx:29-30 | no status, not loading, nothing sent |
| ListButton.ListButton.CheckStatus | components/list-button.tsx:33-47 | only a signed-in user's status is fetched; an answer sets it, a throw keeps it |
| ListButton.ListButton.HandleStatusChange | components/list-button.tsx:49-77 | anonymous users go to `/`; otherwise the POST or DELETE is sent and any answer applies the new status |
| Catalog.AllGenres | components/catalog-client.tsx:30-36 | exactly the genres of some release, each once, in the default string order |
| Catalog.NoGenreShowsAll | components/catalog-client.tsx:39-53 | with no genre selected every release is shown, as many as the "Все" count |
| Catalog.GenreFilterSpec | components/catalog-client.tsx:39-42 | a selected genre shows exactly the releases that have it, in their original order |
| Catalog.EmptyGenreShowsAll | components/catalog-client.tsx:39-56 | selecting the empty genre shows every release (it is falsy), more than its own count says |
| Catalog.GenreCountSpec | components/catalog-client.tsx:56 | each listed genre's count is between 1 and the total, and equals what selecting it shows |
| Schedule.FilteredReleasesSpec | components/schedule-client.tsx:46-53 | exactly the releases on the selected day (if any) whose Russian title or title contains the query, case-folded; order kept |
| Schedule.NoFilterShowsAll | components/schedule-client.tsx:46-53 | no day and an empty query show every release |
| Schedule.EmptyQueryMatchesEverything | components/schedule-client.tsx:49-51 | the empty query matches every title, so only the day filters |
| Schedule.Sections | components/schedule-client.tsx:56-61 | one group per weekday with a day, holding the filtered releases on that day |
| Schedule.DayTabs | components/schedule-client.tsx:32-57 | dropping the "Все" tab leaves the seven days |
| Schedule.DaysNumbered | components/schedule-client.tsx:32-41 | the i-th section is day (i + 1) mod 7, Monday to Sunday |
| Schedule.ReleasesByDaySpec | components/schedule-client.tsx:56-61 | seven groups; group i holds the filtered releases with day (i + 1) mod 7 |
| Schedule.SectionsCount | components/schedule-client.tsx:56-61 | there are always seven groups |
| Schedule.SectionOfDay | components/schedule-client.tsx:56-61 | group i is day (i + 1) mod 7 with its name and releases |
| Schedule.GroupMembers | components/schedule-client.tsx:56-61 | a release is in group i exactly when it passed the filter and airs on that day |
| Schedule.UndatedInNoGroup | components/schedule-client.tsx:56-61 | a release without a day appears in no group |
| Schedule.DatedInOneGroup | components/schedule-client.tsx:56-61 | a filtered release with a day in 0..6 appears in exactly one group |
| Schedule.CountLabel | components/schedule-client.tsx:117 | "релиз" exactly for one release, "релизов" otherwise |
| HeroCarousel.Next | components/hero-carousel.tsx:65-71 | `(i + 1) % n` stays in range and wraps from the last slide to the first |
| HeroCarousel.Previous | components/hero-carousel.tsx:59 | `(i - 1 + n) % n` stays in range and wraps from the first slide to the last |
| HeroCarousel.NextPreviousInverse | components/hero-carousel.tsx:57-71 | next then previous, and previous then next, return to the same slide |
| HeroCarousel.Advance | components/hero-carousel.tsx:35-39 | k auto-play ticks stay in range |
| HeroCarousel.AdvanceAdd | components/hero-carousel.tsx:35-39 | a + b ticks equal a ticks followed by b ticks |
| HeroCarousel.AdvanceWithoutWrap | components/hero-carousel.tsx:35-39 | ticks that do not reach the end move forward by their count |
| HeroCarousel.FullTurn | components/hero-carousel.tsx:35-39 | n ticks return to the same slide |
| HeroCarousel.Carousel.constructor | components/hero-carousel.tsx:26-41 | slide 0, auto-play on, and the interval started only when there are slides |
| HeroCarousel.Carousel.Tick | components/hero-carousel.tsx:36-38 | with auto-play on, the next slide; otherwise the same one |
| HeroCarousel.Carousel.GoToPrevious | components/hero-carousel.tsx:57-63 | the previous slide, auto-play paused |
| HeroCarousel.Carousel.GoToNext | components/hero-carousel.tsx:65-71 | the next slide, auto-play paused |
| HeroCarousel.Carousel.GoToSlide | components/hero-carousel.tsx:73-79 | the chosen slide, auto-play paused |
| HeroCarousel.Carousel.ResumeAutoPlay | components/hero-carousel.tsx:60-62 | the timeout turns auto-play back on and keeps the slide |
| VkPlayer.MatchVideoAtShape | components/vk-player.tsx:56-59 | a match at a position has a digit video id and an owner of digits with an optional leading minus |
| VkPlayer.MatchVideoAtText | components/vk-player.tsx:56-59 | the match is read from the text as `video`, owner, `_`, video id |
| VkPlayer.MatchVideoSpec | components/vk-player.tsx:56-59 | a regex match is such a reading at some position of the URL |
| VkPlayer.MatchVideoSkip | components/vk-player.tsx:56-59 | a prefix without `v` cannot hold the match |
| VkPlayer.EmbedUrlQuery | components/vk-player.tsx:47-50 | an embed URL yields the text between its first and second `?` |
| VkPlayer.EmbedUrlWithoutQuery | components/vk-player.tsx:47-50 | an embed URL without `?` yields the empty string |
| VkPlayer.OidImpliesId | components/vk-player.tsx:52 | `includes("oid=")` implies `includes("id=")` |
| VkPlayer.OidUrlKept | components/vk-player.tsx:52-54 | a non-embed URL with `oid=` is returned unchanged |
| VkPlayer.MatchVideoAtOf | components/vk-player.tsx:56-59 | `video` + owner + `_` + id followed by a non-digit matches with that owner and id |
| VkPlayer.PageUrlNotEmbed | components/vk-player.tsx:47-54 | a VK page URL `https://vk.com/video-o_v` is neither an embed URL nor an `oid=` URL |
| VkPlayer.PageUrlMatch | components/vk-player.tsx:56-59 | a VK page URL matches with owner `-o` and video `v` |
| VkPlayer.PageUrlExtract | components/vk-player.tsx:56-59 | a VK page URL yields `oid=-o&id=v` |
| VkPlayer.RegexOutputIsFixedPoint | components/vk-player.tsx:52-59 | extracting again from the regex branch's output gives it back |
| VkPlayer.QueryKept | components/vk-player.tsx:52-54 | an `oid=…&id=…` string is returned unchanged |
| VkPlayer.IframeSrc | components/vk-player.tsx:18-23 | an iframe is shown exactly when the extracted id is non-empty, with the embed URL built from it |
| VkPlayer.IframeSrcExamples | components/vk-player.tsx:18-23 | a VK page URL gets the player for `oid=-o&id=v`; an embed URL without a query gets none |
| AdminDashboard.SplitGenres | components/admin-dashboard.tsx:122 | one genre per comma-separated piece, each trimmed |
| AdminDashboard.SplitJoined | components/admin-dashboard.tsx:240 | splitting `join(", ")` on commas gives the genres back, each after the first with a leading space |
| AdminDashboard.GenresRoundTrip | components/admin-dashboard.tsx:122-240 | joining then splitting and trimming gives back a non-empty list of trimmed genres without commas |
| AdminDashboard.EmptyGenresField | components/admin-dashboard.tsx:122-240 | an empty genres field submits `[""]`, as does editing a release without genres |
| AdminDashboard.EditFormSpec | components/admin-dashboard.tsx:229-245 | the edit form shows the release's fields; its numbers parse back to the release's year, episode count and featured order (NULL as 0); clean genres round-trip |
| AdminDashboard.ParsesBack | components/admin-dashboard.tsx:236-243 | `parseInt(n.toString())` is n |
| AdminDashboard.AfterEpisodeCreatedSpec | components/admin-dashboard.tsx:265-271 | after creating an episode the form keeps the release, duration and date, clears title, video and thumbnail, and moves the number on by one (or to "NaN") |
| AdminDashboard.EpisodeBodyFields | components/admin-dashboard.tsx:252-256 | the POST body carries each form field as a string |
| AdminDashboard.EpisodeSubmissionAccepted | components/admin-dashboard.tsx:247-281 | with a numeric episode number the route reads the submitted form back as the episode typed, with an empty thumbnail as NULL and an empty duration as undefined |
| AdminDashboard.ReleaseIdSubmitted | components/admin-dashboard.tsx:252-256 | the route reads the submitted release_id as `parseInt` of the form's text |
| AdminDashboard.EpisodePutRead | components/admin-dashboard.tsx:283-296 | the endpoint reads the `PUT` of an episode form as the form's texts and numbers, for the edited id |
| AdminDashboard.UnchangedEpisodeEditSaved | components/admin-dashboard.tsx:283-296 | saving an edited episode without changes sends a `PUT` for its id that stores its own columns (an empty thumbnail as none) |
| AdminDashboard.ReleaseBodyTexts | components/admin-dashboard.tsx:117-124 | the POST body carries each text field as given |
| AdminDashboard.ReleaseBodyOthers | components/admin-dashboard.tsx:117-124 | the POST body carries year, episode count, status and rating as text and the genres split |
| AdminDashboard.ReleasePutForm | components/admin-dashboard.tsx:156-170 | the endpoint reads the columns of a release form's `PUT` as the form's texts, its year and episode count parsed, and its genres split |
| AdminDashboard.UnchangedEditSaved | components/admin-dashboard.tsx:156-245 | saving an edited release without changes sends a `PUT` for its id that writes back its own columns, its `featured` flag (false when it had none) and its order (0 when it had none), when its genres are clean |
| AdminDashboard.Dashboard.constructor | components/admin-dashboard.tsx:47-81 | blank forms, empty lists, nothing selected, and the release list requested |
| AdminDashboard.Dashboard.ReceiveReleases | components/admin-dashboard.tsx:83-93 | an ok answer replaces the release list; anything else keeps it |
| AdminDashboard.Dashboard.ReceiveEpisodes | components/admin-dashboard.tsx:95-105 | an ok answer replaces the episode list; anything else keeps it |
| AdminDashboard.Dashboard.HandleLogout | components/admin-dashboard.tsx:107-110 | the logout request is sent and nothing else changes |
| AdminDashboard.Dashboard.HandleCreateRelease | components/admin-dashboard.tsx:112-154 | the form is posted; on success it is reset and the list reloaded; otherwise it is kept |
| AdminDashboard.Dashboard.HandleUpdateRelease | components/admin-dashboard.tsx:156-201 | nothing without a release being edited; otherwise the PUT is sent for its id, and on success editing ends, the form resets and the list reloads |
| AdminDashboard.Dashboard.HandleDeleteRelease | components/admin-dashboard.tsx:203-227 | nothing unless confirmed; on success the list reloads and a deleted selected release is deselected with its episodes cleared |
| AdminDashboard.Dashboard.HandleEditRelease | components/admin-dashboard.tsx:229-245 | the release is being edited and the form shows it |
| AdminDashboard.Dashboard.HandleCreateEpisode | components/admin-dashboard.tsx:247-281 | the form is posted; on success it moves to the next episode and the selected release's episodes reload |
| AdminDashboard.Dashboard.HandleUpdateEpisode | components/admin-dashboard.tsx:283-324 | nothing without an episode being edited; otherwise the PUT is sent, and on success editing ends, the form resets to the selected release and today, and the episodes reload |
| AdminDashboard.Dashboard.HandleDeleteEpisode | components/admin-dashboard.tsx:326-348 | nothing unless confirmed; on success the episodes reload |
| AdminDashboard.Dashboard.HandleEditEpisode | components/admin-dashboard.tsx:350-361 | the episode is being edited and the form shows it |
| AdminDashboard.Dashboard.HandleSelectRelease | components/admin-dashboard.tsx:363-370 | the release is selected, the episode form's release_id parses back to its id, and its episodes are requested |
| AdminDashboard.Dashboard.CancelReleaseEdit | components/admin-dashboard.tsx:410-426 | the release form's cancel button ends editing and blanks the form; nothing is sent |
| AdminDashboard.Dashboard.CancelEpisodeEdit | components/admin-dashboard.tsx:636-650 | the episode form's cancel button ends editing and blanks the form, keeping the selected release's id (which parses back) and today's date |
| AdminDashboard.Dashboard.ToggleFeatured | components/admin-dashboard.tsx:762-780 | the carousel checkbox sends a `PUT` of the release with the new `featured`, then reloads the list unless the `fetch` threw |
| AdminDashboard.Dashboard.ChangeOrder | components/admin-dashboard.tsx:791-809 | the order box sends a `PUT` of the release with the typed order, then reloads the list unless the `fetch` threw |
| AdminDashboard.OrderInput | components/admin-dashboard.tsx:799 | `Number.parseInt(value) \|\| 0`: text that is not a number gives 0, and a non-zero order is the parsed number |
| AdminDashboard.OrderInputOf | components/admin-dashboard.tsx:787-799 | the order the box shows reads back as itself; an emptied box gives 0 |
| AdminDashboard.FeaturedPutSaved | components/admin-dashboard.tsx:762-771 | the releases endpoint reads the checkbox's `PUT` as the release's own columns and order (0 when missing) with `featured` set to the check state, for that release's id |
| AdminDashboard.OrderPutSaved | components/admin-dashboard.tsx:791-800 | the releases endpoint reads the order box's `PUT` as the release's own columns and `featured` flag with the typed order, for that release's id |
| AdminDashboard.ReleaseFormOfListed | app/api/admin/releases/route.ts:61-71 | a body carrying a listed release's columns is read back as exactly those columns |
| AdminDashboard.SelectThenCreateEpisode | components/admin-dashboard.tsx:247-370 | selecting a release and then creating an episode submits that release's id, and on success reloads its episodes |
| Js.Field | app/api/auth/register/route.ts:8 | destructuring a missing key gives undefined; a present key gives its value |
| Js.IntToString | components/admin-dashboard.tsx:236-243 | `toString()` of an integer starts with a minus exactly for negatives, otherwise with a digit |
| Js.TrimOfTrimmed | components/admin-dashboard.tsx:122 | `trim()` leaves a trimmed string as it is |
| Js.TrimAfterSpaces | components/admin-dashboard.tsx:122 | `trim()` removes leading white space before a trimmed string |
| Js.ParseIntOfIntToString | components/admin-dashboard.tsx:236-267 | `parseInt` reads back `toString()` of any integer, whatever non-digit follows |
| Js.ParseIntValueOfText | app/api/admin/episodes/route.ts:37-38 | `parseInt` of a JSON string is `parseInt` of its text |
| Js.ParseIntValueOfNum | app/api/admin/releases/route.ts:34-36 | `parseInt` of a number, or of its decimal text, is that number |
| Js.Split | components/vk-player.tsx:48-49 | `split` gives at least one piece and no piece holds the separator |
| Js.SplitNoSep | components/vk-player.tsx:48-49 | a string without the separator splits into itself |
| Js.SplitAtSep | components/admin-dashboard.tsx:122 | a separator after a separator-free piece starts a new piece |
| Js.IncludesAt | components/vk-player.tsx:47-52 | a substring at some position is included |
| Js.NotIncludesMissingChar | components/vk-player.tsx:47-52 | a string lacking one of a pattern's characters does not include it |
| Js.MapChars | components/schedule-client.tsx:50-51 | `toLowerCase` applies the folding to every character and keeps the length |
| Js.LexLeTotal | components/catalog-client.tsx:35 | the default sort order compares any two strings |
| Js.LexLeTransitive | components/catalog-client.tsx:35 | the default sort order is transitive |
| Js.LexLeAntisymmetric | components/catalog-client.tsx:35 | strings each sorting before the other are equal |
| Rows.Find | lib/db.ts:68-73 | `result[0]` of a `WHERE`: a row satisfying the condition, or none when no row does |
| Rows.Filter | lib/db.ts:302-309 | `WHERE` keeps exactly the rows satisfying the condition, in order |
| Rows.FilterAppend | lib/db.ts:302-309 | filtering distributes over concatenation |
| Rows.FilterPairwise | lib/db.ts:302-309 | filtering keeps any order relation between rows |
| Rows.UpdateWhere | lib/db.ts:195-230 | `UPDATE … WHERE` changes exactly the rows satisfying the condition, in place |
| Rows.Reverse | lib/db.ts:117-122 | `ORDER BY created_at DESC` over insertion order: the same rows, last first |
| Rows.Take | lib/db.ts:280-288 | `LIMIT n` keeps the first n rows, or all when fewer |
| Rows.SortBy | lib/db.ts:319-326 | `ORDER BY` returns a permutation of its input |
| Rows.SortBySorted | lib/db.ts:319-326 | under a total preorder, that permutation is sorted |

## Left out

- Database connection, pooling and errors other than constraint and type failures are not modelled. The `DATABASE_URL` check at load time is not modelled either.
- Http.PgIntText / Http.IntParam: integer text is optional white space, an optional sign, decimal digits and optional white space. The forms PostgreSQL 16 added (`_` between digits, `0x`/`0o`/`0b` prefixes) are not modelled, because the server version is not in the repository.
- Http.TextParam / Http.TextArrayParam / AdminReleaseRoutes.FeaturedArg / FavoriteRoutes.AddUserFavorite: the schema and the driver's value serialization are not in the repository, so which values a column refuses is assumed, not taken from the source. The assumptions: a JS array never binds to a text column (a driver may serialize it as array-literal text); every text column the routes write refuses NULL, but only in a row the statement writes, so an `UPDATE` that matches no row succeeds; `user_favorites.release_id` refuses NULL as well (a primary key or NOT NULL; the `ON CONFLICT` target alone would admit it), so `POST /api/user/favorites` without a release_id answers 500; `featured` accepts only a JSON boolean (PostgreSQL would also read the strings 'true', 't' and '1'); integer columns are unbounded (an `int4` overflow would give 500); `release_date` is free text, though `getTodayReleases` compares it with `CURRENT_DATE`.
- Store.Database.CreateUser / Store.Database.CreateRelease / Store.Database.CreateEpisode: the id counter moves only when a row is inserted. PostgreSQL's serial `nextval` also advances for an insert that then fails on a constraint (a taken email, a NULL column), so later ids in the model can be smaller than the database's. Ids are only compared for equality, so no stated property depends on their values.
- Store.WithReleaseSpec: a new release gets `featured` false, `featured_order` 0 and no `release_day`. `createRelease` does not insert these columns, so these are assumed column defaults of the schema.
- `getLatestEpisodes` and `getTodayReleases` are not modelled: they depend on `CURRENT_DATE` and on joins used only by pages outside this model.
- `getReleaseById` is modelled only as `Store.FindRelease`, since no modelled route calls it.
- Foreign keys are not modelled, nor a possible uniqueness of episode_number. The model has no inserts into `watch_history`; it only deletes from it in the cascades.
- `created_at` is a counter that grows with each insert. The wall-clock timestamp is not modelled.
- Store.SearchReleasesSpec: `ILIKE` case folding is a function passed as a parameter, applied to the column and to the pattern's plain characters. Unicode case mapping is not modelled. The LIKE pattern is modelled with `%`, `_` and the default escape `\`; other escape settings are not.
- Schedule.FilteredReleasesSpec / Js.MapChars: `toLowerCase()` is modelled as a parameter applied to one character at a time. The real mapping is not per character: 'İ' lowers to two code points, and the final sigma depends on the letters around it. Those cases are not modelled.
- Store.GetReleasesByWeekdaySpec: `ORDER BY title_ru` compares code points. The database collation is not modelled.
- Store.GetUserFavoritesSpec: states membership only. The newest-first order of `uf.created_at DESC` is in the definition but is not proved as a lemma.
- Password hashing (`bcrypt.hash`, `bcrypt.compare`) is a function parameter. The cost factor and salt are not modelled.
- AuthRoutes.Register / AuthRoutes.Login: a non-string password makes bcrypt throw, and that is modelled as the 500 path. Other bcrypt errors are not modelled.
- `addToList`, `removeFromList` and `getUserListStatus` are imported by the lists route but `lib/db.ts` does not define them. The lists route records each call in `Store.Tables.listCalls`. Whether a call succeeds, and the status it reads, are parameters.
- Console logging and `alert` calls are not modelled. After logout the dashboard's `router.refresh()` is not modelled either.
- `Number.parseInt` is modelled for decimal text with optional leading white space and sign. The `0x` hexadecimal prefix and non-integer numbers are not modelled.
- JSON numbers are integers in the model. Floating-point values are not modelled.
- SearchRoute.Search: the 500 answer for a failing database query is not modelled.
- HeroCarousel: timers are methods that the caller invokes. How timers interleave, and what happens when the slide count changes while an interval runs, are not modelled.
- Client components ignore HTTP status codes except through `response.ok`. The list and favourite buttons do not read them at all: any answer counts as success. The model follows them.
- The dashboard's `response.json()` failure is folded into the fetch outcome.
- The current year and today's date are dashboard parameters.
- AdminDashboard.ListedBody: the list answer comes from `SELECT *`, so `...release` also carries `release_day` and `created_at`. The model's listed release has neither. The releases endpoint never stores `release_day`, so the saved row is the same.
- AdminDashboard.Dashboard.ToggleFeatured: the checkbox's "indeterminate" state is not modelled; `checked` is a boolean.
- AdminDashboard.GenresRoundTrip: genres containing a comma, or surrounding white space, do not round-trip, so the lemma requires clean genres.
- Catalog.AllGenres: `Array.prototype.sort` compares UTF-16 code units, but the model compares characters. The two orders differ only outside the Basic Multilingual Plane.
- VkPlayer.IframeSrc: the iframe's other attributes (size, allow list, title) and its rendering are not modelled.
- VkPlayer: the lemmas about VK page URLs assume owner and video ids made of digits. Other URL shapes are covered by the general `MatchVideoSpec`.
- Pages and presentation components are not part of this model, nor `app/api/user/lists`, `app/api/auth/me` and `app/api/releases/random`. They only fetch and render data through the modelled operations.
