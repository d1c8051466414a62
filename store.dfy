/**
 * The relational store behind `lib/db.ts`: the tables `users`, `releases`,
 * `episodes`, `user_favorites` and `watch_history`, the queries the helpers run
 * against them and the statements that change them.
 *
 * Every table is a sequence of rows in insertion order. `created_at` is a
 * counter (`clock`) that every insert reads and advances, so `ORDER BY
 * created_at DESC` is the reversed table. Each query and each statement is a
 * pure function on a `Tables` value; the class `Database` holds the tables as
 * fields and its methods are proved to move the state exactly as those
 * functions say.
 */
module Store {
  import opened Wrappers
  import opened Rows
  import Js

  // ================================================================ rows

  /** A row of `users`. */
  datatype User = User(id: int, email: string, passwordHash: string, username: string,
                       avatarUrl: Option<string>, createdAt: nat)

  /** The columns `id, email, username, avatar_url, created_at`: a user row without its password hash. */
  datatype UserRow = UserRow(id: int, email: string, username: string, avatarUrl: Option<string>, createdAt: nat)

  function Public(u: User): UserRow {
    UserRow(u.id, u.email, u.username, u.avatarUrl, u.createdAt)
  }

  /** A row of `releases`; `releaseDay` is the weekday (0 = Sunday) of a scheduled title. */
  datatype Release = Release(
    id: int, title: string, titleRu: string, description: string, coverImageUrl: string,
    year: int, season: string, totalEpisodes: int, status: string, genres: seq<string>, rating: string,
    featured: bool, featuredOrder: int, releaseDay: Option<int>, createdAt: nat)

  /** The ten columns that `createRelease` inserts and `updateRelease` overwrites. */
  datatype ReleaseData = ReleaseData(
    title: string, titleRu: string, description: string, coverImageUrl: string,
    year: int, season: string, totalEpisodes: int, status: string, genres: seq<string>, rating: string)

  /** The argument of `updateRelease`: the form columns and the optional `featured` and `featured_order`. */
  datatype ReleaseUpdate = ReleaseUpdate(data: ReleaseData, featured: Option<bool>, featuredOrder: Option<int>)

  /** A row of `episodes`. */
  datatype Episode = Episode(
    id: int, releaseId: int, episodeNumber: int, title: string, vkVideoUrl: string,
    thumbnailUrl: Option<string>, duration: Option<int>, releaseDate: string, createdAt: nat)

  /** The argument of `createEpisode` and `updateEpisode`; `None` is an omitted optional field. */
  datatype EpisodeData = EpisodeData(
    episodeNumber: int, title: string, vkVideoUrl: string,
    thumbnailUrl: Option<string>, duration: Option<int>, releaseDate: string)

  /** A row of `user_favorites`. */
  datatype Favorite = Favorite(userId: int, releaseId: int, createdAt: nat)

  /** A row of `watch_history`: it names both the episode and its release. */
  datatype WatchEntry = WatchEntry(userId: int, episodeId: int, releaseId: int, progress: int, watchedAt: nat)

  /**
   * A call to the list helpers `addToList` / `removeFromList`, whose bodies are
   * not part of this model: the store only records that they were called.
   */
  datatype ListCall =
    | AddToList(userId: int, releaseArg: Js.Value, status: string)
    | RemoveFromList(userId: int, parsedReleaseId: Option<int>)

  // ================================================================ tables

  datatype Tables = Tables(
    users: seq<User>, releases: seq<Release>, episodes: seq<Episode>, favorites: seq<Favorite>,
    watchHistory: seq<WatchEntry>, listCalls: seq<ListCall>,
    clock: nat, nextUserId: int, nextReleaseId: int, nextEpisodeId: int)
  {
    /**
     * Keys are unique (user id and email, release id, episode id, the favourite
     * pair), fresh keys come from the counters, and `created_at` grows with
     * insertion order.
     */
    ghost predicate Valid() {
      && Pairwise(users, DistinctUsers)
      && (forall u :: u in users ==> u.id < nextUserId)
      && Pairwise(releases, ReleaseBefore)
      && (forall r :: r in releases ==> r.id < nextReleaseId && r.createdAt < clock)
      && Pairwise(episodes, DistinctEpisodes)
      && (forall e :: e in episodes ==> e.id < nextEpisodeId)
      && Pairwise(favorites, FavoriteBefore)
      && (forall f :: f in favorites ==> f.createdAt < clock)
    }
  }

  predicate DistinctUsers(a: User, b: User) { a.id != b.id && a.email != b.email }

  predicate ReleaseBefore(a: Release, b: Release) { a.id != b.id && a.createdAt < b.createdAt }

  predicate DistinctEpisodes(a: Episode, b: Episode) { a.id != b.id }

  predicate FavoriteBefore(a: Favorite, b: Favorite) {
    (a.userId != b.userId || a.releaseId != b.releaseId) && a.createdAt < b.createdAt
  }

  /** The empty store: serial ids start at 1. */
  function EmptyTables(): (t: Tables)
    ensures t.Valid()
  {
    Tables([], [], [], [], [], [], 0, 1, 1, 1)
  }

  // ================================================================ row selectors

  function HasEmail(email: string): User -> bool { (u: User) => u.email == email }
  function HasUserId(id: int): User -> bool { (u: User) => u.id == id }
  function HasReleaseId(id: int): Release -> bool { (r: Release) => r.id == id }
  function OtherRelease(id: int): Release -> bool { (r: Release) => r.id != id }
  function HasEpisodeId(id: int): Episode -> bool { (e: Episode) => e.id == id }
  function OtherEpisode(id: int): Episode -> bool { (e: Episode) => e.id != id }
  function EpisodeOf(releaseId: int): Episode -> bool { (e: Episode) => e.releaseId == releaseId }
  function EpisodeNotOf(releaseId: int): Episode -> bool { (e: Episode) => e.releaseId != releaseId }
  function FavoriteNotOf(releaseId: int): Favorite -> bool { (f: Favorite) => f.releaseId != releaseId }
  function FavoriteOfUser(userId: int): Favorite -> bool { (f: Favorite) => f.userId == userId }
  function IsPair(userId: int, releaseId: int): Favorite -> bool { (f: Favorite) => f.userId == userId && f.releaseId == releaseId }
  function NotPair(userId: int, releaseId: int): Favorite -> bool { (f: Favorite) => !(f.userId == userId && f.releaseId == releaseId) }
  function WatchNotOfRelease(releaseId: int): WatchEntry -> bool { (w: WatchEntry) => w.releaseId != releaseId }
  function WatchNotOfEpisode(episodeId: int): WatchEntry -> bool { (w: WatchEntry) => w.episodeId != episodeId }
  function HasGenre(genre: string): Release -> bool { (r: Release) => genre in r.genres }
  function IsFeatured(): Release -> bool { (r: Release) => r.featured }
  function IsScheduled(): Release -> bool { (r: Release) => r.releaseDay.Some? && r.status == "ongoing" }

  /** Rows sorted newest first by `created_at`. */
  ghost predicate NewestFirst(s: seq<Release>) {
    forall i, j :: 0 <= i < j < |s| ==> s[i].createdAt > s[j].createdAt
  }

  // ================================================================ user queries

  /** `getUserByEmail`: the full row (hash included) or null. */
  function GetUserByEmail(t: Tables, email: string): (r: Option<User>)
    ensures r.Some? ==> r.value in t.users && r.value.email == email
    ensures r.None? <==> forall u :: u in t.users ==> u.email != email
  {
    Find(t.users, HasEmail(email))
  }

  /** `getUserById`: the user's public columns or null. */
  function GetUserById(t: Tables, id: int): (r: Option<UserRow>)
    ensures r.Some? ==> r.value.id == id
    ensures r.None? <==> forall u :: u in t.users ==> u.id != id
  {
    match Find(t.users, HasUserId(id))
    case Some(u) => Some(Public(u))
    case None => None
  }

  /** In a valid store the id of a stored user finds exactly that user's public row. */
  lemma GetUserByIdOfMember(t: Tables, u: User)
    requires t.Valid() && u in t.users
    ensures GetUserById(t, u.id) == Some(Public(u))
    ensures GetUserById(t, u.id).value.email == u.email && GetUserById(t, u.id).value.username == u.username
  {
    var v := Find(t.users, HasUserId(u.id)).value;
    UserIdUnique(t, u, v);
  }

  /** The email of a stored user finds exactly that user. */
  lemma GetUserByEmailOfMember(t: Tables, u: User)
    requires t.Valid() && u in t.users
    ensures GetUserByEmail(t, u.email) == Some(u)
  {
    var v := GetUserByEmail(t, u.email).value;
    var i :| 0 <= i < |t.users| && t.users[i] == u;
    var j :| 0 <= j < |t.users| && t.users[j] == v;
  }

  lemma UserIdUnique(t: Tables, u: User, v: User)
    requires t.Valid() && u in t.users && v in t.users && u.id == v.id
    ensures u == v
  {
    var i :| 0 <= i < |t.users| && t.users[i] == u;
    var j :| 0 <= j < |t.users| && t.users[j] == v;
  }

  // ================================================================ user statements

  function NewUser(t: Tables, email: string, passwordHash: string, username: string): User {
    User(t.nextUserId, email, passwordHash, username, None, t.clock)
  }

  /** `INSERT INTO users`: the new row takes the next serial id, a NULL avatar and the current time. */
  function WithUser(t: Tables, email: string, passwordHash: string, username: string): Tables {
    t.(users := t.users + [NewUser(t, email, passwordHash, username)],
       clock := t.clock + 1, nextUserId := t.nextUserId + 1)
  }

  /** Inserting a user under a free email and the next id keeps the store valid. */
  lemma WithUserValid(t: Tables, email: string, passwordHash: string, username: string)
    requires t.Valid() && GetUserByEmail(t, email).None?
    ensures WithUser(t, email, passwordHash, username).Valid()
  {
    var u := NewUser(t, email, passwordHash, username);
    forall i | 0 <= i < |t.users| ensures DistinctUsers(t.users[i], u) {
      assert t.users[i] in t.users;
    }
    PairwiseAppend(t.users, u, DistinctUsers);
  }

  /**
   * `createUser` on a free email: the store stays valid, exactly one user has
   * that email and it is the new row, whose public columns `getUserById` returns
   * under a fresh id; no other table changes.
   */
  lemma CreateUserSpec(t: Tables, email: string, passwordHash: string, username: string)
    requires t.Valid() && GetUserByEmail(t, email).None?
    ensures WithUser(t, email, passwordHash, username).Valid()
    ensures forall u :: u in t.users ==> u.id != NewUser(t, email, passwordHash, username).id
    ensures |Filter(WithUser(t, email, passwordHash, username).users, HasEmail(email))| == 1
    ensures GetUserByEmail(WithUser(t, email, passwordHash, username), email)
            == Some(NewUser(t, email, passwordHash, username))
    ensures GetUserById(WithUser(t, email, passwordHash, username), t.nextUserId)
            == Some(UserRow(t.nextUserId, email, username, None, t.clock))
    ensures WithUser(t, email, passwordHash, username).(users := t.users, clock := t.clock, nextUserId := t.nextUserId) == t
  {
    var u := NewUser(t, email, passwordHash, username);
    var t' := WithUser(t, email, passwordHash, username);
    WithUserValid(t, email, passwordHash, username);
    FilterAppend(t.users, [u], HasEmail(email));
    FilterNone(t.users, HasEmail(email));
    assert Filter([u], HasEmail(email)) == [u];
    assert u in t'.users;
    GetUserByEmailOfMember(t', u);
    GetUserByIdOfMember(t', u);
  }

  /** `UPDATE users SET username`. */
  function SetUsername(username: string): User -> User { (u: User) => u.(username := username) }

  /** `UPDATE users SET avatar_url`. */
  function SetAvatar(avatarUrl: string): User -> User { (u: User) => u.(avatarUrl := Some(avatarUrl)) }

  function WithUsername(t: Tables, id: int, username: string): Tables {
    t.(users := UpdateWhere(t.users, HasUserId(id), SetUsername(username)))
  }

  function WithAvatar(t: Tables, id: int, avatarUrl: string): Tables {
    t.(users := UpdateWhere(t.users, HasUserId(id), SetAvatar(avatarUrl)))
  }

  /**
   * `updateUserProfile`: only that user's username changes; the returned row is
   * null exactly when no such user exists, and otherwise carries the new name
   * and the user's unchanged email and avatar.
   */
  lemma WithUsernameSpec(t: Tables, id: int, username: string)
    requires t.Valid()
    ensures WithUsername(t, id, username).Valid()
    ensures GetUserById(WithUsername(t, id, username), id).None? <==> GetUserById(t, id).None?
    ensures GetUserById(t, id).Some? ==>
              GetUserById(WithUsername(t, id, username), id) == Some(GetUserById(t, id).value.(username := username))
    ensures forall i :: 0 <= i < |t.users| && t.users[i].id != id ==> WithUsername(t, id, username).users[i] == t.users[i]
    ensures WithUsername(t, id, username).(users := t.users) == t
  {
    var t' := WithUsername(t, id, username);
    UsersUpdateValid(t, id, SetUsername(username));
    UserUpdateFound(t, id, SetUsername(username));
  }

  /** `updateUserAvatar`: only that user's avatar changes, as for `updateUserProfile`. */
  lemma WithAvatarSpec(t: Tables, id: int, avatarUrl: string)
    requires t.Valid()
    ensures WithAvatar(t, id, avatarUrl).Valid()
    ensures GetUserById(WithAvatar(t, id, avatarUrl), id).None? <==> GetUserById(t, id).None?
    ensures GetUserById(t, id).Some? ==>
              GetUserById(WithAvatar(t, id, avatarUrl), id) == Some(GetUserById(t, id).value.(avatarUrl := Some(avatarUrl)))
    ensures forall i :: 0 <= i < |t.users| && t.users[i].id != id ==> WithAvatar(t, id, avatarUrl).users[i] == t.users[i]
    ensures WithAvatar(t, id, avatarUrl).(users := t.users) == t
  {
    UsersUpdateValid(t, id, SetAvatar(avatarUrl));
    UserUpdateFound(t, id, SetAvatar(avatarUrl));
  }

  /** A rewrite of one user that keeps id and email keeps the store valid. */
  lemma UsersUpdateValid(t: Tables, id: int, f: User -> User)
    requires t.Valid()
    requires forall u :: f(u).id == u.id && f(u).email == u.email
    ensures t.(users := UpdateWhere(t.users, HasUserId(id), f)).Valid()
  {
    var us := UpdateWhere(t.users, HasUserId(id), f);
    UpdatePairwise(t.users, HasUserId(id), f, DistinctUsers);
    forall u | u in us ensures u.id < t.nextUserId {
      var k :| 0 <= k < |us| && us[k] == u;
      assert t.users[k] in t.users;
    }
  }

  /** After rewriting user `id` with `f`, looking `id` up finds the rewritten row. */
  lemma UserUpdateFound(t: Tables, id: int, f: User -> User)
    requires t.Valid()
    requires forall u :: f(u).id == u.id && f(u).email == u.email && f(u).createdAt == u.createdAt
    ensures GetUserById(t.(users := UpdateWhere(t.users, HasUserId(id), f)), id).None? <==> GetUserById(t, id).None?
    ensures GetUserById(t, id).Some? ==>
              exists u :: u in t.users && u.id == id && GetUserById(t, id) == Some(Public(u))
                && GetUserById(t.(users := UpdateWhere(t.users, HasUserId(id), f)), id) == Some(Public(f(u)))
  {
    var t' := t.(users := UpdateWhere(t.users, HasUserId(id), f));
    UsersUpdateValid(t, id, f);
    if GetUserById(t, id).Some? {
      var u := Find(t.users, HasUserId(id)).value;
      var k :| 0 <= k < |t.users| && t.users[k] == u;
      assert t'.users[k] == f(u) && f(u) in t'.users;
      GetUserByIdOfMember(t', f(u));
    } else {
      forall v | v in t'.users ensures v.id != id {
        var k :| 0 <= k < |t'.users| && t'.users[k] == v;
        assert t.users[k] in t.users;
      }
    }
  }

  // ================================================================ release queries

  /** `getAllReleases`: every release, newest first. */
  function GetAllReleases(t: Tables): seq<Release> {
    Reverse(t.releases)
  }

  /** The first release with that id (`releases[0] || null` after `WHERE id = ...`). */
  function FindRelease(t: Tables, id: int): (r: Option<Release>)
    ensures r.Some? ==> r.value in t.releases && r.value.id == id
    ensures r.None? <==> forall x :: x in t.releases ==> x.id != id
  {
    Find(t.releases, HasReleaseId(id))
  }

  lemma ReleaseIdUnique(t: Tables, x: Release, y: Release)
    requires t.Valid() && x in t.releases && y in t.releases && x.id == y.id
    ensures x == y
  {
    var i :| 0 <= i < |t.releases| && t.releases[i] == x;
    var j :| 0 <= j < |t.releases| && t.releases[j] == y;
  }

  /** A table in insertion order, reversed, is newest first. */
  lemma NewestFirstOfReverse(s: seq<Release>)
    requires Pairwise(s, ReleaseBefore)
    ensures NewestFirst(Reverse(s))
  {
    var r := Reverse(s);
    forall i, j | 0 <= i < j < |r| ensures r[i].createdAt > r[j].createdAt {
      assert ReleaseBefore(s[|s| - 1 - j], s[|s| - 1 - i]);
    }
  }

  /** `getAllReleases` lists every release once, newest first. */
  lemma GetAllReleasesSpec(t: Tables)
    requires t.Valid()
    ensures multiset(GetAllReleases(t)) == multiset(t.releases)
    ensures NewestFirst(GetAllReleases(t))
  {
    NewestFirstOfReverse(t.releases);
    ReverseMultiset(t.releases);
  }

  lemma {:induction false} ReverseMultiset<T(!new)>(s: seq<T>)
    ensures multiset(Reverse(s)) == multiset(s)
  {
    if s != [] {
      ReverseMultiset(s[1..]);
      assert s == [s[0]] + s[1..];
    }
  }

  // ---------------------------------------------------------------- LIKE patterns

  /** A piece of a LIKE pattern: one given character, `_` (any one character) or `%` (any run). */
  datatype LikeToken = Lit(c: char) | AnyChar | AnyRun

  /** The piece an unescaped pattern character stands for. */
  function Token(c: char): LikeToken {
    if c == '%' then AnyRun else if c == '_' then AnyChar else Lit(c)
  }

  /**
   * The pieces of a LIKE pattern under the default escape `\`: an escaped
   * character stands for itself. `None` is a pattern ending in a lone `\`,
   * which PostgreSQL refuses.
   */
  function LikeTokens(p: string): Option<seq<LikeToken>>
    decreases |p|
  {
    if p == [] then Some([])
    else if p[0] == '\\' then
      if |p| == 1 then None
      else match LikeTokens(p[2..]) case Some(rest) => Some([Lit(p[1])] + rest) case None => None
    else
      match LikeTokens(p[1..]) case Some(rest) => Some([Token(p[0])] + rest) case None => None
  }

  /** An unescaped character in front of a pattern adds its piece in front. */
  lemma TokensCons(c: char, p: string, rest: seq<LikeToken>)
    requires c != '\\' && LikeTokens(p) == Some(rest)
    ensures LikeTokens([c] + p) == Some([Token(c)] + rest)
  {
    assert ([c] + p)[1..] == p;
  }

  /** The whole of `s` matches the pieces `ts`. */
  predicate TokensMatch(s: string, ts: seq<LikeToken>)
    decreases |ts|, |s|
  {
    if ts == [] then s == []
    else match ts[0]
      case Lit(c) => |s| > 0 && s[0] == c && TokensMatch(s[1..], ts[1..])
      case AnyChar => |s| > 0 && TokensMatch(s[1..], ts[1..])
      case AnyRun => TokensMatch(s, ts[1..]) || (|s| > 0 && TokensMatch(s[1..], ts))
  }

  /** ILIKE compares case-folded text: the pattern's given characters are folded as the column is. */
  function FoldTokens(ts: seq<LikeToken>, fold: char -> char): (r: seq<LikeToken>)
    ensures |r| == |ts|
  {
    seq(|ts|, i requires 0 <= i < |ts| => if ts[i].Lit? then Lit(fold(ts[i].c)) else ts[i])
  }

  /** `column ILIKE pattern`, with `fold` the engine's case folding. */
  predicate ILikeMatches(column: string, pattern: string, fold: char -> char) {
    LikeTokens(pattern).Some? && TokensMatch(Js.MapChars(column, fold), FoldTokens(LikeTokens(pattern).value, fold))
  }

  /** The pattern `searchReleases` binds: `"%" + query + "%"`. */
  function SearchPattern(query: string): string {
    ['%'] + query + ['%']
  }

  /** A query with no LIKE special character: no `%`, no `_`, no `\`. */
  predicate LiteralQuery(q: string) {
    forall i :: 0 <= i < |q| ==> q[i] != '%' && q[i] != '_' && q[i] != '\\'
  }

  function Lits(q: string): (r: seq<LikeToken>)
    ensures |r| == |q| && forall i :: 0 <= i < |q| ==> r[i] == Lit(q[i])
  {
    seq(|q|, i requires 0 <= i < |q| => Lit(q[i]))
  }

  /** `%` matches every text. */
  lemma {:induction false} AnyRunMatchesAll(s: string)
    ensures TokensMatch(s, [AnyRun])
    decreases |s|
  {
    if s != [] {
      AnyRunMatchesAll(s[1..]);
    }
  }

  /** Every text followed by `%` parses: the last `%` is either a wildcard or escaped by a `\` before it. */
  lemma {:induction false} SearchSuffixParses(p: string)
    ensures LikeTokens(p + ['%']).Some?
    decreases |p|
  {
    if p == [] {
      TokensCons('%', [], []);
      assert p + ['%'] == ['%'] + [];
    } else if p[0] == '\\' && |p| >= 2 {
      assert (p + ['%'])[2..] == p[2..] + ['%'];
      SearchSuffixParses(p[2..]);
    } else if p[0] != '\\' {
      assert (p + ['%'])[1..] == p[1..] + ['%'];
      SearchSuffixParses(p[1..]);
    }
  }

  /** The search pattern always parses, so the search never fails on its pattern. */
  lemma SearchPatternParses(query: string)
    ensures LikeTokens(SearchPattern(query)).Some?
  {
    SearchSuffixParses(['%'] + query);
  }

  /** A literal query followed by `%` parses as its characters, then a wildcard. */
  lemma {:induction false} LiteralTokens(q: string)
    requires LiteralQuery(q)
    ensures LikeTokens(q + ['%']) == Some(Lits(q) + [AnyRun])
    decreases |q|
  {
    if q == [] {
      TokensCons('%', [], []);
      assert q + ['%'] == ['%'] + [];
      assert Lits(q) + [AnyRun] == [Token('%')] + [];
    } else {
      LiteralTokens(q[1..]);
      assert q[0] != '%' && q[0] != '_' && q[0] != '\\';
      TokensCons(q[0], q[1..] + ['%'], Lits(q[1..]) + [AnyRun]);
      assert q + ['%'] == [q[0]] + (q[1..] + ['%']);
      assert Lits(q) + [AnyRun] == [Token(q[0])] + (Lits(q[1..]) + [AnyRun]);
    }
  }

  /** Given characters, then `%`, match exactly the texts that start with them. */
  lemma {:induction false} LitsThenRun(s: string, q: string)
    ensures TokensMatch(s, Lits(q) + [AnyRun]) <==> Js.StartsWith(s, q)
    decreases |q|
  {
    if q == [] {
      assert Lits(q) + [AnyRun] == [AnyRun];
      AnyRunMatchesAll(s);
    } else {
      var ts := Lits(q) + [AnyRun];
      assert ts[0] == Lit(q[0]) && ts[1..] == Lits(q[1..]) + [AnyRun];
      if |s| > 0 {
        LitsThenRun(s[1..], q[1..]);
        if Js.StartsWith(s, q) {
          assert s[1..][..|q| - 1] == s[..|q|][1..];
        }
        if s[0] == q[0] && Js.StartsWith(s[1..], q[1..]) {
          assert s[..|q|] == [s[0]] + s[1..][..|q| - 1];
        }
      }
    }
  }

  /** `%`, given characters, `%` match exactly the texts that contain them. */
  lemma {:induction false} RunLitsRun(s: string, q: string)
    ensures TokensMatch(s, [AnyRun] + Lits(q) + [AnyRun]) <==> Js.Includes(s, q)
    decreases |s|
  {
    var ts := [AnyRun] + Lits(q) + [AnyRun];
    assert ts[1..] == Lits(q) + [AnyRun];
    LitsThenRun(s, q);
    if |s| > 0 {
      RunLitsRun(s[1..], q);
    }
  }

  /** Folding the pieces of a literal query folds its characters. */
  lemma FoldLiteralTokens(q: string, fold: char -> char)
    ensures FoldTokens([AnyRun] + Lits(q) + [AnyRun], fold) == [AnyRun] + Lits(Js.MapChars(q, fold)) + [AnyRun]
  {
  }

  /**
   * For a query without `%`, `_` or `\`, the search pattern matches exactly
   * the columns that contain the query once both are case-folded.
   */
  lemma LiteralQueryMatches(column: string, query: string, fold: char -> char)
    requires LiteralQuery(query)
    ensures ILikeMatches(column, SearchPattern(query), fold)
            <==> Js.Includes(Js.MapChars(column, fold), Js.MapChars(query, fold))
  {
    LiteralTokens(query);
    TokensCons('%', query + ['%'], Lits(query) + [AnyRun]);
    assert SearchPattern(query) == ['%'] + (query + ['%']);
    assert [AnyRun] + (Lits(query) + [AnyRun]) == [AnyRun] + Lits(query) + [AnyRun];
    FoldLiteralTokens(query, fold);
    RunLitsRun(Js.MapChars(column, fold), Js.MapChars(query, fold));
  }

  /** `_` in a query stands for any one character: "a_b" finds "axb". */
  lemma UnderscoreIsWildcard(fold: char -> char)
    ensures ILikeMatches("axb", SearchPattern("a_b"), fold)
  {
    var t4 := [AnyRun];
    TokensCons('%', [], []);
    assert ['%'] + [] == ['%'] && [Token('%')] + [] == t4;
    var t3 := [Lit('b')] + t4;
    TokensCons('b', ['%'], t4);
    assert ['b'] + ['%'] == ['b', '%'];
    var t2 := [AnyChar] + t3;
    TokensCons('_', ['b', '%'], t3);
    assert ['_'] + ['b', '%'] == ['_', 'b', '%'];
    var t1 := [Lit('a')] + t2;
    TokensCons('a', ['_', 'b', '%'], t2);
    assert ['a'] + ['_', 'b', '%'] == ['a', '_', 'b', '%'];
    var t0 := [AnyRun] + t1;
    TokensCons('%', ['a', '_', 'b', '%'], t1);
    assert SearchPattern("a_b") == ['%'] + ['a', '_', 'b', '%'];
    assert LikeTokens(SearchPattern("a_b")) == Some(t0);
    var ts := FoldTokens(t0, fold);
    assert ts == [AnyRun, Lit(fold('a')), AnyChar, Lit(fold('b')), AnyRun];
    var s := Js.MapChars("axb", fold);
    assert s == [fold('a'), fold('x'), fold('b')];
    AnyRunMatchesAll([]);
    assert TokensMatch(s[3..], ts[4..]);
    assert TokensMatch(s[2..], ts[3..]);
    assert TokensMatch(s[1..], ts[2..]);
    assert TokensMatch(s, ts[1..]);
  }

  /** A query of one `%` matches every column, as the empty query does. */
  lemma PercentMatchesAll(column: string, fold: char -> char)
    ensures ILikeMatches(column, SearchPattern("%"), fold)
    ensures ILikeMatches(column, SearchPattern(""), fold)
  {
    TokensCons('%', [], []);
    assert ['%'] + [] == ['%'] && [Token('%')] + [] == [AnyRun];
    TokensCons('%', ['%'], [AnyRun]);
    assert ['%'] + ['%'] == ['%', '%'] && [Token('%')] + [AnyRun] == [AnyRun, AnyRun];
    TokensCons('%', ['%', '%'], [AnyRun, AnyRun]);
    assert ['%'] + ['%', '%'] == ['%', '%', '%'] && [Token('%')] + [AnyRun, AnyRun] == [AnyRun, AnyRun, AnyRun];
    assert SearchPattern("%") == ['%', '%', '%'];
    assert SearchPattern("") == ['%', '%'];
    var s := Js.MapChars(column, fold);
    AnyRunMatchesAll(s);
    assert FoldTokens([AnyRun, AnyRun], fold) == [AnyRun, AnyRun];
    assert FoldTokens([AnyRun, AnyRun, AnyRun], fold) == [AnyRun, AnyRun, AnyRun];
    assert TokensMatch(s, [AnyRun, AnyRun]);
    assert TokensMatch(s, [AnyRun, AnyRun, AnyRun]);
  }

  /** `title_ru ILIKE p OR title ILIKE p OR description ILIKE p` for the search pattern of `query`. */
  function MatchesQuery(query: string, fold: char -> char): Release -> bool {
    (r: Release) => ILikeMatches(r.titleRu, SearchPattern(query), fold) || ILikeMatches(r.title, SearchPattern(query), fold)
         || ILikeMatches(r.description, SearchPattern(query), fold)
  }

  /** `searchReleases`: the matching releases, newest first; `fold` is the engine's case folding. */
  function SearchReleases(t: Tables, query: string, fold: char -> char): seq<Release> {
    Reverse(Filter(t.releases, MatchesQuery(query, fold)))
  }

  /**
   * A release is found iff the pattern `%query%` matches its Russian title,
   * title or description case-insensitively, and the results are newest
   * first. For a query without `%`, `_` or `\` that is a case-insensitive
   * substring test (`LiteralQueryMatches`).
   */
  lemma SearchReleasesSpec(t: Tables, query: string, fold: char -> char)
    requires t.Valid()
    ensures forall x :: x in SearchReleases(t, query, fold) <==>
              x in t.releases && (ILikeMatches(x.titleRu, SearchPattern(query), fold)
                                  || ILikeMatches(x.title, SearchPattern(query), fold)
                                  || ILikeMatches(x.description, SearchPattern(query), fold))
    ensures NewestFirst(SearchReleases(t, query, fold))
  {
    FilterPairwise(t.releases, MatchesQuery(query, fold), ReleaseBefore);
    NewestFirstOfReverse(Filter(t.releases, MatchesQuery(query, fold)));
  }

  /** At the store level an empty query matches every release: `'%%'` matches any text. */
  lemma SearchEmptyQuery(t: Tables, fold: char -> char)
    ensures SearchReleases(t, "", fold) == GetAllReleases(t)
  {
    forall x | x in t.releases ensures MatchesQuery("", fold)(x) {
      PercentMatchesAll(x.titleRu, fold);
    }
    FilterAll(t.releases, MatchesQuery("", fold));
  }

  /** `getReleasesByGenre`: releases whose genre array holds the genre, newest first. */
  function GetReleasesByGenre(t: Tables, genre: string): seq<Release> {
    Reverse(Filter(t.releases, HasGenre(genre)))
  }

  lemma GetReleasesByGenreSpec(t: Tables, genre: string)
    requires t.Valid()
    ensures forall x :: x in GetReleasesByGenre(t, genre) <==> x in t.releases && genre in x.genres
    ensures NewestFirst(GetReleasesByGenre(t, genre))
  {
    FilterPairwise(t.releases, HasGenre(genre), ReleaseBefore);
    NewestFirstOfReverse(Filter(t.releases, HasGenre(genre)));
  }

  /** `ORDER BY release_day ASC` puts NULL after every day: `a` comes strictly before `b`. */
  predicate DayBefore(a: Option<int>, b: Option<int>) {
    a.Some? && (b.None? || a.value < b.value)
  }

  /** `ORDER BY release_day ASC, title_ru ASC`. */
  predicate WeekdayLe(a: Release, b: Release) {
    DayBefore(a.releaseDay, b.releaseDay) || (a.releaseDay == b.releaseDay && Js.LexLe(a.titleRu, b.titleRu))
  }

  lemma WeekdayOrder()
    ensures Connected(WeekdayLe) && Transitive(WeekdayLe)
  {
    forall a: Release, b: Release ensures WeekdayLe(a, b) || WeekdayLe(b, a) {
      Js.LexLeTotal(a.titleRu, b.titleRu);
    }
    forall a: Release, b: Release, c: Release | WeekdayLe(a, b) && WeekdayLe(b, c) ensures WeekdayLe(a, c) {
      if a.releaseDay == b.releaseDay && b.releaseDay == c.releaseDay {
        Js.LexLeTransitive(a.titleRu, b.titleRu, c.titleRu);
      }
    }
  }

  /** `getReleasesByWeekday`. */
  function GetReleasesByWeekday(t: Tables): seq<Release> {
    SortBy(Filter(t.releases, IsScheduled()), WeekdayLe)
  }

  /**
   * Exactly the ongoing releases with a weekday, each once, ordered by weekday
   * and then by Russian title.
   */
  lemma GetReleasesByWeekdaySpec(t: Tables)
    ensures forall x :: x in GetReleasesByWeekday(t) <==> x in t.releases && x.releaseDay.Some? && x.status == "ongoing"
    ensures multiset(GetReleasesByWeekday(t)) == multiset(Filter(t.releases, IsScheduled()))
    ensures Sorted(GetReleasesByWeekday(t), WeekdayLe)
    ensures forall i, j :: 0 <= i < j < |GetReleasesByWeekday(t)| ==>
              GetReleasesByWeekday(t)[i].releaseDay.value <= GetReleasesByWeekday(t)[j].releaseDay.value
  {
    var s := Filter(t.releases, IsScheduled());
    var r := GetReleasesByWeekday(t);
    WeekdaySorted(s);
    forall x ensures x in r <==> x in s {
      assert x in r <==> x in multiset(r);
    }
    forall i | 0 <= i < |r| ensures r[i].releaseDay.Some? {
      assert r[i] in s;
    }
    forall i, j | 0 <= i < j < |r| ensures r[i].releaseDay.value <= r[j].releaseDay.value {
      assert WeekdayLe(r[i], r[j]);
    }
  }

  lemma WeekdaySorted(s: seq<Release>)
    ensures Sorted(SortBy(s, WeekdayLe), WeekdayLe)
  {
    WeekdayOrder();
    SortBySorted(s, WeekdayLe);
  }

  /** `ORDER BY featured_order ASC, created_at DESC`. */
  predicate FeaturedLe(a: Release, b: Release) {
    a.featuredOrder < b.featuredOrder || (a.featuredOrder == b.featuredOrder && a.createdAt >= b.createdAt)
  }

  lemma FeaturedOrder()
    ensures Connected(FeaturedLe) && Transitive(FeaturedLe)
  {
  }

  /** Sorting by slider order yields a sorted sequence. */
  lemma FeaturedSorted(s: seq<Release>)
    ensures Sorted(SortBy(s, FeaturedLe), FeaturedLe)
  {
    FeaturedOrder();
    SortBySorted(s, FeaturedLe);
  }

  /** `getFeaturedReleases`: featured releases in slider order, at most ten. */
  function GetFeaturedReleases(t: Tables): seq<Release> {
    Take(SortBy(Filter(t.releases, IsFeatured()), FeaturedLe), 10)
  }

  /**
   * At most ten featured releases in slider order, and they are the first ten:
   * every featured release left out sorts after every one shown.
   */
  lemma GetFeaturedReleasesSpec(t: Tables)
    ensures |GetFeaturedReleases(t)| <= 10
    ensures forall x :: x in GetFeaturedReleases(t) ==> x in t.releases && x.featured
    ensures Sorted(GetFeaturedReleases(t), FeaturedLe)
    ensures forall x, y :: x in t.releases && x.featured && x !in GetFeaturedReleases(t) && y in GetFeaturedReleases(t)
              ==> FeaturedLe(y, x)
    ensures |Filter(t.releases, IsFeatured())| <= 10 ==>
              multiset(GetFeaturedReleases(t)) == multiset(Filter(t.releases, IsFeatured()))
  {
    var s := Filter(t.releases, IsFeatured());
    var sorted := SortBy(s, FeaturedLe);
    var r := GetFeaturedReleases(t);
    FeaturedSorted(s);
    forall x | x in r ensures x in t.releases && x.featured {
      assert x in sorted && x in multiset(sorted);
    }
    FeaturedCutoff(t);
  }

  /** A featured release left out of the slider sorts after every one shown. */
  lemma FeaturedCutoff(t: Tables)
    ensures forall x, y :: x in t.releases && x.featured && x !in GetFeaturedReleases(t) && y in GetFeaturedReleases(t)
              ==> FeaturedLe(y, x)
  {
    var s := Filter(t.releases, IsFeatured());
    var sorted := SortBy(s, FeaturedLe);
    var r := GetFeaturedReleases(t);
    FeaturedSorted(s);
    forall x, y | x in t.releases && x.featured && x !in r && y in r ensures FeaturedLe(y, x) {
      assert x in multiset(sorted);
      var k :| 0 <= k < |sorted| && sorted[k] == x;
      var i :| 0 <= i < |r| && r[i] == y;
      assert k >= |r|;
      assert sorted[i] == y;
    }
  }

  // ================================================================ release statements

  /** `INSERT INTO releases`: not featured, slider order 0, no weekday, the next serial id. */
  function NewRelease(t: Tables, d: ReleaseData): Release {
    Release(t.nextReleaseId, d.title, d.titleRu, d.description, d.coverImageUrl, d.year, d.season,
            d.totalEpisodes, d.status, d.genres, d.rating, false, 0, None, t.clock)
  }

  function WithRelease(t: Tables, d: ReleaseData): Tables {
    t.(releases := t.releases + [NewRelease(t, d)], clock := t.clock + 1, nextReleaseId := t.nextReleaseId + 1)
  }

  /**
   * `createRelease` keeps the store valid; the new row carries the form columns
   * under a fresh id, is not featured and has no weekday, and is listed first by
   * `getAllReleases`.
   */
  lemma WithReleaseSpec(t: Tables, d: ReleaseData)
    requires t.Valid()
    ensures WithRelease(t, d).Valid()
    ensures forall x :: x in t.releases ==> x.id != NewRelease(t, d).id
    ensures FindRelease(WithRelease(t, d), t.nextReleaseId) == Some(NewRelease(t, d))
    ensures GetAllReleases(WithRelease(t, d))[0] == NewRelease(t, d)
    ensures !NewRelease(t, d).featured && NewRelease(t, d).featuredOrder == 0 && NewRelease(t, d).releaseDay.None?
    ensures WithRelease(t, d).(releases := t.releases, clock := t.clock, nextReleaseId := t.nextReleaseId) == t
  {
    var x := NewRelease(t, d);
    var t' := WithRelease(t, d);
    forall i | 0 <= i < |t.releases| ensures ReleaseBefore(t.releases[i], x) {
      assert t.releases[i] in t.releases;
    }
    PairwiseAppend(t.releases, x, ReleaseBefore);
    assert t'.Valid();
    var y := FindRelease(t', x.id);
    assert x in t'.releases;
    ReleaseIdUnique(t', x, y.value);
  }

  /** The columns `updateRelease` sets: the form, `featured ?? false` and `featured_order ?? 0`. */
  function ApplyUpdate(u: ReleaseUpdate): Release -> Release {
    (r: Release) => r.(title := u.data.title, titleRu := u.data.titleRu, description := u.data.description,
            coverImageUrl := u.data.coverImageUrl, year := u.data.year, season := u.data.season,
            totalEpisodes := u.data.totalEpisodes, status := u.data.status, genres := u.data.genres,
            rating := u.data.rating, featured := u.featured.GetOr(false),
            featuredOrder := u.featuredOrder.GetOr(0))
  }

  function WithReleaseUpdate(t: Tables, id: int, u: ReleaseUpdate): Tables {
    t.(releases := UpdateWhere(t.releases, HasReleaseId(id), ApplyUpdate(u)))
  }

  /** A rewrite of one release that keeps id and `created_at` keeps the store valid. */
  lemma ReleasesUpdateValid(t: Tables, id: int, f: Release -> Release)
    requires t.Valid()
    requires forall r :: f(r).id == r.id && f(r).createdAt == r.createdAt
    ensures t.(releases := UpdateWhere(t.releases, HasReleaseId(id), f)).Valid()
  {
    var rs := UpdateWhere(t.releases, HasReleaseId(id), f);
    UpdatePairwise(t.releases, HasReleaseId(id), f, ReleaseBefore);
    forall x | x in rs ensures x.id < t.nextReleaseId && x.createdAt < t.clock {
      var k :| 0 <= k < |rs| && rs[k] == x;
      assert t.releases[k] in t.releases;
    }
  }

  /** After rewriting release `id` with `f`, looking `id` up finds the rewritten row, or still nothing. */
  lemma ReleaseUpdateFound(t: Tables, id: int, f: Release -> Release)
    requires t.Valid()
    requires forall r :: f(r).id == r.id && f(r).createdAt == r.createdAt
    ensures FindRelease(t.(releases := UpdateWhere(t.releases, HasReleaseId(id), f)), id).None? <==> FindRelease(t, id).None?
    ensures FindRelease(t, id).Some? ==>
              FindRelease(t.(releases := UpdateWhere(t.releases, HasReleaseId(id), f)), id) == Some(f(FindRelease(t, id).value))
  {
    var t' := t.(releases := UpdateWhere(t.releases, HasReleaseId(id), f));
    ReleasesUpdateValid(t, id, f);
    if FindRelease(t, id).Some? {
      var x := FindRelease(t, id).value;
      var k :| 0 <= k < |t.releases| && t.releases[k] == x;
      assert t'.releases[k] == f(x) && f(x) in t'.releases;
      ReleaseIdUnique(t', FindRelease(t', id).value, f(x));
    } else {
      forall y | y in t'.releases ensures y.id != id {
        var k :| 0 <= k < |t'.releases| && t'.releases[k] == y;
        assert t.releases[k] in t.releases;
      }
    }
  }

  /**
   * `updateRelease`: the returned row is null iff no release has the id;
   * otherwise it holds the new columns with `featured` false and
   * `featured_order` 0 when they were not supplied, and keeps its weekday.
   */
  lemma WithReleaseUpdateSpec(t: Tables, id: int, u: ReleaseUpdate)
    requires t.Valid()
    ensures WithReleaseUpdate(t, id, u).Valid()
    ensures FindRelease(WithReleaseUpdate(t, id, u), id).None? <==> FindRelease(t, id).None?
    ensures FindRelease(t, id).Some? ==>
              var r := FindRelease(WithReleaseUpdate(t, id, u), id).value;
              && r == ApplyUpdate(u)(FindRelease(t, id).value)
              && r.description == u.data.description && r.coverImageUrl == u.data.coverImageUrl
              && r.year == u.data.year && r.season == u.data.season
              && r.totalEpisodes == u.data.totalEpisodes && r.rating == u.data.rating
              && r.featured == (if u.featured.Some? then u.featured.value else false)
              && r.featuredOrder == (if u.featuredOrder.Some? then u.featuredOrder.value else 0)
              && r.releaseDay == FindRelease(t, id).value.releaseDay
              && r.createdAt == FindRelease(t, id).value.createdAt
              && r.title == u.data.title && r.titleRu == u.data.titleRu && r.genres == u.data.genres
              && r.status == u.data.status
  {
    ReleasesUpdateValid(t, id, ApplyUpdate(u));
    ReleaseUpdateFound(t, id, ApplyUpdate(u));
  }

  /**
   * `updateRelease` never writes `release_day` of any release, and leaves every
   * other release and every other table as it was.
   */
  lemma WithReleaseUpdateFrame(t: Tables, id: int, u: ReleaseUpdate)
    ensures forall i :: 0 <= i < |t.releases| ==>
              WithReleaseUpdate(t, id, u).releases[i].releaseDay == t.releases[i].releaseDay
              && WithReleaseUpdate(t, id, u).releases[i].id == t.releases[i].id
    ensures forall i :: 0 <= i < |t.releases| && t.releases[i].id != id ==> WithReleaseUpdate(t, id, u).releases[i] == t.releases[i]
    ensures WithReleaseUpdate(t, id, u).(releases := t.releases) == t
  {
  }

  /**
   * `deleteRelease`, its four statements in order: the release's episodes, its
   * favourites, its watch history, then the release row.
   */
  function AfterDeleteRelease(t: Tables, id: int): Tables {
    t.(episodes := Filter(t.episodes, EpisodeNotOf(id)),
       favorites := Filter(t.favorites, FavoriteNotOf(id)),
       watchHistory := Filter(t.watchHistory, WatchNotOfRelease(id)),
       releases := Filter(t.releases, OtherRelease(id)))
  }

  /** The cascade keeps the store valid. */
  lemma AfterDeleteReleaseValid(t: Tables, id: int)
    requires t.Valid()
    ensures AfterDeleteRelease(t, id).Valid()
  {
    FilterPairwise(t.releases, OtherRelease(id), ReleaseBefore);
    FilterPairwise(t.episodes, EpisodeNotOf(id), DistinctEpisodes);
    FilterPairwise(t.favorites, FavoriteNotOf(id), FavoriteBefore);
  }

  /**
   * After `deleteRelease(id)` nothing refers to `id` any more, every other row
   * of those four tables is kept, users and list calls are untouched, and the
   * store stays valid. When the id was absent the releases are unchanged.
   */
  lemma AfterDeleteReleaseSpec(t: Tables, id: int)
    requires t.Valid()
    ensures AfterDeleteRelease(t, id).Valid()
    ensures forall x :: x in AfterDeleteRelease(t, id).releases <==> x in t.releases && x.id != id
    ensures forall e :: e in AfterDeleteRelease(t, id).episodes <==> e in t.episodes && e.releaseId != id
    ensures forall f :: f in AfterDeleteRelease(t, id).favorites <==> f in t.favorites && f.releaseId != id
    ensures forall w :: w in AfterDeleteRelease(t, id).watchHistory <==> w in t.watchHistory && w.releaseId != id
    ensures AfterDeleteRelease(t, id).users == t.users && AfterDeleteRelease(t, id).listCalls == t.listCalls
    ensures AfterDeleteRelease(t, id).clock == t.clock
    ensures FindRelease(AfterDeleteRelease(t, id), id).None?
    ensures FindRelease(t, id).None? ==> AfterDeleteRelease(t, id).releases == t.releases
  {
    AfterDeleteReleaseValid(t, id);
    if FindRelease(t, id).None? {
      FilterAll(t.releases, OtherRelease(id));
    }
  }

  // ================================================================ episodes

  /** `x || null` on an optional text column: an omitted or empty string is stored as NULL. */
  function TextOrNull(x: Option<string>): (r: Option<string>)
    ensures r.None? <==> x.None? || x.value == ""
    ensures r.Some? ==> r == x
  {
    if x.Some? && x.value != "" then x else None
  }

  /** `x || null` on an optional number: an omitted value or 0 is stored as NULL. */
  function NumberOrNull(x: Option<int>): (r: Option<int>)
    ensures r.None? <==> x.None? || x.value == 0
    ensures r.Some? ==> r == x
  {
    if x.Some? && x.value != 0 then x else None
  }

  /** The first episode with that id. */
  function FindEpisode(t: Tables, id: int): (r: Option<Episode>)
    ensures r.Some? ==> r.value in t.episodes && r.value.id == id
    ensures r.None? <==> forall e :: e in t.episodes ==> e.id != id
  {
    Find(t.episodes, HasEpisodeId(id))
  }

  lemma EpisodeIdUnique(t: Tables, x: Episode, y: Episode)
    requires t.Valid() && x in t.episodes && y in t.episodes && x.id == y.id
    ensures x == y
  {
    var i :| 0 <= i < |t.episodes| && t.episodes[i] == x;
    var j :| 0 <= j < |t.episodes| && t.episodes[j] == y;
  }

  /** `ORDER BY episode_number ASC`. */
  predicate EpisodeLe(a: Episode, b: Episode) { a.episodeNumber <= b.episodeNumber }

  /** `getEpisodesByReleaseId`. */
  function GetEpisodesByReleaseId(t: Tables, releaseId: int): seq<Episode> {
    SortBy(Filter(t.episodes, EpisodeOf(releaseId)), EpisodeLe)
  }

  /** Exactly the release's episodes, each once, in ascending episode number. */
  lemma GetEpisodesByReleaseIdSpec(t: Tables, releaseId: int)
    ensures forall e :: e in GetEpisodesByReleaseId(t, releaseId) <==> e in t.episodes && e.releaseId == releaseId
    ensures multiset(GetEpisodesByReleaseId(t, releaseId)) == multiset(Filter(t.episodes, EpisodeOf(releaseId)))
    ensures forall i, j :: 0 <= i < j < |GetEpisodesByReleaseId(t, releaseId)| ==>
              GetEpisodesByReleaseId(t, releaseId)[i].episodeNumber <= GetEpisodesByReleaseId(t, releaseId)[j].episodeNumber
  {
    var s := Filter(t.episodes, EpisodeOf(releaseId));
    var r := GetEpisodesByReleaseId(t, releaseId);
    SortBySorted(s, EpisodeLe);
    forall e ensures e in r <==> e in s {
      assert e in r <==> e in multiset(r);
    }
  }

  /** `INSERT INTO episodes`: optional columns pass through `|| null`. */
  function NewEpisode(t: Tables, releaseId: int, d: EpisodeData): Episode {
    Episode(t.nextEpisodeId, releaseId, d.episodeNumber, d.title, d.vkVideoUrl,
            TextOrNull(d.thumbnailUrl), NumberOrNull(d.duration), d.releaseDate, t.clock)
  }

  function WithEpisode(t: Tables, releaseId: int, d: EpisodeData): Tables {
    t.(episodes := t.episodes + [NewEpisode(t, releaseId, d)], clock := t.clock + 1,
       nextEpisodeId := t.nextEpisodeId + 1)
  }

  /**
   * `createEpisode` keeps the store valid and adds one episode under a fresh id,
   * which `getEpisodesByReleaseId` of its release then lists; an empty
   * thumbnail and a zero duration are stored as NULL.
   */
  lemma WithEpisodeSpec(t: Tables, releaseId: int, d: EpisodeData)
    requires t.Valid()
    ensures WithEpisode(t, releaseId, d).Valid()
    ensures forall e :: e in t.episodes ==> e.id != NewEpisode(t, releaseId, d).id
    ensures NewEpisode(t, releaseId, d) in GetEpisodesByReleaseId(WithEpisode(t, releaseId, d), releaseId)
    ensures d.thumbnailUrl == Some("") ==> NewEpisode(t, releaseId, d).thumbnailUrl.None?
    ensures d.duration == Some(0) ==> NewEpisode(t, releaseId, d).duration.None?
    ensures WithEpisode(t, releaseId, d).(episodes := t.episodes, clock := t.clock, nextEpisodeId := t.nextEpisodeId) == t
  {
    var e := NewEpisode(t, releaseId, d);
    var t' := WithEpisode(t, releaseId, d);
    forall i | 0 <= i < |t.episodes| ensures DistinctEpisodes(t.episodes[i], e) {
      assert t.episodes[i] in t.episodes;
    }
    PairwiseAppend(t.episodes, e, DistinctEpisodes);
    forall x | x in t'.releases ensures x.createdAt < t'.clock {
    }
    assert t'.Valid();
    GetEpisodesByReleaseIdSpec(t', releaseId);
  }

  /** The columns `updateEpisode` sets; `release_id` is not among them. */
  function ApplyEpisodeUpdate(d: EpisodeData): Episode -> Episode {
    (e: Episode) => e.(episodeNumber := d.episodeNumber, title := d.title, vkVideoUrl := d.vkVideoUrl,
            thumbnailUrl := TextOrNull(d.thumbnailUrl), duration := NumberOrNull(d.duration),
            releaseDate := d.releaseDate)
  }

  function WithEpisodeUpdate(t: Tables, id: int, d: EpisodeData): Tables {
    t.(episodes := UpdateWhere(t.episodes, HasEpisodeId(id), ApplyEpisodeUpdate(d)))
  }

  /**
   * `updateEpisode`: null iff no episode has the id; otherwise the returned row
   * holds the new columns and its old release. No episode changes release and
   * other episodes and tables are untouched.
   */
  lemma WithEpisodeUpdateSpec(t: Tables, id: int, d: EpisodeData)
    requires t.Valid()
    ensures WithEpisodeUpdate(t, id, d).Valid()
    ensures FindEpisode(WithEpisodeUpdate(t, id, d), id).None? <==> FindEpisode(t, id).None?
    ensures FindEpisode(t, id).Some? ==>
              var e := FindEpisode(WithEpisodeUpdate(t, id, d), id).value;
              && e == ApplyEpisodeUpdate(d)(FindEpisode(t, id).value)
              && e.releaseId == FindEpisode(t, id).value.releaseId
              && e.episodeNumber == d.episodeNumber
              && e.duration == NumberOrNull(d.duration) && e.thumbnailUrl == TextOrNull(d.thumbnailUrl)
    ensures forall i :: 0 <= i < |t.episodes| ==> WithEpisodeUpdate(t, id, d).episodes[i].releaseId == t.episodes[i].releaseId
    ensures forall i :: 0 <= i < |t.episodes| && t.episodes[i].id != id ==> WithEpisodeUpdate(t, id, d).episodes[i] == t.episodes[i]
    ensures WithEpisodeUpdate(t, id, d).(episodes := t.episodes) == t
  {
    var t' := WithEpisodeUpdate(t, id, d);
    WithEpisodeUpdateValid(t, id, d);
    if FindEpisode(t, id).Some? {
      WithEpisodeUpdateFound(t, id, d);
    } else {
      forall x | x in t'.episodes ensures x.id != id {
        var k :| 0 <= k < |t'.episodes| && t'.episodes[k] == x;
        assert t.episodes[k] in t.episodes;
      }
    }
  }

  /** The updated row is found under its id. */
  lemma WithEpisodeUpdateFound(t: Tables, id: int, d: EpisodeData)
    requires t.Valid() && FindEpisode(t, id).Some?
    ensures FindEpisode(WithEpisodeUpdate(t, id, d), id) == Some(ApplyEpisodeUpdate(d)(FindEpisode(t, id).value))
  {
    var t' := WithEpisodeUpdate(t, id, d);
    var f := ApplyEpisodeUpdate(d);
    WithEpisodeUpdateValid(t, id, d);
    var old_ := FindEpisode(t, id).value;
    var k :| 0 <= k < |t.episodes| && t.episodes[k] == old_;
    assert t'.episodes[k] == f(old_) && f(old_) in t'.episodes;
    var y := FindEpisode(t', id).value;
    EpisodeIdUnique(t', y, f(old_));
  }

  lemma WithEpisodeUpdateValid(t: Tables, id: int, d: EpisodeData)
    requires t.Valid()
    ensures WithEpisodeUpdate(t, id, d).Valid()
  {
    var t' := WithEpisodeUpdate(t, id, d);
    UpdatePairwise(t.episodes, HasEpisodeId(id), ApplyEpisodeUpdate(d), DistinctEpisodes);
    forall x | x in t'.episodes ensures x.id < t'.nextEpisodeId {
      var k :| 0 <= k < |t'.episodes| && t'.episodes[k] == x;
      assert t.episodes[k] in t.episodes;
    }
  }

  /** `deleteEpisode`: the episode's watch history first, then the episode. */
  function AfterDeleteEpisode(t: Tables, id: int): Tables {
    t.(watchHistory := Filter(t.watchHistory, WatchNotOfEpisode(id)),
       episodes := Filter(t.episodes, OtherEpisode(id)))
  }

  /**
   * After `deleteEpisode(id)` no episode and no watch-history row has that
   * episode id; every other episode and watch-history row is kept; nothing else
   * changes; the store stays valid.
   */
  lemma AfterDeleteEpisodeSpec(t: Tables, id: int)
    requires t.Valid()
    ensures AfterDeleteEpisode(t, id).Valid()
    ensures forall e :: e in AfterDeleteEpisode(t, id).episodes <==> e in t.episodes && e.id != id
    ensures forall w :: w in AfterDeleteEpisode(t, id).watchHistory <==> w in t.watchHistory && w.episodeId != id
    ensures AfterDeleteEpisode(t, id).(episodes := t.episodes, watchHistory := t.watchHistory) == t
    ensures FindEpisode(t, id).None? ==> AfterDeleteEpisode(t, id).episodes == t.episodes
  {
    FilterPairwise(t.episodes, OtherEpisode(id), DistinctEpisodes);
    if FindEpisode(t, id).None? {
      FilterAll(t.episodes, OtherEpisode(id));
    }
  }

  // ================================================================ favourites

  function FavoriteRows(t: Tables, userId: int, releaseId: int): seq<Favorite> {
    Filter(t.favorites, IsPair(userId, releaseId))
  }

  /** `isFavorite`: `COUNT(*) > 0` over the pair's rows. */
  predicate IsFavorite(t: Tables, userId: int, releaseId: int) {
    |FavoriteRows(t, userId, releaseId)| > 0
  }

  /** The count is positive iff some row holds the pair. */
  lemma IsFavoriteIff(t: Tables, userId: int, releaseId: int)
    ensures IsFavorite(t, userId, releaseId) <==>
              exists f :: f in t.favorites && f.userId == userId && f.releaseId == releaseId
  {
    var rows := FavoriteRows(t, userId, releaseId);
    if |rows| > 0 {
      assert rows[0] in rows;
    }
  }

  /** Distinct pairs: a pair has at most one row. */
  lemma {:induction false} AtMostOneRow(s: seq<Favorite>, userId: int, releaseId: int)
    requires Pairwise(s, FavoriteBefore)
    ensures |Filter(s, IsPair(userId, releaseId))| <= 1
  {
    if s != [] {
      var rest := s[1..];
      assert Pairwise(rest, FavoriteBefore) by {
        forall i, j | 0 <= i < j < |rest| ensures FavoriteBefore(rest[i], rest[j]) {
          assert rest[i] == s[i + 1] && rest[j] == s[j + 1];
        }
      }
      AtMostOneRow(rest, userId, releaseId);
      if IsPair(userId, releaseId)(s[0]) {
        forall x | x in rest ensures !IsPair(userId, releaseId)(x) {
          var k :| 0 <= k < |rest| && rest[k] == x;
          assert FavoriteBefore(s[0], s[k + 1]);
        }
        FilterNone(rest, IsPair(userId, releaseId));
      }
    }
  }

  /** `addToFavorites`: `INSERT ... ON CONFLICT (user_id, release_id) DO NOTHING`. */
  function WithFavorite(t: Tables, userId: int, releaseId: int): Tables {
    if IsFavorite(t, userId, releaseId) then t
    else t.(favorites := t.favorites + [Favorite(userId, releaseId, t.clock)], clock := t.clock + 1)
  }

  /**
   * After `addToFavorites` the pair has exactly one row; a second call changes
   * nothing; no other pair's rows and no other table change.
   */
  lemma WithFavoriteSpec(t: Tables, userId: int, releaseId: int)
    requires t.Valid()
    ensures WithFavorite(t, userId, releaseId).Valid()
    ensures |FavoriteRows(WithFavorite(t, userId, releaseId), userId, releaseId)| == 1
    ensures IsFavorite(WithFavorite(t, userId, releaseId), userId, releaseId)
    ensures WithFavorite(WithFavorite(t, userId, releaseId), userId, releaseId) == WithFavorite(t, userId, releaseId)
    ensures forall u, r :: (u != userId || r != releaseId) ==>
              FavoriteRows(WithFavorite(t, userId, releaseId), u, r) == FavoriteRows(t, u, r)
    ensures WithFavorite(t, userId, releaseId).(favorites := t.favorites, clock := t.clock) == t
  {
    var t' := WithFavorite(t, userId, releaseId);
    if IsFavorite(t, userId, releaseId) {
      AtMostOneRow(t.favorites, userId, releaseId);
    } else {
      var f := Favorite(userId, releaseId, t.clock);
      forall i | 0 <= i < |t.favorites| ensures FavoriteBefore(t.favorites[i], f) {
        assert t.favorites[i] in t.favorites;
        IsFavoriteIff(t, userId, releaseId);
      }
      PairwiseAppend(t.favorites, f, FavoriteBefore);
      assert t'.Valid();
      FilterAppend(t.favorites, [f], IsPair(userId, releaseId));
      assert Filter([f], IsPair(userId, releaseId)) == [f];
      forall u, r | u != userId || r != releaseId ensures FavoriteRows(t', u, r) == FavoriteRows(t, u, r) {
        FilterAppend(t.favorites, [f], IsPair(u, r));
        assert Filter([f], IsPair(u, r)) == [];
      }
    }
  }

  /** `removeFromFavorites`: `DELETE ... WHERE user_id = ... AND release_id = ...`. */
  function WithoutFavorite(t: Tables, userId: int, releaseId: int): Tables {
    t.(favorites := Filter(t.favorites, NotPair(userId, releaseId)))
  }

  /**
   * After `removeFromFavorites` the pair is no favourite; exactly the pair's
   * rows are gone; absent pairs make it a no-op; other tables are untouched.
   */
  lemma WithoutFavoriteSpec(t: Tables, userId: int, releaseId: int)
    requires t.Valid()
    ensures WithoutFavorite(t, userId, releaseId).Valid()
    ensures !IsFavorite(WithoutFavorite(t, userId, releaseId), userId, releaseId)
    ensures forall f :: f in WithoutFavorite(t, userId, releaseId).favorites <==>
              f in t.favorites && (f.userId != userId || f.releaseId != releaseId)
    ensures !IsFavorite(t, userId, releaseId) ==> WithoutFavorite(t, userId, releaseId) == t
    ensures WithoutFavorite(t, userId, releaseId).(favorites := t.favorites) == t
  {
    var t' := WithoutFavorite(t, userId, releaseId);
    FilterPairwise(t.favorites, NotPair(userId, releaseId), FavoriteBefore);
    IsFavoriteIff(t', userId, releaseId);
    if !IsFavorite(t, userId, releaseId) {
      IsFavoriteIff(t, userId, releaseId);
      FilterAll(t.favorites, NotPair(userId, releaseId));
    }
  }

  /** The releases named by a list of favourites, in that order (`JOIN releases`). */
  function JoinReleases(fs: seq<Favorite>, rs: seq<Release>): (r: seq<Release>)
    ensures forall x :: x in r ==> x in rs
  {
    if fs == [] then []
    else
      (match Find(rs, HasReleaseId(fs[0].releaseId)) case Some(x) => [x] case None => [])
      + JoinReleases(fs[1..], rs)
  }

  lemma {:induction false} JoinReleasesMember(fs: seq<Favorite>, rs: seq<Release>, x: Release)
    ensures x in JoinReleases(fs, rs) <==>
              exists i :: 0 <= i < |fs| && Find(rs, HasReleaseId(fs[i].releaseId)) == Some(x)
  {
    if fs != [] {
      JoinReleasesMember(fs[1..], rs, x);
      if exists i :: 0 <= i < |fs[1..]| && Find(rs, HasReleaseId(fs[1..][i].releaseId)) == Some(x) {
        var i :| 0 <= i < |fs[1..]| && Find(rs, HasReleaseId(fs[1..][i].releaseId)) == Some(x);
        assert fs[i + 1] == fs[1..][i];
      }
      if exists i :: 0 <= i < |fs| && Find(rs, HasReleaseId(fs[i].releaseId)) == Some(x) {
        var i :| 0 <= i < |fs| && Find(rs, HasReleaseId(fs[i].releaseId)) == Some(x);
        if i > 0 {
          assert fs[1..][i - 1] == fs[i];
        }
      }
    }
  }

  /** `getUserFavorites`: the user's favourite releases, most recently added first. */
  function GetUserFavorites(t: Tables, userId: int): seq<Release> {
    JoinReleases(Reverse(Filter(t.favorites, FavoriteOfUser(userId))), t.releases)
  }

  /** Every listed release exists and is a favourite of the user. */
  lemma GetUserFavoritesSound(t: Tables, userId: int, x: Release)
    requires x in GetUserFavorites(t, userId)
    ensures x in t.releases && IsFavorite(t, userId, x.id)
  {
    var s := Filter(t.favorites, FavoriteOfUser(userId));
    var fs := Reverse(s);
    JoinReleasesMember(fs, t.releases, x);
    var i :| 0 <= i < |fs| && Find(t.releases, HasReleaseId(fs[i].releaseId)) == Some(x);
    assert fs[i] == s[|s| - 1 - i];
    assert fs[i] in s;
    IsFavoriteIff(t, userId, x.id);
  }

  /** Every stored favourite release of the user is listed. */
  lemma GetUserFavoritesComplete(t: Tables, userId: int, x: Release)
    requires t.Valid() && x in t.releases && IsFavorite(t, userId, x.id)
    ensures x in GetUserFavorites(t, userId)
  {
    var s := Filter(t.favorites, FavoriteOfUser(userId));
    var fs := Reverse(s);
    IsFavoriteIff(t, userId, x.id);
    var f :| f in t.favorites && f.userId == userId && f.releaseId == x.id;
    assert f in s;
    var k :| 0 <= k < |s| && s[k] == f;
    assert fs[|s| - 1 - k] == f;
    var y := Find(t.releases, HasReleaseId(x.id)).value;
    ReleaseIdUnique(t, x, y);
    JoinReleasesMember(fs, t.releases, x);
  }

  /** A release is listed iff it exists and is a favourite of the user. */
  lemma GetUserFavoritesSpec(t: Tables, userId: int)
    requires t.Valid()
    ensures forall x :: x in GetUserFavorites(t, userId) <==> x in t.releases && IsFavorite(t, userId, x.id)
  {
    forall x ensures x in GetUserFavorites(t, userId) <==> x in t.releases && IsFavorite(t, userId, x.id) {
      if x in GetUserFavorites(t, userId) {
        GetUserFavoritesSound(t, userId, x);
      }
      if x in t.releases && IsFavorite(t, userId, x.id) {
        GetUserFavoritesComplete(t, userId, x);
      }
    }
  }

  // ================================================================ the database object

  /** The tables as mutable state; each method is one helper of `lib/db.ts`. */
  class Database {
    var users: seq<User>
    var releases: seq<Release>
    var episodes: seq<Episode>
    var favorites: seq<Favorite>
    var watchHistory: seq<WatchEntry>
    var listCalls: seq<ListCall>
    var clock: nat
    var nextUserId: int
    var nextReleaseId: int
    var nextEpisodeId: int

    function State(): Tables
      reads this
    {
      Tables(users, releases, episodes, favorites, watchHistory, listCalls,
             clock, nextUserId, nextReleaseId, nextEpisodeId)
    }

    ghost predicate Valid()
      reads this
    {
      State().Valid()
    }

    constructor ()
      ensures Valid() && State() == EmptyTables()
    {
      users, releases, episodes, favorites, watchHistory, listCalls := [], [], [], [], [], [];
      clock, nextUserId, nextReleaseId, nextEpisodeId := 0, 1, 1, 1;
    }

    /** `createUser`; the unique index on `email` makes the insert fail (`None`) on a taken email. */
    method CreateUser(email: string, passwordHash: string, username: string) returns (r: Option<UserRow>)
      requires Valid()
      modifies this
      ensures Valid()
      ensures old(GetUserByEmail(State(), email)).Some? ==> r.None? && State() == old(State())
      ensures old(GetUserByEmail(State(), email)).None? ==>
                State() == WithUser(old(State()), email, passwordHash, username)
                && r == Some(Public(NewUser(old(State()), email, passwordHash, username)))
    {
      if Find(users, HasEmail(email)).Some? {
        return None;
      }
      WithUserValid(State(), email, passwordHash, username);
      var u := User(nextUserId, email, passwordHash, username, None, clock);
      users := users + [u];
      clock := clock + 1;
      nextUserId := nextUserId + 1;
      r := Some(Public(u));
    }

    /** `updateUserProfile`: `UPDATE users SET username ... RETURNING` the public columns. */
    method UpdateUserProfile(id: int, username: string) returns (r: Option<UserRow>)
      requires Valid()
      modifies this
      ensures Valid()
      ensures State() == WithUsername(old(State()), id, username)
      ensures r == GetUserById(State(), id)
    {
      WithUsernameSpec(State(), id, username);
      users := UpdateWhere(users, HasUserId(id), SetUsername(username));
      r := GetUserById(State(), id);
    }

    /** `updateUserAvatar`: `UPDATE users SET avatar_url ... RETURNING` the public columns. */
    method UpdateUserAvatar(id: int, avatarUrl: string) returns (r: Option<UserRow>)
      requires Valid()
      modifies this
      ensures Valid()
      ensures State() == WithAvatar(old(State()), id, avatarUrl)
      ensures r == GetUserById(State(), id)
    {
      WithAvatarSpec(State(), id, avatarUrl);
      users := UpdateWhere(users, HasUserId(id), SetAvatar(avatarUrl));
      r := GetUserById(State(), id);
    }

    /** `createRelease`: `INSERT ... RETURNING *`. */
    method CreateRelease(d: ReleaseData) returns (r: Release)
      requires Valid()
      modifies this
      ensures Valid()
      ensures State() == WithRelease(old(State()), d)
      ensures r == NewRelease(old(State()), d)
    {
      WithReleaseSpec(State(), d);
      r := NewRelease(State(), d);
      releases := releases + [r];
      clock := clock + 1;
      nextReleaseId := nextReleaseId + 1;
    }

    /** `updateRelease`: `UPDATE ... WHERE id = ... RETURNING *`, null when no row matched. */
    method UpdateRelease(id: int, u: ReleaseUpdate) returns (r: Option<Release>)
      requires Valid()
      modifies this
      ensures Valid()
      ensures State() == WithReleaseUpdate(old(State()), id, u)
      ensures r == FindRelease(State(), id)
    {
      ReleasesUpdateValid(State(), id, ApplyUpdate(u));
      releases := UpdateWhere(releases, HasReleaseId(id), ApplyUpdate(u));
      r := FindRelease(State(), id);
    }

    /** `deleteRelease`: four statements in order; returns the deleted row, or null. */
    method DeleteRelease(id: int) returns (r: Option<Release>)
      requires Valid()
      modifies this
      ensures Valid()
      ensures State() == AfterDeleteRelease(old(State()), id)
      ensures r == FindRelease(old(State()), id)
    {
      ghost var t := State();
      AfterDeleteReleaseValid(t, id);
      episodes := Filter(episodes, EpisodeNotOf(id));
      favorites := Filter(favorites, FavoriteNotOf(id));
      watchHistory := Filter(watchHistory, WatchNotOfRelease(id));
      r := Find(releases, HasReleaseId(id));
      releases := Filter(releases, OtherRelease(id));
      assert State() == AfterDeleteRelease(t, id);
    }

    /** `createEpisode`: `INSERT ... RETURNING *`. */
    method CreateEpisode(releaseId: int, d: EpisodeData) returns (r: Episode)
      requires Valid()
      modifies this
      ensures Valid()
      ensures State() == WithEpisode(old(State()), releaseId, d)
      ensures r == NewEpisode(old(State()), releaseId, d)
    {
      WithEpisodeSpec(State(), releaseId, d);
      r := NewEpisode(State(), releaseId, d);
      episodes := episodes + [r];
      clock := clock + 1;
      nextEpisodeId := nextEpisodeId + 1;
    }

    /** `updateEpisode`: `UPDATE ... WHERE id = ... RETURNING *`, null when no row matched. */
    method UpdateEpisode(id: int, d: EpisodeData) returns (r: Option<Episode>)
      requires Valid()
      modifies this
      ensures Valid()
      ensures State() == WithEpisodeUpdate(old(State()), id, d)
      ensures r == FindEpisode(State(), id)
    {
      WithEpisodeUpdateSpec(State(), id, d);
      episodes := UpdateWhere(episodes, HasEpisodeId(id), ApplyEpisodeUpdate(d));
      r := FindEpisode(State(), id);
    }

    /** `deleteEpisode`: watch history first, then the episode; returns the deleted row, or null. */
    method DeleteEpisode(id: int) returns (r: Option<Episode>)
      requires Valid()
      modifies this
      ensures Valid()
      ensures State() == AfterDeleteEpisode(old(State()), id)
      ensures r == FindEpisode(old(State()), id)
    {
      AfterDeleteEpisodeSpec(State(), id);
      watchHistory := Filter(watchHistory, WatchNotOfEpisode(id));
      r := Find(episodes, HasEpisodeId(id));
      episodes := Filter(episodes, OtherEpisode(id));
    }

    /** `addToFavorites`. */
    method AddToFavorites(userId: int, releaseId: int)
      requires Valid()
      modifies this
      ensures Valid()
      ensures State() == WithFavorite(old(State()), userId, releaseId)
    {
      WithFavoriteSpec(State(), userId, releaseId);
      if |Filter(favorites, IsPair(userId, releaseId))| == 0 {
        favorites := favorites + [Favorite(userId, releaseId, clock)];
        clock := clock + 1;
      }
    }

    /** `removeFromFavorites`. */
    method RemoveFromFavorites(userId: int, releaseId: int)
      requires Valid()
      modifies this
      ensures Valid()
      ensures State() == WithoutFavorite(old(State()), userId, releaseId)
    {
      WithoutFavoriteSpec(State(), userId, releaseId);
      favorites := Filter(favorites, NotPair(userId, releaseId));
    }

    /** A call to `addToList` or `removeFromList`, recorded and otherwise opaque. */
    method RecordListCall(c: ListCall)
      requires Valid()
      modifies this
      ensures Valid()
      ensures State() == old(State()).(listCalls := old(listCalls) + [c])
    {
      listCalls := listCalls + [c];
    }
  }
}
