/**
 * `components/catalog-client.tsx`: the catalog page lists every genre that
 * occurs among the releases, sorted, with a count per genre, and shows the
 * releases of the selected genre. A release without genres contributes none.
 */
module Catalog {
  import opened Wrappers
  import Js
  import Rows
  import Store

  /** No value occurs twice. */
  predicate Distinct(s: seq<string>) {
    forall i, j :: 0 <= i < j < |s| ==> s[i] != s[j]
  }

  /** Every genre of every release. */
  function GenresOf(releases: seq<Store.Release>): set<string> {
    set r, g | r in releases && g in r.genres :: g
  }

  lemma GenresOfAppend(releases: seq<Store.Release>, i: nat)
    requires i < |releases|
    ensures GenresOf(releases[..i + 1]) == GenresOf(releases[..i]) + set g | g in releases[i].genres
  {
    assert releases[..i + 1] == releases[..i] + [releases[i]];
  }

  /**
   * `allGenres`: the genres are added to a `Set` release by release (a `Set`
   * keeps first insertion order and ignores repeats), then `Array.from(...).sort()`
   * orders them by character.
   */
  method AllGenres(releases: seq<Store.Release>) returns (genres: seq<string>)
    ensures forall g :: g in genres <==> g in GenresOf(releases)
    ensures Distinct(genres)
    ensures Rows.Sorted(genres, Js.LexLe)
  {
    var inserted: seq<string> := [];
    for i := 0 to |releases|
      invariant Distinct(inserted)
      invariant forall g :: g in inserted <==> g in GenresOf(releases[..i])
    {
      var release := releases[i];
      for j := 0 to |release.genres|
        invariant Distinct(inserted)
        invariant forall g :: g in inserted <==> g in GenresOf(releases[..i]) || g in release.genres[..j]
      {
        var genre := release.genres[j];
        if genre !in inserted {
          inserted := inserted + [genre];
        }
        assert release.genres[..j + 1] == release.genres[..j] + [genre];
      }
      assert release.genres[..|release.genres|] == release.genres;
      GenresOfAppend(releases, i);
    }
    assert releases[..|releases|] == releases;
    genres := Rows.SortBy(inserted, Js.LexLe);
    StringOrder();
    Rows.SortBySorted(inserted, Js.LexLe);
    DistinctOfSameMultiset(inserted, genres);
    forall g ensures g in genres <==> g in inserted {
      assert g in genres <==> g in multiset(genres);
      assert g in inserted <==> g in multiset(inserted);
    }
  }

  /** The character order of `sort()` is total and transitive. */
  lemma StringOrder()
    ensures Rows.Connected(Js.LexLe) && Rows.Transitive(Js.LexLe)
  {
    forall a: string, b: string ensures Js.LexLe(a, b) || Js.LexLe(b, a) {
      Js.LexLeTotal(a, b);
    }
    forall a: string, b: string, c: string | Js.LexLe(a, b) && Js.LexLe(b, c) ensures Js.LexLe(a, c) {
      Js.LexLeTransitive(a, b, c);
    }
  }

  /** A sequence without repeats holds each value at most once. */
  lemma {:induction false} DistinctCounts(s: seq<string>)
    requires Distinct(s)
    ensures forall x :: multiset(s)[x] <= 1
  {
    if s != [] {
      assert Distinct(s[1..]) by {
        forall i, j | 0 <= i < j < |s[1..]| ensures s[1..][i] != s[1..][j] {
          assert s[1..][i] == s[i + 1] && s[1..][j] == s[j + 1];
        }
      }
      DistinctCounts(s[1..]);
      assert s == [s[0]] + s[1..];
      assert s[0] !in s[1..] by {
        forall k | 0 <= k < |s[1..]| ensures s[1..][k] != s[0] {
          assert s[1..][k] == s[k + 1];
        }
      }
      assert multiset(s[1..])[s[0]] == 0;
    }
  }

  /** A sequence holding each value at most once has no repeats. */
  lemma CountsDistinct(s: seq<string>)
    requires forall x :: multiset(s)[x] <= 1
    ensures Distinct(s)
  {
    forall i, j | 0 <= i < j < |s| ensures s[i] != s[j] {
      assert s == s[..j] + s[j..];
      assert s[i] in s[..j] && s[j] in s[j..];
      assert multiset(s)[s[j]] == multiset(s[..j])[s[j]] + multiset(s[j..])[s[j]];
    }
  }

  /** Reordering keeps a sequence free of repeats. */
  lemma DistinctOfSameMultiset(a: seq<string>, b: seq<string>)
    requires Distinct(a) && multiset(a) == multiset(b)
    ensures Distinct(b)
  {
    DistinctCounts(a);
    CountsDistinct(b);
  }

  /** `release.genres?.includes(genre)`. */
  function HasGenre(genre: string): Store.Release -> bool {
    (r: Store.Release) => genre in r.genres
  }

  /** `filteredReleases`: every release when no genre (or a falsy one) is selected. */
  function FilteredReleases(releases: seq<Store.Release>, selected: Option<string>): seq<Store.Release> {
    if selected.None? || selected.value == "" then releases
    else Rows.Filter(releases, HasGenre(selected.value))
  }

  /** With no genre selected the catalog shows every release, in order. */
  lemma NoGenreShowsAll(releases: seq<Store.Release>)
    ensures FilteredReleases(releases, None) == releases
    ensures |FilteredReleases(releases, None)| == AllCount(releases)
  {
  }

  /**
   * With a genre selected the catalog shows exactly the releases listing it,
   * in their order.
   */
  lemma GenreFilterSpec(releases: seq<Store.Release>, genre: string, before: (Store.Release, Store.Release) -> bool)
    requires genre != "" && Rows.Pairwise(releases, before)
    ensures forall r :: r in FilteredReleases(releases, Some(genre)) <==> r in releases && genre in r.genres
    ensures Rows.Pairwise(FilteredReleases(releases, Some(genre)), before)
  {
    Rows.FilterPairwise(releases, HasGenre(genre), before);
  }

  /**
   * The empty genre is falsy, so choosing it shows every release, although its
   * button counts only the releases listing it: when some release does not
   * list it, the button's count is below the number of releases shown.
   */
  lemma EmptyGenreShowsAll(releases: seq<Store.Release>, k: nat)
    requires k < |releases| && "" !in releases[k].genres
    ensures FilteredReleases(releases, Some("")) == releases
    ensures GenreCount(releases, "") < |FilteredReleases(releases, Some(""))|
  {
    Rows.FilterDrops(releases, HasGenre(""), k);
  }

  /** The count on a genre's button. */
  function GenreCount(releases: seq<Store.Release>, genre: string): nat {
    |Rows.Filter(releases, HasGenre(genre))|
  }

  /** The count on the "Все" button. */
  function AllCount(releases: seq<Store.Release>): nat {
    |releases|
  }

  /**
   * Every listed genre counts at least one release and at most all of them; for
   * a non-empty genre the count is the number of releases shown once it is chosen.
   */
  lemma GenreCountSpec(releases: seq<Store.Release>, genre: string)
    requires genre in GenresOf(releases)
    ensures 1 <= GenreCount(releases, genre) <= AllCount(releases)
    ensures genre != "" ==> GenreCount(releases, genre) == |FilteredReleases(releases, Some(genre))|
  {
    var r :| r in releases && genre in r.genres;
    assert r in Rows.Filter(releases, HasGenre(genre));
  }
}
