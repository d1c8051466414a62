/**
 * `GET /api/search?q=`: the search dialog's endpoint. An absent or empty query
 * is answered with no releases before the store is asked, so the endpoint never
 * lists every release even though `searchReleases("")` would.
 */
module SearchRoute {
  import opened Wrappers
  import Js
  import Store
  import opened Http

  /** The answer for a request, with `fold` the engine's case folding. */
  function Search(t: Store.Tables, req: Request, fold: char -> char): (r: Response)
    ensures !Given(Query(req, "q")) ==> r == Ok(Releases([]))
    ensures Given(Query(req, "q")) ==> r == Ok(Releases(Store.SearchReleases(t, Query(req, "q").value, fold)))
  {
    var query := Query(req, "q");
    if !Given(query) then Ok(Releases([]))
    else Ok(Releases(Store.SearchReleases(t, query.value, fold)))
  }

  /**
   * For a non-empty query, whitespace included, exactly the releases whose
   * Russian title, title or description match the LIKE pattern `%q%`,
   * ignoring case, newest first.
   */
  lemma SearchSpec(t: Store.Tables, req: Request, fold: char -> char)
    requires t.Valid() && Given(Query(req, "q"))
    ensures var q := Query(req, "q").value;
            var found := Search(t, req, fold).payload.releases;
            (forall x :: x in found <==>
               x in t.releases && (Store.ILikeMatches(x.titleRu, Store.SearchPattern(q), fold)
                                   || Store.ILikeMatches(x.title, Store.SearchPattern(q), fold)
                                   || Store.ILikeMatches(x.description, Store.SearchPattern(q), fold)))
            && Store.NewestFirst(found)
  {
    Store.SearchReleasesSpec(t, Query(req, "q").value, fold);
  }

  /**
   * The short-circuit matters: with at least one release, an empty query gets
   * an empty answer, while the store's search for "" lists every release.
   */
  lemma EmptyQueryListsNothing(t: Store.Tables, req: Request, fold: char -> char)
    requires |t.releases| > 0 && Query(req, "q") == Some("")
    ensures Search(t, req, fold).payload.releases == []
    ensures |Store.SearchReleases(t, "", fold)| == |t.releases|
    ensures Search(t, req, fold) != Ok(Releases(Store.SearchReleases(t, "", fold)))
  {
    Store.SearchEmptyQuery(t, fold);
  }
}
