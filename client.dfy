/**
 * What the client components send with `fetch`, and how a `fetch` ends. A
 * `fetch` only throws when no answer arrives: an error status is an answer,
 * and the components read none of them.
 */
module Client {
  import opened Wrappers
  import Js
  import Http

  /** How an awaited `fetch` ends: an answer with some HTTP status, or a throw. */
  datatype Outcome = Answered(status: int) | Threw

  /** `response.ok`: an answer with a 2xx status. */
  predicate IsOk(outcome: Outcome) {
    outcome.Answered? && 200 <= outcome.status <= 299
  }

  /** A request a component sends: its verb, its path, and its query and JSON body as the route reads them. */
  datatype Fetch = Fetch(verb: string, path: string, req: Http.Request)

  /** `if (!userId)`: `null` and `0` mean nobody is signed in. */
  predicate SignedIn(userId: Option<int>) {
    userId.Some? && userId.value != 0
  }

  /** `` `${path}?releaseId=${releaseId}` ``, with the query as the route sees it. */
  function WithReleaseQuery(verb: string, path: string, releaseId: int): Fetch {
    Fetch(verb, path, Http.Request(None, map["releaseId" := Js.IntToString(releaseId)]))
  }

  /** The route reads back the release id the query was written from. */
  lemma ReleaseQueryParses(verb: string, path: string, releaseId: int)
    ensures var req := WithReleaseQuery(verb, path, releaseId).req;
            Http.Given(Http.Query(req, "releaseId"))
            && Js.ParseInt(Http.Query(req, "releaseId").value) == Some(releaseId)
  {
    Js.ParseIntOfIntToString(releaseId, []);
    assert Js.IntToString(releaseId) + [] == Js.IntToString(releaseId);
  }
}
